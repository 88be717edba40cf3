/**
 * Who receives a message the hub sends out. The hub keeps its connections in a registry
 * ordered by arrival; a broadcast walks that registry and sends to every connection whose
 * socket is open, skipping the sender when there is one to skip.
 */
module Fanout {
  import opened JsText
  import opened World

  /** A connection, by identity. */
  type Conn = nat

  /** One `send` of message `msg` on connection `to`. */
  datatype Delivery<T> = Delivery(to: Conn, msg: T)

  /** Whether a broadcast reaches `c`: registered, open and not the excluded connection. */
  predicate Receives(clients: seq<Conn>, open: set<Conn>, except: Option<Conn>, c: Conn) {
    c in clients && c in open && except != Some(c)
  }

  /** The deliveries of one broadcast of `m`, in registry order. */
  function Broadcast<T>(clients: seq<Conn>, open: set<Conn>, except: Option<Conn>, m: T): (ds: seq<Delivery<T>>)
    ensures |ds| <= |clients|
    ensures forall d :: d in ds ==> d.msg == m && Receives(clients, open, except, d.to)
  {
    if clients == [] then []
    else
      var c := clients[|clients| - 1];
      assert forall x :: x in clients[..|clients| - 1] ==> x in clients;
      Broadcast(clients[..|clients| - 1], open, except, m)
        + (if c in open && except != Some(c) then [Delivery(c, m)] else [])
  }

  /** How many of the deliveries go to `c`. */
  function SentTo<T>(ds: seq<Delivery<T>>, c: Conn): (n: nat)
    ensures n <= |ds|
  {
    if ds == [] then 0 else SentTo(ds[..|ds| - 1], c) + (if ds[|ds| - 1].to == c then 1 else 0)
  }

  /** No delivery to a connection that none of the deliveries names. */
  lemma {:induction false} SentToAbsent<T>(ds: seq<Delivery<T>>, c: Conn)
    requires forall d :: d in ds ==> d.to != c
    ensures SentTo(ds, c) == 0
  {
    if ds != [] {
      assert forall d :: d in ds[..|ds| - 1] ==> d in ds;
      assert ds[|ds| - 1] in ds;
      SentToAbsent(ds[..|ds| - 1], c);
    }
  }

  /**
   * With a registry that holds each connection once, a broadcast reaches every open,
   * registered connection other than the excluded one exactly once, and no other.
   */
  lemma {:induction false} BroadcastExactlyOnce<T>(clients: seq<Conn>, open: set<Conn>, except: Option<Conn>, m: T, c: Conn)
    requires NoDuplicates(clients)
    ensures Receives(clients, open, except, c) ==> SentTo(Broadcast(clients, open, except, m), c) == 1
    ensures !Receives(clients, open, except, c) ==> SentTo(Broadcast(clients, open, except, m), c) == 0
  {
    if clients == [] {
    } else {
      var prefix := clients[..|clients| - 1];
      var last := clients[|clients| - 1];
      assert NoDuplicates(prefix);
      BroadcastExactlyOnce(prefix, open, except, m, c);
      var before := Broadcast(prefix, open, except, m);
      var tail: seq<Delivery<T>> := if last in open && except != Some(last) then [Delivery(last, m)] else [];
      var ds := Broadcast(clients, open, except, m);
      assert ds == before + tail;
      SentToAppend(before, tail, c);
      assert forall x :: x in clients <==> x in prefix || x == last;
      if last == c {
        assert c !in prefix by {
          forall i | 0 <= i < |prefix| ensures prefix[i] != c {
            assert clients[i] != clients[|clients| - 1];
          }
        }
      }
    }
  }

  /** Counting deliveries works piece by piece. */
  lemma {:induction false} SentToAppend<T>(a: seq<Delivery<T>>, b: seq<Delivery<T>>, c: Conn)
    ensures SentTo(a + b, c) == SentTo(a, c) + SentTo(b, c)
    decreases |b|
  {
    if b == [] {
      assert a + b == a;
    } else {
      assert (a + b)[..|a + b| - 1] == a + b[..|b| - 1];
      SentToAppend(a, b[..|b| - 1], c);
    }
  }

  /** The excluded connection never receives its own broadcast, whatever the registry holds. */
  lemma SenderExcluded<T>(clients: seq<Conn>, open: set<Conn>, sender: Conn, m: T)
    ensures SentTo(Broadcast(clients, open, Some(sender), m), sender) == 0
  {
    SentToAbsent(Broadcast(clients, open, Some(sender), m), sender);
  }
}
