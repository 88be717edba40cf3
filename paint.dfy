/**
 * The paint rule shared by the hub and the grid: painting with pure white removes the key
 * (white is a tombstone, never a stored colour); any other colour is stored as given.
 */
module Paint {

  /** The tombstone colour, compared as an exact string. */
  const White := "rgb(255, 255, 255)"

  /** A colour map that holds no tombstone. */
  predicate NoTombstones(m: map<string, string>) {
    forall k :: k in m ==> m[k] != White
  }

  /** Paints `key` with `color` in a colour map (tiles or edges). */
  function ApplyPaint(m: map<string, string>, key: string, color: string): (r: map<string, string>)
    ensures color == White ==> key !in r
    ensures color != White ==> key in r && r[key] == color
    ensures forall k :: k != key ==> (k in r <==> k in m)
    ensures forall k :: k != key && k in r ==> r[k] == m[k]
    ensures NoTombstones(m) ==> NoTombstones(r)
  {
    if color == White then m - {key} else m[key := color]
  }
}
