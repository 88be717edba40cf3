/**
 * The dice roller: how many dice of each type to roll (0 to 10 each), a modifier typed as
 * text, the rolled values, their total and the label of the roll button. `Math.random`
 * becomes a sequence of draws in [0, 1), used in the order the component calls it.
 */
module Dice {
  import opened JsText

  datatype Die = D4 | D6 | D8 | D10 | D12 | D20 | D100 {
    function Sides(): (n: nat)
      ensures n >= 4
    {
      match this
      case D4 => 4
      case D6 => 6
      case D8 => 8
      case D10 => 10
      case D12 => 12
      case D20 => 20
      case D100 => 100
    }

    /** The key of the die in the counts object, also written in the roll label. */
    function Name(): string {
      match this
      case D4 => "d4"
      case D6 => "d6"
      case D8 => "d8"
      case D10 => "d10"
      case D12 => "d12"
      case D20 => "d20"
      case D100 => "d100"
    }

    /** The position of the die's key in the counts object, that is, in `AllDice`. */
    function Rank(): (r: nat)
      ensures r < |AllDice| && AllDice[r] == this
    {
      match this
      case D4 => 0
      case D6 => 1
      case D8 => 2
      case D10 => 3
      case D12 => 4
      case D20 => 5
      case D100 => 6
    }
  }

  /** The die types in the key order of the counts object, the order every loop visits them. */
  const AllDice: seq<Die> := [D4, D6, D8, D10, D12, D20, D100]

  /** A list of die types in key order: each comes strictly after the one before it. */
  predicate InKeyOrder(ds: seq<Die>) {
    forall i, j :: 0 <= i < j < |ds| ==> ds[i].Rank() < ds[j].Rank()
  }

  lemma AllDiceInKeyOrder()
    ensures InKeyOrder(AllDice)
  {
    forall i, j | 0 <= i < j < |AllDice|
      ensures AllDice[i].Rank() < AllDice[j].Rank()
    {
      assert forall k :: 0 <= k < |AllDice| ==> AllDice[k].Rank() == k;
    }
  }

  const MaxDice: int := 10

  /** The draws a roll spends on the final rotation of the animated dice, before any die. */
  const RotationDraws: nat := 3

  /** How many dice of each type are selected. */
  type Counts = map<Die, int>

  /** The counts object always has a key for every die type. */
  predicate Complete(counts: Counts) {
    forall d: Die :: d in counts
  }

  const InitialCounts: Counts := map[D4 := 0, D6 := 0, D8 := 0, D10 := 0, D12 := 0, D20 := 1, D100 := 0]

  /** Every die type is listed once and is a key of the initial counts. */
  lemma AllDiceListed()
    ensures forall d: Die :: d in AllDice && d in InitialCounts
  {
    forall d: Die
      ensures d in AllDice && d in InitialCounts
    {
      match d
      case D4 => assert AllDice[0] == d;
      case D6 => assert AllDice[1] == d;
      case D8 => assert AllDice[2] == d;
      case D10 => assert AllDice[3] == d;
      case D12 => assert AllDice[4] == d;
      case D20 => assert AllDice[5] == d;
      case D100 => assert AllDice[6] == d;
    }
  }

  /** `updateDiceCount` for one die type: one more up to ten, or one fewer down to zero. */
  function UpdatedCount(count: int, increment: bool): (c: int)
    ensures increment ==> c <= MaxDice && (count < MaxDice ==> c == count + 1) && (count >= MaxDice ==> c == MaxDice)
    ensures !increment ==> c >= 0 && (count > 0 ==> c == count - 1) && (count <= 0 ==> c == 0)
  {
    if increment then (if MaxDice < count + 1 then MaxDice else count + 1)
    else (if 0 > count - 1 then 0 else count - 1)
  }

  /** Counts between 0 and 10 stay between 0 and 10, whatever is clicked. */
  lemma CountStaysInRange(count: int, increment: bool)
    requires 0 <= count <= MaxDice
    ensures 0 <= UpdatedCount(count, increment) <= MaxDice
  {
  }

  /** `/^-?\d+$/.test(value)`: an optional minus sign, then at least one ASCII digit. */
  predicate IsSignedDigits(value: string) {
    var digits := if |value| > 0 && value[0] == '-' then value[1..] else value;
    |digits| > 0 && AllDigits(digits, 10)
  }

  /** What `handleModifierChange` accepts. */
  predicate IsValidModifier(value: string) {
    value == "" || value == "-" || IsSignedDigits(value)
  }

  /**
   * The modifier as a number: "" and "-" count as 0, anything else is read by `parseInt`.
   * On an accepted modifier that is its sign applied to the value of its digits.
   */
  function ModifierValue(modifier: string): (v: int)
    requires IsValidModifier(modifier)
    ensures modifier == "" || modifier == "-" ==> v == 0
    ensures IsSignedDigits(modifier) && modifier[0] == '-' ==> v == -(DigitsValue(modifier[1..], 10) as int)
    ensures IsSignedDigits(modifier) && modifier[0] != '-' ==> v == DigitsValue(modifier, 10)
  {
    if modifier == "" || modifier == "-" then 0
    else
      ParseIntOfSignedDigits(modifier);
      ParseInt(modifier, 0).value
  }

  /** `parseInt` (radix 0) reads an optional minus sign followed by decimal digits. */
  lemma ParseIntOfSignedDigits(s: string)
    requires IsSignedDigits(s)
    ensures ParseInt(s, 0).Some?
    ensures s[0] == '-' ==> ParseInt(s, 0).value == -(DigitsValue(s[1..], 10) as int)
    ensures s[0] != '-' ==> ParseInt(s, 0).value == DigitsValue(s, 10)
  {
    if s[0] == '-' {
      ParseIntOfNegativeDigits(s[1..]);
      assert s == "-" + s[1..];
    } else {
      ParseIntOfDigits(s, 10);
    }
  }

  /** Whatever integer the component writes as text is accepted as a modifier and read back. */
  lemma IntTextIsValidModifier(i: int)
    ensures IsValidModifier(IntToString(i, 10))
    ensures ModifierValue(IntToString(i, 10)) == i
  {
    var s := IntToString(i, 10);
    var m: nat := if i < 0 then -i else i;
    if i < 0 {
      assert s[1..] == NatToString(m, 10);
    } else {
      assert DigitValue(s[0]) < 10;
    }
    ParseIntOfIntToString(i);
    ParseIntOfSignedDigits(s);
  }

  /** `hasSelectedDice`: some count is positive. */
  predicate HasSelectedDice(counts: Counts) {
    exists d :: d in counts && counts[d] > 0
  }

  /** The die types with a positive count, in key order. */
  function SelectedTypes(counts: Counts, dice: seq<Die>): (s: seq<Die>)
    requires Complete(counts)
    ensures |s| <= |dice|
    ensures forall d :: d in s <==> d in dice && counts[d] > 0
  {
    if dice == [] then []
    else
      var prev := SelectedTypes(counts, dice[..|dice| - 1]);
      var d := dice[|dice| - 1];
      assert forall e :: e in dice <==> e in dice[..|dice| - 1] || e == d;
      if counts[d] > 0 then prev + [d] else prev
  }

  /** Selecting from a list in key order keeps key order, so no type is listed twice. */
  lemma {:induction false} SelectedTypesInKeyOrder(counts: Counts, dice: seq<Die>)
    requires Complete(counts) && InKeyOrder(dice)
    ensures InKeyOrder(SelectedTypes(counts, dice))
  {
    if dice != [] {
      var before := dice[..|dice| - 1];
      var d := dice[|dice| - 1];
      SelectedTypesInKeyOrder(counts, before);
      var prev := SelectedTypes(counts, before);
      if counts[d] > 0 {
        forall e | e in prev ensures e.Rank() < d.Rank() {
          var k :| 0 <= k < |before| && before[k] == e;
        }
        var s := prev + [d];
        forall i, j | 0 <= i < j < |s| ensures s[i].Rank() < s[j].Rank() {
          if j == |prev| {
            assert s[i] in prev;
          }
        }
      }
    }
  }

  /** No selected type comes before the first selected type in key order. */
  lemma FirstSelectedComesFirst(counts: Counts, e: Die)
    requires Complete(counts) && counts[e] > 0
    ensures var s := SelectedTypes(counts, AllDice); |s| > 0 && s[0].Rank() <= e.Rank()
  {
    var s := SelectedTypes(counts, AllDice);
    AllDiceListed();
    AllDiceInKeyOrder();
    SelectedTypesInKeyOrder(counts, AllDice);
    assert e in s;
    var k :| 0 <= k < |s| && s[k] == e;
    assert k == 0 || s[0].Rank() < s[k].Rank();
  }

  /** Some die is selected exactly when the selected types are not empty. */
  lemma SelectedTypesNonEmpty(counts: Counts)
    requires Complete(counts)
    ensures HasSelectedDice(counts) <==> |SelectedTypes(counts, AllDice)| > 0
  {
    var s := SelectedTypes(counts, AllDice);
    if |s| > 0 {
      assert s[0] in s;
    }
    if HasSelectedDice(counts) {
      var d :| d in counts && counts[d] > 0;
      AllDiceListed();
      assert d in SelectedTypes(counts, AllDice);
    }
  }

  /** One die value from one draw `r` in [0, 1): `Math.floor(r * sides) + 1`. */
  function Roll(d: Die, r: real): (v: int)
    requires 0.0 <= r < 1.0
    ensures 1 <= v <= d.Sides()
  {
    RollInRange(d.Sides(), r);
    (r * d.Sides() as real).Floor + 1
  }

  lemma RollInRange(sides: nat, r: real)
    requires 0.0 <= r < 1.0 && sides > 0
    ensures 0 <= (r * sides as real).Floor < sides
  {
    assert 0.0 <= r * sides as real < sides as real;
  }

  /** Every draw lies in [0, 1), as `Math.random` promises. */
  predicate Draws(rand: seq<real>) {
    forall k :: 0 <= k < |rand| ==> 0.0 <= rand[k] < 1.0
  }

  /** Any run of consecutive draws is itself a list of draws. */
  lemma DrawsSlice(rand: seq<real>, lo: nat, hi: nat)
    requires Draws(rand) && lo <= hi <= |rand|
    ensures Draws(rand[lo..hi])
  {
    assert forall k :: 0 <= k < hi - lo ==> rand[lo..hi][k] == rand[lo + k];
  }

  /** The values of `count` dice of one type, from consecutive draws. */
  function Rolls(d: Die, rand: seq<real>): (vs: seq<int>)
    requires Draws(rand)
    ensures |vs| == |rand|
    ensures forall k :: 0 <= k < |vs| ==> 1 <= vs[k] <= d.Sides()
  {
    seq(|rand|, k requires 0 <= k < |rand| => Roll(d, rand[k]))
  }

  /** How many draws the types in `dice` use: the sum of their positive counts. */
  function DrawsUsed(counts: Counts, dice: seq<Die>): (n: nat)
    requires Complete(counts)
  {
    if dice == [] then 0
    else
      var d := dice[|dice| - 1];
      DrawsUsed(counts, dice[..|dice| - 1]) + (if counts[d] > 0 then counts[d] else 0)
  }

  /** A prefix of the die types uses no more draws than the whole list. */
  lemma {:induction false} DrawsUsedPrefix(counts: Counts, dice: seq<Die>, i: nat)
    requires Complete(counts) && i <= |dice|
    ensures DrawsUsed(counts, dice[..i]) <= DrawsUsed(counts, dice)
    decreases |dice| - i
  {
    if i < |dice| {
      DrawsUsedPrefix(counts, dice, i + 1);
      assert dice[..i + 1][..i] == dice[..i];
    } else {
      assert dice[..i] == dice;
    }
  }

  /** One entry of the result object: a die type and its values. */
  datatype Entry = Entry(die: Die, values: seq<int>)

  /**
   * `calculateResults` over the types in `dice`: an entry for each type with a positive
   * count, holding that many values from the next unused draws.
   */
  function ResultsOf(counts: Counts, dice: seq<Die>, rand: seq<real>): seq<Entry>
    requires Complete(counts) && Draws(rand) && DrawsUsed(counts, dice) <= |rand|
  {
    if dice == [] then []
    else
      var before := dice[..|dice| - 1];
      var d := dice[|dice| - 1];
      var used := DrawsUsed(counts, before);
      var prev := ResultsOf(counts, before, rand);
      if counts[d] > 0 then
        DrawsSlice(rand, used, used + counts[d]);
        prev + [Entry(d, Rolls(d, rand[used..used + counts[d]]))]
      else prev
  }

  /** The die types of a list of entries, in order. */
  function EntryDice(results: seq<Entry>): (ds: seq<Die>)
    ensures |ds| == |results|
    ensures forall k :: 0 <= k < |ds| ==> ds[k] == results[k].die
  {
    seq(|results|, k requires 0 <= k < |results| => results[k].die)
  }

  /**
   * The results hold one entry per selected type, in key order, with exactly `count` values
   * for that type, each between 1 and the number of sides.
   */
  lemma {:induction false} ResultsShape(counts: Counts, dice: seq<Die>, rand: seq<real>)
    requires Complete(counts) && Draws(rand) && DrawsUsed(counts, dice) <= |rand|
    ensures var rs := ResultsOf(counts, dice, rand);
      && EntryDice(rs) == SelectedTypes(counts, dice)
      && (forall k :: 0 <= k < |rs| ==> |rs[k].values| == counts[rs[k].die])
      && (forall k, v :: 0 <= k < |rs| && 0 <= v < |rs[k].values| ==> 1 <= rs[k].values[v] <= rs[k].die.Sides())
  {
    if dice != [] {
      var before := dice[..|dice| - 1];
      assert DrawsUsed(counts, before) <= DrawsUsed(counts, dice);
      ResultsShape(counts, before, rand);
      var prev := ResultsOf(counts, before, rand);
      var rs := ResultsOf(counts, dice, rand);
      var d := dice[|dice| - 1];
      if counts[d] > 0 {
        assert SelectedTypes(counts, dice) == SelectedTypes(counts, before) + [d];
        assert EntryDice(rs) == EntryDice(prev) + [d];
      } else {
        assert SelectedTypes(counts, dice) == SelectedTypes(counts, before);
        assert rs == prev;
      }
    }
  }

  /** The sum of a list of numbers, as `reduce((acc, val) => acc + val, 0)` computes it. */
  function Sum(xs: seq<int>): int {
    if xs == [] then 0 else Sum(xs[..|xs| - 1]) + xs[|xs| - 1]
  }

  /** The sum of every value of every entry. */
  function SumAll(results: seq<Entry>): int {
    if results == [] then 0 else SumAll(results[..|results| - 1]) + Sum(results[|results| - 1].values)
  }

  /** Adding up two lists of entries one after the other adds their totals. */
  lemma {:induction false} SumAllAppend(a: seq<Entry>, b: seq<Entry>)
    ensures SumAll(a + b) == SumAll(a) + SumAll(b)
  {
    if b != [] {
      var front := b[..|b| - 1];
      assert (a + b)[..|a + b| - 1] == a + front;
      SumAllAppend(a, front);
    } else {
      assert a + b == a;
    }
  }

  /** How many dice the counts select. */
  function DiceCount(counts: Counts, dice: seq<Die>): int
    requires Complete(counts)
  {
    if dice == [] then 0
    else
      var d := dice[|dice| - 1];
      DiceCount(counts, dice[..|dice| - 1]) + (if counts[d] > 0 then counts[d] else 0)
  }

  /** The largest total the counts can roll. */
  function MaxRoll(counts: Counts, dice: seq<Die>): int
    requires Complete(counts)
  {
    if dice == [] then 0
    else
      var d := dice[|dice| - 1];
      MaxRoll(counts, dice[..|dice| - 1]) + (if counts[d] > 0 then counts[d] * d.Sides() else 0)
  }

  lemma {:induction false} SumBounds(xs: seq<int>, lo: int, hi: int)
    requires forall k :: 0 <= k < |xs| ==> lo <= xs[k] <= hi
    ensures |xs| * lo <= Sum(xs) <= |xs| * hi
  {
    if xs != [] {
      SumBounds(xs[..|xs| - 1], lo, hi);
    }
  }

  /** The dice total lies between the number of dice and the largest total they can roll. */
  lemma {:induction false} TotalBounds(counts: Counts, dice: seq<Die>, rand: seq<real>)
    requires Complete(counts) && Draws(rand) && DrawsUsed(counts, dice) <= |rand|
    ensures DiceCount(counts, dice) <= SumAll(ResultsOf(counts, dice, rand)) <= MaxRoll(counts, dice)
  {
    if dice != [] {
      var before := dice[..|dice| - 1];
      var d := dice[|dice| - 1];
      assert DrawsUsed(counts, before) <= DrawsUsed(counts, dice);
      TotalBounds(counts, before, rand);
      var rs := ResultsOf(counts, dice, rand);
      if counts[d] > 0 {
        var used := DrawsUsed(counts, before);
        var vs := Rolls(d, rand[used..used + counts[d]]);
        SumBounds(vs, 1, d.Sides());
        assert rs[..|rs| - 1] == ResultsOf(counts, before, rand);
      }
    }
  }

  /** The type `onRollComplete` reports: the first of a list of animated types, or "mixed". */
  function ReportedDiceType(animating: seq<Die>): string {
    if |animating| > 0 then animating[0].Name() else "mixed"
  }

  /**
   * The type reported as written: the list read is the one captured when the roll button was
   * pressed, that is, the types animated by the previous roll ([] before the first roll).
   */
  function PrimaryDiceTypeAsWritten(previousAnimating: seq<Die>): (name: string)
    ensures previousAnimating == [] <==> name == "mixed"
    ensures previousAnimating != [] ==> name == previousAnimating[0].Name()
  {
    ReportedDiceType(previousAnimating)
  }

  /**
   * The type the report evidently means: the first type of this roll in key order, that is,
   * a type with dice selected, before which no type has any.
   */
  function PrimaryDiceType(counts: Counts): (name: string)
    requires Complete(counts) && HasSelectedDice(counts)
    ensures exists d: Die :: counts[d] > 0 && name == d.Name()
    ensures forall d: Die :: name == d.Name() ==> counts[d] > 0
    ensures forall d: Die, e: Die :: name == d.Name() && e.Rank() < d.Rank() ==> counts[e] <= 0
  {
    SelectedTypesNonEmpty(counts);
    var s := SelectedTypes(counts, AllDice);
    assert s[0] in s;
    NamesDistinct();
    assert forall e: Die :: counts[e] > 0 ==> s[0].Rank() <= e.Rank() by {
      forall e: Die | counts[e] > 0 ensures s[0].Rank() <= e.Rank() {
        FirstSelectedComesFirst(counts, e);
      }
    }
    ReportedDiceType(s)
  }

  /** The report as written is right whenever this roll has the same types as the previous one. */
  lemma AsWrittenRightOnRepeat(counts: Counts)
    requires Complete(counts) && HasSelectedDice(counts)
    ensures PrimaryDiceTypeAsWritten(SelectedTypes(counts, AllDice)) == PrimaryDiceType(counts)
  {
    SelectedTypesNonEmpty(counts);
  }

  lemma NamesDistinct()
    ensures forall d1: Die, d2: Die :: d1.Name() == d2.Name() ==> d1 == d2
  {
  }

  /** Types whose counts are all zero select nothing. */
  lemma {:induction false} NothingSelected(counts: Counts, dice: seq<Die>)
    requires Complete(counts) && forall d :: d in dice ==> counts[d] <= 0
    ensures SelectedTypes(counts, dice) == []
  {
    if dice != [] {
      var before := dice[..|dice| - 1];
      assert forall d :: d in before ==> d in dice;
      NothingSelected(counts, before);
    }
  }

  /** Before anything is clicked exactly one type, d20, is selected. */
  lemma InitialSelection()
    ensures Complete(InitialCounts) && HasSelectedDice(InitialCounts)
    ensures SelectedTypes(InitialCounts, AllDice) == [D20]
  {
    AllDiceListed();
    assert InitialCounts[D20] > 0;
    assert AllDice[..6] == [D4, D6, D8, D10, D12, D20];
    assert AllDice[..6][..5] == [D4, D6, D8, D10, D12];
    NothingSelected(InitialCounts, AllDice[..6][..5]);
  }

  /** On the first roll of one d20 the component reports "mixed", not "d20". */
  lemma FirstRollReportsMixed()
    ensures Complete(InitialCounts) && HasSelectedDice(InitialCounts)
    ensures PrimaryDiceTypeAsWritten([]) == "mixed"
    ensures PrimaryDiceType(InitialCounts) == "d20"
  {
    InitialSelection();
  }

  /** After a roll of one d6, a roll of one d20 is reported as "d6". */
  lemma LaterRollReportsPreviousType(counts: Counts)
    requires Complete(counts) && counts[D20] == 1
    requires forall d :: d != D20 ==> counts[d] == 0
    ensures PrimaryDiceTypeAsWritten([D6]) == "d6"
    ensures PrimaryDiceType(counts) == "d20"
  {
    assert counts[D20] > 0;
  }

  /** One type in the label: `${count}${type}`, such as "2d6". */
  function Part(counts: Counts, d: Die): string
    requires Complete(counts)
  {
    IntToString(counts[d], 10) + d.Name()
  }

  /** The selected dice written as "<count><type>", in key order. */
  function DiceParts(counts: Counts): (parts: seq<string>)
    requires Complete(counts)
    ensures |parts| == |SelectedTypes(counts, AllDice)|
    ensures forall k :: 0 <= k < |parts| ==> parts[k] == Part(counts, SelectedTypes(counts, AllDice)[k])
  {
    var selected := SelectedTypes(counts, AllDice);
    seq(|selected|, k requires 0 <= k < |selected| => Part(counts, selected[k]))
  }

  /** What follows the dice in the label: nothing for 0, otherwise " +3" or " -2". */
  function ModifierSuffix(m: int): (suffix: string)
    ensures m == 0 <==> suffix == ""
    ensures m > 0 ==> suffix == " +" + IntToString(m, 10)
    ensures m < 0 ==> suffix == " " + IntToString(m, 10) && suffix[1] == '-'
  {
    if m == 0 then "" else " " + (if m > 0 then "+" else "") + IntToString(m, 10)
  }

  /**
   * The label of the roll button: "Roll" with nothing selected, otherwise "Roll " followed by
   * the selected dice joined by " + " and the modifier suffix.
   */
  function RollDescription(counts: Counts, modifier: string): (text: string)
    requires Complete(counts) && IsValidModifier(modifier)
    ensures !HasSelectedDice(counts) ==> text == "Roll"
    ensures HasSelectedDice(counts) ==> text == "Roll " + Join(DiceParts(counts), " + ") + ModifierSuffix(ModifierValue(modifier))
  {
    SelectedTypesNonEmpty(counts);
    var parts := DiceParts(counts);
    if |parts| == 0 then "Roll"
    else "Roll " + Join(parts, " + ") + ModifierSuffix(ModifierValue(modifier))
  }

  /** The selected types in key order are exactly `ds` when those are the types with dice. */
  lemma SelectedTypesAre(counts: Counts, ds: seq<Die>)
    requires Complete(counts) && InKeyOrder(ds)
    requires forall e: Die :: counts[e] > 0 <==> e in ds
    ensures SelectedTypes(counts, AllDice) == ds
    decreases |ds|
  {
    var s := SelectedTypes(counts, AllDice);
    AllDiceListed();
    AllDiceInKeyOrder();
    SelectedTypesInKeyOrder(counts, AllDice);
    SameSortedLists(s, ds);
  }

  /** The first of a list in key order comes no later than any of its members. */
  lemma HeadComesFirst(a: seq<Die>, e: Die)
    requires InKeyOrder(a) && e in a
    ensures a[0].Rank() <= e.Rank()
  {
    var k :| 0 <= k < |a| && a[k] == e;
    assert k == 0 || a[0].Rank() < a[k].Rank();
  }

  /** The rest of a list in key order holds its members other than the first. */
  lemma TailMembers(a: seq<Die>, e: Die)
    requires InKeyOrder(a) && a != []
    ensures e in a[1..] <==> e in a && e != a[0]
  {
    assert a == [a[0]] + a[1..];
    if e in a[1..] {
      var k :| 0 <= k < |a[1..]| && a[1..][k] == e;
      assert a[0].Rank() < a[k + 1].Rank();
    }
  }

  /** Two lists in key order with the same members are the same list. */
  lemma {:induction false} SameSortedLists(a: seq<Die>, b: seq<Die>)
    requires InKeyOrder(a) && InKeyOrder(b)
    requires forall e :: e in a <==> e in b
    ensures a == b
    decreases |a|
  {
    if a != [] {
      assert a[0] in a;
    }
    if b != [] {
      assert b[0] in b;
    }
    if a != [] && b != [] {
      HeadComesFirst(a, b[0]);
      HeadComesFirst(b, a[0]);
      assert AllDice[a[0].Rank()] == AllDice[b[0].Rank()];
      forall e ensures e in a[1..] <==> e in b[1..] {
        TailMembers(a, e);
        TailMembers(b, e);
      }
      SameSortedLists(a[1..], b[1..]);
      assert a == [a[0]] + a[1..] && b == [b[0]] + b[1..];
    }
  }

  /** The label of a selection is "Roll ", its parts joined by " + ", and the modifier suffix. */
  lemma DescriptionOfParts(counts: Counts, modifier: string, ds: seq<Die>)
    requires Complete(counts) && IsValidModifier(modifier)
    requires SelectedTypes(counts, AllDice) == ds && |ds| > 0
    ensures |DiceParts(counts)| == |ds|
    ensures forall k :: 0 <= k < |ds| ==> DiceParts(counts)[k] == Part(counts, ds[k])
    ensures RollDescription(counts, modifier)
      == "Roll " + Join(DiceParts(counts), " + ") + ModifierSuffix(ModifierValue(modifier))
  {
    SelectedTypesNonEmpty(counts);
  }

  /** With one type selected the label is "Roll <count><type>" and the modifier suffix. */
  lemma DescriptionOfOneType(counts: Counts, modifier: string, d: Die)
    requires Complete(counts) && IsValidModifier(modifier)
    requires forall e: Die :: counts[e] > 0 <==> e == d
    ensures RollDescription(counts, modifier) == "Roll " + Part(counts, d) + ModifierSuffix(ModifierValue(modifier))
  {
    SelectedTypesAre(counts, [d]);
    DescriptionOfSelection1(counts, modifier, d);
  }

  lemma DescriptionOfSelection1(counts: Counts, modifier: string, d: Die)
    requires Complete(counts) && IsValidModifier(modifier)
    requires SelectedTypes(counts, AllDice) == [d]
    ensures RollDescription(counts, modifier) == "Roll " + Part(counts, d) + ModifierSuffix(ModifierValue(modifier))
  {
    DescriptionOfParts(counts, modifier, [d]);
    assert DiceParts(counts) == [Part(counts, d)];
  }

  /**
   * With two types selected the label names them in key order, joined by " + ":
   * "Roll <count1><type1> + <count2><type2>" and the modifier suffix.
   */
  lemma DescriptionOfTwoTypes(counts: Counts, modifier: string, d1: Die, d2: Die)
    requires Complete(counts) && IsValidModifier(modifier) && d1.Rank() < d2.Rank()
    requires forall e: Die :: counts[e] > 0 <==> e == d1 || e == d2
    ensures RollDescription(counts, modifier)
      == "Roll " + (Part(counts, d1) + " + " + Part(counts, d2)) + ModifierSuffix(ModifierValue(modifier))
  {
    SelectedTypesAre(counts, [d1, d2]);
    DescriptionOfSelection2(counts, modifier, d1, d2);
  }

  lemma DescriptionOfSelection2(counts: Counts, modifier: string, d1: Die, d2: Die)
    requires Complete(counts) && IsValidModifier(modifier)
    requires SelectedTypes(counts, AllDice) == [d1, d2]
    ensures RollDescription(counts, modifier)
      == "Roll " + (Part(counts, d1) + " + " + Part(counts, d2)) + ModifierSuffix(ModifierValue(modifier))
  {
    var p1, p2 := Part(counts, d1), Part(counts, d2);
    DescriptionOfParts(counts, modifier, [d1, d2]);
    assert DiceParts(counts) == [p1, p2];
    JoinTwo(p1, p2, " + ");
  }

  lemma JoinTwo(p1: string, p2: string, sep: string)
    ensures Join([p1, p2], sep) == p1 + sep + p2
  {
    JoinSnoc([p1], p2, sep);
    assert [p1] + [p2] == [p1, p2];
  }

  /** The label before anything is clicked: one d20 and a modifier of "0". */
  lemma InitialDescription()
    ensures Complete(InitialCounts) && IsValidModifier("0")
    ensures RollDescription(InitialCounts, "0") == "Roll 1d20"
  {
    AllDiceListed();
    assert IsSignedDigits("0");
    assert forall e: Die :: InitialCounts[e] > 0 <==> e == D20;
    DescriptionOfOneType(InitialCounts, "0", D20);
    InitialLabelParts();
  }

  lemma InitialLabelParts()
    ensures Complete(InitialCounts) && IsValidModifier("0")
    ensures "Roll " + Part(InitialCounts, D20) + ModifierSuffix(ModifierValue("0")) == "Roll 1d20"
  {
    AllDiceListed();
    assert IsSignedDigits("0");
    assert ModifierValue("0") == 0;
    assert IntToString(1, 10) == "1";
    assert Part(InitialCounts, D20) == "1d20";
  }

  /** What the component passes to `onRollComplete`. */
  datatype RollReport = RollReport(totalValue: int, diceType: string, modifier: int, finalTotal: int)

  class DiceRoller {
    var counts: Counts
    var modifier: string
    var rollResult: Option<seq<Entry>>
    /** The types of the latest roll, which the dice animation spins. */
    var animatingDice: seq<Die>

    ghost predicate Valid()
      reads this
    {
      Complete(counts) && IsValidModifier(modifier)
    }

    constructor()
      ensures Valid()
      ensures counts == InitialCounts && modifier == "0" && rollResult == None && animatingDice == []
    {
      AllDiceListed();
      counts := InitialCounts;
      modifier := "0";
      rollResult := None;
      animatingDice := [];
    }

    /** `handleModifierChange`: only "", "-" and signed digit strings are taken. */
    method HandleModifierChange(value: string)
      modifies this`modifier
      requires Valid()
      ensures Valid()
      ensures modifier == if IsValidModifier(value) then value else old(modifier)
    {
      if value == "" || value == "-" || IsSignedDigits(value) {
        modifier := value;
      }
    }

    /** `updateDiceCount`: changes the count of die type `d` only. */
    method UpdateDiceCount(d: Die, increment: bool)
      modifies this`counts
      requires Valid()
      ensures Valid()
      ensures counts == old(counts)[d := UpdatedCount(old(counts)[d], increment)]
    {
      counts := counts[d := UpdatedCount(counts[d], increment)];
    }

    /** The values of one die type, one draw per die. */
    static method RollEach(d: Die, draws: seq<real>) returns (values: seq<int>)
      requires Draws(draws)
      ensures values == Rolls(d, draws)
    {
      values := [];
      for j := 0 to |draws|
        invariant |values| == j
        invariant forall k :: 0 <= k < j ==> values[k] == Roll(d, draws[k])
      {
        values := values + [Roll(d, draws[j])];
      }
    }

    /** `calculateResults`: one entry per selected type, filled from the draws in order. */
    method CalculateResults(rand: seq<real>) returns (results: seq<Entry>)
      requires Valid() && Draws(rand) && DrawsUsed(counts, AllDice) <= |rand|
      ensures results == ResultsOf(counts, AllDice, rand)
    {
      var c := counts;
      results := [];
      var used := 0;
      for i := 0 to |AllDice|
        invariant used == DrawsUsed(c, AllDice[..i]) && used <= |rand|
        invariant results == ResultsOf(c, AllDice[..i], rand)
      {
        var d := AllDice[i];
        assert AllDice[..i + 1][..i] == AllDice[..i];
        DrawsUsedPrefix(c, AllDice, i + 1);
        var count := c[d];
        if count > 0 {
          DrawsSlice(rand, used, used + count);
          var values := RollEach(d, rand[used..used + count]);
          results := results + [Entry(d, values)];
          used := used + count;
        }
      }
      assert AllDice[..|AllDice|] == AllDice;
    }

    /** The dice total of a result, added up entry by entry and value by value. */
    static method TotalOf(results: seq<Entry>) returns (total: int)
      ensures total == SumAll(results)
    {
      total := 0;
      for k := 0 to |results|
        invariant total == SumAll(results[..k])
      {
        assert results[..k + 1][..k] == results[..k];
        var values := results[k].values;
        var sum := 0;
        for v := 0 to |values|
          invariant sum == Sum(values[..v])
        {
          assert values[..v + 1][..v] == values[..v];
          sum := sum + values[v];
        }
        assert values[..|values|] == values;
        total := total + sum;
      }
      assert results[..|results|] == results;
    }

    /** `calculateTotal`: nothing before a roll; afterwards the dice total plus the modifier. */
    method CalculateTotal() returns (total: Option<int>)
      requires Valid()
      ensures rollResult.None? ==> total == None
      ensures rollResult.Some? ==> total == Some(SumAll(rollResult.value) + ModifierValue(modifier))
    {
      if rollResult.None? {
        return None;
      }
      var sum := TotalOf(rollResult.value);
      var modifierValue := ModifierValue(modifier);
      return Some(sum + modifierValue);
    }

    /**
     * `handleRoll` followed by the end of the animation. Without a selected die nothing
     * happens. Otherwise the selected types are animated, three draws set the final rotation,
     * the dice are rolled from the draws after those, and, when the parent passed an
     * `onRollComplete` callback, it receives the dice total, the type that led the animation
     * of the previous roll ("mixed" before the first roll), the modifier and their sum.
     */
    method HandleRoll(rand: seq<real>, hasCallback: bool) returns (report: Option<RollReport>)
      modifies this`rollResult, this`animatingDice
      requires Valid() && Draws(rand) && RotationDraws + DrawsUsed(counts, AllDice) <= |rand|
      ensures Valid()
      ensures !HasSelectedDice(counts) ==> report == None && rollResult == old(rollResult) && animatingDice == old(animatingDice)
      ensures HasSelectedDice(counts) ==>
        && Draws(rand[RotationDraws..])
        && animatingDice == SelectedTypes(counts, AllDice)
        && rollResult == Some(ResultsOf(counts, AllDice, rand[RotationDraws..]))
        && report.Some? == hasCallback
        && (hasCallback ==>
             && report.value.totalValue == SumAll(rollResult.value)
             && report.value.diceType == PrimaryDiceTypeAsWritten(old(animatingDice))
             && report.value.modifier == ModifierValue(modifier)
             && report.value.finalTotal == report.value.totalValue + report.value.modifier)
    {
      SelectedTypesNonEmpty(counts);
      var selected := SelectedTypes(counts, AllDice);
      if |selected| == 0 {
        return None;
      }
      var previous := animatingDice;
      rollResult := None;
      animatingDice := selected;
      DrawsSlice(rand, RotationDraws, |rand|);
      var result := CalculateResults(rand[RotationDraws..]);
      rollResult := Some(result);
      if !hasCallback {
        return None;
      }
      var totalValue := TotalOf(result);
      var modifierValue := ModifierValue(modifier);
      var finalTotal := totalValue + modifierValue;
      report := Some(RollReport(totalValue, PrimaryDiceTypeAsWritten(previous), modifierValue, finalTotal));
    }
  }
}
