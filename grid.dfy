/** The table layout: batters in order of first appearance over the
    innings taken in ascending numeric order, one column per inning from 1
    to at least 9, and the empty string for a batter without a cell. */
module Grid {
  import opened Common
  import opened Text
  import opened Dict
  import opened Board

  // ---------------------------------------------------------------------
  // Inning numbers: `int(x)` and `str(i)` on plain decimal digits.

  function DigitValue(c: char): int {
    c as int - '0' as int
  }

  function DigitChar(d: nat): (c: char)
    requires d < 10
    ensures IsDigit(c) && DigitValue(c) == d
  {
    (d + '0' as int) as char
  }

  /** `int(s)` for a string of digits. */
  function IntOf(s: string): int {
    if |s| == 0 then 0 else 10 * IntOf(s[..|s| - 1]) + DigitValue(s[|s| - 1])
  }

  /** `str(n)`: the decimal digits of `n`, without leading zeros. */
  function NatToString(n: nat): (s: string)
    ensures |s| > 0 && forall i :: 0 <= i < |s| ==> IsDigit(s[i])
  {
    if n < 10 then [DigitChar(n)] else NatToString(n / 10) + [DigitChar(n % 10)]
  }

  /** `int(str(n)) == n`. */
  lemma {:induction false} IntOfNatToString(n: nat)
    ensures IntOf(NatToString(n)) == n
  {
    if n >= 10 {
      IntOfNatToString(n / 10);
      var s := NatToString(n);
      assert s[..|s| - 1] == NatToString(n / 10);
    } else {
      assert NatToString(n)[..0] == "";
    }
  }

  /** Different numbers print differently. */
  lemma NatToStringInjective(m: nat, n: nat)
    requires NatToString(m) == NatToString(n)
    ensures m == n
  {
    IntOfNatToString(m);
    IntOfNatToString(n);
  }

  /** A string of digits has a non-negative value. */
  lemma {:induction false} IntOfDigits(s: string)
    requires forall i :: 0 <= i < |s| ==> IsDigit(s[i])
    ensures IntOf(s) >= 0
  {
    if |s| > 0 {
      IntOfDigits(s[..|s| - 1]);
    }
  }

  // ---------------------------------------------------------------------
  // `sorted(keys, key=int)`: a stable insertion sort by value.

  predicate SortedByValue(s: seq<string>) {
    forall i, j :: 0 <= i < j < |s| ==> IntOf(s[i]) <= IntOf(s[j])
  }

  /** Insert `x` after every element of no greater value. */
  function Insert(x: string, s: seq<string>): seq<string> {
    if |s| == 0 then [x]
    else if IntOf(x) < IntOf(s[0]) then [x] + s
    else [s[0]] + Insert(x, s[1..])
  }

  function SortByValue(s: seq<string>): seq<string> {
    if |s| == 0 then [] else Insert(s[|s| - 1], SortByValue(s[..|s| - 1]))
  }

  /** Inserting adds exactly one element. */
  lemma {:induction false} InsertMultiset(x: string, s: seq<string>)
    ensures multiset(Insert(x, s)) == multiset(s) + multiset{x}
  {
    if |s| > 0 && IntOf(x) >= IntOf(s[0]) {
      InsertMultiset(x, s[1..]);
      assert s == [s[0]] + s[1..];
    }
  }

  /** Inserting into a sorted sequence keeps it sorted. */
  lemma {:induction false} InsertSorted(x: string, s: seq<string>)
    requires SortedByValue(s)
    ensures SortedByValue(Insert(x, s))
  {
    if |s| > 0 && IntOf(x) >= IntOf(s[0]) {
      InsertSorted(x, s[1..]);
      InsertMultiset(x, s[1..]);
      var r := Insert(x, s[1..]);
      forall k | 0 <= k < |r|
        ensures IntOf(s[0]) <= IntOf(r[k])
      {
        assert r[k] in multiset(r);
        if r[k] != x {
          assert r[k] in multiset(s[1..]);
          var m :| 0 <= m < |s[1..]| && s[1..][m] == r[k];
          assert s[m + 1] == r[k];
        }
      }
      assert Insert(x, s) == [s[0]] + r;
    }
  }

  lemma InsertFacts(x: string, s: seq<string>)
    requires SortedByValue(s)
    ensures SortedByValue(Insert(x, s))
    ensures multiset(Insert(x, s)) == multiset(s) + multiset{x}
  {
    InsertSorted(x, s);
    InsertMultiset(x, s);
  }

  /** The inning keys in ascending numeric order, each exactly once. */
  lemma {:induction false} SortByValueFacts(s: seq<string>)
    ensures SortedByValue(SortByValue(s))
    ensures multiset(SortByValue(s)) == multiset(s)
  {
    if |s| > 0 {
      SortByValueFacts(s[..|s| - 1]);
      InsertFacts(s[|s| - 1], SortByValue(s[..|s| - 1]));
      assert s == s[..|s| - 1] + [s[|s| - 1]];
    }
  }

  // ---------------------------------------------------------------------
  // The batter order: first appearances, in order.

  /** Drop every repeat, keeping first occurrences in order. */
  function Dedup(xs: seq<string>): seq<string> {
    if |xs| == 0 then []
    else
      var d := Dedup(xs[..|xs| - 1]);
      if xs[|xs| - 1] in d then d else d + [xs[|xs| - 1]]
  }

  /** Every name of the cells of each inning, inning by inning, in each
      inning's insertion order. */
  function Appearances(b: Scoreboard, innings: seq<string>): seq<string> {
    if |innings| == 0 then []
    else Appearances(b, innings[..|innings| - 1]) + Get(b, innings[|innings| - 1], Empty()).keys
  }

  /** The batters of a scoreboard in the source's order. */
  function BattersOrder(b: Scoreboard): seq<string> {
    Dedup(Appearances(b, SortByValue(b.keys)))
  }

  /** The position of the first occurrence of `x`. */
  function FirstIndex(xs: seq<string>, x: string): (i: nat)
    requires x in xs
    ensures i < |xs| && xs[i] == x && forall j :: 0 <= j < i ==> xs[j] != x
  {
    if xs[0] == x then 0 else 1 + FirstIndex(xs[1..], x)
  }

  lemma {:induction false} DedupMembers(xs: seq<string>)
    ensures forall x :: x in Dedup(xs) <==> x in xs
  {
    if |xs| > 0 {
      DedupMembers(xs[..|xs| - 1]);
      assert xs == xs[..|xs| - 1] + [xs[|xs| - 1]];
    }
  }

  /** The batter order has no repeats, names exactly the batters that
      occur, and lists them by their first occurrence. */
  lemma {:induction false} DedupFacts(xs: seq<string>)
    ensures forall x :: x in Dedup(xs) <==> x in xs
    ensures forall i, j :: 0 <= i < j < |Dedup(xs)| ==> Dedup(xs)[i] != Dedup(xs)[j]
    ensures forall i, j :: 0 <= i < j < |Dedup(xs)| ==>
              FirstIndex(xs, Dedup(xs)[i]) < FirstIndex(xs, Dedup(xs)[j])
  {
    DedupMembers(xs);
    if |xs| > 0 {
      var init := xs[..|xs| - 1];
      var last := xs[|xs| - 1];
      DedupFacts(init);
      DedupMembers(init);
      var d := Dedup(init);
      forall x | x in init
        ensures FirstIndex(xs, x) == FirstIndex(init, x)
      {
        FirstIndexPrefix(init, xs, x);
      }
      if last !in d {
        assert last !in init;
        assert FirstIndex(xs, last) == |xs| - 1;
        forall i | 0 <= i < |d|
          ensures FirstIndex(xs, d[i]) < FirstIndex(xs, last)
        {
          assert d[i] in init;
        }
      }
    }
  }

  /** First occurrences survive extension. */
  lemma {:induction false} FirstIndexPrefix(init: seq<string>, xs: seq<string>, x: string)
    requires x in init && |init| <= |xs| && init == xs[..|init|]
    ensures FirstIndex(xs, x) == FirstIndex(init, x)
  {
    if init[0] != x {
      FirstIndexPrefix(init[1..], xs[1..], x);
    }
  }

  /** The cells of every inning, seen in `innings`, are named in `Appearances`. */
  lemma {:induction false} AppearancesMembers(b: Scoreboard, innings: seq<string>, name: string)
    ensures name in Appearances(b, innings) <==>
            exists i :: 0 <= i < |innings| && name in Get(b, innings[i], Empty()).keys
  {
    if |innings| > 0 {
      var init := innings[..|innings| - 1];
      AppearancesMembers(b, init, name);
      assert forall i :: 0 <= i < |init| ==> init[i] == innings[i];
    }
  }

  // ---------------------------------------------------------------------
  // The columns.

  /** `max(max(int(i) for i in keys), 9) if keys else 9`. */
  function MaxInning(keys: seq<string>): (n: int)
    ensures n >= 9
  {
    if |keys| == 0 then 9
    else
      var m := MaxInning(keys[..|keys| - 1]);
      var v := IntOf(keys[|keys| - 1]);
      if v > m then v else m
  }

  /** The column span: at least 9, covering every inning, and equal to 9
      or to some inning's number. */
  lemma {:induction false} MaxInningSpan(keys: seq<string>)
    ensures forall k :: k in keys ==> IntOf(k) <= MaxInning(keys)
    ensures MaxInning(keys) == 9 || exists k :: k in keys && IntOf(k) == MaxInning(keys)
  {
    if |keys| > 0 {
      var init := keys[..|keys| - 1];
      var last := keys[|keys| - 1];
      MaxInningSpan(init);
      assert keys == init + [last];
      assert forall k :: k in keys ==> k in init || k == last;
      if IntOf(last) > MaxInning(init) {
        assert MaxInning(keys) == IntOf(last);
        assert last in keys;
      } else {
        assert MaxInning(keys) == MaxInning(init);
        if MaxInning(init) != 9 {
          var k :| k in init && IntOf(k) == MaxInning(init);
          assert k in keys;
        }
      }
    }
  }

  /** On an accumulated scoreboard every inning key is a digit string, so
      its number is at least 0 and at most the column count. */
  lemma InningsWithinColumns(b: Scoreboard)
    requires WellFormed(b)
    ensures forall k :: k in b.keys ==> 0 <= IntOf(k) <= MaxInning(b.keys)
  {
    MaxInningSpan(b.keys);
    forall k | k in b.keys
      ensures 0 <= IntOf(k)
    {
      assert k in b.vals;
      IntOfDigits(k);
    }
  }

  /** The inning labels "1" .. "n". */
  function InningColumns(n: nat): (cols: seq<string>)
    ensures |cols| == n
    ensures forall i :: 0 <= i < n ==> cols[i] == NatToString(i + 1)
  {
    seq(n, i requires 0 <= i < n => NatToString(i + 1))
  }

  /** Column `i` is labelled with the number `i + 1`. */
  lemma InningColumnValue(n: nat, i: nat)
    requires i < n
    ensures IntOf(InningColumns(n)[i]) == i + 1
  {
    IntOfNatToString(i + 1);
  }

  // ---------------------------------------------------------------------
  // The grid.

  datatype Table = Table(header: seq<string>, rows: seq<seq<string>>)

  /** A batter's row: their name, then their cell of each inning, "" when
      they have none. */
  function GridRow(b: Scoreboard, batter: string, cols: seq<string>): seq<string> {
    [batter] + seq(|cols|, c requires 0 <= c < |cols| => Get(Get(b, cols[c], Empty()), batter, ""))
  }

  /** The table of a scoreboard. */
  function TableOf(b: Scoreboard): Table {
    var cols := InningColumns(MaxInning(b.keys));
    var order := BattersOrder(b);
    Table(["Batter"] + cols, seq(|order|, i requires 0 <= i < |order| => GridRow(b, order[i], cols)))
  }

  const IntError := "ValueError: invalid literal for int() with base 10: ''"

  /** The batter-order loop (Main.py:173-177). */
  method OrderBatters(b: Scoreboard, innings: seq<string>) returns (order: seq<string>)
    ensures order == Dedup(Appearances(b, innings))
  {
    order := [];
    for i := 0 to |innings|
      invariant order == Dedup(Appearances(b, innings[..i]))
    {
      assert innings[..i + 1][..i] == innings[..i];
      var names := Get(b, innings[i], Empty()).keys;
      order := AddNew(order, Appearances(b, innings[..i]), names);
    }
    assert innings[..|innings|] == innings;
  }

  /** The inner loop over one inning's names: append those not yet seen. */
  method AddNew(order: seq<string>, ghost seen: seq<string>, names: seq<string>) returns (res: seq<string>)
    requires order == Dedup(seen)
    ensures res == Dedup(seen + names)
  {
    res := order;
    ghost var acc := seen;
    assert seen + names[..0] == seen;
    for j := 0 to |names|
      invariant acc == seen + names[..j]
      invariant res == Dedup(acc)
    {
      DedupSnoc(acc, names[j]);
      assert names[..j + 1] == names[..j] + [names[j]];
      acc := acc + [names[j]];
      if names[j] !in res {
        res := res + [names[j]];
      }
    }
    assert names[..|names|] == names;
  }

  /** One more name: appended exactly when it is new. */
  lemma DedupSnoc(xs: seq<string>, x: string)
    ensures Dedup(xs + [x]) == if x in Dedup(xs) then Dedup(xs) else Dedup(xs) + [x]
  {
    assert (xs + [x])[..|xs|] == xs;
  }

  /** The row loop (Main.py:180-185). */
  method BuildRows(b: Scoreboard, order: seq<string>, cols: seq<string>) returns (rows: seq<seq<string>>)
    ensures rows == seq(|order|, i requires 0 <= i < |order| => GridRow(b, order[i], cols))
  {
    rows := [];
    for i := 0 to |order|
      invariant |rows| == i
      invariant forall k :: 0 <= k < i ==> rows[k] == GridRow(b, order[k], cols)
    {
      var row := [order[i]];
      for c := 0 to |cols|
        invariant row == GridRow(b, order[i], cols[..c])
      {
        assert cols[..c + 1][..c] == cols[..c];
        row := row + [Get(Get(b, cols[c], Empty()), order[i], "")];
      }
      assert cols[..|cols|] == cols;
      rows := rows + [row];
    }
  }

  /** The layout (Main.py:173-186) of an accumulated scoreboard, whose
      inning keys hold digits only. Sorting the keys with `int` then fails
      exactly on the inning "" (a row whose inning field holds no digit). */
  method BuildTable(b: Scoreboard) returns (res: Result<Table>)
    requires WellFormed(b)
    ensures "" in b.keys ==> res == Err(IntError)
    ensures "" !in b.keys ==> res == Ok(TableOf(b))
  {
    if "" in b.keys {
      return Err(IntError);
    }
    var order := OrderBatters(b, SortByValue(b.keys));
    var cols := InningColumns(MaxInning(b.keys));
    var rows := BuildRows(b, order, cols);
    res := Ok(Table(["Batter"] + cols, rows));
  }

  // ---------------------------------------------------------------------
  // What the table shows.

  /** The header is "Batter" and the labels "1" .. "N" with N the larger
      of 9 and the highest inning, and 9 for an empty scoreboard; every
      row has N + 1 fields, starting with the batter's name, and field c
      holds the batter's cell of inning c, or "" when there is none. */
  lemma TableShape(b: Scoreboard)
    ensures var t := TableOf(b);
            var n := MaxInning(b.keys);
            && t.header == ["Batter"] + InningColumns(n)
            && |t.rows| == |BattersOrder(b)|
            && (b.keys == [] ==> n == 9)
            && forall i :: 0 <= i < |t.rows| ==>
                 |t.rows[i]| == n + 1 && t.rows[i][0] == BattersOrder(b)[i] &&
                 forall c :: 1 <= c <= n ==>
                   var cells := Get(b, NatToString(c), Empty());
                   t.rows[i][c] == (if BattersOrder(b)[i] in cells.vals then cells.vals[BattersOrder(b)[i]] else "")
  {
    var t := TableOf(b);
    var n := MaxInning(b.keys);
    var cols := InningColumns(n);
    forall i, c | 0 <= i < |t.rows| && 1 <= c <= n
      ensures t.rows[i][c] == Get(Get(b, NatToString(c), Empty()), BattersOrder(b)[i], "")
    {
      assert t.rows[i] == GridRow(b, BattersOrder(b)[i], cols);
      assert cols[c - 1] == NatToString(c);
    }
  }

  /** The rows list every batter who has a cell in some inning, once each,
      in the order of their first cell over the innings sorted by number. */
  lemma BattersOrderFacts(b: Scoreboard)
    ensures var order := BattersOrder(b);
            var innings := SortByValue(b.keys);
            var apps := Appearances(b, innings);
            && SortedByValue(innings) && multiset(innings) == multiset(b.keys)
            && (forall i, j :: 0 <= i < j < |order| ==> order[i] != order[j])
            && (forall name :: name in order <==>
                  exists i :: 0 <= i < |innings| && name in Get(b, innings[i], Empty()).keys)
            && (forall name :: name in order <==> name in apps)
            && (forall i, j :: 0 <= i < j < |order| ==>
                  order[i] in apps && order[j] in apps &&
                  FirstIndex(apps, order[i]) < FirstIndex(apps, order[j]))
  {
    var innings := SortByValue(b.keys);
    SortByValueFacts(b.keys);
    DedupFacts(Appearances(b, innings));
    forall name
      ensures name in BattersOrder(b) <==>
              exists i :: 0 <= i < |innings| && name in Get(b, innings[i], Empty()).keys
    {
      AppearancesMembers(b, innings, name);
    }
  }
}
