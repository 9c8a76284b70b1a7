/** The accumulator: the filtered rows folded into a scoreboard that maps
    each inning to the cells of that inning, one per batter. Both levels
    keep Python's insertion order, which later decides the batter order
    of the grid. */
module Board {
  import opened Common
  import opened Text
  import opened Dict
  import opened Classifier
  import opened Pinch
  import opened Rows

  /** The cells of one inning: batter -> accumulated shorthand. */
  type Cells = ODict<string>

  /** The scoreboard: inning -> cells. */
  type Scoreboard = ODict<Cells>

  const IndexError := "IndexError: list index out of range"

  /** The positions of the three columns the accumulator reads. */
  datatype Fields = Fields(inn: nat, batter: nat, desc: nat)

  /** `header.index(title)`: the first position holding `title`. */
  function FieldIndex(header: Row, title: string): (r: Option<nat>)
    ensures r.Some? ==> r.value < |header| && header[r.value] == title
    ensures r.Some? ==> forall j :: 0 <= j < r.value ==> header[j] != title
    ensures r.None? <==> title !in header
  {
    if |header| == 0 then None
    else if header[0] == title then Some(0)
    else match FieldIndex(header[1..], title)
      case None => None
      case Some(i) => Some(i + 1)
  }

  /** The three header lookups; a missing title raises ValueError. */
  function LookupFields(header: Row): (r: Result<Fields>)
    ensures r.Ok? <==> "Inn" in header && "Batter" in header && "Play Description" in header
    ensures r.Ok? ==> && r.value.inn < |header| && header[r.value.inn] == "Inn"
                      && r.value.batter < |header| && header[r.value.batter] == "Batter"
                      && r.value.desc < |header| && header[r.value.desc] == "Play Description"
  {
    match (FieldIndex(header, "Inn"), FieldIndex(header, "Batter"), FieldIndex(header, "Play Description"))
    case (Some(i), Some(b), Some(d)) => Ok(Fields(i, b, d))
    case _ => Err("ValueError: not in list")
  }

  /** A row too short to hold all three columns is passed over. */
  predicate Short(row: Row, f: Fields) {
    |row| <= f.inn || |row| <= f.batter || |row| <= f.desc
  }

  /** The batter named in the scorebook for `name`: a pinch hitter is
      replaced by the batter they hit for. */
  function Resolve(pinch: PinchMap, name: string): string {
    if name in pinch then pinch[name] else name
  }

  /** One row, read: its inning, the resolved batter, the shorthand, the
      number of runs batted in, and the resolved runners who stole or were
      caught stealing, one entry per occurrence. */
  datatype Play = Play(inning: string, batter: string, code: string, rbi: nat,
                       stealers: seq<string>, caught: seq<string>)

  /** The last word of each source text, resolved; `None` as soon as one
      text has no word, where `split()[-1]` raises IndexError. */
  function Runners(srcs: seq<string>, pinch: PinchMap): Option<seq<string>> {
    if |srcs| == 0 then Some([])
    else match Runners(srcs[..|srcs| - 1], pinch)
      case None => None
      case Some(rs) =>
        match LastToken(srcs[|srcs| - 1])
        case None => None
        case Some(t) => Some(rs + [Resolve(pinch, t)])
  }

  /** The texts before the 1st, 2nd, ... "STEALS": one per steal. */
  function StealSources(desc: string): seq<string> {
    SplitCount(desc, "STEALS");
    SplitOn(desc, "STEALS")[..Count(desc, "STEALS")]
  }

  /** For every "CAUGHT STEALING", the text before the FIRST one. */
  function CaughtSources(desc: string): seq<string> {
    var first := SplitOn(desc, "CAUGHT STEALING")[0];
    seq(Count(desc, "CAUGHT STEALING"), _ => first)
  }

  /** The shorthand of a play: "FC" when the description sends the batter
      somewhere ("<BATTER> TO "), otherwise the classification of the text
      before the first "(". */
  function PlayCode(name: string, desc: string): string {
    if Contains(desc, name + " TO ") then "FC" else ToScorebook(SplitOn(desc, "(")[0])
  }

  /** Reading one row (Main.py:144-151 and 154-155, with the runner names of 162 and 167). */
  function ParseRow(row: Row, f: Fields, pinch: PinchMap): Result<Play>
    requires !Short(row, f)
  {
    var name := Upper(row[f.batter]);
    var desc := Upper(row[f.desc]);
    match (Runners(StealSources(desc), pinch), Runners(CaughtSources(desc), pinch))
    case (Some(sb), Some(cs)) =>
      Ok(Play(Digits(row[f.inn]), Resolve(pinch, name), PlayCode(name, desc),
              Count(desc, "SCORES"), sb, cs))
    case _ => Err(IndexError)
  }

  /** The batter's cell after the play: joined to an earlier non-empty
      entry with "; ", then one ", RBI" per run batted in if non-empty. */
  function BatCell(before: string, code: string, rbi: nat): string {
    var joined := if before != "" then before + "; " + code else code;
    if joined != "" then joined + Repeat(", RBI", rbi) else joined
  }

  /** Appending `suffix` to the cell of each runner in turn, creating a
      missing cell as "" first. */
  function AppendEach(cells: Cells, runners: seq<string>, suffix: string): Cells {
    if |runners| == 0 then cells
    else
      var c := AppendEach(cells, runners[..|runners| - 1], suffix);
      var r := runners[|runners| - 1];
      Put(c, r, Get(c, r, "") + suffix)
  }

  /** Writing one play into the scoreboard. */
  function ApplyPlay(b: Scoreboard, p: Play): Scoreboard {
    var cells := Get(b, p.inning, Empty());
    var batted := Put(cells, p.batter, BatCell(Get(cells, p.batter, ""), p.code, p.rbi));
    var stolen := AppendEach(batted, p.stealers, ", SB");
    Put(b, p.inning, AppendEach(stolen, p.caught, ", CS"))
  }

  /** The fold of the rows into the scoreboard; a crash ends it. */
  function Run(b: Scoreboard, rows: seq<Row>, f: Fields, pinch: PinchMap): Result<Scoreboard>
    decreases |rows|
  {
    if |rows| == 0 then Ok(b)
    else if Short(rows[0], f) then Run(b, rows[1..], f, pinch)
    else match ParseRow(rows[0], f, pinch)
      case Err(e) => Err(e)
      case Ok(p) => Run(ApplyPlay(b, p), rows[1..], f, pinch)
  }

  /** The scoreboard of the data rows under `header`. */
  function Accumulated(header: Row, rows: seq<Row>, pinch: PinchMap): Result<Scoreboard> {
    match LookupFields(header)
    case Err(e) => Err(e)
    case Ok(f) => Run(Empty(), rows, f, pinch)
  }

  // ---------------------------------------------------------------------
  // The loops of the source.

  /** One of the runner loops (Main.py:161-170): append `suffix` to the
      cell of each source text's last word, resolved. */
  method AppendRunners(cells: Cells, srcs: seq<string>, suffix: string, pinch: PinchMap)
    returns (res: Option<Cells>)
    ensures Runners(srcs, pinch).None? ==> res.None?
    ensures Runners(srcs, pinch).Some? ==>
              res == Some(AppendEach(cells, Runners(srcs, pinch).value, suffix))
  {
    var cur := cells;
    for i := 0 to |srcs|
      invariant Runners(srcs[..i], pinch).Some?
      invariant cur == AppendEach(cells, Runners(srcs[..i], pinch).value, suffix)
    {
      assert srcs[..i + 1][..i] == srcs[..i];
      var tok := LastToken(srcs[i]);
      if tok.None? {
        RunnersPrefixNone(srcs, pinch, i + 1);
        return None;
      }
      var runner := Resolve(pinch, tok.value);
      assert Runners(srcs[..i + 1], pinch).value == Runners(srcs[..i], pinch).value + [runner];
      cur := Put(cur, runner, Get(cur, runner, "") + suffix);
    }
    assert srcs[..|srcs|] == srcs;
    return Some(cur);
  }

  /** The body of the row loop (Main.py:144-170). */
  method ProcessRow(arr: Scoreboard, row: Row, f: Fields, pinch: PinchMap)
    returns (res: Result<Scoreboard>)
    requires !Short(row, f)
    ensures ParseRow(row, f, pinch).Err? ==> res == Err(IndexError)
    ensures ParseRow(row, f, pinch).Ok? ==> res == Ok(ApplyPlay(arr, ParseRow(row, f, pinch).value))
  {
    var inn := Digits(row[f.inn]);
    var batter := Upper(row[f.batter]);
    var desc := Upper(row[f.desc]);
    var rbi := Count(desc, "SCORES");
    var code := PlayCode(batter, desc);
    ParseRowParts(row, f, pinch);
    var board := arr;
    if inn !in board.vals {
      board := Put(board, inn, Empty());
    }
    ghost var start := Get(arr, inn, Empty());
    assert board.vals[inn] == start;
    batter := Resolve(pinch, batter);
    var cells := board.vals[inn];
    if batter in cells.vals && cells.vals[batter] != "" {
      cells := Put(cells, batter, cells.vals[batter] + "; " + code);
    } else {
      cells := Put(cells, batter, code);
    }
    if cells.vals[batter] != "" {
      PutPut(start, batter, cells.vals[batter], cells.vals[batter] + Repeat(", RBI", rbi));
      cells := Put(cells, batter, cells.vals[batter] + Repeat(", RBI", rbi));
    }
    assert cells == Put(start, batter, BatCell(Get(start, batter, ""), code, rbi));
    var stolen := AppendRunners(cells, StealSources(desc), ", SB", pinch);
    if stolen.None? {
      return Err(IndexError);
    }
    var caught := AppendRunners(stolen.value, CaughtSources(desc), ", CS", pinch);
    if caught.None? {
      return Err(IndexError);
    }
    PutPut(arr, inn, Empty(), caught.value);
    board := Put(board, inn, caught.value);
    res := Ok(board);
  }

  /** What `ParseRow` reads from the row, field by field. */
  lemma ParseRowParts(row: Row, f: Fields, pinch: PinchMap)
    requires !Short(row, f)
    ensures var name := Upper(row[f.batter]);
            var desc := Upper(row[f.desc]);
            var sb := Runners(StealSources(desc), pinch);
            var cs := Runners(CaughtSources(desc), pinch);
            && (ParseRow(row, f, pinch).Ok? <==> sb.Some? && cs.Some?)
            && (ParseRow(row, f, pinch).Err? ==> ParseRow(row, f, pinch).error == IndexError)
            && (ParseRow(row, f, pinch).Ok? ==>
                  ParseRow(row, f, pinch).value ==
                  Play(Digits(row[f.inn]), Resolve(pinch, name), PlayCode(name, desc),
                       Count(desc, "SCORES"), sb.value, cs.value))
  {
  }

  /** The accumulator loop (Main.py:137-170). */
  method Accumulate(header: Row, rows: seq<Row>, pinch: PinchMap) returns (res: Result<Scoreboard>)
    ensures res == Accumulated(header, rows, pinch)
  {
    var lookup := LookupFields(header);
    if lookup.Err? {
      return Err(lookup.error);
    }
    var f := lookup.value;
    var arr: Scoreboard := Empty();
    for k := 0 to |rows|
      invariant Run(arr, rows[k..], f, pinch) == Run(Empty(), rows, f, pinch)
    {
      var row := rows[k];
      assert rows[k..][1..] == rows[k + 1..];
      if Short(row, f) {
        continue;
      }
      var r := ProcessRow(arr, row, f, pinch);
      if r.Err? {
        return r;
      }
      arr := r.value;
    }
    return Ok(arr);
  }

  /** Once one text has no word, so do all longer runner lists. */
  lemma {:induction false} RunnersPrefixNone(srcs: seq<string>, pinch: PinchMap, i: nat)
    requires i <= |srcs| && Runners(srcs[..i], pinch).None?
    ensures Runners(srcs, pinch).None?
    decreases |srcs| - i
  {
    if i < |srcs| {
      assert srcs[..i + 1][..i] == srcs[..i];
      RunnersPrefixNone(srcs, pinch, i + 1);
    } else {
      assert srcs[..i] == srcs;
    }
  }

  // ---------------------------------------------------------------------
  // What a row contributes.

  /** Resolving the runners fails exactly when some source text holds no
      word. */
  lemma {:induction false} RunnersNone(srcs: seq<string>, pinch: PinchMap)
    ensures Runners(srcs, pinch).None? <==> exists i :: 0 <= i < |srcs| && SplitWs(srcs[i]) == []
  {
    if |srcs| > 0 {
      var init := srcs[..|srcs| - 1];
      RunnersNone(init, pinch);
      if Runners(init, pinch).None? {
        var i :| 0 <= i < |init| && SplitWs(init[i]) == [];
        assert SplitWs(srcs[i]) == [];
      } else if LastToken(srcs[|srcs| - 1]).Some? {
        forall i | 0 <= i < |srcs|
          ensures SplitWs(srcs[i]) != []
        {
          if i < |init| {
            assert srcs[i] == init[i];
          }
        }
      }
    }
  }

  /** Otherwise the i-th runner is the last word of the i-th source text,
      read through the pinch map. */
  lemma {:induction false} RunnersValues(srcs: seq<string>, pinch: PinchMap)
    requires Runners(srcs, pinch).Some?
    ensures var rs := Runners(srcs, pinch).value;
            |rs| == |srcs| &&
            forall i :: 0 <= i < |srcs| ==>
              LastToken(srcs[i]).Some? && rs[i] == Resolve(pinch, LastToken(srcs[i]).value)
  {
    if |srcs| > 0 {
      var init := srcs[..|srcs| - 1];
      var rs := Runners(init, pinch).value;
      RunnersValues(init, pinch);
      var r := Runners(srcs, pinch).value;
      assert r == rs + [Resolve(pinch, LastToken(srcs[|srcs| - 1]).value)];
      forall i | 0 <= i < |srcs|
        ensures LastToken(srcs[i]).Some? && r[i] == Resolve(pinch, LastToken(srcs[i]).value)
      {
        if i < |init| {
          assert srcs[i] == init[i];
          assert r[i] == rs[i];
        }
      }
    }
  }

  /** Both halves together. */
  lemma RunnersShape(srcs: seq<string>, pinch: PinchMap)
    ensures Runners(srcs, pinch).None? <==> exists i :: 0 <= i < |srcs| && SplitWs(srcs[i]) == []
    ensures Runners(srcs, pinch).Some? ==>
              var rs := Runners(srcs, pinch).value;
              |rs| == |srcs| &&
              forall i :: 0 <= i < |srcs| ==> rs[i] == Resolve(pinch, LastToken(srcs[i]).value)
  {
    RunnersNone(srcs, pinch);
    if Runners(srcs, pinch).Some? {
      RunnersValues(srcs, pinch);
    }
  }

  /** A row is passed over exactly when it is no longer than the largest
      of the three indexes, `max(inn_idx, batter_idx, desc_idx)`. */
  lemma ShortIsMax(row: Row, f: Fields)
    ensures var m := if f.inn >= f.batter && f.inn >= f.desc then f.inn
                     else if f.batter >= f.desc then f.batter else f.desc;
            Short(row, f) <==> |row| <= m
  {
  }

  /** There is one steal text per "STEALS": the i-th piece of the split,
      the first being the text before the first "STEALS". */
  lemma StealSourcesShape(desc: string)
    ensures |StealSources(desc)| == Count(desc, "STEALS") == |SplitOn(desc, "STEALS")| - 1
    ensures forall i :: 0 <= i < |StealSources(desc)| ==>
              StealSources(desc)[i] == SplitOn(desc, "STEALS")[i]
    ensures |StealSources(desc)| > 0 ==>
              Contains(desc, "STEALS") && StealSources(desc)[0] == desc[..IndexOf(desc, "STEALS")]
  {
    SplitCount(desc, "STEALS");
    SplitHead(desc, "STEALS");
  }

  /** There is one caught-stealing text per "CAUGHT STEALING", and every
      one of them is the text before the FIRST "CAUGHT STEALING": the
      source indexes the split with 0, not with the loop variable. */
  lemma CaughtSourcesFirst(desc: string)
    ensures |CaughtSources(desc)| == Count(desc, "CAUGHT STEALING")
    ensures |CaughtSources(desc)| > 0 ==> Contains(desc, "CAUGHT STEALING")
    ensures forall j :: 0 <= j < |CaughtSources(desc)| ==>
              CaughtSources(desc)[j] == desc[..IndexOf(desc, "CAUGHT STEALING")]
  {
    SplitCount(desc, "CAUGHT STEALING");
    SplitHead(desc, "CAUGHT STEALING");
  }

  /** A row yields one stealer per "STEALS" and one caught runner per
      "CAUGHT STEALING", and one RBI per "SCORES", all counted in the full
      description. */
  lemma ParseRowCounts(row: Row, f: Fields, pinch: PinchMap)
    requires !Short(row, f) && ParseRow(row, f, pinch).Ok?
    ensures var desc := Upper(row[f.desc]);
            var p := ParseRow(row, f, pinch).value;
            && p.rbi == Count(desc, "SCORES")
            && |p.stealers| == Count(desc, "STEALS")
            && |p.caught| == Count(desc, "CAUGHT STEALING")
            && p.batter == Resolve(pinch, Upper(row[f.batter]))
            && p.inning == Digits(row[f.inn])
  {
    var desc := Upper(row[f.desc]);
    ParseRowParts(row, f, pinch);
    SplitCount(desc, "STEALS");
    RunnersShape(StealSources(desc), pinch);
    RunnersShape(CaughtSources(desc), pinch);
  }

  /** Reading a row fails exactly when the text before some "STEALS", or
      before the first "CAUGHT STEALING" of a row that has one, holds no
      word. */
  lemma ParseRowFails(row: Row, f: Fields, pinch: PinchMap)
    requires !Short(row, f)
    ensures var desc := Upper(row[f.desc]);
            var steals := SplitOn(desc, "STEALS");
            |steals| - 1 == Count(desc, "STEALS") &&
            (ParseRow(row, f, pinch).Err? <==>
              (exists i :: 0 <= i < |steals| - 1 && SplitWs(steals[i]) == []) ||
              (Count(desc, "CAUGHT STEALING") > 0 && SplitWs(SplitOn(desc, "CAUGHT STEALING")[0]) == []))
  {
    var desc := Upper(row[f.desc]);
    ParseRowParts(row, f, pinch);
    SplitCount(desc, "STEALS");
    var ss := StealSources(desc);
    var cs := CaughtSources(desc);
    RunnersShape(ss, pinch);
    RunnersShape(cs, pinch);
    var steals := SplitOn(desc, "STEALS");
    assert forall i :: 0 <= i < |ss| ==> ss[i] == steals[i];
    if Count(desc, "CAUGHT STEALING") > 0 {
      assert cs[0] == SplitOn(desc, "CAUGHT STEALING")[0];
    }
  }

  /** A pinch hitter's plate appearance goes on the line of the batter
      named by the last sentence registering that hitter. */
  lemma PinchHitterOnBattersLine(lines: seq<string>, row: Row, f: Fields)
    requires !Short(row, f) && ParseRow(row, f, MapOf(lines)).Ok?
    requires Upper(row[f.batter]) in MapOf(lines)
    ensures var hitter := Upper(row[f.batter]);
            var p := ParseRow(row, f, MapOf(lines)).value;
            exists i :: 0 <= i < |lines| && Entry(lines[i]) == Some((hitter, p.batter)) &&
              forall j :: i < j < |lines| ==> Entry(lines[j]).None? || Entry(lines[j]).value.0 != hitter
  {
    ParseRowCounts(row, f, MapOf(lines));
    MapOfLast(lines, Upper(row[f.batter]));
  }

  /** The only error of the fold is an IndexError from a runner name. */
  lemma {:induction false} RunErrors(b: Scoreboard, rows: seq<Row>, f: Fields, pinch: PinchMap)
    ensures Run(b, rows, f, pinch).Err? ==> Run(b, rows, f, pinch).error == IndexError
    decreases |rows|
  {
    if |rows| > 0 {
      if Short(rows[0], f) {
        RunErrors(b, rows[1..], f, pinch);
      } else {
        ParseRowParts(rows[0], f, pinch);
        if ParseRow(rows[0], f, pinch).Ok? {
          RunErrors(ApplyPlay(b, ParseRow(rows[0], f, pinch).value), rows[1..], f, pinch);
        }
      }
    }
  }

  // ---------------------------------------------------------------------
  // What a play does to the scoreboard.

  /** Appending to each runner in turn keeps the cells valid. */
  lemma {:induction false} AppendEachValid(cells: Cells, runners: seq<string>, suffix: string)
    requires Valid(cells)
    ensures Valid(AppendEach(cells, runners, suffix))
  {
    if |runners| > 0 {
      var init := runners[..|runners| - 1];
      var r := runners[|runners| - 1];
      AppendEachValid(cells, init, suffix);
      var c := AppendEach(cells, init, suffix);
      PutFacts(c, r, Get(c, r, "") + suffix, r, "");
    }
  }

  /** Appending to each runner in turn adds one `suffix` per occurrence of
      a name to that name's cell and leaves every other cell alone. */
  lemma {:induction false} AppendEachGet(cells: Cells, runners: seq<string>, suffix: string, n: string)
    ensures Get(AppendEach(cells, runners, suffix), n, "") ==
            Get(cells, n, "") + Repeat(suffix, multiset(runners)[n])
  {
    if |runners| > 0 {
      var init := runners[..|runners| - 1];
      var r := runners[|runners| - 1];
      AppendEachGet(cells, init, suffix, n);
      var c := AppendEach(cells, init, suffix);
      PutGet(c, r, Get(c, r, "") + suffix, n, "");
      assert runners == init + [r];
      assert multiset(runners) == multiset(init) + multiset{r};
      if n == r {
        var m := multiset(init)[n];
        RepeatSnoc(suffix, m);
        assert Get(cells, n, "") + Repeat(suffix, m) + suffix == Get(cells, n, "") + Repeat(suffix, m + 1);
      }
    }
  }

  /** Appending to each runner in turn creates the cells of new names and
      no others. */
  lemma {:induction false} AppendEachKeys(cells: Cells, runners: seq<string>, suffix: string, n: string)
    ensures n in AppendEach(cells, runners, suffix).vals <==> n in cells.vals || n in runners
  {
    if |runners| > 0 {
      var init := runners[..|runners| - 1];
      AppendEachKeys(cells, init, suffix, n);
      assert runners == init + [runners[|runners| - 1]];
    }
  }

  /** Appending to each runner in turn orders the cells as storing under
      each runner in turn: new names go to the end, in order of first
      mention. */
  lemma {:induction false} AppendEachOrder(cells: Cells, runners: seq<string>, suffix: string)
    requires Valid(cells)
    ensures AppendEach(cells, runners, suffix).keys == Extended(cells.keys, runners)
  {
    if |runners| > 0 {
      var init := runners[..|runners| - 1];
      var r := runners[|runners| - 1];
      AppendEachOrder(cells, init, suffix);
      AppendEachValid(cells, init, suffix);
      var c := AppendEach(cells, init, suffix);
      PutOrder(c, r, Get(c, r, "") + suffix);
    }
  }

  /** The scoreboard is well formed: both levels are valid ordered
      dictionaries and every inning key is a string of digits. */
  predicate WellFormed(b: Scoreboard) {
    && Valid(b)
    && (forall k :: k in b.vals ==> Valid(b.vals[k]))
    && (forall k :: k in b.vals ==> forall i :: 0 <= i < |k| ==> IsDigit(k[i]))
  }

  /** One play: in its inning, the batter's cell is joined with "; " to a
      non-empty earlier entry and then gets one ", RBI" per run batted in
      if non-empty; each runner's cell gets one ", SB" per steal and one
      ", CS" per time caught, created first if missing; all other cells of
      the inning are unchanged. */
  lemma ApplyPlayEffect(b: Scoreboard, p: Play, n: string)
    requires WellFormed(b)
    ensures var before := Get(b, p.inning, Empty());
            var after := Get(ApplyPlay(b, p), p.inning, Empty());
            var prior := Get(before, n, "");
            var joined := if prior != "" then prior + "; " + p.code else p.code;
            var batted := if joined != "" then joined + Repeat(", RBI", p.rbi) else joined;
            && Get(after, n, "") ==
               (if n == p.batter then batted else prior)
               + Repeat(", SB", multiset(p.stealers)[n]) + Repeat(", CS", multiset(p.caught)[n])
            && (n in after.vals <==> n in before.vals || n == p.batter || n in p.stealers || n in p.caught)
  {
    var before := Get(b, p.inning, Empty());
    EmptyValid<string>();
    assert Valid(before);
    var batted := Put(before, p.batter, BatCell(Get(before, p.batter, ""), p.code, p.rbi));
    PutFacts(before, p.batter, BatCell(Get(before, p.batter, ""), p.code, p.rbi), n, "");
    AppendEachGet(batted, p.stealers, ", SB", n);
    AppendEachKeys(batted, p.stealers, ", SB", n);
    var stolen := AppendEach(batted, p.stealers, ", SB");
    AppendEachGet(stolen, p.caught, ", CS", n);
    AppendEachKeys(stolen, p.caught, ", CS", n);
  }

  /** The order a play leaves behind: the inning's cells keep their order,
      and the batter, then the stealers, then the caught runners that had
      no cell yet follow in that order; a new inning goes after the others.
      This order is the one the batter-order loop of the layout reads. */
  lemma ApplyPlayOrder(b: Scoreboard, p: Play)
    requires WellFormed(b)
    ensures var before := Get(b, p.inning, Empty());
            var after := Get(ApplyPlay(b, p), p.inning, Empty());
            && after.keys == Extended(before.keys, [p.batter] + p.stealers + p.caught)
            && before.keys <= after.keys
    ensures ApplyPlay(b, p).keys == Extended(b.keys, [p.inning])
    ensures b.keys <= ApplyPlay(b, p).keys
  {
    var before := Get(b, p.inning, Empty());
    EmptyValid<string>();
    assert Valid(before);
    var code := BatCell(Get(before, p.batter, ""), p.code, p.rbi);
    var batted := Put(before, p.batter, code);
    PutOrder(before, p.batter, code);
    PutFacts(before, p.batter, code, p.batter, "");
    AppendEachOrder(batted, p.stealers, ", SB");
    AppendEachValid(batted, p.stealers, ", SB");
    var stolen := AppendEach(batted, p.stealers, ", SB");
    AppendEachOrder(stolen, p.caught, ", CS");
    ExtendedAppend(before.keys, [p.batter], p.stealers);
    ExtendedAppend(before.keys, [p.batter] + p.stealers, p.caught);
    ExtendedPrefix(before.keys, [p.batter] + p.stealers + p.caught);
    PutOrder(b, p.inning, AppendEach(stolen, p.caught, ", CS"));
    ExtendedPrefix(b.keys, [p.inning]);
  }

  /** A play touches the cells of its own inning only. */
  lemma ApplyPlayOtherInnings(b: Scoreboard, p: Play, inning: string)
    requires inning != p.inning
    ensures Get(ApplyPlay(b, p), inning, Empty()) == Get(b, inning, Empty())
    ensures inning in ApplyPlay(b, p).vals <==> inning in b.vals
  {
  }

  /** Storing valid cells under a digit-string inning keeps the
      scoreboard well formed. */
  lemma PutWellFormed(b: Scoreboard, inning: string, cells: Cells)
    requires WellFormed(b) && Valid(cells)
    requires forall i :: 0 <= i < |inning| ==> IsDigit(inning[i])
    ensures WellFormed(Put(b, inning, cells))
  {
    PutFacts(b, inning, cells, inning, Empty());
  }

  /** A play keeps the scoreboard well formed when its inning is digits. */
  lemma ApplyPlayWellFormed(b: Scoreboard, p: Play)
    requires WellFormed(b) && forall i :: 0 <= i < |p.inning| ==> IsDigit(p.inning[i])
    ensures WellFormed(ApplyPlay(b, p))
  {
    var before := Get(b, p.inning, Empty());
    EmptyValid<string>();
    var batted := Put(before, p.batter, BatCell(Get(before, p.batter, ""), p.code, p.rbi));
    PutFacts(before, p.batter, BatCell(Get(before, p.batter, ""), p.code, p.rbi), "", "");
    AppendEachValid(batted, p.stealers, ", SB");
    var stolen := AppendEach(batted, p.stealers, ", SB");
    AppendEachValid(stolen, p.caught, ", CS");
    PutWellFormed(b, p.inning, AppendEach(stolen, p.caught, ", CS"));
  }

  /** The fold keeps the scoreboard well formed. */
  lemma {:induction false} RunWellFormed(b: Scoreboard, rows: seq<Row>, f: Fields, pinch: PinchMap)
    requires WellFormed(b) && Run(b, rows, f, pinch).Ok?
    ensures WellFormed(Run(b, rows, f, pinch).value)
    decreases |rows|
  {
    if |rows| > 0 {
      if Short(rows[0], f) {
        RunWellFormed(b, rows[1..], f, pinch);
      } else {
        var p := ParseRow(rows[0], f, pinch).value;
        ParseRowCounts(rows[0], f, pinch);
        ApplyPlayWellFormed(b, p);
        RunWellFormed(ApplyPlay(b, p), rows[1..], f, pinch);
      }
    }
  }

  /** Every accumulated scoreboard is well formed. */
  lemma AccumulatedWellFormed(header: Row, rows: seq<Row>, pinch: PinchMap)
    requires Accumulated(header, rows, pinch).Ok?
    ensures WellFormed(Accumulated(header, rows, pinch).value)
  {
    EmptyValid<Cells>();
    RunWellFormed(Empty(), rows, LookupFields(header).value, pinch);
  }

  // ---------------------------------------------------------------------
  // The caught-stealing lookup as written.

  /** Main.py:168-169 as written: a caught runner who is a pinch hitter is
      replaced by `pinch_map[sb_player]`, where `sb_player` is the last
      stolen-base runner named anywhere earlier in the run. With none
      named yet that is NameError; with one who is not a pinch hitter
      (the usual case, since stored names are already resolved), KeyError.
      `Runners` resolves the caught runner's own name instead. */
  function CaughtRunnerAsWritten(runner: string, lastStealer: Option<string>, pinch: PinchMap): Result<string> {
    if runner !in pinch then Ok(runner)
    else match lastStealer
      case None => Err("NameError: name 'sb_player' is not defined")
      case Some(s) => if s in pinch then Ok(pinch[s]) else Err("KeyError")
  }

  /** The two agree for a runner who is not a pinch hitter. */
  lemma CaughtRunnerAsWrittenAgrees(runner: string, lastStealer: Option<string>, pinch: PinchMap)
    requires runner !in pinch
    ensures CaughtRunnerAsWritten(runner, lastStealer, pinch) == Ok(Resolve(pinch, runner))
  {
  }

  /** A pinch hitter caught stealing stops the program as written, both
      before any steal and after the steal of an ordinary runner, where
      the corrected lookup files the CS under the replaced batter. */
  lemma CaughtPinchHitterCrashes()
    ensures var pinch := map["WINKER" := "PERKINS"];
            && CaughtRunnerAsWritten("WINKER", None, pinch).Err?
            && CaughtRunnerAsWritten("WINKER", Some("TURANG"), pinch).Err?
            && Runners(["WINKER"], pinch) == Some(["PERKINS"])
  {
    var pinch := map["WINKER" := "PERKINS"];
    SplitWsToken("WINKER");
    assert LastToken("WINKER") == Some("WINKER");
    var srcs := ["WINKER"];
    assert srcs[..|srcs| - 1] == [];
    assert Runners(srcs[..|srcs| - 1], pinch) == Some([]);
    assert srcs[|srcs| - 1] == "WINKER";
    assert Resolve(pinch, "WINKER") == "PERKINS";
    assert Runners(srcs, pinch) == Some([] + ["PERKINS"]);
    assert [] + ["PERKINS"] == ["PERKINS"];
  }

  /** The header of the filtered rows, and where the accumulator finds
      its three columns in it. */
  const FilteredHeader: Row := ["Inn", "@Bat", "Batter", "Play Description"]

  lemma FilteredHeaderFields()
    ensures LookupFields(FilteredHeader) == Ok(Fields(0, 2, 3))
  {
    var h := FilteredHeader;
    assert h[0] == "Inn" && h[1..][1..][0] == "Batter" && h[1..][1..][1..][0] == "Play Description";
  }
}
