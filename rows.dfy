/** The row filter: keep the inning, batting-team, batter and description
    columns of every parsed row, then keep the header and the rows of the
    team whose scorebook is drawn. */
module Rows {
  import opened Text

  type Row = seq<string>

  /** The columns kept, in order: Inn, @Bat, Batter, Play Description. */
  const Columns: seq<nat> := [0, 6, 7, 11]

  /** The column holding the batter's name. */
  const BatterColumn := 7

  /** The team whose at-bats are kept. */
  const Team := "MIL"

  /** A batter field of several words loses its first word when that word
      starts with a capital letter (the first name); several words are
      re-joined with single blanks. */
  function StripBatter(val: string): string {
    var words := SplitWs(val);
    if |words| > 1 then Join(if IsUpper(words[0][0]) then words[1..] else words, " ")
    else val
  }

  /** Stripping removes exactly the capitalised first word of a
      multi-word name and keeps every other word, in order. */
  lemma StripBatterWords(val: string)
    ensures var words := SplitWs(val);
            SplitWs(StripBatter(val)) ==
              if |words| > 1 && IsUpper(words[0][0]) then words[1..] else words
  {
    var words := SplitWs(val);
    if |words| > 1 {
      var kept := if IsUpper(words[0][0]) then words[1..] else words;
      assert forall k :: 0 <= k < |kept| ==> IsWord(kept[k]);
      SplitJoin(kept);
    }
  }

  /** The value kept from column `idx` of `row`. */
  function Cell(row: Row, idx: nat): string
    requires idx < |row|
  {
    if idx == BatterColumn then StripBatter(row[idx]) else row[idx]
  }

  /** The fields kept from `row` for the columns `cols`, skipping columns
      the row is too short to have. */
  function Select(row: Row, cols: seq<nat>): Row {
    if |cols| == 0 then []
    else
      var last := cols[|cols| - 1];
      Select(row, cols[..|cols| - 1]) + (if last < |row| then [Cell(row, last)] else [])
  }

  /** The projection of one row onto the kept columns. */
  function Project(row: Row): Row {
    Select(row, Columns)
  }

  /** The inner loop of the source: one pass over the kept columns. */
  method ProjectRow(row: Row) returns (filtered: Row)
    ensures filtered == Project(row)
  {
    filtered := [];
    for k := 0 to |Columns|
      invariant filtered == Select(row, Columns[..k])
    {
      assert Columns[..k + 1][..k] == Columns[..k];
      var idx := Columns[k];
      if idx < |row| {
        filtered := filtered + [Cell(row, idx)];
      }
    }
    assert Columns[..|Columns|] == Columns;
  }

  /** A row is kept when it has a batting-team field naming the team. */
  predicate OfTeam(row: Row) {
    |row| > 1 && row[1] == Team
  }

  /** The list comprehension of the source: the rows of the team, in order. */
  function KeepTeam(rows: seq<Row>): (kept: seq<Row>)
    ensures |kept| <= |rows|
  {
    if |rows| == 0 then []
    else KeepTeam(rows[..|rows| - 1]) + (if OfTeam(rows[|rows| - 1]) then [rows[|rows| - 1]] else [])
  }

  /** Every row projected, in order. */
  function ProjectAll(rows: seq<Row>): (ps: seq<Row>)
    ensures |ps| == |rows|
    ensures forall i :: 0 <= i < |rows| ==> ps[i] == Project(rows[i])
  {
    seq(|rows|, i requires 0 <= i < |rows| => Project(rows[i]))
  }

  /** What the filter produces from the parsed rows, header first. */
  function Filtered(rows: seq<Row>): seq<Row>
    requires |rows| >= 1
  {
    [Project(rows[0])] + KeepTeam(ProjectAll(rows[1..]))
  }

  /** The two loops of the source. The rows begin at the header line,
      which the program has already located, so there is at least one. */
  method FilterRows(rows: seq<Row>) returns (out: seq<Row>)
    requires |rows| >= 1
    ensures out == Filtered(rows)
  {
    var projected: seq<Row> := [];
    for i := 0 to |rows|
      invariant projected == ProjectAll(rows[..i])
    {
      var filtered := ProjectRow(rows[i]);
      projected := projected + [filtered];
    }
    assert rows[..|rows|] == rows;
    var header := projected[0];
    assert projected[1..] == ProjectAll(rows[1..]);
    out := [header] + KeepTeam(projected[1..]);
  }

  // ---------------------------------------------------------------------
  // What the projection keeps.

  /** The projection keeps, in order, the columns 0, 6, 7, 11 that the row
      has: its length counts them and its j-th field comes from the j-th
      kept column. */
  lemma ProjectShape(row: Row)
    ensures |Project(row)| ==
            if |row| > 11 then 4 else if |row| > 7 then 3 else if |row| > 6 then 2
            else if |row| > 0 then 1 else 0
    ensures forall j :: 0 <= j < |Project(row)| ==> Columns[j] < |row| && Project(row)[j] == Cell(row, Columns[j])
  {
    var c := Columns;
    assert c[..0] == [];
    SelectSnoc(row, c, 0);
    SelectSnoc(row, c, 1);
    SelectSnoc(row, c, 2);
    SelectSnoc(row, c, 3);
    assert c[..4] == c;
  }

  /** Selecting one more column appends that column's field, if any. */
  lemma SelectSnoc(row: Row, cols: seq<nat>, k: nat)
    requires k < |cols|
    ensures Select(row, cols[..k + 1]) ==
            Select(row, cols[..k]) + (if cols[k] < |row| then [Cell(row, cols[k])] else [])
  {
    assert cols[..k + 1][..k] == cols[..k];
  }

  /** At most the four kept columns survive. */
  lemma ProjectAtMostFour(row: Row)
    ensures |Project(row)| <= 4
  {
    ProjectShape(row);
  }

  // ---------------------------------------------------------------------
  // What the team filter keeps.

  /** A row survives the team filter exactly when it is one of the input
      rows and belongs to the team. */
  lemma {:induction false} KeepTeamMembers(rows: seq<Row>, r: Row)
    ensures r in KeepTeam(rows) <==> r in rows && OfTeam(r)
  {
    if |rows| > 0 {
      var init := rows[..|rows| - 1];
      KeepTeamMembers(init, r);
      assert rows == init + [rows[|rows| - 1]];
    }
  }

  /** Every row the team filter keeps belongs to the team. */
  lemma {:induction false} KeepTeamAllOfTeam(rows: seq<Row>)
    ensures forall i :: 0 <= i < |KeepTeam(rows)| ==> OfTeam(KeepTeam(rows)[i])
  {
    if |rows| > 0 {
      KeepTeamAllOfTeam(rows[..|rows| - 1]);
    }
  }

  /** The team filter keeps rows that are already filtered. */
  lemma {:induction false} KeepTeamIdempotent(rows: seq<Row>)
    ensures KeepTeam(KeepTeam(rows)) == KeepTeam(rows)
  {
    if |rows| > 0 {
      var init := rows[..|rows| - 1];
      KeepTeamIdempotent(init);
      var last := rows[|rows| - 1];
      var k := KeepTeam(rows);
      if OfTeam(last) {
        assert k == KeepTeam(init) + [last];
        assert k[..|k| - 1] == KeepTeam(init);
        assert k[|k| - 1] == last;
        assert KeepTeam(k) == KeepTeam(k[..|k| - 1]) + [last];
      } else {
        assert k == KeepTeam(init);
      }
    }
  }

  /** The filter's output: the projected header leads, and every later
      row has at least two and at most four fields and belongs to the
      team. */
  lemma FilteredShape(rows: seq<Row>)
    requires |rows| >= 1
    ensures Filtered(rows)[0] == Project(rows[0])
    ensures forall i :: 1 <= i < |Filtered(rows)| ==>
              2 <= |Filtered(rows)[i]| <= 4 && Filtered(rows)[i][1] == Team
  {
    var ps := ProjectAll(rows[1..]);
    KeepTeamAllOfTeam(ps);
    var out := Filtered(rows);
    forall i | 1 <= i < |out|
      ensures 2 <= |out[i]| <= 4 && out[i][1] == Team
    {
      assert out[i] == KeepTeam(ps)[i - 1];
      KeepTeamMembers(ps, out[i]);
      var j :| 0 <= j < |ps| && ps[j] == out[i];
      ProjectAtMostFour(rows[1..][j]);
    }
  }

  /** Every data row of the team survives the filter, projected. */
  lemma FilteredComplete(rows: seq<Row>, i: nat)
    requires 1 <= i < |rows| && OfTeam(Project(rows[i]))
    ensures Project(rows[i]) in Filtered(rows)[1..]
  {
    var ps := ProjectAll(rows[1..]);
    assert ps[i - 1] == Project(rows[i]);
    KeepTeamMembers(ps, Project(rows[i]));
    assert Filtered(rows)[1..] == KeepTeam(ps);
  }

  /** Filtering rows a second time projects the already projected rows
      again, and a projected row has no column 6: only its inning field is
      left. So the whole filter is not idempotent; only the team filter is
      (`KeepTeamIdempotent`). */
  lemma ProjectTwice(row: Row)
    requires |row| <= 4
    ensures Project(row) == row[..if |row| == 0 then 0 else 1]
  {
    ProjectShape(row);
  }
}
