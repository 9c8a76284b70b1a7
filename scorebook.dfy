/** The script's top level: the pinch-hitter map from every input line,
    the row filter, the accumulator and the table layout, in that order. */
module Scorebook {
  import opened Common
  import opened Dict
  import opened Pinch
  import opened Rows
  import opened Board
  import opened Grid

  /** The fields of the fixed header line. */
  const HeaderFields: Row := ["Inn", "Score", "Out", "RoB", "Pit(cnt)", "R/O", "@Bat", "Batter",
                              "Pitcher", "wWPA", "wWE", "Play Description"]

  /** The table the script computes from the input lines and the parsed
      rows that begin at the header line. */
  function ScorebookOf(lines: seq<string>, rows: seq<Row>): Result<Table>
    requires |rows| >= 1
  {
    var filtered := Filtered(rows);
    match Accumulated(filtered[0], filtered[1..], MapOf(lines))
    case Err(e) => Err(e)
    case Ok(b) => if "" in b.keys then Err(IntError) else Ok(TableOf(b))
  }

  /** The script, one stage after the other. */
  method Run(lines: seq<string>, rows: seq<Row>) returns (res: Result<Table>)
    requires |rows| >= 1
    ensures res == ScorebookOf(lines, rows)
  {
    var pinch := BuildPinchMap(lines);
    var filtered := FilterRows(rows);
    var board := Accumulate(filtered[0], filtered[1..], pinch);
    if board.Err? {
      return Err(board.error);
    }
    AccumulatedWellFormed(filtered[0], filtered[1..], pinch);
    res := BuildTable(board.value);
  }

  /** Under the fixed header, the filtered header is Inn, @Bat, Batter,
      Play Description, so the accumulator reads columns 0, 2 and 3. */
  lemma HeaderColumns()
    ensures Project(HeaderFields) == FilteredHeader
    ensures LookupFields(Project(HeaderFields)) == Ok(Fields(0, 2, 3))
  {
    var h := HeaderFields;
    ProjectShape(h);
    StripBatterHeader();
    var p := Project(h);
    assert |p| == 4;
    assert p[0] == Cell(h, 0) == "Inn";
    assert p[1] == Cell(h, 6) == "@Bat";
    assert p[2] == Cell(h, 7) == "Batter";
    assert p[3] == Cell(h, 11) == "Play Description";
    assert p == FilteredHeader;
    FilteredHeaderFields();
  }

  lemma StripBatterHeader()
    ensures StripBatter("Batter") == "Batter"
  {
    Text.SplitWsToken("Batter");
  }

  /** Under the fixed header the model, which reads pinch-hitter lines and
      caught runners in the corrected way (see `Pinch.EntryAsWritten` and
      `Board.CaughtRunnerAsWritten` for the code as written), fails only by
      an IndexError in a runner name or by an inning without digits. */
  lemma FailuresUnderHeader(lines: seq<string>, rows: seq<Row>)
    requires |rows| >= 1 && rows[0] == HeaderFields
    ensures ScorebookOf(lines, rows).Err? ==>
              ScorebookOf(lines, rows).error == IndexError || ScorebookOf(lines, rows).error == IntError
  {
    HeaderColumns();
    var filtered := Filtered(rows);
    var f := Fields(0, 2, 3);
    RunErrors(Empty(), filtered[1..], f, MapOf(lines));
  }
}
