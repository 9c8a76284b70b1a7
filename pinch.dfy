/** The pinch-hitter map: sentences of the form "X PINCH HITS FOR Y ..."
    register X as standing in for Y, so that X's plate appearances are
    written on Y's line of the scorebook. */
module Pinch {
  import opened Common
  import opened Text

  const Phrase := "PINCH HITS FOR"

  /** A map from pinch hitter to the batter replaced. */
  type PinchMap = map<string, string>

  /** What one input line contributes: the last word before the phrase and
      the second word after it, when the line mentions the phrase, has a
      word before it and more than two words after it. A line with no word
      before the phrase is skipped (see `EntryAsWritten` for the line as
      written, which stops the program there). The phrase is matched
      case-insensitively, and the names come out upper-cased. */
  function Entry(line: string): Option<(string, string)> {
    SentenceEntry(Upper(line))
  }

  /** `Entry` on a line that is already upper-cased. */
  function SentenceEntry(u: string): Option<(string, string)> {
    if !Contains(u, Phrase) then None
    else
      SplitHead(u, Phrase);
      var words := SplitOn(u, Phrase);
      var before := SplitWs(words[0]);
      var after := SplitWs(words[1]);
      if |before| == 0 then None
      else if |after| > 2 then Some((before[|before| - 1], after[1]))
      else None
  }

  /** A sentence registers an entry exactly when it mentions the phrase,
      some word precedes the first mention and more than two words follow
      it (up to any second mention). The hitter is the last word before the
      first mention, the batter the second word after it. */
  lemma SentenceShape(u: string)
    ensures SentenceEntry(u).Some? <==>
              Contains(u, Phrase) &&
              |SplitWs(u[..IndexOf(u, Phrase)])| > 0 &&
              |SplitWs(SplitOn(u, Phrase)[1])| > 2
    ensures SentenceEntry(u).Some? ==>
              var before := SplitWs(u[..IndexOf(u, Phrase)]);
              SentenceEntry(u).value == (before[|before| - 1], SplitWs(SplitOn(u, Phrase)[1])[1])
  {
    SplitHead(u, Phrase);
  }

  /** `SentenceShape` for an input line, whatever its case. */
  lemma EntryShape(line: string)
    ensures var u := Upper(line);
            Entry(line).Some? <==>
              Contains(u, Phrase) &&
              |SplitWs(u[..IndexOf(u, Phrase)])| > 0 &&
              |SplitWs(SplitOn(u, Phrase)[1])| > 2
    ensures Entry(line).Some? ==>
              var u := Upper(line);
              var before := SplitWs(u[..IndexOf(u, Phrase)]);
              Entry(line).value == (before[|before| - 1], SplitWs(SplitOn(u, Phrase)[1])[1])
  {
    SentenceShape(Upper(line));
  }

  /** Both names of an entry are non-empty words. */
  lemma EntryNamesAreWords(line: string)
    requires Entry(line).Some?
    ensures Entry(line).value.0 != "" && Entry(line).value.1 != ""
    ensures forall i :: 0 <= i < |Entry(line).value.0| ==> !IsSpace(Entry(line).value.0[i])
    ensures forall i :: 0 <= i < |Entry(line).value.1| ==> !IsSpace(Entry(line).value.1[i])
  {
    var u := Upper(line);
    SplitHead(u, Phrase);
    var words := SplitOn(u, Phrase);
    var before := SplitWs(words[0]);
    var after := SplitWs(words[1]);
    assert SentenceEntry(u) == Some((before[|before| - 1], after[1]));
  }

  /** A line without the phrase registers nothing. */
  lemma EntryNeedsPhrase(line: string)
    requires !Contains(Upper(line), Phrase)
    ensures Entry(line) == None
  {
  }

  /** Registering one line's contribution: a later sentence about the
      same hitter replaces the earlier one. */
  function Register(m: PinchMap, e: Option<(string, string)>): PinchMap {
    match e
    case None => m
    case Some((hitter, batter)) => m[hitter := batter]
  }

  /** The map after registering `es` in order. */
  function Registered(es: seq<Option<(string, string)>>): PinchMap {
    if |es| == 0 then map[]
    else Register(Registered(es[..|es| - 1]), es[|es| - 1])
  }

  /** What each line contributes, line by line. */
  function EntriesOf(lines: seq<string>): (es: seq<Option<(string, string)>>)
    ensures |es| == |lines|
    ensures forall i :: 0 <= i < |lines| ==> es[i] == Entry(lines[i])
  {
    seq(|lines|, i requires 0 <= i < |lines| => Entry(lines[i]))
  }

  /** The map after reading `lines` in order. */
  function MapOf(lines: seq<string>): PinchMap {
    Registered(EntriesOf(lines))
  }

  /** The loop of the source: one pass over the input lines. */
  method BuildPinchMap(lines: seq<string>) returns (m: PinchMap)
    ensures m == MapOf(lines)
  {
    m := map[];
    for i := 0 to |lines|
      invariant m == MapOf(lines[..i])
    {
      var es := EntriesOf(lines[..i + 1]);
      assert es[..i] == EntriesOf(lines[..i]);
      m := Register(m, Entry(lines[i]));
    }
    assert lines[..|lines|] == lines;
  }

  /** A hitter is registered exactly when some entry names them. */
  lemma {:induction false} RegisteredKeys(es: seq<Option<(string, string)>>, hitter: string)
    ensures hitter in Registered(es) <==>
            exists i :: 0 <= i < |es| && es[i].Some? && es[i].value.0 == hitter
  {
    if |es| > 0 {
      var init := es[..|es| - 1];
      var last := es[|es| - 1];
      RegisteredKeys(init, hitter);
      if hitter in Registered(init) {
        var i :| 0 <= i < |init| && init[i].Some? && init[i].value.0 == hitter;
        assert es[i] == init[i];
      }
      if exists i :: 0 <= i < |es| && es[i].Some? && es[i].value.0 == hitter {
        var i :| 0 <= i < |es| && es[i].Some? && es[i].value.0 == hitter;
        if i < |init| {
          assert init[i] == es[i];
        }
      }
    }
  }

  /** A registered hitter maps to the batter of the LAST entry naming them. */
  lemma {:induction false} RegisteredLast(es: seq<Option<(string, string)>>, hitter: string)
    requires hitter in Registered(es)
    ensures exists i :: 0 <= i < |es| && es[i] == Some((hitter, Registered(es)[hitter])) &&
              forall j :: i < j < |es| ==> es[j].None? || es[j].value.0 != hitter
  {
    var init := es[..|es| - 1];
    var last := es[|es| - 1];
    if last.Some? && last.value.0 == hitter {
      assert es[|es| - 1] == Some((hitter, Registered(es)[hitter]));
    } else {
      assert es[..|es| - 1] == init;
      assert hitter in Registered(init) && Registered(es)[hitter] == Registered(init)[hitter];
      RegisteredLast(init, hitter);
      var i :| 0 <= i < |init| && init[i] == Some((hitter, Registered(init)[hitter])) &&
               forall j :: i < j < |init| ==> init[j].None? || init[j].value.0 != hitter;
      assert es[i] == init[i];
      forall j | i < j < |es|
        ensures es[j].None? || es[j].value.0 != hitter
      {
        if j < |init| {
          assert es[j] == init[j];
        }
      }
    }
  }

  /** A hitter is in the map exactly when some line registers them, and
      the map holds the batter named by the LAST such line. */
  lemma MapOfLast(lines: seq<string>, hitter: string)
    ensures hitter in MapOf(lines) <==>
            exists i :: 0 <= i < |lines| && Entry(lines[i]).Some? && Entry(lines[i]).value.0 == hitter
    ensures hitter in MapOf(lines) ==>
            exists i :: 0 <= i < |lines| && Entry(lines[i]) == Some((hitter, MapOf(lines)[hitter])) &&
              forall j :: i < j < |lines| ==> Entry(lines[j]).None? || Entry(lines[j]).value.0 != hitter
  {
    RegisteredKeys(EntriesOf(lines), hitter);
    if hitter in MapOf(lines) {
      RegisteredLast(EntriesOf(lines), hitter);
    }
  }

  /** The source's sentence as written: `words[0].split()[-1]` raises
      IndexError when nothing precedes the phrase, and the surrounding
      handler catches only ValueError, so the program stops. */
  function EntryAsWritten(line: string): (r: Result<Option<(string, string)>>)
    ensures r.Ok? ==> r.value == Entry(line)
    ensures var u := Upper(line);
            r.Err? <==> Contains(u, Phrase) && SplitWs(u[..IndexOf(u, Phrase)]) == []
  {
    var u := Upper(line);
    if !Contains(u, Phrase) then Ok(None)
    else
      SplitHead(u, Phrase);
      var words := SplitOn(u, Phrase);
      var before := SplitWs(words[0]);
      if |before| == 0 then Err("IndexError: list index out of range")
      else Ok(Entry(line))
  }

  /** A play-by-play line that begins with the phrase stops the program
      as written; the corrected reading skips it. */
  lemma LeadingPhraseCrashes()
    ensures EntryAsWritten("Pinch hits for Jones").Err?
    ensures Entry("Pinch hits for Jones") == None
  {
    var u := Upper("Pinch hits for Jones");
    assert u == "PINCH HITS FOR JONES";
    assert StartsWith(u, Phrase);
    assert IndexOf(u, Phrase) == 0;
    SplitHead(u, Phrase);
    assert SplitOn(u, Phrase)[0] == "";
  }
}
