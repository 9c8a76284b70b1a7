/** The play classifier of Main.py: fielding positions to scorebook
    numbers (`score_unassisted`), assist chains (`score_groundout`) and the
    keyword decision table that turns a play description into shorthand
    (`to_scorebook`). */
module Classifier {
  import opened Text

  /** The keys of `pos_map`, in its insertion (= iteration) order. */
  const PositionKeys: seq<string> := ["1B", "2B", "3B", "SS", "LF", "CF", "RF", "P", "C"]
  /** The scorebook number of each key, index for index. */
  const PositionNumbers: seq<string> := ["3", "4", "5", "6", "7", "8", "9", "1", "2"]

  /** One scorebook position number, "1".."9". */
  predicate IsPositionNumber(d: string) {
    |d| == 1 && '1' <= d[0] <= '9'
  }

  /** Key `j` is the first key, in `pos_map` order, that occurs in `desc`. */
  predicate FirstPositionAt(desc: string, j: int) {
    && 0 <= j < |PositionKeys|
    && Contains(desc, PositionKeys[j])
    && forall i :: 0 <= i < j ==> !Contains(desc, PositionKeys[i])
  }

  /** The `for key, val in pos_map.items()` loop, resumed at key `k`. */
  function UnassistedFrom(desc: string, k: nat): string
    requires k <= |PositionKeys|
    decreases |PositionKeys| - k
  {
    if k == |PositionKeys| then ""
    else if Contains(desc, PositionKeys[k]) then PositionNumbers[k]
    else UnassistedFrom(desc, k + 1)
  }

  /** The loop resumed at key `k` returns the number of the first key from
      `k` on that occurs in `desc`, and "" exactly when none does. */
  lemma {:induction false} UnassistedFromFirst(desc: string, k: nat)
    requires k <= |PositionKeys|
    ensures var r := UnassistedFrom(desc, k);
            && (r == "" <==> forall j :: k <= j < |PositionKeys| ==> !Contains(desc, PositionKeys[j]))
            && (r != "" ==> exists j :: k <= j < |PositionKeys| && Contains(desc, PositionKeys[j]) &&
                                      r == PositionNumbers[j] &&
                                      forall i :: k <= i < j ==> !Contains(desc, PositionKeys[i]))
    decreases |PositionKeys| - k
  {
    if k < |PositionKeys| {
      PositionNumbersAreNumbers();
      var r := UnassistedFrom(desc, k);
      if Contains(desc, PositionKeys[k]) {
        assert r == PositionNumbers[k] && r != "";
      } else {
        UnassistedFromFirst(desc, k + 1);
        assert r == UnassistedFrom(desc, k + 1);
        if r != "" {
          var j :| k + 1 <= j < |PositionKeys| && Contains(desc, PositionKeys[j]) &&
                   r == PositionNumbers[j] &&
                   forall i :: k + 1 <= i < j ==> !Contains(desc, PositionKeys[i]);
          assert forall i :: k <= i < j ==> !Contains(desc, PositionKeys[i]);
        }
      }
    }
  }

  /** Every entry of `pos_map` maps to one number in "1".."9". */
  lemma PositionNumbersAreNumbers()
    ensures |PositionNumbers| == |PositionKeys|
    ensures forall j :: 0 <= j < |PositionNumbers| ==> IsPositionNumber(PositionNumbers[j])
  {
  }

  /** The loop only ever returns "" or an entry of `pos_map`. */
  lemma {:induction false} UnassistedFromRange(desc: string, k: nat)
    requires k <= |PositionKeys|
    ensures UnassistedFrom(desc, k) == "" || IsPositionNumber(UnassistedFrom(desc, k))
    decreases |PositionKeys| - k
  {
    PositionNumbersAreNumbers();
    if k < |PositionKeys| && !Contains(desc, PositionKeys[k]) {
      UnassistedFromRange(desc, k + 1);
    }
  }

  /** `score_unassisted(desc)`: the number of the first position key that
      occurs in `desc`, or "" when none does (see `UnassistedFirstMatch`). */
  function ScoreUnassisted(desc: string): (r: string)
    ensures r == "" || IsPositionNumber(r)
  {
    UnassistedFromRange(desc, 0);
    UnassistedFrom(desc, 0)
  }

  /** `score_unassisted` is a first-match search over `pos_map`: it
      returns the number of the first key that occurs, and "" exactly when
      no key occurs. */
  lemma UnassistedFirstMatch(desc: string)
    ensures var r := ScoreUnassisted(desc);
            && (r == "" <==> forall j :: 0 <= j < |PositionKeys| ==> !Contains(desc, PositionKeys[j]))
            && (r != "" ==> exists j :: FirstPositionAt(desc, j) && r == PositionNumbers[j])
  {
    var r := ScoreUnassisted(desc);
    UnassistedFromFirst(desc, 0);
    if r != "" {
      var j :| 0 <= j < |PositionKeys| && Contains(desc, PositionKeys[j]) &&
               r == PositionNumbers[j] &&
               forall i :: 0 <= i < j ==> !Contains(desc, PositionKeys[i]);
      assert FirstPositionAt(desc, j);
    }
  }

  /** The numbers the generator in `score_groundout` yields for the
      hyphen-separated pieces `ps`: each resolved piece, unresolved ones
      dropped. */
  function PieceNumbers(ps: seq<string>): (r: seq<string>)
    ensures forall i :: 0 <= i < |r| ==> IsPositionNumber(r[i])
  {
    if |ps| == 0 then []
    else
      var d := ScoreUnassisted(ps[|ps| - 1]);
      PieceNumbers(ps[..|ps| - 1]) + (if d != "" then [d] else [])
  }

  lemma PieceNumbersSnoc(ps: seq<string>, j: nat)
    requires j < |ps|
    ensures PieceNumbers(ps[..j + 1]) ==
            PieceNumbers(ps[..j]) + (if ScoreUnassisted(ps[j]) != "" then [ScoreUnassisted(ps[j])] else [])
  {
    assert ps[..j + 1][..j] == ps[..j];
  }

  /** What one whitespace token adds to the assist chain. */
  function WordNumbers(w: string): seq<string> {
    if Contains(w, "-") then PieceNumbers(SplitOn(w, "-")) else []
  }

  /** The assist-chain numbers of the tokens `ws`, in encounter order. */
  function ChainNumbers(ws: seq<string>): (r: seq<string>)
    ensures forall i :: 0 <= i < |r| ==> IsPositionNumber(r[i])
  {
    if |ws| == 0 then [] else ChainNumbers(ws[..|ws| - 1]) + WordNumbers(ws[|ws| - 1])
  }

  /** A chain "d-d-...-d": digits and hyphens, no hyphen at either end,
      never two hyphens side by side. */
  predicate WellFormedChain(r: string) {
    && (forall i :: 0 <= i < |r| ==> IsDigit(r[i]) || r[i] == '-')
    && (r != "" ==> r[0] != '-' && r[|r| - 1] != '-')
    && (forall i, j :: 0 <= i < |r| && 0 <= j < |r| && j == i + 1 ==> r[i] != '-' || r[j] != '-')
  }

  /** Joining one-character strings with "-" puts them at the even
      positions and hyphens at the odd ones. */
  lemma {:induction false} JoinShape(xs: seq<string>)
    requires forall i :: 0 <= i < |xs| ==> |xs[i]| == 1
    ensures xs == [] ==> Join(xs, "-") == ""
    ensures xs != [] ==> |Join(xs, "-")| == 2 * |xs| - 1
    ensures forall i :: 0 <= i < |Join(xs, "-")| ==>
              Join(xs, "-")[i] == if i % 2 == 0 then xs[i / 2][0] else '-'
  {
    if |xs| > 1 {
      var rest := Join(xs[1..], "-");
      JoinShape(xs[1..]);
      var j := Join(xs, "-");
      assert j == xs[0] + "-" + rest;
      forall i | 2 <= i < |j|
        ensures j[i] == if i % 2 == 0 then xs[i / 2][0] else '-'
      {
        assert j[i] == rest[i - 2];
        assert (i - 2) % 2 == i % 2 && (i - 2) / 2 == i / 2 - 1;
        assert xs[1..][i / 2 - 1] == xs[i / 2];
      }
    }
  }

  /** One character of a hyphen-joined chain of position numbers: a digit
      at even positions, a hyphen at odd ones. */
  lemma JoinNumbersAt(xs: seq<string>, i: int)
    requires forall k :: 0 <= k < |xs| ==> IsPositionNumber(xs[k])
    requires 0 <= i < |Join(xs, "-")|
    ensures |Join(xs, "-")| == 2 * |xs| - 1
    ensures i % 2 == 0 ==> IsDigit(Join(xs, "-")[i])
    ensures i % 2 == 1 ==> Join(xs, "-")[i] == '-'
  {
    JoinShape(xs);
    if i % 2 == 0 {
      assert IsPositionNumber(xs[i / 2]);
    }
  }

  /** Digits at the even positions and hyphens at the odd ones, with a
      digit at both ends, make a well-formed chain. */
  lemma ParityChainWellFormed(r: string)
    requires r == "" || |r| % 2 == 1
    requires forall i :: 0 <= i < |r| ==> if i % 2 == 0 then IsDigit(r[i]) else r[i] == '-'
    ensures WellFormedChain(r)
  {
    forall i, j | 0 <= i < |r| && 0 <= j < |r| && j == i + 1
      ensures r[i] != '-' || r[j] != '-'
    {
      assert i % 2 == 0 || j % 2 == 0;
    }
  }

  /** The hyphen-joined chain of position numbers: digits at the even
      positions, hyphens at the odd ones. */
  lemma JoinNumbersParity(xs: seq<string>)
    requires forall i :: 0 <= i < |xs| ==> IsPositionNumber(xs[i])
    ensures var r := Join(xs, "-");
            && (r == "" || |r| % 2 == 1)
            && forall i :: 0 <= i < |r| ==> if i % 2 == 0 then IsDigit(r[i]) else r[i] == '-'
  {
    var r := Join(xs, "-");
    forall i | 0 <= i < |r|
      ensures if i % 2 == 0 then IsDigit(r[i]) else r[i] == '-'
    {
      JoinNumbersAt(xs, i);
    }
    if r != "" {
      JoinNumbersAt(xs, 0);
    }
  }

  /** The hyphen-joined chain of position numbers is well formed. */
  lemma JoinNumbersWellFormed(xs: seq<string>)
    requires forall i :: 0 <= i < |xs| ==> IsPositionNumber(xs[i])
    ensures WellFormedChain(Join(xs, "-"))
  {
    JoinNumbersParity(xs);
    ParityChainWellFormed(Join(xs, "-"));
  }

  /** `score_groundout(desc)` as a value: "" for an empty description,
      otherwise the hyphen-joined numbers of the hyphenated tokens. */
  function GroundoutChain(desc: string): (r: string)
    ensures WellFormedChain(r)
  {
    if desc == "" then ""
    else
      var xs := ChainNumbers(SplitWs(desc));
      JoinNumbersWellFormed(xs);
      Join(xs, "-")
  }

  /** `result.extend(score_unassisted(pos) for pos in pieces if
      score_unassisted(pos))`. */
  method ExtendWithNumbers(result: seq<string>, pieces: seq<string>) returns (extended: seq<string>)
    ensures extended == result + PieceNumbers(pieces)
  {
    extended := result;
    var j := 0;
    while j < |pieces|
      invariant 0 <= j <= |pieces|
      invariant extended == result + PieceNumbers(pieces[..j])
    {
      var d := ScoreUnassisted(pieces[j]);
      var tail := if d != "" then [d] else [];
      PieceNumbersSnoc(pieces, j);
      assert PieceNumbers(pieces[..j + 1]) == PieceNumbers(pieces[..j]) + tail;
      extended := extended + tail;
      assert extended == result + (PieceNumbers(pieces[..j]) + tail);
      j := j + 1;
    }
    assert pieces[..|pieces|] == pieces;
  }

  /** `score_groundout`: the loop over tokens that extends `result`. */
  method ScoreGroundout(desc: string) returns (chain: string)
    ensures chain == GroundoutChain(desc)
  {
    if desc == "" {
      return "";
    }
    var result: seq<string> := [];
    var words := SplitWs(desc);
    var i := 0;
    while i < |words|
      invariant 0 <= i <= |words|
      invariant result == ChainNumbers(words[..i])
    {
      var word := words[i];
      assert words[..i + 1][..i] == words[..i];
      if Contains(word, "-") {
        result := ExtendWithNumbers(result, SplitOn(word, "-"));
      }
      i := i + 1;
    }
    assert words[..|words|] == words;
    chain := Join(result, "-");
  }

  /** The chain lists the numbers of `ChainNumbers` in order, separated by
      single hyphens. */
  lemma GroundoutChainLayout(desc: string)
    ensures var xs, r := ChainNumbers(SplitWs(desc)), GroundoutChain(desc);
            && (xs == [] <==> r == "")
            && (xs != [] ==> |r| == 2 * |xs| - 1)
            && (forall i :: 0 <= i < |r| ==> r[i] == if i % 2 == 0 then xs[i / 2][0] else '-')
  {
    if desc != "" {
      JoinShape(ChainNumbers(SplitWs(desc)));
    }
  }

  /** Only tokens containing a hyphen contribute numbers. */
  lemma {:induction false} ChainNumbersNeedHyphen(ws: seq<string>)
    ensures ChainNumbers(ws) != [] ==> exists k :: 0 <= k < |ws| && Contains(ws[k], "-")
  {
    if |ws| > 0 {
      var init := ws[..|ws| - 1];
      ChainNumbersNeedHyphen(init);
      if ChainNumbers(init) != [] {
        var k :| 0 <= k < |init| && Contains(init[k], "-");
        assert ws[k] == init[k];
      }
    }
  }

  /** A non-empty chain needs a hyphen somewhere in the description. */
  lemma GroundoutNeedsHyphen(desc: string)
    ensures GroundoutChain(desc) != "" ==> '-' in desc
  {
    if GroundoutChain(desc) != "" {
      var ws := SplitWs(desc);
      ChainNumbersNeedHyphen(ws);
      var k :| 0 <= k < |ws| && Contains(ws[k], "-");
      ContainsChar(ws[k], '-');
      var i :| 0 <= i < |ws[k]| && ws[k][i] == '-';
      SplitWsChars(desc, k, i);
    }
  }

  /** "f" for a foul ball, "" otherwise. */
  function FoulMark(desc: string): string {
    if Contains(desc, "FOUL") then "f" else ""
  }

  /** `to_scorebook(desc)`: the first keyword rule that matches decides. */
  function ToScorebook(desc: string): string {
    if desc == "" then ""
    else
      var foul := Contains(desc, "FOUL");
      if Contains(desc, "WALK") then "BB"
      else if Contains(desc, "HIT BY PITCH") then "HBP"
      else if Contains(desc, "SACRIFICE") then "SAC"
      else if Contains(desc, "SINGLE") then "1B"
      else if Contains(desc, "DOUBLE") then
        (if Contains(desc, "DOUBLE PLAY") then "GDP " + GroundoutChain(desc) else "2B")
      else if Contains(desc, "TRIPLE") then
        (if Contains(desc, "TRIPLE PLAY") then "GTP " + GroundoutChain(desc) else "3B")
      else if Contains(desc, "HOMERS") || Contains(desc, "HOME RUN") then "HR"
      else if Contains(desc, "STRIKEOUT") then (if Contains(desc, "LOOKING") then "K*" else "K")
      else if Contains(desc, "GROUNDOUT") then
        (if Contains(desc, "UNASSISTED") then ScoreUnassisted(desc) else GroundoutChain(desc))
      else if Contains(desc, "LINEOUT") then
        var v := "L" + ScoreUnassisted(desc); if foul then v + "f" else v
      else if Contains(desc, "POPFLY") then
        var v := "P" + ScoreUnassisted(desc); if foul then v + "f" else v
      else if Contains(desc, "FLYBALL") then
        var v := "F" + ScoreUnassisted(desc); if foul then v + "f" else v
      else ""
  }

  // ---------------------------------------------------------------------
  // The decision order: the trigger keywords in the order `to_scorebook`
  // tests them.  Each lemma below states what one rule yields when no
  // earlier keyword occurs, so together they say that the first match wins.

  /** None of the first `k` trigger keywords occurs in the description.
      The keywords are tested in this order: WALK, HIT BY PITCH,
      SACRIFICE, SINGLE, DOUBLE, TRIPLE, HOMERS, HOME RUN, STRIKEOUT,
      GROUNDOUT, LINEOUT, POPFLY, FLYBALL. */
  predicate NoEarlierKeyword(desc: string, k: nat)
  {
    && (k > 0 ==> !Contains(desc, "WALK"))
    && (k > 1 ==> !Contains(desc, "HIT BY PITCH"))
    && (k > 2 ==> !Contains(desc, "SACRIFICE"))
    && (k > 3 ==> !Contains(desc, "SINGLE"))
    && (k > 4 ==> !Contains(desc, "DOUBLE"))
    && (k > 5 ==> !Contains(desc, "TRIPLE"))
    && (k > 6 ==> !Contains(desc, "HOMERS"))
    && (k > 7 ==> !Contains(desc, "HOME RUN"))
    && (k > 8 ==> !Contains(desc, "STRIKEOUT"))
    && (k > 9 ==> !Contains(desc, "GROUNDOUT"))
    && (k > 10 ==> !Contains(desc, "LINEOUT"))
    && (k > 11 ==> !Contains(desc, "POPFLY"))
    && (k > 12 ==> !Contains(desc, "FLYBALL"))
  }

  /** The empty description is never classified. */
  lemma EmptyIsUnclassified()
    ensures ToScorebook("") == ""
  {
  }

  /** A keyword that extends `word` is found only where `word` is. */
  lemma ContainsPrefixOf(s: string, word: string, rest: string)
    requires Contains(s, word + rest)
    ensures Contains(s, word)
  {
    var k := IndexOf(s, word + rest);
    assert s[k..k + |word|] == (word + rest)[..|word|] == word;
    assert StartsWith(s[k..], word);
    ContainsIff(s, word);
  }

  /** Rules 1-4 give a fixed code: "BB", "HBP", "SAC", "1B". */
  lemma FixedCodeRules(desc: string)
    requires desc != ""
    ensures Contains(desc, "WALK") ==> ToScorebook(desc) == "BB"
    ensures NoEarlierKeyword(desc, 1) && Contains(desc, "HIT BY PITCH") ==> ToScorebook(desc) == "HBP"
    ensures NoEarlierKeyword(desc, 2) && Contains(desc, "SACRIFICE") ==> ToScorebook(desc) == "SAC"
    ensures NoEarlierKeyword(desc, 3) && Contains(desc, "SINGLE") ==> ToScorebook(desc) == "1B"
  {
  }

  /** Rule 5: "DOUBLE PLAY" gives "GDP " and the assist chain, and
      "DOUBLE" without "PLAY" after it gives "2B". */
  lemma DoubleRule(desc: string)
    requires desc != "" && NoEarlierKeyword(desc, 4)
    ensures Contains(desc, "DOUBLE PLAY") ==> ToScorebook(desc) == "GDP " + GroundoutChain(desc)
    ensures Contains(desc, "DOUBLE") && !Contains(desc, "DOUBLE PLAY") ==> ToScorebook(desc) == "2B"
  {
    if Contains(desc, "DOUBLE PLAY") {
      assert "DOUBLE" + " PLAY" == "DOUBLE PLAY";
      ContainsPrefixOf(desc, "DOUBLE", " PLAY");
    }
  }

  /** Rule 6, the triple-play twin of rule 5. */
  lemma TripleRule(desc: string)
    requires desc != "" && NoEarlierKeyword(desc, 5)
    ensures Contains(desc, "TRIPLE PLAY") ==> ToScorebook(desc) == "GTP " + GroundoutChain(desc)
    ensures Contains(desc, "TRIPLE") && !Contains(desc, "TRIPLE PLAY") ==> ToScorebook(desc) == "3B"
  {
    if Contains(desc, "TRIPLE PLAY") {
      assert "TRIPLE" + " PLAY" == "TRIPLE PLAY";
      ContainsPrefixOf(desc, "TRIPLE", " PLAY");
    }
  }

  /** Rule 7: a home run under either spelling. */
  lemma HomeRunRule(desc: string)
    requires desc != "" && NoEarlierKeyword(desc, 6)
    requires Contains(desc, "HOMERS") || Contains(desc, "HOME RUN")
    ensures ToScorebook(desc) == "HR"
  {
  }

  /** Rule 8: a strikeout is "K*" exactly when it was looking, else "K". */
  lemma StrikeoutRule(desc: string)
    requires desc != "" && NoEarlierKeyword(desc, 8) && Contains(desc, "STRIKEOUT")
    ensures ToScorebook(desc) == "K*" <==> Contains(desc, "LOOKING")
    ensures ToScorebook(desc) == "K" <==> !Contains(desc, "LOOKING")
  {
  }

  /** Rule 9: an unassisted groundout is the fielder's number, any other
      groundout the assist chain. */
  lemma GroundoutRule(desc: string)
    requires desc != "" && NoEarlierKeyword(desc, 9) && Contains(desc, "GROUNDOUT")
    ensures ToScorebook(desc) ==
            if Contains(desc, "UNASSISTED") then ScoreUnassisted(desc) else GroundoutChain(desc)
  {
  }

  /** The letter rules 10-12 put in front of the fielder's number. */
  function FieldedLetter(k: nat): (c: string)
    requires 10 <= k < 13
    ensures |c| == 1 && c[0] != 'f'
  {
    if k == 10 then "L" else if k == 11 then "P" else "F"
  }

  /** The keywords of rules 10-12. */
  function FieldedKeyword(k: nat): string
    requires 10 <= k < 13
  {
    if k == 10 then "LINEOUT" else if k == 11 then "POPFLY" else "FLYBALL"
  }

  /** Rules 10-12 (LINEOUT, POPFLY, FLYBALL): the letter, the fielder's
      number, and a trailing "f" exactly when the ball was foul. */
  lemma FieldedRule(desc: string, k: nat)
    requires 10 <= k < 13 && desc != "" && NoEarlierKeyword(desc, k) && Contains(desc, FieldedKeyword(k))
    ensures ToScorebook(desc) == FieldedLetter(k) + ScoreUnassisted(desc) + FoulMark(desc)
    ensures var r := ToScorebook(desc); r[|r| - 1] == 'f' <==> Contains(desc, "FOUL")
  {
    var d := ScoreUnassisted(desc);
    assert d == "" || IsPositionNumber(d);
    var v := FieldedLetter(k) + d;
    assert v[|v| - 1] != 'f';
    if k == 10 {
      assert ToScorebook(desc) == v + FoulMark(desc);
    } else if k == 11 {
      assert ToScorebook(desc) == v + FoulMark(desc);
    } else {
      assert ToScorebook(desc) == v + FoulMark(desc);
    }
  }

  /** Rule 13: a description with none of the keywords yields "". */
  lemma UnclassifiedIsEmpty(desc: string)
    requires NoEarlierKeyword(desc, 13)
    ensures ToScorebook(desc) == ""
  {
  }
}
