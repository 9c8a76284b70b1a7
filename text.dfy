/** The Python `str` operations the scorebook script relies on, restricted
    to ASCII: substring tests, `find`, `split`, `split(sep)`, `count`,
    `join`, `upper`, digit filtering and repetition. */
module Text {
  import opened Common

  /** `str.isspace` on the ASCII range: space, \t \n \v \f \r and the
      four separator controls 0x1C..0x1F. */
  predicate IsSpace(c: char) {
    var n := c as int;
    n == 32 || 9 <= n <= 13 || 28 <= n <= 31
  }

  predicate IsDigit(c: char) {
    '0' <= c <= '9'
  }

  /** `str.isupper` on one ASCII character. */
  predicate IsUpper(c: char) {
    'A' <= c <= 'Z'
  }

  function UpperChar(c: char): (u: char)
    ensures IsUpper(u) <==> IsUpper(c) || 'a' <= c <= 'z'
  {
    if 'a' <= c <= 'z' then (c as int - 32) as char else c
  }

  /** `s.upper()` on ASCII text. */
  function Upper(s: string): (u: string)
    ensures |u| == |s|
    ensures forall i :: 0 <= i < |s| ==> u[i] == UpperChar(s[i])
  {
    seq(|s|, i requires 0 <= i < |s| => UpperChar(s[i]))
  }

  predicate StartsWith(s: string, p: string) {
    |p| <= |s| && s[..|p|] == p
  }

  /** `s.find(sub)`: the first index at which `sub` occurs in `s`, or -1. */
  function IndexOf(s: string, sub: string): (r: int)
    ensures -1 <= r
    ensures r >= 0 ==> r + |sub| <= |s| && s[r..r + |sub|] == sub
    decreases |s|
  {
    if StartsWith(s, sub) then 0
    else if |s| == 0 then -1
    else
      var k := IndexOf(s[1..], sub);
      if k < 0 then -1 else k + 1
  }

  /** `find` returns the FIRST occurrence, and -1 only when there is none. */
  lemma {:induction false} IndexOfFirst(s: string, sub: string)
    ensures IndexOf(s, sub) >= 0 ==>
              forall j :: 0 <= j < IndexOf(s, sub) ==> !StartsWith(s[j..], sub)
    ensures IndexOf(s, sub) < 0 ==> forall j :: 0 <= j <= |s| ==> !StartsWith(s[j..], sub)
    decreases |s|
  {
    if !StartsWith(s, sub) && |s| > 0 {
      IndexOfFirst(s[1..], sub);
      assert forall j :: 1 <= j <= |s| ==> s[1..][j - 1..] == s[j..];
    }
  }

  /** `sub in s`. */
  predicate Contains(s: string, sub: string) {
    IndexOf(s, sub) >= 0
  }

  /** `sub in s` holds exactly when `sub` occurs at some position of `s`. */
  lemma ContainsIff(s: string, sub: string)
    ensures Contains(s, sub) <==> exists j :: 0 <= j <= |s| && StartsWith(s[j..], sub)
  {
    IndexOfFirst(s, sub);
    if Contains(s, sub) {
      var r := IndexOf(s, sub);
      assert s[r..][..|sub|] == s[r..r + |sub|];
      assert StartsWith(s[r..], sub);
    }
  }

  /** A string contains the one-character string `[c]` exactly when `c` is
      one of its characters. */
  lemma ContainsChar(s: string, c: char)
    ensures Contains(s, [c]) <==> c in s
  {
    ContainsIff(s, [c]);
    if c in s {
      var j :| 0 <= j < |s| && s[j] == c;
      assert StartsWith(s[j..], [c]);
    }
    if Contains(s, [c]) {
      var r := IndexOf(s, [c]);
      assert s[r..r + 1] == [c];
      assert s[r] == c;
    }
  }

  /** `s.split(sep)`: the pieces between successive non-overlapping
      occurrences of `sep`, scanned from the left. */
  function SplitOn(s: string, sep: string): (r: seq<string>)
    requires |sep| > 0
    ensures |r| >= 1
    decreases |s|
  {
    var k := IndexOf(s, sep);
    if k < 0 then [s] else [s[..k]] + SplitOn(s[k + |sep|..], sep)
  }

  /** `s.count(sub)`: the number of non-overlapping occurrences of `sub`. */
  function Count(s: string, sub: string): nat
    requires |sub| > 0
    decreases |s|
  {
    var k := IndexOf(s, sub);
    if k < 0 then 0 else 1 + Count(s[k + |sub|..], sub)
  }

  /** `split(sep)` and `count(sep)` scan alike: one more piece than
      occurrences. */
  lemma {:induction false} SplitCount(s: string, sep: string)
    requires |sep| > 0
    ensures |SplitOn(s, sep)| == Count(s, sep) + 1
    decreases |s|
  {
    var k := IndexOf(s, sep);
    if k >= 0 {
      SplitCount(s[k + |sep|..], sep);
    }
  }

  /** The first piece of `s.split(sep)` is the text before the first `sep`. */
  lemma SplitHead(s: string, sep: string)
    requires |sep| > 0
    ensures !Contains(s, sep) ==> SplitOn(s, sep) == [s]
    ensures Contains(s, sep) ==> SplitOn(s, sep)[0] == s[..IndexOf(s, sep)]
    ensures Contains(s, sep) ==> |SplitOn(s, sep)| >= 2
  {
  }

  /** The length of the run of non-space characters that starts `s`. */
  function NonSpaceRun(s: string): (n: nat)
    ensures n <= |s|
    ensures forall i :: 0 <= i < n ==> !IsSpace(s[i])
    ensures n < |s| ==> IsSpace(s[n])
  {
    if |s| == 0 || IsSpace(s[0]) then 0 else 1 + NonSpaceRun(s[1..])
  }

  /** `s.split()`: the maximal runs of non-space characters, in order. */
  function SplitWs(s: string): (r: seq<string>)
    ensures forall k :: 0 <= k < |r| ==> |r[k]| > 0
    ensures forall k, i :: 0 <= k < |r| && 0 <= i < |r[k]| ==> !IsSpace(r[k][i])
    decreases |s|
  {
    if |s| == 0 then []
    else if IsSpace(s[0]) then SplitWs(s[1..])
    else
      var n := NonSpaceRun(s);
      [s[..n]] + SplitWs(s[n..])
  }

  /** A non-empty run of non-space characters: what `split()` yields. */
  predicate IsWord(w: string) {
    |w| > 0 && forall i :: 0 <= i < |w| ==> !IsSpace(w[i])
  }

  /** A word followed by a blank splits off as the first token. */
  lemma SplitWsWordThenSpace(w: string, rest: string)
    requires IsWord(w)
    ensures SplitWs(w + " " + rest) == [w] + SplitWs(rest)
  {
    var s := w + " " + rest;
    assert s[0] == w[0];
    var n := NonSpaceRun(s);
    assert s[|w|] == ' ';
    assert n == |w|;
    assert s[..n] == w;
    assert s[n..] == " " + rest;
    assert (" " + rest)[1..] == rest;
  }

  /** `' '.join` and `split()` are inverse on words: splitting the
      blank-joined words gives them back. */
  lemma {:induction false} SplitJoin(ws: seq<string>)
    requires forall k :: 0 <= k < |ws| ==> IsWord(ws[k])
    ensures SplitWs(Join(ws, " ")) == ws
  {
    if |ws| == 1 {
      SplitWsToken(ws[0]);
    } else if |ws| > 1 {
      SplitJoin(ws[1..]);
      SplitWsWordThenSpace(ws[0], Join(ws[1..], " "));
      assert [ws[0]] + ws[1..] == ws;
    }
  }

  /** Every character of a token is a character of the split string. */
  lemma {:induction false} SplitWsChars(s: string, k: nat, i: nat)
    requires k < |SplitWs(s)| && i < |SplitWs(s)[k]|
    ensures SplitWs(s)[k][i] in s
    decreases |s|
  {
    if IsSpace(s[0]) {
      SplitWsChars(s[1..], k, i);
      assert forall c :: c in s[1..] ==> c in s;
    } else {
      var n := NonSpaceRun(s);
      if k == 0 {
        assert SplitWs(s)[0] == s[..n];
        assert s[..n][i] == s[i];
      } else {
        assert SplitWs(s)[k] == SplitWs(s[n..])[k - 1];
        SplitWsChars(s[n..], k - 1, i);
        assert forall c :: c in s[n..] ==> c in s;
      }
    }
  }

  /** A string holding no space splits into itself alone, or into nothing
      when it is empty. */
  lemma {:induction false} SplitWsToken(s: string)
    requires forall i :: 0 <= i < |s| ==> !IsSpace(s[i])
    ensures SplitWs(s) == if s == "" then [] else [s]
  {
    if s != "" {
      assert !IsSpace(s[0]);
      var n := NonSpaceRun(s);
      assert n == |s|;
      assert s[..n] == s;
      assert s[n..] == "";
    }
  }

  /** `sep.join(xs)`. */
  function Join(xs: seq<string>, sep: string): string {
    if |xs| == 0 then ""
    else if |xs| == 1 then xs[0]
    else xs[0] + sep + Join(xs[1..], sep)
  }

  /** `s * n`. */
  function Repeat(s: string, n: nat): string {
    if n == 0 then "" else s + Repeat(s, n - 1)
  }

  /** One more copy at the end is one more copy. */
  lemma {:induction false} RepeatSnoc(s: string, n: nat)
    ensures Repeat(s, n) + s == Repeat(s, n + 1)
  {
    if n > 0 {
      RepeatSnoc(s, n - 1);
      assert s + Repeat(s, n - 1) + s == s + (Repeat(s, n - 1) + s);
    }
  }

  /** `''.join(filter(str.isdigit, s))`. */
  function Digits(s: string): (r: string)
    ensures |r| <= |s|
    ensures forall i :: 0 <= i < |r| ==> IsDigit(r[i])
    ensures r == "" <==> forall i :: 0 <= i < |s| ==> !IsDigit(s[i])
  {
    if |s| == 0 then ""
    else if IsDigit(s[0]) then [s[0]] + Digits(s[1..])
    else Digits(s[1..])
  }

  /** `s.split()[-1]`: the last token, or `None` where Python's index
      would raise IndexError. */
  function LastToken(s: string): (r: Option<string>)
    ensures r.None? <==> SplitWs(s) == []
    ensures r.Some? ==> r.value == SplitWs(s)[|SplitWs(s)| - 1]
  {
    var ws := SplitWs(s);
    if |ws| == 0 then None else Some(ws[|ws| - 1])
  }
}
