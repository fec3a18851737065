/** Python's `splitlines(keepends=True)`. */
module TextLines {
  import opened Records

  /** The characters that end a line. */
  predicate IsBreak(c: char) {
    var n := c as int;
    0x0A <= n <= 0x0D || 0x1C <= n <= 0x1E || n == 0x85 || n == 0x2028 || n == 0x2029
  }

  /** The length of the first line with its end; a carriage return and a line feed end it together. */
  function FirstLength(s: string): (n: nat)
    requires s != ""
    ensures 0 < n <= |s|
  {
    if s[0] == '\r' && |s| > 1 && s[1] == '\n' then 2
    else if IsBreak(s[0]) || |s| == 1 then 1
    else 1 + FirstLength(s[1..])
  }

  function SplitKeep(s: string): seq<string> {
    if s == "" then []
    else var n := FirstLength(s); [s[..n]] + SplitKeep(s[n..])
  }

  predicate EndsLine(s: string) {
    s == "" || IsBreak(s[|s| - 1])
  }

  /** A line end falls between `a` and `b`: it does not if a carriage return meets its line feed. */
  predicate BreakBetween(a: string, b: string) {
    EndsLine(a) && !(a != "" && b != "" && a[|a| - 1] == '\r' && b[0] == '\n')
  }

  /** Position `n` of the text is a line end, or the end of the text. */
  predicate IsLineEnd(text: string, n: nat) {
    n == |text| || (n < |text| && BreakBetween(text[..n], text[n..]))
  }

  lemma {:induction false} FirstLengthShape(s: string)
    requires s != "" && FirstLength(s) < |s|
    ensures BreakBetween(s[..FirstLength(s)], s[FirstLength(s)..])
  {
    if !(s[0] == '\r' && |s| > 1 && s[1] == '\n') && !IsBreak(s[0]) && |s| > 1 {
      FirstLengthShape(s[1..]);
      var n := FirstLength(s[1..]);
      assert s[..n + 1][n] == s[1..][..n][n - 1] && s[n + 1..] == s[1..][n..];
    }
  }

  lemma {:induction false} FirstLengthLocal(a: string, b: string)
    requires a != "" && BreakBetween(a, b)
    ensures FirstLength(a + b) == FirstLength(a)
  {
    var s := a + b;
    assert s[0] == a[0] && (|a| > 1 ==> s[1] == a[1]);
    if !(a[0] == '\r' && |a| > 1 && a[1] == '\n') && !IsBreak(a[0]) && |a| > 1 {
      assert s[1..] == a[1..] + b;
      FirstLengthLocal(a[1..], b);
    }
  }

  lemma InFront(a: string, b: string, n: nat)
    requires n <= |a|
    ensures (a + b)[..n] == a[..n] && (a + b)[n..] == a[n..] + b
  {
  }

  lemma SplitFirst(s: string, n: nat, l: string, rest: string)
    requires s != "" && n == FirstLength(s) && l == s[..n] && rest == s[n..]
    ensures SplitKeep(s) == [l] + SplitKeep(rest)
  {
  }

  lemma ConsConcat(all: seq<string>, front: seq<string>, l: string, rest: seq<string>, behind: seq<string>)
    requires all == [l] + (rest + behind) && front == [l] + rest
    ensures all == front + behind
  {
  }

  lemma {:induction false} SplitConcat(a: string, b: string)
    requires BreakBetween(a, b)
    ensures SplitKeep(a + b) == SplitKeep(a) + SplitKeep(b)
  {
    if a == "" {
      assert a + b == b;
    } else {
      var n := FirstLength(a);
      FirstLengthLocal(a, b);
      InFront(a, b, n);
      SplitFirst(a, n, a[..n], a[n..]);
      SplitFirst(a + b, n, a[..n], a[n..] + b);
      SplitConcat(a[n..], b);
      ConsConcat(SplitKeep(a + b), SplitKeep(a), a[..n], SplitKeep(a[n..]), SplitKeep(b));
    }
  }

  /** Where the first `k` lines end. */
  function LinesEnd(text: string, k: nat): (n: nat)
    requires k <= |SplitKeep(text)|
    ensures n <= |text|
  {
    if k == 0 then 0 else FirstLength(text) + LinesEnd(text[FirstLength(text)..], k - 1)
  }

  lemma BreakBehind(l: string, a: string, b: string)
    requires BreakBetween(l, a + b) && BreakBetween(a, b)
    ensures BreakBetween(l + a, b) && BreakBetween(l, a)
  {
    if a != "" {
      assert (l + a)[|l + a| - 1] == a[|a| - 1] && (a + b)[0] == a[0];
    } else {
      assert l + a == l && a + b == b;
    }
  }

  lemma BreakEarlier(l: string, rest: string, m: nat)
    requires BreakBetween(l, rest) && m <= |rest| && BreakBetween(rest[..m], rest[m..])
    ensures (l + rest)[..|l| + m] == l + rest[..m] && BreakBetween((l + rest)[..|l| + m], (l + rest)[|l| + m..])
    ensures BreakBetween(l, rest[..m])
  {
    assert rest == rest[..m] + rest[m..];
    BreakBehind(l, rest[..m], rest[m..]);
    assert (l + rest)[|l| + m..] == rest[m..];
  }

  /** The first line, split off. */
  lemma FirstLineAlone(text: string)
    requires text != ""
    ensures var l := text[..FirstLength(text)]; FirstLength(l) == |l|
  {
    var n := FirstLength(text);
    var l := text[..n];
    if n < |text| {
      FirstLengthShape(text);
      FirstLengthLocal(l, text[n..]);
      assert l + text[n..] == text;
    } else {
      assert l == text;
    }
  }

  lemma SplitCons(l: string, t: string)
    requires l != "" && FirstLength(l) == |l| && (t != "" ==> BreakBetween(l, t))
    ensures SplitKeep(l + t) == [l] + SplitKeep(t)
  {
    assert l[..|l|] == l && l[|l|..] == "";
    assert SplitKeep(l) == [l];
    if t == "" {
      assert l + t == l;
    } else {
      SplitConcat(l, t);
    }
  }

  /** A text is its first line and the rest. */
  lemma PeelLine(text: string) returns (l: string, rest: string)
    requires text != ""
    ensures text == l + rest && |l| == FirstLength(text) && rest == text[|l|..]
    ensures l != "" && FirstLength(l) == |l| && (rest != "" ==> BreakBetween(l, rest))
  {
    l, rest := text[..FirstLength(text)], text[FirstLength(text)..];
    FirstLineAlone(text);
    if rest != "" {
      FirstLengthShape(text);
    }
  }

  lemma BreakInFront(l: string, rest: string, m: nat)
    requires m <= |rest| && (rest != "" ==> BreakBetween(l, rest))
    ensures rest[..m] != "" ==> BreakBetween(l, rest[..m])
  {
  }

  lemma CutJoined(text: string, l: string, rest: string, m: nat)
    requires text == l + rest && m <= |rest|
    ensures text[..|l| + m] == l + rest[..m]
  {
  }

  lemma TakeOneMore(all: seq<string>, taken: seq<string>, l: string, rest: seq<string>, part: seq<string>, k: nat)
    requires all == [l] + rest && taken == [l] + part && 0 < k <= |all| && part == rest[..k - 1]
    ensures taken == all[..k]
  {
  }

  lemma SplitText(text: string, l: string, rest: string)
    requires text == l + rest && l != "" && FirstLength(l) == |l| && (rest != "" ==> BreakBetween(l, rest))
    ensures SplitKeep(text) == [l] + SplitKeep(rest)
  {
    SplitCons(l, rest);
  }

  lemma LineEndBehind(text: string, l: string, rest: string, m: nat, n: nat)
    requires text == l + rest && n == |l| + m && IsLineEnd(rest, m) && (rest != "" ==> BreakBetween(l, rest))
    ensures IsLineEnd(text, n)
  {
    if m < |rest| {
      BreakEarlier(l, rest, m);
    }
  }

  lemma StartIsLineEnd(text: string)
    ensures IsLineEnd(text, 0)
  {
    assert text[..0] == "";
  }

  lemma EndBehind(text: string, l: string, rest: string, k: nat)
    requires text == l + rest && text != "" && |l| == FirstLength(text) && rest == text[|l|..]
    requires 0 < k <= |SplitKeep(text)|
    ensures k - 1 <= |SplitKeep(rest)| && LinesEnd(text, k) == |l| + LinesEnd(rest, k - 1)
  {
  }

  lemma {:induction false} LinesEndIsLineEnd(text: string, k: nat)
    requires k <= |SplitKeep(text)|
    ensures IsLineEnd(text, LinesEnd(text, k))
  {
    if k > 0 {
      var l, rest := PeelLine(text);
      EndBehind(text, l, rest, k);
      LinesEndIsLineEnd(rest, k - 1);
      LineEndBehind(text, l, rest, LinesEnd(rest, k - 1), LinesEnd(text, k));
    } else {
      StartIsLineEnd(text);
    }
  }

  lemma CutNothing(text: string)
    ensures SplitKeep(text[..0]) == SplitKeep(text)[..0]
  {
    assert text[..0] == "" && SplitKeep("") == [];
  }

  /** Cutting the text behind its first `k` lines leaves its first line, and what the cut leaves of the
      rest. */
  lemma CutBehindFirst(text: string, k: nat) returns (l: string, rest: string)
    requires 0 < k <= |SplitKeep(text)|
    ensures |rest| < |text| && k - 1 <= |SplitKeep(rest)| && SplitKeep(text) == [l] + SplitKeep(rest)
    ensures SplitKeep(text[..LinesEnd(text, k)]) == [l] + SplitKeep(rest[..LinesEnd(rest, k - 1)])
  {
    l, rest := PeelLine(text);
    EndBehind(text, l, rest, k);
    var m := LinesEnd(rest, k - 1);
    BreakInFront(l, rest, m);
    CutJoined(text, l, rest, m);
    SplitText(text, l, rest);
    SplitText(text[..LinesEnd(text, k)], l, rest[..m]);
  }

  /** Cutting the text behind its first `k` lines leaves exactly these lines. */
  lemma {:induction false} CutLines(text: string, k: nat)
    requires k <= |SplitKeep(text)|
    ensures SplitKeep(text[..LinesEnd(text, k)]) == SplitKeep(text)[..k]
    decreases |text|
  {
    if k > 0 {
      var l, rest := CutBehindFirst(text, k);
      CutLines(rest, k - 1);
      TakeOneMore(SplitKeep(text), SplitKeep(text[..LinesEnd(text, k)]), l, SplitKeep(rest),
                  SplitKeep(rest[..LinesEnd(rest, k - 1)]), k);
    } else {
      CutNothing(text);
    }
  }

  /** The lines end where the text ends, and no sooner. */
  lemma {:induction false} AllLinesEnd(text: string, k: nat)
    requires k <= |SplitKeep(text)|
    ensures LinesEnd(text, k) == |text| <==> k == |SplitKeep(text)|
  {
    if text != "" && k > 0 {
      var l, rest := PeelLine(text);
      AllLinesEnd(rest, k - 1);
    }
  }

  /** Does the text hold no line end? */
  predicate OnOneLine(s: string) {
    forall i | 0 <= i < |s| :: !IsBreak(s[i])
  }

  lemma {:induction false} LineWithEnd(line: string)
    requires OnOneLine(line)
    ensures FirstLength(line + "\n") == |line| + 1
  {
    if line == "" {
      assert line + "\n" == "\n" && IsBreak('\n');
    } else {
      assert (line + "\n")[1..] == line[1..] + "\n" && (line + "\n")[0] == line[0];
      assert IsBreak('\r');
      LineWithEnd(line[1..]);
    }
  }

  /** The lines of a text, each with its line feed. */
  function Ended(lines: seq<string>): (ended: seq<string>)
    ensures |ended| == |lines|
  {
    if lines == [] then [] else [lines[0] + "\n"] + Ended(lines[1..])
  }

  predicate AllOnOneLine(lines: seq<string>) {
    lines != [] ==> OnOneLine(lines[0]) && AllOnOneLine(lines[1..])
  }

  lemma {:induction false} SplitOfEnded(lines: seq<string>)
    requires AllOnOneLine(lines)
    ensures SplitKeep(Flatten(Ended(lines))) == Ended(lines)
  {
    if lines != [] {
      var l, rest := lines[0] + "\n", Flatten(Ended(lines[1..]));
      LineWithEnd(lines[0]);
      SplitOfEnded(lines[1..]);
      assert Ended(lines)[1..] == Ended(lines[1..]);
      SplitCons(l, rest);
    }
  }

  lemma {:induction false} EndedConcat(a: seq<string>, b: seq<string>)
    ensures Ended(a + b) == Ended(a) + Ended(b)
  {
    if a == [] {
      assert a + b == b;
    } else {
      assert (a + b)[1..] == a[1..] + b;
      EndedConcat(a[1..], b);
    }
  }

  lemma {:induction false} OneLineConcat(a: seq<string>, b: seq<string>)
    requires AllOnOneLine(a) && AllOnOneLine(b)
    ensures AllOnOneLine(a + b)
  {
    if a == [] {
      assert a + b == b;
    } else {
      assert (a + b)[1..] == a[1..] + b;
      OneLineConcat(a[1..], b);
    }
  }

  // ---------------------------------------------------------------------------------------------
  // The shape of a line

  /** The line ends of Python's `splitlines`. */
  lemma BreaksAre(c: char)
    ensures IsBreak(c)
            <==> c in {'\n', '\U{0B}', '\U{0C}', '\r', '\U{1C}', '\U{1D}', '\U{1E}', '\U{85}', '\U{2028}', '\U{2029}'}
  {
  }

  /** A line holds no line end in front of its own end: one character, or a carriage return and a line
      feed. */
  predicate IsLine(s: string) {
    && s != "" && (forall i | 0 <= i < |s| - 2 :: !IsBreak(s[i]))
    && (|s| >= 2 && IsBreak(s[|s| - 2]) ==> s[|s| - 2] == '\r' && s[|s| - 1] == '\n')
  }

  lemma LineCons(line: string, tail: string)
    requires line != "" && !IsBreak(line[0]) && tail == line[1..] && IsLine(tail)
    ensures IsLine(line)
  {
    assert forall i | 1 <= i < |line| :: line[i] == tail[i - 1];
  }

  lemma {:induction false} FirstIsLine(s: string)
    requires s != ""
    ensures IsLine(s[..FirstLength(s)])
  {
    var n := FirstLength(s);
    if n > 1 && !(s[0] == '\r' && s[1] == '\n') {
      FirstIsLine(s[1..]);
      assert s[1..][..n - 1] == s[..n][1..];
      LineCons(s[..n], s[..n][1..]);
    }
  }

  /** Each line of a text is one, and only the last one may lack its end. */
  lemma {:induction false} LinesAre(text: string, i: nat)
    requires i < |SplitKeep(text)|
    ensures IsLine(SplitKeep(text)[i])
    ensures i + 1 < |SplitKeep(text)| ==> EndsLine(SplitKeep(text)[i])
  {
    var n := FirstLength(text);
    if i == 0 {
      FirstIsLine(text);
      if n < |text| {
        FirstLengthShape(text);
      }
    } else {
      LinesAre(text[n..], i - 1);
    }
  }
}
