/** Which lines of a patch are marks, headers and operations, and what the operations say, character by
    character. */
module HashlineLines {
  import opened Wrappers
  import opened Text
  import opened Hashline
  import R = HashlineRoundTrip

  // ---------------------------------------------------------------------------------------------
  // Shapes of lines

  /** A sign, and a text with white space around it. */
  predicate Signed(raw: string, sign: char, l: string, body: string, r: string) {
    raw == [sign] + (l + body + r) && IsBlank(l) && IsBlank(r)
  }

  /** `k` section signs, and a text with white space around it that does not go on with another one. */
  predicate SectionText(raw: string, k: nat, l: string, target: string, r: string) {
    && 1 <= k <= |raw| && (forall i | 0 <= i < k :: raw[i] == '\U{00A7}')
    && raw[k..] == l + target + r && IsBlank(l) && IsBlank(r) && (k < |raw| ==> raw[k] != '\U{00A7}')
  }

  lemma {:induction false} DropSectionsMore(line: string, e: string)
    requires IsBlank(e)
    ensures DropSections(line + e) == DropSections(line) + e
  {
    if line == "" {
      assert line + e == e;
      assert e != "" ==> e[0] in e;
    } else {
      assert (line + e)[1..] == line[1..] + e;
      if line[0] == SECTION {
        DropSectionsMore(line[1..], e);
      }
    }
  }

  lemma {:induction false} DropSectionsShape(raw: string) returns (k: nat)
    ensures k <= |raw| && DropSections(raw) == raw[k..] && (forall i | 0 <= i < k :: raw[i] == '\U{00A7}')
    ensures k < |raw| ==> raw[k] != '\U{00A7}'
  {
    k := 0;
    if raw != "" && raw[0] == SECTION {
      var n := DropSectionsShape(raw[1..]);
      k := n + 1;
      assert raw[1..][n..] == raw[k..];
      assert forall i | 0 < i < k :: raw[i] == raw[1..][i - 1];
    }
  }

  lemma {:induction false} DropSectionsIs(raw: string, k: nat)
    requires k <= |raw| && (forall i | 0 <= i < k :: raw[i] == '\U{00A7}') && (k < |raw| ==> raw[k] != '\U{00A7}')
    ensures DropSections(raw) == raw[k..]
  {
    if k > 0 {
      assert raw[1..][k - 1..] == raw[k..];
      DropSectionsIs(raw[1..], k - 1);
    }
  }

  // ---------------------------------------------------------------------------------------------
  // Numbers

  lemma {:induction false} DigitRunIs(s: string)
    ensures forall i | 0 <= i < DigitRun(s) :: '0' <= s[i] <= '9'
    ensures DigitRun(s) < |s| ==> !('0' <= s[DigitRun(s)] <= '9')
  {
    if s != "" && IsDigit(s[0]) {
      DigitRunIs(s[1..]);
      assert forall i | 0 < i < DigitRun(s) :: s[i] == s[1..][i - 1];
    }
  }

  /** Digits without leading zero are the number that they stand for. */
  lemma {:induction false} DecimalOf(d: string)
    requires d != "" && d[0] != '0' && forall i | 0 <= i < |d| :: '0' <= d[i] <= '9'
    ensures Value(d) >= 1 && R.Decimal(Value(d)) == d
  {
    var n := |d| - 1;
    ValueSnoc(d[..n], d[n]);
    assert d == d[..n] + [d[n]];
    if n == 0 {
      assert d[..0] == "";
      DigitOf(d[0], 0);
    } else {
      DecimalOf(d[..n]);
      DigitOf(d[n], Value(d[..n]));
    }
  }

  lemma ValueSnoc(d: string, c: char)
    requires '0' <= c <= '9'
    ensures Value(d + [c]) == Value(d) * 10 + (c as nat - '0' as nat)
  {
    assert (d + [c])[..|d|] == d;
  }

  /** One more digit. */
  lemma DigitOf(c: char, high: nat)
    requires '0' <= c <= '9'
    ensures var n := high * 10 + (c as nat - '0' as nat);
            R.Decimal(n) == if n < 10 then [c] else R.Decimal(high) + [c]
  {
    var last := c as nat - '0' as nat;
    assert (high * 10 + last) / 10 == high && (high * 10 + last) % 10 == last;
  }

  lemma SameNumber(a: nat, b: nat)
    ensures R.Decimal(a) == R.Decimal(b) ==> a == b
  {
    assert Value(R.Decimal(a)) == a && Value(R.Decimal(b)) == b;
  }

  /** The digits of `n`, perhaps with zeros in front. */
  predicate IsNumber(d: string, n: nat) {
    exists k: nat | k < |d| :: ZerosThen(d, k, n)
  }

  predicate ZerosThen(d: string, k: nat, n: nat) {
    k < |d| && (forall i | 0 <= i < k :: d[i] == '0') && d[k..] == R.Decimal(n)
  }

  predicate AllDigits(d: string) {
    d != "" && forall i | 0 <= i < |d| :: '0' <= d[i] <= '9'
  }

  lemma {:induction false} ValueOfZero(d: string)
    requires AllDigits(d)
    ensures Value("0" + d) == Value(d)
  {
    var n := |d| - 1;
    assert d == d[..n] + [d[n]] && "0" + d == ("0" + d[..n]) + [d[n]];
    ValueSnoc(d[..n], d[n]);
    ValueSnoc("0" + d[..n], d[n]);
    if n == 0 {
      assert d[..0] == "" && "0" + d[..0] == "0" && Value("0") == 0 && Value("") == 0;
    } else {
      ValueOfZero(d[..n]);
    }
  }

  lemma ZerosMore(d: string, k: nat, n: nat)
    requires d != "" && d[0] == '0' && ZerosThen(d[1..], k, n)
    ensures ZerosThen(d, k + 1, n)
  {
    assert d[1..][k..] == d[k + 1..];
    assert forall i | 0 < i < k + 1 :: d[i] == d[1..][i - 1];
  }

  lemma ZeroIs(d: string)
    requires d == "0"
    ensures Value(d) == 0 && ZerosThen(d, 0, 0)
  {
    assert d[0..] == d && d[..0] == "";
  }

  lemma {:induction false} ValueIs(d: string)
    requires AllDigits(d)
    ensures IsNumber(d, Value(d))
  {
    if d[0] != '0' {
      DecimalOf(d);
      assert d[0..] == d;
      assert ZerosThen(d, 0, Value(d));
    } else if |d| == 1 {
      ZeroIs(d);
    } else {
      ValueIs(d[1..]);
      ValueOfZero(d[1..]);
      assert d == "0" + d[1..];
      var k: nat :| k < |d[1..]| && ZerosThen(d[1..], k, Value(d[1..]));
      ZerosMore(d, k, Value(d));
    }
  }

  lemma ZeroOff(d: string, k: nat)
    requires 0 < k < |d| && forall i | 0 <= i < k :: d[i] == '0'
    ensures (forall i | 0 <= i < k - 1 :: d[1..][i] == '0') && d[1..][k - 1..] == d[k..] && d == "0" + d[1..]
  {
  }

  lemma ZerosLess(d: string, k: nat, n: nat)
    requires k > 0 && ZerosThen(d, k, n)
    ensures ZerosThen(d[1..], k - 1, n) && d == "0" + d[1..]
  {
    ZeroOff(d, k);
  }

  lemma ZeroInFront(d: string)
    requires AllDigits(d)
    ensures AllDigits("0" + d)
  {
  }

  lemma DecimalDigits(n: nat)
    ensures AllDigits(R.Decimal(n)) && Value(R.Decimal(n)) == n
  {
    var d := R.Decimal(n);
    assert forall i | 0 <= i < |d| :: d[i] in d;
  }

  lemma {:induction false} ZerosValue(d: string, k: nat, n: nat)
    requires ZerosThen(d, k, n)
    ensures AllDigits(d) && Value(d) == n
  {
    if k == 0 {
      assert d[0..] == d;
      DecimalDigits(n);
    } else {
      var rest := d[1..];
      ZerosLess(d, k, n);
      ZerosValue(rest, k - 1, n);
      ValueOfZero(rest);
      ZeroInFront(rest);
    }
  }

  /** The value of a text of digits is the number that it shows. */
  lemma NumberIff(d: string, n: nat)
    ensures IsNumber(d, n) <==> AllDigits(d) && Value(d) == n
  {
    forall k: nat | k < |d| && ZerosThen(d, k, n) ensures AllDigits(d) && Value(d) == n {
      ZerosValue(d, k, n);
    }
    if AllDigits(d) {
      ValueIs(d);
    }
  }

  // ---------------------------------------------------------------------------------------------
  // Anchors

  predicate AllTags(t: string) {
    t != "" && forall i | 0 <= i < |t| :: 'a' <= t[i] <= 'z' || t[i] == '*'
  }

  /** The number `n`, some letters or asterisks, and something that does not go on with them. */
  predicate IsTagged(s: string, d: string, t: string, rest: string, n: nat) {
    && s == d + (t + rest) && IsNumber(d, n) && AllTags(t)
    && (rest != "" ==> !('a' <= rest[0] <= 'z') && rest[0] != '*')
  }

  lemma {:induction false} TagRunIs(s: string)
    ensures forall i | 0 <= i < TagRun(s) :: 'a' <= s[i] <= 'z' || s[i] == '*'
    ensures TagRun(s) < |s| ==> !('a' <= s[TagRun(s)] <= 'z') && s[TagRun(s)] != '*'
  {
    if s != "" && IsTag(s[0]) {
      TagRunIs(s[1..]);
      assert forall i | 0 < i < TagRun(s) :: s[i] == s[1..][i - 1];
    }
  }

  /** Digits, tags, and something that does not go on with them. */
  predicate Apart(d: string, t: string, rest: string) {
    AllDigits(d) && AllTags(t) && (rest != "" ==> !('a' <= rest[0] <= 'z') && rest[0] != '*')
  }

  lemma ApartIff(s: string, d: string, t: string, rest: string, n: nat)
    ensures IsTagged(s, d, t, rest, n) <==> s == d + (t + rest) && Apart(d, t, rest) && Value(d) == n
  {
    NumberIff(d, n);
  }

  lemma ApartRuns(d: string, t: string, rest: string)
    requires Apart(d, t, rest)
    ensures DigitRun(d + (t + rest)) == |d| && TagRun(t + rest) == |t|
  {
    assert forall c | c in d :: IsDigit(c);
    assert forall c | c in t :: IsTag(c);
    R.DigitRunOf(d, t + rest);
    R.TagRunOf(t, rest);
  }

  lemma ApartRead(d: string, t: string, rest: string)
    requires Apart(d, t, rest)
    ensures TakeAnchor(d + (t + rest)) == Some((Value(d), rest))
  {
    var s := d + (t + rest);
    ApartRuns(d, t, rest);
    assert s[..|d|] == d && s[|d|..] == t + rest && s[|d| + |t|..] == rest;
  }

  lemma TaggedRead(s: string, d: string, t: string, rest: string, n: nat)
    requires IsTagged(s, d, t, rest, n)
    ensures TakeAnchor(s) == Some((n, rest))
  {
    ApartIff(s, d, t, rest, n);
    ApartRead(d, t, rest);
  }

  lemma DigitsOf(s: string)
    ensures var d := s[..DigitRun(s)];
            s == d + s[DigitRun(s)..] && (d != "" ==> AllDigits(d))
  {
    DigitRunIs(s);
  }

  lemma TagsOf(s: string)
    ensures var t, rest := s[..TagRun(s)], s[TagRun(s)..];
            && s == t + rest && (t != "" ==> AllTags(t))
            && (rest != "" ==> !('a' <= rest[0] <= 'z') && rest[0] != '*')
  {
    TagRunIs(s);
  }

  lemma ApartShape(s: string) returns (d: string, t: string, rest: string)
    requires TakeAnchor(s).Some?
    ensures s == d + (t + rest) && Apart(d, t, rest) && TakeAnchor(s) == Some((Value(d), rest))
  {
    var n := DigitRun(s);
    var behind := s[n..];
    var m := TagRun(behind);
    DigitsOf(s);
    TagsOf(behind);
    d, t, rest := s[..n], behind[..m], behind[m..];
    assert behind[m..] == s[n + m..];
  }

  lemma TaggedShape(s: string) returns (d: string, t: string)
    requires TakeAnchor(s).Some?
    ensures IsTagged(s, d, t, TakeAnchor(s).value.1, TakeAnchor(s).value.0)
  {
    var rest;
    d, t, rest := ApartShape(s);
    ApartIff(s, d, t, rest, Value(d));
  }

  /** An anchor and nothing else. */
  ghost predicate IsAnchorFor(s: string, n: nat) {
    exists d: string, t: string :: IsTagged(s, d, t, "", n)
  }

  lemma AnchorLineIff(s: string, n: nat)
    ensures AnchorLine(s) == Some(n) <==> IsAnchorFor(s, n)
  {
    forall d: string, t: string | IsTagged(s, d, t, "", n) ensures AnchorLine(s) == Some(n) {
      TaggedRead(s, d, t, "", n);
    }
    if AnchorLine(s) == Some(n) {
      var d, t := TaggedShape(s);
    }
  }

  /** Two anchors with two dots between them. */
  ghost predicate IsRangeFor(s: string, a: nat, b: nat) {
    exists x: string, y: string :: IsAnchorFor(x, a) && IsAnchorFor(y, b) && s == x + (".." + y)
  }

  lemma TwoRead(s: string, x: string, y: string, a: nat, b: nat)
    requires IsAnchorFor(x, a) && IsAnchorFor(y, b) && s == x + (".." + y)
    ensures TakeAnchor(s) == Some((a, ".." + y)) && AnchorLine(y) == Some(b)
  {
    AnchorLineIff(y, b);
    var d: string, t: string :| IsTagged(x, d, t, "", a);
    assert s == d + (t + (".." + y));
    TaggedRead(s, d, t, ".." + y, a);
  }

  /** The text is about the lines `a` to `b`: those of its two anchors, or that of its only one. */
  ghost predicate IsAbout(s: string, a: nat, b: nat) {
    (IsAnchorFor(s, a) && b == a) || IsRangeFor(s, a, b)
  }

  lemma ReadBoth(s: string, y: string, a: nat, b: nat)
    requires TakeAnchor(s) == Some((a, ".." + y)) && AnchorLine(y) == Some(b)
    ensures ParseRange(s) == RangeInfo(if a <= b then b - a + 1 else 1,
                                       if a == 0 then None else Some((a, if a <= b then b else a)))
  {
    assert (".." + y)[2..] == y && (".." + y)[..2] == "..";
  }

  lemma ParseRangeIs(s: string, a: nat, b: nat)
    requires IsAbout(s, a, b)
    ensures ParseRange(s) == RangeInfo(if a <= b then b - a + 1 else 1,
                                       if a == 0 then None else Some((a, if a <= b then b else a)))
  {
    if IsRangeFor(s, a, b) {
      var x: string, y: string :| IsAnchorFor(x, a) && IsAnchorFor(y, b) && s == x + (".." + y);
      TwoRead(s, x, y, a, b);
      ReadBoth(s, y, a, b);
    } else {
      AnchorLineIff(s, a);
    }
  }

  lemma RangeMade(s: string, d: string, t: string, y: string, a: nat, b: nat)
    requires IsTagged(s, d, t, ".." + y, a) && IsAnchorFor(y, b)
    ensures IsRangeFor(s, a, b)
  {
    var x := d + t;
    assert x == d + (t + "");
    assert IsTagged(x, d, t, "", a);
    assert IsAnchorFor(x, a);
    assert s == x + (".." + y);
  }

  lemma ParseRangeElse(s: string)
    requires forall a: nat, b: nat :: !IsAbout(s, a, b)
    ensures ParseRange(s) == RangeInfo(1, None)
  {
    var first := TakeAnchor(s);
    if first.Some? {
      var a, rest := first.value.0, first.value.1;
      AnchorLineIff(s, a);
      assert !IsAbout(s, a, a);
      var d, t := TaggedShape(s);
      if ".." <= rest && AnchorLine(rest[2..]).Some? {
        var y, b := rest[2..], AnchorLine(rest[2..]).value;
        AnchorLineIff(y, b);
        assert rest == ".." + y;
        RangeMade(s, d, t, y, a, b);
        assert IsAbout(s, a, b);
      }
    }
  }

  // ---------------------------------------------------------------------------------------------
  // The anchors that a range names

  function JoinDots(parts: seq<string>): string {
    if parts == [] then "" else if |parts| == 1 then parts[0] else parts[0] + (".." + JoinDots(parts[1..]))
  }

  /** Two dots are in the text at `i`. */
  predicate DotsAt(s: string, i: nat) { i + 1 < |s| && s[i] == '.' && s[i + 1] == '.' }

  predicate NoDots(s: string) { forall i: nat | i < |s| :: !DotsAt(s, i) }

  /** The parts between two dots, each cut off at the first ones. */
  predicate CutAtDots(parts: seq<string>) {
    && parts != [] && NoDots(if |parts| == 1 then parts[0] else parts[0] + ".")
    && (|parts| > 1 ==> CutAtDots(parts[1..]))
  }

  lemma NoDotsCons(c: char, s: string)
    requires NoDots(s) && !(c == '.' && s != "" && s[0] == '.')
    ensures NoDots([c] + s)
  {
    forall i: nat | i < |[c] + s| ensures !DotsAt([c] + s, i) {
      assert i > 0 ==> !DotsAt(s, i - 1);
    }
  }

  lemma DotsPrefix(s: string)
    ensures ".." <= s <==> DotsAt(s, 0)
  {
    assert ".." <= s ==> s[..2] == "..";
  }

  lemma EmptyFirst(rest: seq<string>)
    requires CutAtDots(rest)
    ensures CutAtDots([""] + rest) && JoinDots([""] + rest) == ".." + JoinDots(rest)
  {
    assert ([""] + rest)[1..] == rest && "" + "." == ".";
    assert "" + (".." + JoinDots(rest)) == ".." + JoinDots(rest);
  }

  /** The parts make up the text. */
  predicate IsSplit(parts: seq<string>, s: string) {
    CutAtDots(parts) && JoinDots(parts) == s
  }

  lemma SplitAtDots(s: string)
    requires ".." <= s && IsSplit(SplitDots(s[2..]), s[2..])
    ensures IsSplit(SplitDots(s), s)
  {
    EmptyFirst(SplitDots(s[2..]));
    assert s == ".." + s[2..];
  }

  lemma SplitAtOther(s: string)
    requires s != "" && !(".." <= s) && IsSplit(SplitDots(s[1..]), s[1..])
    ensures IsSplit(SplitDots(s), s)
  {
    var rest := SplitDots(s[1..]);
    assert s == [s[0]] + s[1..];
    GlueOne(s[0], rest);
    JoinedFirst(s[0], rest);
  }

  lemma {:induction false} SplitDotsIs(s: string)
    ensures IsSplit(SplitDots(s), s)
  {
    if ".." <= s {
      SplitDotsIs(s[2..]);
      SplitAtDots(s);
    } else if s != "" {
      SplitDotsIs(s[1..]);
      SplitAtOther(s);
    }
  }

  lemma GlueLast(c: char, part: string)
    requires NoDots(part) && !DotsAt([c] + part, 0)
    ensures NoDots([c] + part)
  {
    assert part != "" ==> ([c] + part)[1] == part[0];
    NoDotsCons(c, part);
  }

  lemma GlueFirst(c: char, part: string, rest: string)
    requires NoDots(part + ".") && !DotsAt([c] + (part + (".." + rest)), 0)
    ensures NoDots(([c] + part) + ".")
  {
    var dotted := part + ".";
    assert ([c] + (part + (".." + rest)))[1] == dotted[0];
    NoDotsCons(c, dotted);
    assert [c] + dotted == ([c] + part) + ".";
  }

  lemma JoinedFirst(c: char, parts: seq<string>)
    requires parts != []
    ensures JoinDots([[c] + parts[0]] + parts[1..]) == [c] + JoinDots(parts)
  {
    var glued := [[c] + parts[0]] + parts[1..];
    assert glued[1..] == parts[1..];
    if |parts| > 1 {
      assert ([c] + parts[0]) + (".." + JoinDots(parts[1..])) == [c] + (parts[0] + (".." + JoinDots(parts[1..])));
    }
  }

  /** The first part gets one more character in front, which makes no two dots with what follows. */
  lemma GlueOne(c: char, parts: seq<string>)
    requires CutAtDots(parts) && !(".." <= [c] + JoinDots(parts))
    ensures CutAtDots([[c] + parts[0]] + parts[1..])
  {
    assert ([[c] + parts[0]] + parts[1..])[1..] == parts[1..];
    DotsPrefix([c] + JoinDots(parts));
    if |parts| == 1 {
      GlueLast(c, parts[0]);
    } else {
      GlueFirst(c, parts[0], JoinDots(parts[1..]));
    }
  }

  /** The parts that are not empty. */
  function Named(parts: seq<string>): seq<string> {
    if parts == [] then [] else (if parts[0] == "" then [] else [parts[0]]) + Named(parts[1..])
  }

  lemma {:induction false} NamedOf(parts: seq<string>)
    requires HasNoSpace(JoinDots(parts))
    ensures NonEmpty(parts) == Named(parts)
  {
    if parts != [] {
      var rest := JoinDots(parts[1..]);
      assert forall c | c in parts[0] :: c in JoinDots(parts);
      TrimOfSpaceless(parts[0]);
      assert |parts| > 1 ==> forall c | c in rest :: c in ".." + rest && c in JoinDots(parts);
      assert |parts| == 1 ==> rest == "";
      NamedOf(parts[1..]);
    }
  }

  // ---------------------------------------------------------------------------------------------
  // Whole lines

  lemma TrimRightMore(s: string, e: string)
    requires IsBlank(e)
    ensures TrimRight(s + e) == TrimRight(s)
  {
    var r := TrimRightShape(s);
    assert s + e == TrimRight(s) + (r + e);
    assert IsBlank(r + e);
    TrimRightIs(TrimRight(s), r + e);
  }

  lemma SameClass(a: string, b: string)
    requires a != "" && b != "" && a[0] == b[0] && TrimRight(a) == TrimRight(b)
    requires Trim(DropSections(a)) == Trim(DropSections(b)) && Trim(a[1..]) == Trim(b[1..])
    ensures Classify(a) == Classify(b)
  {
  }

  lemma BlankTrimmed(e: string)
    requires IsBlank(e)
    ensures TrimRight(e) == ""
  {
    TrimRightIs("", e);
    assert "" + e == e;
  }

  lemma SpaceIsNoSign(c: char)
    requires IsSpace(c)
    ensures c != SECTION && !IsSign(c)
  {
  }

  lemma SpaceIsPlain(e: string)
    requires IsBlank(e)
    ensures Classify(e) == PlainLine
  {
    BlankTrimmed(e);
    if e != "" {
      assert e[0] in e;
      SpaceIsNoSign(e[0]);
    }
  }

  /** White space at the end of a line does not matter. */
  lemma ClassifyMore(line: string, e: string)
    requires IsBlank(e)
    ensures Classify(line + e) == Classify(line)
  {
    if line == "" {
      assert line + e == e;
      SpaceIsPlain(e);
      SpaceIsPlain("");
    } else {
      TrimRightMore(line, e);
      DropSectionsMore(line, e);
      TrimMore(DropSections(line), e);
      assert (line + e)[1..] == line[1..] + e;
      TrimMore(line[1..], e);
      SameClass(line + e, line);
    }
  }

  lemma EventIs(raw: string)
    ensures ReadLine(raw).event == EventOf(Classify(raw))
  {
    if raw != "" && raw[|raw| - 1] == '\r' {
      assert raw == DropCr(raw) + "\r";
      ClassifyMore(DropCr(raw), "\r");
    }
  }

  lemma MarkIff(raw: string, mark: string)
    requires mark != "" && !IsSpace(mark[|mark| - 1])
    ensures TrimRight(raw) == mark <==> mark <= raw && IsBlank(raw[|mark|..])
  {
    var r := TrimRightShape(raw);
    if mark <= raw && IsBlank(raw[|mark|..]) {
      assert raw == mark + raw[|mark|..];
      TrimRightIs(mark, raw[|mark|..]);
    }
    assert TrimRight(raw) == mark ==> raw[|mark|..] == r;
  }

  lemma MarkerKinds(raw: string)
    ensures Classify(raw) == BeginMarker <==> TrimRight(raw) == BEGIN_PATCH
    ensures Classify(raw) == StopMarker
            <==> TrimRight(raw) != BEGIN_PATCH && (TrimRight(raw) == END_PATCH || TrimRight(raw) == ABORT)
  {
  }

  lemma MarkEvents(kind: LineKind)
    ensures EventOf(kind) == Begin <==> kind == BeginMarker
    ensures EventOf(kind) == Stop <==> kind == StopMarker
    ensures forall target :: EventOf(kind) == Header(target) <==> kind == HeaderLine(target)
  {
  }

  lemma Literals()
    ensures BEGIN_PATCH == "*** Begin Patch" && END_PATCH == "*** End Patch" && ABORT == "*** Abort"
    ensures END_PATCH != BEGIN_PATCH && ABORT != BEGIN_PATCH
  {
    assert BEGIN_PATCH[4] == 'B' && END_PATCH[4] == 'E' && ABORT[4] == 'A';
  }

  /** The markers, with nothing but white space behind. */
  lemma MarkersIff(raw: string)
    ensures ReadLine(raw).event == Begin <==> "*** Begin Patch" <= raw && IsBlank(raw[15..])
    ensures ReadLine(raw).event == Stop
            <==> ("*** End Patch" <= raw && IsBlank(raw[13..])) || ("*** Abort" <= raw && IsBlank(raw[9..]))
  {
    EventIs(raw);
    MarkEvents(Classify(raw));
    MarkerKinds(raw);
    Literals();
    MarkIff(raw, BEGIN_PATCH);
    MarkIff(raw, END_PATCH);
    MarkIff(raw, ABORT);
  }

  lemma NoMark(raw: string)
    requires raw != "" && raw[0] != '*'
    ensures var t := TrimRight(raw); t != BEGIN_PATCH && t != END_PATCH && t != ABORT
  {
    var t := TrimRight(raw);
    assert t != "" ==> t[0] == raw[0];
    assert BEGIN_PATCH[0] == '*' && END_PATCH[0] == '*' && ABORT[0] == '*';
  }

  lemma SectionClass(raw: string, k: nat, l: string, target: string, r: string)
    requires SectionText(raw, k, l, target, r) && Tight(target)
    ensures Classify(raw) == HeaderLine(target)
  {
    DropSectionsIs(raw, k);
    TrimIs(l, target, r);
    NoMark(raw);
  }

  lemma SectionShape(raw: string, target: string)
    requires Classify(raw) == HeaderLine(target)
    ensures Tight(target) && exists k: nat, l: string, r: string :: SectionText(raw, k, l, target, r)
  {
    var k := DropSectionsShape(raw);
    var l, r := TrimShape(raw[k..]);
    assert k > 0 && SectionText(raw, k, l, target, r);
  }

  /** A header is section signs and the name of the file, with white space around the name. */
  lemma HeaderIff(raw: string, target: string)
    ensures ReadLine(raw).event == Header(target)
            <==> Tight(target) && exists k: nat, l: string, r: string :: SectionText(raw, k, l, target, r)
  {
    EventIs(raw);
    MarkEvents(Classify(raw));
    if Tight(target) {
      forall k: nat, l: string, r: string | SectionText(raw, k, l, target, r)
        ensures Classify(raw) == HeaderLine(target)
      {
        SectionClass(raw, k, l, target, r);
      }
    }
    if Classify(raw) == HeaderLine(target) {
      SectionShape(raw, target);
    }
  }

  /** An operation sign and one word, with white space around the word. */
  predicate WordLine(raw: string, sign: char, l: string, word: string, r: string) {
    Signed(raw, sign, l, word, r) && word != "" && HasNoSpace(word)
  }

  lemma WordKind(raw: string, sign: char, l: string, word: string, r: string)
    requires WordLine(raw, sign, l, word, r)
    ensures (sign == '\U{00AB}' || sign == '\U{00BB}') ==> Classify(raw) == InsertLine(word)
    ensures sign == '\U{2254}' ==> Classify(raw) == ReplaceLine(word)
  {
    assert word[0] in word && word[|word| - 1] in word;
    assert raw[1..] == l + word + r;
    TrimIs(l, word, r);
    if sign != '*' {
      NoMark(raw);
    }
  }

  lemma OpShape(raw: string, kind: LineKind)
    requires kind == Classify(raw) && (kind.InsertLine? || kind.ReplaceLine?)
    ensures raw != "" && kind.body == Trim(raw[1..]) && kind.body != "" && HasNoSpace(kind.body)
    ensures kind.InsertLine? ==> raw[0] == '\U{00AB}' || raw[0] == '\U{00BB}'
    ensures kind.ReplaceLine? ==> raw[0] == '\U{2254}'
  {
  }

  lemma SignedShape(raw: string) returns (l: string, r: string)
    requires raw != ""
    ensures Signed(raw, raw[0], l, Trim(raw[1..]), r)
  {
    l, r := TrimShape(raw[1..]);
    assert raw == [raw[0]] + raw[1..];
  }

  /** An insert line names its anchor, except BOF and EOF, and is about the line of the anchor. */
  lemma InsertIs(raw: string, sign: char, l: string, word: string, r: string)
    requires WordLine(raw, sign, l, word, r) && (sign == '\U{00AB}' || sign == '\U{00BB}')
    ensures var e := ReadLine(raw).event;
            && e.InsertAt? && e.anchors == (if word == "BOF" || word == "EOF" then [] else [word])
            && forall n: nat :: e.line == Some(n) <==> IsAnchorFor(word, n)
  {
    EventIs(raw);
    WordKind(raw, sign, l, word, r);
    forall n: nat ensures AnchorLine(word) == Some(n) <==> IsAnchorFor(word, n) {
      AnchorLineIff(word, n);
    }
  }

  /** The number of lines from the first to the last one, and these two; at least one line, and line 0 is
      none. A text that is no range counts as one line. */
  ghost predicate RangeSays(word: string, range: RangeInfo) {
    && (forall a: nat, b: nat | IsAbout(word, a, b) ::
          range == RangeInfo(if a <= b then b - a + 1 else 1,
                             if a == 0 then None else Some((a, if a <= b then b else a))))
    && ((forall a: nat, b: nat :: !IsAbout(word, a, b)) ==> range == RangeInfo(1, None))
  }

  lemma ParsedRange(word: string)
    ensures RangeSays(word, ParseRange(word))
  {
    forall a: nat, b: nat | IsAbout(word, a, b)
      ensures ParseRange(word) == RangeInfo(if a <= b then b - a + 1 else 1,
                                            if a == 0 then None else Some((a, if a <= b then b else a)))
    {
      ParseRangeIs(word, a, b);
    }
    if forall a: nat, b: nat :: !IsAbout(word, a, b) {
      ParseRangeElse(word);
    }
  }

  lemma ReplaceEvent(raw: string, l: string, word: string, r: string)
    requires WordLine(raw, '\U{2254}', l, word, r)
    ensures ReadLine(raw).event == ReplaceAt(NonEmpty(SplitDots(word)), ParseRange(word))
  {
    EventIs(raw);
    WordKind(raw, '\U{2254}', l, word, r);
  }

  /** A replace line names the parts of its range, and is about the lines from the first to the second. */
  lemma ReplaceIs(raw: string, l: string, word: string, r: string)
    requires WordLine(raw, '\U{2254}', l, word, r)
    ensures var e := ReadLine(raw).event;
            && e.ReplaceAt? && RangeSays(word, e.range)
            && exists parts: seq<string> :: IsSplit(parts, word) && e.anchors == Named(parts)
  {
    ReplaceEvent(raw, l, word, r);
    SplitDotsIs(word);
    NamedOf(SplitDots(word));
    ParsedRange(word);
  }

  /** No other lines are operations. */
  lemma OnlyWords(raw: string, e: Event) returns (l: string, word: string, r: string)
    requires e == ReadLine(raw).event && (e.InsertAt? || e.ReplaceAt?)
    ensures raw != "" && WordLine(raw, raw[0], l, word, r)
    ensures e.InsertAt? ==> raw[0] == '\U{00AB}' || raw[0] == '\U{00BB}'
    ensures e.ReplaceAt? ==> raw[0] == '\U{2254}'
  {
    EventIs(raw);
    OpEvents(Classify(raw), e);
    OpShape(raw, Classify(raw));
    word := Trim(raw[1..]);
    l, r := SignedShape(raw);
  }

  lemma OpEvents(kind: LineKind, e: Event)
    requires e == EventOf(kind)
    ensures e.InsertAt? <==> kind.InsertLine?
    ensures e.ReplaceAt? <==> kind.ReplaceLine?
  {
  }
}
