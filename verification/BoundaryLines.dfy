/** Which lines of an edit input are marks, headers and operations, character by character. */
module BoundaryLines {
  import opened Numbers
  import opened Text
  import opened Boundary
  import opened BoundaryText
  import opened HashlineLines
  import H = Hashline
  import R = HashlineRoundTrip

  // ---------------------------------------------------------------------------------------------
  // Line ends do not matter

  lemma {:induction false} ChopShape(raw: string) returns (e: string)
    ensures raw == Chop(raw) + e && IsBlank(e)
  {
    e := "";
    if raw != "" && (raw[|raw| - 1] == '\r' || raw[|raw| - 1] == '\n') {
      var rest := ChopShape(raw[..|raw| - 1]);
      e := rest + [raw[|raw| - 1]];
      assert raw == raw[..|raw| - 1] + [raw[|raw| - 1]];
    }
  }

  lemma MarkMore(line: string, e: string, mark: string)
    requires mark != "" && !IsSpace(mark[|mark| - 1]) && IsBlank(e)
    ensures IsMark(line + e, mark) <==> IsMark(line, mark)
  {
    PrefixMore(mark, line, e);
    if mark <= line {
      BlankMore(line[|mark|..], e);
    }
  }

  lemma KindOfSpace(e: string)
    requires IsBlank(e)
    ensures KindOf(e) == Other
  {
    if e != "" {
      assert e[0] in e;
      assert H.BEGIN_PATCH[0] == '*' && H.END_PATCH[0] == '*' && UPDATE_FILE[0] == '*';
    }
  }

  lemma UpdateMore(name: string, e: string)
    requires IsBlank(e)
    ensures UpdateHeader(name + e) == UpdateHeader(name)
  {
    TrimMore(name, e);
    if name == "" {
      assert name + e == e;
      BlankIff(e);
    }
  }

  /** What the parser compares. */
  ghost predicate SameParts(a: string, b: string) {
    && a != "" && b != "" && a[0] == b[0]
    && IsMark(a, H.BEGIN_PATCH) == IsMark(b, H.BEGIN_PATCH) && IsMark(a, H.END_PATCH) == IsMark(b, H.END_PATCH)
    && (UPDATE_FILE <= a <==> UPDATE_FILE <= b)
    && (UPDATE_FILE <= a ==> UpdateHeader(a[|UPDATE_FILE|..]) == UpdateHeader(b[|UPDATE_FILE|..]))
    && Trim(H.DropSections(a)) == Trim(H.DropSections(b)) && Trim(a[1..]) == Trim(b[1..])
  }

  lemma SameKind(a: string, b: string)
    requires SameParts(a, b)
    ensures KindOf(a) == KindOf(b)
  {
  }

  lemma MarksMore(line: string, e: string)
    requires IsBlank(e)
    ensures IsMark(line + e, H.BEGIN_PATCH) == IsMark(line, H.BEGIN_PATCH)
    ensures IsMark(line + e, H.END_PATCH) == IsMark(line, H.END_PATCH)
  {
    MarkMore(line, e, H.BEGIN_PATCH);
    MarkMore(line, e, H.END_PATCH);
  }

  lemma UpdateLineMore(line: string, e: string)
    requires IsBlank(e)
    ensures UPDATE_FILE <= line + e <==> UPDATE_FILE <= line
    ensures UPDATE_FILE <= line ==>
              UpdateHeader((line + e)[|UPDATE_FILE|..]) == UpdateHeader(line[|UPDATE_FILE|..])
  {
    PrefixMore(UPDATE_FILE, line, e);
    if UPDATE_FILE <= line {
      UpdateMore(line[|UPDATE_FILE|..], e);
    }
  }

  lemma TextMore(line: string, e: string)
    requires IsBlank(e) && line != ""
    ensures Trim(H.DropSections(line + e)) == Trim(H.DropSections(line)) && Trim((line + e)[1..]) == Trim(line[1..])
  {
    DropSectionsMore(line, e);
    TrimMore(H.DropSections(line), e);
    assert (line + e)[1..] == line[1..] + e;
    TrimMore(line[1..], e);
  }

  lemma KindMore(line: string, e: string)
    requires IsBlank(e)
    ensures KindOf(line + e) == KindOf(line)
  {
    if line == "" {
      assert line + e == e;
      KindOfSpace(e);
    } else {
      MarksMore(line, e);
      UpdateLineMore(line, e);
      TextMore(line, e);
      SameKind(line + e, line);
    }
  }

  /** What is seen in a line is what its characters say, its end included. */
  lemma LookIs(raw: string)
    ensures LookAt(raw).kind == KindOf(raw)
    ensures LookAt(raw).blank <==> forall c | c in raw :: IsSpace(c)
    ensures LookAt(raw).lead
            <==> raw != "" && (raw[0] == '\U{00AB}' || raw[0] == '\U{00BB}' || raw[0] == '\U{2254}'
                               || raw[0] == '\U{00A7}')
  {
    var e := ChopShape(raw);
    KindMore(Chop(raw), e);
    BlankMore(Chop(raw), e);
    BlankIff(Chop(raw));
    assert Chop(raw) == "" && raw != "" ==> raw[0] in e;
  }

  // ---------------------------------------------------------------------------------------------
  // Anchors and ranges

  /** A line number in decimal, without leading zero, and two letters. */
  predicate IsAnchorText(s: string) {
    && |s| >= 3 && s[0] != '0' && (forall i | 0 <= i < |s| - 2 :: '0' <= s[i] <= '9')
    && forall i | |s| - 2 <= i < |s| :: 'a' <= s[i] <= 'z' || 'A' <= s[i] <= 'Z'
  }

  /** ... for line `n`. */
  predicate IsAnchorOf(s: string, n: nat) {
    IsAnchorText(s) && s[..|s| - 2] == R.Decimal(n)
  }

  /** The text of an anchor is a printed place. */
  lemma PlaceOf(s: string) returns (p: R.Place)
    requires IsAnchorText(s)
    ensures GoodPlace(p) && R.PrintPlace(p) == s && IsAnchorOf(s, p.line)
  {
    var d, tag := s[..|s| - 2], s[|s| - 2..];
    assert forall i | 0 <= i < |d| :: d[i] == s[i];
    DecimalOf(d);
    p := R.Place(H.Value(d), tag);
    assert s == d + tag;
  }

  /** The front of a text that the parser takes for an anchor. */
  lemma FrontAnchor(s: string)
    ensures AnchorLength(s) > 0 ==> IsAnchorText(s[..AnchorLength(s)])
  {
    DigitRunIs(s);
    var n := AnchorLength(s);
    if n > 0 {
      assert n == H.DigitRun(s) + 2;
      assert forall i | 0 <= i < n :: s[..n][i] == s[i];
    }
  }

  lemma AnchorIff(s: string)
    ensures IsAnchor(s) <==> IsAnchorText(s)
    ensures IsAnchor(s) ==> IsAnchorOf(s, LineOf(s))
  {
    FrontAnchor(s);
    assert s[..|s|] == s;
    if IsAnchorText(s) {
      var p := PlaceOf(s);
      PlaceIsAnchor(p);
    }
  }

  /** One anchor, or two with two dots between them; `size` is the number of lines from the first to the
      second, at least one. */
  ghost predicate IsRangeText(body: string, size: nat) {
    || (IsAnchorText(body) && size == 1)
    || exists x: string, y: string, a: nat, b: nat ::
         IsAnchorOf(x, a) && IsAnchorOf(y, b) && body == x + (".." + y) && size == if a <= b then b - a + 1 else 1
  }

  lemma TwoAnchors(x: string, y: string, a: nat, b: nat)
    requires IsAnchorOf(x, a) && IsAnchorOf(y, b)
    ensures var body := x + (".." + y); IsRange(body) && RangeSize(body) == if a <= b then b - a + 1 else 1
  {
    var p := PlaceOf(x);
    var q := PlaceOf(y);
    PlaceIsAnchor(q);
    PlaceRead(p, ".." + y);
    RangeRead(x, y);
    SameNumber(p.line, a);
    SameNumber(q.line, b);
  }

  lemma RangeTextRead(body: string, size: nat)
    requires IsRangeText(body, size)
    ensures IsRange(body) && RangeSize(body) == size
  {
    if IsAnchorText(body) && size == 1 {
      AnchorIff(body);
      SingleRead(body);
    } else {
      var x: string, y: string, a: nat, b: nat :|
        IsAnchorOf(x, a) && IsAnchorOf(y, b) && body == x + (".." + y) && size == if a <= b then b - a + 1 else 1;
      TwoAnchors(x, y, a, b);
    }
  }

  lemma RangeParts(body: string) returns (x: string, y: string)
    requires IsRange(body) && AnchorLength(body) < |body|
    ensures body == x + (".." + y) && IsAnchorText(x) && IsAnchor(y)
  {
    var n := AnchorLength(body);
    x, y := body[..n], body[n + 2..];
    FrontAnchor(body);
    assert body[n..][..2] == ".." && body[n..] == ".." + y && body == x + body[n..];
  }

  lemma RangeIsText(body: string)
    requires IsRange(body)
    ensures IsRangeText(body, RangeSize(body))
  {
    if AnchorLength(body) == |body| {
      AnchorIff(body);
      SingleRead(body);
    } else {
      var x, y := RangeParts(body);
      AnchorIff(y);
      var p := PlaceOf(x);
      TwoAnchors(x, y, p.line, LineOf(y));
    }
  }

  lemma RangeIff(body: string, size: nat)
    ensures IsRange(body) && RangeSize(body) == size <==> IsRangeText(body, size)
  {
    if IsRangeText(body, size) {
      RangeTextRead(body, size);
    }
    if IsRange(body) {
      RangeIsText(body);
    }
  }

  // ---------------------------------------------------------------------------------------------
  // Whole lines

  predicate IsPlaceText(body: string) { body == "BOF" || body == "EOF" || IsAnchorText(body) }

  lemma OpLineKind(raw: string)
    ensures raw != "" && H.IsSign(raw[0]) ==> KindOf(raw) == OpKind(raw[0], Trim(raw[1..]))
    ensures KindOf(raw).Insert? || KindOf(raw).Replace? ==> raw != "" && H.IsSign(raw[0])
  {
    assert H.BEGIN_PATCH[0] == '*' && H.END_PATCH[0] == '*' && UPDATE_FILE[0] == '*';
  }

  lemma SignedKind(raw: string, sign: char, l: string, body: string, r: string)
    requires Signed(raw, sign, l, body, r) && H.IsSign(sign) && Tight(body)
    ensures KindOf(raw) == OpKind(sign, body)
  {
    OpLineKind(raw);
    assert raw[1..] == l + body + r;
    TrimIs(l, body, r);
  }

  lemma SignedShape(raw: string) returns (l: string, r: string)
    requires raw != ""
    ensures Signed(raw, raw[0], l, Trim(raw[1..]), r)
  {
    l, r := TrimShape(raw[1..]);
    assert raw == [raw[0]] + raw[1..];
  }

  lemma AnchorIsTight(body: string)
    requires IsAnchorText(body)
    ensures Tight(body) && body != "BOF" && body != "EOF"
  {
    assert '0' <= body[0] <= '9';
  }

  lemma RangeIsTight(body: string, size: nat)
    requires IsRangeText(body, size)
    ensures Tight(body)
  {
    if IsAnchorText(body) && size == 1 {
      AnchorIsTight(body);
    } else {
      var x: string, y: string, a: nat, b: nat :|
        IsAnchorOf(x, a) && IsAnchorOf(y, b) && body == x + (".." + y) && size == if a <= b then b - a + 1 else 1;
      AnchorIsTight(x);
      AnchorIsTight(y);
      assert body[0] == x[0] && body[|body| - 1] == y[|y| - 1];
    }
  }

  ghost predicate InsertText(raw: string) {
    exists sign: char, l: string, body: string, r: string ::
      Signed(raw, sign, l, body, r) && (sign == '\U{00AB}' || sign == '\U{00BB}') && IsPlaceText(body)
  }

  lemma InsertRead(raw: string, sign: char, l: string, body: string, r: string)
    requires Signed(raw, sign, l, body, r) && (sign == '\U{00AB}' || sign == '\U{00BB}') && IsPlaceText(body)
    ensures KindOf(raw) == Insert
  {
    AnchorIff(body);
    if IsAnchorText(body) {
      AnchorIsTight(body);
    }
    SignedKind(raw, sign, l, body, r);
  }

  lemma InsertShape(raw: string)
    requires KindOf(raw) == Insert
    ensures InsertText(raw)
  {
    OpLineKind(raw);
    AnchorIff(Trim(raw[1..]));
    var l, r := SignedShape(raw);
  }

  /** A line is an insert exactly if it is one of the two insert signs and BOF, EOF or an anchor, with
      nothing but white space around that. */
  lemma InsertIff(raw: string)
    ensures LookAt(raw).kind == Insert <==> InsertText(raw)
  {
    LookIs(raw);
    if InsertText(raw) {
      var sign: char, l: string, body: string, r: string :|
        Signed(raw, sign, l, body, r) && (sign == '\U{00AB}' || sign == '\U{00BB}') && IsPlaceText(body);
      InsertRead(raw, sign, l, body, r);
    }
    if KindOf(raw) == Insert {
      InsertShape(raw);
    }
  }

  ghost predicate ReplaceText(raw: string, size: nat) {
    exists l: string, body: string, r: string :: Signed(raw, '\U{2254}', l, body, r) && IsRangeText(body, size)
  }

  lemma ReplaceRead(raw: string, l: string, body: string, r: string, size: nat)
    requires Signed(raw, '\U{2254}', l, body, r) && IsRangeText(body, size)
    ensures KindOf(raw) == Replace(size)
  {
    RangeIff(body, size);
    RangeIsTight(body, size);
    SignedKind(raw, '\U{2254}', l, body, r);
  }

  lemma ReplaceShape(raw: string, size: nat)
    requires KindOf(raw) == Replace(size)
    ensures ReplaceText(raw, size)
  {
    OpLineKind(raw);
    RangeIff(Trim(raw[1..]), size);
    var l, r := SignedShape(raw);
  }

  /** A line is a replacement of `size` lines exactly if it is the replace sign and such a range, with
      nothing but white space around that. */
  lemma ReplaceIff(raw: string, size: nat)
    ensures LookAt(raw).kind == Replace(size) <==> ReplaceText(raw, size)
  {
    LookIs(raw);
    if ReplaceText(raw, size) {
      var l: string, body: string, r: string :| Signed(raw, '\U{2254}', l, body, r) && IsRangeText(body, size);
      ReplaceRead(raw, l, body, r, size);
    }
    if KindOf(raw) == Replace(size) {
      ReplaceShape(raw, size);
    }
  }

  lemma MarkKinds(raw: string)
    ensures KindOf(raw) == BeginMark <==> IsMark(raw, H.BEGIN_PATCH)
    ensures KindOf(raw) == EndMark <==> IsMark(raw, H.END_PATCH)
  {
    assert H.BEGIN_PATCH[4] == 'B' && H.END_PATCH[4] == 'E';
  }

  /** The two envelope marks, with nothing but white space behind. */
  lemma MarkIff(raw: string)
    ensures LookAt(raw).kind == BeginMark <==> "*** Begin Patch" <= raw && forall c | c in raw[15..] :: IsSpace(c)
    ensures LookAt(raw).kind == EndMark <==> "*** End Patch" <= raw && forall c | c in raw[13..] :: IsSpace(c)
  {
    LookIs(raw);
    MarkKinds(raw);
    assert H.BEGIN_PATCH == "*** Begin Patch" && H.END_PATCH == "*** End Patch";
  }

  predicate UpdateText(raw: string, l: string, target: string, r: string) {
    raw == "*** Update File:" + (l + target + r) && IsBlank(l) && IsBlank(r) && l != "" && target != ""
  }

  lemma SectionKind(raw: string, k: nat, l: string, target: string, r: string)
    requires SectionText(raw, k, l, target, r) && Tight(target)
    ensures KindOf(raw) == FileHeader(target)
  {
    DropSectionsIs(raw, k);
    TrimIs(l, target, r);
    assert H.BEGIN_PATCH[0] == '*' && H.END_PATCH[0] == '*';
  }

  lemma UpdateKind(raw: string, l: string, target: string, r: string)
    requires UpdateText(raw, l, target, r) && Tight(target)
    ensures KindOf(raw) == FileHeader(target)
  {
    UpdateLine(l + target + r);
    TrimIs(l, target, r);
    assert l[0] in l;
  }

  lemma FirstOf(l: string, target: string, r: string)
    ensures l == "" && target != "" ==> (l + target + r)[0] == target[0]
  {
  }

  lemma HeaderShape(raw: string, target: string)
    requires KindOf(raw) == FileHeader(target)
    ensures Tight(target)
    ensures || (exists k: nat, l: string, r: string :: SectionText(raw, k, l, target, r))
            || (exists l: string, r: string :: UpdateText(raw, l, target, r))
  {
    if raw[0] == H.SECTION {
      var k := DropSectionsShape(raw);
      var l, r := TrimShape(raw[k..]);
      assert k > 0 && SectionText(raw, k, l, target, r);
    } else {
      var name := raw[|UPDATE_FILE|..];
      var l, r := TrimShape(name);
      assert raw == "*** Update File:" + name;
      FirstOf(l, target, r);
      assert UpdateText(raw, l, target, r);
    }
  }

  /** A line is a header exactly if it is section signs and the name of the file, or the longer form with
      white space in front of the name; white space around the name is not part of it. */
  lemma HeaderIff(raw: string, target: string)
    ensures LookAt(raw).kind == FileHeader(target)
            <==> && Tight(target)
                 && ((exists k: nat, l: string, r: string :: SectionText(raw, k, l, target, r))
                     || (exists l: string, r: string :: UpdateText(raw, l, target, r)))
  {
    LookIs(raw);
    if Tight(target) {
      forall k: nat, l: string, r: string | SectionText(raw, k, l, target, r)
        ensures KindOf(raw) == FileHeader(target)
      {
        SectionKind(raw, k, l, target, r);
      }
      forall l: string, r: string | UpdateText(raw, l, target, r) ensures KindOf(raw) == FileHeader(target) {
        UpdateKind(raw, l, target, r);
      }
    }
    if KindOf(raw) == FileHeader(target) {
      HeaderShape(raw, target);
    }
  }
}
