/** Printing sections of a patch and parsing the text gives back exactly what was printed. */
module HashlineRoundTrip {
  import opened Hashline
  import opened Numbers
  import opened Text
  import opened Wrappers

  datatype Place = Place(line: nat, tag: string)

  datatype Anchor = Bof | Eof | At(place: Place)

  datatype Op =
    | InsertOp(after: bool, anchor: Anchor, payload: seq<string>)
    | ReplaceOp(first: Place, last: Option<Place>, payload: seq<string>)

  datatype Section = Section(target: string, ops: seq<Op>)

  // ---------------------------------------------------------------------------------------------
  // Printing

  function Decimal(n: nat): (s: string)
    ensures s != "" && forall c | c in s :: IsDigit(c)
    ensures Value(s) == n
  {
    var last := [('0' as nat + n % 10) as char];
    if n < 10 then assert last[..0] == ""; last
    else assert (Decimal(n / 10) + last)[..|Decimal(n / 10)|] == Decimal(n / 10); Decimal(n / 10) + last
  }

  function PrintPlace(p: Place): string {
    Decimal(p.line) + p.tag
  }

  function PrintAnchor(a: Anchor): string {
    match a
    case Bof => "BOF"
    case Eof => "EOF"
    case At(p) => PrintPlace(p)
  }

  function Body(op: Op): string {
    match op
    case InsertOp(_, a, _) => PrintAnchor(a)
    case ReplaceOp(first, last, _) =>
      PrintPlace(first) + if last.Some? then ".." + PrintPlace(last.value) else ""
  }

  function Sign(op: Op): char {
    if op.ReplaceOp? then REPLACE else if op.after then AFTER else BEFORE
  }

  function PrintOp(op: Op): seq<string> {
    [[Sign(op)] + Body(op)] + op.payload
  }

  function PrintOps(ops: seq<Op>): seq<string> {
    if ops == [] then [] else PrintOps(ops[..|ops| - 1]) + PrintOp(ops[|ops| - 1])
  }

  function PrintSection(s: Section): seq<string> {
    [[SECTION] + s.target] + PrintOps(s.ops)
  }

  function PrintAll(ss: seq<Section>): seq<string> {
    if ss == [] then [] else PrintAll(ss[..|ss| - 1]) + PrintSection(ss[|ss| - 1])
  }

  predicate GoodPlace(p: Place) {
    p.tag != "" && forall c | c in p.tag :: IsTag(c)
  }

  /** A payload line must not look like a marker, a header or an operation. */
  predicate GoodPayload(line: string) {
    OneLine(line) && DropCr(line) == line && Classify(line).PlainLine?
  }

  predicate AllGoodPayload(lines: seq<string>) {
    lines == [] || (GoodPayload(lines[0]) && AllGoodPayload(lines[1..]))
  }

  predicate GoodOp(op: Op) {
    && AllGoodPayload(op.payload)
    && (op.InsertOp? && op.anchor.At? ==> GoodPlace(op.anchor.place))
    && (op.ReplaceOp? ==> GoodPlace(op.first) && (op.last.Some? ==> GoodPlace(op.last.value)))
  }

  predicate AllGoodOps(ops: seq<Op>) {
    ops == [] || (AllGoodOps(ops[..|ops| - 1]) && GoodOp(ops[|ops| - 1]))
  }

  predicate GoodSection(s: Section) {
    && OneLine(s.target) && Trim(s.target) == s.target && (s.target != "" ==> s.target[0] != SECTION)
    && DropCr([SECTION] + s.target) == [SECTION] + s.target
    && AllGoodOps(s.ops)
  }

  predicate AllGood(ss: seq<Section>) {
    ss == [] || (AllGood(ss[..|ss| - 1]) && GoodSection(ss[|ss| - 1]))
  }

  // ---------------------------------------------------------------------------------------------
  // What the parse should say

  function Payloads(ops: seq<Op>): seq<seq<string>> {
    if ops == [] then [] else Payloads(ops[..|ops| - 1]) + [ops[|ops| - 1].payload]
  }

  function OpAnchors(op: Op): seq<string> {
    match op
    case InsertOp(_, a, _) => if a.At? then [PrintPlace(a.place)] else []
    case ReplaceOp(first, last, _) => [PrintPlace(first)] + if last.Some? then [PrintPlace(last.value)] else []
  }

  function Anchors(ops: seq<Op>): seq<string> {
    if ops == [] then [] else Anchors(ops[..|ops| - 1]) + OpAnchors(ops[|ops| - 1])
  }

  function EndLine(op: Op): nat
    requires op.ReplaceOp?
  {
    if op.last.Some? then op.last.value.line else op.first.line
  }

  /** The number of lines in the range of a replacement; at least one. */
  function OpDeleted(op: Op): nat {
    if op.InsertOp? then 0 else if EndLine(op) < op.first.line then 1 else EndLine(op) - op.first.line + 1
  }

  function Deleted(ops: seq<Op>): nat {
    if ops == [] then 0 else Deleted(ops[..|ops| - 1]) + OpDeleted(ops[|ops| - 1])
  }

  /** The line numbers an operation touches. */
  function OpTouched(op: Op): seq<nat> {
    match op
    case InsertOp(_, a, _) => if a.At? then [a.place.line] else []
    case ReplaceOp(first, _, _) =>
      if first.line > 0 then [first.line, Max(EndLine(op), first.line)] else []
  }

  function Touched(ops: seq<Op>): seq<nat> {
    if ops == [] then [] else Touched(ops[..|ops| - 1]) + OpTouched(ops[|ops| - 1])
  }

  ghost predicate Least(m: Option<nat>, lines: seq<nat>) {
    if m.None? then lines == [] else m.value in lines && forall n | n in lines :: m.value <= n
  }

  ghost predicate Greatest(m: Option<nat>, lines: seq<nat>) {
    if m.None? then lines == [] else m.value in lines && forall n | n in lines :: n <= m.value
  }

  /** One block per operation, in order; the anchors in order; the lines of all ranges; and the
      exact bounds of the touched lines. */
  ghost predicate Describes(sum: Summary, s: Section) {
    && sum.target == s.target
    && sum.blocks == Payloads(s.ops)
    && sum.anchors == Anchors(s.ops)
    && sum.deleted == Deleted(s.ops)
    && sum.ops == |s.ops|
    && Least(sum.minLine, Touched(s.ops)) && Greatest(sum.maxLine, Touched(s.ops))
  }

  // ---------------------------------------------------------------------------------------------
  // Anchors read back

  lemma {:induction false} DigitRunOf(d: string, rest: string)
    requires forall c | c in d :: IsDigit(c)
    requires rest == "" || !IsDigit(rest[0])
    ensures DigitRun(d + rest) == |d|
  {
    if d == "" {
      assert d + rest == rest;
    } else {
      assert (d + rest)[1..] == d[1..] + rest;
      DigitRunOf(d[1..], rest);
    }
  }

  lemma {:induction false} TagRunOf(t: string, rest: string)
    requires forall c | c in t :: IsTag(c)
    requires rest == "" || !IsTag(rest[0])
    ensures TagRun(t + rest) == |t|
  {
    if t == "" {
      assert t + rest == rest;
    } else {
      assert (t + rest)[1..] == t[1..] + rest;
      TagRunOf(t[1..], rest);
    }
  }

  lemma TakeAnchorOf(p: Place, rest: string)
    requires GoodPlace(p) && (rest == "" || !IsTag(rest[0]))
    ensures TakeAnchor(PrintPlace(p) + rest) == Some((p.line, rest))
  {
    var d, s := Decimal(p.line), PrintPlace(p) + rest;
    assert s == d + (p.tag + rest);
    assert p.tag[0] in p.tag;
    DigitRunOf(d, p.tag + rest);
    TagRunOf(p.tag, rest);
    assert s[..|d|] == d && s[|d|..] == p.tag + rest && s[|d| + |p.tag|..] == rest;
  }

  lemma AnchorLineOf(p: Place)
    requires GoodPlace(p)
    ensures AnchorLine(PrintPlace(p)) == Some(p.line)
  {
    TakeAnchorOf(p, "");
    assert PrintPlace(p) + "" == PrintPlace(p);
  }

  predicate WordChar(c: char) { IsDigit(c) || IsTag(c) }

  lemma PlaceChars(p: Place)
    requires GoodPlace(p)
    ensures PrintPlace(p) != "" && IsDigit(PrintPlace(p)[0])
    ensures forall c | c in PrintPlace(p) :: WordChar(c)
  {
  }

  lemma ParseRangeOf(op: Op)
    requires GoodOp(op) && op.ReplaceOp?
    ensures ParseRange(Body(op)) == RangeFrom(op.first.line, EndLine(op))
  {
    if op.last.None? {
      TakeAnchorOf(op.first, "");
    } else {
      var rest := ".." + PrintPlace(op.last.value);
      TakeAnchorOf(op.first, rest);
      AnchorLineOf(op.last.value);
      assert rest[2..] == PrintPlace(op.last.value);
    }
  }

  lemma {:induction false} SplitDotsOf(a: string, b: string)
    requires '.' !in a
    ensures SplitDots(a) == [a]
    ensures SplitDots(a + ".." + b) == [a] + SplitDots(b)
  {
    var s := a + ".." + b;
    if a == "" {
      assert s[..2] == ".." && s[2..] == b;
    } else {
      assert s[1..] == a[1..] + ".." + b && s[0] == a[0] && a == [a[0]] + a[1..];
      SplitDotsOf(a[1..], b);
    }
  }

  lemma NonEmptyOf(p: Place)
    requires GoodPlace(p)
    ensures Trim(PrintPlace(p)) == PrintPlace(p) && '.' !in PrintPlace(p)
  {
    PlaceChars(p);
    TrimOfSpaceless(PrintPlace(p));
  }

  predicate IsPart(a: string) { a != "" && Trim(a) == a && '.' !in a }

  lemma PartsOf(a: string, b: string)
    requires IsPart(a)
    ensures NonEmpty(SplitDots(a)) == [a]
    ensures IsPart(b) ==> NonEmpty(SplitDots(a + ".." + b)) == [a, b]
  {
    SplitDotsOf(a, b);
    NonEmptyWords([a]);
    if IsPart(b) {
      SplitDotsOf(b, "");
      assert [a] + [b] == [a, b];
      NonEmptyWords([a, b]);
    }
  }

  lemma {:induction false} NonEmptyWords(words: seq<string>)
    requires forall i | 0 <= i < |words| :: words[i] != "" && Trim(words[i]) == words[i]
    ensures NonEmpty(words) == words
  {
    if words != [] {
      NonEmptyWords(words[1..]);
    }
  }

  lemma PlaceIsPart(p: Place)
    requires GoodPlace(p)
    ensures IsPart(PrintPlace(p))
  {
    NonEmptyOf(p);
    PlaceChars(p);
  }

  lemma RangeAnchorsOf(op: Op)
    requires GoodOp(op) && op.ReplaceOp?
    ensures NonEmpty(SplitDots(Body(op))) == OpAnchors(op)
  {
    PlaceIsPart(op.first);
    if op.last.None? {
      PartsOf(PrintPlace(op.first), "");
      assert Body(op) == PrintPlace(op.first);
    } else {
      PlaceIsPart(op.last.value);
      PartsOf(PrintPlace(op.first), PrintPlace(op.last.value));
      assert Body(op) == PrintPlace(op.first) + ".." + PrintPlace(op.last.value);
    }
  }

  // ---------------------------------------------------------------------------------------------
  // Lines read back

  predicate IsWord(s: string) { s != "" && HasNoSpace(s) }

  lemma WordIsLine(s: string)
    requires IsWord(s)
    ensures OneLine(s) && s[|s| - 1] != '\r'
  {
    assert IsSpace('\r') && IsSpace('\n') && s[|s| - 1] in s;
  }

  lemma RangeIsWord(a: string, b: string)
    requires IsWord(a) && IsWord(b)
    ensures IsWord(a + ".." + b)
  {
    assert forall c :: c in a + ".." + b ==> c in a || c == '.' || c in b;
  }

  lemma PlaceIsWord(p: Place)
    requires GoodPlace(p)
    ensures IsWord(PrintPlace(p)) && !IsFileEnd(PrintPlace(p))
  {
    PlaceChars(p);
  }

  lemma BodyIsWord(op: Op)
    requires GoodOp(op)
    ensures IsWord(Body(op))
    ensures op.InsertOp? && op.anchor.At? ==> !IsFileEnd(Body(op))
  {
    match op
    case InsertOp(_, a, _) =>
      if a.At? {
        PlaceIsWord(a.place);
      }
    case ReplaceOp(first, last, _) =>
      PlaceIsWord(first);
      if last.Some? {
        PlaceIsWord(last.value);
        RangeIsWord(PrintPlace(first), PrintPlace(last.value));
        assert Body(op) == PrintPlace(first) + ".." + PrintPlace(last.value);
      } else {
        assert Body(op) == PrintPlace(first);
      }
  }

  lemma TrimRightOfWord(s: string)
    requires s != "" ==> !IsSpace(s[|s| - 1])
    ensures TrimRight(s) == s
  {
  }

  lemma NoMarker(line: string)
    requires line != "" && line[0] != '*'
    ensures line != BEGIN_PATCH && line != END_PATCH && line != ABORT
  {
  }

  lemma ClassifySigned(sign: char, body: string)
    requires IsSign(sign) && IsWord(body)
    ensures Classify([sign] + body) == if sign == REPLACE then ReplaceLine(body) else InsertLine(body)
  {
    var line := [sign] + body;
    assert line[|line| - 1] == body[|body| - 1] && body[|body| - 1] in body;
    TrimRightOfWord(line);
    TrimOfSpaceless(body);
    NoMarker(line);
    assert line[0] == sign && line[1..] == body;
  }

  lemma ReadSigned(sign: char, body: string)
    requires IsSign(sign) && IsWord(body)
    ensures ReadLine([sign] + body)
            == Line(if sign == REPLACE then ReadReplace(body) else ReadInsert(body), [sign] + body)
  {
    ClassifySigned(sign, body);
    WordIsLine(body);
    ReadOperation([sign] + body, sign, body);
  }

  lemma ReadOperation(line: string, sign: char, body: string)
    requires DropCr(line) == line && Classify(line) == if sign == REPLACE then ReplaceLine(body) else InsertLine(body)
    ensures ReadLine(line) == Line(if sign == REPLACE then ReadReplace(body) else ReadInsert(body), line)
  {
  }

  function OpEvent(op: Op): Event {
    if op.InsertOp? then ReadInsert(Body(op)) else ReadReplace(Body(op))
  }

  lemma ReadOpLine(op: Op)
    requires GoodOp(op)
    ensures var line := [Sign(op)] + Body(op);
            && OneLine(line)
            && ReadLine(line) == Line(OpEvent(op), line)
  {
    BodyIsWord(op);
    WordIsLine(Body(op));
    ReadSigned(Sign(op), Body(op));
  }

  lemma ReadHeader(s: Section)
    requires GoodSection(s)
    ensures var line := [SECTION] + s.target;
            OneLine(line) && ReadLine(line) == Line(Header(s.target), line)
  {
    var line := [SECTION] + s.target;
    assert DropSections(line) == s.target by {
      assert line[1..] == s.target;
    }
    HeaderIsNoMarker(line);
    ReadAsHeader(line, s.target);
  }

  lemma HeaderIsNoMarker(line: string)
    requires line != "" && line[0] == SECTION
    ensures Classify(line) == HeaderLine(Trim(DropSections(line)))
  {
    var trimmed := TrimRight(line);
    assert trimmed != "" ==> trimmed[0] == line[0];
    assert BEGIN_PATCH[0] == '*' && END_PATCH[0] == '*' && ABORT[0] == '*';
  }

  lemma ReadAsHeader(line: string, target: string)
    requires DropCr(line) == line && Classify(line) == HeaderLine(target)
    ensures ReadLine(line) == Line(Header(target), line)
  {
  }

  lemma {:induction false} ReadLinesConcat(a: seq<string>, b: seq<string>)
    ensures ReadLines(a + b) == ReadLines(a) + ReadLines(b)
  {
    if a == [] {
      assert a + b == b;
    } else {
      assert (a + b)[1..] == a[1..] + b;
      ReadLinesConcat(a[1..], b);
    }
  }

  // ---------------------------------------------------------------------------------------------
  // Running over the printed lines

  /** The state behind the operations of a section. */
  predicate InSection(st: State, done: seq<Summary>, sum: Summary) {
    ValidState(st) && !st.stopped && st.done == done && st.cur == Some(sum)
  }

  function Texts(lines: seq<Line>): seq<string> {
    if lines == [] then [] else [lines[0].text] + Texts(lines[1..])
  }

  lemma ReadPayloadLine(line: string)
    requires GoodPayload(line)
    ensures ReadLine(line) == Line(Plain, line) && OneLine(line)
  {
  }

  lemma {:induction false} ReadPayload(payload: seq<string>)
    requires AllGoodPayload(payload)
    ensures Texts(ReadLines(payload)) == payload
    ensures forall line | line in ReadLines(payload) :: line.event.Plain?
    ensures forall line | line in payload :: OneLine(line)
  {
    if payload != [] {
      ReadPayloadLine(payload[0]);
      ReadPayload(payload[1..]);
    }
  }

  /** Lines that are no markers, headers or operations go into the open block. */
  lemma {:induction false} RunPlain(st: State, lines: seq<Line>, done: seq<seq<string>>, block: seq<string>)
    requires ValidState(st) && !st.stopped && st.open && st.cur.value.blocks == done + [block]
    requires forall line | line in lines :: line.event.Plain?
    ensures Run(st, lines) == st.(cur := Some(st.cur.value.(blocks := done + [block + Texts(lines)])))
    decreases |lines|
  {
    if lines == [] {
      assert block + Texts(lines) == block;
    } else {
      assert lines[0] in lines;
      var grown := block + [lines[0].text];
      assert (done + [block])[|done| := grown] == done + [grown];
      RunPlain(Step(st, lines[0]), lines[1..], done, grown);
      assert grown + Texts(lines[1..]) == block + Texts(lines);
    }
  }

  /** What an operation line must be read as. */
  function Meaning(op: Op): Event {
    match op
    case InsertOp(_, a, _) => Event.InsertAt(OpAnchors(op), if a.At? then Some(a.place.line) else None)
    case ReplaceOp(first, _, _) => ReplaceAt(OpAnchors(op), RangeFrom(first.line, EndLine(op)))
  }

  lemma MeaningOf(op: Op)
    requires GoodOp(op)
    ensures OpEvent(op) == Meaning(op)
  {
    BodyIsWord(op);
    if op.ReplaceOp? {
      ParseRangeOf(op);
      RangeAnchorsOf(op);
    } else if op.anchor.At? {
      AnchorLineOf(op.anchor.place);
    } else {
      assert DigitRun(Body(op)) == 0;
    }
  }

  /** The section behind an operation line, with its empty block, and with the payload in it. */
  function Opened(s: Summary, op: Op): (t: Summary)
    ensures t.blocks == s.blocks + [[]]
  {
    match Meaning(op)
    case InsertAt(anchors, line) => AddInsert(s, anchors, line)
    case ReplaceAt(anchors, range) => AddReplace(s, anchors, range)
  }

  function Apply(s: Summary, op: Op): Summary {
    Opened(s, op).(blocks := s.blocks + [op.payload])
  }

  lemma StepOp(st: State, op: Op)
    requires ValidState(st) && !st.stopped && st.cur.Some? && GoodOp(op)
    ensures Step(st, ReadLine([Sign(op)] + Body(op))) == st.(cur := Some(Opened(st.cur.value, op)), open := true)
  {
    ReadOpLine(op);
    MeaningOf(op);
  }

  lemma RunCons(st: State, raw: string, rest: seq<string>)
    requires ValidState(st) && !st.stopped
    ensures Run(st, ReadLines([raw] + rest)) == Run(Step(st, ReadLine(raw)), ReadLines(rest))
  {
    assert ([raw] + rest)[1..] == rest;
    var lines := ReadLines([raw] + rest);
    assert lines[0] == ReadLine(raw) && lines[1..] == ReadLines(rest);
  }

  lemma RunOp(st: State, op: Op)
    requires ValidState(st) && !st.stopped && st.cur.Some? && GoodOp(op)
    ensures Run(st, ReadLines(PrintOp(op))) == st.(cur := Some(Apply(st.cur.value, op)), open := true)
  {
    var s := st.cur.value;
    var ready := st.(cur := Some(Opened(s, op)), open := true);
    StepOp(st, op);
    RunCons(st, [Sign(op)] + Body(op), op.payload);
    ReadPayload(op.payload);
    RunPlain(ready, ReadLines(op.payload), s.blocks, []);
    assert [] + op.payload == op.payload;
  }

  function ApplyAll(s: Summary, ops: seq<Op>): Summary {
    if ops == [] then s else Apply(ApplyAll(s, ops[..|ops| - 1]), ops[|ops| - 1])
  }

  lemma {:induction false} RunOps(st: State, ops: seq<Op>)
    requires ValidState(st) && !st.stopped && st.cur.Some? && AllGoodOps(ops)
    ensures InSection(Run(st, ReadLines(PrintOps(ops))), st.done, ApplyAll(st.cur.value, ops))
  {
    if ops != [] {
      var init, op := ops[..|ops| - 1], ops[|ops| - 1];
      RunOps(st, init);
      ReadLinesConcat(PrintOps(init), PrintOp(op));
      RunConcat(st, ReadLines(PrintOps(init)), ReadLines(PrintOp(op)));
      RunOp(Run(st, ReadLines(PrintOps(init))), op);
    }
  }

  lemma RunSection(st: State, s: Section)
    requires ValidState(st) && !st.stopped && GoodSection(s)
    ensures InSection(Run(st, ReadLines(PrintSection(s))), Finish(st), ApplyAll(NewSection(s.target), s.ops))
  {
    var line, ops := [SECTION] + s.target, PrintOps(s.ops);
    ReadHeader(s);
    var lines := ReadLines(PrintSection(s));
    assert PrintSection(s)[1..] == ops;
    assert lines[0] == ReadLine(line) && lines[1..] == ReadLines(ops);
    RunOps(Step(st, lines[0]), s.ops);
  }

  function Expected(ss: seq<Section>): seq<Summary> {
    if ss == [] then []
    else Expected(ss[..|ss| - 1]) + [ApplyAll(NewSection(ss[|ss| - 1].target), ss[|ss| - 1].ops)]
  }

  lemma {:induction false} RunAll(st: State, ss: seq<Section>)
    requires ValidState(st) && !st.stopped && Finish(st) == [] && AllGood(ss)
    ensures var end := Run(st, ReadLines(PrintAll(ss)));
            ValidState(end) && !end.stopped && Finish(end) == Expected(ss)
  {
    if ss != [] {
      var init, s := ss[..|ss| - 1], ss[|ss| - 1];
      RunAll(st, init);
      ReadLinesConcat(PrintAll(init), PrintSection(s));
      RunConcat(st, ReadLines(PrintAll(init)), ReadLines(PrintSection(s)));
      RunSection(Run(st, ReadLines(PrintAll(init))), s);
    }
  }

  // ---------------------------------------------------------------------------------------------
  // What the operations add up to

  /** Touching lines one after the other keeps the exact bounds. */
  lemma TouchExact(s: Summary, lines: seq<nat>, line: nat)
    requires Least(s.minLine, lines) && Greatest(s.maxLine, lines)
    ensures Least(s.Touch(line).minLine, lines + [line]) && Greatest(s.Touch(line).maxLine, lines + [line])
  {
    assert forall n :: n in lines + [line] <==> n in lines || n == line;
  }

  ghost predicate Extends(t: Summary, s: Summary, op: Op, lines: seq<nat>) {
    && t.target == s.target && t.ops == s.ops + 1 && t.blocks == s.blocks + [op.payload]
    && t.anchors == s.anchors + OpAnchors(op) && t.deleted == s.deleted + OpDeleted(op)
    && Least(t.minLine, lines + OpTouched(op)) && Greatest(t.maxLine, lines + OpTouched(op))
  }

  lemma InsertExtends(s: Summary, op: Op, lines: seq<nat>)
    requires op.InsertOp? && Least(s.minLine, lines) && Greatest(s.maxLine, lines)
    ensures Extends(Apply(s, op), s, op, lines)
  {
    if op.anchor.At? {
      TouchExact(s, lines, op.anchor.place.line);
    } else {
      assert lines + OpTouched(op) == lines;
    }
  }

  lemma RangeExtends(s: Summary, first: nat, last: nat, lines: seq<nat>)
    requires Least(s.minLine, lines) && Greatest(s.maxLine, lines)
    ensures var t := WithRange(s, RangeFrom(first, last));
            var touched := if first > 0 then [first, Max(last, first)] else [];
            && t == s.(deleted := s.deleted + Max(last - first + 1, 1), minLine := t.minLine, maxLine := t.maxLine)
            && Least(t.minLine, lines + touched) && Greatest(t.maxLine, lines + touched)
  {
    if first > 0 {
      TouchExact(s, lines, first);
      TouchExact(s.Touch(first), lines + [first], Max(last, first));
      assert lines + [first, Max(last, first)] == lines + [first] + [Max(last, first)];
    } else {
      assert lines + [] == lines;
    }
  }

  lemma ReplaceExtends(s: Summary, op: Op, lines: seq<nat>)
    requires op.ReplaceOp? && Least(s.minLine, lines) && Greatest(s.maxLine, lines)
    ensures Extends(Apply(s, op), s, op, lines)
  {
    RangeExtends(s, op.first.line, EndLine(op), lines);
  }

  lemma {:induction false} ApplyAllDescribes(target: string, ops: seq<Op>)
    ensures Describes(ApplyAll(NewSection(target), ops), Section(target, ops))
  {
    if ops != [] {
      var init, op := ops[..|ops| - 1], ops[|ops| - 1];
      ApplyAllDescribes(target, init);
      if op.InsertOp? {
        InsertExtends(ApplyAll(NewSection(target), init), op, Touched(init));
      } else {
        ReplaceExtends(ApplyAll(NewSection(target), init), op, Touched(init));
      }
    }
  }

  ghost predicate AllDescribe(sums: seq<Summary>, ss: seq<Section>) {
    |sums| == |ss| && forall i | 0 <= i < |ss| :: Describes(sums[i], ss[i])
  }

  lemma {:induction false} ExpectedDescribes(ss: seq<Section>)
    ensures AllDescribe(Expected(ss), ss)
  {
    if ss != [] {
      ExpectedDescribes(ss[..|ss| - 1]);
      var last := ss[|ss| - 1];
      ApplyAllDescribes(last.target, last.ops);
      assert last == Section(last.target, last.ops);
      forall i | 0 <= i < |ss| ensures Describes(Expected(ss)[i], ss[i]) {
        if i < |ss| - 1 {
          assert Expected(ss)[i] == Expected(ss[..|ss| - 1])[i] && ss[..|ss| - 1][i] == ss[i];
        }
      }
    }
  }

  function TotalPayload(ops: seq<Op>): nat {
    if ops == [] then 0 else TotalPayload(ops[..|ops| - 1]) + |ops[|ops| - 1].payload|
  }

  lemma {:induction false} PayloadCountSnoc(blocks: seq<seq<string>>, block: seq<string>)
    ensures PayloadCount(blocks + [block]) == PayloadCount(blocks) + |block|
  {
    if blocks == [] {
      assert blocks + [block] == [block];
    } else {
      assert (blocks + [block])[1..] == blocks[1..] + [block];
      PayloadCountSnoc(blocks[1..], block);
    }
  }

  lemma {:induction false} PayloadsCounted(ops: seq<Op>)
    ensures PayloadCount(Payloads(ops)) == TotalPayload(ops)
  {
    if ops != [] {
      PayloadsCounted(ops[..|ops| - 1]);
      PayloadCountSnoc(Payloads(ops[..|ops| - 1]), ops[|ops| - 1].payload);
    }
  }

  /** The change size is the number of payload lines plus the lines of all ranges. */
  lemma ChangeSizeOf(sum: Summary, s: Section)
    requires Describes(sum, s)
    ensures ChangeSize(sum) == TotalPayload(s.ops) + Deleted(s.ops)
  {
    PayloadsCounted(s.ops);
  }

  // ---------------------------------------------------------------------------------------------
  // The round trip

  lemma {:induction false} PrintedOneLine(ss: seq<Section>)
    requires AllGood(ss)
    ensures forall line | line in PrintAll(ss) :: OneLine(line)
    ensures ss != [] ==> PrintAll(ss) != []
  {
    if ss != [] {
      PrintedOneLine(ss[..|ss| - 1]);
      ReadHeader(ss[|ss| - 1]);
      PrintedOpsOneLine(ss[|ss| - 1].ops);
    }
  }

  lemma {:induction false} PrintedOpsOneLine(ops: seq<Op>)
    requires AllGoodOps(ops)
    ensures forall line | line in PrintOps(ops) :: OneLine(line)
  {
    if ops != [] {
      PrintedOpsOneLine(ops[..|ops| - 1]);
      ReadOpLine(ops[|ops| - 1]);
      ReadPayload(ops[|ops| - 1].payload);
    }
  }

  /** Whatever follows an end marker is ignored. */
  lemma RunBehindStop(st: State, marker: string, junk: seq<string>)
    requires ValidState(st) && !st.stopped && ReadLine(marker).event.Stop?
    ensures Finish(Run(st, ReadLines([marker] + junk))) == Finish(st)
  {
    var lines := ReadLines([marker] + junk);
    assert lines[0] == ReadLine(marker);
  }

  function Head(begin: bool): seq<string> {
    if begin then [BEGIN_PATCH] else []
  }

  function Rest(end: bool, junk: seq<string>): seq<string> {
    if end then [END_PATCH] + junk else []
  }

  lemma RunHead(st: State, begin: bool)
    requires ValidState(st) && !st.stopped
    ensures Run(st, ReadLines(Head(begin))) == st
  {
    TrimRightOfWord(BEGIN_PATCH);
    assert begin ==> ReadLines(Head(begin)) == [ReadLine(BEGIN_PATCH)];
  }

  lemma RunRest(st: State, end: bool, junk: seq<string>)
    requires ValidState(st) && !st.stopped
    ensures Finish(Run(st, ReadLines(Rest(end, junk)))) == Finish(st)
  {
    if end {
      TrimRightOfWord(END_PATCH);
      RunBehindStop(st, END_PATCH, junk);
    }
  }

  /** Parsing printed sections, with or without an envelope and whatever follows it, describes
      exactly those sections. */
  lemma ParseOfPrint(ss: seq<Section>, begin: bool, end: bool, junk: seq<string>)
    requires ss != [] && AllGood(ss)
    requires forall line | line in junk :: OneLine(line)
    ensures AllDescribe(Parse(JoinLines(Head(begin) + (PrintAll(ss) + Rest(end, junk)))), ss)
  {
    var lines := Head(begin) + (PrintAll(ss) + Rest(end, junk));
    PrintedOneLine(ss);
    EnvelopeOneLine(PrintAll(ss), begin, end, junk);
    PrintedLines(lines);
    RunPrinted(ss, begin, end, junk);
    ExpectedDescribes(ss);
  }

  lemma EnvelopeOneLine(printed: seq<string>, begin: bool, end: bool, junk: seq<string>)
    requires forall line | line in printed + junk :: OneLine(line)
    ensures forall line | line in Head(begin) + (printed + Rest(end, junk)) :: OneLine(line)
  {
    forall line | line in Head(begin) + (printed + Rest(end, junk)) ensures OneLine(line) {
      assert line in Head(begin) || line in Rest(end, junk) || line in printed + junk;
      assert line in Rest(end, junk) ==> line == END_PATCH || line in printed + junk;
    }
  }

  lemma PrintedLines(lines: seq<string>)
    requires lines != [] && forall line | line in lines :: OneLine(line)
    ensures Parse(JoinLines(lines)) == Finish(Run(START, ReadLines(lines)))
  {
    SplitOfJoin(lines);
  }

  lemma RunPrinted(ss: seq<Section>, begin: bool, end: bool, junk: seq<string>)
    requires AllGood(ss)
    ensures Finish(Run(START,
                       ReadLines(Head(begin) + (PrintAll(ss) + Rest(end, junk))))) == Expected(ss)
  {
    var start := START;
    ReadLinesConcat(Head(begin), PrintAll(ss) + Rest(end, junk));
    ReadLinesConcat(PrintAll(ss), Rest(end, junk));
    RunConcat(start, ReadLines(Head(begin)), ReadLines(PrintAll(ss) + Rest(end, junk)));
    RunHead(start, begin);
    RunConcat(start, ReadLines(PrintAll(ss)), ReadLines(Rest(end, junk)));
    RunAll(start, ss);
    RunRest(Run(start, ReadLines(PrintAll(ss))), end, junk);
  }
}
