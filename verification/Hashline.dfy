/** The line-oriented patch parser behind the stored edit statistics, on the text itself. */
module Hashline {
  import opened Numbers
  import opened Text
  import opened Wrappers

  const SECTION := '\U{00A7}'
  const BEFORE := '\U{00AB}'
  const AFTER := '\U{00BB}'
  const REPLACE := '\U{2254}'

  const BEGIN_PATCH := "*** Begin Patch"
  const END_PATCH := "*** End Patch"
  const ABORT := "*** Abort"

  // ---------------------------------------------------------------------------------------------
  // Lines

  /** `s.split("\n")` */
  function SplitLines(s: string): (lines: seq<string>)
    ensures lines != []
  {
    if s == "" then [""]
    else
      var rest := SplitLines(s[1..]);
      if s[0] == '\n' then [""] + rest else [[s[0]] + rest[0]] + rest[1..]
  }

  /** `"\n".join(lines)` */
  function JoinLines(lines: seq<string>): string {
    if lines == [] then ""
    else if |lines| == 1 then lines[0]
    else lines[0] + "\n" + JoinLines(lines[1..])
  }

  predicate OneLine(s: string) { '\n' !in s }

  lemma {:induction false} SplitOneLine(line: string, rest: string)
    requires OneLine(line)
    ensures SplitLines(line) == [line]
    ensures SplitLines(line + "\n" + rest) == [line] + SplitLines(rest)
  {
    if line == "" {
      assert (line + "\n" + rest)[1..] == rest;
    } else {
      SplitOneLine(line[1..], rest);
      assert (line + "\n" + rest)[1..] == line[1..] + "\n" + rest;
      assert line == [line[0]] + line[1..];
    }
  }

  lemma {:induction false} SplitOfJoin(lines: seq<string>)
    requires lines != [] && forall line | line in lines :: OneLine(line)
    ensures SplitLines(JoinLines(lines)) == lines
  {
    assert lines[0] in lines;
    if |lines| == 1 {
      SplitOneLine(lines[0], "");
    } else {
      SplitOfJoin(lines[1..]);
      SplitOneLine(lines[0], JoinLines(lines[1..]));
    }
  }

  /** A carriage return in front of the line feed is not part of the line. */
  function DropCr(raw: string): string {
    if raw != "" && raw[|raw| - 1] == '\r' then raw[..|raw| - 1] else raw
  }

  datatype LineKind =
    | BeginMarker
    | StopMarker
    | HeaderLine(target: string)
    | InsertLine(body: string)
    | ReplaceLine(body: string)
    | PlainLine

  function DropSections(s: string): string {
    if s != "" && s[0] == SECTION then DropSections(s[1..]) else s
  }

  predicate IsSign(c: char) { c == BEFORE || c == AFTER || c == REPLACE }

  /** An operation line is an operation sign and one word, with white space around the word. */
  function Classify(line: string): LineKind {
    var trimmed := TrimRight(line);
    if trimmed == BEGIN_PATCH then BeginMarker
    else if trimmed == END_PATCH || trimmed == ABORT then StopMarker
    else if line == "" then PlainLine
    else if line[0] == SECTION then HeaderLine(Trim(DropSections(line)))
    else if IsSign(line[0]) then
      var body := Trim(line[1..]);
      if body == "" || !HasNoSpace(body) then PlainLine
      else if line[0] == REPLACE then ReplaceLine(body) else InsertLine(body)
    else PlainLine
  }

  // ---------------------------------------------------------------------------------------------
  // Anchors and ranges

  predicate IsDigit(c: char) { '0' <= c <= '9' }

  predicate IsTag(c: char) { 'a' <= c <= 'z' || c == '*' }

  /** The longest prefix of digits, and of tag characters. */
  function DigitRun(s: string): (n: nat)
    ensures n <= |s|
  {
    if s != "" && IsDigit(s[0]) then 1 + DigitRun(s[1..]) else 0
  }

  function TagRun(s: string): (n: nat)
    ensures n <= |s|
  {
    if s != "" && IsTag(s[0]) then 1 + TagRun(s[1..]) else 0
  }

  function Value(digits: string): nat {
    if digits == "" then 0
    else
      var last := digits[|digits| - 1];
      Value(digits[..|digits| - 1]) * 10 + if IsDigit(last) then last as nat - '0' as nat else 0
  }

  /** A line number and a tag at the front of `s`, and what follows. */
  function TakeAnchor(s: string): Option<(nat, string)> {
    var n := DigitRun(s);
    var m := TagRun(s[n..]);
    if n == 0 || m == 0 then None else Some((Value(s[..n]), s[n + m..]))
  }

  function AnchorLine(body: string): Option<nat> {
    var a := TakeAnchor(body);
    if a.Some? && a.value.1 == "" then Some(a.value.0) else None
  }

  datatype RangeInfo = RangeInfo(size: nat, lines: Option<(nat, nat)>)

  function RangeFrom(start: nat, end: nat): RangeInfo {
    RangeInfo(Max(end - start + 1, 1), if start > 0 then Some((start, Max(end, start))) else None)
  }

  function ParseRange(body: string): RangeInfo {
    var a := TakeAnchor(body);
    if a.None? then RangeInfo(1, None)
    else if a.value.1 == "" then RangeFrom(a.value.0, a.value.0)
    else if ".." <= a.value.1 && AnchorLine(a.value.1[2..]).Some? then
      RangeFrom(a.value.0, AnchorLine(a.value.1[2..]).value)
    else RangeInfo(1, None)
  }

  /** `s.split("..")` */
  function SplitDots(s: string): (parts: seq<string>)
    ensures parts != []
  {
    if s == "" then [""]
    else if ".." <= s then [""] + SplitDots(s[2..])
    else var rest := SplitDots(s[1..]); [[s[0]] + rest[0]] + rest[1..]
  }

  function NonEmpty(parts: seq<string>): seq<string> {
    if parts == [] then []
    else (if Trim(parts[0]) != "" then [Trim(parts[0])] else []) + NonEmpty(parts[1..])
  }

  // ---------------------------------------------------------------------------------------------
  // What a parse keeps of a section

  datatype Summary = Summary(target: string, blocks: seq<seq<string>>, anchors: seq<string>,
                             deleted: nat, ops: nat, minLine: Option<nat>, maxLine: Option<nat>)
  {
    function Touch(line: nat): Summary {
      this.(minLine := Some(if minLine.None? then line else Min(minLine.value, line)),
            maxLine := Some(if maxLine.None? then line else Max(maxLine.value, line)))
    }
  }

  function NewSection(target: string): Summary {
    Summary(target, [], [], 0, 0, None, None)
  }

  function PayloadCount(blocks: seq<seq<string>>): nat {
    if blocks == [] then 0 else |blocks[0]| + PayloadCount(blocks[1..])
  }

  /** The stored size of a change: inserted and deleted lines. */
  function ChangeSize(s: Summary): nat {
    PayloadCount(s.blocks) + s.deleted
  }

  predicate IsFileEnd(body: string) { body == "BOF" || body == "EOF" }

  /** What an operation says: the anchors it names, and the line or range it is about. */
  datatype Event =
    | Begin
    | Stop
    | Header(target: string)
    | InsertAt(anchors: seq<string>, line: Option<nat>)
    | ReplaceAt(anchors: seq<string>, range: RangeInfo)
    | Plain

  function ReadInsert(body: string): Event {
    InsertAt(if IsFileEnd(body) then [] else [body], AnchorLine(body))
  }

  function ReadReplace(body: string): Event {
    ReplaceAt(NonEmpty(SplitDots(body)), ParseRange(body))
  }

  function AddInsert(s: Summary, anchors: seq<string>, line: Option<nat>): Summary {
    var t := if line.Some? then s.Touch(line.value) else s;
    t.(anchors := s.anchors + anchors, ops := s.ops + 1, blocks := s.blocks + [[]])
  }

  function WithRange(s: Summary, r: RangeInfo): Summary {
    var t := s.(deleted := s.deleted + r.size);
    if r.lines.Some? then t.Touch(r.lines.value.0).Touch(r.lines.value.1) else t
  }

  function AddReplace(s: Summary, anchors: seq<string>, r: RangeInfo): Summary {
    WithRange(s, r).(anchors := s.anchors + anchors, ops := s.ops + 1, blocks := s.blocks + [[]])
  }

  function AddPayload(s: Summary, line: string): Summary
    requires s.blocks != []
  {
    s.(blocks := s.blocks[|s.blocks| - 1 := s.blocks[|s.blocks| - 1] + [line]])
  }

  /** `open`: a payload block is open, the last one of the current section. */
  datatype State = State(done: seq<Summary>, cur: Option<Summary>, open: bool, stopped: bool)

  const START := State([], None, false, false)

  predicate ValidState(st: State) {
    st.open ==> st.cur.Some? && st.cur.value.blocks != []
  }

  /** A line without its carriage return, and what it is. */
  datatype Line = Line(event: Event, text: string)

  function EventOf(kind: LineKind): Event {
    match kind
    case BeginMarker => Begin
    case StopMarker => Stop
    case HeaderLine(target) => Header(target)
    case InsertLine(body) => ReadInsert(body)
    case ReplaceLine(body) => ReadReplace(body)
    case PlainLine => Plain
  }

  function ReadLine(raw: string): Line {
    var line := DropCr(raw);
    Line(EventOf(Classify(line)), line)
  }

  function ReadLines(raw: seq<string>): (lines: seq<Line>)
    ensures |lines| == |raw|
  {
    if raw == [] then [] else [ReadLine(raw[0])] + ReadLines(raw[1..])
  }

  function Step(st: State, line: Line): (next: State)
    requires ValidState(st)
    ensures ValidState(next)
  {
    match line.event
    case Stop => st.(stopped := true)
    case Begin => st
    case Header(target) => State(Finish(st), Some(NewSection(target)), false, st.stopped)
    case _ =>
      if st.cur.None? then st
      else var fed := Feed(st.cur.value, st.open, line); st.(cur := Some(fed.0), open := fed.1)
  }

  /** An operation opens a payload block; any other line goes into the open block, if there is one. */
  function Feed(s: Summary, open: bool, line: Line): (r: (Summary, bool))
    requires open ==> s.blocks != []
    ensures r.1 ==> r.0.blocks != []
  {
    match line.event
    case InsertAt(anchors, at) => (AddInsert(s, anchors, at), true)
    case ReplaceAt(anchors, range) => (AddReplace(s, anchors, range), true)
    case _ => if open then (AddPayload(s, line.text), true) else (s, false)
  }

  function Run(st: State, lines: seq<Line>): (end: State)
    requires ValidState(st)
    ensures ValidState(end)
    decreases |lines|
  {
    if lines == [] || st.stopped then st else Run(Step(st, lines[0]), lines[1..])
  }

  function Finish(st: State): seq<Summary> {
    st.done + if st.cur.Some? then [st.cur.value] else []
  }

  function Parse(input: string): seq<Summary> {
    Finish(Run(START, ReadLines(SplitLines(input))))
  }

  lemma {:induction false} RunConcat(st: State, a: seq<Line>, b: seq<Line>)
    requires ValidState(st)
    ensures Run(st, a + b) == Run(Run(st, a), b)
    decreases |a|
  {
    if a == [] {
      assert a + b == b;
    } else if !st.stopped {
      assert (a + b)[1..] == a[1..] + b;
      RunConcat(Step(st, a[0]), a[1..], b);
    }
  }

  // ---------------------------------------------------------------------------------------------
  // The parser as it runs: sections are objects that are filled in place

  class EditSection {
    var target: string
    var blocks: seq<seq<string>>
    var anchors: seq<string>
    var deleted: nat
    var ops: nat
    var minLine: Option<nat>
    var maxLine: Option<nat>

    function Value(): Summary
      reads this
    {
      Summary(target, blocks, anchors, deleted, ops, minLine, maxLine)
    }

    constructor (target: string)
      ensures Value() == NewSection(target)
    {
      this.target := target;
      blocks, anchors, deleted, ops, minLine, maxLine := [], [], 0, 0, None, None;
    }

    method Touch(line: nat)
      modifies this`minLine, this`maxLine
      ensures Value() == old(Value()).Touch(line)
    {
      minLine := Some(if minLine.None? then line else Min(minLine.value, line));
      maxLine := Some(if maxLine.None? then line else Max(maxLine.value, line));
    }

    method OpenBlock() returns (index: nat)
      modifies this`blocks
      ensures blocks == old(blocks) + [[]] && index == |blocks| - 1
    {
      blocks := blocks + [[]];
      index := |blocks| - 1;
    }

    method InsertOp(named: seq<string>, line: Option<nat>) returns (open: nat)
      modifies this
      ensures Value() == AddInsert(old(Value()), named, line) && open == |blocks| - 1
    {
      anchors := anchors + named;
      if line.Some? {
        Touch(line.value);
      }
      open := OpenBlock();
      ops := ops + 1;
    }

    method ReplaceOp(named: seq<string>, r: RangeInfo) returns (open: nat)
      modifies this
      ensures Value() == AddReplace(old(Value()), named, r) && open == |blocks| - 1
    {
      deleted := deleted + r.size;
      if r.lines.Some? {
        Touch(r.lines.value.0);
        Touch(r.lines.value.1);
      }
      anchors := anchors + named;
      ops := ops + 1;
      open := OpenBlock();
    }
  }

  function Values(sections: seq<EditSection>): seq<Summary>
    reads sections
  {
    if sections == [] then [] else Values(sections[..|sections| - 1]) + [sections[|sections| - 1].Value()]
  }

  lemma ValuesSnoc(sections: seq<EditSection>, cur: EditSection)
    ensures Values(sections + [cur]) == Values(sections) + [cur.Value()]
  {
    assert (sections + [cur])[..|sections|] == sections;
  }

  method FeedSection(cur: EditSection, open: Option<nat>, line: Line) returns (next: Option<nat>)
    requires open.Some? ==> open.value == |cur.blocks| - 1
    modifies cur
    ensures (cur.Value(), next.Some?) == Feed(old(cur.Value()), open.Some?, line)
    ensures next.Some? ==> next.value == |cur.blocks| - 1
  {
    match line.event
    case InsertAt(anchors, at) =>
      var index := cur.InsertOp(anchors, at);
      next := Some(index);
    case ReplaceAt(anchors, range) =>
      var index := cur.ReplaceOp(anchors, range);
      next := Some(index);
    case _ =>
      next := open;
      if open.Some? {
        cur.blocks := cur.blocks[open.value := cur.blocks[open.value] + [line.text]];
      }
  }

  lemma RunUnfolds(st: State, lines: seq<Line>, i: nat)
    requires ValidState(st) && !st.stopped && i < |lines|
    ensures Run(st, lines[i..]) == Run(Step(st, lines[i]), lines[i + 1..])
  {
    assert lines[i..][0] == lines[i] && lines[i..][1..] == lines[i + 1..];
  }

  lemma StopEnds(st: State, lines: seq<Line>, i: nat)
    requires ValidState(st) && !st.stopped && i < |lines| && lines[i].event.Stop?
    ensures Finish(Run(st, lines[i..])) == Finish(st)
  {
    assert lines[i..][0] == lines[i];
  }

  /** The state the parser's variables stand for. */
  ghost predicate Holds(st: State, sections: seq<EditSection>, cur: EditSection?, open: Option<nat>)
    reads sections, cur
  {
    && ValidState(st) && !st.stopped
    && cur !in sections
    && Values(sections) == st.done
    && st.cur == (if cur == null then None else Some(cur.Value()))
    && st.open == open.Some?
    && (open.Some? ==> open.value == |st.cur.value.blocks| - 1)
  }

  /** A header ends the current section and starts the next one. */
  method StartSection(sections: seq<EditSection>, cur: EditSection?, open: Option<nat>, line: Line, ghost st: State)
    returns (done: seq<EditSection>, now: EditSection)
    requires Holds(st, sections, cur, open) && line.event.Header?
    ensures Holds(Step(st, line), done, now, None)
    ensures done == sections || (cur != null && done == sections + [cur])
    ensures fresh(now)
  {
    done := sections;
    if cur != null {
      ValuesSnoc(sections, cur);
      done := sections + [cur];
    }
    now := new EditSection(line.event.target);
  }

  /** Line `i`, which does not end the parse. */
  method FeedLine(sections: seq<EditSection>, cur: EditSection?, open: Option<nat>,
                  lines: seq<Line>, i: nat, ghost st: State)
    returns (done: seq<EditSection>, now: EditSection?, block: Option<nat>, ghost next: State)
    requires Holds(st, sections, cur, open) && i < |lines| && !lines[i].event.Stop?
    modifies if cur == null then {} else {cur}
    ensures Holds(next, done, now, block) && Run(st, lines[i..]) == Run(next, lines[i + 1..])
    ensures done == sections || (cur != null && done == sections + [cur])
    ensures now == cur || fresh(now)
  {
    var line := lines[i];
    RunUnfolds(st, lines, i);
    next := Step(st, line);
    done, now, block := sections, cur, open;
    if line.event.Begin? {
      return;
    }
    if line.event.Header? {
      done, now := StartSection(sections, cur, open, line, st);
      block := None;
      return;
    }
    if cur == null {
      return;
    }
    block := FeedSection(cur, open, line);
  }

  method ParseHashlineInput(input: string) returns (sections: seq<EditSection>)
    ensures fresh(sections) && Values(sections) == Parse(input)
  {
    sections := CollectSections(ReadLines(SplitLines(input)));
  }

  method CollectSections(lines: seq<Line>) returns (sections: seq<EditSection>)
    ensures fresh(sections) && Values(sections) == Finish(Run(START, lines))
  {
    sections := [];
    var cur: EditSection? := null;
    var open: Option<nat> := None;
    ghost var st := START;
    for i := 0 to |lines|
      invariant Holds(st, sections, cur, open)
      invariant Finish(Run(START, lines)) == Finish(Run(st, lines[i..]))
      invariant fresh(sections) && (cur != null ==> fresh(cur))
    {
      if lines[i].event.Stop? {
        StopEnds(st, lines, i);
        break;
      }
      sections, cur, open, st := FeedLine(sections, cur, open, lines, i, st);
    }
    if cur != null {
      ValuesSnoc(sections, cur);
      sections := sections + [cur];
    }
  }
}
