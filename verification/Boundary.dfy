/** How far an edit input is complete: the parser that decides where a polluted input may be cut. */
module Boundary {
  import opened Numbers
  import Records
  import opened Text
  import opened TextLines
  import H = Hashline

  const UPDATE_FILE := "*** Update File:"
  const LEGACY := "---"

  // ---------------------------------------------------------------------------------------------
  // Lines

  datatype Kind =
    | BeginMark
    | EndMark
    | FileHeader(target: string)
    | Insert
    | Replace(size: nat)
    | Other

  /** What the parser looks at in a line. */
  datatype Look = Look(kind: Kind, blank: bool, lead: bool)

  /** ... and where the line ends in the text. */
  datatype Span = Span(look: Look, end: nat)

  /** `raw.rstrip("\r\n")` */
  function Chop(raw: string): string {
    if raw != "" && (raw[|raw| - 1] == '\r' || raw[|raw| - 1] == '\n') then Chop(raw[..|raw| - 1]) else raw
  }

  predicate IsMark(line: string, mark: string) {
    mark <= line && IsBlank(line[|mark|..])
  }

  predicate IsLetter(c: char) {
    'a' <= c <= 'z' || 'A' <= c <= 'Z'
  }

  /** The length of the anchor at the front: a line number without leading zero and two letters. */
  function AnchorLength(s: string): (n: nat)
    ensures n <= |s| && (n > 0 ==> H.DigitRun(s) == n - 2)
  {
    var d := H.DigitRun(s);
    if d > 0 && s[0] != '0' && d + 2 <= |s| && IsLetter(s[d]) && IsLetter(s[d + 1]) then d + 2 else 0
  }

  predicate IsAnchor(s: string) {
    s != "" && AnchorLength(s) == |s|
  }

  function LineOf(anchor: string): nat {
    H.Value(anchor[..H.DigitRun(anchor)])
  }

  /** The second anchor of a range, or the only one. */
  function RangeEnd(body: string): string {
    var n := AnchorLength(body);
    if n == |body| || !(".." <= body[n..]) then body else body[n + 2..]
  }

  predicate IsRange(body: string) {
    var n := AnchorLength(body);
    n > 0 && (n == |body| || (".." <= body[n..] && IsAnchor(body[n + 2..])))
  }

  function RangeSize(body: string): nat {
    Max(1, LineOf(RangeEnd(body)) - LineOf(body) + 1)
  }

  function KindOf(line: string): Kind {
    if IsMark(line, H.BEGIN_PATCH) then BeginMark
    else if IsMark(line, H.END_PATCH) then EndMark
    else if line == "" then Other
    else if line[0] == H.SECTION then FileHeader(Trim(H.DropSections(line)))
    else if UPDATE_FILE <= line then UpdateHeader(line[|UPDATE_FILE|..])
    else OpKind(line[0], Trim(line[1..]))
  }

  /** At least one space, then a name. */
  function UpdateHeader(name: string): Kind {
    if name != "" && IsSpace(name[0]) && Trim(name) != "" then FileHeader(Trim(name)) else Other
  }

  function OpKind(sign: char, body: string): Kind {
    if (sign == H.BEFORE || sign == H.AFTER) && (H.IsFileEnd(body) || IsAnchor(body)) then Insert
    else if sign == H.REPLACE && IsRange(body) then Replace(RangeSize(body))
    else Other
  }

  function LookAt(raw: string): Look {
    var line := Chop(raw);
    Look(KindOf(line), Trim(line) == "", line != "" && (H.IsSign(line[0]) || line[0] == H.SECTION))
  }

  /** `line_spans`, from position `pos` */
  function Spans(look: string -> Look, lines: seq<string>, pos: nat): (spans: seq<Span>)
    ensures |spans| == |lines|
  {
    if lines == [] then []
    else [Span(look(lines[0]), pos + |lines[0]|)] + Spans(look, lines[1..], pos + |lines[0]|)
  }

  lemma {:induction false} SpansConcat(look: string -> Look, a: seq<string>, b: seq<string>, pos: nat)
    ensures Spans(look, a + b, pos) == Spans(look, a, pos) + Spans(look, b, pos + |Records.Flatten(a)|)
  {
    if a == [] {
      assert a + b == b;
    } else {
      assert (a + b)[1..] == a[1..] + b;
      SpansConcat(look, a[1..], b, pos + |a[0]|);
    }
  }

  lemma {:induction false} SpansPrefix(look: string -> Look, a: seq<string>, b: seq<string>, pos: nat)
    ensures Spans(look, a + b, pos)[..|a|] == Spans(look, a, pos)
  {
    if a == [] {
    } else {
      assert (a + b)[1..] == a[1..] + b;
      SpansPrefix(look, a[1..], b, pos + |a[0]|);
    }
  }

  lemma {:induction false} SpanEnd(look: string -> Look, text: string, pos: nat, k: nat)
    requires k < |SplitKeep(text)|
    ensures Spans(look, SplitKeep(text), pos)[k].end == pos + LinesEnd(text, k + 1)
  {
    var l, rest := PeelLine(text);
    assert SplitKeep(text) == [l] + SplitKeep(rest);
    assert LinesEnd(text, k + 1) == |l| + LinesEnd(rest, k);
    if k > 0 {
      SpanEnd(look, rest, pos + |l|, k - 1);
    }
  }

  // ---------------------------------------------------------------------------------------------
  // The state machine

  datatype Section = Section(target: string, ops: nat, payload: nat, deleted: nat)

  datatype State = State(sections: seq<Section>, parsedEnd: nat, lineNo: nat,
                         needs: bool, allowed: bool, saw: bool, seen: bool, stopped: bool)

  const START := State([], 0, 0, false, false, false, false, false)

  /** Adds to the counts of the current section. */
  function Count(sections: seq<Section>, ops: nat, payload: nat, deleted: nat): seq<Section> {
    if sections == [] then []
    else
      var cur := sections[|sections| - 1];
      sections[|sections| - 1 := Section(cur.target, cur.ops + ops, cur.payload + payload, cur.deleted + deleted)]
  }

  /** An insert has no payload so far. */
  predicate Missing(st: State) { st.needs && !st.saw }

  function Stop(st: State): State { st.(stopped := true) }

  function Step(st: State, span: Span): State {
    if st.stopped then st
    else if !st.seen && span.look.blank then st.(lineNo := st.lineNo + 1, parsedEnd := span.end)
    else ReadLine(st.(lineNo := st.lineNo + 1, seen := true), span)
  }

  function ReadLine(st: State, span: Span): State {
    if span.look.kind.BeginMark? || span.look.kind.EndMark? then
      if Missing(st) then Stop(st) else st.(parsedEnd := span.end, allowed := false)
    else if span.look.kind.FileHeader? then
      if Missing(st) then Stop(st)
      else st.(sections := st.sections + [Section(span.look.kind.target, 0, 0, 0)], parsedEnd := span.end,
               needs := false, allowed := false, saw := false)
    else if st.sections == [] then Stop(st)
    else ReadBody(st, span)
  }

  function ReadBody(st: State, span: Span): State {
    if st.allowed && !span.look.lead then
      st.(sections := Count(st.sections, 0, 1, 0), parsedEnd := span.end, saw := true, needs := false)
    else if span.look.blank then
      if Missing(st) then Stop(st)
      else st.(parsedEnd := span.end, allowed := false, needs := false, saw := false)
    else if Missing(st) then Stop(st)
    else if span.look.kind.Insert? then
      st.(sections := Count(st.sections, 1, 0, 0), needs := true, allowed := true, saw := false)
    else if span.look.kind.Replace? then
      st.(sections := Count(st.sections, 1, 0, span.look.kind.size), parsedEnd := span.end,
          needs := false, allowed := true, saw := false)
    else Stop(st)
  }

  function Run(spans: seq<Span>): State {
    if spans == [] then START else Step(Run(spans[..|spans| - 1]), spans[|spans| - 1])
  }

  datatype Reason = Complete | NoPrefix | MissingPayload

  datatype Outcome = Outcome(ok: bool, parsedEnd: nat, reason: Reason, sections: seq<Section>, lineNo: nat)

  function Result(st: State): Outcome {
    Outcome(st.parsedEnd > 0 && st.sections != [], st.parsedEnd,
            if Missing(st) then MissingPayload
            else if st.parsedEnd > 0 && st.sections != [] then Complete else NoPrefix,
            st.sections, st.lineNo)
  }

  /** The parse of a text, as far as it is not handed to the parser of the older format. */
  function Parse(text: string): Outcome {
    Result(Run(Spans(LookAt, SplitKeep(text), 0)))
  }

  predicate IsLegacy(text: string) {
    Parse(text).sections == [] && LEGACY <= TrimLeft(text)
  }

  function ParseEdit(text: string, legacy: string -> Outcome): Outcome {
    if IsLegacy(text) then legacy(text) else Parse(text)
  }

  // ---------------------------------------------------------------------------------------------
  // The kept part

  /** The number of lines up to the kept end. */
  function Kept(spans: seq<Span>): (k: nat)
    ensures k <= |spans|
  {
    if spans == [] then 0
    else
      var n, st := |spans| - 1, Run(spans);
      if st.stopped then Kept(spans[..n]) else if st.needs then n else n + 1
  }

  /** The end of the `k`-th line. */
  function EndOf(spans: seq<Span>, k: nat): nat
    requires k <= |spans|
  {
    if k == 0 then 0 else spans[k - 1].end
  }

  /** Everything read is complete. */
  predicate Settled(st: State) { !st.stopped && !st.needs }

  /** The last line is an insert without payload. */
  predicate Waiting(st: State) { !st.stopped && st.seen && st.needs && !st.saw && st.allowed && st.sections != [] }

  lemma StepFromSettled(st: State, span: Span)
    requires Settled(st)
    ensures var next := Step(st, span);
            && (next.stopped ==> next.parsedEnd == st.parsedEnd && next.sections == st.sections && !next.needs)
            && (!next.stopped && next.needs ==> Waiting(next))
            && (!next.stopped && next.needs ==> next.parsedEnd == st.parsedEnd)
            && (!next.stopped && next.needs ==> next.sections == Count(st.sections, 1, 0, 0))
            && (!next.stopped && !next.needs ==> next.parsedEnd == span.end)
  {
  }

  lemma StepFromWaiting(st: State, span: Span)
    requires Waiting(st)
    ensures var next := Step(st, span);
            if next.stopped then
              next.parsedEnd == st.parsedEnd && next.sections == st.sections && next.needs && !next.saw
            else next.parsedEnd == span.end && !next.needs
  {
  }

  /** The sections of a run, from those of its complete part. */
  function WithPending(sections: seq<Section>, pending: bool): seq<Section> {
    if pending then Count(sections, 1, 0, 0) else sections
  }

  /** The lines up to the kept end are a complete parse with the same sections, except that an
      insert without payload has been counted. */
  lemma {:induction false} KeptPart(spans: seq<Span>)
    ensures var st, kept := Run(spans), Run(spans[..Kept(spans)]);
            && Settled(kept) && kept.parsedEnd == EndOf(spans, Kept(spans))
            && st.parsedEnd == kept.parsedEnd && st.sections == WithPending(kept.sections, st.needs)
            && (st.needs ==> !st.saw && kept.sections != [])
            && (Settled(st) || Waiting(st) || st.stopped)
  {
    if spans == [] {
      assert spans[..0] == spans;
    } else {
      var n := |spans| - 1;
      var before, last := spans[..n], spans[n];
      KeptPart(before);
      assert Run(spans) == Step(Run(before), last);
      assert spans[..n + 1] == spans && forall k | 0 <= k <= n :: spans[..k] == before[..k];
      if Settled(Run(before)) {
        StepFromSettled(Run(before), last);
      } else if Waiting(Run(before)) {
        StepFromWaiting(Run(before), last);
      }
    }
  }

  /** No longer run of lines is complete: the kept part is the longest. */
  lemma {:induction false} KeptIsLongest(spans: seq<Span>, k: nat)
    requires k <= |spans| && Settled(Run(spans[..k]))
    ensures k <= Kept(spans)
  {
    var n := |spans| - 1;
    if k < |spans| {
      assert spans[..k] == spans[..n][..k];
      KeptIsLongest(spans[..n], k);
    } else {
      assert spans[..k] == spans;
    }
  }

  lemma CutSpans(look: string -> Look, text: string, k: nat)
    requires k <= |SplitKeep(text)|
    ensures var spans, end := Spans(look, SplitKeep(text), 0), LinesEnd(text, k);
            && EndOf(spans, k) == end && IsLineEnd(text, end)
            && Spans(look, SplitKeep(text[..end]), 0) == spans[..k]
  {
    var lines := SplitKeep(text);
    if k > 0 {
      SpanEnd(look, text, 0, k - 1);
    }
    LinesEndIsLineEnd(text, k);
    CutLines(text, k);
    SpansPrefix(look, lines[..k], lines[k..], 0);
    assert lines[..k] + lines[k..] == lines;
  }

  // ---------------------------------------------------------------------------------------------
  // The totals of a parse

  function TotalOps(sections: seq<Section>): nat {
    if sections == [] then 0 else TotalOps(sections[..|sections| - 1]) + sections[|sections| - 1].ops
  }

  function TotalPayload(sections: seq<Section>): nat {
    if sections == [] then 0 else TotalPayload(sections[..|sections| - 1]) + sections[|sections| - 1].payload
  }

  function TotalDeleted(sections: seq<Section>): nat {
    if sections == [] then 0 else TotalDeleted(sections[..|sections| - 1]) + sections[|sections| - 1].deleted
  }

  function Targets(sections: seq<Section>): seq<string> {
    if sections == [] then [] else Targets(sections[..|sections| - 1]) + [sections[|sections| - 1].target]
  }

  lemma {:induction false} CountTotals(sections: seq<Section>, ops: nat, payload: nat, deleted: nat)
    requires sections != []
    ensures var more := Count(sections, ops, payload, deleted);
            && TotalOps(more) == TotalOps(sections) + ops && TotalPayload(more) == TotalPayload(sections) + payload
            && TotalDeleted(more) == TotalDeleted(sections) + deleted && Targets(more) == Targets(sections)
  {
    var more := Count(sections, ops, payload, deleted);
    assert more[..|more| - 1] == sections[..|sections| - 1];
  }

  // ---------------------------------------------------------------------------------------------
  // Cutting and parsing again

  /** `again` is what a parse of the kept text gives. */
  ghost predicate StableUnder(p: Outcome, again: Outcome) {
    && again.parsedEnd == p.parsedEnd && again.ok == p.ok && again.reason != MissingPayload
    && Targets(again.sections) == Targets(p.sections)
    && TotalPayload(again.sections) == TotalPayload(p.sections)
    && TotalDeleted(again.sections) == TotalDeleted(p.sections)
    && TotalOps(p.sections) == TotalOps(again.sections) + (if p.reason.MissingPayload? then 1 else 0)
  }

  lemma RunOfKept(spans: seq<Span>)
    ensures StableUnder(Result(Run(spans)), Result(Run(spans[..Kept(spans)])))
    ensures Run(spans).sections == [] <==> Run(spans[..Kept(spans)]).sections == []
  {
    KeptPart(spans);
    var kept := Run(spans[..Kept(spans)]);
    if Run(spans).needs {
      CountTotals(kept.sections, 1, 0, 0);
    }
  }

  lemma {:induction false} TrimLeftOfPrefix(s: string, n: nat)
    requires n <= |s| && TrimLeft(s[..n]) != ""
    ensures TrimLeft(s[..n]) <= TrimLeft(s)
  {
    if n > 0 && IsSpace(s[0]) {
      assert s[..n][1..] == s[1..][..n - 1];
      TrimLeftOfPrefix(s[1..], n - 1);
    }
  }

  /** The kept end is a line end, and parsing the text cut there gives the same end and sections,
      except that an insert without payload is gone. */
  lemma CutIsStable(text: string, legacy: string -> Outcome)
    requires !IsLegacy(text)
    ensures var p := ParseEdit(text, legacy);
            && p.parsedEnd <= |text| && IsLineEnd(text, p.parsedEnd)
            && !IsLegacy(text[..p.parsedEnd])
            && StableUnder(p, ParseEdit(text[..p.parsedEnd], legacy))
  {
    var spans := Spans(LookAt, SplitKeep(text), 0);
    var k := Kept(spans);
    KeptPart(spans);
    RunOfKept(spans);
    CutSpans(LookAt, text, k);
    var end := Parse(text).parsedEnd;
    if Parse(text).sections == [] && TrimLeft(text[..end]) != "" {
      TrimLeftOfPrefix(text, end);
    }
  }

  // ---------------------------------------------------------------------------------------------
  // More lines

  predicate Grown(s: Section, t: Section) {
    t.target == s.target && t.ops >= s.ops && t.payload >= s.payload && t.deleted >= s.deleted
  }

  /** The same sections, the last one with no less in it, and perhaps more. */
  predicate Extends(a: seq<Section>, b: seq<Section>) {
    && |a| <= |b|
    && (forall i | 0 <= i < |a| - 1 :: b[i] == a[i])
    && (a != [] ==> Grown(a[|a| - 1], b[|a| - 1]))
  }

  lemma CountExtends(a: seq<Section>, ops: nat, payload: nat, deleted: nat)
    ensures Extends(a, Count(a, ops, payload, deleted))
  {
  }

  lemma NewExtends(a: seq<Section>, target: string)
    ensures Extends(a, a + [Section(target, 0, 0, 0)]) && Extends(a, a)
  {
  }

  lemma BodyExtends(st: State, span: Span)
    ensures Extends(st.sections, ReadBody(st, span).sections)
  {
    NewExtends(st.sections, "");
    CountExtends(st.sections, 1, 0, 0);
    CountExtends(st.sections, 0, 1, 0);
    if span.look.kind.Replace? {
      CountExtends(st.sections, 1, 0, span.look.kind.size);
    }
  }

  lemma StepExtends(st: State, span: Span)
    ensures Extends(st.sections, Step(st, span).sections)
  {
    var next := st.(lineNo := st.lineNo + 1, seen := true);
    NewExtends(st.sections, "");
    BodyExtends(next, span);
    if span.look.kind.FileHeader? {
      NewExtends(st.sections, span.look.kind.target);
    }
  }

  lemma StepEnd(st: State, span: Span)
    ensures Step(st, span).parsedEnd == st.parsedEnd || Step(st, span).parsedEnd == span.end
  {
  }

  predicate Rising(spans: seq<Span>) {
    forall i, j | 0 <= i < j < |spans| :: spans[i].end <= spans[j].end
  }

  lemma {:induction false} SpansRise(look: string -> Look, lines: seq<string>, pos: nat)
    ensures var spans := Spans(look, lines, pos);
            Rising(spans) && forall i | 0 <= i < |spans| :: pos <= spans[i].end
  {
    if lines != [] {
      SpansRise(look, lines[1..], pos + |lines[0]|);
    }
  }

  lemma EndsBelow(spans: seq<Span>)
    requires spans != [] && Rising(spans)
    ensures Run(spans[..|spans| - 1]).parsedEnd <= spans[|spans| - 1].end
  {
    var before := spans[..|spans| - 1];
    KeptPart(before);
    assert Kept(before) > 0 ==> before[Kept(before) - 1] == spans[Kept(before) - 1];
  }

  lemma ExtendsTransitive(a: seq<Section>, b: seq<Section>, c: seq<Section>)
    requires Extends(a, b) && Extends(b, c)
    ensures Extends(a, c)
  {
  }

  /** A stopped parse is over; more lines only add to the sections of a parse. */
  lemma {:induction false} RunExtends(a: seq<Span>, b: seq<Span>)
    ensures Run(a).stopped ==> Run(a + b) == Run(a)
    ensures Extends(Run(a).sections, Run(a + b).sections)
  {
    if b == [] {
      assert a + b == a;
      NewExtends(Run(a).sections, "");
    } else {
      var before, last := b[..|b| - 1], b[|b| - 1];
      assert (a + b)[..|a + b| - 1] == a + before;
      RunExtends(a, before);
      var st := Run(a + before);
      assert Run(a + b) == Step(st, last);
      StepExtends(st, last);
      ExtendsTransitive(Run(a).sections, st.sections, Step(st, last).sections);
    }
  }

  lemma {:induction false} EndRises(spans: seq<Span>, k: nat)
    requires k <= |spans| && Rising(spans)
    ensures Run(spans[..k]).parsedEnd <= Run(spans).parsedEnd
  {
    if k == |spans| {
      assert spans[..k] == spans;
    } else {
      var before, last := spans[..|spans| - 1], spans[|spans| - 1];
      assert spans[..k] == before[..k];
      EndRises(before, k);
      StepEnd(Run(before), last);
      EndsBelow(spans);
    }
  }

  lemma AppendedSpans(look: string -> Look, text: string, more: string)
    requires BreakBetween(text, more)
    ensures var a, ab := Spans(look, SplitKeep(text), 0), Spans(look, SplitKeep(text + more), 0);
            |a| <= |ab| && ab[..|a|] == a && Rising(ab)
  {
    SplitConcat(text, more);
    SpansPrefix(look, SplitKeep(text), SplitKeep(more), 0);
    SpansRise(look, SplitKeep(text + more), 0);
  }

  lemma RunOfMore(a: seq<Span>, ab: seq<Span>)
    requires |a| <= |ab| && ab[..|a|] == a && Rising(ab)
    ensures Run(a).stopped ==> Run(ab) == Run(a)
    ensures Run(a).parsedEnd <= Run(ab).parsedEnd && Extends(Run(a).sections, Run(ab).sections)
  {
    RunExtends(a, ab[|a|..]);
    assert a + ab[|a|..] == ab;
    EndRises(ab, |a|);
  }

  /** The parse of a text ends at a bad line, before its end. */
  predicate StopsEarly(text: string) {
    Run(Spans(LookAt, SplitKeep(text), 0)).stopped
  }

  /** Lines appended to the text never lower the kept end or change what is behind it, and change
      nothing once the parse has stopped. */
  lemma AppendedLines(text: string, more: string)
    requires BreakBetween(text, more)
    ensures var p, q := Parse(text), Parse(text + more);
            && p.parsedEnd <= q.parsedEnd && Extends(p.sections, q.sections)
            && (StopsEarly(text) ==> q == p)
  {
    AppendedSpans(LookAt, text, more);
    RunOfMore(Spans(LookAt, SplitKeep(text), 0), Spans(LookAt, SplitKeep(text + more), 0));
  }
}
