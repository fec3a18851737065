/** What the parser says about a text as a whole: whether it is usable, and why not. */
module BoundaryOutcome {
  import opened Numbers
  import opened Text
  import opened TextLines
  import opened Boundary
  import F = BoundaryForms
  import L = BoundaryLines

  /** A line behind the kept ones that is read as an insert. */
  predicate TakesInsert(kept: State, span: Span) {
    && kept.sections != [] && span.look.kind.Insert? && !span.look.blank && !(kept.allowed && !span.look.lead)
  }

  lemma RunSnoc(spans: seq<Span>, n: nat, k: nat)
    requires n + 1 == |spans| && k <= n
    ensures Run(spans) == Step(Run(spans[..n]), spans[n]) && spans[..k] == spans[..n][..k]
  {
  }

  lemma StepNeeds(st: State, span: Span)
    requires Settled(st)
    ensures Step(st, span).needs <==> TakesInsert(st, span)
  {
  }

  /** An insert is left without payload exactly if it is the first line that is not kept. */
  lemma {:induction false} NeedsIff(spans: seq<Span>)
    ensures Run(spans).needs
            <==> Kept(spans) < |spans| && TakesInsert(Run(spans[..Kept(spans)]), spans[Kept(spans)])
  {
    if spans != [] {
      var n := |spans| - 1;
      var before := spans[..n];
      NeedsIff(before);
      KeptPart(before);
      KeptPart(spans);
      RunSnoc(spans, n, Kept(before));
      if Settled(Run(before)) {
        SettledIsKept(before);
        StepNeeds(Run(before), spans[n]);
        assert before[..n] == before;
      } else if Waiting(Run(before)) {
        StepFromWaiting(Run(before), spans[n]);
      }
    }
  }

  lemma SettledIsKept(spans: seq<Span>)
    requires Settled(Run(spans))
    ensures Kept(spans) == |spans|
  {
    assert spans[..|spans|] == spans;
    KeptIsLongest(spans, |spans|);
  }

  lemma StepLine(st: State, span: Span)
    ensures Step(st, span).lineNo == st.lineNo + if st.stopped then 0 else 1
    ensures st.stopped ==> Step(st, span) == st
  {
  }

  /** The lines read: the kept ones, and those up to the one that ended the parse. */
  lemma {:induction false} LinesRead(spans: seq<Span>)
    ensures !Run(spans).stopped ==> Run(spans).lineNo == |spans|
    ensures Run(spans).stopped ==> Run(spans).lineNo == Kept(spans) + (if Run(spans).needs then 2 else 1) <= |spans|
  {
    if spans != [] {
      var n := |spans| - 1;
      var before := spans[..n];
      LinesRead(before);
      KeptPart(before);
      RunSnoc(spans, n, 0);
      StepLine(Run(before), spans[n]);
      if Settled(Run(before)) {
        SettledIsKept(before);
        StepFromSettled(Run(before), spans[n]);
      } else if Waiting(Run(before)) {
        StepFromWaiting(Run(before), spans[n]);
      }
    }
  }

  predicate AnyHeader(spans: seq<Span>) {
    exists i | 0 <= i < |spans| :: spans[i].look.kind.FileHeader?
  }

  predicate NoBlankHeader(spans: seq<Span>) {
    forall i | 0 <= i < |spans| :: spans[i].look.kind.FileHeader? ==> !spans[i].look.blank
  }

  lemma StepSections(st: State, span: Span)
    requires !Step(st, span).stopped && (span.look.kind.FileHeader? ==> !span.look.blank)
    ensures Step(st, span).sections != [] <==> st.sections != [] || span.look.kind.FileHeader?
    ensures !st.stopped
  {
  }

  lemma {:induction false} SectionsIff(spans: seq<Span>)
    requires !Run(spans).stopped && NoBlankHeader(spans)
    ensures Run(spans).sections != [] <==> AnyHeader(spans)
  {
    if spans != [] {
      var n := |spans| - 1;
      RunSnoc(spans, n, 0);
      StepSections(Run(spans[..n]), spans[n]);
      SectionsIff(spans[..n]);
      assert spans[n].look.kind.FileHeader? ==> AnyHeader(spans);
      assert AnyHeader(spans[..n]) ==> AnyHeader(spans);
    }
  }

  // ---------------------------------------------------------------------------------------------
  // The lines of a text

  predicate TextLike(look: Look) {
    (look.kind.FileHeader? ==> !look.blank) && (look.kind.Insert? ==> look.lead && !look.blank)
  }

  lemma LooksTextLike(raw: string)
    ensures TextLike(LookAt(raw))
  {
    L.LookIs(raw);
    L.OpLineKind(raw);
    assert raw != "" ==> raw[0] in raw;
  }

  lemma {:induction false} SpansTextLike(look: string -> Look, lines: seq<string>, pos: nat)
    requires forall raw :: TextLike(look(raw))
    ensures forall span | span in Spans(look, lines, pos) :: TextLike(span.look)
    decreases |lines|
  {
    if lines != [] {
      SpansTextLike(look, lines[1..], pos + |lines[0]|);
    }
  }

  ghost predicate IsVerdict(p: Outcome, spans: seq<Span>) {
    var k := Kept(spans);
    && (p.ok <==> AnyHeader(spans[..k]))
    && (p.reason == MissingPayload <==> p.ok && k < |spans| && spans[k].look.kind.Insert?)
    && (p.reason == NoPrefix <==> !p.ok)
    && p.lineNo == if k == |spans| then k else if p.reason == MissingPayload then Min(k + 2, |spans|) else k + 1
  }

  lemma VerdictOnSpans(spans: seq<Span>)
    requires forall span | span in spans :: TextLike(span.look)
    requires Kept(spans) > 0 ==> EndOf(spans, Kept(spans)) > 0
    ensures IsVerdict(Result(Run(spans)), spans)
  {
    var k := Kept(spans);
    assert forall i | 0 <= i < |spans| :: spans[i] in spans;
    KeptPart(spans);
    SectionsIff(spans[..k]);
    NeedsIff(spans);
    LinesRead(spans);
    assert spans[..|spans|] == spans;
  }

  lemma EndIsPositive(text: string, k: nat)
    requires k <= |SplitKeep(text)|
    ensures LinesEnd(text, k) > 0 <==> k > 0
  {
  }

  /** The verdict on a text: it is usable exactly if one of the kept lines is a header; an insert lacks its
      payload exactly if it is the first line that is not kept, below a header. The line number is that
      of the line that ended the parse. */
  lemma VerdictIs(text: string)
    ensures IsVerdict(Parse(text), Spans(LookAt, SplitKeep(text), 0))
  {
    var spans := Spans(LookAt, SplitKeep(text), 0);
    forall raw ensures TextLike(LookAt(raw)) {
      LooksTextLike(raw);
    }
    SpansTextLike(LookAt, SplitKeep(text), 0);
    CutSpans(LookAt, text, Kept(spans));
    EndIsPositive(text, Kept(spans));
    VerdictOnSpans(spans);
  }

  /** A text is handed to the parser of the older format exactly if no section was found in it and three
      hyphens are the first of it that is no white space. */
  lemma LegacyIff(text: string)
    ensures IsLegacy(text) <==> Parse(text).sections == [] && exists k: nat :: StartsAt(text, k, "---")
  {
    StartIff(text, "---");
    assert LEGACY == "---";
  }
}
