/** Well-formed edit inputs are accepted to their end, with the counts they have. */
module BoundaryForms {
  import opened Boundary
  import Records

  /** An operation: its line, and the payload lines below. */
  datatype Op = Op(head: Span, payload: seq<Span>)

  datatype File = File(head: Span, ops: seq<Op>)

  function OpSpans(op: Op): seq<Span> {
    [op.head] + op.payload
  }

  function OpsSpans(ops: seq<Op>): seq<Span> {
    if ops == [] then [] else OpSpans(ops[0]) + OpsSpans(ops[1..])
  }

  function FileSpans(file: File): seq<Span> {
    [file.head] + OpsSpans(file.ops)
  }

  function FilesSpans(files: seq<File>): seq<Span> {
    if files == [] then [] else FileSpans(files[0]) + FilesSpans(files[1..])
  }

  predicate IsPayload(look: Look) {
    !look.lead && !look.kind.BeginMark? && !look.kind.EndMark? && !look.kind.FileHeader?
  }

  predicate AllPayload(spans: seq<Span>) {
    spans != [] ==> IsPayload(spans[0].look) && AllPayload(spans[1..])
  }

  /** An insert has payload. */
  predicate GoodOp(op: Op) {
    && op.head.look.lead && !op.head.look.blank
    && (op.head.look.kind.Insert? || op.head.look.kind.Replace?)
    && AllPayload(op.payload) && (op.head.look.kind.Insert? ==> op.payload != [])
  }

  predicate AllGood(ops: seq<Op>) {
    ops != [] ==> GoodOp(ops[0]) && AllGood(ops[1..])
  }

  predicate GoodFile(file: File) {
    file.head.look.kind.FileHeader? && !file.head.look.blank && AllGood(file.ops)
  }

  predicate AllGoodFiles(files: seq<File>) {
    files != [] ==> GoodFile(files[0]) && AllGoodFiles(files[1..])
  }

  function OpDeleted(op: Op): nat {
    if op.head.look.kind.Replace? then op.head.look.kind.size else 0
  }

  function Deleted(ops: seq<Op>): nat {
    if ops == [] then 0 else OpDeleted(ops[0]) + Deleted(ops[1..])
  }

  function Payload(ops: seq<Op>): nat {
    if ops == [] then 0 else |ops[0].payload| + Payload(ops[1..])
  }

  function FileCounts(file: File): Section
    requires file.head.look.kind.FileHeader?
  {
    Section(file.head.look.kind.target, |file.ops|, Payload(file.ops), Deleted(file.ops))
  }

  function Counts(files: seq<File>): seq<Section>
    requires AllGoodFiles(files)
  {
    if files == [] then [] else [FileCounts(files[0])] + Counts(files[1..])
  }

  lemma OpsCons(op: Op, rest: seq<Op>)
    ensures OpsSpans([op] + rest) == OpSpans(op) + OpsSpans(rest)
    ensures AllGood([op] + rest) <==> GoodOp(op) && AllGood(rest)
    ensures Payload([op] + rest) == |op.payload| + Payload(rest)
    ensures Deleted([op] + rest) == OpDeleted(op) + Deleted(rest)
  {
    assert ([op] + rest)[1..] == rest;
  }

  lemma FilesCons(file: File, rest: seq<File>)
    ensures FilesSpans([file] + rest) == FileSpans(file) + FilesSpans(rest)
    ensures AllGoodFiles([file] + rest) <==> GoodFile(file) && AllGoodFiles(rest)
    ensures AllGoodFiles([file] + rest) ==> Counts([file] + rest) == [FileCounts(file)] + Counts(rest)
  {
    assert ([file] + rest)[1..] == rest;
  }

  // ---------------------------------------------------------------------------------------------
  // The run, line by line from the front

  function RunFrom(st: State, spans: seq<Span>): State
    decreases |spans|
  {
    if spans == [] then st else RunFrom(Step(st, spans[0]), spans[1..])
  }

  lemma {:induction false} RunFromConcat(st: State, a: seq<Span>, b: seq<Span>)
    ensures RunFrom(st, a + b) == RunFrom(RunFrom(st, a), b)
    decreases |a|
  {
    if a == [] {
      assert a + b == b;
    } else {
      assert (a + b)[1..] == a[1..] + b;
      RunFromConcat(Step(st, a[0]), a[1..], b);
    }
  }

  lemma {:induction false} RunFromStart(spans: seq<Span>)
    ensures RunFrom(START, spans) == Run(spans)
  {
    if spans != [] {
      var n := |spans| - 1;
      RunFromStart(spans[..n]);
      RunFromConcat(START, spans[..n], spans[n..]);
      assert spans[..n] + spans[n..] == spans;
      assert RunFrom(Run(spans[..n]), spans[n..]) == RunFrom(Step(Run(spans[..n]), spans[n]), []);
    }
  }

  // ---------------------------------------------------------------------------------------------
  // Accepted

  predicate InFile(st: State) { !st.stopped && st.seen && st.sections != [] }

  lemma CountTwice(s: seq<Section>, o: nat, p: nat, d: nat, o': nat, p': nat, d': nat)
    ensures Count(Count(s, o, p, d), o', p', d') == Count(s, o + o', p + p', d + d')
    ensures Count(s, 0, 0, 0) == s
  {
  }

  lemma PayloadStep(st: State, span: Span, next: State)
    requires InFile(st) && st.allowed && IsPayload(span.look) && next == Step(st, span)
    ensures InFile(next) && next.sections == Count(st.sections, 0, 1, 0) && !next.needs && next.allowed
  {
  }

  lemma {:induction false} PayloadRun(st: State, payload: seq<Span>)
    requires AllPayload(payload) && InFile(st) && st.allowed
    ensures var next := RunFrom(st, payload);
            && InFile(next) && next.sections == Count(st.sections, 0, |payload|, 0)
            && next.needs == (st.needs && payload == [])
    decreases |payload|
  {
    if payload == [] {
      CountTwice(st.sections, 0, 0, 0, 0, 0, 0);
    } else {
      var next := Step(st, payload[0]);
      PayloadStep(st, payload[0], next);
      PayloadRun(next, payload[1..]);
      CountTwice(st.sections, 0, 1, 0, 0, |payload| - 1, 0);
    }
  }

  lemma OpStep(st: State, op: Op, next: State)
    requires InFile(st) && !st.needs && GoodOp(op) && next == Step(st, op.head)
    ensures InFile(next) && next.sections == Count(st.sections, 1, 0, OpDeleted(op))
    ensures next.needs == op.head.look.kind.Insert? && next.allowed
  {
  }

  /** An operation leads to a state from which the rest is read. */
  lemma OpRun(st: State, op: Op, rest: seq<Span>) returns (next: State)
    requires GoodOp(op) && InFile(st) && !st.needs
    ensures RunFrom(st, OpSpans(op) + rest) == RunFrom(next, rest)
    ensures InFile(next) && !next.needs && next.sections == Count(st.sections, 1, |op.payload|, OpDeleted(op))
  {
    var first := Step(st, op.head);
    OpStep(st, op, first);
    PayloadRun(first, op.payload);
    assert OpSpans(op)[1..] == op.payload;
    CountTwice(st.sections, 1, 0, OpDeleted(op), 0, |op.payload|, 0);
    RunFromConcat(st, OpSpans(op), rest);
    next := RunFrom(st, OpSpans(op));
  }

  lemma OpsCount(s: seq<Section>, ops: seq<Op>)
    requires ops != []
    ensures Count(Count(s, 1, |ops[0].payload|, OpDeleted(ops[0])), |ops[1..]|, Payload(ops[1..]), Deleted(ops[1..]))
            == Count(s, |ops|, Payload(ops), Deleted(ops))
  {
    var p, d := Payload(ops[1..]), Deleted(ops[1..]);
    CountSums(s, 1, |ops[0].payload|, OpDeleted(ops[0]), |ops| - 1, p, d, |ops|, Payload(ops), Deleted(ops));
  }

  lemma CountSums(s: seq<Section>, o: nat, p: nat, d: nat, o': nat, p': nat, d': nat, os: nat, ps: nat, ds: nat)
    requires os == o + o' && ps == p + p' && ds == d + d'
    ensures Count(Count(s, o, p, d), o', p', d') == Count(s, os, ps, ds)
  {
    CountTwice(s, o, p, d, o', p', d');
  }

  lemma {:induction false} OpsRun(st: State, ops: seq<Op>)
    requires AllGood(ops) && InFile(st) && !st.needs
    ensures var next := RunFrom(st, OpsSpans(ops));
            InFile(next) && !next.needs && next.sections == Count(st.sections, |ops|, Payload(ops), Deleted(ops))
    decreases |ops|
  {
    if ops == [] {
      CountTwice(st.sections, 0, 0, 0, 0, 0, 0);
    } else {
      var next := OpRun(st, ops[0], OpsSpans(ops[1..]));
      OpsRun(next, ops[1..]);
      OpsCount(st.sections, ops);
    }
  }

  lemma HeaderStep(st: State, span: Span, next: State)
    requires Settled(st) && span.look.kind.FileHeader? && !span.look.blank && next == Step(st, span)
    ensures InFile(next) && !next.needs
    ensures next.sections == st.sections + [Section(span.look.kind.target, 0, 0, 0)]
  {
  }

  lemma FileRun(st: State, file: File, rest: seq<Span>) returns (next: State)
    requires GoodFile(file) && Settled(st)
    ensures RunFrom(st, FileSpans(file) + rest) == RunFrom(next, rest)
    ensures Settled(next) && next.sections == st.sections + [FileCounts(file)]
  {
    var first := Step(st, file.head);
    HeaderStep(st, file.head, first);
    OpsRun(first, file.ops);
    assert FileSpans(file)[1..] == OpsSpans(file.ops);
    CountNew(st.sections, Section(file.head.look.kind.target, 0, 0, 0),
             |file.ops|, Payload(file.ops), Deleted(file.ops));
    RunFromConcat(st, FileSpans(file), rest);
    next := RunFrom(st, FileSpans(file));
  }

  lemma CountNew(s: seq<Section>, x: Section, o: nat, p: nat, d: nat)
    ensures Count(s + [x], o, p, d) == s + [Section(x.target, x.ops + o, x.payload + p, x.deleted + d)]
  {
  }

  lemma {:induction false} FilesRun(st: State, files: seq<File>)
    requires AllGoodFiles(files) && Settled(st)
    ensures var next := RunFrom(st, FilesSpans(files));
            Settled(next) && next.sections == st.sections + Counts(files)
    decreases |files|
  {
    if files != [] {
      var next := FileRun(st, files[0], FilesSpans(files[1..]));
      FilesRun(next, files[1..]);
      Records.ConcatAssoc(st.sections, [FileCounts(files[0])], Counts(files[1..]));
    }
  }

  /** A well-formed input is complete: nothing of it is cut, and the counts are its own. */
  lemma WellFormedIsKept(files: seq<File>)
    requires AllGoodFiles(files)
    ensures var spans := FilesSpans(files);
            Kept(spans) == |spans| && Run(spans).sections == Counts(files)
  {
    FilesRun(START, files);
    RunFromStart(FilesSpans(files));
    assert START.sections + Counts(files) == Counts(files);
  }

  // ---------------------------------------------------------------------------------------------
  // The grammar of complete inputs, without flags

  predicate MarksEnvelope(look: Look) { look.kind.BeginMark? || look.kind.EndMark? }

  /** Blank lines, envelope marks, and then sections. */
  predicate Document(spans: seq<Span>) {
    spans == [] || if spans[0].look.blank then Document(spans[1..]) else Envelope(spans)
  }

  predicate Envelope(spans: seq<Span>) {
    spans == []
    || (MarksEnvelope(spans[0].look) && Envelope(spans[1..]))
    || (spans[0].look.kind.FileHeader? && Body(spans[1..], false))
  }

  /** The lines of sections; with `open`, behind an operation or its payload, more payload may follow. */
  predicate Body(spans: seq<Span>, open: bool) {
    spans == []
    || var look := spans[0].look;
       if MarksEnvelope(look) || look.kind.FileHeader? then Body(spans[1..], false)
       else if open && !look.lead then Body(spans[1..], true)
       else if look.blank then Body(spans[1..], false)
       else if look.kind.Insert? then |spans| >= 2 && IsPayload(spans[1].look) && Body(spans[2..], true)
       else look.kind.Replace? && Body(spans[1..], true)
  }

  /** A state between two lines of the body. */
  predicate AtBody(st: State, open: bool) { InFile(st) && !st.needs && st.allowed == open }

  lemma {:induction false} StoppedStays(st: State, spans: seq<Span>)
    requires st.stopped
    ensures RunFrom(st, spans) == st
    decreases |spans|
  {
    if spans != [] {
      StoppedStays(st, spans[1..]);
    }
  }

  lemma BodyStep(st: State, span: Span, open: bool, next: State)
    requires AtBody(st, open) && next == Step(st, span)
    ensures var look := span.look;
            if MarksEnvelope(look) || look.kind.FileHeader? then AtBody(next, false)
            else if open && !look.lead then AtBody(next, true)
            else if look.blank then AtBody(next, false)
            else if look.kind.Insert? then Waiting(next)
            else if look.kind.Replace? then AtBody(next, true) else next.stopped
  {
  }

  lemma WaitingStep(st: State, span: Span, next: State)
    requires Waiting(st) && next == Step(st, span)
    ensures if IsPayload(span.look) then AtBody(next, true) else next.stopped
  {
  }

  lemma {:induction false} BodyIff(st: State, spans: seq<Span>, open: bool)
    requires AtBody(st, open)
    ensures Settled(RunFrom(st, spans)) <==> Body(spans, open)
    decreases |spans|
  {
    if spans != [] {
      var look, next := spans[0].look, Step(st, spans[0]);
      BodyStep(st, spans[0], open, next);
      if next.stopped {
        StoppedStays(next, spans[1..]);
      } else if next.needs {
        InsertIff(next, spans[1..]);
      } else {
        BodyIff(next, spans[1..], next.allowed);
      }
    }
  }

  lemma {:induction false} InsertIff(st: State, spans: seq<Span>)
    requires Waiting(st)
    ensures Settled(RunFrom(st, spans)) <==> spans != [] && IsPayload(spans[0].look) && Body(spans[1..], true)
    decreases |spans|
  {
    if spans != [] {
      var next := Step(st, spans[0]);
      WaitingStep(st, spans[0], next);
      if next.stopped {
        StoppedStays(next, spans[1..]);
      } else {
        BodyIff(next, spans[1..], true);
      }
    }
  }

  /** Nothing but blank lines and marks so far. */
  predicate AtFront(st: State) { Settled(st) && st.sections == [] && !st.allowed }

  lemma FrontStep(st: State, span: Span, next: State)
    requires AtFront(st) && (st.seen || !span.look.blank) && next == Step(st, span)
    ensures if MarksEnvelope(span.look) then AtFront(next) && next.seen
            else if span.look.kind.FileHeader? then AtBody(next, false) else next.stopped
  {
  }

  lemma {:induction false} EnvelopeIff(st: State, spans: seq<Span>)
    requires AtFront(st) && (st.seen || spans == [] || !spans[0].look.blank)
    ensures Settled(RunFrom(st, spans)) <==> Envelope(spans)
    decreases |spans|
  {
    if spans != [] {
      var next := Step(st, spans[0]);
      FrontStep(st, spans[0], next);
      if next.stopped {
        StoppedStays(next, spans[1..]);
      } else if next.sections == [] {
        EnvelopeIff(next, spans[1..]);
      } else {
        BodyIff(next, spans[1..], false);
      }
    }
  }

  lemma {:induction false} DocumentIff(st: State, spans: seq<Span>)
    requires AtFront(st) && !st.seen
    ensures Settled(RunFrom(st, spans)) <==> Document(spans)
    decreases |spans|
  {
    if spans != [] {
      if spans[0].look.blank {
        DocumentIff(Step(st, spans[0]), spans[1..]);
      } else {
        EnvelopeIff(st, spans);
      }
    }
  }

  /** An input is kept whole exactly if it follows the grammar. */
  lemma KeptWholeIff(spans: seq<Span>)
    ensures Kept(spans) == |spans| <==> Document(spans)
  {
    RunFromStart(spans);
    DocumentIff(START, spans);
    if Kept(spans) == |spans| {
      KeptPart(spans);
      assert spans[..|spans|] == spans;
    }
  }

  /** What is kept is the longest part of the input that follows the grammar. */
  lemma KeptIsLongestDocument(spans: seq<Span>)
    ensures Document(spans[..Kept(spans)])
    ensures forall k: nat | k <= |spans| && Document(spans[..k]) :: k <= Kept(spans)
  {
    KeptPart(spans);
    SettledIsDocument(spans[..Kept(spans)]);
    forall k: nat | k <= |spans| && Document(spans[..k]) ensures k <= Kept(spans) {
      SettledIsDocument(spans[..k]);
      KeptIsLongest(spans, k);
    }
  }

  lemma SettledIsDocument(spans: seq<Span>)
    ensures Settled(Run(spans)) <==> Document(spans)
  {
    RunFromStart(spans);
    DocumentIff(START, spans);
  }
}
