/** A printed edit input is kept to its end, with the counts of what was printed. */
module BoundaryPrint {
  import opened Records
  import opened Text
  import opened TextLines
  import opened Boundary
  import opened BoundaryText
  import F = BoundaryForms
  import H = Hashline
  import R = HashlineRoundTrip

  /** A file with its operations; `long` asks for the longer header. */
  datatype File = File(long: bool, target: string, ops: seq<R.Op>)

  function HeaderLine(file: File): string {
    if file.long then UPDATE_FILE + (" " + file.target) else [H.SECTION] + file.target
  }

  function OpLine(op: R.Op): string {
    [R.Sign(op)] + R.Body(op)
  }

  function OpsLines(ops: seq<R.Op>): seq<string> {
    if ops == [] then [] else [OpLine(ops[0])] + ops[0].payload + OpsLines(ops[1..])
  }

  function FilesLines(files: seq<File>): seq<string> {
    if files == [] then [] else [HeaderLine(files[0])] + OpsLines(files[0].ops) + FilesLines(files[1..])
  }

  /** Every line with a line feed. */
  function Print(files: seq<File>): string {
    Flatten(Ended(FilesLines(files)))
  }

  // ---------------------------------------------------------------------------------------------
  // What can be printed

  predicate GoodPayload(line: string) {
    OnOneLine(line) && F.IsPayload(LookAt(line))
  }

  predicate AllGoodPayload(lines: seq<string>) {
    lines != [] ==> GoodPayload(lines[0]) && AllGoodPayload(lines[1..])
  }

  /** An insert has payload. */
  predicate GoodOp(op: R.Op) {
    && AllGoodPayload(op.payload)
    && (op.InsertOp? ==> op.payload != [] && (op.anchor.At? ==> GoodPlace(op.anchor.place)))
    && (op.ReplaceOp? ==> GoodPlace(op.first) && (op.last.Some? ==> GoodPlace(op.last.value)))
  }

  predicate AllGood(ops: seq<R.Op>) {
    ops != [] ==> GoodOp(ops[0]) && AllGood(ops[1..])
  }

  predicate GoodFile(file: File) {
    && OnOneLine(file.target) && Trim(file.target) == file.target && AllGood(file.ops)
    && (if file.long then file.target != "" else file.target != "" ==> file.target[0] != H.SECTION)
  }

  predicate AllGoodFiles(files: seq<File>) {
    files != [] ==> GoodFile(files[0]) && AllGoodFiles(files[1..])
  }

  // ---------------------------------------------------------------------------------------------
  // The counts of what was printed

  function Payload(ops: seq<R.Op>): nat {
    if ops == [] then 0 else |ops[0].payload| + Payload(ops[1..])
  }

  function Deleted(ops: seq<R.Op>): nat {
    if ops == [] then 0 else R.OpDeleted(ops[0]) + Deleted(ops[1..])
  }

  function Counts(files: seq<File>): seq<Section> {
    if files == [] then []
    else [Section(files[0].target, |files[0].ops|, Payload(files[0].ops), Deleted(files[0].ops))] + Counts(files[1..])
  }

  // ---------------------------------------------------------------------------------------------
  // Single lines

  lemma ChopEnded(line: string)
    requires OnOneLine(line)
    ensures Chop(line + "\n") == Chop(line) == line
  {
    var raw := line + "\n";
    assert raw[..|raw| - 1] == line;
    assert IsBreak('\n') && IsBreak('\r');
  }

  /** The line feed changes nothing in what the parser sees. */
  lemma LookAtEnded(line: string)
    requires OnOneLine(line)
    ensures LookAt(line + "\n") == LookAt(line)
  {
    ChopEnded(line);
  }

  lemma {:induction false} TrimRightKeeps(s: string)
    requires s != "" && !IsSpace(s[0])
    ensures TrimRight(s) != ""
    decreases |s|
  {
    if IsSpace(s[|s| - 1]) {
      TrimRightKeeps(s[..|s| - 1]);
    }
  }

  lemma NotBlank(line: string)
    requires line != "" && !IsSpace(line[0])
    ensures Trim(line) != ""
  {
    TrimRightKeeps(line);
  }

  lemma SignedLook(sign: char, body: string, kind: Kind)
    requires H.IsSign(sign) && HasNoSpace(body) && KindOf([sign] + body) == kind
    ensures OnOneLine([sign] + body) && LookAt([sign] + body) == Look(kind, false, true)
  {
    var line := [sign] + body;
    assert !IsSpace(sign) && !IsBreak(sign);
    forall i | 0 <= i < |line| ensures !IsBreak(line[i]) {
      assert i > 0 ==> line[i] == body[i - 1] && body[i - 1] in body;
    }
    ChopEnded(line);
    NotBlank(line);
  }

  lemma InsertLook(op: R.Op)
    requires GoodOp(op) && op.InsertOp?
    ensures OnOneLine(OpLine(op)) && LookAt(OpLine(op)) == Look(Insert, false, true)
  {
    var sign, body := R.Sign(op), R.Body(op);
    if op.anchor.At? {
      InsertLineRead(sign, op.anchor.place);
      PlaceChars(op.anchor.place);
    } else {
      SignedLine(sign, body);
    }
    SignedLook(sign, body, Insert);
  }

  lemma OnePlace(p: R.Place)
    requires GoodPlace(p)
    ensures var body := R.PrintPlace(p); HasNoSpace(body) && KindOf([H.REPLACE] + body) == Replace(1)
  {
    ReplaceLineRead(p, p);
    PlaceChars(p);
  }

  lemma TwoPlaces(p: R.Place, q: R.Place, size: nat)
    requires GoodPlace(p) && GoodPlace(q) && size == if p.line <= q.line then q.line - p.line + 1 else 1
    ensures var body := R.PrintPlace(p) + (".." + R.PrintPlace(q));
            HasNoSpace(body) && KindOf([H.REPLACE] + body) == Replace(size)
  {
    ReplaceLineRead(p, q);
    PlaceChars(p);
    PlaceChars(q);
    RangeIsWord(R.PrintPlace(p), R.PrintPlace(q));
  }

  lemma ReplaceLook(op: R.Op)
    requires GoodOp(op) && op.ReplaceOp?
    ensures OnOneLine(OpLine(op)) && LookAt(OpLine(op)) == Look(Replace(R.OpDeleted(op)), false, true)
  {
    var body := R.Body(op);
    if op.last.None? {
      OnePlace(op.first);
      assert body == R.PrintPlace(op.first);
    } else {
      TwoPlaces(op.first, op.last.value, R.OpDeleted(op));
    }
    SignedLook(H.REPLACE, body, Replace(R.OpDeleted(op)));
  }

  lemma MarkedLook(line: string, kind: Kind)
    requires OnOneLine(line) && line != "" && !IsSpace(line[0]) && KindOf(line) == kind
    ensures LookAt(line).kind == kind && !LookAt(line).blank
  {
    ChopEnded(line);
    NotBlank(line);
  }

  lemma UpdateOnOneLine(target: string)
    requires OnOneLine(target)
    ensures var line := UPDATE_FILE + (" " + target); OnOneLine(line) && line[0] == '*'
  {
    assert OnOneLine(UPDATE_FILE);
    var line := UPDATE_FILE + (" " + target);
    forall i | 0 <= i < |line| ensures !IsBreak(line[i]) {
      assert i < |UPDATE_FILE| ==> line[i] == UPDATE_FILE[i];
      assert i > |UPDATE_FILE| ==> line[i] == target[i - |UPDATE_FILE| - 1];
    }
  }

  lemma HeaderLook(file: File)
    requires GoodFile(file)
    ensures OnOneLine(HeaderLine(file))
    ensures LookAt(HeaderLine(file)).kind == FileHeader(file.target) && !LookAt(HeaderLine(file)).blank
  {
    var line := HeaderLine(file);
    if file.long {
      UpdateRead(file.target);
      UpdateOnOneLine(file.target);
    } else {
      HeaderRead(file.target);
      assert forall i | 0 < i < |line| :: line[i] == file.target[i - 1];
    }
    MarkedLook(line, FileHeader(file.target));
  }

  // ---------------------------------------------------------------------------------------------
  // Lines and their spans, `look` saying what is seen in a line

  function Size(lines: seq<string>): nat {
    |Flatten(Ended(lines))|
  }

  function SpansOf(look: string -> Look, lines: seq<string>, pos: nat): (spans: seq<Span>)
    ensures |spans| == |lines|
  {
    Spans(look, Ended(lines), pos)
  }

  lemma SpansOfConcat(look: string -> Look, a: seq<string>, b: seq<string>, pos: nat)
    ensures SpansOf(look, a + b, pos) == SpansOf(look, a, pos) + SpansOf(look, b, pos + Size(a))
  {
    EndedConcat(a, b);
    SpansConcat(look, Ended(a), Ended(b), pos);
  }

  lemma SpansOfCons(look: string -> Look, line: string, rest: seq<string>, pos: nat)
    ensures SpansOf(look, [line] + rest, pos)
            == [Span(look(line + "\n"), pos + |line| + 1)] + SpansOf(look, rest, pos + |line| + 1)
  {
    assert ([line] + rest)[1..] == rest;
    assert Ended([line] + rest) == [line + "\n"] + Ended(rest);
    assert ([line + "\n"] + Ended(rest))[1..] == Ended(rest);
  }

  // ---------------------------------------------------------------------------------------------
  // The lines make a well-formed input, if they are seen as they were meant

  predicate SeenPayload(look: string -> Look, payload: seq<string>) {
    payload != [] ==> F.IsPayload(look(payload[0] + "\n")) && SeenPayload(look, payload[1..])
  }

  predicate SeenOps(look: string -> Look, ops: seq<R.Op>) {
    ops != [] ==>
      && look(OpLine(ops[0]) + "\n") == Look(Meant(ops[0]), false, true)
      && SeenPayload(look, ops[0].payload) && (ops[0].InsertOp? ==> ops[0].payload != [])
      && SeenOps(look, ops[1..])
  }

  predicate SeenFiles(look: string -> Look, files: seq<File>) {
    files != [] ==>
      && look(HeaderLine(files[0]) + "\n").kind == FileHeader(files[0].target)
      && !look(HeaderLine(files[0]) + "\n").blank
      && SeenOps(look, files[0].ops) && SeenFiles(look, files[1..])
  }

  function Meant(op: R.Op): Kind {
    if op.InsertOp? then Insert else Replace(R.OpDeleted(op))
  }

  lemma {:induction false} PayloadIsGood(look: string -> Look, payload: seq<string>, pos: nat)
    requires SeenPayload(look, payload)
    ensures F.AllPayload(SpansOf(look, payload, pos))
    decreases |payload|
  {
    if payload != [] {
      var next := pos + |payload[0]| + 1;
      PayloadIsGood(look, payload[1..], next);
      SpansOfCons(look, payload[0], payload[1..], pos);
      assert payload == [payload[0]] + payload[1..];
      assert SpansOf(look, payload, pos)[1..] == SpansOf(look, payload[1..], next);
    }
  }

  lemma LayOp(look: string -> Look, line: string, kind: Kind, payload: seq<string>, pos: nat) returns (laid: F.Op)
    requires look(line + "\n") == Look(kind, false, true) && SeenPayload(look, payload)
    requires kind.Replace? || (kind.Insert? && payload != [])
    ensures F.OpSpans(laid) == SpansOf(look, [line] + payload, pos)
    ensures F.GoodOp(laid) && laid.head.look.kind == kind && |laid.payload| == |payload|
  {
    var next := pos + |line| + 1;
    PayloadIsGood(look, payload, next);
    SpansOfCons(look, line, payload, pos);
    laid := F.Op(Span(look(line + "\n"), next), SpansOf(look, payload, next));
  }

  lemma {:induction false} LayOps(look: string -> Look, ops: seq<R.Op>, pos: nat) returns (laid: seq<F.Op>)
    requires SeenOps(look, ops)
    ensures F.OpsSpans(laid) == SpansOf(look, OpsLines(ops), pos)
    ensures F.AllGood(laid) && |laid| == |ops| && F.Payload(laid) == Payload(ops) && F.Deleted(laid) == Deleted(ops)
    decreases |ops|
  {
    if ops == [] {
      laid := [];
    } else {
      var first := [OpLine(ops[0])] + ops[0].payload;
      var op := LayOp(look, OpLine(ops[0]), Meant(ops[0]), ops[0].payload, pos);
      var rest := LayOps(look, ops[1..], pos + Size(first));
      SpansOfConcat(look, first, OpsLines(ops[1..]), pos);
      F.OpsCons(op, rest);
      laid := [op] + rest;
    }
  }

  lemma LayFile(look: string -> Look, line: string, target: string, ops: seq<R.Op>, pos: nat) returns (laid: F.File)
    requires SeenOps(look, ops)
    requires look(line + "\n").kind == FileHeader(target) && !look(line + "\n").blank
    ensures F.FileSpans(laid) == SpansOf(look, [line] + OpsLines(ops), pos)
    ensures F.GoodFile(laid) && F.FileCounts(laid) == Section(target, |ops|, Payload(ops), Deleted(ops))
  {
    var next := pos + |line| + 1;
    SpansOfCons(look, line, OpsLines(ops), pos);
    var rest := LayOps(look, ops, next);
    laid := F.File(Span(look(line + "\n"), next), rest);
  }

  lemma {:induction false} LayFiles(look: string -> Look, files: seq<File>, pos: nat) returns (laid: seq<F.File>)
    requires SeenFiles(look, files)
    ensures F.FilesSpans(laid) == SpansOf(look, FilesLines(files), pos)
    ensures F.AllGoodFiles(laid) && F.Counts(laid) == Counts(files)
    decreases |files|
  {
    if files == [] {
      laid := [];
    } else {
      var first := [HeaderLine(files[0])] + OpsLines(files[0].ops);
      var file := LayFile(look, HeaderLine(files[0]), files[0].target, files[0].ops, pos);
      var rest := LayFiles(look, files[1..], pos + Size(first));
      SpansOfConcat(look, first, FilesLines(files[1..]), pos);
      F.FilesCons(file, rest);
      laid := [file] + rest;
    }
  }

  // ---------------------------------------------------------------------------------------------
  // What is printed is seen as it was meant

  lemma {:induction false} PayloadIsSeen(payload: seq<string>)
    requires AllGoodPayload(payload)
    ensures SeenPayload(LookAt, payload) && AllOnOneLine(payload)
  {
    if payload != [] {
      LookAtEnded(payload[0]);
      PayloadIsSeen(payload[1..]);
    }
  }

  lemma OpIsSeen(op: R.Op)
    requires GoodOp(op)
    ensures LookAt(OpLine(op) + "\n") == Look(Meant(op), false, true) && OnOneLine(OpLine(op))
  {
    if op.InsertOp? {
      InsertLook(op);
    } else {
      ReplaceLook(op);
    }
    LookAtEnded(OpLine(op));
  }

  lemma {:induction false} OpsAreSeen(ops: seq<R.Op>)
    requires AllGood(ops)
    ensures SeenOps(LookAt, ops) && AllOnOneLine(OpsLines(ops))
  {
    if ops != [] {
      OpIsSeen(ops[0]);
      PayloadIsSeen(ops[0].payload);
      OpsAreSeen(ops[1..]);
      OneLineCons(OpLine(ops[0]), ops[0].payload, OpsLines(ops[1..]));
    }
  }

  lemma OneLineCons(line: string, a: seq<string>, b: seq<string>)
    requires OnOneLine(line) && AllOnOneLine(a) && AllOnOneLine(b)
    ensures AllOnOneLine([line] + a + b)
  {
    assert ([line] + a)[1..] == a;
    OneLineConcat([line] + a, b);
  }

  lemma {:induction false} FilesAreSeen(files: seq<File>)
    requires AllGoodFiles(files)
    ensures SeenFiles(LookAt, files) && AllOnOneLine(FilesLines(files))
  {
    if files != [] {
      HeaderLook(files[0]);
      LookAtEnded(HeaderLine(files[0]));
      OpsAreSeen(files[0].ops);
      FilesAreSeen(files[1..]);
      OneLineCons(HeaderLine(files[0]), OpsLines(files[0].ops), FilesLines(files[1..]));
    }
  }

  // ---------------------------------------------------------------------------------------------

  /** A text is kept to its end exactly if its lines follow the grammar. */
  lemma TextKeptWholeIff(text: string)
    ensures var spans := Spans(LookAt, SplitKeep(text), 0);
            && (Parse(text).parsedEnd == |text| <==> F.Document(spans))
            && (F.Document(spans) <==> Kept(spans) == |spans|)
            && (F.Document(spans) ==> !Missing(Run(spans)))
  {
    var spans := Spans(LookAt, SplitKeep(text), 0);
    F.KeptWholeIff(spans);
    F.SettledIsDocument(spans);
    KeptPart(spans);
    CutSpans(LookAt, text, Kept(spans));
    AllLinesEnd(text, Kept(spans));
  }

  lemma EndedIsNotEmpty(lines: seq<string>)
    requires lines != []
    ensures Flatten(Ended(lines)) != ""
  {
    assert Flatten(Ended(lines)) == (lines[0] + "\n") + Flatten(Ended(lines)[1..]);
  }

  /** The text of a printed edit input is kept to its end, with the counts of what was printed. */
  lemma PrintedIsKept(files: seq<File>)
    requires AllGoodFiles(files)
    ensures var p, text := Parse(Print(files)), Print(files);
            && p.parsedEnd == |text| && p.sections == Counts(files)
            && (files != [] ==> p.ok && p.reason == Complete)
  {
    var lines := FilesLines(files);
    FilesAreSeen(files);
    var laid := LayFiles(LookAt, files, 0);
    SplitOfEnded(lines);
    F.WellFormedIsKept(laid);
    TextKeptWholeIff(Print(files));
    if files != [] {
      EndedIsNotEmpty(lines);
    }
  }
}
