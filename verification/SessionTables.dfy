/** The tables that a session log is ingested into, and the rows that its lines give. */
module SessionTables {
  import opened Wrappers
  import opened Records
  import opened Upserts

  // ---------------------------------------------------------------------------------------------
  // Decoded lines

  datatype Meta = Meta(entryId: string, timestamp: int, model: string, provider: string)

  /** A content block of an assistant message. */
  datatype Item =
    | ToolCall(callId: string, name: string, args: string)
    | Thinking(thought: string)
    | Text(words: string)

  /** `Skipped` stands for a blank line, a line that is no JSON, and an event of no interest. */
  datatype Event =
    | Skipped
    | Assistant(meta: Meta, items: seq<Item>)
    | ToolResult(meta: Meta, callId: string, name: string, text: string, isError: bool)
    | User(meta: Meta, text: string)

  datatype SectionInfo = SectionInfo(target: string, ops: nat, deleted: nat, payload: nat)

  /** The parts of the ingestion that are not modelled: JSON decoding, the tokenizer, the parser of
      edit inputs and the classification of edit results. */
  datatype Codec = Codec(
    decode: Bytes -> Event,
    tokens: string -> nat,
    inputLength: string -> nat,
    sections: string -> seq<SectionInfo>,
    successful: string -> bool,
    warnings: string -> seq<string>)

  /** Empty strings are never handed to the tokenizer. */
  function CountTokens(codec: Codec, s: string): nat {
    if s == "" then 0 else codec.tokens(s)
  }

  // ---------------------------------------------------------------------------------------------
  // Rows

  datatype CallRow = CallRow(callId: string, seqNo: nat, meta: Meta, toolName: string, rawName: string,
                             args: string, tokens: nat)
  datatype ResultRow = ResultRow(callId: string, seqNo: nat, meta: Meta, toolName: string, rawName: string,
                                 text: string, tokens: nat, isError: bool)
  datatype AssistantRow = AssistantRow(seqNo: nat, meta: Meta, text: string, thinking: string,
                                       textTokens: nat, thinkingTokens: nat)
  datatype UserRow = UserRow(seqNo: nat, meta: Meta, text: string, tokens: nat)
  datatype EditStub = EditStub(callId: string, seqNo: nat, timestamp: int, inputLength: nat)
  datatype EditOutcome = EditOutcome(callId: string, success: bool, warnings: seq<string>)
  datatype SectionRow = SectionRow(callId: string, seqNo: nat, index: nat, info: SectionInfo)

  /** What a stretch of lines adds, in order, table by table. */
  datatype Batch = Batch(calls: seq<CallRow>, results: seq<ResultRow>, assistants: seq<AssistantRow>,
                         users: seq<UserRow>, stubs: seq<EditStub>, outcomes: seq<EditOutcome>,
                         sections: seq<SectionRow>)

  const NOTHING := Batch([], [], [], [], [], [], [])

  function Join(a: Batch, b: Batch): Batch {
    Batch(a.calls + b.calls, a.results + b.results, a.assistants + b.assistants, a.users + b.users,
          a.stubs + b.stubs, a.outcomes + b.outcomes, a.sections + b.sections)
  }

  lemma JoinAssoc(a: Batch, b: Batch, c: Batch)
    ensures Join(a, Join(b, c)) == Join(Join(a, b), c)
  {
  }

  lemma JoinNothing(a: Batch)
    ensures Join(a, NOTHING) == a && Join(NOTHING, a) == a
  {
  }

  function ToolName(rawName: string): string {
    if rawName == "" then "<unknown>" else rawName
  }

  function SectionRows(callId: string, seqNo: nat, infos: seq<SectionInfo>, index: nat): seq<SectionRow> {
    if infos == [] then []
    else [SectionRow(callId, seqNo, index, infos[0])] + SectionRows(callId, seqNo, infos[1..], index + 1)
  }

  function IngestItem(codec: Codec, seqNo: nat, meta: Meta, item: Item): Batch {
    if !item.ToolCall? then NOTHING
    else
      var name := ToolName(item.name);
      var call := CallRow(item.callId, seqNo, meta, name, item.name, item.args, CountTokens(codec, item.args));
      if name != "edit" then NOTHING.(calls := [call])
      else NOTHING.(calls := [call],
                    stubs := [EditStub(item.callId, seqNo, meta.timestamp, codec.inputLength(item.args))],
                    sections := SectionRows(item.callId, seqNo, codec.sections(item.args), 0))
  }

  function IngestItems(codec: Codec, seqNo: nat, meta: Meta, items: seq<Item>): Batch {
    if items == [] then NOTHING
    else Join(IngestItem(codec, seqNo, meta, items[0]), IngestItems(codec, seqNo, meta, items[1..]))
  }

  /** The non-empty texts of one kind, joined by line feeds. */
  function JoinTexts(items: seq<Item>, thinking: bool): string {
    if items == [] then ""
    else
      var here := if items[0].Thinking? && thinking then items[0].thought
                  else if items[0].Text? && !thinking then items[0].words else "";
      var rest := JoinTexts(items[1..], thinking);
      if here == "" then rest else if rest == "" then here else here + "\n" + rest
  }

  function Ingest(codec: Codec, event: Event, seqNo: nat): Batch {
    match event
    case Skipped => NOTHING
    case Assistant(meta, items) =>
      var text, thinking := JoinTexts(items, false), JoinTexts(items, true);
      var row := AssistantRow(seqNo, meta, text, thinking, CountTokens(codec, text), CountTokens(codec, thinking));
      IngestItems(codec, seqNo, meta, items).(assistants := if text == "" && thinking == "" then [] else [row])
    case ToolResult(meta, callId, name, text, isError) =>
      var success, tokens := codec.successful(text), CountTokens(codec, text);
      NOTHING.(results := [ResultRow(callId, seqNo, meta, ToolName(name), name, text, tokens, isError)],
               outcomes := if ToolName(name) != "edit" then []
                           else [EditOutcome(callId, success, if success then codec.warnings(text) else [])])
    case User(meta, text) =>
      if text == "" then NOTHING
      else NOTHING.(users := [UserRow(seqNo, meta, text, CountTokens(codec, text))])
  }

  /** The rows of consecutive lines, numbered from `seqNo`. */
  function ParseLines(codec: Codec, lines: seq<Bytes>, seqNo: nat): Batch {
    if lines == [] then NOTHING
    else Join(Ingest(codec, codec.decode(lines[0]), seqNo), ParseLines(codec, lines[1..], seqNo + 1))
  }

  lemma {:induction false} ParseConcat(codec: Codec, a: seq<Bytes>, b: seq<Bytes>, seqNo: nat)
    ensures ParseLines(codec, a + b, seqNo) ==
            Join(ParseLines(codec, a, seqNo), ParseLines(codec, b, seqNo + |a|))
  {
    if a == [] {
      assert a + b == b;
      JoinNothing(ParseLines(codec, b, seqNo));
    } else {
      assert (a + b)[1..] == a[1..] + b;
      ParseConcat(codec, a[1..], b, seqNo + 1);
      JoinAssoc(Ingest(codec, codec.decode(a[0]), seqNo), ParseLines(codec, a[1..], seqNo + 1),
                ParseLines(codec, b, seqNo + |a|));
    }
  }

  // ---------------------------------------------------------------------------------------------
  // Tables of one session file: the file is the first part of every key

  /** `success` is unknown until the result of the call is seen. */
  datatype EditRow = EditRow(seqNo: nat, timestamp: int, inputLength: nat,
                             success: Option<bool>, warnings: seq<string>, parserVersion: nat)

  datatype Tables = Tables(
    calls: map<(string, nat), CallRow>,
    results: map<(string, nat), ResultRow>,
    assistants: map<nat, AssistantRow>,
    users: map<nat, UserRow>,
    edits: map<string, EditRow>,
    sections: map<(string, nat), SectionRow>)

  const EMPTY := Tables(map[], map[], map[], map[], map[], map[])

  function CallKey(row: CallRow): (string, nat) { (row.callId, row.seqNo) }

  function ResultKey(row: ResultRow): (string, nat) { (row.callId, row.seqNo) }

  function AssistantKey(row: AssistantRow): nat { row.seqNo }

  function UserKey(row: UserRow): nat { row.seqNo }

  function SectionKey(row: SectionRow): (string, nat) { (row.callId, row.index) }

  function StubKey(stub: EditStub): string { stub.callId }

  function OutcomeKey(o: EditOutcome): string { o.callId }

  /** The stub of an edit call keeps a success and warnings that are there already. */
  function WithStub(stored: Option<EditRow>, stub: EditStub, version: nat): EditRow {
    if stored.Some? then
      stored.value.(seqNo := stub.seqNo, timestamp := stub.timestamp, inputLength := stub.inputLength,
                    parserVersion := version)
    else EditRow(stub.seqNo, stub.timestamp, stub.inputLength, None, [], version)
  }

  /** The outcome of an edit call keeps the columns of a stub that is there already. */
  function WithOutcome(stored: Option<EditRow>, o: EditOutcome, version: nat): EditRow {
    if stored.Some? then
      stored.value.(success := Some(o.success), warnings := o.warnings, parserVersion := version)
    else EditRow(0, 0, 0, Some(o.success), o.warnings, version)
  }

  function StubMerge(version: nat): (Option<EditRow>, EditStub) -> EditRow {
    (stored: Option<EditRow>, stub: EditStub) => WithStub(stored, stub, version)
  }

  function OutcomeMerge(version: nat): (Option<EditRow>, EditOutcome) -> EditRow {
    (stored: Option<EditRow>, o: EditOutcome) => WithOutcome(stored, o, version)
  }

  function PutStubs(m: map<string, EditRow>, stubs: seq<EditStub>, version: nat): map<string, EditRow> {
    Upsert(m, stubs, StubKey, StubMerge(version))
  }

  function PutOutcomes(m: map<string, EditRow>, outcomes: seq<EditOutcome>, version: nat): map<string, EditRow> {
    Upsert(m, outcomes, OutcomeKey, OutcomeMerge(version))
  }

  /** One transaction: within it all stubs come before all outcomes. */
  function Write(t: Tables, b: Batch, version: nat): Tables {
    Tables(Upsert(t.calls, b.calls, CallKey, Replace<CallRow>),
           Upsert(t.results, b.results, ResultKey, Replace<ResultRow>),
           Upsert(t.assistants, b.assistants, AssistantKey, Replace<AssistantRow>),
           Upsert(t.users, b.users, UserKey, Replace<UserRow>),
           PutOutcomes(PutStubs(t.edits, b.stubs, version), b.outcomes, version),
           Upsert(t.sections, b.sections, SectionKey, Replace<SectionRow>))
  }

  // ---------------------------------------------------------------------------------------------
  // Two transactions amount to one

  /** The upsert of edit calls and that of edit results set different columns. */
  lemma StubsOutcomesIndependent(version: nat)
    ensures Independent(StubMerge(version), OutcomeMerge(version))
  {
    forall stored: Option<EditRow>, stub: EditStub, o: EditOutcome
      ensures WithStub(Some(WithOutcome(stored, o, version)), stub, version)
              == WithOutcome(Some(WithStub(stored, stub, version)), o, version)
    {
    }
  }

  /** So they can be written in either order. */
  lemma StubsOutcomesCommute(m: map<string, EditRow>, stubs: seq<EditStub>, outcomes: seq<EditOutcome>, version: nat)
    ensures PutStubs(PutOutcomes(m, outcomes, version), stubs, version) ==
            PutOutcomes(PutStubs(m, stubs, version), outcomes, version)
  {
    StubsOutcomesIndependent(version);
    UpsertsCommute(m, stubs, StubKey, StubMerge(version), outcomes, OutcomeKey, OutcomeMerge(version));
  }

  lemma EditsJoin(m: map<string, EditRow>, a: Batch, b: Batch, version: nat)
    ensures PutOutcomes(PutStubs(PutOutcomes(PutStubs(m, a.stubs, version), a.outcomes, version), b.stubs, version),
                        b.outcomes, version)
            == PutOutcomes(PutStubs(m, a.stubs + b.stubs, version), a.outcomes + b.outcomes, version)
  {
    var stubbed := PutStubs(m, a.stubs, version);
    StubsOutcomesCommute(stubbed, b.stubs, a.outcomes, version);
    UpsertConcat(m, a.stubs, b.stubs, StubKey, StubMerge(version));
    UpsertConcat(PutStubs(stubbed, b.stubs, version), a.outcomes, b.outcomes, OutcomeKey, OutcomeMerge(version));
  }

  /** Two transactions leave the same tables as one with all their rows. */
  lemma WriteJoin(t: Tables, a: Batch, b: Batch, version: nat)
    ensures Write(Write(t, a, version), b, version) == Write(t, Join(a, b), version)
  {
    UpsertConcat(t.calls, a.calls, b.calls, CallKey, Replace<CallRow>);
    UpsertConcat(t.results, a.results, b.results, ResultKey, Replace<ResultRow>);
    UpsertConcat(t.assistants, a.assistants, b.assistants, AssistantKey, Replace<AssistantRow>);
    UpsertConcat(t.users, a.users, b.users, UserKey, Replace<UserRow>);
    UpsertConcat(t.sections, a.sections, b.sections, SectionKey, Replace<SectionRow>);
    EditsJoin(t.edits, a, b, version);
  }

  // ---------------------------------------------------------------------------------------------
  // A full parse, and a parse in two pieces

  /** Adding lines behind the first `n`, which are in the tables already. */
  function Resume(codec: Codec, t: Tables, lines: seq<Bytes>, n: nat, version: nat): Tables {
    Write(t, ParseLines(codec, lines, n), version)
  }

  function FullParse(codec: Codec, lines: seq<Bytes>, version: nat): Tables {
    Resume(codec, EMPTY, lines, 0, version)
  }

  function Lines(content: Bytes): seq<Bytes> {
    SplitAfter(content, NEWLINE)
  }

  /** Adding lines in two transactions gives the same as adding them in one. */
  lemma ResumeTwice(codec: Codec, t: Tables, a: seq<Bytes>, b: seq<Bytes>, n: nat, version: nat)
    ensures Resume(codec, Resume(codec, t, a, n, version), b, n + |a|, version) == Resume(codec, t, a + b, n, version)
  {
    ParseConcat(codec, a, b, n);
    WriteJoin(t, ParseLines(codec, a, n), ParseLines(codec, b, n + |a|), version);
  }

  /** Does resuming with `more` behind `lines` give the tables of one full parse of `all`? */
  ghost predicate ResumesExactly(codec: Codec, lines: seq<Bytes>, more: seq<Bytes>, all: seq<Bytes>, version: nat) {
    Resume(codec, FullParse(codec, lines, version), more, |lines|, version) == FullParse(codec, all, version)
  }

  lemma ResumeIsFullParse(codec: Codec, lines: seq<Bytes>, more: seq<Bytes>, all: seq<Bytes>, version: nat)
    requires all == lines + more
    ensures ResumesExactly(codec, lines, more, all, version)
  {
    ResumeTwice(codec, EMPTY, lines, more, 0, version);
  }
}
