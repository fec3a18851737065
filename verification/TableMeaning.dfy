/** What the tables of a full parse say about the lines of the log. */
module TableMeaning {
  import opened Wrappers
  import opened Records
  import opened SessionTables
  import opened Upserts

  // ---------------------------------------------------------------------------------------------
  // Messages and results: one row for each line that has one, under the number of the line

  function UserOf(codec: Codec, line: Bytes, seqNo: nat): Option<UserRow> {
    var e := codec.decode(line);
    if e.User? && e.text != "" then Some(UserRow(seqNo, e.meta, e.text, codec.tokens(e.text))) else None
  }

  /** Behind the lines there is no message. */
  function UserAt(codec: Codec, lines: seq<Bytes>, k: nat): Option<UserRow> {
    if k < |lines| then UserOf(codec, lines[k], k) else None
  }

  function ResultOf(codec: Codec, line: Bytes, seqNo: nat): Option<ResultRow> {
    var e := codec.decode(line);
    if e.ToolResult? then
      Some(ResultRow(e.callId, seqNo, e.meta, if e.name == "" then "<unknown>" else e.name, e.name, e.text,
                     if e.text == "" then 0 else codec.tokens(e.text), e.isError))
    else None
  }

  function UsersOf(codec: Codec, lines: seq<Bytes>, seqNo: nat): (rows: seq<Option<UserRow>>)
    ensures |rows| == |lines|
  {
    if lines == [] then [] else [UserOf(codec, lines[0], seqNo)] + UsersOf(codec, lines[1..], seqNo + 1)
  }

  function ResultsOf(codec: Codec, lines: seq<Bytes>, seqNo: nat): (rows: seq<Option<ResultRow>>)
    ensures |rows| == |lines|
  {
    if lines == [] then [] else [ResultOf(codec, lines[0], seqNo)] + ResultsOf(codec, lines[1..], seqNo + 1)
  }

  lemma RowsOfLine(codec: Codec, line: Bytes, seqNo: nat)
    ensures var rows := Ingest(codec, codec.decode(line), seqNo);
            rows.users == AsSeq(UserOf(codec, line, seqNo)) && rows.results == AsSeq(ResultOf(codec, line, seqNo))
  {
    ItemsGiveCalls(codec, seqNo, codec.decode(line));
  }

  lemma ItemsGiveCalls(codec: Codec, seqNo: nat, e: Event)
    ensures e.Assistant? ==> var rows := IngestItems(codec, seqNo, e.meta, e.items);
                             rows.users == [] && rows.results == [] && rows.outcomes == []
  {
    if e.Assistant? {
      NoOtherRows(codec, seqNo, e.meta, e.items);
    }
  }

  lemma {:induction false} NoOtherRows(codec: Codec, seqNo: nat, meta: Meta, items: seq<Item>)
    ensures var rows := IngestItems(codec, seqNo, meta, items);
            rows.users == [] && rows.results == [] && rows.outcomes == []
  {
    if items != [] {
      NoOtherRows(codec, seqNo, meta, items[1..]);
    }
  }

  lemma {:induction false} RowsOfLines(codec: Codec, lines: seq<Bytes>, seqNo: nat)
    ensures ParseLines(codec, lines, seqNo).users == Present(UsersOf(codec, lines, seqNo))
    ensures ParseLines(codec, lines, seqNo).results == Present(ResultsOf(codec, lines, seqNo))
    decreases |lines|
  {
    if lines != [] {
      RowsOfLine(codec, lines[0], seqNo);
      RowsOfLines(codec, lines[1..], seqNo + 1);
    }
  }

  lemma {:induction false} RowAt(codec: Codec, lines: seq<Bytes>, seqNo: nat, i: nat)
    requires i < |lines|
    ensures UsersOf(codec, lines, seqNo)[i] == UserOf(codec, lines[i], seqNo + i)
    ensures ResultsOf(codec, lines, seqNo)[i] == ResultOf(codec, lines[i], seqNo + i)
    decreases |lines|
  {
    if i > 0 {
      RowAt(codec, lines[1..], seqNo + 1, i - 1);
    }
  }

  /** The user table holds the user message of each line that has one, under the number of the line,
      and no other row. */
  lemma UsersMeaning(codec: Codec, lines: seq<Bytes>, version: nat, k: nat)
    ensures var users := FullParse(codec, lines, version).users;
            Lookup(users, k) == UserAt(codec, lines, k)
  {
    var rows := UsersOf(codec, lines, 0);
    forall i | 0 <= i < |lines| ensures rows[i] == UserOf(codec, lines[i], i) {
      RowAt(codec, lines, 0, i);
    }
    RowsOfLines(codec, lines, 0);
    ReplacedAt(map[], rows, UserKey, k, k);
  }

  /** The result table holds the result in each line that has one, under its call id and the number of
      the line, and no other row. */
  lemma ResultsMeaning(codec: Codec, lines: seq<Bytes>, version: nat, id: string, k: nat)
    ensures var results := FullParse(codec, lines, version).results;
            var row := if k < |lines| then ResultOf(codec, lines[k], k) else None;
            Lookup(results, (id, k)) == if row.Some? && row.value.callId == id then row else None
  {
    var rows := ResultsOf(codec, lines, 0);
    forall i | 0 <= i < |lines| ensures rows[i] == ResultOf(codec, lines[i], i) {
      RowAt(codec, lines, 0, i);
    }
    RowsOfLines(codec, lines, 0);
    ReplacedAt(map[], rows, ResultKey, (id, k), k);
  }

  // ---------------------------------------------------------------------------------------------
  // Edit calls: the last call and the last result with an id, in whatever order they come

  /** The edit row of an id joins its last call and its last result; a missing call leaves the columns
      of the call 0, a missing result leaves the success unknown. */
  function JoinedEdit(b: Batch, version: nat, id: string): Option<EditRow> {
    var stub, outcome := LastWith(b.stubs, StubKey, id), LastWith(b.outcomes, OutcomeKey, id);
    if stub.None? && outcome.None? then None
    else Some(EditRow(if stub.Some? then stub.value.seqNo else 0,
                      if stub.Some? then stub.value.timestamp else 0,
                      if stub.Some? then stub.value.inputLength else 0,
                      if outcome.Some? then Some(outcome.value.success) else None,
                      if outcome.Some? then outcome.value.warnings else [], version))
  }

  lemma EditsMeaning(codec: Codec, lines: seq<Bytes>, version: nat, id: string)
    ensures Lookup(FullParse(codec, lines, version).edits, id) == JoinedEdit(ParseLines(codec, lines, 0), version, id)
  {
    EditsOfBatch(ParseLines(codec, lines, 0), version, id);
  }

  lemma EditsOfBatch(b: Batch, version: nat, id: string)
    ensures Lookup(Write(EMPTY, b, version).edits, id) == JoinedEdit(b, version, id)
  {
    UpsertMeaning(map[], b.stubs, StubKey, StubMerge(version), id);
    UpsertMeaning(PutStubs(map[], b.stubs, version), b.outcomes, OutcomeKey, OutcomeMerge(version), id);
  }

  // ---------------------------------------------------------------------------------------------
  // Two lists of lines give the same tables

  ghost predicate SameEdits(a: Batch, b: Batch, version: nat) {
    forall id :: JoinedEdit(a, version, id) == JoinedEdit(b, version, id)
  }

  /** For every key of every table the last row with it is the same, and so is every joined edit. */
  ghost predicate SameLastRows(a: Batch, b: Batch, version: nat) {
    && SameLast(a.calls, b.calls, CallKey) && SameLast(a.results, b.results, ResultKey)
    && SameLast(a.assistants, b.assistants, AssistantKey) && SameLast(a.users, b.users, UserKey)
    && SameLast(a.sections, b.sections, SectionKey) && SameEdits(a, b, version)
  }

  lemma SameEditsIff(a: Batch, b: Batch, version: nat)
    ensures Write(EMPTY, a, version).edits == Write(EMPTY, b, version).edits <==> SameEdits(a, b, version)
  {
    var m, n := Write(EMPTY, a, version).edits, Write(EMPTY, b, version).edits;
    forall id ensures Lookup(m, id) == JoinedEdit(a, version, id) && Lookup(n, id) == JoinedEdit(b, version, id) {
      EditsOfBatch(a, version, id);
      EditsOfBatch(b, version, id);
    }
    if SameEdits(a, b, version) {
      SameMap(m, n);
    }
  }

  /** Two batches make the same tables from nothing exactly if these are the same. */
  lemma SameTablesIff(a: Batch, b: Batch, version: nat)
    ensures Write(EMPTY, a, version) == Write(EMPTY, b, version) <==> SameLastRows(a, b, version)
  {
    SameRowsIff(a.calls, b.calls, CallKey);
    SameRowsIff(a.results, b.results, ResultKey);
    SameRowsIff(a.assistants, b.assistants, AssistantKey);
    SameRowsIff(a.users, b.users, UserKey);
    SameRowsIff(a.sections, b.sections, SectionKey);
    SameEditsIff(a, b, version);
  }

  /** What a line says; behind the lines there is nothing. */
  function EventAt(codec: Codec, lines: seq<Bytes>, k: nat): Event {
    if k < |lines| then codec.decode(lines[k]) else Skipped
  }

  /** Lines that say the same give the same rows; lines that say nothing may follow. */
  lemma {:induction false} SameEvents(codec: Codec, a: seq<Bytes>, b: seq<Bytes>, seqNo: nat)
    requires forall k: nat :: EventAt(codec, a, k) == EventAt(codec, b, k)
    ensures ParseLines(codec, a, seqNo) == ParseLines(codec, b, seqNo)
    decreases |a| + |b|
  {
    if a != [] || b != [] {
      var restA, restB := if a == [] then [] else a[1..], if b == [] then [] else b[1..];
      forall k: nat ensures EventAt(codec, restA, k) == EventAt(codec, restB, k) {
        assert EventAt(codec, a, k + 1) == EventAt(codec, b, k + 1);
      }
      SameEvents(codec, restA, restB, seqNo + 1);
      ParseFirst(codec, a, seqNo);
      ParseFirst(codec, b, seqNo);
      assert EventAt(codec, a, 0) == EventAt(codec, b, 0);
    }
  }

  lemma ParseFirst(codec: Codec, lines: seq<Bytes>, seqNo: nat)
    ensures ParseLines(codec, lines, seqNo)
            == Join(Ingest(codec, EventAt(codec, lines, 0), seqNo),
                    ParseLines(codec, if lines == [] then [] else lines[1..], seqNo + 1))
  {
  }

  // ---------------------------------------------------------------------------------------------
  // Whole lines are needed

  /** A codec that finds a message in one line and skips every other. */
  function OnlyIn(whole: Bytes): Codec {
    Codec((line: Bytes) => if line == whole then User(Meta("", 0, "", ""), "x") else Skipped,
          (s: string) => 0, (s: string) => 0, (s: string) => [], (s: string) => false, (s: string) => [])
  }

  /** A message in a line that is cut in two is lost: neither half of the line decodes. */
  lemma CutLineLost(content: Bytes, more: Bytes, version: nat)
    requires !Complete(content, NEWLINE) && more != []
    ensures var k := |Lines(content)| - 1;
            var codec := OnlyIn(Lines(content)[k] + Lines(more)[0]);
            var known := FullParse(codec, Lines(content), version);
            var resumed := Resume(codec, known, Lines(more), |Lines(content)|, version);
            k in FullParse(codec, Lines(content + more), version).users && k !in resumed.users
  {
    var x, y := Lines(content), Lines(more);
    var k := |x| - 1;
    var codec := OnlyIn(x[k] + y[0]);
    SplitContinues(content, more, NEWLINE);
    RecordShape(more, NEWLINE, 0);
    assert Lines(content + more)[k] == x[k] + y[0] && (x + y)[k] == x[k] != x[k] + y[0];
    UsersMeaning(codec, Lines(content + more), version, k);
    UsersMeaning(codec, x + y, version, k);
    ResumeIsFullParse(codec, x, y, x + y, version);
  }

  /** Resuming agrees with the full parse, whatever the lines say, exactly when the first part ends
      with a whole line or nothing follows it. */
  lemma ResumeIsFullParseIff(content: Bytes, more: Bytes, version: nat)
    ensures (forall codec: Codec :: ResumesExactly(codec, Lines(content), Lines(more), Lines(content + more), version))
            <==> Complete(content, NEWLINE) || more == []
  {
    if Complete(content, NEWLINE) {
      forall codec: Codec ensures ResumesExactly(codec, Lines(content), Lines(more), Lines(content + more), version) {
        SplitConcat(content, more, NEWLINE);
        ResumeIsFullParse(codec, Lines(content), Lines(more), Lines(content + more), version);
      }
    } else if more == [] {
      assert content + more == content;
    } else {
      CutLineLost(content, more, version);
      var codec := OnlyIn(Lines(content)[|Lines(content)| - 1] + Lines(more)[0]);
      assert !ResumesExactly(codec, Lines(content), Lines(more), Lines(content + more), version);
    }
  }
}
