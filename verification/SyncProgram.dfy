/** The program behind one sync pass: the loop over the lines, and the transaction on the tables. */
module SyncProgram {
  import opened Wrappers
  import opened Records
  import opened SessionTables
  import opened Sync
  import opened Upserts

  /** What the parser hands to the writer. */
  datatype Parsed = Parsed(rebuild: bool, batch: Batch, size: nat, mtime: int, offset: nat, lineCount: nat)

  /** Counts the tokens of many strings; only the non-empty ones go to the tokenizer. */
  method BatchCountTokens(codec: Codec, strings: seq<string>) returns (counts: seq<nat>)
    ensures |counts| == |strings|
    ensures forall i | 0 <= i < |strings| :: counts[i] == CountTokens(codec, strings[i])
  {
    var index: seq<nat> := [];
    for i := 0 to |strings|
      invariant forall k | 0 <= k < |index| :: index[k] < i && strings[index[k]] != ""
      invariant forall j | 0 <= j < i :: strings[j] != "" ==> j in index
    {
      if strings[i] != "" {
        index := index + [i];
      }
    }
    var encoded: seq<nat> := [];
    for k := 0 to |index|
      invariant |encoded| == k
      invariant forall m | 0 <= m < k :: encoded[m] == codec.tokens(strings[index[m]])
    {
      encoded := encoded + [codec.tokens(strings[index[k]])];
    }
    counts := seq(|strings|, _ => 0);
    for k := 0 to |index|
      invariant |counts| == |strings|
      invariant forall j | 0 <= j < |strings| ::
                  counts[j] == if j in index[..k] then CountTokens(codec, strings[j]) else 0
    {
      assert index[..k + 1] == index[..k] + [index[k]];
      counts := counts[index[k] := encoded[k]];
    }
    assert index[..|index|] == index;
  }

  lemma FlattenLength(records: seq<Bytes>, k: nat)
    requires k < |records|
    ensures |Flatten(records[..k + 1])| == |Flatten(records[..k])| + |records[k]|
  {
    FlattenSnoc(records[..k], records[k]);
    assert records[..k] + [records[k]] == records[..k + 1];
  }

  /** Reads the file from the planned offset; `size` and `mtime` were taken before. */
  method ParseFile(codec: Codec, content: Bytes, size: nat, mtime: int, plan: Plan) returns (rec: Parsed)
    ensures var lines := Lines(From(content, plan.offset));
            rec == Parsed(plan.rebuild, ParseLines(codec, lines, plan.seqNo), size, mtime,
                          plan.offset + |From(content, plan.offset)|, plan.seqNo + |lines|)
  {
    var lines := Lines(From(content, plan.offset));
    var seqNo, offset, batch := ReadLines(codec, lines, plan.seqNo, plan.offset);
    FlattenOfSplit(From(content, plan.offset), NEWLINE);
    rec := Parsed(plan.rebuild, batch, size, mtime, offset, seqNo);
  }

  method ReadLine(codec: Codec, raw: Bytes, seqNo: nat) returns (rows: Batch)
    ensures rows == ParseLines(codec, [raw], seqNo)
  {
    var event := codec.decode(raw);
    rows := Ingest(codec, event, seqNo);
    assert ParseLines(codec, [raw], seqNo) == Join(rows, NOTHING);
    JoinNothing(rows);
  }

  /** One more line behind those that were read. */
  method ReadOneMore(codec: Codec, ghost front: seq<Bytes>, raw: Bytes, ghost startSeq: nat, seqNo: nat, batch: Batch)
    returns (next: Batch)
    requires batch == ParseLines(codec, front, startSeq) && seqNo == startSeq + |front|
    ensures next == ParseLines(codec, front + [raw], startSeq)
  {
    var rows := ReadLine(codec, raw, seqNo);
    ParseConcat(codec, front, [raw], startSeq);
    next := Join(batch, rows);
  }

  method ReadLines(codec: Codec, lines: seq<Bytes>, startSeq: nat, startOffset: nat)
    returns (seqNo: nat, offset: nat, batch: Batch)
    ensures batch == ParseLines(codec, lines, startSeq)
    ensures seqNo == startSeq + |lines| && offset == startOffset + |Flatten(lines)|
  {
    seqNo, offset, batch := startSeq, startOffset, NOTHING;
    for i := 0 to |lines|
      invariant seqNo == startSeq + i && offset == startOffset + |Flatten(lines[..i])|
      invariant batch == ParseLines(codec, lines[..i], startSeq)
    {
      FlattenLength(lines, i);
      assert lines[..i + 1] == lines[..i] + [lines[i]];
      batch := ReadOneMore(codec, lines[..i], lines[i], startSeq, seqNo, batch);
      offset := offset + |lines[i]|;
      seqNo := seqNo + 1;
    }
    assert lines[..|lines|] == lines;
  }

  /** The rows of one session file. */
  class Database {
    var calls: map<(string, nat), CallRow>
    var results: map<(string, nat), ResultRow>
    var assistants: map<nat, AssistantRow>
    var users: map<nat, UserRow>
    var edits: map<string, EditRow>
    var sections: map<(string, nat), SectionRow>
    var row: Option<Row>

    function Contents(): Tables
      reads this
    {
      Tables(calls, results, assistants, users, edits, sections)
    }

    constructor ()
      ensures Contents() == EMPTY && row == None
    {
      calls, results, assistants, users := map[], map[], map[], map[];
      edits, sections, row := map[], map[], None;
    }

    /** Calls, then results: on conflict each sets only its own columns. */
    method UpsertEdits(batch: Batch, version: nat)
      modifies this`edits
      ensures edits == PutOutcomes(PutStubs(old(edits), batch.stubs, version), batch.outcomes, version)
    {
      edits := InsertRows(edits, batch.stubs, StubKey, StubMerge(version));
      edits := InsertRows(edits, batch.outcomes, OutcomeKey, OutcomeMerge(version));
    }

    /** One transaction. */
    method WriteRecords(rec: Parsed, version: nat)
      modifies this
      ensures Contents() == Write(if rec.rebuild then EMPTY else old(Contents()), rec.batch, version)
      ensures row == Some(Row(rec.mtime, rec.size, rec.offset, rec.lineCount, version))
    {
      if rec.rebuild {
        calls, results, assistants, users, edits, sections := map[], map[], map[], map[], map[], map[];
      }
      InsertAll(rec.batch, version);
      row := Some(Row(rec.mtime, rec.size, rec.offset, rec.lineCount, version));
    }

    method InsertCalls(batch: Batch)
      modifies this`calls, this`results
      ensures calls == Upsert(old(calls), batch.calls, CallKey, Replace<CallRow>)
      ensures results == Upsert(old(results), batch.results, ResultKey, Replace<ResultRow>)
    {
      calls := InsertRows(calls, batch.calls, CallKey, Replace<CallRow>);
      results := InsertRows(results, batch.results, ResultKey, Replace<ResultRow>);
    }

    method InsertMessages(batch: Batch)
      modifies this`assistants, this`users
      ensures assistants == Upsert(old(assistants), batch.assistants, AssistantKey, Replace<AssistantRow>)
      ensures users == Upsert(old(users), batch.users, UserKey, Replace<UserRow>)
    {
      assistants := InsertRows(assistants, batch.assistants, AssistantKey, Replace<AssistantRow>);
      users := InsertRows(users, batch.users, UserKey, Replace<UserRow>);
    }

    method InsertAll(batch: Batch, version: nat)
      modifies this
      ensures Contents() == Write(old(Contents()), batch, version) && row == old(row)
    {
      InsertCalls(batch);
      InsertMessages(batch);
      UpsertEdits(batch, version);
      sections := InsertRows(sections, batch.sections, SectionKey, Replace<SectionRow>);
    }

    /** The end of a pass is the `ReadAndWrite` step of the state machine. */
    method Finish(codecs: nat -> Codec, ghost w: World, content: Bytes, plan: Plan, size: nat, mtime: int, version: nat)
      requires Contents() == w.tables && row == w.row && content == w.content && version == w.version
      requires w.phase == Stated(plan, size, mtime)
      modifies this
      ensures var w' := Do(codecs, w, ReadAndWrite);
              Contents() == w'.tables && row == w'.row
    {
      var rec := ParseFile(codecs(version), content, size, mtime, plan);
      WriteRecords(rec, version);
    }
  }
}
