/** What each table of a full parse holds, said of the decoded lines of the log. */
module LineRows {
  import opened Wrappers
  import opened Records
  import opened SessionTables
  import opened TableMeaning
  import opened Upserts
  import H = Hashline

  // ---------------------------------------------------------------------------------------------
  // Items of assistant lines

  /** A condition on an item and the number of its line. */
  type Wanted = (nat, Item) -> bool

  /** Item `j` of line `k` is wanted. */
  predicate ItemAt(codec: Codec, lines: seq<Bytes>, p: Wanted, k: nat, j: nat) {
    && k < |lines| && codec.decode(lines[k]).Assistant?
    && j < |codec.decode(lines[k]).items| && p(k, codec.decode(lines[k]).items[j])
  }

  /** ... and no later item is. */
  ghost predicate LastAt(codec: Codec, lines: seq<Bytes>, p: Wanted, k: nat, j: nat) {
    && ItemAt(codec, lines, p, k, j)
    && forall k': nat, j': nat | ItemAt(codec, lines, p, k', j') :: k' < k || (k' == k && j' <= j)
  }

  ghost predicate NoneAt(codec: Codec, lines: seq<Bytes>, p: Wanted) {
    forall k: nat, j: nat :: !ItemAt(codec, lines, p, k, j)
  }

  /** The rows that one item gives. */
  type Maker<!R> = (nat, Meta, Item) -> seq<R>

  function ItemRows<R>(make: Maker<R>, n: nat, meta: Meta, items: seq<Item>): seq<R> {
    if items == [] then [] else make(n, meta, items[0]) + ItemRows(make, n, meta, items[1..])
  }

  function EventRows<R>(make: Maker<R>, n: nat, e: Event): seq<R> {
    if e.Assistant? then ItemRows(make, n, e.meta, e.items) else []
  }

  /** The rows that all lines give. */
  function Rows<R>(codec: Codec, make: Maker<R>, lines: seq<Bytes>): seq<R> {
    if lines == [] then []
    else var n := |lines| - 1; Rows(codec, make, lines[..n]) + EventRows(make, n, codec.decode(lines[n]))
  }

  /** What the items give for one key: `p` says which have a row with it, `f` which row. */
  datatype Column<!K, !R> = Column(make: Maker<R>, key: R -> K, k: K, p: Wanted, f: (nat, Meta, Item) -> R)

  ghost predicate Fits<K, R>(c: Column<K, R>) {
    forall n: nat, meta: Meta, item: Item ::
      LastWith(c.make(n, meta, item), c.key, c.k) == if c.p(n, item) then Some(c.f(n, meta, item)) else None
  }

  lemma {:induction false} LastOfConcat<K, R>(a: seq<R>, b: seq<R>, key: R -> K, k: K)
    ensures LastWith(a + b, key, k) == if LastWith(b, key, k).Some? then LastWith(b, key, k) else LastWith(a, key, k)
  {
    if a == [] {
      assert a + b == b;
    } else {
      assert (a + b)[1..] == a[1..] + b;
      LastOfConcat(a[1..], b, key, k);
    }
  }

  function LastIndex(n: nat, items: seq<Item>, p: Wanted): (j: Option<nat>)
    ensures j.Some? ==> j.value < |items| && p(n, items[j.value])
  {
    if items == [] then None
    else
      var later := LastIndex(n, items[1..], p);
      if later.Some? then Some(later.value + 1) else if p(n, items[0]) then Some(0) else None
  }

  lemma {:induction false} LastIndexIs(n: nat, items: seq<Item>, p: Wanted)
    ensures forall j: nat | j < |items| && p(n, items[j]) ::
              LastIndex(n, items, p).Some? && j <= LastIndex(n, items, p).value
  {
    if items != [] {
      LastIndexIs(n, items[1..], p);
      forall j: nat | j < |items| && p(n, items[j])
        ensures LastIndex(n, items, p).Some? && j <= LastIndex(n, items, p).value
      {
        assert j > 0 ==> items[1..][j - 1] == items[j];
      }
    }
  }

  lemma {:induction false} ItemsLast<K, R>(c: Column<K, R>, n: nat, meta: Meta, items: seq<Item>)
    requires Fits(c)
    ensures var j := LastIndex(n, items, c.p);
            LastWith(ItemRows(c.make, n, meta, items), c.key, c.k)
            == if j.Some? then Some(c.f(n, meta, items[j.value])) else None
  {
    if items != [] {
      ItemsLast(c, n, meta, items[1..]);
      LastOfConcat(c.make(n, meta, items[0]), ItemRows(c.make, n, meta, items[1..]), c.key, c.k);
    }
  }

  /** The row that a line gives. */
  function FromEvent<K, R>(c: Column<K, R>, e: Event, n: nat): Option<R> {
    if !e.Assistant? || LastIndex(n, e.items, c.p).None? then None
    else Some(c.f(n, e.meta, e.items[LastIndex(n, e.items, c.p).value]))
  }

  lemma EventLast<K, R>(c: Column<K, R>, e: Event, n: nat)
    requires Fits(c)
    ensures LastWith(EventRows(c.make, n, e), c.key, c.k) == FromEvent(c, e, n)
  {
    if e.Assistant? {
      ItemsLast(c, n, e.meta, e.items);
    }
  }

  ghost predicate IsLastRow<K, R>(codec: Codec, c: Column<K, R>, lines: seq<Bytes>, r: Option<R>) {
    && (r.None? ==> NoneAt(codec, lines, c.p))
    && (r.Some? ==> exists k: nat, j: nat :: LastAt(codec, lines, c.p, k, j)
                      && r.value == c.f(k, codec.decode(lines[k]).meta, codec.decode(lines[k]).items[j]))
  }

  /** The last row with the key comes from the last wanted item. */
  lemma {:induction false} LinesLast<K, R>(codec: Codec, c: Column<K, R>, lines: seq<Bytes>)
    requires Fits(c)
    ensures IsLastRow(codec, c, lines, LastWith(Rows(codec, c.make, lines), c.key, c.k))
  {
    if lines != [] {
      var n := |lines| - 1;
      LinesLast(codec, c, lines[..n]);
      var front := Rows(codec, c.make, lines[..n]);
      EventLast(c, codec.decode(lines[n]), n);
      LastOfConcat(front, EventRows(c.make, n, codec.decode(lines[n])), c.key, c.k);
      OneMoreLine(codec, c, lines, LastWith(front, c.key, c.k));
    }
  }

  lemma OneMoreLine<K, R>(codec: Codec, c: Column<K, R>, lines: seq<Bytes>, a: Option<R>)
    requires lines != [] && IsLastRow(codec, c, lines[..|lines| - 1], a)
    ensures var n := |lines| - 1;
            var b := FromEvent(c, codec.decode(lines[n]), n);
            IsLastRow(codec, c, lines, if b.Some? then b else a)
  {
    var n := |lines| - 1;
    var front, e := lines[..n], codec.decode(lines[n]);
    if e.Assistant? {
      LastIndexIs(n, e.items, c.p);
    }
    if FromEvent(c, e, n).Some? {
      assert LastAt(codec, lines, c.p, n, LastIndex(n, e.items, c.p).value);
    } else if a.Some? {
      var k: nat, j: nat :| LastAt(codec, front, c.p, k, j)
                            && a.value == c.f(k, codec.decode(front[k]).meta, codec.decode(front[k]).items[j]);
      forall k': nat, j': nat | ItemAt(codec, lines, c.p, k', j') ensures ItemAt(codec, front, c.p, k', j') {
        assert k' < n;
      }
      assert LastAt(codec, lines, c.p, k, j);
    } else {
      forall k': nat, j': nat ensures !ItemAt(codec, lines, c.p, k', j') {
        assert !ItemAt(codec, front, c.p, k', j');
      }
    }
  }

  // ---------------------------------------------------------------------------------------------
  // The rows of a parse, table by table

  function MakeCalls(codec: Codec): Maker<CallRow> {
    (n: nat, meta: Meta, item: Item) => IngestItem(codec, n, meta, item).calls
  }

  function MakeStubs(codec: Codec): Maker<EditStub> {
    (n: nat, meta: Meta, item: Item) => IngestItem(codec, n, meta, item).stubs
  }

  function MakeSections(codec: Codec): Maker<SectionRow> {
    (n: nat, meta: Meta, item: Item) => IngestItem(codec, n, meta, item).sections
  }

  lemma {:induction false} RowsOfItems(codec: Codec, n: nat, meta: Meta, items: seq<Item>)
    ensures var b := IngestItems(codec, n, meta, items);
            && b.calls == ItemRows(MakeCalls(codec), n, meta, items)
            && b.stubs == ItemRows(MakeStubs(codec), n, meta, items)
            && b.sections == ItemRows(MakeSections(codec), n, meta, items)
  {
    if items != [] {
      RowsOfItems(codec, n, meta, items[1..]);
    }
  }

  lemma RowsOfEvent(codec: Codec, n: nat, e: Event)
    ensures var b := Ingest(codec, e, n);
            && b.calls == EventRows(MakeCalls(codec), n, e) && b.stubs == EventRows(MakeStubs(codec), n, e)
            && b.sections == EventRows(MakeSections(codec), n, e)
  {
    if e.Assistant? {
      RowsOfItems(codec, n, e.meta, e.items);
    }
  }

  /** A parse of one more line. */
  lemma ParseSnoc(codec: Codec, lines: seq<Bytes>, n: nat)
    requires n + 1 == |lines|
    ensures ParseLines(codec, lines, 0)
            == Join(ParseLines(codec, lines[..n], 0), Ingest(codec, codec.decode(lines[n]), n))
  {
    assert lines == lines[..n] + [lines[n]];
    ParseConcat(codec, lines[..n], [lines[n]], 0);
    ParseFirst(codec, [lines[n]], n);
    JoinNothing(Ingest(codec, codec.decode(lines[n]), n));
  }

  lemma {:induction false} RowsOfParse(codec: Codec, lines: seq<Bytes>)
    ensures var b := ParseLines(codec, lines, 0);
            && b.calls == Rows(codec, MakeCalls(codec), lines) && b.stubs == Rows(codec, MakeStubs(codec), lines)
            && b.sections == Rows(codec, MakeSections(codec), lines)
  {
    if lines != [] {
      var n := |lines| - 1;
      RowsOfParse(codec, lines[..n]);
      RowsOfEvent(codec, n, codec.decode(lines[n]));
      ParseSnoc(codec, lines, n);
    }
  }

  // ---------------------------------------------------------------------------------------------
  // The call table

  function CallOf(id: string, k: nat): Wanted {
    (n: nat, item: Item) => n == k && item.ToolCall? && item.callId == id
  }

  function CallColumn(codec: Codec, id: string, k: nat): Column<(string, nat), CallRow> {
    Column(MakeCalls(codec), CallKey, (id, k), CallOf(id, k),
           (n: nat, meta: Meta, item: Item) =>
             if !item.ToolCall? then CallRow("", n, meta, "", "", "", 0)
             else CallRow(item.callId, n, meta, if item.name == "" then "<unknown>" else item.name, item.name,
                          item.args, if item.args == "" then 0 else codec.tokens(item.args)))
  }

  lemma CallColumnFits(codec: Codec, id: string, k: nat)
    ensures Fits(CallColumn(codec, id, k))
  {
  }

  /** Under an id and a line number is the last call with the id in that line, and nothing else. */
  lemma CallsMeaning(codec: Codec, lines: seq<Bytes>, version: nat, id: string, k: nat)
    ensures var calls := FullParse(codec, lines, version).calls;
            && ((id, k) in calls <==> exists j: nat :: ItemAt(codec, lines, CallOf(id, k), k, j))
            && ((id, k) in calls ==> exists j: nat :: LastAt(codec, lines, CallOf(id, k), k, j))
            && forall j: nat | LastAt(codec, lines, CallOf(id, k), k, j) ::
                 var e := codec.decode(lines[k]);
                 var item := e.items[j];
                 Lookup(calls, (id, k))
                 == Some(CallRow(id, k, e.meta, if item.name == "" then "<unknown>" else item.name, item.name,
                                 item.args, if item.args == "" then 0 else codec.tokens(item.args)))
  {
    var c, b := CallColumn(codec, id, k), ParseLines(codec, lines, 0);
    CallColumnFits(codec, id, k);
    RowsOfParse(codec, lines);
    LinesLast(codec, c, lines);
    UpsertMeaning(map[], b.calls, CallKey, Replace<CallRow>, (id, k));
    assert IsLastRow(codec, c, lines, LastWith(b.calls, CallKey, (id, k)));
    assert forall k': nat, j: nat | ItemAt(codec, lines, c.p, k', j) :: k' == k;
  }

  // ---------------------------------------------------------------------------------------------
  // The section table

  function SectionOf(codec: Codec, id: string, i: nat): Wanted {
    (n: nat, item: Item) =>
      item.ToolCall? && item.callId == id && item.name == "edit" && i < |codec.sections(item.args)|
  }

  function SectionColumn(codec: Codec, id: string, i: nat, none: SectionInfo): Column<(string, nat), SectionRow> {
    Column(MakeSections(codec), SectionKey, (id, i), SectionOf(codec, id, i),
           (n: nat, meta: Meta, item: Item) =>
             if SectionOf(codec, id, i)(n, item) then SectionRow(id, n, i, codec.sections(item.args)[i])
             else SectionRow(id, n, i, none))
  }

  lemma {:induction false} SectionAt(callId: string, n: nat, infos: seq<SectionInfo>, first: nat, id: string, i: nat)
    ensures LastWith(SectionRows(callId, n, infos, first), SectionKey, (id, i))
            == if callId == id && first <= i < first + |infos| then Some(SectionRow(id, n, i, infos[i - first]))
               else None
    decreases |infos|
  {
    if infos != [] {
      SectionAt(callId, n, infos[1..], first + 1, id, i);
    }
  }

  lemma SectionColumnFits(codec: Codec, id: string, i: nat, none: SectionInfo)
    ensures Fits(SectionColumn(codec, id, i, none))
  {
    var c := SectionColumn(codec, id, i, none);
    forall n: nat, meta: Meta, item: Item
      ensures LastWith(c.make(n, meta, item), c.key, c.k) == if c.p(n, item) then Some(c.f(n, meta, item)) else None
    {
      if item.ToolCall? && item.name == "edit" {
        SectionAt(item.callId, n, codec.sections(item.args), 0, id, i);
      }
    }
  }

  /** Under an id and an index is that section of the last edit call with the id that has so many, and
      nothing else. */
  lemma SectionsMeaning(codec: Codec, lines: seq<Bytes>, version: nat, id: string, i: nat)
    ensures var sections, wanted := FullParse(codec, lines, version).sections, SectionOf(codec, id, i);
            && ((id, i) in sections <==> exists k: nat, j: nat :: ItemAt(codec, lines, wanted, k, j))
            && ((id, i) in sections ==> exists k: nat, j: nat :: LastAt(codec, lines, wanted, k, j))
            && forall k: nat, j: nat | LastAt(codec, lines, wanted, k, j) ::
                 Lookup(sections, (id, i))
                 == Some(SectionRow(id, k, i, codec.sections(codec.decode(lines[k]).items[j].args)[i]))
  {
    var c, b := SectionColumn(codec, id, i, SectionInfo("", 0, 0, 0)), ParseLines(codec, lines, 0);
    SectionColumnFits(codec, id, i, SectionInfo("", 0, 0, 0));
    RowsOfParse(codec, lines);
    LinesLast(codec, c, lines);
    UpsertMeaning(map[], b.sections, SectionKey, Replace<SectionRow>, (id, i));
    assert IsLastRow(codec, c, lines, LastWith(b.sections, SectionKey, (id, i)));
  }

  // ---------------------------------------------------------------------------------------------
  // The edit table

  function EditCallOf(id: string): Wanted {
    (n: nat, item: Item) => item.ToolCall? && item.callId == id && item.name == "edit"
  }

  function StubColumn(codec: Codec, id: string): Column<string, EditStub> {
    Column(MakeStubs(codec), StubKey, id, EditCallOf(id),
           (n: nat, meta: Meta, item: Item) =>
             EditStub(id, n, meta.timestamp, if item.ToolCall? then codec.inputLength(item.args) else 0))
  }

  lemma StubColumnFits(codec: Codec, id: string)
    ensures Fits(StubColumn(codec, id))
  {
  }

  /** Line `k` is the result of an edit call. */
  predicate EditResultAt(codec: Codec, lines: seq<Bytes>, id: string, k: nat) {
    && k < |lines| && codec.decode(lines[k]).ToolResult?
    && codec.decode(lines[k]).callId == id && codec.decode(lines[k]).name == "edit"
  }

  ghost predicate LastResultAt(codec: Codec, lines: seq<Bytes>, id: string, k: nat) {
    EditResultAt(codec, lines, id, k) && forall k': nat | EditResultAt(codec, lines, id, k') :: k' <= k
  }

  ghost predicate IsLastOutcome(codec: Codec, lines: seq<Bytes>, id: string, r: Option<EditOutcome>) {
    && (r.None? ==> forall k: nat :: !EditResultAt(codec, lines, id, k))
    && (r.Some? ==> exists k: nat :: LastResultAt(codec, lines, id, k)
                      && var text := codec.decode(lines[k]).text;
                         r.value == EditOutcome(id, codec.successful(text),
                                                if codec.successful(text) then codec.warnings(text) else []))
  }

  lemma OutcomesOfEvent(codec: Codec, e: Event, n: nat)
    ensures Ingest(codec, e, n).outcomes
            == if e.ToolResult? && e.name == "edit" then
                 [EditOutcome(e.callId, codec.successful(e.text),
                              if codec.successful(e.text) then codec.warnings(e.text) else [])]
               else []
  {
    ItemsGiveCalls(codec, n, e);
  }

  lemma {:induction false} OutcomesLast(codec: Codec, lines: seq<Bytes>, id: string)
    ensures IsLastOutcome(codec, lines, id, LastWith(ParseLines(codec, lines, 0).outcomes, OutcomeKey, id))
  {
    if lines != [] {
      var n := |lines| - 1;
      var front, e := lines[..n], codec.decode(lines[n]);
      OutcomesLast(codec, front, id);
      ParseSnoc(codec, lines, n);
      OutcomesOfEvent(codec, e, n);
      var a, b := ParseLines(codec, front, 0).outcomes, Ingest(codec, e, n).outcomes;
      LastOfConcat(a, b, OutcomeKey, id);
      OneMoreResult(codec, lines, id, LastWith(a, OutcomeKey, id), LastWith(b, OutcomeKey, id));
    }
  }

  lemma OneMoreResult(codec: Codec, lines: seq<Bytes>, id: string, a: Option<EditOutcome>, b: Option<EditOutcome>)
    requires lines != [] && IsLastOutcome(codec, lines[..|lines| - 1], id, a)
    requires var e := codec.decode(lines[|lines| - 1]);
             b == if !EditResultAt(codec, lines, id, |lines| - 1) then None
                  else Some(EditOutcome(id, codec.successful(e.text),
                                        if codec.successful(e.text) then codec.warnings(e.text) else []))
    ensures IsLastOutcome(codec, lines, id, if b.Some? then b else a)
  {
    var n := |lines| - 1;
    var front := lines[..n];
    assert forall k: nat :: EditResultAt(codec, lines, id, k)
                            <==> EditResultAt(codec, front, id, k) || (k == n && EditResultAt(codec, lines, id, n));
    if b.Some? {
      assert LastResultAt(codec, lines, id, n);
    } else if a.Some? {
      var k: nat :| LastResultAt(codec, front, id, k)
                    && var text := codec.decode(front[k]).text;
                       a.value == EditOutcome(id, codec.successful(text),
                                              if codec.successful(text) then codec.warnings(text) else []);
      assert LastResultAt(codec, lines, id, k);
    }
  }

  /** An id has an edit row exactly if some edit call or edit result has it. The columns are those of the
      last edit call and of the last edit result; those of a missing call are 0, a missing result leaves
      the success unknown. */
  lemma EditRowMeaning(codec: Codec, lines: seq<Bytes>, version: nat, id: string)
    ensures var edits, wanted := FullParse(codec, lines, version).edits, EditCallOf(id);
            && (id in edits <==> (exists k: nat, j: nat :: ItemAt(codec, lines, wanted, k, j))
                                 || exists k: nat :: EditResultAt(codec, lines, id, k))
            && (id in edits ==>
                  && edits[id].parserVersion == version
                  && (NoneAt(codec, lines, wanted) || exists k: nat, j: nat :: LastAt(codec, lines, wanted, k, j))
                  && (NoneAt(codec, lines, wanted) ==>
                        edits[id].seqNo == 0 && edits[id].timestamp == 0 && edits[id].inputLength == 0)
                  && (forall k: nat, j: nat | LastAt(codec, lines, wanted, k, j) ::
                        var e := codec.decode(lines[k]);
                        && edits[id].seqNo == k && edits[id].timestamp == e.meta.timestamp
                        && edits[id].inputLength == codec.inputLength(e.items[j].args)))
  {
    var b := ParseLines(codec, lines, 0);
    StubColumnFits(codec, id);
    RowsOfParse(codec, lines);
    LinesLast(codec, StubColumn(codec, id), lines);
    assert IsLastRow(codec, StubColumn(codec, id), lines, LastWith(b.stubs, StubKey, id));
    OutcomesLast(codec, lines, id);
    EditsMeaning(codec, lines, version, id);
  }

  lemma EditResultMeaning(codec: Codec, lines: seq<Bytes>, version: nat, id: string)
    ensures var edits := FullParse(codec, lines, version).edits;
            id in edits ==>
              && ((forall k: nat :: !EditResultAt(codec, lines, id, k))
                  || exists k: nat :: LastResultAt(codec, lines, id, k))
              && ((forall k: nat :: !EditResultAt(codec, lines, id, k)) ==>
                    edits[id].success == None && edits[id].warnings == [])
              && (forall k: nat | LastResultAt(codec, lines, id, k) ::
                    var text := codec.decode(lines[k]).text;
                    && edits[id].success == Some(codec.successful(text))
                    && edits[id].warnings == if codec.successful(text) then codec.warnings(text) else [])
  {
    OutcomesLast(codec, lines, id);
    EditsMeaning(codec, lines, version, id);
  }

  // ---------------------------------------------------------------------------------------------
  // The table of assistant messages

  /** The non-empty texts of a message in order, or its non-empty thoughts. */
  function Parts(items: seq<Item>, thinking: bool): seq<string> {
    if items == [] then [] else Part(items[0], thinking) + Parts(items[1..], thinking)
  }

  function Part(item: Item, thinking: bool): seq<string> {
    match item
    case Text(words) => if thinking || words == "" then [] else [words]
    case Thinking(thought) => if !thinking || thought == "" then [] else [thought]
    case ToolCall(_, _, _) => []
  }

  lemma {:induction false} JoinedTexts(items: seq<Item>, thinking: bool)
    ensures JoinTexts(items, thinking) == H.JoinLines(Parts(items, thinking))
    ensures JoinTexts(items, thinking) == "" <==> Parts(items, thinking) == []
  {
    if items != [] {
      var part, rest := Part(items[0], thinking), Parts(items[1..], thinking);
      JoinedTexts(items[1..], thinking);
      if part == [] {
        assert part + rest == rest;
      } else {
        JoinCons(part[0], rest);
      }
    }
  }

  lemma JoinCons(part: string, rest: seq<string>)
    ensures H.JoinLines([part] + rest) == if rest == [] then part else part + "\n" + H.JoinLines(rest)
  {
    assert ([part] + rest)[1..] == rest;
  }

  /** The row of line `k`, if it is an assistant message with a text or a thought. */
  function AssistantOf(codec: Codec, e: Event, k: nat): Option<AssistantRow> {
    if !e.Assistant? || (Parts(e.items, false) == [] && Parts(e.items, true) == []) then None
    else
      var text, thinking := H.JoinLines(Parts(e.items, false)), H.JoinLines(Parts(e.items, true));
      Some(AssistantRow(k, e.meta, text, thinking, if Parts(e.items, false) == [] then 0 else codec.tokens(text),
                        if Parts(e.items, true) == [] then 0 else codec.tokens(thinking)))
  }

  lemma AssistantsOfEvent(codec: Codec, e: Event, n: nat)
    ensures Ingest(codec, e, n).assistants == AsSeq(AssistantOf(codec, e, n))
  {
    if e.Assistant? {
      JoinedTexts(e.items, false);
      JoinedTexts(e.items, true);
    }
  }

  lemma AssistantHere(codec: Codec, e: Event, n: nat, k: nat)
    ensures LastWith(AsSeq(AssistantOf(codec, e, n)), AssistantKey, k)
            == if k == n then AssistantOf(codec, e, n) else None
  {
  }

  lemma {:induction false} AssistantsLast(codec: Codec, lines: seq<Bytes>, k: nat)
    ensures LastWith(ParseLines(codec, lines, 0).assistants, AssistantKey, k)
            == if k < |lines| then AssistantOf(codec, codec.decode(lines[k]), k) else None
  {
    if lines != [] {
      var n := |lines| - 1;
      AssistantsLast(codec, lines[..n], k);
      ParseSnoc(codec, lines, n);
      var a, b := ParseLines(codec, lines[..n], 0).assistants, Ingest(codec, codec.decode(lines[n]), n).assistants;
      AssistantsOfEvent(codec, codec.decode(lines[n]), n);
      AssistantHere(codec, codec.decode(lines[n]), n, k);
      LastOfConcat(a, b, AssistantKey, k);
    }
  }

  /** Under the number of a line are its texts and its thoughts, each joined by line feeds, if it is an
      assistant message with any; no other row is there. */
  lemma AssistantsMeaning(codec: Codec, lines: seq<Bytes>, version: nat, k: nat)
    ensures Lookup(FullParse(codec, lines, version).assistants, k)
            == if k < |lines| then AssistantOf(codec, codec.decode(lines[k]), k) else None
  {
    AssistantsLast(codec, lines, k);
    UpsertMeaning(map[], ParseLines(codec, lines, 0).assistants, AssistantKey, Replace<AssistantRow>, k);
  }
}
