/** The incremental sync of one session file: what a history of appends, rewrites, parser upgrades
    and sync passes does to its tables.

    A pass has three moments, and the file can change between any two of them: the decision, the
    `stat` of the parser, and the read that is written to the database. It can also end before the
    last of them, with nothing written. */
module Sync {
  import opened Wrappers
  import opened Records
  import opened SessionTables
  import opened TableMeaning
  import opened Upserts

  /** What `ss_sessions` remembers about the file. */
  datatype Row = Row(mtime: int, size: nat, offset: nat, lineCount: nat, parser: nat)

  datatype Plan = Plan(rebuild: bool, offset: nat, seqNo: nat)

  const FROM_SCRATCH := Plan(true, 0, 0)

  /** None means that there is nothing to do. */
  function Decide(size: nat, mtime: int, prev: Option<Row>, full: bool, version: nat): Option<Plan> {
    if full || prev.None? then Some(FROM_SCRATCH)
    else
      var row := prev.value;
      if row.parser < version then Some(FROM_SCRATCH)
      else if size == row.size && mtime <= row.mtime then None
      else if size < row.offset then Some(FROM_SCRATCH)
      else if size == row.offset && mtime > row.mtime then Some(FROM_SCRATCH)
      else Some(Plan(false, row.offset, row.lineCount))
  }

  /** The bytes from `offset` on; seeking past the end finds none. */
  function From(content: Bytes, offset: nat): Bytes {
    if offset <= |content| then content[offset..] else []
  }

  /** The tables after a planned pass over `lines`. */
  function Load(codec: Codec, plan: Plan, t: Tables, lines: seq<Bytes>, version: nat): Tables {
    Resume(codec, if plan.rebuild then EMPTY else t, lines, plan.seqNo, version)
  }

  // ---------------------------------------------------------------------------------------------
  // The state machine

  datatype Phase =
    | Idle
    | Decided(plan: Plan)
    | Stated(plan: Plan, size: nat, mtime: int)

  /** `ingested` are the bytes read since the last pass that started from scratch. */
  datatype World = World(content: Bytes, mtime: int, version: nat, tables: Tables, row: Option<Row>,
                         phase: Phase, ingested: Bytes)

  datatype Action =
    | Append(more: Bytes, at: int)
    | Rewrite(content: Bytes, at: int)
    | Upgrade(version: nat)
    | Begin(full: bool)
    | Stat
    | ReadAndWrite
    | Abort

  function Planned(w: World, full: bool): Option<Plan> {
    Decide(|w.content|, w.mtime, w.row, full, w.version)
  }

  /** The file always consists of whole lines; the parser is upgraded between passes. */
  predicate Enabled(w: World, a: Action) {
    match a
    case Append(more, _) => Complete(more, NEWLINE)
    case Rewrite(content, _) => Complete(content, NEWLINE)
    case Upgrade(version) => w.phase.Idle? && version > w.version
    case Begin(_) => w.phase.Idle?
    case Stat => w.phase.Decided?
    case ReadAndWrite => w.phase.Stated?
    case Abort => !w.phase.Idle?
  }

  function Do(codecs: nat -> Codec, w: World, a: Action): World {
    match a
    case Append(more, at) => w.(content := w.content + more, mtime := at)
    case Rewrite(content, at) => w.(content := content, mtime := at)
    case Upgrade(version) => w.(version := version)
    case Begin(full) =>
      var plan := Planned(w, full);
      w.(phase := if plan.None? then Idle else Decided(plan.value))
    case Stat => if w.phase.Decided? then w.(phase := Stated(w.phase.plan, |w.content|, w.mtime)) else w
    case ReadAndWrite =>
      if !w.phase.Stated? then w
      else
        var plan, rest := w.phase.plan, From(w.content, w.phase.plan.offset);
        var lines := Lines(rest);
        w.(tables := Load(codecs(w.version), plan, w.tables, lines, w.version),
           row := Some(Row(w.phase.mtime, w.phase.size, plan.offset + |rest|, plan.seqNo + |lines|, w.version)),
           ingested := if plan.rebuild then rest else w.ingested + rest,
           phase := Idle)
    case Abort => w.(phase := Idle)
  }

  /** The world before the file was seen by any pass. */
  function Unseen(content: Bytes, mtime: int, version: nat): World {
    World(content, mtime, version, EMPTY, None, Idle, [])
  }

  // ---------------------------------------------------------------------------------------------
  // The invariant

  /** The tables for the ingested bytes, by the parser that the row names. */
  function TablesFor(codecs: nat -> Codec, w: World): Tables {
    match w.row
    case None => EMPTY
    case Some(row) => FullParse(codecs(row.parser), Lines(w.ingested), row.parser)
  }

  /** The row names the end of the ingested bytes and lines. */
  predicate RowMatches(w: World) {
    && Complete(w.content, NEWLINE) && Complete(w.ingested, NEWLINE)
    && (w.row.None? ==> w.ingested == [])
    && (w.row.Some? ==>
          && w.row.value.offset == |w.ingested| && w.row.value.lineCount == |Lines(w.ingested)|
          && w.row.value.parser <= w.version)
  }

  /** A plan starts from nothing, or at the line boundary where the ingested bytes end. */
  predicate PlanFits(w: World, plan: Plan) {
    plan == FROM_SCRATCH
    || (w.row.Some? && w.row.value.parser == w.version && plan == Plan(false, |w.ingested|, |Lines(w.ingested)|))
  }

  ghost predicate Inv(codecs: nat -> Codec, w: World) {
    w.tables == TablesFor(codecs, w) && RowMatches(w) && (!w.phase.Idle? ==> PlanFits(w, w.phase.plan))
  }

  lemma InvInit(codecs: nat -> Codec, content: Bytes, mtime: int, version: nat)
    requires Complete(content, NEWLINE)
    ensures Inv(codecs, Unseen(content, mtime, version))
  {
  }

  /** A planned pass over more lines gives the full parse of the ingested lines and these. */
  lemma LoadIsFullParse(codec: Codec, plan: Plan, t: Tables, known: seq<Bytes>, more: seq<Bytes>,
                        all: seq<Bytes>, version: nat)
    requires plan == FROM_SCRATCH ==> more == all
    requires plan != FROM_SCRATCH ==>
               !plan.rebuild && plan.seqNo == |known| && all == known + more && t == FullParse(codec, known, version)
    ensures Load(codec, plan, t, more, version) == FullParse(codec, all, version)
    ensures plan.seqNo + |more| == |all|
  {
    if plan != FROM_SCRATCH {
      ResumeIsFullParse(codec, known, more, all, version);
    }
  }

  /** Behind any offset of a file of whole lines there is nothing, or the rest ends with a whole line. */
  lemma RestIsComplete(content: Bytes, offset: nat)
    requires Complete(content, NEWLINE)
    ensures Complete(From(content, offset), NEWLINE)
  {
  }

  /** The bytes and lines that a read adds. */
  lemma ReadAdds(w: World, plan: Plan)
    requires RowMatches(w) && PlanFits(w, plan)
    ensures var rest := From(w.content, plan.offset);
            var all := if plan.rebuild then rest else w.ingested + rest;
            && Complete(all, NEWLINE) && |all| == plan.offset + |rest|
            && (plan == FROM_SCRATCH ==> Lines(all) == Lines(rest))
            && (plan != FROM_SCRATCH ==> !plan.rebuild && plan.seqNo == |Lines(w.ingested)|
                                         && Lines(all) == Lines(w.ingested) + Lines(rest))
  {
    var rest := From(w.content, plan.offset);
    RestIsComplete(w.content, plan.offset);
    CompleteConcat(w.ingested, rest);
    SplitConcat(w.ingested, rest, NEWLINE);
  }

  /** The end of a pass: the tables are the full parse of what is ingested then. */
  lemma ReadKeepsInv(codecs: nat -> Codec, w: World)
    requires Inv(codecs, w) && w.phase.Stated?
    ensures Inv(codecs, Do(codecs, w, ReadAndWrite))
  {
    var plan := w.phase.plan;
    var rest := From(w.content, plan.offset);
    var all := if plan.rebuild then rest else w.ingested + rest;
    ReadAdds(w, plan);
    LoadIsFullParse(codecs(w.version), plan, w.tables, Lines(w.ingested), Lines(rest), Lines(all), w.version);
  }

  lemma CompleteConcat(a: Bytes, b: Bytes)
    requires Complete(a, NEWLINE) && Complete(b, NEWLINE)
    ensures Complete(a + b, NEWLINE)
  {
  }

  /** Every step keeps the invariant. */
  lemma InvStep(codecs: nat -> Codec, w: World, a: Action)
    requires Inv(codecs, w) && Enabled(w, a)
    ensures Inv(codecs, Do(codecs, w, a))
  {
    match a
    case Append(more, _) => CompleteConcat(w.content, more);
    case ReadAndWrite => ReadKeepsInv(codecs, w);
    case _ =>
  }

  // ---------------------------------------------------------------------------------------------
  // Whole histories

  function Run(codecs: nat -> Codec, w: World, actions: seq<Action>): World
    decreases |actions|
  {
    if actions == [] then w else Run(codecs, Do(codecs, w, actions[0]), actions[1..])
  }

  predicate AllEnabled(codecs: nat -> Codec, w: World, actions: seq<Action>)
    decreases |actions|
  {
    actions == [] || (Enabled(w, actions[0]) && AllEnabled(codecs, Do(codecs, w, actions[0]), actions[1..]))
  }

  lemma {:induction false} InvRun(codecs: nat -> Codec, w: World, actions: seq<Action>)
    requires Inv(codecs, w) && AllEnabled(codecs, w, actions)
    ensures Inv(codecs, Run(codecs, w, actions))
    decreases |actions|
  {
    if actions != [] {
      InvStep(codecs, w, actions[0]);
      InvRun(codecs, Do(codecs, w, actions[0]), actions[1..]);
    }
  }

  /** After any history that starts with an unseen file, rewrites at any moment included, the tables
      are those of one full parse of the ingested bytes. */
  lemma TablesAfterAnyHistory(codecs: nat -> Codec, content: Bytes, mtime: int, version: nat, actions: seq<Action>)
    requires Complete(content, NEWLINE)
    requires AllEnabled(codecs, Unseen(content, mtime, version), actions)
    ensures var w := Run(codecs, Unseen(content, mtime, version), actions);
            w.row.Some? ==> w.tables == FullParse(codecs(w.row.value.parser), Lines(w.ingested), w.row.value.parser)
  {
    InvInit(codecs, content, mtime, version);
    InvRun(codecs, Unseen(content, mtime, version), actions);
  }

  // ---------------------------------------------------------------------------------------------
  // When a pass is exact

  /** A pass that nothing interrupts. */
  function SyncOnce(codecs: nat -> Codec, w: World, full: bool): World {
    var begun := Do(codecs, w, Begin(full));
    if begun.phase.Idle? then begun else Do(codecs, Do(codecs, begun, Stat), ReadAndWrite)
  }

  /** What is ingested when it ends. */
  function IngestedBy(w: World, full: bool): Bytes {
    match Planned(w, full)
    case None => w.ingested
    case Some(plan) => (if plan.rebuild then [] else w.ingested) + From(w.content, plan.offset)
  }

  lemma NothingPlanned(w: World, full: bool)
    requires RowMatches(w) && Planned(w, full).None?
    ensures w.row.Some? && w.row.value.parser == w.version
  {
  }

  lemma PassReads(codecs: nat -> Codec, w: World, full: bool)
    requires w.phase.Idle? && Planned(w, full).Some?
    ensures var end := SyncOnce(codecs, w, full);
            && end.phase.Idle? && end.content == w.content && end.ingested == IngestedBy(w, full)
            && end.row.Some? && end.row.value.parser == w.version
  {
    var plan := Planned(w, full).value;
    assert [] + From(w.content, plan.offset) == From(w.content, plan.offset);
  }

  lemma PassKeepsInv(codecs: nat -> Codec, w: World, full: bool)
    requires Inv(codecs, w) && w.phase.Idle?
    ensures Inv(codecs, SyncOnce(codecs, w, full))
  {
    var begun := Do(codecs, w, Begin(full));
    InvStep(codecs, w, Begin(full));
    if !begun.phase.Idle? {
      InvStep(codecs, begun, Stat);
      ReadKeepsInv(codecs, Do(codecs, begun, Stat));
    }
  }

  /** Whatever was rewritten before, the pass ends with the tables of one full parse, by the current
      parser, of what is ingested then. */
  lemma PassIngests(codecs: nat -> Codec, w: World, full: bool)
    requires Inv(codecs, w) && w.phase.Idle?
    ensures var end := SyncOnce(codecs, w, full);
            && end.phase.Idle? && end.content == w.content && end.ingested == IngestedBy(w, full)
            && end.tables == FullParse(codecs(w.version), Lines(IngestedBy(w, full)), w.version)
  {
    PassKeepsInv(codecs, w, full);
    if Planned(w, full).None? {
      NothingPlanned(w, full);
    } else {
      PassReads(codecs, w, full);
    }
  }

  /** The pass starts from scratch, or what was ingested is still the beginning of the file, and all of
      it if the pass does nothing. */
  predicate Trusted(w: World, full: bool) {
    match Planned(w, full)
    case None => w.ingested == w.content
    case Some(plan) => plan == FROM_SCRATCH || w.ingested <= w.content
  }

  lemma TrustedIff(w: World, full: bool)
    requires RowMatches(w)
    ensures IngestedBy(w, full) == w.content <==> Trusted(w, full)
  {
    var n := |w.ingested|;
    if Planned(w, full).Some? {
      assert w.content[0..] == w.content;
      assert n <= |w.content| ==> w.content == w.content[..n] + w.content[n..];
    }
  }

  /** Does the pass leave the tables of one full parse of the file? */
  ghost predicate PassIsExact(codecs: nat -> Codec, w: World, full: bool) {
    SyncOnce(codecs, w.(tables := TablesFor(codecs, w)), full).tables
    == FullParse(codecs(w.version), Lines(w.content), w.version)
  }

  lemma ExactIffSame(codecs: nat -> Codec, w: World, full: bool)
    requires RowMatches(w) && w.phase.Idle?
    ensures PassIsExact(codecs, w, full)
            <==> FullParse(codecs(w.version), Lines(IngestedBy(w, full)), w.version)
                 == FullParse(codecs(w.version), Lines(w.content), w.version)
  {
    PassIngests(codecs, w.(tables := TablesFor(codecs, w)), full);
  }

  /** For one given parser the pass is exact exactly if the lines that are ingested when it ends and the
      lines of the file have the same last row for every key of every table. */
  lemma ExactForParserIff(codecs: nat -> Codec, w: World, full: bool)
    requires RowMatches(w) && w.phase.Idle?
    ensures PassIsExact(codecs, w, full)
            <==> SameLastRows(ParseLines(codecs(w.version), Lines(IngestedBy(w, full)), 0),
                              ParseLines(codecs(w.version), Lines(w.content), 0), w.version)
  {
    ExactIffSame(codecs, w, full);
    SameTablesIff(ParseLines(codecs(w.version), Lines(IngestedBy(w, full)), 0),
                  ParseLines(codecs(w.version), Lines(w.content), 0), w.version);
  }

  lemma ExactPass(codecs: nat -> Codec, w: World, full: bool)
    requires RowMatches(w) && w.phase.Idle? && Trusted(w, full)
    ensures PassIsExact(codecs, w, full)
  {
    ExactIffSame(codecs, w, full);
    TrustedIff(w, full);
  }

  /** It is not if line `k` says another message than what was ingested in its place. */
  lemma StalePass(codecs: nat -> Codec, w: World, full: bool, k: nat)
    requires RowMatches(w) && w.phase.Idle?
    requires UserAt(codecs(w.version), Lines(IngestedBy(w, full)), k) != UserAt(codecs(w.version), Lines(w.content), k)
    ensures !PassIsExact(codecs, w, full)
  {
    ExactIffSame(codecs, w, full);
    UsersMeaning(codecs(w.version), Lines(IngestedBy(w, full)), w.version, k);
    UsersMeaning(codecs(w.version), Lines(w.content), w.version, k);
  }

  /** Parsers that find something in readable lines only. */
  ghost predicate ReadsOnly(codecs: nat -> Codec, readable: Bytes -> bool) {
    forall version, line | !readable(line) :: codecs(version).decode(line) == Skipped
  }

  function ReadableAt(lines: seq<Bytes>, readable: Bytes -> bool, k: nat): Option<Bytes> {
    if k < |lines| && readable(lines[k]) then Some(lines[k]) else None
  }

  /** The same readable lines, each at the same number. */
  ghost predicate SameReadable(a: seq<Bytes>, b: seq<Bytes>, readable: Bytes -> bool) {
    forall k: nat :: ReadableAt(a, readable, k) == ReadableAt(b, readable, k)
  }

  lemma SameReadablePass(codecs: nat -> Codec, w: World, full: bool, readable: Bytes -> bool)
    requires RowMatches(w) && w.phase.Idle? && ReadsOnly(codecs, readable)
    requires SameReadable(Lines(IngestedBy(w, full)), Lines(w.content), readable)
    ensures PassIsExact(codecs, w, full)
  {
    var codec, a, b := codecs(w.version), Lines(IngestedBy(w, full)), Lines(w.content);
    forall k: nat ensures EventAt(codec, a, k) == EventAt(codec, b, k) {
      assert ReadableAt(a, readable, k) == ReadableAt(b, readable, k);
    }
    SameEvents(codec, a, b, 0);
    ExactIffSame(codecs, w, full);
  }

  /** Some parser tells different readable lines apart. */
  lemma OtherReadablePass(w: World, full: bool, readable: Bytes -> bool) returns (codecs: nat -> Codec)
    requires RowMatches(w) && w.phase.Idle?
    requires !SameReadable(Lines(IngestedBy(w, full)), Lines(w.content), readable)
    ensures ReadsOnly(codecs, readable) && !PassIsExact(codecs, w, full)
  {
    var a, b := Lines(IngestedBy(w, full)), Lines(w.content);
    var k: nat :| ReadableAt(a, readable, k) != ReadableAt(b, readable, k);
    var line := if ReadableAt(a, readable, k).Some? then a[k] else b[k];
    codecs := (version: nat) => OnlyIn(line);
    StalePass(codecs, w, full, k);
  }

  /** For all parsers that read no more than the readable lines (well-formed JSON, say), a pass is
      exact exactly if these are the same in what is ingested when it ends and in the file. */
  lemma ReadableExactIff(w: World, full: bool, readable: Bytes -> bool)
    requires RowMatches(w) && w.phase.Idle?
    ensures (forall codecs: nat -> Codec | ReadsOnly(codecs, readable) :: PassIsExact(codecs, w, full))
            <==> SameReadable(Lines(IngestedBy(w, full)), Lines(w.content), readable)
  {
    if SameReadable(Lines(IngestedBy(w, full)), Lines(w.content), readable) {
      forall codecs: nat -> Codec | ReadsOnly(codecs, readable) ensures PassIsExact(codecs, w, full) {
        SameReadablePass(codecs, w, full, readable);
      }
    } else {
      var codecs := OtherReadablePass(w, full, readable);
    }
  }

  lemma AllReadable(a: Bytes, b: Bytes, readable: Bytes -> bool)
    requires forall line :: readable(line)
    ensures SameReadable(Lines(a), Lines(b), readable) <==> a == b
  {
    var x, y := Lines(a), Lines(b);
    if SameReadable(x, y, readable) {
      assert ReadableAt(x, readable, |y|) == ReadableAt(y, readable, |y|);
      assert ReadableAt(x, readable, |x|) == ReadableAt(y, readable, |x|);
      forall k: nat | k < |x| ensures x[k] == y[k] {
        assert ReadableAt(x, readable, k) == ReadableAt(y, readable, k);
      }
      assert x == y;
      FlattenOfSplit(a, NEWLINE);
      FlattenOfSplit(b, NEWLINE);
    }
  }

  /** A pass leaves the tables of one full parse of the file, whatever the lines say, exactly when it
      starts from scratch or finds what was ingested still in front of the file. */
  lemma PassIsExactIff(w: World, full: bool)
    requires RowMatches(w) && w.phase.Idle?
    ensures (forall codecs: nat -> Codec :: PassIsExact(codecs, w, full)) <==> Trusted(w, full)
  {
    TrustedIff(w, full);
    if Trusted(w, full) {
      forall codecs: nat -> Codec ensures PassIsExact(codecs, w, full) {
        ExactPass(codecs, w, full);
      }
    } else {
      AllReadable(IngestedBy(w, full), w.content, (line: Bytes) => true);
      var codecs := OtherReadablePass(w, full, (line: Bytes) => true);
    }
  }

  // ---------------------------------------------------------------------------------------------
  // What a pass reads

  /** A full pass starts from scratch, whatever is stored. */
  lemma FullPass(codecs: nat -> Codec, w: World)
    requires w.phase.Idle?
    ensures var end := SyncOnce(codecs, w, true);
            && end.tables == FullParse(codecs(w.version), Lines(w.content), w.version)
            && end.row == Some(Row(w.mtime, |w.content|, |w.content|, |Lines(w.content)|, w.version))
            && end.ingested == w.content
  {
    assert w.content[0..] == w.content;
  }

  /** A pass can end at either moment before the read, and leaves nothing behind. */
  lemma AbortedPass(codecs: nat -> Codec, w: World, full: bool)
    requires w.phase.Idle? && Planned(w, full).Some?
    ensures var early, late := [Begin(full), Abort], [Begin(full), Stat, Abort];
            && AllEnabled(codecs, w, early) && Run(codecs, w, early) == w
            && AllEnabled(codecs, w, late) && Run(codecs, w, late) == w
  {
    var begun := Do(codecs, w, Begin(full));
    var stated := Do(codecs, begun, Stat);
    assert [Begin(full), Abort][1..] == [Abort] && [Begin(full), Stat, Abort][1..] == [Stat, Abort];
    assert [Stat, Abort][1..] == [Abort] && [Abort][1..] == [];
    assert Run(codecs, begun, [Abort]) == w && Run(codecs, stated, [Abort]) == w;
  }

  /** A second pass over the same file does nothing. */
  lemma PassTwice(codecs: nat -> Codec, w: World, full: bool)
    requires w.phase.Idle?
    ensures SyncOnce(codecs, SyncOnce(codecs, w, full), false) == SyncOnce(codecs, w, full)
  {
  }

  /** When lines are added to a file that has been read to its end, the next pass reads just these. */
  lemma AppendedAlone(codecs: nat -> Codec, w: World, more: Bytes, at: int)
    requires Growing(w) && w.phase.Idle? && w.ingested == w.content && more != []
    requires w.row.Some? && w.row.value.parser == w.version
    ensures var plan := Planned(w.(content := w.content + more, mtime := at), false);
            && plan == Some(Plan(false, |w.content|, |Lines(w.content)|))
            && From(w.content + more, plan.value.offset) == more
  {
  }

  // ---------------------------------------------------------------------------------------------
  // Rewrites

  /** A file is rewritten between two passes, after a pass during which it did not grow. The next pass
      is exact in just three cases: the file is shorter than what was ingested; it has that length and
      a newer time stamp; or it still begins with what was ingested. */
  lemma RewriteNoticedIff(w: World, content: Bytes, at: int)
    requires RowMatches(w) && w.phase.Idle? && Complete(content, NEWLINE)
    requires w.row.Some? && w.row.value.parser == w.version && w.row.value.size == w.row.value.offset
    ensures (forall codecs: nat -> Codec :: PassIsExact(codecs, w.(content := content, mtime := at), false))
            <==> || |content| < |w.ingested| || (|content| == |w.ingested| && at > w.row.value.mtime)
                 || w.ingested <= content
  {
    PassIsExactIff(w.(content := content, mtime := at), false);
  }

  /** The first pass reads the whole file. */
  lemma FirstPass(codecs: nat -> Codec, content: Bytes, mtime: int, version: nat)
    requires Complete(content, NEWLINE)
    ensures var w := SyncOnce(codecs, Unseen(content, mtime, version), false);
            && Inv(codecs, w) && w.phase.Idle? && w.version == version && w.ingested == content
            && w.row == Some(Row(mtime, |content|, |content|, |Lines(content)|, version))
  {
    InvInit(codecs, content, mtime, version);
    PassKeepsInv(codecs, Unseen(content, mtime, version), false);
    assert content[0..] == content;
  }

  /** Some file is read; then its bytes are replaced by as many others, and more lines follow. The next
      pass reads only these. Whatever the parser, the tables are stale if it finds different messages in
      any two lines `k` of the old and the new bytes. */
  lemma RewriteUnnoticed(codecs: nat -> Codec, before: Bytes, after: Bytes, more: Bytes,
                         mtime: int, at: int, version: nat, k: nat)
    requires Complete(before, NEWLINE) && Complete(after, NEWLINE) && |before| == |after|
    requires Complete(more, NEWLINE) && more != []
    requires k < |Lines(before)| && k < |Lines(after)|
    requires UserOf(codecs(version), Lines(before)[k], k) != UserOf(codecs(version), Lines(after)[k], k)
    ensures var w := Do(codecs, SyncOnce(codecs, Unseen(before, mtime, version), false), Rewrite(after + more, at));
            && Inv(codecs, w) && IngestedBy(w, false) == before + more
            && SyncOnce(codecs, w, false).tables != FullParse(codecs(version), Lines(after + more), version)
  {
    var idle := SyncOnce(codecs, Unseen(before, mtime, version), false);
    FirstPass(codecs, before, mtime, version);
    CompleteConcat(after, more);
    InvStep(codecs, idle, Rewrite(after + more, at));
    var w := Do(codecs, idle, Rewrite(after + more, at));
    assert (after + more)[|after|..] == more;
    SplitConcat(before, more, NEWLINE);
    SplitConcat(after, more, NEWLINE);
    StalePass(codecs, w, false, k);
    assert w.(tables := TablesFor(codecs, w)) == w;
  }

  // ---------------------------------------------------------------------------------------------
  // Append-only histories

  /** The steps of an append-only history, in the order of the moments of a pass. */
  predicate InOrder(w: World, a: Action) {
    Enabled(w, a) && !a.Rewrite?
  }

  predicate AllInOrder(codecs: nat -> Codec, w: World, actions: seq<Action>)
    decreases |actions|
  {
    actions == [] || (InOrder(w, actions[0]) && AllInOrder(codecs, Do(codecs, w, actions[0]), actions[1..]))
  }

  /** What was ingested is the beginning of the file, and the sizes the passes saw do not exceed it. */
  predicate Growing(w: World) {
    && RowMatches(w) && w.ingested <= w.content
    && (w.row.Some? ==> w.row.value.size <= |w.ingested|)
    && (!w.phase.Idle? ==> PlanFits(w, w.phase.plan))
    && (w.phase.Stated? ==> w.phase.size <= |w.content|)
  }

  lemma GrowingAppend(w: World, more: Bytes, at: int)
    requires Growing(w) && Complete(more, NEWLINE)
    ensures Growing(w.(content := w.content + more, mtime := at))
  {
    CompleteConcat(w.content, more);
    assert w.ingested <= w.content + more;
  }

  /** A read reaches the end of the file. */
  lemma GrowingRead(codecs: nat -> Codec, w: World)
    requires Growing(w) && w.phase.Stated?
    ensures Growing(Do(codecs, w, ReadAndWrite)) && Do(codecs, w, ReadAndWrite).ingested == w.content
  {
    var plan := w.phase.plan;
    var rest := From(w.content, plan.offset);
    if plan == FROM_SCRATCH {
      assert rest == w.content;
    } else {
      RestIsComplete(w.content, plan.offset);
      assert w.content == w.ingested + rest;
      SplitConcat(w.ingested, rest, NEWLINE);
    }
  }

  lemma GrowingStep(codecs: nat -> Codec, w: World, a: Action)
    requires Growing(w) && InOrder(w, a)
    ensures Growing(Do(codecs, w, a))
  {
    match a
    case Append(more, at) => GrowingAppend(w, more, at);
    case ReadAndWrite => GrowingRead(codecs, w);
    case _ =>
  }

  /** Appending never makes a resume stale. */
  lemma {:induction false} AppendsAreNeverStale(codecs: nat -> Codec, w: World, actions: seq<Action>)
    requires Growing(w) && AllInOrder(codecs, w, actions)
    ensures AllEnabled(codecs, w, actions) && Growing(Run(codecs, w, actions))
    decreases |actions|
  {
    if actions != [] {
      GrowingStep(codecs, w, actions[0]);
      AppendsAreNeverStale(codecs, Do(codecs, w, actions[0]), actions[1..]);
    }
  }

  lemma GrowingIsTrusted(w: World, full: bool)
    requires Growing(w)
    ensures Trusted(w, full)
  {
  }

  /** For every interleaving of whole-line appends, upgrades and the moments of any number of passes
      over a file first seen by the sync, one more pass gives the tables of one full parse of the
      final file. */
  lemma AnyInterleaving(codecs: nat -> Codec, content: Bytes, mtime: int, version: nat,
                        actions: seq<Action>, full: bool)
    requires Complete(content, NEWLINE)
    requires AllInOrder(codecs, Unseen(content, mtime, version), actions)
    requires Run(codecs, Unseen(content, mtime, version), actions).phase.Idle?
    ensures var w := Run(codecs, Unseen(content, mtime, version), actions);
            SyncOnce(codecs, w, full).tables == FullParse(codecs(w.version), Lines(w.content), w.version)
  {
    var start := Unseen(content, mtime, version);
    AppendsAreNeverStale(codecs, start, actions);
    InvInit(codecs, content, mtime, version);
    InvRun(codecs, start, actions);
    var w := Run(codecs, start, actions);
    GrowingIsTrusted(w, full);
    ExactPass(codecs, w, full);
    assert w.(tables := TablesFor(codecs, w)) == w;
  }
}
