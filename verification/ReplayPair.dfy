/** The counterfactual replay of all reads of one file in one session under other read limits.

    Phase one replays the observed reads and skips those already delivered; phase two buys, in
    chunks, the lines the session did receive and phase one did not deliver. */
module ReplayPair {
  import opened Wrappers
  import opened Intervals
  import opened Numbers
  import Records

  datatype Kind = Bare | Range | Raw | Conflicts | Other

  datatype Intent = Intent(kind: Kind, start: Option<int>, end: Option<int>)

  /** A read: what was asked for, and the lines that came back. */
  datatype ReadCall = ReadCall(intent: Intent, actualA: Option<int>, actualB: Option<int>)

  datatype FileStats = FileStats(sizeLines: int, tokensPerLine: real, bytesPerLine: real)

  datatype Config = Config(defaultPage: int, lineCap: int, byteCap: nat, summarizeMin: int)

  const ROUNDTRIP_OVERHEAD := 200.0

  /** Lines that fit into the byte cap; at least one. */
  function ByteLines(fs: FileStats, cfg: Config): (n: int)
    requires fs.bytesPerLine > 0.0
    ensures n >= 1
  {
    Max(1, (cfg.byteCap as real / fs.bytesPerLine).Floor)
  }

  function MaxPerCall(fs: FileStats, cfg: Config): int {
    if fs.bytesPerLine > 0.0 then Min(cfg.lineCap, ByteLines(fs, cfg)) else cfg.lineCap
  }

  /** `start or 1`: an absent start and the start 0 both mean line 1. */
  function StartOr1(start: Option<int>): int {
    if start == Some(0) then 1 else start.GetOr(1)
  }

  function EffectiveReturned(rc: ReadCall, fs: FileStats, cfg: Config): (r: Option<Interval>)
    ensures r.None? <==> rc.intent.kind.Conflicts? || rc.intent.kind.Other?
    ensures r.Some? ==> Valid(r.value) && r.value.hi < r.value.lo + Max(1, MaxPerCall(fs, cfg))
  {
    var size := Max(fs.sizeLines, 1);
    match rc.intent.kind
    case Bare => Some(Clip(1, cfg.defaultPage, size, fs, cfg))
    case Range =>
      var start := StartOr1(rc.intent.start);
      Some(Clip(start, rc.intent.end.GetOr(start + cfg.defaultPage - 1), size, fs, cfg))
    case Raw => Some(Clip(1, size, size, fs, cfg))
    case _ => None
  }

  function Clip(start: int, endIntent: int, size: int, fs: FileStats, cfg: Config): (iv: Interval)
    ensures iv.lo == start && Valid(iv) && iv.hi < start + Max(1, MaxPerCall(fs, cfg))
    ensures iv.hi <= Max(start, Min(endIntent, size))
  {
    var e1 := Min(Min(endIntent, size), start + cfg.lineCap - 1);
    var e2 := if fs.bytesPerLine > 0.0 then Min(e1, start + ByteLines(fs, cfg) - 1) else e1;
    Interval(start, Max(start, e2))
  }

  // ---------------------------------------------------------------------------------------------
  // The lines of a window

  lemma TimesFits(n: int, q: real, r: real)
    requires r > 0.0
    ensures n as real <= q <==> n as real * r <= q * r
  {
    if n as real <= q {
      assert (q - n as real) * r >= 0.0;
    } else {
      assert (n as real - q) * r > 0.0;
    }
  }

  /** `n` lines fit into the byte cap exactly if their bytes do. */
  lemma BytesFit(n: int, cap: nat, r: real)
    requires r > 0.0
    ensures n <= (cap as real / r).Floor <==> n as real * r <= cap as real
  {
    var q := cap as real / r;
    assert q * r == cap as real;
    TimesFits(n, q, r);
  }

  /** The line that a read starts at: the requested one, or 1. */
  function FirstLine(intent: Intent): int {
    if intent.kind.Range? && intent.start.Some? && intent.start.value != 0 then intent.start.value else 1
  }

  /** The read asks for line `x`: a bare read for the default page, a raw one for the whole file. */
  predicate AsksFor(intent: Intent, fs: FileStats, cfg: Config, x: int) {
    match intent.kind
    case Bare => x <= cfg.defaultPage
    case Raw => x <= fs.sizeLines || x <= 1
    case Range => x <= if intent.end.Some? then intent.end.value else FirstLine(intent) + cfg.defaultPage - 1
    case _ => false
  }

  /** The first `n` lines are within the line cap and the byte cap. */
  predicate WithinCaps(n: int, fs: FileStats, cfg: Config) {
    n <= cfg.lineCap && (fs.bytesPerLine > 0.0 ==> n as real * fs.bytesPerLine <= cfg.byteCap as real)
  }

  lemma ClipLines(start: int, endIntent: int, size: int, fs: FileStats, cfg: Config, x: int)
    ensures In(x, Clip(start, endIntent, size, fs, cfg))
            <==> || x == start
                 || (start < x && x <= endIntent && x <= size && x - start + 1 <= cfg.lineCap
                     && (fs.bytesPerLine > 0.0 ==> x - start + 1 <= ByteLines(fs, cfg)))
  {
  }

  lemma ByteLinesIff(n: int, fs: FileStats, cfg: Config)
    requires fs.bytesPerLine > 0.0
    ensures n <= ByteLines(fs, cfg) <==> n <= 1 || n as real * fs.bytesPerLine <= cfg.byteCap as real
  {
    BytesFit(n, cfg.byteCap, fs.bytesPerLine);
  }

  lemma CapsIff(n: int, fs: FileStats, cfg: Config)
    requires n > 1
    ensures WithinCaps(n, fs, cfg) <==> n <= cfg.lineCap && (fs.bytesPerLine > 0.0 ==> n <= ByteLines(fs, cfg))
  {
    if fs.bytesPerLine > 0.0 {
      ByteLinesIff(n, fs, cfg);
    }
  }

  /** A read returns its first line, and every later line that it asks for, that the file has and that is
      within the caps; nothing else. */
  lemma ReturnedLines(rc: ReadCall, fs: FileStats, cfg: Config, x: int)
    ensures var r, first := EffectiveReturned(rc, fs, cfg), FirstLine(rc.intent);
            && (r.Some? <==> rc.intent.kind.Bare? || rc.intent.kind.Range? || rc.intent.kind.Raw?)
            && (r.Some? ==>
                  (In(x, r.value) <==>
                     || x == first
                     || (first < x && AsksFor(rc.intent, fs, cfg, x) && (x <= fs.sizeLines || x <= 1)
                         && WithinCaps(x - first + 1, fs, cfg))))
  {
    var size, first := Max(fs.sizeLines, 1), FirstLine(rc.intent);
    if x > first {
      CapsIff(x - first + 1, fs, cfg);
    }
    match rc.intent.kind
    case Bare => ClipLines(1, cfg.defaultPage, size, fs, cfg, x);
    case Range => ClipLines(first, rc.intent.end.GetOr(first + cfg.defaultPage - 1), size, fs, cfg, x);
    case Raw => ClipLines(1, size, size, fs, cfg, x);
    case _ =>
  }

  /** A chunk may hold one line, or as many as are within the caps. */
  lemma ChunkCap(n: int, fs: FileStats, cfg: Config)
    requires cfg.lineCap >= 1 && n >= 1
    ensures n <= MaxPerCall(fs, cfg) <==> n == 1 || WithinCaps(n, fs, cfg)
  {
    if n > 1 {
      CapsIff(n, fs, cfg);
    }
  }

  function CostOfChunk(iv: Interval, fs: FileStats, kind: Kind, cfg: Config): real {
    var raw := Max(iv.hi - iv.lo + 1, 0) as real * fs.tokensPerLine;
    if kind.Bare? && cfg.summarizeMin >= 0 && fs.sizeLines >= cfg.summarizeMin then raw * 0.35 else raw
  }

  // ---------------------------------------------------------------------------------------------
  // Phase one

  datatype Phase1 = Phase1(covered: seq<Interval>, total: real, kept: nat)

  /** One more read. */
  function ReplayRead(p: Phase1, rc: ReadCall, fs: FileStats, cfg: Config): Phase1 {
    var ret := EffectiveReturned(rc, fs, cfg);
    if ret.None? || Contained(ret.value, p.covered) then p
    else Phase1(Union(p.covered + [ret.value]),
                p.total + CostOfChunk(ret.value, fs, rc.intent.kind, cfg) + ROUNDTRIP_OVERHEAD,
                p.kept + 1)
  }

  function ReplayReads(calls: seq<ReadCall>, fs: FileStats, cfg: Config): Phase1 {
    if calls == [] then Phase1([], 0.0, 0)
    else ReplayRead(ReplayReads(calls[..|calls| - 1], fs, cfg), calls[|calls| - 1], fs, cfg)
  }

  /** Is line `x` in what some read would return? */
  ghost predicate Returned(calls: seq<ReadCall>, fs: FileStats, cfg: Config, x: int) {
    exists rc | rc in calls :: EffectiveReturned(rc, fs, cfg).Some? && In(x, EffectiveReturned(rc, fs, cfg).value)
  }

  lemma UnionSnoc(covered: seq<Interval>, iv: Interval)
    requires Canonical(covered) && Valid(iv)
    ensures Canonical(Union(covered + [iv]))
    ensures forall x :: Covers(Union(covered + [iv]), x) <==> Covers(covered, x) || In(x, iv)
  {
    assert forall c | c in covered :: Valid(c);
    UnionCanonical(covered + [iv]);
    CoversSnoc(covered, iv);
  }

  /** Skipping loses nothing and adds nothing: phase one delivers exactly the lines that the reads
      would return one by one, whatever their order. */
  lemma {:induction false} Phase1Delivers(calls: seq<ReadCall>, fs: FileStats, cfg: Config)
    ensures var p := ReplayReads(calls, fs, cfg);
            Canonical(p.covered) && forall x :: Covers(p.covered, x) <==> Returned(calls, fs, cfg, x)
  {
    if calls != [] {
      var init, rc := calls[..|calls| - 1], calls[|calls| - 1];
      Phase1Delivers(init, fs, cfg);
      var p, ret := ReplayReads(init, fs, cfg), EffectiveReturned(rc, fs, cfg);
      assert calls == init + [rc];
      ReturnedSnoc(init, rc, fs, cfg);
      if ret.Some? {
        ContainedIff(p.covered, ret.value);
        UnionSnoc(p.covered, ret.value);
      }
    }
  }

  lemma ReturnedSnoc(calls: seq<ReadCall>, rc: ReadCall, fs: FileStats, cfg: Config)
    ensures forall x :: Returned(calls + [rc], fs, cfg, x) <==>
              Returned(calls, fs, cfg, x)
              || (EffectiveReturned(rc, fs, cfg).Some? && In(x, EffectiveReturned(rc, fs, cfg).value))
  {
    assert forall r :: r in calls + [rc] <==> r in calls || r == rc;
  }

  /** A read is skipped, and not charged, exactly when it names no lines or earlier reads delivered
      every line of it. */
  lemma SkippedIffDelivered(calls: seq<ReadCall>, rc: ReadCall, fs: FileStats, cfg: Config)
    ensures var ret := EffectiveReturned(rc, fs, cfg);
            var p := ReplayReads(calls, fs, cfg);
            ReplayRead(p, rc, fs, cfg).kept == p.kept
            <==> ret.None? || forall x | In(x, ret.value) :: Returned(calls, fs, cfg, x)
  {
    Phase1Delivers(calls, fs, cfg);
    var ret := EffectiveReturned(rc, fs, cfg);
    if ret.Some? {
      ContainedIff(ReplayReads(calls, fs, cfg).covered, ret.value);
    }
  }

  // ---------------------------------------------------------------------------------------------
  // Phase two

  /** The intervals the session really received. */
  function Observed(calls: seq<ReadCall>): (ivs: seq<Interval>)
    ensures AllValid(ivs)
  {
    if calls == [] then []
    else
      var rc := calls[|calls| - 1];
      Observed(calls[..|calls| - 1])
      + if rc.actualA.Some? && rc.actualB.Some? && rc.actualB.value >= rc.actualA.value
        then [Interval(rc.actualA.value, rc.actualB.value)] else []
  }

  function Gaps(needs: seq<Interval>, covered: seq<Interval>): seq<Interval> {
    if needs == [] then [] else Subtract(needs[0], covered) + Gaps(needs[1..], covered)
  }

  function AllChunks(gaps: seq<Interval>, cap: nat): seq<Interval>
    requires cap >= 1
  {
    if gaps == [] then [] else Chunks(gaps[0].lo, gaps[0].hi, cap) + AllChunks(gaps[1..], cap)
  }

  /** The chunks phase two buys. */
  function BoughtChunks(calls: seq<ReadCall>, fs: FileStats, cfg: Config): seq<Interval>
    requires cfg.lineCap >= 1
  {
    AllChunks(Gaps(Union(Observed(calls)), ReplayReads(calls, fs, cfg).covered), MaxPerCall(fs, cfg))
  }

  function ChunkCost(chunks: seq<Interval>, fs: FileStats, cfg: Config): real {
    if chunks == [] then 0.0
    else ChunkCost(chunks[..|chunks| - 1], fs, cfg)
         + CostOfChunk(chunks[|chunks| - 1], fs, Range, cfg) + ROUNDTRIP_OVERHEAD
  }

  /** How many intervals of the list hold line `x`. */
  function Count(ivs: seq<Interval>, x: int): nat {
    if ivs == [] then 0 else (if In(x, ivs[0]) then 1 else 0) + Count(ivs[1..], x)
  }

  lemma {:induction false} CountConcat(a: seq<Interval>, b: seq<Interval>, x: int)
    ensures Count(a + b, x) == Count(a, x) + Count(b, x)
  {
    if a == [] {
      assert a + b == b;
    } else {
      assert (a + b)[1..] == a[1..] + b;
      CountConcat(a[1..], b, x);
    }
  }

  lemma {:induction false} CountCanonical(ivs: seq<Interval>, x: int)
    requires Canonical(ivs)
    ensures Count(ivs, x) == if Covers(ivs, x) then 1 else 0
  {
    if ivs != [] {
      CountCanonical(ivs[1..], x);
      SpacedTail(ivs);
      CoversCons(ivs);
    }
  }

  /** The chunks of one range: each line of it once, no chunk above the cap. */
  lemma {:induction false} ChunksPartition(s: int, e: int, cap: nat)
    requires cap >= 1
    ensures forall x :: Count(Chunks(s, e, cap), x) == if s <= x <= e then 1 else 0
    ensures forall c | c in Chunks(s, e, cap) :: Valid(c) && c.hi - c.lo + 1 <= cap
    decreases e + 1 - s
  {
    if s <= e {
      ChunksPartition(Min(s + cap - 1, e) + 1, e, cap);
    }
  }

  lemma {:induction false} AllChunksPartition(gaps: seq<Interval>, cap: nat, x: int)
    requires cap >= 1 && AllValid(gaps)
    ensures Count(AllChunks(gaps, cap), x) == Count(gaps, x)
    ensures forall c | c in AllChunks(gaps, cap) :: Valid(c) && c.hi - c.lo + 1 <= cap
  {
    if gaps != [] {
      assert gaps[0] in gaps;
      ChunksPartition(gaps[0].lo, gaps[0].hi, cap);
      AllChunksPartition(gaps[1..], cap, x);
      CountConcat(Chunks(gaps[0].lo, gaps[0].hi, cap), AllChunks(gaps[1..], cap), x);
    }
  }

  lemma {:induction false} GapsPartition(needs: seq<Interval>, covered: seq<Interval>, x: int)
    requires AllValid(needs) && AllValid(covered)
    ensures AllValid(Gaps(needs, covered))
    ensures Count(Gaps(needs, covered), x) == if Covers(covered, x) then 0 else Count(needs, x)
  {
    if needs != [] {
      assert needs[0] in needs;
      GapsPartition(needs[1..], covered, x);
      SubtractExact(needs[0], covered);
      var first := Subtract(needs[0], covered);
      CountCanonical(first, x);
      CountConcat(first, Gaps(needs[1..], covered), x);
      assert forall c | c in first :: Valid(c);
    }
  }

  lemma CanonicalAllValid(ivs: seq<Interval>)
    requires Canonical(ivs)
    ensures AllValid(ivs)
  {
  }

  /** Phase two buys every line the session received and phase one missed, each in exactly one
      chunk, buys no other line, and no chunk is above the line and byte caps. */
  lemma BoughtExactly(calls: seq<ReadCall>, fs: FileStats, cfg: Config)
    requires cfg.lineCap >= 1
    ensures forall x :: Count(BoughtChunks(calls, fs, cfg), x) ==
              if Covers(Observed(calls), x) && !Returned(calls, fs, cfg, x) then 1 else 0
    ensures forall c | c in BoughtChunks(calls, fs, cfg) :: Valid(c) && c.hi - c.lo + 1 <= MaxPerCall(fs, cfg)
  {
    var needs, p := Union(Observed(calls)), ReplayReads(calls, fs, cfg);
    Phase1Delivers(calls, fs, cfg);
    UnionCanonical(Observed(calls));
    CanonicalAllValid(needs);
    CanonicalAllValid(p.covered);
    var gaps, cap := Gaps(needs, p.covered), MaxPerCall(fs, cfg);
    forall x ensures Count(BoughtChunks(calls, fs, cfg), x) ==
                     if Covers(Observed(calls), x) && !Returned(calls, fs, cfg, x) then 1 else 0
    {
      GapsPartition(needs, p.covered, x);
      AllChunksPartition(gaps, cap, x);
      CountCanonical(needs, x);
    }
    GapsPartition(needs, p.covered, 0);
    AllChunksPartition(gaps, cap, 0);
  }

  lemma {:induction false} CountCovers(ivs: seq<Interval>, x: int)
    ensures Covers(ivs, x) <==> Count(ivs, x) > 0
  {
    if ivs != [] {
      CoversCons(ivs);
      CountCovers(ivs[1..], x);
    }
  }

  // ---------------------------------------------------------------------------------------------
  // What the replay charges

  /** Bare reads of a file that is long enough for the summarizer cost 35 percent. */
  function Rate(fs: FileStats, kind: Kind, cfg: Config): real {
    if kind.Bare? && cfg.summarizeMin >= 0 && fs.sizeLines >= cfg.summarizeMin then 0.35 * fs.tokensPerLine
    else fs.tokensPerLine
  }

  lemma CostIs(iv: Interval, fs: FileStats, kind: Kind, cfg: Config)
    requires Valid(iv)
    ensures CostOfChunk(iv, fs, kind, cfg) == (iv.hi - iv.lo + 1) as real * Rate(fs, kind, cfg)
  {
  }

  /** Some line that the read returns was returned by no earlier one. */
  ghost predicate BringsNew(calls: seq<ReadCall>, fs: FileStats, cfg: Config, k: nat)
    requires k < |calls|
  {
    var r := EffectiveReturned(calls[k], fs, cfg);
    r.Some? && exists x :: In(x, r.value) && !Returned(calls[..k], fs, cfg, x)
  }

  /** The reads that bring something new, and what they cost: their lines, and 200 tokens each. */
  ghost function NewReads(calls: seq<ReadCall>, fs: FileStats, cfg: Config, n: nat): nat
    requires n <= |calls|
  {
    if n == 0 then 0
    else NewReads(calls, fs, cfg, n - 1) + if BringsNew(calls, fs, cfg, n - 1) then 1 else 0
  }

  ghost function NewCost(calls: seq<ReadCall>, fs: FileStats, cfg: Config, n: nat): real
    requires n <= |calls|
  {
    if n == 0 then 0.0
    else if !BringsNew(calls, fs, cfg, n - 1) then NewCost(calls, fs, cfg, n - 1)
    else
      NewCost(calls, fs, cfg, n - 1)
      + ReadCost(EffectiveReturned(calls[n - 1], fs, cfg).value, Rate(fs, calls[n - 1].intent.kind, cfg))
  }

  /** The lines of a window at a rate, and 200 tokens for the call. */
  function ReadCost(iv: Interval, rate: real): real {
    (iv.hi - iv.lo + 1) as real * rate + 200.0
  }

  lemma PaidIs(p: Phase1, rc: ReadCall, fs: FileStats, cfg: Config, iv: Interval, cost: real)
    requires EffectiveReturned(rc, fs, cfg) == Some(iv) && !Contained(iv, p.covered)
    requires cost == CostOfChunk(iv, fs, rc.intent.kind, cfg)
    ensures var q := ReplayRead(p, rc, fs, cfg); q.kept == p.kept + 1 && q.total == p.total + cost + 200.0
  {
  }

  lemma ReadCostIs(iv: Interval, fs: FileStats, kind: Kind, cfg: Config, rate: real)
    requires Valid(iv) && rate == Rate(fs, kind, cfg)
    ensures CostOfChunk(iv, fs, kind, cfg) + 200.0 == ReadCost(iv, rate)
  {
    CostIs(iv, fs, kind, cfg);
  }

  lemma NewIff(calls: seq<ReadCall>, fs: FileStats, cfg: Config, k: nat)
    requires k < |calls|
    ensures var r := EffectiveReturned(calls[k], fs, cfg);
            BringsNew(calls, fs, cfg, k)
            <==> r.Some? && !Contained(r.value, ReplayReads(calls[..k], fs, cfg).covered)
  {
    Phase1Delivers(calls[..k], fs, cfg);
    var r := EffectiveReturned(calls[k], fs, cfg);
    if r.Some? {
      ContainedIff(ReplayReads(calls[..k], fs, cfg).covered, r.value);
    }
  }

  lemma {:induction false} Phase1Charges(calls: seq<ReadCall>, fs: FileStats, cfg: Config, n: nat)
    requires n <= |calls|
    ensures ReplayReads(calls[..n], fs, cfg).kept == NewReads(calls, fs, cfg, n)
    ensures ReplayReads(calls[..n], fs, cfg).total == NewCost(calls, fs, cfg, n)
  {
    if n > 0 {
      Phase1Charges(calls, fs, cfg, n - 1);
      NewIff(calls, fs, cfg, n - 1);
      ReplayNext(calls, fs, cfg, n - 1);
      if BringsNew(calls, fs, cfg, n - 1) {
        var rc, iv := calls[n - 1], EffectiveReturned(calls[n - 1], fs, cfg).value;
        PaidIs(ReplayReads(calls[..n - 1], fs, cfg), rc, fs, cfg, iv, CostOfChunk(iv, fs, rc.intent.kind, cfg));
        ReadCostIs(iv, fs, rc.intent.kind, cfg, Rate(fs, rc.intent.kind, cfg));
      }
    }
  }

  function LinesOf(chunks: seq<Interval>): int {
    if chunks == [] then 0
    else LinesOf(chunks[..|chunks| - 1]) + chunks[|chunks| - 1].hi - chunks[|chunks| - 1].lo + 1
  }

  /** Chunks cost their lines at the full rate, and 200 tokens each. */
  lemma {:induction false} ChunkCostIs(chunks: seq<Interval>, fs: FileStats, cfg: Config)
    requires forall c | c in chunks :: Valid(c)
    ensures ChunkCost(chunks, fs, cfg) == LinesOf(chunks) as real * fs.tokensPerLine + 200.0 * |chunks| as real
  {
    if chunks != [] {
      var front, last := chunks[..|chunks| - 1], chunks[|chunks| - 1];
      ChunkCostIs(front, fs, cfg);
      CostIs(last, fs, Range, cfg);
      AddTimes(LinesOf(front), last.hi - last.lo + 1, fs.tokensPerLine);
    }
  }

  lemma AddTimes(a: int, b: int, r: real)
    ensures (a + b) as real * r == a as real * r + b as real * r
  {
  }

  // ---------------------------------------------------------------------------------------------
  // The replay itself

  lemma {:induction false} CostConcat(a: seq<Interval>, b: seq<Interval>, fs: FileStats, cfg: Config)
    ensures ChunkCost(a + b, fs, cfg) == ChunkCost(a, fs, cfg) + ChunkCost(b, fs, cfg)
  {
    if b == [] {
      assert a + b == a;
    } else {
      assert (a + b)[..|a + b| - 1] == a + b[..|b| - 1];
      CostConcat(a, b[..|b| - 1], fs, cfg);
    }
  }

  lemma ObservedSnoc(calls: seq<ReadCall>, k: nat)
    requires k < |calls|
    ensures Observed(calls[..k + 1]) ==
            Observed(calls[..k])
            + if calls[k].actualA.Some? && calls[k].actualB.Some? && calls[k].actualB.value >= calls[k].actualA.value
              then [Interval(calls[k].actualA.value, calls[k].actualB.value)] else []
  {
    assert calls[..k + 1][..k] == calls[..k];
  }

  lemma ReplayNext(calls: seq<ReadCall>, fs: FileStats, cfg: Config, k: nat)
    requires k < |calls|
    ensures Canonical(ReplayReads(calls[..k], fs, cfg).covered)
    ensures ReplayReads(calls[..k + 1], fs, cfg) == ReplayRead(ReplayReads(calls[..k], fs, cfg), calls[k], fs, cfg)
  {
    Phase1Delivers(calls[..k], fs, cfg);
    assert calls[..k + 1][..k] == calls[..k];
  }

  /** One read of phase one: skipped, or charged and folded into the coverage. */
  method ChargeRead(p: Phase1, rc: ReadCall, fs: FileStats, cfg: Config) returns (next: Phase1)
    requires Canonical(p.covered)
    ensures next == ReplayRead(p, rc, fs, cfg)
  {
    var ret := EffectiveReturned(rc, fs, cfg);
    if ret.None? || Contained(ret.value, p.covered) {
      return p;
    }
    CanonicalAllValid(p.covered);
    var total := p.total + CostOfChunk(ret.value, fs, rc.intent.kind, cfg);
    total := total + ROUNDTRIP_OVERHEAD;
    var covered := Merge(p.covered + [ret.value]);
    next := Phase1(covered, total, p.kept + 1);
  }

  /** Phase one, and the lines the session received. */
  method ReplayObserved(calls: seq<ReadCall>, fs: FileStats, cfg: Config)
    returns (p: Phase1, observed: seq<Interval>)
    ensures p == ReplayReads(calls, fs, cfg) && observed == Observed(calls)
  {
    p := Phase1([], 0.0, 0);
    observed := [];
    for i := 0 to |calls|
      invariant observed == Observed(calls[..i])
      invariant p == ReplayReads(calls[..i], fs, cfg)
    {
      var rc := calls[i];
      ObservedSnoc(calls, i);
      ReplayNext(calls, fs, cfg, i);
      if rc.actualA.Some? && rc.actualB.Some? && rc.actualB.value >= rc.actualA.value {
        observed := observed + [Interval(rc.actualA.value, rc.actualB.value)];
      }
      p := ChargeRead(p, rc, fs, cfg);
    }
    assert calls[..|calls|] == calls;
  }

  method FindGaps(needs: seq<Interval>, covered: seq<Interval>) returns (gaps: seq<Interval>)
    ensures gaps == Gaps(needs, covered)
  {
    gaps := [];
    for i := 0 to |needs|
      invariant gaps + Gaps(needs[i..], covered) == Gaps(needs, covered)
    {
      var rest := SubtractIntervals(needs[i], covered);
      assert needs[i..][1..] == needs[i + 1..];
      Records.ConcatAssoc(gaps, rest, Gaps(needs[i + 1..], covered));
      gaps := gaps + rest;
    }
    assert needs[|needs|..] == [];
  }

  /** Phase two: buys the chunks of every gap. */
  method FillGaps(gaps: seq<Interval>, covered0: seq<Interval>, fs: FileStats, cfg: Config)
    returns (total: real, kept: nat, covered: seq<Interval>)
    requires cfg.lineCap >= 1 && AllValid(gaps) && Canonical(covered0)
    ensures kept == |AllChunks(gaps, MaxPerCall(fs, cfg))|
    ensures total == ChunkCost(AllChunks(gaps, MaxPerCall(fs, cfg)), fs, cfg)
    ensures Canonical(covered)
    ensures forall x :: Covers(covered, x) <==>
              Covers(covered0, x) || Covers(AllChunks(gaps, MaxPerCall(fs, cfg)), x)
  {
    ghost var cap, bought: seq<Interval> := MaxPerCall(fs, cfg), [];
    total, kept, covered := 0.0, 0, covered0;
    for i := 0 to |gaps|
      invariant bought + AllChunks(gaps[i..], cap) == AllChunks(gaps, cap)
      invariant kept == |bought| && total == ChunkCost(bought, fs, cfg)
      invariant Canonical(covered)
      invariant forall x :: Covers(covered, x) <==> Covers(covered0, x) || Covers(bought, x)
    {
      var chunks := ChunkRange(gaps[i].lo, gaps[i].hi, MaxPerCall(fs, cfg));
      assert gaps[i..][1..] == gaps[i + 1..];
      Records.ConcatAssoc(bought, chunks, AllChunks(gaps[i + 1..], cap));
      CostConcat(bought, chunks, fs, cfg);
      var cost, count, wider := ChargeChunks(chunks, covered, fs, cfg);
      total, kept := total + cost, kept + count;
      ChunksPartition(gaps[i].lo, gaps[i].hi, cap);
      CanonicalAllValid(covered);
      CoversConcat(covered, chunks);
      CoversConcat(bought, chunks);
      covered := Merge(wider);
      bought := bought + chunks;
    }
    assert gaps[|gaps|..] == [] && bought + [] == bought;
  }

  method ChargeChunks(chunks: seq<Interval>, covered0: seq<Interval>, fs: FileStats, cfg: Config)
    returns (total: real, kept: nat, covered: seq<Interval>)
    ensures total == ChunkCost(chunks, fs, cfg) && kept == |chunks| && covered == covered0 + chunks
  {
    total, kept, covered := 0.0, 0, covered0;
    for j := 0 to |chunks|
      invariant kept == j && total == ChunkCost(chunks[..j], fs, cfg) && covered == covered0 + chunks[..j]
    {
      total := total + CostOfChunk(chunks[j], fs, Range, cfg);
      total := total + ROUNDTRIP_OVERHEAD;
      kept := kept + 1;
      covered := covered + [chunks[j]];
      assert chunks[..j + 1][..j] == chunks[..j];
    }
    assert chunks[..|chunks|] == chunks;
  }

  /** Charges the reads phase one keeps and the chunks phase two buys, and nothing else; `covered`
      is the coverage the replay ends with. */
  method Replay(calls: seq<ReadCall>, fs: FileStats, cfg: Config)
    returns (total: real, kept: nat, covered: seq<Interval>)
    requires cfg.lineCap >= 1
    ensures kept == ReplayReads(calls, fs, cfg).kept + |BoughtChunks(calls, fs, cfg)|
    ensures total == ReplayReads(calls, fs, cfg).total + ChunkCost(BoughtChunks(calls, fs, cfg), fs, cfg)
    ensures Canonical(covered)
    ensures forall x :: Covers(covered, x) <==> Returned(calls, fs, cfg, x) || Covers(Observed(calls), x)
  {
    var p, observed := ReplayObserved(calls, fs, cfg);
    var needs := Merge(observed);
    var gaps := FindGaps(needs, p.covered);
    Phase1Delivers(calls, fs, cfg);
    CanonicalAllValid(p.covered);
    CanonicalAllValid(needs);
    GapsPartition(needs, p.covered, 0);
    var cost, count;
    cost, count, covered := FillGaps(gaps, p.covered, fs, cfg);
    total, kept := p.total + cost, p.kept + count;
    BoughtCovers(calls, fs, cfg);
  }

  lemma BoughtCovers(calls: seq<ReadCall>, fs: FileStats, cfg: Config)
    requires cfg.lineCap >= 1
    ensures forall x :: Covers(BoughtChunks(calls, fs, cfg), x) <==>
              Covers(Observed(calls), x) && !Returned(calls, fs, cfg, x)
  {
    BoughtExactly(calls, fs, cfg);
    forall x ensures Covers(BoughtChunks(calls, fs, cfg), x) <==> Count(BoughtChunks(calls, fs, cfg), x) > 0 {
      CountCovers(BoughtChunks(calls, fs, cfg), x);
    }
  }
}
