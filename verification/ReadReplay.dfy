/** The replay of read calls under other window settings: a read is paid for unless everything it
    asks for was delivered to its group (one file in one session) before. */
module ReadReplay {
  import opened Wrappers
  import opened Intervals
  import opened Numbers

  datatype Kind = Explicit | Open | Default | Unbounded

  datatype ReadCall = ReadCall(kind: Kind, start: Option<int>, end: Option<int>,
                               argTokens: int, resultTokens: int, tokenPerLine: real)

  datatype Config = Config(default: int, maxLines: int, leading: nat, trailing: nat)

  const CURRENT_MAX_BYTES := 51200

  function Requested(call: ReadCall, cfg: Config): Option<Interval> {
    if call.kind.Explicit? && call.start.Some? && call.end.Some? then
      Some(Interval(call.start.value, call.end.value))
    else if call.kind.Open? && call.start.Some? then
      Some(Interval(call.start.value, call.start.value + cfg.default - 1))
    else if call.kind.Default? then Some(Interval(1, cfg.default))
    else None
  }

  function Delivered(call: ReadCall, cfg: Config): (d: Option<Interval>)
    ensures d.Some? <==> Requested(call, cfg).Some?
  {
    var req := Requested(call, cfg);
    if req.None? then None
    else
      var s, e := req.value.lo, req.value.hi;
      match call.kind
      case Explicit =>
        var start := if s > 1 then Max(1, s - cfg.leading) else 1;
        var lines := Min(Max(1, e - s + 1) + (s - start) + cfg.trailing, cfg.maxLines);
        Some(Interval(start, start + lines - 1))
      case Open =>
        var start := if s > 1 then Max(1, s - cfg.leading) else 1;
        Some(Interval(start, start + Min(cfg.default + (s - start), cfg.maxLines) - 1))
      case Default => Some(Interval(1, Min(cfg.default, cfg.maxLines)))
      case Unbounded => None
  }

  /** What the reader of the call log guarantees: no range is reversed and no line number negative. */
  predicate WellFormed(call: ReadCall) {
    && (call.kind.Explicit? && call.start.Some? && call.end.Some? ==> 0 <= call.start.value <= call.end.value)
    && (call.kind.Open? && call.start.Some? ==> call.start.value >= 0)
  }

  /** A configuration that delivers at least one line. */
  predicate Sane(cfg: Config) { cfg.default >= 1 && cfg.maxLines >= 1 }

  predicate AllWellFormed(group: seq<ReadCall>, cfg: Config) {
    Sane(cfg) && forall call | call in group :: WellFormed(call)
  }

  /** A request is never empty; what is delivered can be, for a request that starts at line 0. */
  lemma DeliveredIsWindow(call: ReadCall, cfg: Config)
    requires WellFormed(call) && Sane(cfg)
    ensures Requested(call, cfg).Some? ==>
              && Valid(Requested(call, cfg).value) && Window(Delivered(call, cfg).value)
              && (Requested(call, cfg).value.lo >= 1 ==> Valid(Delivered(call, cfg).value))
  {
  }

  // ---------------------------------------------------------------------------------------------
  // What happens to one call of a group

  datatype Verdict =
    | Raw(cost: real)
    | Skipped
    | Paid(delivered: Interval, cost: real, truncated: bool, bytesLimited: bool)

  function IsTruncated(call: ReadCall, lines: int, cfg: Config): bool {
    && lines >= cfg.maxLines && call.kind.Explicit?
    && Max(1, EndOrStart(call) - StartOr1(call) + 1) + cfg.leading + cfg.trailing > cfg.maxLines
  }

  /** `call.start or 1` */
  function StartOr1(call: ReadCall): int {
    if call.start == Some(0) then 1 else call.start.GetOr(1)
  }

  /** `call.end or call.start or 1` */
  function EndOrStart(call: ReadCall): int {
    if call.end.Some? && call.end.value != 0 then call.end.value else StartOr1(call)
  }

  function Judge(coverage: seq<Interval>, first: bool, call: ReadCall, cfg: Config): Verdict {
    var req, delivered := Requested(call, cfg), Delivered(call, cfg);
    if req.None? then Raw((call.argTokens + call.resultTokens) as real)
    else if !first && IsCovered(coverage, req.value) then Skipped
    else Pay(call, delivered.value, cfg)
  }

  function Pay(call: ReadCall, delivered: Interval, cfg: Config): Verdict {
    var lines := delivered.hi - delivered.lo + 1;
    var tokens := call.tokenPerLine * lines as real;
    Paid(delivered, call.argTokens as real + Budgeted(tokens, lines),
         IsTruncated(call, lines, cfg), IsOverBudget(tokens, lines))
  }

  /** The bytes that so many lines may have, at four bytes a token. */
  function Budget(lines: int): real { Max(CURRENT_MAX_BYTES, lines * 512) as real }

  predicate IsOverBudget(tokens: real, lines: int) { tokens * 4.0 > Budget(lines) }

  function Budgeted(tokens: real, lines: int): real {
    if IsOverBudget(tokens, lines) then Budget(lines) / 4.0 else tokens
  }

  /** The coverage in front of call `k` of a group. */
  function Coverage(group: seq<ReadCall>, cfg: Config, k: nat): seq<Interval>
    requires k <= |group|
    decreases k, 0
  {
    if k == 0 then []
    else
      var v := VerdictAt(group, cfg, k - 1);
      if v.Paid? then Add(Coverage(group, cfg, k - 1), v.delivered) else Coverage(group, cfg, k - 1)
  }

  function VerdictAt(group: seq<ReadCall>, cfg: Config, k: nat): Verdict
    requires k < |group|
    decreases k, 1
  {
    Judge(Coverage(group, cfg, k), k == 0, group[k], cfg)
  }

  /** Was line `x` delivered by a paid call before call `k`? */
  ghost predicate DeliveredBefore(group: seq<ReadCall>, cfg: Config, k: nat, x: int)
    requires k <= |group|
  {
    exists j: nat | j < k :: VerdictAt(group, cfg, j).Paid? && In(x, VerdictAt(group, cfg, j).delivered)
  }

  lemma {:induction false} CoverageIsDelivered(group: seq<ReadCall>, cfg: Config, k: nat)
    requires k <= |group| && AllWellFormed(group, cfg)
    ensures Spaced(Coverage(group, cfg, k))
    ensures forall x :: Covers(Coverage(group, cfg, k), x) <==> DeliveredBefore(group, cfg, k, x)
  {
    if k > 0 {
      CoverageIsDelivered(group, cfg, k - 1);
      var v := VerdictAt(group, cfg, k - 1);
      assert group[k - 1] in group;
      DeliveredIsWindow(group[k - 1], cfg);
      if v.Paid? {
        AddSpaced(Coverage(group, cfg, k - 1), v.delivered);
      }
      forall x ensures DeliveredBefore(group, cfg, k, x) <==>
                       DeliveredBefore(group, cfg, k - 1, x) || (v.Paid? && In(x, v.delivered)) {
      }
    }
  }

  /** A read is skipped exactly when it is bounded and paid calls of its group delivered every line
      of it before. */
  lemma SkippedIffDelivered(group: seq<ReadCall>, cfg: Config, k: nat)
    requires k < |group| && AllWellFormed(group, cfg)
    ensures VerdictAt(group, cfg, k).Skipped? <==>
            && Requested(group[k], cfg).Some?
            && forall x | In(x, Requested(group[k], cfg).value) :: DeliveredBefore(group, cfg, k, x)
  {
    CoverageIsDelivered(group, cfg, k);
    assert group[k] in group;
    DeliveredIsWindow(group[k], cfg);
    var req := Requested(group[k], cfg);
    if req.Some? {
      IsCoveredIff(Coverage(group, cfg, k), req.value);
      assert In(req.value.lo, req.value);
    }
  }

  /** A paid explicit request that is not delivered in full is counted as a truncation. */
  lemma ShortDeliveryIsTruncation(call: ReadCall, cfg: Config, coverage: seq<Interval>, first: bool)
    requires call.kind.Explicit? && call.start.Some? && call.end.Some? && 1 <= call.start.value <= call.end.value
    ensures var v := Judge(coverage, first, call, cfg);
            v.Paid? ==> v.truncated || Contains(v.delivered, call)
  {
  }

  /** A paid explicit request of `n` lines gets fewer exactly if these and the lines in front of it
      exceed the cap. */
  lemma ShortIff(call: ReadCall, cfg: Config, coverage: seq<Interval>, first: bool)
    requires call.kind.Explicit? && call.start.Some? && call.end.Some? && 1 <= call.start.value <= call.end.value
    ensures var v, n := Judge(coverage, first, call, cfg), call.end.value - call.start.value + 1;
            var lead := Min(call.start.value - 1, cfg.leading);
            v.Paid? ==> (Contains(v.delivered, call) <==> n + lead <= cfg.maxLines)
  {
  }

  /** ... and is counted as a truncation exactly if the window with the context on both sides reaches
      the cap, and would exceed it with all the context that the configuration allows in front. */
  lemma CountedIff(call: ReadCall, cfg: Config, coverage: seq<Interval>, first: bool)
    requires call.kind.Explicit? && call.start.Some? && call.end.Some? && 1 <= call.start.value <= call.end.value
    ensures var v, n := Judge(coverage, first, call, cfg), call.end.value - call.start.value + 1;
            var lead := Min(call.start.value - 1, cfg.leading);
            v.Paid? ==> (v.truncated <==> n + lead + cfg.trailing >= cfg.maxLines
                                          && n + cfg.leading + cfg.trailing > cfg.maxLines)
  {
  }

  predicate Contains(delivered: Interval, call: ReadCall)
    requires call.start.Some? && call.end.Some?
  {
    delivered.lo <= call.start.value && call.end.value <= delivered.hi
  }

  /** So a request can be counted and delivered in full. */
  lemma CountedInFull(call: ReadCall, cfg: Config)
    requires call.kind.Explicit? && call.start == Some(1) && call.end == Some(105) && cfg == Config(50, 105, 10, 0)
    ensures var v := Judge([], true, call, cfg); v.Paid? && v.truncated && Contains(v.delivered, call)
  {
  }

  // ---------------------------------------------------------------------------------------------
  // The totals

  datatype Cohort = Cohort(tokens: real, calls: nat, skipped: nat)

  datatype Totals = Totals(all: Cohort, selector: Cohort, default: Cohort, raw: Cohort,
                           truncations: nat, bytesLimited: nat,
                           selectorGroups: nat, selectorSingle: nat, selectorAllFirst: nat)

  const NOBODY := Cohort(0.0, 0, 0)

  const ZERO := Totals(NOBODY, NOBODY, NOBODY, NOBODY, 0, 0, 0, 0, 0)

  function Join(a: Cohort, b: Cohort): Cohort {
    Cohort(a.tokens + b.tokens, a.calls + b.calls, a.skipped + b.skipped)
  }

  function Plus(a: Totals, b: Totals): Totals {
    Totals(Join(a.all, b.all), Join(a.selector, b.selector), Join(a.default, b.default), Join(a.raw, b.raw),
           a.truncations + b.truncations, a.bytesLimited + b.bytesLimited,
           a.selectorGroups + b.selectorGroups, a.selectorSingle + b.selectorSingle,
           a.selectorAllFirst + b.selectorAllFirst)
  }

  predicate SelectorFirst(group: seq<ReadCall>) {
    group != [] && (group[0].kind.Explicit? || group[0].kind.Open?)
  }

  predicate DefaultFirst(group: seq<ReadCall>) {
    group != [] && group[0].kind.Default?
  }

  function One(b: bool): nat { if b then 1 else 0 }

  function Charge(v: Verdict): Cohort {
    if v.Skipped? then Cohort(0.0, 0, 1) else Cohort(v.cost, 1, 0)
  }

  /** What one verdict adds, in a group that starts with a selector, a default read or neither. */
  function Share(v: Verdict, selector: bool, default: bool): Totals {
    Totals(Charge(v), if selector then Charge(v) else NOBODY, if default then Charge(v) else NOBODY,
           if v.Raw? then Charge(v) else NOBODY,
           One(v.Paid? && v.truncated), One(v.Paid? && v.bytesLimited), 0, 0, 0)
  }

  predicate ServedBy(delivered: Interval, call: ReadCall, cfg: Config) {
    Requested(call, cfg).Some? ==> IsCovered([delivered], Requested(call, cfg).value)
  }

  /** The first read already delivers everything bounded that the group asks for later. */
  predicate FirstServesAll(group: seq<ReadCall>, cfg: Config) {
    && group != [] && Delivered(group[0], cfg).Some?
    && forall k | 1 <= k < |group| :: ServedBy(Delivered(group[0], cfg).value, group[k], cfg)
  }

  function Flags(selector: bool, single: bool, served: bool): Totals {
    ZERO.(selectorGroups := One(selector), selectorSingle := One(selector && single),
          selectorAllFirst := One(selector && (served || single)))
  }

  function GroupFlags(group: seq<ReadCall>, cfg: Config): Totals {
    Flags(SelectorFirst(group), |group| == 1, FirstServesAll(group, cfg))
  }

  function SumTotals(ts: seq<Totals>): Totals {
    if ts == [] then ZERO else Plus(SumTotals(ts[..|ts| - 1]), ts[|ts| - 1])
  }

  function CallShare(group: seq<ReadCall>, cfg: Config, k: nat): Totals
    requires k < |group|
  {
    Share(VerdictAt(group, cfg, k), SelectorFirst(group), DefaultFirst(group))
  }

  /** What the calls of a group add, one by one. */
  function CallShares(group: seq<ReadCall>, cfg: Config, n: nat): (ts: seq<Totals>)
    requires n <= |group|
    ensures |ts| == n
  {
    if n == 0 then [] else CallShares(group, cfg, n - 1) + [CallShare(group, cfg, n - 1)]
  }

  function GroupTotals(group: seq<ReadCall>, cfg: Config): Totals {
    Plus(SumTotals(CallShares(group, cfg, |group|)), GroupFlags(group, cfg))
  }

  function AllTotals(groups: seq<seq<ReadCall>>, cfg: Config): (ts: seq<Totals>)
    ensures |ts| == |groups|
  {
    if groups == [] then []
    else AllTotals(groups[..|groups| - 1], cfg) + [GroupTotals(groups[|groups| - 1], cfg)]
  }

  lemma SumSnoc(ts: seq<Totals>, t: Totals)
    ensures SumTotals(ts + [t]) == Plus(SumTotals(ts), t)
  {
    assert (ts + [t])[..|ts|] == ts;
  }

  method Replay(groups: seq<seq<ReadCall>>, cfg: Config) returns (t: Totals)
    requires forall group | group in groups :: group != [] && AllWellFormed(group, cfg)
    ensures t == SumTotals(AllTotals(groups, cfg))
  {
    t := ZERO;
    for i := 0 to |groups|
      invariant t == SumTotals(AllTotals(groups[..i], cfg))
    {
      assert groups[i] in groups;
      AllTotalsSnoc(groups, cfg, i);
      var g := ReplayGroup(groups[i], cfg);
      t := Plus(t, g);
    }
    assert groups[..|groups|] == groups;
  }

  lemma AllTotalsSnoc(groups: seq<seq<ReadCall>>, cfg: Config, i: nat)
    requires i < |groups|
    ensures SumTotals(AllTotals(groups[..i + 1], cfg)) ==
            Plus(SumTotals(AllTotals(groups[..i], cfg)), GroupTotals(groups[i], cfg))
  {
    assert groups[..i + 1][..i] == groups[..i];
    SumSnoc(AllTotals(groups[..i], cfg), GroupTotals(groups[i], cfg));
  }

  method ReplayGroup(group: seq<ReadCall>, cfg: Config) returns (t: Totals)
    requires group != [] && AllWellFormed(group, cfg)
    ensures t == GroupTotals(group, cfg)
  {
    var selectorFirst := group[0].kind.Explicit? || group[0].kind.Open?;
    t := ZERO;
    var coverage: seq<Interval> := [];
    for idx := 0 to |group|
      invariant t == SumTotals(CallShares(group, cfg, idx))
      invariant coverage == Coverage(group, cfg, idx)
    {
      var share;
      share, coverage := ReplayCall(group, cfg, idx, coverage);
      CallSharesSnoc(group, cfg, idx);
      t := Plus(t, share);
    }
    var coveredAllByFirst := false;
    if selectorFirst {
      coveredAllByFirst := FirstCoversLater(group, cfg);
    }
    t := Plus(t, Flags(selectorFirst, |group| == 1, coveredAllByFirst));
  }

  /** One call: skipped when its request is covered, otherwise paid and folded into the coverage. */
  method ReplayCall(group: seq<ReadCall>, cfg: Config, k: nat, coverage: seq<Interval>)
    returns (share: Totals, wider: seq<Interval>)
    requires k < |group| && AllWellFormed(group, cfg) && coverage == Coverage(group, cfg, k)
    ensures share == CallShare(group, cfg, k) && wider == Coverage(group, cfg, k + 1)
  {
    CoverageIsDelivered(group, cfg, k);
    assert group[k] in group;
    DeliveredIsWindow(group[k], cfg);
    var v := Judge(coverage, k == 0, group[k], cfg);
    assert v == VerdictAt(group, cfg, k);
    share := Share(v, SelectorFirst(group), DefaultFirst(group));
    wider := coverage;
    if v.Paid? {
      wider := AddInterval(coverage, v.delivered);
    }
  }

  lemma CallSharesSnoc(group: seq<ReadCall>, cfg: Config, k: nat)
    requires k < |group|
    ensures SumTotals(CallShares(group, cfg, k + 1)) ==
            Plus(SumTotals(CallShares(group, cfg, k)), CallShare(group, cfg, k))
  {
    SumSnoc(CallShares(group, cfg, k), CallShare(group, cfg, k));
  }

  lemma {:induction false} CallSharesAt(group: seq<ReadCall>, cfg: Config, n: nat, k: nat)
    requires k < n <= |group|
    ensures CallShares(group, cfg, n)[k] == CallShare(group, cfg, k)
  {
    if k < n - 1 {
      CallSharesAt(group, cfg, n - 1, k);
    }
  }

  lemma {:induction false} AllTotalsAt(groups: seq<seq<ReadCall>>, cfg: Config, i: nat)
    requires i < |groups|
    ensures AllTotals(groups, cfg)[i] == GroupTotals(groups[i], cfg)
  {
    if i < |groups| - 1 {
      AllTotalsAt(groups[..|groups| - 1], cfg, i);
    }
  }

  /** Does the window delivered first hold every later bounded request? */
  method FirstCoversLater(group: seq<ReadCall>, cfg: Config) returns (all: bool)
    requires group != []
    ensures all == FirstServesAll(group, cfg)
  {
    var delivered := Delivered(group[0], cfg);
    if delivered.None? {
      return false;
    }
    all := true;
    for j := 1 to |group|
      invariant all
      invariant forall k | 1 <= k < j :: ServedBy(delivered.value, group[k], cfg)
    {
      var later := Requested(group[j], cfg);
      if later.Some? && !IsCovered([delivered.value], later.value) {
        assert !ServedBy(delivered.value, group[j], cfg);
        return false;
      }
    }
  }

  // ---------------------------------------------------------------------------------------------
  // Conservation

  datatype Which = All | Selector | DefaultReads

  predicate Counts(which: Which, group: seq<ReadCall>) {
    match which
    case All => true
    case Selector => SelectorFirst(group)
    case DefaultReads => DefaultFirst(group)
  }

  /** The number of reads in the groups of one cohort. */
  function Length(groups: seq<seq<ReadCall>>, which: Which): nat {
    if groups == [] then 0
    else
      var last := groups[|groups| - 1];
      Length(groups[..|groups| - 1], which) + if Counts(which, last) then |last| else 0
  }

  function CohortOf(t: Totals, which: Which): Cohort {
    match which
    case All => t.all
    case Selector => t.selector
    case DefaultReads => t.default
  }

  function Reads(c: Cohort): nat { c.calls + c.skipped }

  lemma {:induction false} SumOfReads(ts: seq<Totals>, which: Which, each: nat)
    requires forall t | t in ts :: Reads(CohortOf(t, which)) == each
    requires each <= 1
    ensures Reads(CohortOf(SumTotals(ts), which)) == if each == 1 then |ts| else 0
  {
    if ts != [] {
      assert ts[|ts| - 1] in ts;
      SumOfReads(ts[..|ts| - 1], which, each);
    }
  }

  /** A single call is one read, paid or skipped, of each cohort its group belongs to. */
  lemma ShareIsOneRead(group: seq<ReadCall>, cfg: Config, k: nat, which: Which)
    requires k < |group|
    ensures Reads(CohortOf(CallShare(group, cfg, k), which)) == One(Counts(which, group))
  {
    var v := VerdictAt(group, cfg, k);
  }

  lemma GroupConserves(group: seq<ReadCall>, cfg: Config, which: Which)
    ensures Reads(CohortOf(GroupTotals(group, cfg), which)) == if Counts(which, group) then |group| else 0
  {
    var ts := CallShares(group, cfg, |group|);
    forall t | t in ts ensures Reads(CohortOf(t, which)) == One(Counts(which, group)) {
      var k :| 0 <= k < |ts| && ts[k] == t;
      CallSharesAt(group, cfg, |group|, k);
      ShareIsOneRead(group, cfg, k, which);
    }
    SumOfReads(ts, which, One(Counts(which, group)));
  }

  /** Every read is either paid or skipped, overall and within the selector and default cohorts. */
  lemma {:induction false} PaidPlusSkipped(groups: seq<seq<ReadCall>>, cfg: Config, which: Which)
    ensures Reads(CohortOf(SumTotals(AllTotals(groups, cfg)), which)) == Length(groups, which)
  {
    if groups != [] {
      var init, last := groups[..|groups| - 1], groups[|groups| - 1];
      PaidPlusSkipped(init, cfg, which);
      GroupConserves(last, cfg, which);
      SumSnoc(AllTotals(init, cfg), GroupTotals(last, cfg));
    }
  }

  lemma {:induction false} NoTruncationInPart(ts: seq<Totals>, i: nat)
    requires i < |ts| && SumTotals(ts).truncations == 0
    ensures ts[i].truncations == 0
  {
    if i < |ts| - 1 {
      NoTruncationInPart(ts[..|ts| - 1], i);
    }
  }

  /** With no truncation reported, every explicit request of every group gets all its lines, at the
      latest when it is made. */
  lemma NoTruncationMeansDelivered(groups: seq<seq<ReadCall>>, cfg: Config, i: nat, k: nat)
    requires i < |groups| && k < |groups[i]| && AllWellFormed(groups[i], cfg)
    requires SumTotals(AllTotals(groups, cfg)).truncations == 0
    requires groups[i][k].kind.Explicit? && groups[i][k].start.Some? && groups[i][k].end.Some?
    requires 1 <= groups[i][k].start.value <= groups[i][k].end.value
    ensures forall x | In(x, Requested(groups[i][k], cfg).value) :: DeliveredBefore(groups[i], cfg, k + 1, x)
  {
    NoTruncationInPart(AllTotals(groups, cfg), i);
    AllTotalsAt(groups, cfg, i);
    NoTruncationInPart(CallShares(groups[i], cfg, |groups[i]|), k);
    CallSharesAt(groups[i], cfg, |groups[i]|, k);
    assert !(VerdictAt(groups[i], cfg, k).Paid? && VerdictAt(groups[i], cfg, k).truncated);
    UntruncatedIsDelivered(groups[i], cfg, k);
  }

  lemma UntruncatedIsDelivered(group: seq<ReadCall>, cfg: Config, k: nat)
    requires k < |group| && AllWellFormed(group, cfg)
    requires group[k].kind.Explicit? && group[k].start.Some? && group[k].end.Some?
    requires 1 <= group[k].start.value <= group[k].end.value
    requires !(VerdictAt(group, cfg, k).Paid? && VerdictAt(group, cfg, k).truncated)
    ensures forall x | In(x, Requested(group[k], cfg).value) :: DeliveredBefore(group, cfg, k + 1, x)
  {
    SkippedIffDelivered(group, cfg, k);
    ShortDeliveryIsTruncation(group[k], cfg, Coverage(group, cfg, k), k == 0);
    var v := VerdictAt(group, cfg, k);
    forall x | In(x, Requested(group[k], cfg).value) ensures DeliveredBefore(group, cfg, k + 1, x) {
      if v.Skipped? {
        assert DeliveredBefore(group, cfg, k, x);
      } else {
        assert In(x, v.delivered);
      }
    }
  }
}
