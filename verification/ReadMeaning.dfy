/** What the replay of read calls delivers and charges, line by line and call by call. */
module ReadMeaning {
  import opened Wrappers
  import opened Intervals
  import opened Numbers
  import opened ReadReplay

  // ---------------------------------------------------------------------------------------------
  // Windows

  /** The line that the window starts at: the context in front is cut off at line 1. */
  function FirstLine(s: int, cfg: Config): int {
    if s - cfg.leading >= 1 then s - cfg.leading else 1
  }

  /** What a call asks for, line by line; other calls have no bounds. */
  lemma RequestedLines(call: ReadCall, cfg: Config, x: int)
    ensures var r := Requested(call, cfg);
            && (r.Some? <==> || (call.kind.Explicit? && call.start.Some? && call.end.Some?)
                             || (call.kind.Open? && call.start.Some?) || call.kind.Default?)
            && (r.Some? ==>
                  (In(x, r.value) <==>
                     match call.kind
                     case Explicit => call.start.value <= x <= call.end.value
                     case Open => call.start.value <= x < call.start.value + cfg.default
                     case Default => 1 <= x <= cfg.default
                     case Unbounded => false))
  {
  }

  /** What it gets: an explicit request with context on both sides, an open one with context in front, a
      default read the first lines; never more lines than the cap. */
  lemma DeliveredLines(call: ReadCall, cfg: Config, x: int)
    requires WellFormed(call) && Sane(cfg)
    ensures var d := Delivered(call, cfg);
            d.Some? ==>
              (In(x, d.value) <==>
                 match call.kind
                 case Explicit =>
                   var first := FirstLine(call.start.value, cfg);
                   first <= x <= call.end.value + cfg.trailing && x < first + cfg.maxLines
                 case Open =>
                   var first := FirstLine(call.start.value, cfg);
                   first <= x < call.start.value + cfg.default && x < first + cfg.maxLines
                 case Default => 1 <= x <= cfg.default && x <= cfg.maxLines
                 case Unbounded => false)
  {
  }

  // ---------------------------------------------------------------------------------------------
  // Costs

  function Larger(a: real, b: real): real { if a >= b then a else b }

  function Smaller(a: real, b: real): real { if a <= b then a else b }

  /** The tokens that `n` lines may have at four bytes each: 50 kB, or 512 bytes a line if that is more. */
  function Most(n: int): real { Larger(12800.0, 128.0 * n as real) }

  lemma BudgetIs(n: int, tokens: real)
    ensures IsOverBudget(tokens, n) <==> tokens > Most(n)
    ensures Budgeted(tokens, n) == Smaller(tokens, Most(n))
  {
  }

  /** What is paid are the arguments and the tokens of the delivered lines within the budget. */
  lemma PayIs(call: ReadCall, d: Interval, cfg: Config, n: int, tokens: real)
    requires n == d.hi - d.lo + 1 && tokens == call.tokenPerLine * n as real
    ensures var v := Pay(call, d, cfg);
            && v.Paid? && v.delivered == d && v.cost == call.argTokens as real + Smaller(tokens, Most(n))
            && (v.bytesLimited <==> tokens > Most(n)) && v.truncated == IsTruncated(call, n, cfg)
  {
    BudgetIs(n, tokens);
  }

  /** An explicit call whose `n` lines reach the cap is truncated if the lines that it names, or a single
      one, exceed the cap together with the context. A bound of 0 counts as missing; then the first line is
      line 1, and the last line is the first. */
  lemma TruncatedIff(call: ReadCall, n: int, cfg: Config, s: int, e: int)
    requires if call.start.Some? && call.start.value != 0 then s == call.start.value else s == 1
    requires if call.end.Some? && call.end.value != 0 then e == call.end.value else e == s
    ensures IsTruncated(call, n, cfg)
            <==> && call.kind.Explicit? && n >= cfg.maxLines
                 && (e - s + 1 + cfg.leading + cfg.trailing > cfg.maxLines
                     || 1 + cfg.leading + cfg.trailing > cfg.maxLines)
  {
  }

  /** A call without bounds costs what it did; any other is skipped, or pays for its window. */
  lemma JudgeIs(call: ReadCall, cfg: Config, coverage: seq<Interval>, first: bool)
    ensures var v := Judge(coverage, first, call, cfg);
            && (v.Raw? <==> Requested(call, cfg).None?)
            && (v.Raw? ==> v.cost == (call.argTokens + call.resultTokens) as real)
            && (v.Paid? ==> Some(v.delivered) == Delivered(call, cfg) && v == Pay(call, v.delivered, cfg))
  {
  }

  // ---------------------------------------------------------------------------------------------
  // Totals

  /** The figures of the replay. */
  datatype Figure =
    | Tokens(which: Which) | Calls(which: Which) | Skips(which: Which)
    | RawTokens | RawCalls | RawSkips | Truncations | Limited
    | SelectorGroups | SelectorSingle | SelectorServed

  function FigureOf(t: Totals, f: Figure): real {
    match f
    case Tokens(w) => CohortOf(t, w).tokens
    case Calls(w) => CohortOf(t, w).calls as real
    case Skips(w) => CohortOf(t, w).skipped as real
    case RawTokens => t.raw.tokens
    case RawCalls => t.raw.calls as real
    case RawSkips => t.raw.skipped as real
    case Truncations => t.truncations as real
    case Limited => t.bytesLimited as real
    case SelectorGroups => t.selectorGroups as real
    case SelectorSingle => t.selectorSingle as real
    case SelectorServed => t.selectorAllFirst as real
  }

  function IfSo(b: bool, r: real): real { if b then r else 0.0 }

  /** The first read of the group says to which cohort the group belongs. */
  predicate InCohort(which: Which, group: seq<ReadCall>) {
    match which
    case All => true
    case Selector => group != [] && (group[0].kind == Explicit || group[0].kind == Open)
    case DefaultReads => group != [] && group[0].kind == Default
  }

  /** What one call adds to a figure. */
  function CallAdds(group: seq<ReadCall>, v: Verdict, f: Figure): real {
    match f
    case Tokens(w) => if InCohort(w, group) && !v.Skipped? then v.cost else 0.0
    case Calls(w) => IfSo(InCohort(w, group) && !v.Skipped?, 1.0)
    case Skips(w) => IfSo(InCohort(w, group) && v.Skipped?, 1.0)
    case RawTokens => if v.Raw? then v.cost else 0.0
    case RawCalls => IfSo(v.Raw?, 1.0)
    case Truncations => IfSo(v.Paid? && v.truncated, 1.0)
    case Limited => IfSo(v.Paid? && v.bytesLimited, 1.0)
    case _ => 0.0
  }

  /** The window of the first read holds every line that a later one with bounds asks for. */
  ghost predicate ServesAll(group: seq<ReadCall>, cfg: Config) {
    && group != [] && Delivered(group[0], cfg).Some?
    && forall k, x | 1 <= k < |group| && Requested(group[k], cfg).Some? && In(x, Requested(group[k], cfg).value) ::
         In(x, Delivered(group[0], cfg).value)
  }

  /** What a group adds as a whole. */
  ghost function GroupAdds(group: seq<ReadCall>, cfg: Config, f: Figure): real {
    var selector := InCohort(Selector, group);
    match f
    case SelectorGroups => IfSo(selector, 1.0)
    case SelectorSingle => IfSo(selector && |group| == 1, 1.0)
    case SelectorServed => IfSo(selector && (|group| == 1 || ServesAll(group, cfg)), 1.0)
    case _ => 0.0
  }

  function CallsAdd(group: seq<ReadCall>, cfg: Config, n: nat, f: Figure): real
    requires n <= |group|
  {
    if n == 0 then 0.0
    else CallsAdd(group, cfg, n - 1, f) + CallAdds(group, VerdictAt(group, cfg, n - 1), f)
  }

  ghost function AllAdd(groups: seq<seq<ReadCall>>, cfg: Config, f: Figure): real {
    if groups == [] then 0.0
    else
      var last := groups[|groups| - 1];
      AllAdd(groups[..|groups| - 1], cfg, f) + (CallsAdd(last, cfg, |last|, f) + GroupAdds(last, cfg, f))
  }

  lemma PlusAdds(a: Totals, b: Totals, f: Figure)
    ensures FigureOf(Plus(a, b), f) == FigureOf(a, f) + FigureOf(b, f)
  {
  }

  lemma ShareAdds(group: seq<ReadCall>, v: Verdict, f: Figure)
    ensures FigureOf(Share(v, SelectorFirst(group), DefaultFirst(group)), f) == CallAdds(group, v, f)
  {
  }

  lemma {:induction false} SharesAdd(group: seq<ReadCall>, cfg: Config, n: nat, f: Figure)
    requires n <= |group|
    ensures FigureOf(SumTotals(CallShares(group, cfg, n)), f) == CallsAdd(group, cfg, n, f)
  {
    if n > 0 {
      var share := CallShare(group, cfg, n - 1);
      SharesAdd(group, cfg, n - 1, f);
      SumSnoc(CallShares(group, cfg, n - 1), share);
      PlusAdds(SumTotals(CallShares(group, cfg, n - 1)), share, f);
      ShareAdds(group, VerdictAt(group, cfg, n - 1), f);
    }
  }

  lemma ServesIff(group: seq<ReadCall>, cfg: Config)
    requires AllWellFormed(group, cfg)
    ensures FirstServesAll(group, cfg) <==> ServesAll(group, cfg)
  {
    if group != [] && Delivered(group[0], cfg).Some? {
      var d := Delivered(group[0], cfg).value;
      forall k | 1 <= k < |group|
        ensures ServedBy(d, group[k], cfg)
                <==> (Requested(group[k], cfg).Some? ==> forall x | In(x, Requested(group[k], cfg).value) :: In(x, d))
      {
        assert group[k] in group && group[0] in group;
        DeliveredIsWindow(group[k], cfg);
        DeliveredIsWindow(group[0], cfg);
        if Requested(group[k], cfg).Some? {
          IsCoveredIff([d], Requested(group[k], cfg).value);
          CoversOne(d);
        }
      }
    }
  }

  lemma FlagsAdd(group: seq<ReadCall>, cfg: Config, f: Figure)
    requires AllWellFormed(group, cfg)
    ensures FigureOf(GroupFlags(group, cfg), f) == GroupAdds(group, cfg, f)
  {
    ServesIff(group, cfg);
  }

  lemma GroupIs(group: seq<ReadCall>, cfg: Config, f: Figure)
    requires AllWellFormed(group, cfg)
    ensures FigureOf(GroupTotals(group, cfg), f) == CallsAdd(group, cfg, |group|, f) + GroupAdds(group, cfg, f)
  {
    SharesAdd(group, cfg, |group|, f);
    FlagsAdd(group, cfg, f);
    PlusAdds(SumTotals(CallShares(group, cfg, |group|)), GroupFlags(group, cfg), f);
  }

  /** Every figure is the sum of what each call and each group adds to it. */
  lemma {:induction false} FiguresAre(groups: seq<seq<ReadCall>>, cfg: Config, f: Figure)
    requires forall group | group in groups :: AllWellFormed(group, cfg)
    ensures FigureOf(SumTotals(AllTotals(groups, cfg)), f) == AllAdd(groups, cfg, f)
  {
    if groups != [] {
      var n := |groups| - 1;
      assert groups[n] in groups;
      FiguresAre(groups[..n], cfg, f);
      GroupIs(groups[n], cfg, f);
      SumSnoc(AllTotals(groups[..n], cfg), GroupTotals(groups[n], cfg));
      PlusAdds(SumTotals(AllTotals(groups[..n], cfg)), GroupTotals(groups[n], cfg), f);
    }
  }
}
