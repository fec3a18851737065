/** The search for the longest repeated run of lines in one inserted block. */
module Repeat {
  import opened Numbers
  import opened Text
  import opened Wrappers

  function MeaningfulCount(lines: seq<string>): (n: nat)
    ensures n <= |lines|
  {
    if lines == [] then 0
    else (if |Trim(lines[0])| >= 4 then 1 else 0) + MeaningfulCount(lines[1..])
  }

  /** At least half of the lines, and at least two of them, are meaningful. */
  predicate Worthwhile(lines: seq<string>) {
    MeaningfulCount(lines) >= Max((|lines| + 1) / 2, 2)
  }

  /** The `k` lines at `i` occur again at `j`, without overlap. */
  predicate Repeats(block: seq<string>, i: nat, j: nat, k: nat) {
    i + k <= j && j + k <= |block| && block[i..i + k] == block[j..j + k]
  }

  /** ... and the two runs cannot be made longer. */
  predicate Maximal(block: seq<string>, i: nat, j: nat, k: nat) {
    Repeats(block, i, j, k) && !Repeats(block, i, j, k + 1)
  }

  predicate Qualifies(block: seq<string>, minLen: nat, i: nat, j: nat, k: nat) {
    Maximal(block, i, j, k) && k >= minLen && Worthwhile(block[i..i + k])
  }

  /** `best` is right for the pairs of starting points before (i, j) in the order of the search. */
  ghost predicate BestBefore(block: seq<string>, minLen: nat, i: nat, j: nat, best: Option<(nat, nat)>) {
    && (best.Some? ==> best.value.0 <= i && exists j': nat :: Qualifies(block, minLen, best.value.0, j', best.value.1))
    && (forall i': nat, j': nat, k': nat | (i' < i || (i' == i && j' < j)) && Qualifies(block, minLen, i', j', k') ::
          best.Some? && k' <= best.value.1 && (i' < best.value.0 ==> k' < best.value.1))
  }

  lemma MaximalUnique(block: seq<string>, i: nat, j: nat, k: nat, k': nat)
    requires Maximal(block, i, j, k) && Maximal(block, i, j, k')
    ensures k == k'
  {
    if k < k' {
      PrefixRepeats(block, i, j, k', k + 1);
    } else if k' < k {
      PrefixRepeats(block, i, j, k, k' + 1);
    }
  }

  lemma PrefixRepeats(block: seq<string>, i: nat, j: nat, k: nat, m: nat)
    requires Repeats(block, i, j, k) && m <= k
    ensures Repeats(block, i, j, m)
  {
    assert block[i..i + m] == block[i..i + k][..m] && block[j..j + m] == block[j..j + k][..m];
  }

  lemma ExtendByOne(block: seq<string>, i: nat, j: nat, k: nat)
    requires Repeats(block, i, j, k)
    ensures Repeats(block, i, j, k + 1) <==> i + k < j && j + k < |block| && block[i + k] == block[j + k]
  {
    if i + k < j && j + k < |block| {
      var a, b := block[i..i + (k + 1)], block[j..j + (k + 1)];
      assert a == block[i..i + k] + [block[i + k]] && b == block[j..j + k] + [block[j + k]];
      assert a[k] == block[i + k] && b[k] == block[j + k];
    }
  }

  /** Starting points outside the loop bounds cannot hold a repeat of `minLen` lines. */
  lemma BoundsLoseNothing(block: seq<string>, minLen: nat, i: nat, best: Option<(nat, nat)>)
    requires minLen <= |block|
    ensures BestBefore(block, minLen, i, 0, best) ==> BestBefore(block, minLen, i, i + minLen, best)
  {
  }

  /** Looking at one more pair. */
  lemma BestAfter(block: seq<string>, minLen: nat, i: nat, j: nat, k: nat,
                  best: Option<(nat, nat)>, best': Option<(nat, nat)>)
    requires BestBefore(block, minLen, i, j, best)
    requires Maximal(block, i, j, k)
    requires best' == if Qualifies(block, minLen, i, j, k) && (best.None? || k > best.value.1)
                      then Some((i, k)) else best
    ensures BestBefore(block, minLen, i, j + 1, best')
  {
    forall i': nat, j': nat, k': nat | (i' < i || (i' == i && j' < j + 1)) && Qualifies(block, minLen, i', j', k')
      ensures best'.Some? && k' <= best'.value.1 && (i' < best'.value.0 ==> k' < best'.value.1)
    {
      if i' == i && j' == j {
        MaximalUnique(block, i, j, k, k');
      }
    }
  }

  /** The innermost loop: the longest extension of a pair of starting points. */
  method Extend(block: seq<string>, i: nat, j: nat) returns (k: nat)
    requires i <= j <= |block|
    ensures Maximal(block, i, j, k)
  {
    k := 0;
    while i + k < j && j + k < |block| && block[i + k] == block[j + k]
      invariant Repeats(block, i, j, k)
    {
      ExtendByOne(block, i, j, k);
      k := k + 1;
    }
    ExtendByOne(block, i, j, k);
  }

  /** One pair of starting points. */
  method Look(block: seq<string>, minLen: nat, i: nat, j: nat, best: Option<(nat, nat)>)
    returns (next: Option<(nat, nat)>)
    requires i <= j <= |block| && BestBefore(block, minLen, i, j, best)
    ensures BestBefore(block, minLen, i, j + 1, next)
  {
    var k := Extend(block, i, j);
    next := best;
    if k < minLen {
    } else if MeaningfulCount(block[i..i + k]) < Max((k + 1) / 2, 2) {
    } else if best.None? || k > best.value.1 {
      next := Some((i, k));
    }
    BestAfter(block, minLen, i, j, k, best, next);
  }

  lemma TooShort(block: seq<string>, minLen: nat, i: nat, j: nat, k: nat)
    requires |block| < 2 * minLen
    ensures !Qualifies(block, minLen, i, j, k)
  {
  }

  /** The result is the first and longest maximal repeat that is worthwhile, over all pairs of
      starting points: neither the early exit nor the loop bounds lose one. */
  method FindLongestRepeat(block: seq<string>, minLen: nat) returns (best: Option<(nat, nat)>)
    ensures best.None? <==> forall i: nat, j: nat, k: nat :: !Qualifies(block, minLen, i, j, k)
    ensures best.Some? ==> exists j: nat :: Qualifies(block, minLen, best.value.0, j, best.value.1)
    ensures forall i: nat, j: nat, k: nat | Qualifies(block, minLen, i, j, k) ::
              best.Some? && k <= best.value.1 && (i < best.value.0 ==> k < best.value.1)
  {
    var n := |block|;
    best := None;
    if n < 2 * minLen {
      forall i: nat, j: nat, k: nat ensures !Qualifies(block, minLen, i, j, k) {
        TooShort(block, minLen, i, j, k);
      }
      return;
    }
    for i := 0 to n - minLen + 1
      invariant BestBefore(block, minLen, i, 0, best)
    {
      BoundsLoseNothing(block, minLen, i, best);
      var j := i + minLen;
      while j < n - minLen + 1
        invariant j >= i + minLen
        invariant BestBefore(block, minLen, i, j, best)
      {
        best := Look(block, minLen, i, j, best);
        j := j + 1;
      }
      AllStartsSeen(block, minLen, i, j, best);
    }
    AllPairsSeen(block, minLen, best);
  }

  lemma AllStartsSeen(block: seq<string>, minLen: nat, i: nat, j: nat, best: Option<(nat, nat)>)
    requires minLen <= |block| && j >= |block| - minLen + 1
    requires BestBefore(block, minLen, i, j, best)
    ensures BestBefore(block, minLen, i + 1, 0, best)
  {
    forall j': nat, k': nat | Qualifies(block, minLen, i, j', k') ensures j' < j {
    }
  }

  lemma AllPairsSeen(block: seq<string>, minLen: nat, best: Option<(nat, nat)>)
    requires minLen <= |block| && BestBefore(block, minLen, |block| - minLen + 1, 0, best)
    ensures forall i: nat, j: nat, k: nat | Qualifies(block, minLen, i, j, k) ::
              best.Some? && k <= best.value.1 && (i < best.value.0 ==> k < best.value.1)
  {
    forall i: nat, j: nat, k: nat | Qualifies(block, minLen, i, j, k) ensures i < |block| - minLen + 1 {
    }
  }

  lemma {:induction false} CountAtMost(lines: seq<string>, m: nat)
    requires forall t | m <= t < |lines| :: |Trim(lines[t])| < 4
    ensures MeaningfulCount(lines) <= m
  {
    if lines != [] {
      if m == 0 {
        assert |Trim(lines[0])| < 4;
        CountAtMost(lines[1..], 0);
      } else {
        CountAtMost(lines[1..], m - 1);
      }
    }
  }

  /** Two different meaningful lines and three empty ones, twice. */
  predicate Twice(block: seq<string>) {
    && |block| == 10 && |Trim(block[0])| >= 4 && |Trim(block[1])| >= 4 && block[0] != block[1]
    && block[2] == block[3] == block[4] == "" && block[..5] == block[5..]
  }

  lemma RepeatsInTwice(block: seq<string>, i: nat, j: nat, k: nat)
    requires Twice(block) && Maximal(block, i, j, k) && k >= 4
    ensures i <= 1 && k == 5 - i
  {
    forall t | 0 <= t < 5 ensures block[t + 5] == block[t] {
      assert block[5..][t] == block[..5][t];
    }
    var x, y := block[i..i + k], block[j..j + k];
    assert x[0] == block[i] && y[0] == block[j];
    if i == 0 {
      assert j == 5 && block[0..5] == block[5..10];
    }
  }

  lemma NoneQualifiesInTwice(block: seq<string>, i: nat, j: nat, k: nat)
    requires Twice(block)
    ensures !Qualifies(block, 4, i, j, k)
  {
    if Maximal(block, i, j, k) && k >= 4 {
      RepeatsInTwice(block, i, j, k);
      CountAtMost(block[i..i + k], 2 - i);
    }
  }

  /** A worthwhile repeat of `minLen` lines can go unreported: the search looks only at the longest
      extension of each pair, and trailing empty lines can make that one worthless. */
  lemma WorthwhileRepeatMissed() returns (block: seq<string>)
    ensures Repeats(block, 0, 5, 4) && Worthwhile(block[0..4])
    ensures forall i: nat, j: nat, k: nat :: !Qualifies(block, 4, i, j, k)
  {
    block := ["aaaa", "bbbb", "", "", "", "aaaa", "bbbb", "", "", ""];
    TrimOfSpaceless("aaaa");
    TrimOfSpaceless("bbbb");
    assert Twice(block);
    MissedInTwice(block);
  }

  lemma MissedInTwice(block: seq<string>)
    requires Twice(block)
    ensures Repeats(block, 0, 5, 4) && Worthwhile(block[0..4])
    ensures forall i: nat, j: nat, k: nat :: !Qualifies(block, 4, i, j, k)
  {
    assert block[0..4] == block[..5][..4] == block[5..][..4] == block[5..9];
    var run := block[0..4];
    assert MeaningfulCount(run) >= 1 + MeaningfulCount(run[1..]) >= 2;
    forall i: nat, j: nat, k: nat ensures !Qualifies(block, 4, i, j, k) {
      NoneQualifiesInTwice(block, i, j, k);
    }
  }

  lemma {:induction false} MeaningfulCountAll(lines: seq<string>)
    requires forall s | s in lines :: |Trim(s)| >= 4
    ensures MeaningfulCount(lines) == |lines|
  {
    if lines != [] {
      assert lines[0] in lines;
      MeaningfulCountAll(lines[1..]);
    }
  }

  lemma {:induction false} ExtendToMaximal(block: seq<string>, i: nat, j: nat, k: nat) returns (m: nat)
    requires Repeats(block, i, j, k)
    ensures m >= k && Maximal(block, i, j, m)
    decreases |block| - k
  {
    m := k;
    if Repeats(block, i, j, k + 1) {
      m := ExtendToMaximal(block, i, j, k + 1);
    }
  }

  /** In a block where every line is meaningful nothing is missed: each repeat of at least `minLen`
      lines is part of one the search counts. */
  lemma NothingMissedAmongMeaningful(block: seq<string>, minLen: nat, i: nat, j: nat, k: nat)
    requires forall s | s in block :: |Trim(s)| >= 4
    requires Repeats(block, i, j, k) && k >= minLen >= 2
    ensures exists m: nat :: m >= k && Qualifies(block, minLen, i, j, m)
  {
    var m := ExtendToMaximal(block, i, j, k);
    MeaningfulCountAll(block[i..i + m]);
    assert Qualifies(block, minLen, i, j, m);
  }

  // ---------------------------------------------------------------------------------------------
  // When the promise is kept

  lemma {:induction false} CountConcat(a: seq<string>, b: seq<string>)
    ensures MeaningfulCount(a + b) == MeaningfulCount(a) + MeaningfulCount(b)
  {
    if a == [] {
      assert a + b == b;
    } else {
      assert (a + b)[1..] == a[1..] + b;
      CountConcat(a[1..], b);
    }
  }

  lemma CountSplit(block: seq<string>, i: nat, k: nat, m: nat)
    requires k <= m && i + m <= |block|
    ensures MeaningfulCount(block[i..i + m]) == MeaningfulCount(block[i..i + k]) + MeaningfulCount(block[i + k..i + m])
  {
    assert block[i..i + m] == block[i..i + k] + block[i + k..i + m];
    CountConcat(block[i..i + k], block[i + k..i + m]);
  }

  /** How many more of the lines are meaningful than not. */
  function Surplus(lines: seq<string>): int {
    2 * MeaningfulCount(lines) - |lines|
  }

  /** What the docstring promises to report: a repeat of at least `minLen` lines, long enough parts of
      it meaningful, whether or not it can be made longer. */
  predicate Promised(block: seq<string>, minLen: nat, i: nat, j: nat, k: nat) {
    Repeats(block, i, j, k) && k >= minLen && Worthwhile(block[i..i + k])
  }

  /** The lines that the longest extension `m` adds to the repeat do not outweigh it. */
  predicate Survives(block: seq<string>, i: nat, j: nat, k: nat, m: nat) {
    Maximal(block, i, j, m) && k <= m && Surplus(block[i..i + k]) + Surplus(block[i + k..i + m]) >= 0
  }

  lemma ExtensionIsLonger(block: seq<string>, i: nat, j: nat, k: nat, m: nat)
    requires Repeats(block, i, j, k) && Maximal(block, i, j, m)
    ensures k <= m
  {
    if m + 1 <= k {
      PrefixRepeats(block, i, j, k, m + 1);
    }
  }

  lemma HalfIff(c: nat, d: nat, m: nat)
    requires c >= 2
    ensures c + d >= Max((m + 1) / 2, 2) <==> 2 * (c + d) - m >= 0
  {
  }

  /** A promised repeat counts in the search exactly if its extension does not outweigh it. */
  lemma CountsIff(block: seq<string>, minLen: nat, i: nat, j: nat, k: nat, m: nat)
    requires Promised(block, minLen, i, j, k) && Maximal(block, i, j, m)
    ensures Qualifies(block, minLen, i, j, m) <==> Survives(block, i, j, k, m)
  {
    ExtensionIsLonger(block, i, j, k, m);
    CountSplit(block, i, k, m);
    HalfIff(MeaningfulCount(block[i..i + k]), MeaningfulCount(block[i + k..i + m]), m);
  }

  /** If a repeat is promised, one is reported. */
  ghost predicate PromiseKept(block: seq<string>, minLen: nat) {
    (exists i: nat, j: nat, k: nat :: Promised(block, minLen, i, j, k))
    ==> exists i: nat, j: nat, k: nat :: Qualifies(block, minLen, i, j, k)
  }

  /** The search reports something exactly if some promised repeat is not outweighed. */
  lemma ReportsIff(block: seq<string>, minLen: nat)
    ensures (exists i: nat, j: nat, k: nat :: Qualifies(block, minLen, i, j, k))
            <==> exists i: nat, j: nat, k: nat, m: nat ::
                   Promised(block, minLen, i, j, k) && Survives(block, i, j, k, m)
  {
    forall i: nat, j: nat, k: nat, m: nat | Promised(block, minLen, i, j, k) && Survives(block, i, j, k, m)
      ensures Qualifies(block, minLen, i, j, m)
    {
      CountsIff(block, minLen, i, j, k, m);
    }
    forall i: nat, j: nat, m: nat | Qualifies(block, minLen, i, j, m)
      ensures Promised(block, minLen, i, j, m) && Survives(block, i, j, m, m)
    {
      CountsIff(block, minLen, i, j, m, m);
    }
  }

  /** The promise is kept exactly if there is no promised repeat or one of them is not outweighed by
      the lines that its longest extension adds. */
  lemma PromiseKeptIff(block: seq<string>, minLen: nat)
    ensures PromiseKept(block, minLen)
            <==> (forall i: nat, j: nat, k: nat :: !Promised(block, minLen, i, j, k))
                 || exists i: nat, j: nat, k: nat, m: nat ::
                      Promised(block, minLen, i, j, k) && Survives(block, i, j, k, m)
  {
    ReportsIff(block, minLen);
  }

  // ---------------------------------------------------------------------------------------------
  // What counts, line by line

  /** The lines of the run that have at least four characters besides the white space around them. */
  function MeaningfulAt(block: seq<string>, i: nat, k: nat): set<nat>
    requires i + k <= |block|
  {
    set t: nat | i <= t < i + k && |Trim(block[t])| >= 4
  }

  lemma OneMore(all: set<nat>, rest: set<nat>, x: nat, more: bool)
    requires x !in rest && forall t :: t in all <==> t in rest || (t == x && more)
    ensures |all| == |rest| + if more then 1 else 0
  {
    assert all == if more then rest + {x} else rest;
  }

  lemma {:induction false} MeaningfulCountIs(block: seq<string>, i: nat, k: nat)
    requires i + k <= |block|
    ensures MeaningfulCount(block[i..i + k]) == |MeaningfulAt(block, i, k)|
    decreases k
  {
    if k == 0 {
      assert MeaningfulAt(block, i, 0) == {};
    } else {
      MeaningfulCountIs(block, i + 1, k - 1);
      OneMore(MeaningfulAt(block, i, k), MeaningfulAt(block, i + 1, k - 1), i, |Trim(block[i])| >= 4);
      assert block[i..i + k][1..] == block[i + 1..i + 1 + (k - 1)];
    }
  }

  lemma SameLinesIff(block: seq<string>, i: nat, j: nat, k: nat)
    requires i + k <= j && j + k <= |block|
    ensures block[i..i + k] == block[j..j + k] <==> forall t | i <= t < i + k :: block[t] == block[t + j - i]
  {
    var a, b := block[i..i + k], block[j..j + k];
    if a == b {
      forall t | i <= t < i + k ensures block[t] == block[t + j - i] {
        assert a[t - i] == b[t - i];
      }
    }
    if forall t | i <= t < i + k :: block[t] == block[t + j - i] {
      forall t | 0 <= t < k ensures a[t] == b[t] {
        assert block[i + t] == block[i + t + j - i];
      }
    }
  }

  /** A pair of positions counts exactly if the same `k` lines are at both, apart from each other; no line
      more is; `k` is long enough; and at least two of the lines, and half of them, are meaningful. */
  lemma QualifiesIff(block: seq<string>, minLen: nat, i: nat, j: nat, k: nat)
    ensures Qualifies(block, minLen, i, j, k)
            <==> && i + k <= j && j + k <= |block| && (forall t | i <= t < i + k :: block[t] == block[t + j - i])
                 && (i + k == j || j + k == |block| || block[i + k] != block[j + k])
                 && k >= minLen
                 && |MeaningfulAt(block, i, k)| >= 2 && 2 * |MeaningfulAt(block, i, k)| >= k
  {
    if i + k <= j && j + k <= |block| {
      SameLinesIff(block, i, j, k);
    }
    if Repeats(block, i, j, k) {
      ExtendByOne(block, i, j, k);
      MeaningfulCountIs(block, i, k);
    }
  }
}
