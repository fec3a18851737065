/** The frontier over (tokens, calls) of the replayed configurations. */
module Pareto {
  import opened Wrappers
  import opened Ordering

  datatype Outcome = Outcome(config: nat, tokens: real, calls: int, truncations: int)

  predicate Eligible(r: Outcome, maxTruncations: int, maxTokens: Option<real>) {
    r.truncations <= maxTruncations && (maxTokens.None? || r.tokens <= maxTokens.value)
  }

  predicate KeyLe(a: Outcome, b: Outcome) {
    a.tokens < b.tokens || (a.tokens == b.tokens && a.calls <= b.calls)
  }

  /** At least as good in both coordinates. */
  predicate Dominates(a: Outcome, b: Outcome) {
    a.tokens <= b.tokens && a.calls <= b.calls
  }

  function Filter(results: seq<Outcome>, maxTruncations: int, maxTokens: Option<real>): (clean: seq<Outcome>)
    ensures forall r :: r in clean <==> r in results && Eligible(r, maxTruncations, maxTokens)
  {
    if results == [] then []
    else (if Eligible(results[0], maxTruncations, maxTokens) then [results[0]] else [])
         + Filter(results[1..], maxTruncations, maxTokens)
  }

  predicate Dominated(frontier: seq<Outcome>, r: Outcome) {
    exists f | f in frontier :: Dominates(f, r)
  }

  /** Tokens rise and calls fall. */
  predicate Falling(frontier: seq<Outcome>) {
    forall i, j | 0 <= i < j < |frontier| ::
      frontier[i].tokens < frontier[j].tokens && frontier[i].calls > frontier[j].calls
  }

  ghost predicate Covers(frontier: seq<Outcome>, results: seq<Outcome>) {
    forall r {:trigger Dominated(frontier, r)} | r in results :: Dominated(frontier, r)
  }

  /** A member is dominated only by results equal to it in both coordinates. */
  ghost predicate Undominated(frontier: seq<Outcome>, results: seq<Outcome>) {
    forall r, f | r in results && f in frontier && Dominates(r, f) :: r.tokens == f.tokens && r.calls == f.calls
  }

  /** Exactly the frontier of `results`. */
  ghost predicate IsFrontier(frontier: seq<Outcome>, results: seq<Outcome>) {
    && (forall f | f in frontier :: f in results)
    && Falling(frontier) && Covers(frontier, results) && Undominated(frontier, results)
  }

  lemma FewestCalls(frontier: seq<Outcome>, r: Outcome)
    requires Falling(frontier) && (frontier == [] || r.calls < frontier[|frontier| - 1].calls)
    ensures forall f | f in frontier :: r.calls < f.calls
  {
    forall f | f in frontier ensures r.calls < f.calls {
      var i :| 0 <= i < |frontier| && frontier[i] == f;
      assert f.calls >= frontier[|frontier| - 1].calls;
    }
  }

  lemma CoversMore(frontier: seq<Outcome>, results: seq<Outcome>, r: Outcome)
    requires Covers(frontier, results)
    ensures Covers(frontier + [r], results + [r])
  {
    var wider := frontier + [r];
    assert forall f :: f in wider <==> f in frontier || f == r;
    assert Dominates(r, r);
    forall q | q in results + [r] ensures Dominated(wider, q) {
      if q in results {
        assert Dominated(frontier, q);
      }
    }
  }

  /** One more result, not before the others in the order of the keys, with fewer calls than all
      members so far. */
  lemma FrontierGrows(frontier: seq<Outcome>, results: seq<Outcome>, r: Outcome)
    requires IsFrontier(frontier, results)
    requires forall q | q in results :: KeyLe(q, r)
    requires frontier == [] || r.calls < frontier[|frontier| - 1].calls
    ensures IsFrontier(frontier + [r], results + [r])
  {
    FewestCalls(frontier, r);
    CoversMore(frontier, results, r);
    forall i | 0 <= i < |frontier| ensures frontier[i].tokens < r.tokens {
      assert frontier[i] in frontier && frontier[i] in results && KeyLe(frontier[i], r);
    }
    UndominatedMore(frontier, results, r);
  }

  lemma UndominatedMore(frontier: seq<Outcome>, results: seq<Outcome>, r: Outcome)
    requires Covers(frontier, results) && Undominated(frontier, results)
    requires forall f | f in frontier :: r.calls < f.calls && r.tokens > f.tokens
    ensures Undominated(frontier + [r], results + [r])
  {
    forall q | q in results ensures q.calls > r.calls {
      assert Dominated(frontier, q);
    }
    assert forall f :: f in frontier + [r] <==> f in frontier || f == r;
    assert forall q :: q in results + [r] <==> q in results || q == r;
  }

  /** ... or not fewer calls. */
  lemma FrontierStays(frontier: seq<Outcome>, results: seq<Outcome>, r: Outcome)
    requires IsFrontier(frontier, results)
    requires forall q | q in results :: KeyLe(q, r)
    requires frontier != [] && r.calls >= frontier[|frontier| - 1].calls
    ensures IsFrontier(frontier, results + [r])
  {
    var f := frontier[|frontier| - 1];
    assert f in results && KeyLe(f, r) && Dominates(f, r) && Dominated(frontier, r);
    forall g | g in frontier && Dominates(r, g) ensures r.tokens == g.tokens && r.calls == g.calls {
      assert g in results && KeyLe(g, r);
    }
    assert forall q :: q in results + [r] <==> q in results || q == r;
    assert Covers(frontier, results + [r]);
  }

  lemma SortedBefore(sorted: seq<Outcome>, i: nat)
    requires SortedBy(sorted, KeyLe) && i < |sorted|
    ensures forall q | q in sorted[..i] :: KeyLe(q, sorted[i])
    ensures sorted[..i + 1] == sorted[..i] + [sorted[i]]
  {
  }

  lemma SameResults(frontier: seq<Outcome>, a: seq<Outcome>, b: seq<Outcome>)
    requires IsFrontier(frontier, a) && forall r :: r in a <==> r in b
    ensures IsFrontier(frontier, b)
  {
  }

  method Frontier(results: seq<Outcome>, maxTruncations: int, maxTokens: Option<real>)
    returns (frontier: seq<Outcome>)
    ensures IsFrontier(frontier, Filter(results, maxTruncations, maxTokens))
  {
    var clean := Filter(results, maxTruncations, maxTokens);
    var sorted := Sort(clean, KeyLe);
    SortSorts(clean, KeyLe);
    SortMembers(clean, KeyLe);
    frontier := [];
    var bestCalls: Option<int> := None;
    for i := 0 to |sorted|
      invariant bestCalls == if frontier == [] then None else Some(frontier[|frontier| - 1].calls)
      invariant IsFrontier(frontier, sorted[..i])
    {
      var r := sorted[i];
      SortedBefore(sorted, i);
      if bestCalls.None? || r.calls < bestCalls.value {
        FrontierGrows(frontier, sorted[..i], r);
        frontier := frontier + [r];
        bestCalls := Some(r.calls);
      } else {
        FrontierStays(frontier, sorted[..i], r);
      }
    }
    assert sorted[..|sorted|] == sorted;
    SameResults(frontier, sorted, clean);
  }

  /** Two frontiers of the same results have the same coordinates. */
  lemma {:induction false} FrontierUnique(a: seq<Outcome>, b: seq<Outcome>, results: seq<Outcome>)
    requires IsFrontier(a, results) && IsFrontier(b, results)
    ensures forall f | f in a :: exists g | g in b :: g.tokens == f.tokens && g.calls == f.calls
  {
    forall f | f in a ensures exists g | g in b :: g.tokens == f.tokens && g.calls == f.calls {
      assert f in results && Dominated(b, f);
      var g :| g in b && Dominates(g, f);
      assert g in results;
    }
  }

  /** What is left out has more truncations than allowed, or more tokens. */
  predicate LeftOut(r: Outcome, maxTruncations: int, maxTokens: Option<real>) {
    r.truncations > maxTruncations || (maxTokens.Some? && r.tokens > maxTokens.value)
  }

  /** A frontier in plain numbers: its members are results that are not left out, with rising tokens and
      falling calls; for every other such result one of them has no more of either; and no such result has
      no more of either than a member unless it has the same. */
  lemma FrontierMeans(frontier: seq<Outcome>, results: seq<Outcome>, maxTruncations: int, maxTokens: Option<real>)
    requires IsFrontier(frontier, Filter(results, maxTruncations, maxTokens))
    ensures forall f | f in frontier :: f in results && !LeftOut(f, maxTruncations, maxTokens)
    ensures forall i, j | 0 <= i < j < |frontier| ::
              frontier[i].tokens < frontier[j].tokens && frontier[i].calls > frontier[j].calls
    ensures forall r | r in results && !LeftOut(r, maxTruncations, maxTokens) ::
              exists f | f in frontier :: f.tokens <= r.tokens && f.calls <= r.calls
    ensures forall f, r | f in frontier && r in results && !LeftOut(r, maxTruncations, maxTokens)
                          && r.tokens <= f.tokens && r.calls <= f.calls ::
              r.tokens == f.tokens && r.calls == f.calls
  {
    var clean := Filter(results, maxTruncations, maxTokens);
    forall r | r in results && !LeftOut(r, maxTruncations, maxTokens)
      ensures exists f | f in frontier :: f.tokens <= r.tokens && f.calls <= r.calls
    {
      assert r in clean && Dominated(frontier, r);
    }
    forall f, r | f in frontier && r in results && !LeftOut(r, maxTruncations, maxTokens)
                  && r.tokens <= f.tokens && r.calls <= f.calls
      ensures r.tokens == f.tokens && r.calls == f.calls
    {
      assert r in clean && Dominates(r, f);
    }
  }
}
