/** Inclusive line intervals: merging, adding one, subtracting, covering and chunking. */
module Intervals {
  import opened Numbers
  import opened Ordering
  import Records

  datatype Interval = Interval(lo: int, hi: int)

  predicate Valid(iv: Interval) { iv.lo <= iv.hi }

  predicate AllValid(ivs: seq<Interval>) { forall iv | iv in ivs :: Valid(iv) }

  predicate In(x: int, iv: Interval) { iv.lo <= x <= iv.hi }

  predicate Covers(ivs: seq<Interval>, x: int) { exists iv | iv in ivs :: In(x, iv) }

  ghost predicate SameLines(a: seq<Interval>, b: seq<Interval>) {
    forall x :: Covers(a, x) <==> Covers(b, x)
  }

  /** Sorted, and with at least one line missing between two neighbours. */
  predicate Canonical(ivs: seq<Interval>) {
    && (forall i | 0 <= i < |ivs| :: Valid(ivs[i]))
    && (forall i, j | 0 <= i < j < |ivs| :: ivs[i].hi + 1 < ivs[j].lo)
  }

  /** An interval that may be empty. */
  predicate Window(iv: Interval) { iv.lo <= iv.hi + 1 }

  /** Like the canonical form, but intervals may be empty. */
  predicate Spaced(ivs: seq<Interval>) {
    && (forall i | 0 <= i < |ivs| :: Window(ivs[i]))
    && (forall i, j | 0 <= i < j < |ivs| :: ivs[i].hi + 1 < ivs[j].lo)
  }

  lemma CoversConcat(a: seq<Interval>, b: seq<Interval>)
    ensures forall x :: Covers(a + b, x) <==> Covers(a, x) || Covers(b, x)
  {
    assert forall iv :: iv in a + b <==> iv in a || iv in b;
  }

  lemma CoversOne(iv: Interval)
    ensures forall x :: Covers([iv], x) <==> In(x, iv)
  {
    assert iv in [iv];
  }

  lemma CoversCons(ivs: seq<Interval>)
    requires ivs != []
    ensures forall x :: Covers(ivs, x) <==> In(x, ivs[0]) || Covers(ivs[1..], x)
  {
    assert ivs == [ivs[0]] + ivs[1..];
    CoversConcat([ivs[0]], ivs[1..]);
    CoversOne(ivs[0]);
  }

  lemma CoversSnoc(ivs: seq<Interval>, iv: Interval)
    ensures forall x :: Covers(ivs + [iv], x) <==> Covers(ivs, x) || In(x, iv)
  {
    CoversConcat(ivs, [iv]);
    CoversOne(iv);
  }

  lemma NotCoveredBehind(ivs: seq<Interval>, k: nat)
    requires Spaced(ivs) && k < |ivs|
    ensures !Covers(ivs, ivs[k].hi + 1)
  {
    forall iv | iv in ivs ensures !In(ivs[k].hi + 1, iv) {
      var j :| 0 <= j < |ivs| && ivs[j] == iv;
    }
  }

  // ---------------------------------------------------------------------------------------------
  // The canonical form is unique

  lemma SpacedTail(ivs: seq<Interval>)
    requires Spaced(ivs) && ivs != []
    ensures forall x :: Covers(ivs[1..], x) <==> Covers(ivs, x) && x > ivs[0].hi
    ensures forall x :: Covers(ivs, x) ==> x >= ivs[0].lo
  {
    CoversCons(ivs);
    forall x | Covers(ivs[1..], x) ensures x > ivs[0].hi + 1 {
      var iv :| iv in ivs[1..] && In(x, iv);
      var j :| 0 <= j < |ivs[1..]| && ivs[1..][j] == iv;
      assert ivs[j + 1] == iv;
    }
  }

  /** Two canonical lists with the same lines are equal. */
  lemma {:induction false} CanonicalUnique(a: seq<Interval>, b: seq<Interval>)
    requires Canonical(a) && Canonical(b) && SameLines(a, b)
    ensures a == b
  {
    if a != [] {
      assert In(a[0].lo, a[0]) && Covers(a, a[0].lo);
    }
    if b != [] {
      assert In(b[0].lo, b[0]) && Covers(b, b[0].lo);
    }
    if a != [] && b != [] {
      FirstEqual(a, b);
      SpacedTail(a);
      SpacedTail(b);
      CanonicalUnique(a[1..], b[1..]);
      assert a == [a[0]] + a[1..] && b == [b[0]] + b[1..];
    }
  }

  lemma FirstEqual(a: seq<Interval>, b: seq<Interval>)
    requires Canonical(a) && Canonical(b) && SameLines(a, b) && a != [] && b != []
    ensures a[0] == b[0]
  {
    assert In(a[0].lo, a[0]) && In(b[0].lo, b[0]);
    SpacedTail(a);
    SpacedTail(b);
    NotCoveredBehind(a, 0);
    NotCoveredBehind(b, 0);
    assert Covers(a, a[0].lo) && Covers(b, b[0].lo);
    var x, y := a[0].hi + 1, b[0].hi + 1;
    assert !Covers(b, x) && !Covers(a, y);
    assert !In(x, b[0]) && !In(y, a[0]);
  }

  // ---------------------------------------------------------------------------------------------
  // Adding one interval, and the union of many

  function Add(ivs: seq<Interval>, item: Interval): seq<Interval> {
    if ivs == [] then [item]
    else if ivs[0].hi + 1 < item.lo then [ivs[0]] + Add(ivs[1..], item)
    else if item.hi + 1 < ivs[0].lo then [item] + ivs
    else Add(ivs[1..], Interval(Min(item.lo, ivs[0].lo), Max(item.hi, ivs[0].hi)))
  }

  /** Adding keeps the list spaced and adds exactly the lines of the item. */
  lemma {:induction false} AddSpaced(ivs: seq<Interval>, item: Interval)
    requires Spaced(ivs) && Window(item)
    ensures Spaced(Add(ivs, item))
    ensures forall x :: Covers(Add(ivs, item), x) <==> Covers(ivs, x) || In(x, item)
    ensures Add(ivs, item) != []
    ensures Add(ivs, item)[0].lo >= if ivs == [] then item.lo else Min(item.lo, ivs[0].lo)
  {
    if ivs == [] {
      CoversOne(item);
    } else {
      CoversCons(ivs);
      if ivs[0].hi + 1 < item.lo {
        AddSpaced(ivs[1..], item);
        var rest := Add(ivs[1..], item);
        CoversCons([ivs[0]] + rest);
        assert |ivs| > 1 ==> ivs[1..][0] == ivs[1];
        ConsSpaced(ivs[0], rest);
      } else if item.hi + 1 < ivs[0].lo {
        CoversCons([item] + ivs);
        ConsSpaced(item, ivs);
      } else {
        AddSpaced(ivs[1..], Interval(Min(item.lo, ivs[0].lo), Max(item.hi, ivs[0].hi)));
      }
    }
  }

  lemma ConsSpaced(iv: Interval, rest: seq<Interval>)
    requires Window(iv) && Spaced(rest) && (rest != [] ==> iv.hi + 1 < rest[0].lo)
    ensures Spaced([iv] + rest)
  {
  }

  lemma {:induction false} AddValid(ivs: seq<Interval>, item: Interval)
    requires Valid(item) && forall i | 0 <= i < |ivs| :: Valid(ivs[i])
    ensures forall i | 0 <= i < |Add(ivs, item)| :: Valid(Add(ivs, item)[i])
  {
    if ivs == [] {
    } else if ivs[0].hi + 1 < item.lo {
      AddValid(ivs[1..], item);
    } else if !(item.hi + 1 < ivs[0].lo) {
      AddValid(ivs[1..], Interval(Min(item.lo, ivs[0].lo), Max(item.hi, ivs[0].hi)));
    }
  }

  /** ... and a canonical list canonical. */
  lemma AddCanonical(ivs: seq<Interval>, item: Interval)
    requires Canonical(ivs) && Valid(item)
    ensures Canonical(Add(ivs, item))
    ensures forall x :: Covers(Add(ivs, item), x) <==> Covers(ivs, x) || In(x, item)
  {
    AddSpaced(ivs, item);
    AddValid(ivs, item);
  }

  function Union(ivs: seq<Interval>): seq<Interval> {
    if ivs == [] then [] else Add(Union(ivs[..|ivs| - 1]), ivs[|ivs| - 1])
  }

  lemma {:induction false} UnionCanonical(ivs: seq<Interval>)
    requires AllValid(ivs)
    ensures Canonical(Union(ivs)) && SameLines(Union(ivs), ivs)
  {
    if ivs != [] {
      var init, last := ivs[..|ivs| - 1], ivs[|ivs| - 1];
      UnionCanonical(init);
      AddCanonical(Union(init), last);
      assert ivs == init + [last];
      CoversSnoc(init, last);
    }
  }

  /** Two lists denote the same lines exactly when their canonical forms are equal; in particular
      the order in which intervals are added does not matter. */
  lemma SameUnionIff(a: seq<Interval>, b: seq<Interval>)
    requires AllValid(a) && AllValid(b)
    ensures Union(a) == Union(b) <==> SameLines(a, b)
  {
    UnionCanonical(a);
    UnionCanonical(b);
    if SameLines(a, b) {
      CanonicalUnique(Union(a), Union(b));
    }
  }

  /** The incremental insertion of the replay. */
  method AddInterval(ivs: seq<Interval>, item: Interval) returns (out: seq<Interval>)
    requires Spaced(ivs) && Window(item)
    ensures out == Add(ivs, item)
    ensures Spaced(out) && forall x :: Covers(out, x) <==> Covers(ivs, x) || In(x, item)
  {
    var s, e := item.lo, item.hi;
    out := [];
    var placed := false;
    AddSpaced(ivs, item);
    for i := 0 to |ivs|
      invariant placed ==> i > 0 && e + 1 < ivs[i - 1].lo
      invariant Add(ivs, item) == if placed then out + ivs[i..] else out + Add(ivs[i..], Interval(s, e))
    {
      var a, b := ivs[i].lo, ivs[i].hi;
      ghost var before, rest := out, ivs[i + 1..];
      assert ivs[i..] == [ivs[i]] + rest && ivs[i..][1..] == rest;
      Records.ConcatAssoc(before, [ivs[i]], rest);
      if b + 1 < s {
        out := out + [ivs[i]];
        Records.ConcatAssoc(before, [ivs[i]], Add(rest, Interval(s, e)));
      } else if e + 1 < a {
        if !placed {
          out := out + [Interval(s, e)];
          placed := true;
          Records.ConcatAssoc(before, [Interval(s, e)], ivs[i..]);
          Records.ConcatAssoc(out, [ivs[i]], rest);
        }
        out := out + [ivs[i]];
      } else {
        s := Min(s, a);
        e := Max(e, b);
      }
    }
    assert ivs[|ivs|..] == [];
    if !placed {
      out := out + [Interval(s, e)];
    }
  }

  // ---------------------------------------------------------------------------------------------
  // Batch merge

  predicate TupleLe(a: Interval, b: Interval) {
    a.lo < b.lo || (a.lo == b.lo && a.hi <= b.hi)
  }

  /** One step of the sweep over sorted intervals. */
  function Sweep(out: seq<Interval>, iv: Interval): seq<Interval>
    requires out != []
  {
    var last := out[|out| - 1];
    if iv.lo <= last.hi + 1 then out[..|out| - 1] + [Interval(last.lo, Max(last.hi, iv.hi))] else out + [iv]
  }

  lemma SweepKeeps(out: seq<Interval>, iv: Interval, seen: seq<Interval>)
    requires out != [] && Canonical(out) && SameLines(out, seen) && Valid(iv)
    requires out[|out| - 1].lo <= iv.lo
    ensures Canonical(Sweep(out, iv)) && SameLines(Sweep(out, iv), seen + [iv])
    ensures Sweep(out, iv) != [] && Sweep(out, iv)[|Sweep(out, iv)| - 1].lo <= iv.lo
  {
    CoversSnoc(seen, iv);
    CoversSnoc(out, iv);
    var init, last := out[..|out| - 1], out[|out| - 1];
    assert out == init + [last];
    CoversSnoc(init, last);
    CoversSnoc(init, Interval(last.lo, Max(last.hi, iv.hi)));
  }

  /** `sorted[..k]` are swept into `out`. */
  ghost predicate Swept(out: seq<Interval>, sorted: seq<Interval>, k: nat) {
    0 < k <= |sorted| && out != [] && Canonical(out) && SameLines(out, sorted[..k])
    && out[|out| - 1].lo <= sorted[k - 1].lo
  }

  predicate Ascending(sorted: seq<Interval>) {
    AllValid(sorted) && forall i | 0 < i < |sorted| :: sorted[i - 1].lo <= sorted[i].lo
  }

  lemma SweepFirst(sorted: seq<Interval>)
    requires Ascending(sorted) && sorted != []
    ensures Swept([sorted[0]], sorted, 1)
  {
    CoversOne(sorted[0]);
    assert sorted[..1] == [sorted[0]] && sorted[0] in sorted;
  }

  lemma SweepNext(out: seq<Interval>, sorted: seq<Interval>, k: nat)
    requires Ascending(sorted) && k < |sorted| && Swept(out, sorted, k)
    ensures Swept(Sweep(out, sorted[k]), sorted, k + 1)
  {
    assert sorted[k] in sorted && sorted[..k + 1] == sorted[..k] + [sorted[k]];
    SweepKeeps(out, sorted[k], sorted[..k]);
  }

  lemma SortedByStart(ivs: seq<Interval>)
    requires AllValid(ivs)
    ensures var sorted := Sort(ivs, TupleLe); |sorted| == |ivs| && SameLines(sorted, ivs) && Ascending(sorted)
  {
    var sorted := Sort(ivs, TupleLe);
    SortSorts(ivs, TupleLe);
    SortMembers(ivs, TupleLe);
    forall i | 0 < i < |sorted| ensures sorted[i - 1].lo <= sorted[i].lo {
      assert TupleLe(sorted[i - 1], sorted[i]);
    }
  }

  lemma SweepDone(out: seq<Interval>, sorted: seq<Interval>, ivs: seq<Interval>)
    requires AllValid(ivs) && Swept(out, sorted, |sorted|) && SameLines(sorted, ivs)
    ensures out == Union(ivs) && Canonical(out) && SameLines(out, ivs)
  {
    assert sorted[..|sorted|] == sorted;
    UnionCanonical(ivs);
    CanonicalUnique(out, Union(ivs));
  }

  /** Sorting and one sweep give the same list as adding the intervals one at a time. */
  method Merge(ivs: seq<Interval>) returns (out: seq<Interval>)
    requires AllValid(ivs)
    ensures out == Union(ivs)
    ensures Canonical(out) && SameLines(out, ivs)
  {
    if ivs == [] {
      return [];
    }
    var sorted := Sort(ivs, TupleLe);
    SortedByStart(ivs);
    out := [sorted[0]];
    SweepFirst(sorted);
    for i := 1 to |sorted|
      invariant Swept(out, sorted, i)
    {
      SweepNext(out, sorted, i);
      var s, e := sorted[i].lo, sorted[i].hi;
      var last := out[|out| - 1];
      if s <= last.hi + 1 {
        out := out[..|out| - 1] + [Interval(last.lo, Max(last.hi, e))];
      } else {
        out := out + [sorted[i]];
      }
    }
    SweepDone(out, sorted, ivs);
  }

  // ---------------------------------------------------------------------------------------------
  // Covering

  predicate Contained(target: Interval, ivs: seq<Interval>) {
    exists iv | iv in ivs :: iv.lo <= target.lo && iv.hi >= target.hi
  }

  ghost predicate AllCovered(ivs: seq<Interval>, target: Interval) {
    forall x | In(x, target) :: Covers(ivs, x)
  }

  /** On a spaced list the test for one containing interval decides coverage line by line. */
  lemma ContainedIff(ivs: seq<Interval>, target: Interval)
    requires Spaced(ivs) && Valid(target)
    ensures Contained(target, ivs) <==> AllCovered(ivs, target)
  {
    if AllCovered(ivs, target) {
      assert In(target.lo, target);
      var iv :| iv in ivs && In(target.lo, iv);
      var k :| 0 <= k < |ivs| && ivs[k] == iv;
      NotCoveredBehind(ivs, k);
      assert In(iv.hi + 1, target) ==> Covers(ivs, iv.hi + 1);
    }
  }

  /** The same test with an exit as soon as an interval starts behind the target. */
  function IsCovered(ivs: seq<Interval>, target: Interval): bool {
    if ivs == [] then false
    else if ivs[0].lo <= target.lo && target.hi <= ivs[0].hi then true
    else if ivs[0].lo > target.lo then false
    else IsCovered(ivs[1..], target)
  }

  lemma {:induction false} IsCoveredIff(ivs: seq<Interval>, target: Interval)
    requires Spaced(ivs) && Valid(target)
    ensures IsCovered(ivs, target) <==> AllCovered(ivs, target)
  {
    ContainedIff(ivs, target);
    if ivs == [] {
    } else {
      ContainedIff(ivs[1..], target);
      IsCoveredIff(ivs[1..], target);
      assert ivs == [ivs[0]] + ivs[1..];
      assert Contained(target, ivs) <==>
             (ivs[0].lo <= target.lo && target.hi <= ivs[0].hi) || Contained(target, ivs[1..]);
      if ivs[0].lo > target.lo {
        SpacedTail(ivs);
        assert In(target.lo, target);
      }
    }
  }

  // ---------------------------------------------------------------------------------------------
  // Subtraction and chunks

  function Below(p: Interval, iv: Interval): seq<Interval> {
    if iv.lo > p.lo then [Interval(p.lo, iv.lo - 1)] else []
  }

  function Above(p: Interval, iv: Interval): seq<Interval> {
    if iv.hi < p.hi then [Interval(iv.hi + 1, p.hi)] else []
  }

  /** What is left of one piece. */
  function CutPiece(p: Interval, iv: Interval): seq<Interval> {
    if iv.hi < p.lo || iv.lo > p.hi then [p] else Below(p, iv) + Above(p, iv)
  }

  function Cut(pieces: seq<Interval>, iv: Interval): seq<Interval> {
    if pieces == [] then [] else CutPiece(pieces[0], iv) + Cut(pieces[1..], iv)
  }

  function SubtractAll(pieces: seq<Interval>, ivs: seq<Interval>): seq<Interval>
    decreases |ivs|
  {
    if ivs == [] then pieces else SubtractAll(Cut(pieces, ivs[0]), ivs[1..])
  }

  function Subtract(target: Interval, ivs: seq<Interval>): seq<Interval> {
    SubtractAll([target], ivs)
  }

  lemma {:induction false} CutCovers(pieces: seq<Interval>, iv: Interval)
    requires AllValid(pieces) && Valid(iv)
    ensures forall x :: Covers(Cut(pieces, iv), x) <==> Covers(pieces, x) && !In(x, iv)
  {
    if pieces != [] {
      assert pieces[0] in pieces;
      CutCovers(pieces[1..], iv);
      CutPieceCanonical(pieces[0], iv);
      CoversCons(pieces);
      CoversConcat(CutPiece(pieces[0], iv), Cut(pieces[1..], iv));
    }
  }

  lemma ConcatCanonical(a: seq<Interval>, b: seq<Interval>, p: Interval)
    requires Canonical(a) && Canonical(b) && Valid(p) && forall q | q in a :: p.lo <= q.lo && q.hi <= p.hi
    requires b != [] ==> p.hi + 1 < b[0].lo
    ensures Canonical(a + b) && (a + b != [] ==> (a + b)[0].lo >= p.lo)
  {
    var c := a + b;
    forall i, j | 0 <= i < j < |c| ensures c[i].hi + 1 < c[j].lo {
      if i < |a| <= j {
        assert a[i] in a && b[0].lo <= b[j - |a|].lo;
      }
    }
    assert a != [] ==> a[0] in a;
  }

  lemma {:induction false} CutCanonical(pieces: seq<Interval>, iv: Interval)
    requires Canonical(pieces) && Valid(iv)
    ensures Canonical(Cut(pieces, iv))
    ensures Cut(pieces, iv) != [] ==> pieces != [] && Cut(pieces, iv)[0].lo >= pieces[0].lo
  {
    if pieces != [] {
      CutCanonical(pieces[1..], iv);
      CutPieceCanonical(pieces[0], iv);
      assert |pieces| > 1 ==> pieces[1..][0] == pieces[1];
      ConcatCanonical(CutPiece(pieces[0], iv), Cut(pieces[1..], iv), pieces[0]);
    }
  }

  lemma CutPieceCanonical(p: Interval, iv: Interval)
    requires Valid(p) && Valid(iv)
    ensures var c := CutPiece(p, iv);
            && Canonical(c) && (forall q | q in c :: p.lo <= q.lo && q.hi <= p.hi)
            && forall x :: Covers(c, x) <==> In(x, p) && !In(x, iv)
  {
    var a, b := Below(p, iv), Above(p, iv);
    CoversConcat(a, b);
    CoversOne(p);
    if a != [] { CoversOne(a[0]); }
    if b != [] { CoversOne(b[0]); }
  }

  /** The remaining pieces are canonical and hold exactly the lines that are in no subtracted
      interval. */
  lemma {:induction false} SubtractAllExact(pieces: seq<Interval>, ivs: seq<Interval>)
    requires Canonical(pieces) && AllValid(ivs)
    decreases |ivs|
    ensures Canonical(SubtractAll(pieces, ivs))
    ensures forall x :: Covers(SubtractAll(pieces, ivs), x) <==> Covers(pieces, x) && !Covers(ivs, x)
  {
    if ivs != [] {
      assert ivs[0] in ivs;
      CutCanonical(pieces, ivs[0]);
      CutCovers(pieces, ivs[0]);
      SubtractAllExact(Cut(pieces, ivs[0]), ivs[1..]);
      CoversCons(ivs);
    }
  }

  lemma SubtractNothing(ivs: seq<Interval>)
    ensures SubtractAll([], ivs) == []
  {
  }

  lemma SubtractExact(target: Interval, ivs: seq<Interval>)
    requires Valid(target) && AllValid(ivs)
    ensures Canonical(Subtract(target, ivs))
    ensures forall x :: Covers(Subtract(target, ivs), x) <==> In(x, target) && !Covers(ivs, x)
  {
    SubtractAllExact([target], ivs);
    CoversOne(target);
  }

  lemma {:induction false} CutSnoc(pieces: seq<Interval>, p: Interval, iv: Interval)
    ensures Cut(pieces + [p], iv) == Cut(pieces, iv) + CutPiece(p, iv)
  {
    if pieces == [] {
      assert [] + [p] == [p];
      assert Cut([p], iv) == CutPiece(p, iv) + [];
    } else {
      assert (pieces + [p])[1..] == pieces[1..] + [p];
      CutSnoc(pieces[1..], p, iv);
    }
  }

  lemma CutPieceParts(done: seq<Interval>, p: Interval, iv: Interval)
    ensures done + CutPiece(p, iv)
            == if iv.hi < p.lo || iv.lo > p.hi then done + [p] else done + Below(p, iv) + Above(p, iv)
  {
    Records.ConcatAssoc(done, Below(p, iv), Above(p, iv));
  }

  lemma CutOneMore(pieces: seq<Interval>, j: nat, iv: Interval)
    requires j < |pieces|
    ensures Cut(pieces[..j + 1], iv) == Cut(pieces[..j], iv) + CutPiece(pieces[j], iv)
  {
    assert pieces[..j + 1] == pieces[..j] + [pieces[j]];
    CutSnoc(pieces[..j], pieces[j], iv);
  }

  /** The inner loop: one interval is cut out of every piece. */
  method CutAll(pieces: seq<Interval>, iv: Interval) returns (next: seq<Interval>)
    ensures next == Cut(pieces, iv)
  {
    next := [];
    for j := 0 to |pieces|
      invariant next == Cut(pieces[..j], iv)
    {
      var p := pieces[j];
      CutOneMore(pieces, j, iv);
      CutPieceParts(next, p, iv);
      if iv.hi < p.lo || iv.lo > p.hi {
        next := next + [p];
        continue;
      }
      next := next + if iv.lo > p.lo then [Interval(p.lo, iv.lo - 1)] else [];
      next := next + if iv.hi < p.hi then [Interval(iv.hi + 1, p.hi)] else [];
    }
    assert pieces[..|pieces|] == pieces;
  }

  method SubtractIntervals(target: Interval, ivs: seq<Interval>) returns (out: seq<Interval>)
    ensures out == Subtract(target, ivs)
  {
    out := [target];
    for i := 0 to |ivs|
      invariant SubtractAll(out, ivs[i..]) == Subtract(target, ivs)
    {
      assert ivs[i..][0] == ivs[i] && ivs[i..][1..] == ivs[i + 1..];
      out := CutAll(out, ivs[i]);
      if out == [] {
        SubtractNothing(ivs[i + 1..]);
        return;
      }
    }
  }

  /** [s, e] in consecutive pieces of at most `cap` lines. */
  function Chunks(s: int, e: int, cap: nat): seq<Interval>
    requires cap >= 1
    decreases e + 1 - s
  {
    if s > e then []
    else [Interval(s, Min(s + cap - 1, e))] + Chunks(Min(s + cap - 1, e) + 1, e, cap)
  }

  /** The termination of the loop needs a positive cap. */
  method ChunkRange(s: int, e: int, cap: nat) returns (out: seq<Interval>)
    requires cap >= 1
    ensures out == Chunks(s, e, cap)
  {
    out := [];
    var cur := s;
    while cur <= e
      invariant out + Chunks(cur, e, cap) == Chunks(s, e, cap)
      decreases e + 1 - cur
    {
      var end := Min(cur + cap - 1, e);
      out := out + [Interval(cur, end)];
      cur := end + 1;
    }
  }

  /** The cursor of the chunk loop after `n` rounds, for any cap. */
  function Cursor(s: int, e: int, cap: int, n: nat): int {
    if n == 0 then s else Min(Cursor(s, e, cap, n - 1) + cap - 1, e) + 1
  }

  /** With a cap below 1 the cursor never rises; with a positive one it gains a line in every round. */
  lemma {:induction false} CursorMoves(s: int, e: int, cap: int, n: nat)
    requires s <= e
    ensures cap < 1 ==> Cursor(s, e, cap, n) <= s
    ensures cap >= 1 ==> Cursor(s, e, cap, n) >= Min(s + n, e + 1)
  {
    if n > 0 {
      CursorMoves(s, e, cap, n - 1);
    }
  }

  /** The chunk loop ends exactly if the range is empty or the cap is positive. */
  lemma ChunkLoopEndsIff(s: int, e: int, cap: int)
    ensures (exists n: nat :: Cursor(s, e, cap, n) > e) <==> s > e || cap >= 1
  {
    if s > e {
      assert Cursor(s, e, cap, 0) > e;
    } else {
      CursorMoves(s, e, cap, e - s + 1);
      forall n: nat | cap < 1 ensures Cursor(s, e, cap, n) <= e {
        CursorMoves(s, e, cap, n);
      }
    }
  }
}
