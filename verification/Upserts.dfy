/** A table as a map, and the upsert of a list of rows into it. */
module Upserts {
  import opened Wrappers

  function Lookup<K, V>(m: map<K, V>, k: K): Option<V> {
    if k in m then Some(m[k]) else None
  }

  /** Row by row: `merge` makes the stored row from the one already there, if any. */
  function Upsert<K, V, R>(m: map<K, V>, rows: seq<R>, key: R -> K, merge: (Option<V>, R) -> V): map<K, V>
    decreases |rows|
  {
    if rows == [] then m
    else
      var k := key(rows[0]);
      Upsert(m[k := merge(Lookup(m, k), rows[0])], rows[1..], key, merge)
  }

  /** `INSERT OR REPLACE` */
  function Replace<R>(stored: Option<R>, row: R): R { row }

  lemma {:induction false} UpsertConcat<K, V, R>(m: map<K, V>, a: seq<R>, b: seq<R>, key: R -> K,
                                                 merge: (Option<V>, R) -> V)
    ensures Upsert(m, a + b, key, merge) == Upsert(Upsert(m, a, key, merge), b, key, merge)
    decreases |a|
  {
    if a == [] {
      assert a + b == b;
    } else {
      assert (a + b)[1..] == a[1..] + b;
      var k := key(a[0]);
      UpsertConcat(m[k := merge(Lookup(m, k), a[0])], a[1..], b, key, merge);
    }
  }

  /** `executemany` */
  method InsertRows<K(==), V, R>(m: map<K, V>, rows: seq<R>, key: R -> K, merge: (Option<V>, R) -> V)
    returns (t: map<K, V>)
    ensures t == Upsert(m, rows, key, merge)
  {
    t := m;
    for i := 0 to |rows|
      invariant Upsert(t, rows[i..], key, merge) == Upsert(m, rows, key, merge)
    {
      assert rows[i..][1..] == rows[i + 1..];
      var k := key(rows[i]);
      t := t[k := merge(Lookup(t, k), rows[i])];
    }
  }

  // ---------------------------------------------------------------------------------------------
  // Upserts that set disjoint columns

  ghost predicate Independent<V(!new), R(!new), S(!new)>(f: (Option<V>, R) -> V, g: (Option<V>, S) -> V) {
    forall v: Option<V>, r: R, s: S :: f(Some(g(v, s)), r) == g(Some(f(v, r)), s)
  }

  lemma OneAndOne<K, V(!new), R(!new), S(!new)>(m: map<K, V>, r: R, kr: K, f: (Option<V>, R) -> V,
                                                s: S, ks: K, g: (Option<V>, S) -> V)
    requires Independent(f, g)
    ensures var a := m[kr := f(Lookup(m, kr), r)];
            var b := m[ks := g(Lookup(m, ks), s)];
            a[ks := g(Lookup(a, ks), s)] == b[kr := f(Lookup(b, kr), r)]
  {
    var a := m[kr := f(Lookup(m, kr), r)];
    var b := m[ks := g(Lookup(m, ks), s)];
    assert kr == ks ==> f(Some(g(Lookup(m, ks), s)), r) == g(Some(f(Lookup(m, ks), r)), s);
    assert a[ks := g(Lookup(a, ks), s)].Keys == b[kr := f(Lookup(b, kr), r)].Keys;
  }

  lemma {:induction false} OneAndMany<K, V(!new), R(!new), S(!new)>(
      m: map<K, V>, r: R, kr: K, f: (Option<V>, R) -> V, ss: seq<S>, key: S -> K, g: (Option<V>, S) -> V)
    requires Independent(f, g)
    ensures var all := Upsert(m, ss, key, g);
            all[kr := f(Lookup(all, kr), r)] == Upsert(m[kr := f(Lookup(m, kr), r)], ss, key, g)
    decreases |ss|
  {
    if ss != [] {
      var ks := key(ss[0]);
      OneAndOne(m, r, kr, f, ss[0], ks, g);
      OneAndMany(m[ks := g(Lookup(m, ks), ss[0])], r, kr, f, ss[1..], key, g);
    }
  }

  /** Such upserts can be done in either order. */
  lemma {:induction false} UpsertsCommute<K, V(!new), R(!new), S(!new)>(
      m: map<K, V>, rs: seq<R>, kr: R -> K, f: (Option<V>, R) -> V, ss: seq<S>, ks: S -> K, g: (Option<V>, S) -> V)
    requires Independent(f, g)
    ensures Upsert(Upsert(m, ss, ks, g), rs, kr, f) == Upsert(Upsert(m, rs, kr, f), ss, ks, g)
    decreases |rs|
  {
    if rs != [] {
      var k := kr(rs[0]);
      OneAndMany(m, rs[0], k, f, ss, ks, g);
      UpsertsCommute(m[k := f(Lookup(m, k), rs[0])], rs[1..], kr, f, ss, ks, g);
    }
  }

  // ---------------------------------------------------------------------------------------------
  // What a table holds

  function AsSeq<T>(row: Option<T>): seq<T> {
    if row.Some? then [row.value] else []
  }

  function Present<T>(rows: seq<Option<T>>): seq<T> {
    if rows == [] then [] else AsSeq(rows[0]) + Present(rows[1..])
  }

  function RowIn<T>(rows: seq<Option<T>>, i: int): Option<T> {
    if 0 <= i < |rows| then rows[i] else None
  }

  /** No row but that at `n` has the key `k`. */
  predicate OnlyAt<K(==), R>(rows: seq<Option<R>>, key: R -> K, k: K, n: int) {
    forall i | 0 <= i < |rows| && i != n :: rows[i].Some? ==> key(rows[i].value) != k
  }

  lemma OnlyAtTail<K, R>(rows: seq<Option<R>>, key: R -> K, k: K, n: int)
    requires OnlyAt(rows, key, k, n) && rows != []
    ensures OnlyAt(rows[1..], key, k, n - 1)
  {
    forall i | 0 <= i < |rows| - 1 && i != n - 1 && rows[1..][i].Some? ensures key(rows[1..][i].value) != k {
      assert rows[1..][i] == rows[i + 1];
    }
  }

  lemma UpsertFirst<K, R>(m: map<K, R>, row: Option<R>, rest: seq<R>, key: R -> K)
    ensures var next := if row.Some? then m[key(row.value) := row.value] else m;
            Upsert(m, AsSeq(row) + rest, key, Replace<R>) == Upsert(next, rest, key, Replace<R>)
  {
    assert (AsSeq(row) + rest)[|AsSeq(row)|..] == rest;
  }

  lemma {:induction false} ReplacedAt<K, R>(m: map<K, R>, rows: seq<Option<R>>, key: R -> K, k: K, n: int)
    requires OnlyAt(rows, key, k, n)
    ensures var t := Upsert(m, Present(rows), key, Replace<R>);
            var row := RowIn(rows, n);
            Lookup(t, k) == if row.Some? && key(row.value) == k then row else Lookup(m, k)
    decreases |rows|
  {
    if rows != [] {
      var next := if rows[0].Some? then m[key(rows[0].value) := rows[0].value] else m;
      UpsertFirst(m, rows[0], Present(rows[1..]), key);
      OnlyAtTail(rows, key, k, n);
      ReplacedAt(next, rows[1..], key, k, n - 1);
    }
  }

  // ---------------------------------------------------------------------------------------------
  // Only the last row with a key matters

  function LastWith<K(==), R>(rows: seq<R>, key: R -> K, k: K): Option<R> {
    if rows == [] then None
    else
      var later := LastWith(rows[1..], key, k);
      if later.Some? then later else if key(rows[0]) == k then Some(rows[0]) else None
  }

  /** A later row sets every column that an earlier one with its key has set. */
  ghost predicate Overwrites<V(!new), R(!new)>(merge: (Option<V>, R) -> V) {
    forall v: Option<V>, r: R, s: R :: merge(Some(merge(v, r)), s) == merge(v, s)
  }

  lemma {:induction false} UpsertMeaning<K, V(!new), R(!new)>(m: map<K, V>, rows: seq<R>, key: R -> K,
                                                              merge: (Option<V>, R) -> V, k: K)
    requires Overwrites(merge)
    ensures var last := LastWith(rows, key, k);
            Lookup(Upsert(m, rows, key, merge), k)
            == if last.Some? then Some(merge(Lookup(m, k), last.value)) else Lookup(m, k)
    decreases |rows|
  {
    if rows != [] {
      var k0 := key(rows[0]);
      UpsertMeaning(m[k0 := merge(Lookup(m, k0), rows[0])], rows[1..], key, merge, k);
    }
  }

  lemma SameMap<K(!new), V>(m: map<K, V>, n: map<K, V>)
    requires forall k :: Lookup(m, k) == Lookup(n, k)
    ensures m == n
  {
    forall k ensures k in m <==> k in n {
      assert Lookup(m, k) == Lookup(n, k);
    }
    forall k | k in m ensures m[k] == n[k] {
      assert Lookup(m, k) == Lookup(n, k);
    }
    assert m.Keys == n.Keys;
  }

  /** The table that a list of rows makes from nothing. */
  function Made<K(==), R>(rows: seq<R>, key: R -> K): map<K, R> {
    Upsert(map[], rows, key, Replace<R>)
  }

  lemma MadeMeaning<K, R(!new)>(rows: seq<R>, key: R -> K, k: K)
    ensures Lookup(Made(rows, key), k) == LastWith(rows, key, k)
  {
    UpsertMeaning(map[], rows, key, Replace<R>, k);
  }

  /** For every key the last row with it is the same. */
  ghost predicate SameLast<K(!new), R(!new)>(a: seq<R>, b: seq<R>, key: R -> K) {
    forall k :: LastWith(a, key, k) == LastWith(b, key, k)
  }

  /** Such tables are equal exactly if the last rows are. */
  lemma SameRowsIff<K(!new), R(!new)>(a: seq<R>, b: seq<R>, key: R -> K)
    ensures Made(a, key) == Made(b, key) <==> SameLast(a, b, key)
  {
    forall k ensures Lookup(Made(a, key), k) == LastWith(a, key, k) && Lookup(Made(b, key), k) == LastWith(b, key, k) {
      MadeMeaning(a, key, k);
      MadeMeaning(b, key, k);
    }
    if SameLast(a, b, key) {
      SameMap(Made(a, key), Made(b, key));
    }
  }
}
