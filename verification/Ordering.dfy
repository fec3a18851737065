/** Stable sorting by a total preorder, standing for the library sort of the scripts. */
module Ordering {
  ghost predicate TotalPreorder<T(!new)>(le: (T, T) -> bool) {
    && (forall x, y :: le(x, y) || le(y, x))
    && (forall x, y, z :: le(x, y) && le(y, z) ==> le(x, z))
  }

  predicate SortedBy<T>(s: seq<T>, le: (T, T) -> bool) {
    forall i, j | 0 <= i < j < |s| :: le(s[i], s[j])
  }

  function Insert<T>(x: T, s: seq<T>, le: (T, T) -> bool): seq<T> {
    if s == [] then [x]
    else if le(x, s[0]) then [x] + s
    else [s[0]] + Insert(x, s[1..], le)
  }

  function Sort<T>(s: seq<T>, le: (T, T) -> bool): seq<T> {
    if s == [] then [] else Insert(s[0], Sort(s[1..], le), le)
  }

  lemma {:induction false} InsertKeeps<T>(x: T, s: seq<T>, le: (T, T) -> bool)
    ensures multiset(Insert(x, s, le)) == multiset{x} + multiset(s)
  {
    if s == [] {
    } else if !le(x, s[0]) {
      InsertKeeps(x, s[1..], le);
      assert s == [s[0]] + s[1..];
    }
  }

  lemma {:induction false} InsertSorted<T(!new)>(x: T, s: seq<T>, le: (T, T) -> bool)
    requires TotalPreorder(le) && SortedBy(s, le)
    ensures SortedBy(Insert(x, s, le), le)
  {
    if s == [] {
    } else if le(x, s[0]) {
      forall j | 0 <= j < |s| ensures le(x, s[j]) {
        assert j > 0 ==> le(s[0], s[j]);
      }
    } else {
      InsertSorted(x, s[1..], le);
      InsertKeeps(x, s[1..], le);
      var t := Insert(x, s[1..], le);
      forall j | 0 <= j < |t| ensures le(s[0], t[j]) {
        assert t[j] in multiset(t);
        assert t[j] == x || t[j] in s[1..];
      }
    }
  }

  lemma {:induction false} SortPermutes<T>(s: seq<T>, le: (T, T) -> bool)
    ensures multiset(Sort(s, le)) == multiset(s)
  {
    if s != [] {
      SortPermutes(s[1..], le);
      InsertKeeps(s[0], Sort(s[1..], le), le);
      assert s == [s[0]] + s[1..];
    }
  }

  /** The result is sorted and a permutation of the input. */
  lemma {:induction false} SortSorts<T(!new)>(s: seq<T>, le: (T, T) -> bool)
    requires TotalPreorder(le)
    ensures SortedBy(Sort(s, le), le)
    ensures multiset(Sort(s, le)) == multiset(s)
  {
    if s != [] {
      SortSorts(s[1..], le);
      InsertSorted(s[0], Sort(s[1..], le), le);
      SortPermutes(s, le);
    }
  }

  lemma SortMembers<T(!new)>(s: seq<T>, le: (T, T) -> bool)
    ensures |Sort(s, le)| == |s|
    ensures forall x :: x in Sort(s, le) <==> x in s
  {
    SortPermutes(s, le);
    forall x ensures x in Sort(s, le) <==> x in s {
      assert x in Sort(s, le) <==> x in multiset(Sort(s, le));
      assert x in s <==> x in multiset(s);
    }
    assert |multiset(Sort(s, le))| == |Sort(s, le)|;
  }
}
