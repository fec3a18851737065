/** Cutting a stream into records: each record ends with the delimiter, except perhaps the last. */
module Records {
  newtype byte = x: int | 0 <= x < 256

  type Bytes = seq<byte>

  const NEWLINE: byte := 10

  /** The element starts the first record. */
  function Glue<T>(c: T, records: seq<seq<T>>): seq<seq<T>> {
    if records == [] then [[c]] else [[c] + records[0]] + records[1..]
  }

  function SplitAfter<T(==)>(s: seq<T>, d: T): (records: seq<seq<T>>)
    ensures s != [] <==> records != []
  {
    if s == [] then []
    else if s[0] == d then [[s[0]]] + SplitAfter(s[1..], d)
    else Glue(s[0], SplitAfter(s[1..], d))
  }

  lemma GlueConcat<T>(c: T, records: seq<seq<T>>, more: seq<seq<T>>)
    requires records != []
    ensures Glue(c, records + more) == Glue(c, records) + more
  {
    assert (records + more)[1..] == records[1..] + more;
  }

  /** Empty, or ending with a delimiter. */
  predicate Complete<T(==)>(s: seq<T>, d: T) {
    s != [] ==> s[|s| - 1] == d
  }

  /** Complete input and what follows it are cut independently. */
  lemma {:induction false} SplitConcat<T>(a: seq<T>, b: seq<T>, d: T)
    requires Complete(a, d)
    ensures SplitAfter(a + b, d) == SplitAfter(a, d) + SplitAfter(b, d)
  {
    if a == [] {
      assert a + b == b;
    } else {
      var rest, more := SplitAfter(a[1..], d), SplitAfter(b, d);
      assert (a + b)[1..] == a[1..] + b && (a + b)[0] == a[0];
      SplitConcat(a[1..], b, d);
      if a[0] == d {
        assert [[d]] + (rest + more) == [[d]] + rest + more;
      } else {
        GlueConcat(a[0], rest, more);
      }
    }
  }

  /** The first of the records `y` continues the last of the records `x`. */
  function Continued<T>(x: seq<seq<T>>, y: seq<seq<T>>): seq<seq<T>>
    requires x != [] && y != []
  {
    x[..|x| - 1] + [x[|x| - 1] + y[0]] + y[1..]
  }

  lemma ContinuedCons<T>(first: seq<T>, x: seq<seq<T>>, y: seq<seq<T>>)
    requires x != [] && y != []
    ensures [first] + Continued(x, y) == Continued([first] + x, y)
  {
  }

  lemma ContinuedGlue<T>(c: T, x: seq<seq<T>>, y: seq<seq<T>>)
    requires x != [] && y != []
    ensures Glue(c, Continued(x, y)) == Continued(Glue(c, x), y)
  {
    if |x| == 1 {
      assert [c] + (x[0] + y[0]) == ([c] + x[0]) + y[0];
    }
  }

  /** An unfinished record is continued by what follows it. */
  lemma {:induction false} SplitContinues<T>(a: seq<T>, b: seq<T>, d: T)
    requires !Complete(a, d) && b != []
    ensures SplitAfter(a + b, d) == Continued(SplitAfter(a, d), SplitAfter(b, d))
  {
    var y := SplitAfter(b, d);
    assert (a + b)[1..] == a[1..] + b && (a + b)[0] == a[0];
    if |a| == 1 {
      assert a[1..] + b == b;
      assert SplitAfter(a, d) == [[a[0]]];
    } else {
      SplitContinues(a[1..], b, d);
      if a[0] == d {
        ContinuedCons([d], SplitAfter(a[1..], d), y);
      } else {
        ContinuedGlue(a[0], SplitAfter(a[1..], d), y);
      }
    }
  }

  function Flatten<T>(records: seq<seq<T>>): seq<T> {
    if records == [] then [] else records[0] + Flatten(records[1..])
  }

  lemma FlattenSnoc<T>(records: seq<seq<T>>, last: seq<T>)
    ensures Flatten(records + [last]) == Flatten(records) + last
  {
    if records == [] {
      assert [] + [last] == [last] && [last][1..] == [];
    } else {
      FlattenSnoc(records[1..], last);
      assert (records + [last])[1..] == records[1..] + [last];
    }
  }

  lemma ConcatAssoc<T>(a: seq<T>, b: seq<T>, c: seq<T>)
    ensures a + (b + c) == a + b + c
  {
  }

  lemma FlattenGlue<T>(c: T, records: seq<seq<T>>)
    ensures Flatten(Glue(c, records)) == [c] + Flatten(records)
  {
    if records != [] {
      assert Glue(c, records)[1..] == records[1..];
      ConcatAssoc([c], records[0], Flatten(records[1..]));
    }
  }

  /** Nothing is lost. */
  lemma {:induction false} FlattenOfSplit<T>(s: seq<T>, d: T)
    ensures Flatten(SplitAfter(s, d)) == s
  {
    if s != [] {
      var rest := SplitAfter(s[1..], d);
      FlattenOfSplit(s[1..], d);
      if s[0] == d {
        assert ([[s[0]]] + rest)[1..] == rest;
      } else {
        FlattenGlue(s[0], rest);
      }
    }
  }

  /** A record holds the delimiter only at its end, and only the last one may lack it. */
  lemma {:induction false} RecordShape<T>(s: seq<T>, d: T, i: nat)
    requires i < |SplitAfter(s, d)|
    ensures var r := SplitAfter(s, d)[i];
            && r != [] && d !in r[..|r| - 1]
            && (r[|r| - 1] == d || (i == |SplitAfter(s, d)| - 1 && !Complete(s, d)))
  {
    if s[0] == d {
      if i > 0 {
        RecordShape(s[1..], d, i - 1);
      }
    } else if SplitAfter(s[1..], d) != [] {
      RecordShape(s[1..], d, i);
    }
  }
}
