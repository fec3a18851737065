/** The `mapfile` builtin: reading records from a stream byte by byte. */
module MapFile {
  import opened Wrappers
  import opened Records

  const INTERRUPT: byte := 3
  const END_OF_INPUT: byte := 4
  const NUL: byte := 0

  // ---------------------------------------------------------------------------------------------
  // One record, and all of them

  /** The bytes are added to `line` up to the delimiter; an interrupt breaks the line off, and so does
      an end-of-input byte where a line would start. The second component is what is left to read. */
  function TakeLine(line: Bytes, input: Bytes, d: byte): (Bytes, Bytes)
    decreases |input|
  {
    if input == [] then (line, [])
    else if input[0] == INTERRUPT || (input[0] == END_OF_INPUT && line == []) then (line, input[1..])
    else if input[0] == d then (line + [d], input[1..])
    else TakeLine(line + [input[0]], input[1..], d)
  }

  lemma {:induction false} TakeLineBounds(line: Bytes, input: Bytes, d: byte)
    ensures var r := TakeLine(line, input, d);
            |r.0| + |r.1| <= |line| + |input| && |r.1| <= |input| && (r.0 != [] && line == [] ==> |r.1| < |input|)
    decreases |input|
  {
    if input == [] || input[0] == INTERRUPT || (input[0] == END_OF_INPUT && line == []) || input[0] == d {
    } else {
      TakeLineBounds(line + [input[0]], input[1..], d);
    }
  }

  /** The records of a stream, up to a line that is empty and not ended by the delimiter. */
  function AllLines(input: Bytes, d: byte): seq<Bytes>
    decreases |input|
  {
    var r := TakeLine([], input, d);
    TakeLineBounds([], input, d);
    if r.0 == [] then [] else [r.0] + AllLines(r.1, d)
  }

  // ---------------------------------------------------------------------------------------------
  // Against cutting behind each delimiter

  lemma {:induction false} FirstRecord(input: Bytes, d: byte)
    requires input != []
    ensures var a := SplitAfter(input, d)[0];
            a != [] && a <= input && SplitAfter(input, d) == [a] + SplitAfter(input[|a|..], d)
  {
    if input[0] != d && SplitAfter(input[1..], d) != [] {
      FirstRecord(input[1..], d);
      var b := SplitAfter(input[1..], d)[0];
      assert input[1 + |b|..] == input[1..][|b|..];
    }
  }

  /** The line is read as it is. */
  predicate Plain(a: Bytes, atStart: bool) {
    INTERRUPT !in a && (atStart && a != [] ==> a[0] != END_OF_INPUT)
  }

  lemma {:induction false} TakeFirst(line: Bytes, input: Bytes, d: byte)
    requires input != []
    ensures var a, r := SplitAfter(input, d)[0], TakeLine(line, input, d);
            && |a| <= |input|
            && (Plain(a, line == []) ==> r == (line + a, input[|a|..]))
            && (!Plain(a, line == []) ==> |r.0| + |r.1| < |line| + |input|)
    decreases |input|
  {
    FirstRecord(input, d);
    var a := SplitAfter(input, d)[0];
    if input[0] == d || input[0] == INTERRUPT || (input[0] == END_OF_INPUT && line == []) {
      assert a[0] == input[0];
    } else if input[1..] == [] {
    } else {
      var longer := line + [input[0]];
      var b := SplitAfter(input[1..], d)[0];
      TakeFirst(longer, input[1..], d);
      assert a == [input[0]] + b && longer + b == line + a;
      assert input[1..][|b|..] == input[|a|..];
    }
  }

  /** No interrupt, and no line that starts with the end-of-input byte. */
  predicate Clean(input: Bytes, d: byte) {
    AllPlain(SplitAfter(input, d))
  }

  predicate AllPlain(lines: seq<Bytes>) {
    lines != [] ==> Plain(lines[0], true) && AllPlain(lines[1..])
  }

  lemma {:induction false} LinesOfClean(input: Bytes, d: byte)
    ensures Clean(input, d) ==> AllLines(input, d) == SplitAfter(input, d)
    ensures |Flatten(AllLines(input, d))| <= |input|
    ensures !Clean(input, d) ==> |Flatten(AllLines(input, d))| < |input|
    decreases |input|
  {
    if input == [] {
    } else {
      FirstRecord(input, d);
      TakeFirst([], input, d);
      TakeLineBounds([], input, d);
      var a, r := SplitAfter(input, d)[0], TakeLine([], input, d);
      assert [] + a == a;
      if r.0 != [] {
        LinesOfClean(r.1, d);
        assert ([r.0] + AllLines(r.1, d))[1..] == AllLines(r.1, d);
      }
    }
  }

  /** The records together are the input exactly if no byte is taken as a control byte, and then they
      are the input cut behind each delimiter. */
  lemma NothingLostIff(input: Bytes, d: byte)
    ensures Flatten(AllLines(input, d)) == input <==> Clean(input, d)
    ensures Clean(input, d) ==> AllLines(input, d) == SplitAfter(input, d)
  {
    LinesOfClean(input, d);
    FlattenOfSplit(input, d);
  }

  lemma {:induction false} WithoutControlIsClean(input: Bytes, d: byte)
    requires INTERRUPT !in input && END_OF_INPUT !in input
    ensures Clean(input, d)
    decreases |input|
  {
    if input != [] {
      FirstRecord(input, d);
      var a := SplitAfter(input, d)[0];
      assert forall b | b in a :: b in input;
      assert a[0] in a;
      WithoutControlIsClean(input[|a|..], d);
    }
  }

  /** The byte at `i` is read as it is: it is no byte 3, and no byte 4 in front or behind a delimiter. */
  predicate IsKept(input: Bytes, d: byte, i: nat)
    requires i < |input|
  {
    input[i] != 3 && (input[i] == 4 ==> i > 0 && input[i - 1] != d)
  }

  lemma KeptInside(input: Bytes, d: byte, a: Bytes, i: nat)
    requires a != [] && a <= input && d !in a[..|a| - 1] && i < |a|
    ensures IsKept(input, d, i) <==> a[i] != INTERRUPT && (i == 0 ==> a[0] != END_OF_INPUT)
  {
    assert i > 0 ==> a[..|a| - 1][i - 1] == input[i - 1];
  }

  lemma FirstKept(input: Bytes, d: byte, a: Bytes)
    requires a != [] && a <= input && d !in a[..|a| - 1]
    ensures Plain(a, true) <==> forall i | 0 <= i < |a| :: IsKept(input, d, i)
  {
    forall i: nat | i < |a| ensures IsKept(input, d, i) <==> a[i] != INTERRUPT && (i == 0 ==> a[0] != END_OF_INPUT) {
      KeptInside(input, d, a, i);
    }
    if forall i | 0 <= i < |a| :: IsKept(input, d, i) {
      assert IsKept(input, d, 0);
      forall b | b in a ensures b != INTERRUPT {
        var i :| 0 <= i < |a| && a[i] == b;
        assert IsKept(input, d, i);
      }
    }
  }

  lemma RestKept(input: Bytes, d: byte, n: nat)
    requires 0 < n <= |input| && (n < |input| ==> input[n - 1] == d)
    ensures (forall i | n <= i < |input| :: IsKept(input, d, i))
            <==> forall j | 0 <= j < |input[n..]| :: IsKept(input[n..], d, j)
  {
    var rest := input[n..];
    forall j | 0 <= j < |rest| ensures IsKept(rest, d, j) <==> IsKept(input, d, n + j) {
      assert rest[j] == input[n + j] && (j > 0 ==> rest[j - 1] == input[n + j - 1]);
    }
    forall i | n <= i < |input| ensures IsKept(input, d, i) <==> IsKept(rest, d, i - n) {
      assert IsKept(rest, d, i - n) <==> IsKept(input, d, n + (i - n));
    }
  }

  /** Input is clean exactly if every byte is. */
  lemma {:induction false} CleanIff(input: Bytes, d: byte)
    ensures Clean(input, d) <==> forall i | 0 <= i < |input| :: IsKept(input, d, i)
    decreases |input|
  {
    if input != [] {
      FirstRecord(input, d);
      RecordShape(input, d, 0);
      var a := SplitAfter(input, d)[0];
      var rest := input[|a|..];
      assert SplitAfter(input, d)[1..] == SplitAfter(rest, d);
      assert rest != [] ==> |SplitAfter(input, d)| > 1;
      CleanIff(rest, d);
      FirstKept(input, d, a);
      RestKept(input, d, |a|);
    }
  }

  // ---------------------------------------------------------------------------------------------
  // The entries

  function Strip(line: Bytes, d: byte, remove: bool): Bytes {
    if remove && line != [] && line[|line| - 1] == d then line[..|line| - 1] else line
  }

  function StripAll(lines: seq<Bytes>, d: byte, remove: bool): (entries: seq<Bytes>)
    ensures |entries| == |lines|
  {
    if lines == [] then [] else StripAll(lines[..|lines| - 1], d, remove) + [Strip(lines[|lines| - 1], d, remove)]
  }

  lemma {:induction false} StripNothing(lines: seq<Bytes>, d: byte)
    ensures StripAll(lines, d, false) == lines
  {
    if lines != [] {
      StripNothing(lines[..|lines| - 1], d);
    }
  }

  /** Some lines are skipped, and of the others at most `max` are taken; 0 takes all. */
  function Select(lines: seq<Bytes>, skip: int, max: nat): seq<Bytes> {
    var wanted := lines[Skipped(lines, skip)..];
    if max == 0 || |wanted| <= max then wanted else wanted[..max]
  }

  function Skipped(lines: seq<Bytes>, skip: int): (n: nat)
    ensures n <= |lines|
  {
    if skip < 0 then 0 else if skip < |lines| then skip else |lines|
  }

  /** What is left to read behind the first `k` lines. */
  function Behind(input: Bytes, d: byte, k: nat): Bytes {
    if k == 0 then input else TakeLine([], Behind(input, d, k - 1), d).1
  }

  lemma {:induction false} BehindSuffix(input: Bytes, d: byte, k: nat)
    requires k <= |AllLines(input, d)|
    ensures AllLines(Behind(input, d, k), d) == AllLines(input, d)[k..]
  {
    if k > 0 {
      BehindSuffix(input, d, k - 1);
      assert AllLines(input, d)[k - 1..][1..] == AllLines(input, d)[k..];
    }
  }

  /** The next line of a clean stream. */
  lemma TakeClean(input: Bytes, d: byte)
    requires Clean(input, d) && input != []
    ensures var a, r := SplitAfter(input, d)[0], TakeLine([], input, d);
            && r == (a, r.1) && input == a + r.1 && Clean(r.1, d) && SplitAfter(input, d) == [a] + SplitAfter(r.1, d)
  {
    FirstRecord(input, d);
    TakeFirst([], input, d);
    assert [] + SplitAfter(input, d)[0] == SplitAfter(input, d)[0];
  }

  lemma {:induction false} BehindIsClean(input: Bytes, d: byte, k: nat)
    requires Clean(input, d) && k <= |SplitAfter(input, d)|
    ensures Clean(Behind(input, d, k), d) && SplitAfter(Behind(input, d, k), d) == SplitAfter(input, d)[k..]
  {
    if k > 0 {
      BehindIsClean(input, d, k - 1);
      TakeClean(Behind(input, d, k - 1), d);
      assert SplitAfter(input, d)[k - 1..][1..] == SplitAfter(input, d)[k..];
    }
  }

  lemma FlattenOneMore(lines: seq<Bytes>, k: nat, rest: Bytes)
    requires 0 < k <= |lines|
    ensures Flatten(lines[..k]) + rest == Flatten(lines[..k - 1]) + (lines[k - 1] + rest)
  {
    FlattenSnoc(lines[..k - 1], lines[k - 1]);
    assert lines[..k - 1] + [lines[k - 1]] == lines[..k];
  }

  /** A clean stream is read no further than needed: the first `k` lines and what is left make it up. */
  lemma {:induction false} ReadNoFurther(input: Bytes, d: byte, k: nat)
    requires Clean(input, d) && k <= |SplitAfter(input, d)|
    ensures Flatten(SplitAfter(input, d)[..k]) + Behind(input, d, k) == input
  {
    if k > 0 {
      ReadNoFurther(input, d, k - 1);
      BehindIsClean(input, d, k - 1);
      TakeClean(Behind(input, d, k - 1), d);
      assert SplitAfter(input, d)[k - 1..][0] == SplitAfter(input, d)[k - 1];
      FlattenOneMore(SplitAfter(input, d), k, Behind(input, d, k));
    } else {
      assert SplitAfter(input, d)[..0] == [];
    }
  }

  lemma StripSnoc(lines: seq<Bytes>, d: byte, remove: bool, i: nat, k: nat)
    requires i <= k < |lines|
    ensures StripAll(lines[i..k + 1], d, remove) == StripAll(lines[i..k], d, remove) + [Strip(lines[k], d, remove)]
  {
    var all := lines[i..k + 1];
    assert all[..|all| - 1] == lines[i..k];
  }

  lemma {:induction false} StripAt(lines: seq<Bytes>, d: byte, remove: bool, i: nat)
    requires i < |lines|
    ensures StripAll(lines, d, remove)[i] == Strip(lines[i], d, remove)
  {
    if i < |lines| - 1 {
      StripAt(lines[..|lines| - 1], d, remove, i);
    }
  }

  /** The entries are the lines behind the skipped ones, up to the limit, if there is one; a delimiter at the
      end of a line is taken off if that is asked for. */
  lemma EntriesAre(lines: seq<Bytes>, skip: int, max: nat, d: byte, remove: bool, i: nat)
    ensures var entries := StripAll(Select(lines, skip, max), d, remove);
            var first, behind := (if skip < 0 then 0 else skip), |lines| - if skip < 0 then 0 else skip;
            && |entries| == (if behind < 0 then 0 else if max == 0 || behind <= max then behind else max)
            && (i < |entries| ==>
                  && (remove && lines[first + i] != [] && lines[first + i][|lines[first + i]| - 1] == d ==>
                        entries[i] + [d] == lines[first + i])
                  && (!(remove && lines[first + i] != [] && lines[first + i][|lines[first + i]| - 1] == d) ==>
                        entries[i] == lines[first + i]))
  {
    var wanted := Select(lines, skip, max);
    if i < |wanted| {
      StripAt(wanted, d, remove, i);
    }
  }

  /** The line feed without the option, the zero byte for an empty one, and else its first byte. */
  lemma DelimiterIs(option: Option<Bytes>)
    ensures option == None ==> Delimiter(option) == 10
    ensures option == Some([]) ==> Delimiter(option) == 0
    ensures option.Some? && option.value != [] ==> Delimiter(option) == option.value[0]
  {
  }

  // ---------------------------------------------------------------------------------------------
  // The program

  /** An open file that is read one byte at a time. */
  class Input {
    var left: Bytes

    constructor (content: Bytes)
      ensures left == content
    {
      left := content;
    }

    /** No byte at the end of the input. */
    method Read() returns (b: Option<byte>)
      modifies this
      ensures old(left) == [] ==> b == None && left == []
      ensures old(left) != [] ==> b == Some(old(left)[0]) && left == old(left)[1..]
    {
      if left == [] {
        b := None;
      } else {
        b := Some(left[0]);
        left := left[1..];
      }
    }
  }

  method ReadLine(input: Input, d: byte) returns (line: Bytes, sawDelimiter: bool)
    modifies input
    ensures (line, input.left) == TakeLine([], old(input.left), d)
    ensures sawDelimiter ==> line != []
  {
    line, sawDelimiter := [], false;
    ghost var start := input.left;
    while true
      invariant !sawDelimiter && TakeLine(line, input.left, d) == TakeLine([], start, d)
      decreases |input.left|
    {
      var b := input.Read();
      if b.None? || b.value == INTERRUPT || (b.value == END_OF_INPUT && line == []) {
        break;
      }
      line := line + [b.value];
      if b.value == d {
        sawDelimiter := true;
        break;
      }
    }
  }

  datatype Outcome = BadCount | Entries(entries: seq<Bytes>)

  /** No delimiter is the line feed; an empty one is the zero byte. */
  function Delimiter(option: Option<Bytes>): byte {
    if option.None? then NEWLINE else if option.value == [] then NUL else option.value[0]
  }

  method ReadEntries(input: Input, delimiter: Option<Bytes>, maxCount: int, skipCount: int, remove: bool)
    returns (result: Outcome)
    modifies input
    ensures maxCount < 0 ==> result == BadCount && input.left == old(input.left)
    ensures maxCount >= 0 ==>
              result == Entries(StripAll(Select(AllLines(old(input.left), Delimiter(delimiter)), skipCount, maxCount),
                                         Delimiter(delimiter), remove))
    ensures maxCount > 0 && |AllLines(old(input.left), Delimiter(delimiter))| >= maxCount + Nat(skipCount) ==>
              input.left == Behind(old(input.left), Delimiter(delimiter), maxCount + Nat(skipCount))
    ensures maxCount == 0 && skipCount <= 0 && !remove ==>
              && result == Entries(AllLines(old(input.left), Delimiter(delimiter)))
              && (Flatten(result.entries) == old(input.left) <==> Clean(old(input.left), Delimiter(delimiter)))
  {
    if maxCount < 0 {
      return BadCount;
    }
    var d := Delimiter(delimiter);
    StripNothing(AllLines(input.left, d), d);
    NothingLostIff(input.left, d);
    var entries := ReadAll(input, d, maxCount, skipCount, remove);
    result := Entries(entries);
  }

  function Nat(n: int): nat { if n < 0 then 0 else n }

  /** `k` lines are read: the first ones are skipped, the others are entries. */
  ghost predicate ReadSoFar(start: Bytes, left: Bytes, d: byte, remove: bool, skipCount: int, readCount: nat,
                            entries: seq<Bytes>, k: nat)
  {
    var lines := AllLines(start, d);
    && k <= |lines| && left == Behind(start, d, k)
    && readCount <= k && readCount <= Nat(skipCount) && (readCount < Nat(skipCount) ==> k == readCount)
    && entries == StripAll(lines[readCount..k], d, remove)
  }

  lemma NextLine(start: Bytes, d: byte, k: nat)
    requires k <= |AllLines(start, d)|
    ensures var line := TakeLine([], Behind(start, d, k), d).0;
            if line == [] then k == |AllLines(start, d)| else k < |AllLines(start, d)| && line == AllLines(start, d)[k]
  {
    BehindSuffix(start, d, k);
  }

  /** One more line. */
  lemma ReadOne(start: Bytes, left: Bytes, d: byte, remove: bool, skipCount: int, readCount: nat,
                entries: seq<Bytes>, k: nat, line: Bytes, after: Bytes)
    requires ReadSoFar(start, left, d, remove, skipCount, readCount, entries, k)
    requires (line, after) == TakeLine([], left, d)
    ensures line == [] ==> k == |AllLines(start, d)|
    ensures line != [] ==> k < |AllLines(start, d)|
    ensures line != [] && readCount < skipCount ==>
              ReadSoFar(start, after, d, remove, skipCount, readCount + 1, entries, k + 1)
    ensures line != [] && readCount >= skipCount ==>
              ReadSoFar(start, after, d, remove, skipCount, readCount, entries + [Strip(line, d, remove)], k + 1)
  {
    NextLine(start, d, k);
    if line != [] {
      StripSnoc(AllLines(start, d), d, remove, readCount, k);
    }
  }

  method ReadAll(input: Input, d: byte, maxCount: nat, skipCount: int, remove: bool) returns (entries: seq<Bytes>)
    modifies input
    ensures entries == StripAll(Select(AllLines(old(input.left), d), skipCount, maxCount), d, remove)
    ensures maxCount > 0 && |AllLines(old(input.left), d)| >= maxCount + Nat(skipCount) ==>
              input.left == Behind(old(input.left), d, maxCount + Nat(skipCount))
  {
    ghost var start, k := input.left, 0;
    ghost var lines := AllLines(start, d);
    var readCount := 0;
    entries := [];
    while maxCount == 0 || |entries| < maxCount
      invariant ReadSoFar(start, input.left, d, remove, skipCount, readCount, entries, k)
      invariant maxCount == 0 || |entries| <= maxCount
      decreases |lines| - k
    {
      ghost var left := input.left;
      var line, sawDelimiter := ReadLine(input, d);
      ReadOne(start, left, d, remove, skipCount, readCount, entries, k, line, input.left);
      if line == [] && !sawDelimiter {
        break;
      }
      k := k + 1;
      if readCount < skipCount {
        readCount := readCount + 1;
        continue;
      }
      if remove && line[|line| - 1] == d {
        line := line[..|line| - 1];
      }
      entries := entries + [line];
    }
    SelectSoFar(lines, skipCount, maxCount, readCount, k);
  }

  /** The lines between the skipped ones and the end of the reading are the selected ones. */
  lemma SelectSoFar(lines: seq<Bytes>, skipCount: int, maxCount: nat, readCount: nat, k: nat)
    requires readCount <= k <= |lines| && readCount <= Nat(skipCount) && (readCount < Nat(skipCount) ==> k == readCount)
    requires k == |lines| || (maxCount > 0 && k - readCount == maxCount)
    requires maxCount == 0 || k - readCount <= maxCount
    ensures lines[readCount..k] == Select(lines, skipCount, maxCount)
  {
  }
}
