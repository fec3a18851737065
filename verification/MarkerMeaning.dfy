/** Where a text holds protocol markers, character by character, and what follows from that. */
module MarkerMeaning {
  import opened Wrappers
  import opened Text
  import opened TextLines
  import opened Ordering
  import opened Marker
  import B = Boundary

  // ---------------------------------------------------------------------------------------------
  // The markers

  predicate TagAt(text: string, pos: nat)
    requires pos <= |text|
  {
    var s := text[pos..];
    || "<|start|>" <= s || "<|end|>" <= s || "<|channel|>" <= s || "<|message|>" <= s || "<|call|>" <= s
    || "<|return|>" <= s
  }

  /** The literal and the first character of a name, at the start of a word. */
  predicate CallAt(text: string, word: char -> bool, pos: nat)
    requires pos <= |text|
  {
    && "to=functions." <= text[pos..] && pos + 13 < |text|
    && ('a' <= text[pos + 13] <= 'z' || 'A' <= text[pos + 13] <= 'Z' || text[pos + 13] == '_')
    && (pos > 0 ==> !word(text[pos - 1]))
  }

  /** A call marker is passed over if it is the name behind one that counts. */
  predicate Counted(text: string, word: char -> bool, pos: nat)
    requires pos <= |text|
  {
    CallAt(text, word, pos) && (pos >= 13 ==> !Counted(text, word, pos - 13))
  }

  predicate NameCharacter(c: char) {
    'a' <= c <= 'z' || 'A' <= c <= 'Z' || c == '_' || '0' <= c <= '9'
  }

  /** Letters, digits and the underscore belong to words. */
  ghost predicate CoversNames(word: char -> bool) {
    forall c | NameCharacter(c) :: word(c)
  }

  lemma TagsAre(w: string)
    ensures w in TAGS <==> w == "<|start|>" || w == "<|end|>" || w == "<|channel|>" || w == "<|message|>"
                           || w == "<|call|>" || w == "<|return|>"
  {
    assert |TAGS| == 6;
    assert TAGS[0] == "<|start|>" && TAGS[1] == "<|end|>" && TAGS[2] == "<|channel|>";
    assert TAGS[3] == "<|message|>" && TAGS[4] == "<|call|>" && TAGS[5] == "<|return|>";
  }

  lemma TagLengthIs(text: string, pos: nat)
    requires pos <= |text|
    ensures TagLength(TAGS, text[pos..]) > 0 <==> TagAt(text, pos)
  {
    var s := text[pos..];
    forall w ensures w in TAGS <==> w == "<|start|>" || w == "<|end|>" || w == "<|channel|>" || w == "<|message|>"
                                    || w == "<|call|>" || w == "<|return|>"
    {
      TagsAre(w);
    }
    TagIff(TAGS, s);
    if TagAt(text, pos) {
      var w :| w in ["<|start|>", "<|end|>", "<|channel|>", "<|message|>", "<|call|>", "<|return|>"] && w <= s;
      assert w in TAGS;
    }
  }

  lemma CallLengthIs(text: string, word: char -> bool, pos: nat)
    requires pos < |text|
    ensures LengthAt(CallPattern(word), text, pos) > 0 <==> CallAt(text, word, pos)
    ensures CallAt(text, word, pos) ==> LengthAt(CallPattern(word), text, pos) > 13
  {
    var s := text[pos..];
    assert "to=functions." <= s && |s| > 13 ==> s[13] == text[pos + 13];
  }

  // ---------------------------------------------------------------------------------------------
  // Which of them the search reports

  ghost predicate Reported(lens: seq<nat>, pos: nat) {
    AnyStart(FindAll(lens, 0), pos)
  }

  /** A place is covered by an earlier match. */
  ghost predicate Covered(lens: seq<nat>, pos: nat) {
    exists p: nat :: p < pos < |lens| && Reported(lens, p) && pos < p + lens[p]
  }

  ghost predicate AnyStart(matches: seq<Match>, pos: nat) {
    exists m | m in matches :: m.start == pos
  }

  lemma StartIn(matches: seq<Match>, lens: seq<nat>, pos: nat)
    requires AnyStart(matches, pos) && forall m | m in matches :: IsAt(lens, m)
    ensures pos < |lens| && Match(pos, pos + lens[pos]) in matches && 0 < lens[pos] <= |lens| - pos
  {
    var m :| m in matches && m.start == pos;
    assert m == Match(pos, pos + lens[pos]);
  }

  lemma ReportedAt(lens: seq<nat>, pos: nat)
    requires Reported(lens, pos)
    ensures pos < |lens| && Match(pos, pos + lens[pos]) in FindAll(lens, 0) && 0 < lens[pos] <= |lens| - pos
  {
    forall m | m in FindAll(lens, 0) ensures IsAt(lens, m) {
      FindSound(lens, 0, m);
    }
    StartIn(FindAll(lens, 0), lens, pos);
  }

  /** The search reports a place exactly if the pattern matches there and no earlier match covers it. */
  lemma ReportedIff(lens: seq<nat>, pos: nat)
    requires forall i | 0 <= i < |lens| :: lens[i] <= |lens| - i
    ensures Reported(lens, pos) <==> pos < |lens| && lens[pos] > 0 && !Covered(lens, pos)
  {
    if Reported(lens, pos) {
      ReportedAt(lens, pos);
      if Covered(lens, pos) {
        var p: nat :| p < pos < |lens| && Reported(lens, p) && pos < p + lens[p];
        ReportedAt(lens, p);
        Apart(lens, Match(p, p + lens[p]), Match(pos, pos + lens[pos]));
      }
    }
    if pos < |lens| && lens[pos] > 0 && !Covered(lens, pos) {
      FindComplete(lens, 0, Match(pos, pos + lens[pos]));
      var i :| 0 <= i < |FindAll(lens, 0)| && FindAll(lens, 0)[i].start <= pos < FindAll(lens, 0)[i].end;
      var m := FindAll(lens, 0)[i];
      assert m in FindAll(lens, 0);
      FindSound(lens, 0, m);
      assert m.start < pos ==> Reported(lens, m.start) && Covered(lens, pos);
    }
  }

  lemma Apart(lens: seq<nat>, m: Match, n: Match)
    requires m in FindAll(lens, 0) && n in FindAll(lens, 0) && m.start < n.start
    ensures m.end <= n.start
  {
    var i :| 0 <= i < |FindAll(lens, 0)| && FindAll(lens, 0)[i] == m;
    var j :| 0 <= j < |FindAll(lens, 0)| && FindAll(lens, 0)[j] == n;
    FindSound(lens, 0, m);
    FindSound(lens, 0, n);
    if i < j {
      FindApart(lens, 0, i, j);
    } else if j < i {
      FindApart(lens, 0, j, i);
    }
  }

  lemma LengthsFit(p: Pattern, text: string)
    ensures forall i | 0 <= i < |text| :: Lengths(p, text)[i] <= |text| - i
  {
    forall i | 0 <= i < |text| ensures Lengths(p, text)[i] <= |text| - i {
      LengthFits(p, Before(text, i), text[i..]);
    }
  }

  // ---------------------------------------------------------------------------------------------
  // Tags

  /** Inside a tag no other one begins. */
  lemma TagsApart(w: string, i: nat)
    requires w in TAGS && 0 < i < |w|
    ensures w[i] != '<'
  {
    TagsAre(w);
  }

  lemma TagFirst(text: string, pos: nat)
    requires pos <= |text| && TagAt(text, pos)
    ensures pos < |text| && text[pos] == '<'
  {
    assert text[pos..] != "" && text[pos..][0] == text[pos];
  }

  lemma TagsReported(text: string, pos: nat)
    ensures Reported(Lengths(TagPattern(), text), pos) <==> pos < |text| && TagAt(text, pos)
  {
    var lens := Lengths(TagPattern(), text);
    LengthsFit(TagPattern(), text);
    ReportedIff(lens, pos);
    if pos < |text| {
      TagLengthIs(text, pos);
      if TagAt(text, pos) {
        forall p: nat | p < pos && Reported(lens, p) ensures p + lens[p] <= pos {
          ReportedAt(lens, p);
          TagNotInside(text, p, pos);
        }
      }
    }
  }

  lemma TagNotInside(text: string, p: nat, pos: nat)
    requires p < pos < |text| && TagAt(text, pos) && TagLength(TAGS, text[p..]) > 0
    ensures p + TagLength(TAGS, text[p..]) <= pos
  {
    var s := text[p..];
    TagsAre("");
    TagIff(TAGS, s);
    var w :| w in TAGS && w <= s && |w| == TagLength(TAGS, s);
    TagFirst(text, pos);
    if pos < p + |w| {
      assert w[pos - p] == s[pos - p] == text[pos];
      TagsApart(w, pos - p);
    }
  }

  // ---------------------------------------------------------------------------------------------
  // Call markers

  lemma {:induction false} NameRunLongest(s: string)
    ensures forall i | 0 <= i < NameRun(s) :: NameCharacter(s[i])
    ensures NameRun(s) < |s| ==> !NameCharacter(s[NameRun(s)])
  {
    if s != "" && IsNameChar(s[0]) {
      NameRunLongest(s[1..]);
      assert forall i | 0 < i < NameRun(s) :: s[i] == s[1..][i - 1];
      assert NameRun(s) < |s| ==> s[NameRun(s)] == s[1..][NameRun(s) - 1];
    }
  }

  /** Behind the literal a match holds characters of a name only. */
  lemma CallBody(text: string, word: char -> bool, p: nat, q: nat)
    requires CoversNames(word) && p < |text| && p + 13 <= q < p + LengthAt(CallPattern(word), text, p)
    ensures q < |text| && word(text[q])
  {
    var s := text[p..];
    LengthFits(CallPattern(word), Before(text, p), s);
    NameRunLongest(s[14..]);
    assert text[q] == s[q - p];
    if q > p + 13 {
      assert s[q - p] == s[14..][q - p - 14];
    }
  }

  /** Inside the literal it does not begin again: its other "t" is followed by an "i". */
  lemma LiteralBody(text: string, p: nat, q: nat)
    requires p < q < p + 13 && p <= |text| && "to=functions." <= text[p..]
    ensures q < |text| && (text[q] == 't' ==> q + 1 < |text| && text[q + 1] == 'i')
  {
    var lit := "to=functions.";
    assert forall i | 0 <= i < 13 :: text[p + i] == text[p..][i] == lit[i];
    assert text[q] == lit[q - p];
    assert text[q] == 't' ==> q - p == 7 && text[p + 8] == lit[8];
  }

  lemma LiteralHead(text: string, q: nat)
    requires q <= |text| && "to=functions." <= text[q..]
    ensures q + 1 < |text| && text[q] == 't' && text[q + 1] == 'o'
  {
    assert text[q..][0] == text[q] && text[q..][1] == text[q + 1];
  }

  /** A call marker inside a match is the name behind its literal. */
  lemma CallInside(text: string, word: char -> bool, p: nat, pos: nat)
    requires CoversNames(word) && p < pos < |text| && CallAt(text, word, pos)
    requires pos < p + LengthAt(CallPattern(word), text, p)
    ensures pos == p + 13 && CallAt(text, word, p)
  {
    CallLengthIs(text, word, p);
    if pos < p + 13 {
      LiteralBody(text, p, pos);
      LiteralHead(text, pos);
    } else if pos > p + 13 {
      CallBody(text, word, p, pos - 1);
    }
  }

  lemma CallsStep(text: string, word: char -> bool, pos: nat)
    requires CoversNames(word) && pos < |text|
    ensures Reported(Lengths(CallPattern(word), text), pos)
            <==> CallAt(text, word, pos)
                 && !(pos >= 13 && Reported(Lengths(CallPattern(word), text), pos - 13))
  {
    LengthsFit(CallPattern(word), text);
    ReportedIff(Lengths(CallPattern(word), text), pos);
    CallLengthIs(text, word, pos);
    CoveredIff(text, word, pos);
  }

  lemma {:induction false} CallsReported(text: string, word: char -> bool, pos: nat)
    requires CoversNames(word)
    ensures Reported(Lengths(CallPattern(word), text), pos) <==> pos < |text| && Counted(text, word, pos)
    decreases pos
  {
    if pos < |text| {
      CallsStep(text, word, pos);
      if pos >= 13 {
        CallsReported(text, word, pos - 13);
      }
    } else if Reported(Lengths(CallPattern(word), text), pos) {
      ReportedAt(Lengths(CallPattern(word), text), pos);
    }
  }

  lemma CoveredIff(text: string, word: char -> bool, pos: nat)
    requires CoversNames(word) && pos < |text|
    ensures CallAt(text, word, pos) ==>
              (Covered(Lengths(CallPattern(word), text), pos)
               <==> pos >= 13 && Reported(Lengths(CallPattern(word), text), pos - 13))
  {
    var lens := Lengths(CallPattern(word), text);
    if CallAt(text, word, pos) && Covered(lens, pos) {
      var p: nat :| p < pos < |lens| && Reported(lens, p) && pos < p + lens[p];
      CallInside(text, word, p, pos);
    }
    if pos >= 13 && Reported(lens, pos - 13) {
      CallCovers(text, word, pos - 13);
    }
  }

  lemma CallCovers(text: string, word: char -> bool, p: nat)
    requires Reported(Lengths(CallPattern(word), text), p) && p + 13 < |text|
    ensures Covered(Lengths(CallPattern(word), text), p + 13)
  {
    ReportedAt(Lengths(CallPattern(word), text), p);
    CallLengthIs(text, word, p);
  }

  // ---------------------------------------------------------------------------------------------
  // Fences

  /** White space, and then three backticks or tildes. */
  ghost predicate IsFenceLine(line: string) {
    (exists k: nat :: StartsAt(line, k, "```")) || exists k: nat :: StartsAt(line, k, "~~~")
  }

  lemma FenceIff(line: string)
    ensures IsFence(line) <==> IsFenceLine(line)
  {
    StartIff(line, "```");
    StartIff(line, "~~~");
  }

  ghost function FenceLines(lines: seq<string>): nat {
    if lines == [] then 0
    else FenceLines(lines[..|lines| - 1]) + if IsFenceLine(lines[|lines| - 1]) then 1 else 0
  }

  lemma {:induction false} OpenFenceIff(lines: seq<string>)
    ensures OpenFence(lines) <==> FenceLines(lines) % 2 == 1
  {
    if lines != [] {
      OpenFenceIff(lines[..|lines| - 1]);
      FenceIff(lines[|lines| - 1]);
    }
  }

  /** The number of fence lines in front of the position is odd; the line it is in counts as far as the
      position. */
  ghost predicate Fenced(text: string, pos: nat)
    requires pos <= |text|
  {
    FenceLines(SplitKeep(text[..pos])) % 2 == 1
  }

  // ---------------------------------------------------------------------------------------------
  // Signals

  lemma {:induction false} UnfencedMembers(matches: seq<Match>, text: string, respectFences: bool, m: Match)
    ensures m in Unfenced(matches, text, respectFences)
            <==> m in matches && !(respectFences && m.start <= |text| && InFence(text, m.start))
  {
    if matches != [] {
      UnfencedMembers(matches[1..], text, respectFences, m);
      assert m in matches <==> m == matches[0] || m in matches[1..];
    }
  }

  ghost predicate SignalAt(text: string, word: char -> bool, respectFences: bool, pos: nat) {
    AnyStart(Signals(text, word, respectFences), pos)
  }

  lemma StartUnfenced(p: Pattern, text: string, respectFences: bool, pos: nat)
    requires Reported(Lengths(p, text), pos) && !(respectFences && pos < |text| && Fenced(text, pos))
    ensures AnyStart(Unfenced(Find(p, text), text, respectFences), pos)
  {
    ReportedAt(Lengths(p, text), pos);
    OpenFenceIff(SplitKeep(text[..pos]));
    var m := Match(pos, pos + Lengths(p, text)[pos]);
    UnfencedMembers(Find(p, text), text, respectFences, m);
    assert m in Unfenced(Find(p, text), text, respectFences);
  }

  lemma UnfencedReported(p: Pattern, text: string, respectFences: bool, pos: nat)
    requires AnyStart(Unfenced(Find(p, text), text, respectFences), pos)
    ensures Reported(Lengths(p, text), pos) && pos < |text| && !(respectFences && Fenced(text, pos))
  {
    var m :| m in Unfenced(Find(p, text), text, respectFences) && m.start == pos;
    UnfencedMembers(Find(p, text), text, respectFences, m);
    assert m in FindAll(Lengths(p, text), 0);
    ReportedAt(Lengths(p, text), pos);
    OpenFenceIff(SplitKeep(text[..pos]));
  }

  lemma UnfencedStart(p: Pattern, text: string, respectFences: bool, pos: nat)
    ensures AnyStart(Unfenced(Find(p, text), text, respectFences), pos)
            <==> Reported(Lengths(p, text), pos) && pos < |text| && !(respectFences && Fenced(text, pos))
  {
    if AnyStart(Unfenced(Find(p, text), text, respectFences), pos) {
      UnfencedReported(p, text, respectFences, pos);
    } else if Reported(Lengths(p, text), pos) && pos < |text| && !(respectFences && Fenced(text, pos)) {
      StartUnfenced(p, text, respectFences, pos);
    }
  }

  lemma JoinedStart(a: seq<Match>, b: seq<Match>, pos: nat)
    ensures AnyStart(Sort(a + b, StartLe), pos) <==> AnyStart(a, pos) || AnyStart(b, pos)
  {
    SortMembers(a + b, StartLe);
    assert forall m :: m in a + b <==> m in a || m in b;
  }

  /** A position holds a signal exactly if it is outside a fence, as far as fences matter, and holds a tag
      or a call marker that counts. */
  lemma SignalIff(text: string, word: char -> bool, respectFences: bool, pos: nat)
    requires CoversNames(word)
    ensures SignalAt(text, word, respectFences, pos)
            <==> pos < |text| && !(respectFences && Fenced(text, pos)) && (TagAt(text, pos) || Counted(text, word, pos))
  {
    TagsReported(text, pos);
    CallsReported(text, word, pos);
    UnfencedStart(TagPattern(), text, respectFences, pos);
    UnfencedStart(CallPattern(word), text, respectFences, pos);
    JoinedStart(Unfenced(Find(TagPattern(), text), text, respectFences),
                Unfenced(Find(CallPattern(word), text), text, respectFences), pos);
  }

  // ---------------------------------------------------------------------------------------------
  // Where signals end, and their order

  /** From `pos` on a text holds one of the six tags and nothing more up to `end`, or the literal and the
      whole name behind it. */
  predicate Spans(text: string, word: char -> bool, pos: nat, end: nat)
    requires pos <= end <= |text|
  {
    || text[pos..end] in ["<|start|>", "<|end|>", "<|channel|>", "<|message|>", "<|call|>", "<|return|>"]
    || (&& CallAt(text, word, pos) && pos + 13 < end
        && (forall i | pos + 13 <= i < end :: NameCharacter(text[i]))
        && (end < |text| ==> !NameCharacter(text[end])))
  }

  lemma TagTaken(words: seq<string>, s: string)
    requires "" !in words && TagLength(words, s) > 0
    ensures TagLength(words, s) <= |s| && s[..TagLength(words, s)] in words
  {
    TagIff(words, s);
    var w :| w in words && w <= s && |w| == TagLength(words, s);
    assert s[..|w|] == w;
  }

  lemma TagSpans(text: string, word: char -> bool, m: Match)
    requires m in Find(TagPattern(), text)
    ensures m.start < m.end <= |text| && Spans(text, word, m.start, m.end) && text[m.start] == '<'
  {
    FindSound(Lengths(TagPattern(), text), 0, m);
    TagsAre("");
    TagTaken(TAGS, text[m.start..]);
    assert text[m.start..m.end] == text[m.start..][..m.end - m.start];
    TagsAre(text[m.start..m.end]);
    assert text[m.start..m.end][0] == text[m.start];
  }

  lemma CallSpans(text: string, word: char -> bool, m: Match)
    requires m in Find(CallPattern(word), text)
    ensures m.start < m.end <= |text| && Spans(text, word, m.start, m.end) && text[m.start] == 't'
  {
    FindSound(Lengths(CallPattern(word), text), 0, m);
    var s := text[m.start..];
    CallLengthIs(text, word, m.start);
    LiteralHead(text, m.start);
    NameRunLongest(s[14..]);
    var n := NameRun(s[14..]);
    assert m.end == m.start + 14 + n;
    forall i | m.start + 13 <= i < m.end ensures NameCharacter(text[i]) {
      assert i > m.start + 13 ==> text[i] == s[14..][i - m.start - 14];
    }
    assert m.end < |text| ==> text[m.end] == s[14..][n];
  }

  lemma SignalFound(text: string, word: char -> bool, respectFences: bool, m: Match)
    requires m in Signals(text, word, respectFences)
    ensures m in Find(TagPattern(), text) || m in Find(CallPattern(word), text)
  {
    var a := Unfenced(Find(TagPattern(), text), text, respectFences);
    var b := Unfenced(Find(CallPattern(word), text), text, respectFences);
    SortMembers(a + b, StartLe);
    UnfencedMembers(Find(TagPattern(), text), text, respectFences, m);
    UnfencedMembers(Find(CallPattern(word), text), text, respectFences, m);
    assert m in a + b ==> m in a || m in b;
  }

  /** A signal takes the whole tag, or the literal and the whole name behind it. */
  lemma SignalSpans(text: string, word: char -> bool, respectFences: bool, m: Match)
    requires m in Signals(text, word, respectFences)
    ensures m.start < m.end <= |text| && Spans(text, word, m.start, m.end)
  {
    SignalFound(text, word, respectFences, m);
    if m in Find(TagPattern(), text) {
      TagSpans(text, word, m);
    } else {
      CallSpans(text, word, m);
    }
  }

  predicate InOrder(matches: seq<Match>) {
    forall i, j | 0 <= i < j < |matches| :: matches[i].start < matches[j].start
  }

  lemma FindInOrder(lens: seq<nat>)
    ensures InOrder(FindAll(lens, 0))
  {
    var all := FindAll(lens, 0);
    forall i, j | 0 <= i < j < |all| ensures all[i].start < all[j].start {
      FindApart(lens, 0, i, j);
      FindSound(lens, 0, all[i]);
    }
  }

  lemma {:induction false} UnfencedInOrder(matches: seq<Match>, text: string, respectFences: bool)
    requires InOrder(matches)
    ensures InOrder(Unfenced(matches, text, respectFences))
  {
    if matches != [] {
      var rest := Unfenced(matches[1..], text, respectFences);
      UnfencedInOrder(matches[1..], text, respectFences);
      forall m | m in rest ensures matches[0].start < m.start {
        UnfencedMembers(matches[1..], text, respectFences, m);
      }
      assert forall i | 0 <= i < |rest| :: rest[i] in rest;
    }
  }

  predicate NoStartTwice(matches: seq<Match>) {
    forall i, j | 0 <= i < j < |matches| :: matches[i].start != matches[j].start
  }

  lemma {:induction false} InsertStart(m: Match, s: seq<Match>)
    requires NoStartTwice(s) && forall n | n in s :: n.start != m.start
    ensures NoStartTwice(Insert(m, s, StartLe))
  {
    if s != [] && !StartLe(m, s[0]) {
      InsertStart(m, s[1..]);
      var rest := Insert(m, s[1..], StartLe);
      InsertKeeps(m, s[1..], StartLe);
      forall n | n in rest ensures n.start != s[0].start {
        assert n in multiset(rest);
        assert n == m || n in s[1..];
      }
      assert forall i | 0 <= i < |rest| :: rest[i] in rest;
    }
  }

  lemma {:induction false} SortStarts(s: seq<Match>)
    requires NoStartTwice(s)
    ensures NoStartTwice(Sort(s, StartLe))
  {
    if s != [] {
      SortStarts(s[1..]);
      SortMembers(s[1..], StartLe);
      forall n | n in Sort(s[1..], StartLe) ensures n.start != s[0].start {
        assert n in s[1..];
      }
      InsertStart(s[0], Sort(s[1..], StartLe));
    }
  }

  lemma JoinedStarts(a: seq<Match>, b: seq<Match>)
    requires InOrder(a) && InOrder(b)
    requires forall m, n | m in a && n in b :: m.start != n.start
    ensures InOrder(Sort(a + b, StartLe))
  {
    assert forall i | 0 <= i < |a| :: a[i] in a;
    assert forall i | 0 <= i < |b| :: b[i] in b;
    SortStarts(a + b);
    SortSorts(a + b, StartLe);
  }

  /** Signals come in the order of their positions, and no two start at the same one. */
  lemma SignalsInOrder(text: string, word: char -> bool, respectFences: bool)
    ensures InOrder(Signals(text, word, respectFences))
  {
    var tags, calls := Find(TagPattern(), text), Find(CallPattern(word), text);
    FindInOrder(Lengths(TagPattern(), text));
    FindInOrder(Lengths(CallPattern(word), text));
    UnfencedInOrder(tags, text, respectFences);
    UnfencedInOrder(calls, text, respectFences);
    var a, b := Unfenced(tags, text, respectFences), Unfenced(calls, text, respectFences);
    forall m, n | m in a && n in b ensures m.start != n.start {
      UnfencedMembers(tags, text, respectFences, m);
      UnfencedMembers(calls, text, respectFences, n);
      TagSpans(text, word, m);
      CallSpans(text, word, n);
    }
    JoinedStarts(a, b);
  }

  // ---------------------------------------------------------------------------------------------
  // The decision

  /** Without a signal the input is allowed. With one it is cut for the edit tool alone, if the boundary is
      usable and no signal is in front of its end; in all other cases it is aborted. */
  lemma ActionIs(edit: bool, text: string, word: char -> bool, respectFences: bool, legacy: string -> B.Outcome)
    ensures var a, p := Evaluate(edit, text, word, respectFences, legacy), B.ParseEdit(text, legacy);
            && (a == Allow <==> forall pos: nat :: !SignalAt(text, word, respectFences, pos))
            && (a == SanitizeTail
                <==> && edit && p.ok && (exists pos: nat :: SignalAt(text, word, respectFences, pos))
                     && forall pos: nat | pos < p.parsedEnd :: !SignalAt(text, word, respectFences, pos))
            && (a == AbortReplay
                <==> && (exists pos: nat :: SignalAt(text, word, respectFences, pos))
                     && (!edit || !p.ok
                         || exists pos: nat | pos < p.parsedEnd :: SignalAt(text, word, respectFences, pos)))
  {
    var signals := Signals(text, word, respectFences);
    assert signals != [] ==> signals[0] in signals && SignalAt(text, word, respectFences, signals[0].start);
    forall m | m in signals ensures SignalAt(text, word, respectFences, m.start) {
    }
  }

  // ---------------------------------------------------------------------------------------------
  // Quiet texts

  /** The lines in front of the unfinished last one, and that one. */
  lemma {:induction false} LastPart(s: string) returns (front: string, part: string)
    ensures s == front + part && EndsLine(front) && OnOneLine(part)
  {
    if s == "" || IsBreak(s[|s| - 1]) {
      front, part := s, "";
    } else {
      var rest;
      front, rest := LastPart(s[..|s| - 1]);
      part := rest + [s[|s| - 1]];
      assert s == s[..|s| - 1] + [s[|s| - 1]];
    }
  }

  lemma {:induction false} OneLineLength(part: string)
    requires OnOneLine(part) && part != ""
    ensures FirstLength(part) == |part|
  {
    assert IsBreak('\r');
    if |part| > 1 {
      OneLineLength(part[1..]);
    }
  }

  /** The lines of whole lines and one unfinished line. */
  lemma SplitPart(front: string, part: string)
    requires EndsLine(front) && OnOneLine(part)
    ensures SplitKeep(front + part) == SplitKeep(front) + if part == "" then [] else [part]
  {
    assert IsBreak('\n');
    SplitConcat(front, part);
    if part != "" {
      OneLineLength(part);
      assert part[..|part|] == part && part[|part|..] == "";
      assert SplitKeep(part) == [part] + SplitKeep("");
    }
  }

  /** No line end, and nothing that a fence is made of. */
  predicate IsPlainWord(lit: string) {
    lit != "" && OnOneLine(lit) && forall i | 0 <= i < |lit| :: lit[i] != '`' && lit[i] != '~'
  }

  lemma FenceWordMore(part: string, lit: string, k: nat, fence: string)
    requires IsPlainWord(lit) && (fence == "```" || fence == "~~~")
    ensures StartsAt(part + lit, k, fence) <==> StartsAt(part, k, fence)
  {
    var longer := part + lit;
    assert forall i | |part| <= i < |longer| :: longer[i] == lit[i - |part|];
    assert StartsAt(longer, k, fence) ==> longer[k..k + 3][2] == longer[k + 2] == fence[2];
    if k + 3 <= |part| {
      assert longer[..k] == part[..k] && longer[k..k + 3] == part[k..k + 3];
    }
  }

  /** A line stays a fence line, or none, when such a word is added. */
  lemma FenceLineMore(part: string, lit: string)
    requires IsPlainWord(lit)
    ensures IsFenceLine(part + lit) <==> IsFenceLine(part)
  {
    forall k: nat ensures (StartsAt(part + lit, k, "```") <==> StartsAt(part, k, "```"))
                          && (StartsAt(part + lit, k, "~~~") <==> StartsAt(part, k, "~~~")) {
      FenceWordMore(part, lit, k, "```");
      FenceWordMore(part, lit, k, "~~~");
    }
  }

  lemma FenceLinesSnoc(lines: seq<string>, part: string)
    ensures FenceLines(lines + if part == "" then [] else [part])
            == FenceLines(lines) + if IsFenceLine(part) then 1 else 0
  {
    if part == "" {
      assert lines + [] == lines;
    } else {
      assert (lines + [part])[..|lines|] == lines;
    }
  }

  lemma FencesOf(front: string, part: string)
    requires EndsLine(front) && OnOneLine(part)
    ensures FenceLines(SplitKeep(front + part)) == FenceLines(SplitKeep(front)) + if IsFenceLine(part) then 1 else 0
  {
    SplitPart(front, part);
    FenceLinesSnoc(SplitKeep(front), part);
  }

  lemma OneLineMore(part: string, lit: string)
    requires OnOneLine(part) && OnOneLine(lit)
    ensures OnOneLine(part + lit)
  {
  }

  lemma FencesMore(s: string, lit: string)
    requires IsPlainWord(lit)
    ensures FenceLines(SplitKeep(s + lit)) == FenceLines(SplitKeep(s))
  {
    var front, part := LastPart(s);
    assert s + lit == front + (part + lit);
    OneLineMore(part, lit);
    FencesOf(front, part);
    FencesOf(front, part + lit);
    FenceLineMore(part, lit);
  }

  lemma LiteralIsPlain()
    ensures IsPlainWord("to=functions.")
  {
  }

  /** A call marker and the name behind its literal are both inside a fence, or both outside. */
  lemma FencedTogether(text: string, word: char -> bool, p: nat)
    requires p <= |text| && CallAt(text, word, p)
    ensures Fenced(text, p) <==> Fenced(text, p + 13)
  {
    assert text[..p + 13] == text[..p] + "to=functions.";
    LiteralIsPlain();
    FencesMore(text[..p], "to=functions.");
  }

  lemma SignalNear(text: string, word: char -> bool, respectFences: bool, pos: nat) returns (q: nat)
    requires CoversNames(word) && pos < |text| && !(respectFences && Fenced(text, pos)) && CallAt(text, word, pos)
    ensures SignalAt(text, word, respectFences, q)
  {
    q := pos;
    SignalIff(text, word, respectFences, pos);
    if !Counted(text, word, pos) {
      q := pos - 13;
      FencedTogether(text, word, q);
      SignalIff(text, word, respectFences, q);
    }
  }

  /** A text holds no signal exactly if it holds neither tags nor call markers outside a fence, as far as
      fences matter. */
  lemma QuietIff(text: string, word: char -> bool, respectFences: bool)
    requires CoversNames(word)
    ensures (forall pos: nat :: !SignalAt(text, word, respectFences, pos))
            <==> forall pos: nat | pos < |text| && !(respectFences && Fenced(text, pos)) ::
                   !TagAt(text, pos) && !CallAt(text, word, pos)
  {
    if q: nat :| SignalAt(text, word, respectFences, q) {
      SignalIff(text, word, respectFences, q);
    } else {
      forall pos: nat | pos < |text| && !(respectFences && Fenced(text, pos))
        ensures !TagAt(text, pos) && !CallAt(text, word, pos)
      {
        SignalIff(text, word, respectFences, pos);
        if CallAt(text, word, pos) {
          var q := SignalNear(text, word, respectFences, pos);
        }
      }
    }
  }

  /** So an input is allowed exactly if it holds none. */
  lemma AllowedIff(edit: bool, text: string, word: char -> bool, respectFences: bool, legacy: string -> B.Outcome)
    requires CoversNames(word)
    ensures Evaluate(edit, text, word, respectFences, legacy) == Allow
            <==> forall pos: nat | pos < |text| && !(respectFences && Fenced(text, pos)) ::
                   !TagAt(text, pos) && !CallAt(text, word, pos)
  {
    ActionIs(edit, text, word, respectFences, legacy);
    QuietIff(text, word, respectFences);
  }
}
