/** Leaked protocol markers in a tool input, and what is done about them (the marker strategy). */
module Marker {
  import opened Wrappers
  import opened Text
  import opened TextLines
  import opened Ordering
  import B = Boundary

  // ---------------------------------------------------------------------------------------------
  // The two patterns

  const CALL := "to=functions."
  const TAGS := ["<|start|>", "<|end|>", "<|channel|>", "<|message|>", "<|call|>", "<|return|>"]

  predicate IsNameStart(c: char) {
    B.IsLetter(c) || c == '_'
  }

  predicate IsNameChar(c: char) {
    IsNameStart(c) || '0' <= c <= '9'
  }

  function NameRun(s: string): (n: nat)
    ensures n <= |s|
  {
    if s != "" && IsNameChar(s[0]) then 1 + NameRun(s[1..]) else 0
  }

  /** The length of the first of the tags that `s` begins with. */
  function TagLength(tags: seq<string>, s: string): nat {
    if tags == [] then 0 else if tags[0] <= s then |tags[0]| else TagLength(tags[1..], s)
  }

  /** The length of the literal and the name behind it. */
  function CallLength(lit: string, s: string): nat {
    if lit <= s && |s| > |lit| && IsNameStart(s[|lit|]) then |lit| + 1 + NameRun(s[|lit| + 1..]) else 0
  }

  /** One of some words, or a literal with a name behind it that starts at a word boundary;
      `word` says which characters belong to words. */
  datatype Pattern = OneOf(words: seq<string>) | Named(lit: string, word: char -> bool) {
    /** The length of the match at the front of `s`, behind the character `before`; 0 is no match. */
    function Length(before: Option<char>, s: string): nat {
      match this
      case OneOf(words) => TagLength(words, s)
      case Named(lit, word) => if before.Some? && word(before.value) then 0 else CallLength(lit, s)
    }

    /** The fixed parts hold no line end. */
    predicate Good() {
      match this
      case OneOf(words) => AllUnbroken(words)
      case Named(lit, _) => OnOneLine(lit)
    }
  }

  function TagPattern(): Pattern { OneOf(TAGS) }

  function CallPattern(word: char -> bool): Pattern { Named(CALL, word) }

  datatype Match = Match(start: nat, end: nat)

  function Before(text: string, pos: nat): Option<char>
    requires pos <= |text|
  {
    if pos == 0 then None else Some(text[pos - 1])
  }

  /** The length of the match at each position of a text. */
  function LengthAt(p: Pattern, text: string, pos: nat): (n: nat)
    requires pos < |text|
  {
    p.Length(Before(text, pos), text[pos..])
  }

  function Lengths(p: Pattern, text: string): (lens: seq<nat>)
    ensures |lens| == |text|
  {
    seq(|text|, pos requires 0 <= pos < |text| => LengthAt(p, text, pos))
  }

  /** `finditer`: the matches from left to right, without overlap */
  function FindAll(lens: seq<nat>, pos: nat): seq<Match>
    requires pos <= |lens|
    decreases |lens| - pos
  {
    if pos == |lens| then []
    else if 0 < lens[pos] <= |lens| - pos then [Match(pos, pos + lens[pos])] + FindAll(lens, pos + lens[pos])
    else FindAll(lens, pos + 1)
  }

  function Find(p: Pattern, text: string): seq<Match> {
    FindAll(Lengths(p, text), 0)
  }

  // ---------------------------------------------------------------------------------------------
  // Fences

  predicate IsFence(line: string) {
    "```" <= TrimLeft(line) || "~~~" <= TrimLeft(line)
  }

  /** An odd number of fence lines. */
  predicate OpenFence(lines: seq<string>) {
    lines != [] && (IsFence(lines[|lines| - 1]) != OpenFence(lines[..|lines| - 1]))
  }

  predicate InFence(text: string, pos: nat)
    requires pos <= |text|
  {
    OpenFence(SplitKeep(text[..pos]))
  }

  /** The matches that count as signals. */
  function Unfenced(matches: seq<Match>, text: string, respectFences: bool): seq<Match> {
    if matches == [] then []
    else
      var m := matches[0];
      (if respectFences && m.start <= |text| && InFence(text, m.start) then [] else [m])
      + Unfenced(matches[1..], text, respectFences)
  }

  predicate StartLe(a: Match, b: Match) {
    a.start < b.start || (a.start == b.start && a.end <= b.end)
  }

  function Signals(text: string, word: char -> bool, respectFences: bool): seq<Match> {
    Sort(Unfenced(Find(TagPattern(), text), text, respectFences)
         + Unfenced(Find(CallPattern(word), text), text, respectFences), StartLe)
  }

  // ---------------------------------------------------------------------------------------------
  // The decision

  datatype Action = Allow | SanitizeTail | AbortReplay

  /** `edit`: the input of the edit tool */
  function ActionFor(edit: bool, signals: seq<Match>, boundary: Option<B.Outcome>): Action {
    if signals == [] then Allow
    else if edit && boundary.Some? && boundary.value.ok
            && forall m | m in signals :: m.start >= boundary.value.parsedEnd then SanitizeTail
    else AbortReplay
  }

  function Evaluate(edit: bool, text: string, word: char -> bool, respectFences: bool,
                    legacy: string -> B.Outcome): Action {
    ActionFor(edit, Signals(text, word, respectFences), if edit then Some(B.ParseEdit(text, legacy)) else None)
  }

  // ---------------------------------------------------------------------------------------------
  // Matches and line ends

  /** The first `n` characters of `s` end with a line end. */
  predicate BreaksAt(s: string, n: nat) {
    0 < n <= |s| && IsBreak(s[n - 1])
  }

  lemma PrefixLocal(lit: string, s: string, n: nat)
    requires OnOneLine(lit) && BreaksAt(s, n)
    ensures lit <= s[..n] <==> lit <= s
    ensures lit <= s ==> |lit| < n
  {
    assert n <= |lit| ==> !IsBreak(lit[n - 1]);
  }

  predicate AllUnbroken(tags: seq<string>) {
    forall i | 0 <= i < |tags| :: OnOneLine(tags[i])
  }

  lemma FirstTags()
    ensures OnOneLine("<|start|>") && OnOneLine("<|end|>") && OnOneLine("<|channel|>")
  {
  }

  lemma LastTags()
    ensures OnOneLine("<|message|>") && OnOneLine("<|call|>") && OnOneLine("<|return|>")
  {
  }

  lemma LiteralsHaveNoBreak()
    ensures TagPattern().Good() && forall word :: CallPattern(word).Good()
  {
    FirstTags();
    LastTags();
  }

  lemma {:induction false} TagLocal(tags: seq<string>, s: string, n: nat)
    requires AllUnbroken(tags) && BreaksAt(s, n)
    ensures TagLength(tags, s[..n]) == TagLength(tags, s) < n
  {
    if tags != [] {
      PrefixLocal(tags[0], s, n);
      TagLocal(tags[1..], s, n);
    }
  }

  lemma {:induction false} NameRunLocal(s: string, n: nat)
    requires BreaksAt(s, n)
    ensures NameRun(s[..n]) == NameRun(s) < n
  {
    if n > 1 && IsNameChar(s[0]) {
      assert s[..n][1..] == s[1..][..n - 1];
      NameRunLocal(s[1..], n - 1);
    }
  }

  lemma CallLocal(lit: string, s: string, n: nat)
    requires OnOneLine(lit) && BreaksAt(s, n)
    ensures CallLength(lit, s[..n]) == CallLength(lit, s) <= n
  {
    PrefixLocal(lit, s, n);
    var c := |lit|;
    if lit <= s && IsNameStart(s[c]) {
      assert s[n - 1] != s[c];
      assert s[..n][c + 1..] == s[c + 1..][..n - c - 1];
      NameRunLocal(s[c + 1..], n - c - 1);
    }
  }

  /** A match depends only on the line it is in. */
  lemma LengthLocal(p: Pattern, before: Option<char>, s: string, n: nat)
    requires p.Good() && BreaksAt(s, n)
    ensures p.Length(before, s[..n]) == p.Length(before, s) <= n
  {
    match p
    case OneOf(words) => TagLocal(words, s, n);
    case Named(lit, word) => CallLocal(lit, s, n);
  }

  // ---------------------------------------------------------------------------------------------
  // What the patterns and the search find

  lemma {:induction false} TagIff(words: seq<string>, s: string)
    requires "" !in words
    ensures TagLength(words, s) > 0 <==> exists w | w in words :: w <= s
    ensures TagLength(words, s) > 0 ==> exists w | w in words :: w <= s && |w| == TagLength(words, s)
  {
    if words != [] {
      assert words[0] in words;
      TagIff(words[1..], s);
      assert forall w :: w in words <==> w == words[0] || w in words[1..];
    }
  }

  lemma {:induction false} NameRunIs(name: string, rest: string)
    requires forall c | c in name :: IsNameChar(c)
    requires rest == "" || !IsNameChar(rest[0])
    ensures NameRun(name + rest) == |name|
  {
    if name == "" {
      assert name + rest == rest;
    } else {
      assert (name + rest)[1..] == name[1..] + rest;
      NameRunIs(name[1..], rest);
    }
  }

  /** The literal and all of the longest name behind it. */
  lemma CallIs(lit: string, name: string, rest: string)
    requires name != "" && IsNameStart(name[0]) && forall c | c in name :: IsNameChar(c)
    requires rest == "" || !IsNameChar(rest[0])
    ensures CallLength(lit, lit + (name + rest)) == |lit| + |name|
  {
    var s := lit + (name + rest);
    assert s[..|lit|] == lit && s[|lit|] == name[0] && s[|lit| + 1..] == name[1..] + rest;
    NameRunIs(name[1..], rest);
  }

  lemma LengthFits(p: Pattern, before: Option<char>, s: string)
    ensures p.Length(before, s) <= |s|
  {
    match p
    case OneOf(words) => TagFits(words, s);
    case Named(_, _) =>
  }

  lemma {:induction false} TagFits(words: seq<string>, s: string)
    ensures TagLength(words, s) <= |s|
  {
    if words != [] {
      TagFits(words[1..], s);
    }
  }

  /** A match of that length starts here. */
  predicate IsAt(lens: seq<nat>, m: Match) {
    m.start < m.end <= |lens| && lens[m.start] == m.end - m.start
  }

  predicate Within(matches: seq<Match>, q: nat) {
    exists i | 0 <= i < |matches| :: matches[i].start <= q < matches[i].end
  }

  lemma WithinCons(m: Match, rest: seq<Match>, q: nat)
    ensures Within([m] + rest, q) <==> m.start <= q < m.end || Within(rest, q)
  {
    var all := [m] + rest;
    if m.start <= q < m.end {
      assert all[0] == m;
    }
    if Within(rest, q) {
      var i :| 0 <= i < |rest| && rest[i].start <= q < rest[i].end;
      assert all[i + 1] == rest[i];
    }
  }

  /** The search finds matches only. */
  lemma {:induction false} FindSound(lens: seq<nat>, pos: nat, m: Match)
    requires pos <= |lens| && m in FindAll(lens, pos)
    ensures IsAt(lens, m) && m.start >= pos
    decreases |lens| - pos
  {
    if pos < |lens| {
      var next := if 0 < lens[pos] <= |lens| - pos then pos + lens[pos] else pos + 1;
      if m in FindAll(lens, next) {
        FindSound(lens, next, m);
      }
    }
  }

  /** ... in order and apart from each other. */
  lemma {:induction false} FindApart(lens: seq<nat>, pos: nat, i: nat, j: nat)
    requires pos <= |lens| && i < j < |FindAll(lens, pos)|
    ensures FindAll(lens, pos)[i].end <= FindAll(lens, pos)[j].start
    decreases |lens| - pos
  {
    if 0 < lens[pos] <= |lens| - pos {
      var next := pos + lens[pos];
      if i > 0 {
        FindApart(lens, next, i - 1, j - 1);
      } else {
        FindSound(lens, next, FindAll(lens, next)[j - 1]);
      }
    } else {
      FindApart(lens, pos + 1, i, j);
    }
  }

  /** It leaves out a place where the pattern matches only inside a match that it found. */
  lemma {:induction false} FindComplete(lens: seq<nat>, pos: nat, m: Match)
    requires pos <= m.start && IsAt(lens, m)
    ensures Within(FindAll(lens, pos), m.start)
    decreases m.start - pos
  {
    var found := 0 < lens[pos] <= |lens| - pos;
    var next := if found then pos + lens[pos] else pos + 1;
    if next <= m.start {
      FindComplete(lens, next, m);
    }
    if found {
      WithinCons(Match(pos, next), FindAll(lens, next), m.start);
    }
  }

  // ---------------------------------------------------------------------------------------------
  // Matches of a cut text

  /** The matches that start in front of `n`. */
  function StartBelow(matches: seq<Match>, n: nat): seq<Match> {
    if matches == [] then []
    else (if matches[0].start < n then [matches[0]] else []) + StartBelow(matches[1..], n)
  }

  predicate AllFrom(matches: seq<Match>, n: nat) {
    forall i | 0 <= i < |matches| :: matches[i].start >= n
  }

  lemma {:induction false} NoneBelow(matches: seq<Match>, n: nat)
    ensures AllFrom(matches, n) <==> StartBelow(matches, n) == []
  {
    if matches != [] {
      NoneBelow(matches[1..], n);
      assert AllFrom(matches, n) <==> matches[0].start >= n && AllFrom(matches[1..], n);
    }
  }

  lemma FindStarts(lens: seq<nat>, pos: nat)
    requires pos <= |lens|
    ensures AllFrom(FindAll(lens, pos), pos)
  {
    forall i | 0 <= i < |FindAll(lens, pos)| ensures FindAll(lens, pos)[i].start >= pos {
      FindSound(lens, pos, FindAll(lens, pos)[i]);
    }
  }

  /** No match reaches over the cut. */
  predicate NoneAcross(lens: seq<nat>, cut: nat) {
    cut <= |lens| && forall i | 0 <= i < cut :: lens[i] <= cut - i
  }

  lemma {:induction false} FindInCut(lens: seq<nat>, cut: nat, pos: nat)
    requires NoneAcross(lens, cut) && pos <= cut
    ensures FindAll(lens[..cut], pos) == StartBelow(FindAll(lens, pos), cut)
    decreases cut - pos
  {
    if pos == cut {
      FindStarts(lens, pos);
      NoneBelow(FindAll(lens, pos), cut);
    } else {
      var next := if lens[pos] > 0 then pos + lens[pos] else pos + 1;
      assert lens[..cut][pos] == lens[pos] <= cut - pos;
      FindInCut(lens, cut, next);
      var rest := FindAll(lens, next);
      assert ([Match(pos, next)] + rest)[1..] == rest;
    }
  }

  lemma SameLength(p: Pattern, text: string, cut: nat, pos: nat)
    requires p.Good() && pos < cut <= |text| && IsBreak(text[cut - 1])
    ensures LengthAt(p, text[..cut], pos) == LengthAt(p, text, pos) <= cut - pos
  {
    assert text[..cut][pos..] == text[pos..][..cut - pos];
    LengthLocal(p, Before(text, pos), text[pos..], cut - pos);
  }

  /** A cut at a line end keeps the matches in front of it, and cuts none in two. */
  lemma CutLengths(p: Pattern, text: string, cut: nat)
    requires p.Good() && IsLineEnd(text, cut)
    ensures Lengths(p, text[..cut]) == Lengths(p, text)[..cut] && NoneAcross(Lengths(p, text), cut)
  {
    if cut == |text| {
      assert text[..cut] == text;
      forall i | 0 <= i < cut ensures Lengths(p, text)[i] <= cut - i {
        LengthFits(p, Before(text, i), text[i..]);
      }
    } else {
      assert cut > 0 ==> text[..cut][cut - 1] == text[cut - 1];
      forall i | 0 <= i < cut
        ensures Lengths(p, text[..cut])[i] == Lengths(p, text)[i] <= cut - i
      {
        SameLength(p, text, cut, i);
      }
    }
  }

  /** The matches in a text cut at a line end are those of the text in front of the cut. */
  lemma FindAtLineEnd(p: Pattern, text: string, cut: nat)
    requires p.Good() && IsLineEnd(text, cut)
    ensures Find(p, text[..cut]) == StartBelow(Find(p, text), cut)
  {
    CutLengths(p, text, cut);
    FindInCut(Lengths(p, text), cut, 0);
  }

  lemma {:induction false} UnfencedInCut(matches: seq<Match>, text: string, cut: nat, respectFences: bool)
    requires cut <= |text|
    ensures Unfenced(StartBelow(matches, cut), text[..cut], respectFences)
            == StartBelow(Unfenced(matches, text, respectFences), cut)
  {
    if matches != [] {
      var m, rest := matches[0], Unfenced(matches[1..], text, respectFences);
      UnfencedInCut(matches[1..], text, cut, respectFences);
      assert m.start < cut ==> text[..cut][..m.start] == text[..m.start];
      assert [] + rest == rest && ([m] + rest)[1..] == rest;
      assert ([m] + StartBelow(matches[1..], cut))[1..] == StartBelow(matches[1..], cut);
      assert [] + StartBelow(matches[1..], cut) == StartBelow(matches[1..], cut);
    }
  }

  lemma SignalMembers(text: string, word: char -> bool, respectFences: bool, n: nat)
    ensures var signals := Signals(text, word, respectFences);
            AllFrom(signals, n)
            <==> AllFrom(Unfenced(Find(TagPattern(), text), text, respectFences), n)
                 && AllFrom(Unfenced(Find(CallPattern(word), text), text, respectFences), n)
    ensures Signals(text, word, respectFences) == []
            <==> Unfenced(Find(TagPattern(), text), text, respectFences) == []
                 && Unfenced(Find(CallPattern(word), text), text, respectFences) == []
  {
    var a := Unfenced(Find(TagPattern(), text), text, respectFences);
    var b := Unfenced(Find(CallPattern(word), text), text, respectFences);
    MembersFrom(a, b, n);
  }

  lemma FromMembers(matches: seq<Match>, n: nat)
    ensures AllFrom(matches, n) <==> forall m | m in matches :: m.start >= n
  {
    if forall m | m in matches :: m.start >= n {
      assert forall i | 0 <= i < |matches| :: matches[i] in matches;
    }
  }

  lemma MembersFrom(a: seq<Match>, b: seq<Match>, n: nat)
    ensures AllFrom(Sort(a + b, StartLe), n) <==> AllFrom(a, n) && AllFrom(b, n)
    ensures Sort(a + b, StartLe) == [] <==> a == [] && b == []
  {
    SortMembers(a + b, StartLe);
    FromMembers(a, n);
    FromMembers(b, n);
    FromMembers(Sort(a + b, StartLe), n);
    assert forall m :: m in a + b <==> m in a || m in b;
  }

  lemma CleanIff(p: Pattern, text: string, cut: nat, respectFences: bool)
    requires p.Good() && IsLineEnd(text, cut)
    ensures Unfenced(Find(p, text[..cut]), text[..cut], respectFences) == []
            <==> AllFrom(Unfenced(Find(p, text), text, respectFences), cut)
  {
    FindAtLineEnd(p, text, cut);
    UnfencedInCut(Find(p, text), text, cut, respectFences);
    NoneBelow(Unfenced(Find(p, text), text, respectFences), cut);
  }

  /** A text cut at a line end holds no signal exactly if no signal starts in front of the cut. */
  lemma SignalsInCut(text: string, word: char -> bool, respectFences: bool, cut: nat)
    requires IsLineEnd(text, cut)
    ensures Signals(text[..cut], word, respectFences) == [] <==> AllFrom(Signals(text, word, respectFences), cut)
  {
    LiteralsHaveNoBreak();
    CleanIff(TagPattern(), text, cut, respectFences);
    CleanIff(CallPattern(word), text, cut, respectFences);
    SignalMembers(text, word, respectFences, cut);
    SignalMembers(text[..cut], word, respectFences, cut);
  }

  /** For any boundary at a line end, the tail is cut off exactly if that removes every signal. */
  lemma TailIsCutIff(text: string, word: char -> bool, respectFences: bool, boundary: B.Outcome)
    requires IsLineEnd(text, boundary.parsedEnd)
    ensures var signals := Signals(text, word, respectFences);
            var left := Signals(text[..boundary.parsedEnd], word, respectFences);
            && (ActionFor(true, signals, Some(boundary)).SanitizeTail? <==> boundary.ok && signals != [] && left == [])
            && (ActionFor(true, signals, Some(boundary)).Allow? <==> signals == [])
  {
    var signals := Signals(text, word, respectFences);
    SignalsInCut(text, word, respectFences, boundary.parsedEnd);
    FromMembers(signals, boundary.parsedEnd);
  }

  /** After the cut the same parse finds nothing to do. */
  lemma CutIsClean(text: string, word: char -> bool, respectFences: bool, legacy: string -> B.Outcome)
    requires !B.IsLegacy(text)
    requires Evaluate(true, text, word, respectFences, legacy).SanitizeTail?
    ensures var boundary := B.ParseEdit(text, legacy);
            && boundary.ok && boundary.parsedEnd <= |text|
            && Evaluate(true, text[..boundary.parsedEnd], word, respectFences, legacy).Allow?
            && B.StableUnder(boundary, B.ParseEdit(text[..boundary.parsedEnd], legacy))
  {
    B.CutIsStable(text, legacy);
    TailIsCutIff(text, word, respectFences, B.ParseEdit(text, legacy));
  }

  // ---------------------------------------------------------------------------------------------
  // The program

  method IsInsideFencedBlock(text: string, pos: nat) returns (inFence: bool)
    requires pos <= |text|
    ensures inFence == InFence(text, pos)
  {
    var lines := SplitKeep(text[..pos]);
    inFence := false;
    for i := 0 to |lines|
      invariant inFence == OpenFence(lines[..i])
    {
      assert lines[..i + 1][..i] == lines[..i];
      if IsFence(lines[i]) {
        inFence := !inFence;
      }
    }
    assert lines[..|lines|] == lines;
  }

  method Collect(matches: seq<Match>, text: string, respectFences: bool, found: seq<Match>)
    returns (signals: seq<Match>)
    requires forall m | m in matches :: m.start <= |text|
    ensures signals == found + Unfenced(matches, text, respectFences)
  {
    signals := found;
    for i := 0 to |matches|
      invariant signals + Unfenced(matches[i..], text, respectFences) == found + Unfenced(matches, text, respectFences)
    {
      assert matches[i..][1..] == matches[i + 1..];
      ghost var rest := Unfenced(matches[i + 1..], text, respectFences);
      var inFence := false;
      if respectFences {
        inFence := IsInsideFencedBlock(text, matches[i].start);
      }
      if inFence {
        assert [] + rest == rest;
        continue;
      }
      assert signals + ([matches[i]] + rest) == (signals + [matches[i]]) + rest;
      signals := signals + [matches[i]];
    }
  }

  lemma FindBounds(p: Pattern, text: string)
    ensures forall m | m in Find(p, text) :: m.start <= |text|
  {
    forall m | m in Find(p, text) ensures m.start <= |text| {
      FindSound(Lengths(p, text), 0, m);
    }
  }

  method DetectSignals(text: string, word: char -> bool, respectFences: bool) returns (signals: seq<Match>)
    ensures signals == Signals(text, word, respectFences)
  {
    FindBounds(TagPattern(), text);
    FindBounds(CallPattern(word), text);
    var tags := Collect(Find(TagPattern(), text), text, respectFences, []);
    signals := Collect(Find(CallPattern(word), text), text, respectFences, tags);
    ghost var a := Unfenced(Find(TagPattern(), text), text, respectFences);
    ghost var b := Unfenced(Find(CallPattern(word), text), text, respectFences);
    assert [] + a == a;
    assert signals == a + b;
    signals := Sort(signals, StartLe);
  }
}
