/** The shell builtin `getopts`: a parser that yields one option per call and keeps its place
    between calls in three shell variables (OPTIND and two hidden ones).

    `Step` is the transition one call makes on those variables.  `ParseArgs` is the reference it is
    measured against: a one-pass recursive parse with no cursor and no index. */
module Getopts {
  import opened Wrappers

  // ---------------------------------------------------------------------------------------------
  // The option string

  datatype OptionSpec = OptionSpec(defs: map<char, bool>, silent: bool)

  /** Is this the first occurrence of its character? */
  predicate First(s: string, i: nat)
    requires i < |s|
  {
    forall j | 0 <= j < i :: s[j] != s[i]
  }

  /** Does the first occurrence of `c` have a ':' immediately behind it? */
  predicate TakesArgument(optstring: string, c: char) {
    exists i | 0 <= i < |optstring| - 1 :: optstring[i] == c && First(optstring, i) && optstring[i + 1] == ':'
  }

  /** What an option string means. */
  function SpecOf(optstring: string): OptionSpec {
    OptionSpec(map c | c in optstring && c != ':' :: TakesArgument(optstring, c),
               |optstring| > 0 && optstring[0] == ':')
  }

  /** One more character of the option string: only an option first declared by the character just
      before a ':' changes its meaning. */
  lemma TakesArgumentSnoc(p: string, x: char, c: char)
    ensures TakesArgument(p + [x], c) <==>
            TakesArgument(p, c) || (|p| > 0 && p[|p| - 1] == c && First(p, |p| - 1) && x == ':')
  {
    var q := p + [x];
    forall i | 0 <= i < |p| ensures First(q, i) == First(p, i) {
      assert forall j | 0 <= j < i :: q[j] == p[j];
    }
    if TakesArgument(p, c) {
      var i :| 0 <= i < |p| - 1 && p[i] == c && First(p, i) && p[i + 1] == ':';
      assert q[i] == c && First(q, i) && q[i + 1] == ':';
    }
    if TakesArgument(q, c) {
      var i :| 0 <= i < |q| - 1 && q[i] == c && First(q, i) && q[i + 1] == ':';
      assert First(p, i);
    }
    if |p| > 0 && p[|p| - 1] == c && First(p, |p| - 1) && x == ':' {
      var i := |p| - 1;
      assert q[i] == c && First(q, i) && q[i + 1] == ':';
    }
  }

  /** `lastChar` is the option that a ':' read next belongs to: the character last read, if that
      was its first occurrence, or an option that already has its ':'. */
  ghost predicate LastCharInv(p: string, lastChar: Option<char>) {
    if |p| == 0 then lastChar.None?
    else if p[|p| - 1] == ':' then lastChar.Some? ==> TakesArgument(p, lastChar.value)
    else lastChar == if First(p, |p| - 1) then Some(p[|p| - 1]) else None
  }

  /** The part `p` of the option string has been read. */
  ghost predicate SpecSoFar(p: string, defs: map<char, bool>, silent: bool, lastChar: Option<char>) {
    && (forall c :: c in defs <==> c in p && c != ':')
    && (forall c | c in defs :: defs[c] == TakesArgument(p, c))
    && silent == (p != "" && p[0] == ':')
    && LastCharInv(p, lastChar)
    && (lastChar.Some? ==> lastChar.value in defs)
  }

  lemma InSnoc(p: string, x: char, c: char)
    ensures c in p + [x] <==> c in p || c == x
  {
  }

  lemma FirstIff(p: string, x: char)
    ensures First(p + [x], |p|) <==> x !in p
  {
    var q := p + [x];
    assert forall i | 0 <= i < |p| :: q[i] == p[i];
  }

  lemma ReadName(p: string, x: char, defs: map<char, bool>, silent: bool, lastChar: Option<char>)
    requires SpecSoFar(p, defs, silent, lastChar) && x != ':'
    ensures x !in defs ==> SpecSoFar(p + [x], defs[x := false], silent, Some(x))
    ensures x in defs ==> SpecSoFar(p + [x], defs, silent, None)
  {
    var q := p + [x];
    assert x in defs <==> x in p;
    FirstIff(p, x);
    forall c ensures (c in q <==> c in p || c == x) && TakesArgument(q, c) == TakesArgument(p, c) {
      InSnoc(p, x, c);
      TakesArgumentSnoc(p, x, c);
    }
    assert x !in p ==> !TakesArgument(p, x);
    assert p != "" ==> q[0] == p[0];
  }

  lemma ReadColon(p: string, defs: map<char, bool>, silent: bool, lastChar: Option<char>)
    requires SpecSoFar(p, defs, silent, lastChar)
    ensures lastChar.Some? ==> SpecSoFar(p + [':'], defs[lastChar.value := true], silent, lastChar)
    ensures lastChar.None? ==> SpecSoFar(p + [':'], defs, silent || defs == map[], lastChar)
  {
    var q := p + [':'];
    forall c ensures (c in q <==> c in p || c == ':')
                     && (TakesArgument(q, c)
                         <==> TakesArgument(p, c) || (|p| > 0 && p[|p| - 1] == c && First(p, |p| - 1)))
    {
      InSnoc(p, ':', c);
      TakesArgumentSnoc(p, ':', c);
    }
    ColonChanges(p, lastChar);
    assert p != "" ==> q[0] == p[0] && p[0] in p;
  }

  /** Which option a ':' belongs to. */
  lemma ColonChanges(p: string, lastChar: Option<char>)
    requires LastCharInv(p, lastChar)
    ensures forall c | c != ':' ::
              (TakesArgument(p, c) || (|p| > 0 && p[|p| - 1] == c && First(p, |p| - 1)))
              <==> TakesArgument(p, c) || lastChar == Some(c)
  {
  }

  method ParseOptionSpec(optstring: string) returns (spec: OptionSpec)
    ensures spec == SpecOf(optstring)
  {
    var defs: map<char, bool> := map[];
    var silent := false;
    var lastChar: Option<char> := None;
    for i := 0 to |optstring|
      invariant SpecSoFar(optstring[..i], defs, silent, lastChar)
    {
      var c := optstring[i];
      assert optstring[..i + 1] == optstring[..i] + [c];
      if c == ':' {
        ReadColon(optstring[..i], defs, silent, lastChar);
        if lastChar.Some? {
          defs := defs[lastChar.value := true];
        } else if defs == map[] {
          silent := true;
        }
      } else {
        ReadName(optstring[..i], c, defs, silent, lastChar);
        if c !in defs {
          defs := defs[c := false];
          lastChar := Some(c);
        } else {
          lastChar := None;
        }
      }
    }
    assert optstring[..|optstring|] == optstring;
    return OptionSpec(defs, silent);
  }

  // ---------------------------------------------------------------------------------------------
  // The reference: one recursive pass over the remaining words

  /** What one successful call shows its caller: the target variable and OPTARG. */
  datatype Report = Report(value: string, optarg: Option<string>)

  datatype Parsed = Parsed(reports: seq<Report>, operands: seq<string>)

  predicate IsOptionWord(w: string) {
    |w| > 0 && w[0] == '-' && w != "--" && w != "-"
  }

  predicate Takes(spec: OptionSpec, c: char) {
    c in spec.defs && spec.defs[c]
  }

  function Unknown(spec: OptionSpec, c: char): Report {
    Report("?", if spec.silent then Some([c]) else None)
  }

  /** An option without argument, or a character that is no option. */
  function Plain(spec: OptionSpec, c: char): Report {
    if c in spec.defs then Report([c], None) else Unknown(spec, c)
  }

  function MissingArgument(spec: OptionSpec, c: char): Report {
    if spec.silent then Report(":", Some([c])) else Report("?", None)
  }

  function Cons(r: Report, p: Parsed): Parsed {
    Prepend([r], p)
  }

  function Prepend(rs: seq<Report>, p: Parsed): Parsed {
    Parsed(rs + p.reports, p.operands)
  }

  function ParseArgs(spec: OptionSpec, words: seq<string>): Parsed
    decreases |words|, 0
  {
    if words == [] then Parsed([], [])
    else if words[0] == "--" then Parsed([], words[1..])
    else if !IsOptionWord(words[0]) then Parsed([], words)
    else ParseCluster(spec, words[0][1..], words[1..])
  }

  /** `cluster` is what is left of the current option word, `words` are the words behind it. */
  function ParseCluster(spec: OptionSpec, cluster: string, words: seq<string>): Parsed
    decreases |words|, 1 + |cluster|
  {
    if cluster == "" then ParseArgs(spec, words)
    else
      var c, rest := cluster[0], cluster[1..];
      if !Takes(spec, c) then Cons(Plain(spec, c), ParseCluster(spec, rest, words))
      else if rest != "" then Cons(Report([c], Some(rest)), ParseArgs(spec, words))
      else if words == [] then Cons(MissingArgument(spec, c), Parsed([], []))
      else Cons(Report([c], Some(words[0])), ParseArgs(spec, words[1..]))
  }

  // ---------------------------------------------------------------------------------------------
  // One call as a transition on the shell variables

  /** OPTIND and the two hidden variables, already read as numbers: None is unset or not a number. */
  datatype Vars = Vars(optind: Option<int>, lastOptind: Option<int>, nextChar: Option<nat>,
                       optarg: Option<string>, target: string)

  datatype GetoptsResult = GetoptsResult(value: string, optarg: Option<string>, optind: nat, success: bool)

  function SignedIndex(v: Vars): int {
    v.optind.GetOr(1)
  }

  function NextIndex(v: Vars): (i: nat)
    ensures i >= 1
  {
    if SignedIndex(v) > 1 then SignedIndex(v) else 1
  }

  /** The hidden cursor as a call sees it: forgotten when OPTIND is not what the last call left. */
  function SeenCursor(v: Vars): Option<nat> {
    if v.lastOptind != Some(SignedIndex(v)) then None else v.nextChar
  }

  /** The position inside the word that is looked at: a cursor behind the end counts as none. */
  function CharIndex(cursor: Option<nat>, word: string): nat {
    if cursor.GetOr(1) < |word| then cursor.GetOr(1) else 1
  }

  /** An option word always has a character at the default position, so a call never finds the
      word too short. */
  lemma CharIndexInWord(cursor: Option<nat>, word: string)
    requires IsOptionWord(word)
    ensures CharIndex(cursor, word) < |word|
  {
    assert |word| == 1 ==> word == "-";
  }

  /** The result of a call and the cursor it leaves behind. */
  function NextOption(spec: OptionSpec, args: seq<string>, index: nat, cursor: Option<nat>)
    : (GetoptsResult, Option<nat>)
    requires index >= 1
  {
    if index > |args| then (GetoptsResult("?", None, |args| + 1, false), cursor)
    else
      var arg := args[index - 1];
      if !IsOptionWord(arg) then
        (GetoptsResult("?", None, if arg == "--" then index + 1 else index, false), cursor)
      else
        CharIndexInWord(cursor, arg);
        var k := CharIndex(cursor, arg);
        var c, last := arg[k], k == |arg| - 1;
        if Takes(spec, c) then
          if !last then (GetoptsResult([c], Some(arg[k + 1..]), index + 1, true), None)
          else if index >= |args| then
            var m := MissingArgument(spec, c);
            (GetoptsResult(m.value, m.optarg, index + 1, true), None)
          else (GetoptsResult([c], Some(args[index]), index + 2, true), None)
        else
          var r := Plain(spec, c);
          if last then (GetoptsResult(r.value, r.optarg, index + 1, true), None)
          else (GetoptsResult(r.value, r.optarg, index, true), Some(k + 1))
  }

  function Step(spec: OptionSpec, args: seq<string>, v: Vars): (Vars, bool) {
    var (r, cursor) := NextOption(spec, args, NextIndex(v), SeenCursor(v));
    (Vars(Some(r.optind), Some(r.optind), cursor, r.optarg, r.value), r.success)
  }

  // ---------------------------------------------------------------------------------------------
  // Whole runs

  /** Everything the variables still stand for: what a parse of the rest would report. */
  function Future(spec: OptionSpec, args: seq<string>, v: Vars): Parsed {
    var i := NextIndex(v);
    if i > |args| then Parsed([], [])
    else if !IsOptionWord(args[i - 1]) then ParseArgs(spec, args[i - 1..])
    else
      CharIndexInWord(SeenCursor(v), args[i - 1]);
      ParseCluster(spec, args[i - 1][CharIndex(SeenCursor(v), args[i - 1])..], args[i..])
  }

  function WordsLeft(args: seq<string>, v: Vars): nat {
    if NextIndex(v) > |args| then 0 else |args| + 1 - NextIndex(v)
  }

  function CharsLeft(args: seq<string>, v: Vars): nat {
    var i := NextIndex(v);
    if i > |args| || !IsOptionWord(args[i - 1]) then 0
    else CharIndexInWord(SeenCursor(v), args[i - 1]);
         |args[i - 1]| - CharIndex(SeenCursor(v), args[i - 1])
  }

  /** Each successful call uses up a word, or a character of the word it stays in. */
  lemma StepDecreases(spec: OptionSpec, args: seq<string>, v: Vars)
    requires Step(spec, args, v).1
    ensures var w := Step(spec, args, v).0;
            || WordsLeft(args, w) < WordsLeft(args, v)
            || (WordsLeft(args, w) == WordsLeft(args, v) && CharsLeft(args, w) < CharsLeft(args, v))
  {
    CharIndexInWord(SeenCursor(v), args[NextIndex(v) - 1]);
  }

  /** The words from OPTIND on. */
  function WordsFrom(args: seq<string>, optind: nat): seq<string>
    requires optind >= 1
  {
    if optind > |args| then [] else args[optind - 1..]
  }

  /** Without a cursor the future is the plain parse of the words from OPTIND on. */
  lemma FutureAtWordStart(spec: OptionSpec, args: seq<string>, v: Vars)
    requires SeenCursor(v).None?
    ensures Future(spec, args, v) == ParseArgs(spec, WordsFrom(args, NextIndex(v)))
  {
    var i := NextIndex(v);
    if i <= |args| {
      assert args[i - 1..][1..] == args[i..];
      if IsOptionWord(args[i - 1]) {
        CharIndexInWord(None, args[i - 1]);
      }
    }
  }

  lemma {:induction false} NoMoreChars(spec: OptionSpec, words: seq<string>)
    ensures ParseCluster(spec, "", words) == ParseArgs(spec, words)
  {
  }

  /** Inside an option word the future is the rest of the word and the words behind. */
  lemma FutureInWord(spec: OptionSpec, args: seq<string>, v: Vars, i: nat, k: nat)
    requires i == NextIndex(v) <= |args| && IsOptionWord(args[i - 1])
    requires k == CharIndex(SeenCursor(v), args[i - 1]) < |args[i - 1]|
    ensures var word := args[i - 1];
            && word[k..] == [word[k]] + word[k + 1..]
            && Future(spec, args, v) == ParseCluster(spec, [word[k]] + word[k + 1..], args[i..])
  {
    var word := args[i - 1];
    assert word[k..] == [word[k]] + word[k + 1..];
  }

  lemma ClusterHead(spec: OptionSpec, c: char, rest: string, words: seq<string>)
    ensures ParseCluster(spec, [c] + rest, words)
            == if !Takes(spec, c) then Cons(Plain(spec, c), ParseCluster(spec, rest, words))
               else if rest != "" then Cons(Report([c], Some(rest)), ParseArgs(spec, words))
               else if words == [] then Cons(MissingArgument(spec, c), Parsed([], []))
               else Cons(Report([c], Some(words[0])), ParseArgs(spec, words[1..]))
  {
    assert ([c] + rest)[1..] == rest;
  }

  /** The word is done, and OPTIND points behind it. */
  lemma FutureBehind(spec: OptionSpec, args: seq<string>, w: Vars, n: nat)
    requires n >= 1 && w.optind == w.lastOptind == Some(n) && w.nextChar.None?
    ensures Future(spec, args, w) == ParseArgs(spec, WordsFrom(args, n))
  {
    FutureAtWordStart(spec, args, w);
  }

  /** A call in the middle of an option word, before a character that takes no argument. */
  lemma {:induction false} StepPlain(spec: OptionSpec, args: seq<string>, v: Vars)
    requires NextIndex(v) <= |args| && IsOptionWord(args[NextIndex(v) - 1])
    requires var word := args[NextIndex(v) - 1];
             CharIndex(SeenCursor(v), word) < |word| && !Takes(spec, word[CharIndex(SeenCursor(v), word)])
    ensures var w := Step(spec, args, v).0;
            && Step(spec, args, v).1
            && Future(spec, args, v) == Cons(Report(w.target, w.optarg), Future(spec, args, w))
  {
    var i := NextIndex(v);
    var word, k := args[i - 1], CharIndex(SeenCursor(v), args[i - 1]);
    var w := Step(spec, args, v).0;
    FutureInWord(spec, args, v, i, k);
    ClusterHead(spec, word[k], word[k + 1..], args[i..]);
    if k == |word| - 1 {
      NoMoreChars(spec, args[i..]);
      FutureBehind(spec, args, w, i + 1);
      assert args[|args|..] == [];
    } else {
      FutureInWord(spec, args, w, i, k + 1);
    }
  }

  /** A call before a character that takes an argument. */
  lemma {:induction false} StepTaker(spec: OptionSpec, args: seq<string>, v: Vars)
    requires NextIndex(v) <= |args| && IsOptionWord(args[NextIndex(v) - 1])
    requires var word := args[NextIndex(v) - 1];
             CharIndex(SeenCursor(v), word) < |word| && Takes(spec, word[CharIndex(SeenCursor(v), word)])
    ensures var w := Step(spec, args, v).0;
            && Step(spec, args, v).1
            && Future(spec, args, v) == Cons(Report(w.target, w.optarg), Future(spec, args, w))
  {
    var i := NextIndex(v);
    var word, k := args[i - 1], CharIndex(SeenCursor(v), args[i - 1]);
    var w := Step(spec, args, v).0;
    FutureInWord(spec, args, v, i, k);
    ClusterHead(spec, word[k], word[k + 1..], args[i..]);
    FutureBehind(spec, args, w, w.optind.value);
    assert args[|args|..] == [];
    if i < |args| {
      assert args[i..][1..] == args[i + 1..];
    }
  }

  /** One call reports the head of the future and leaves its tail; it fails exactly when the future
      holds no report, and then OPTIND points at the first operand. */
  lemma {:induction false} StepTakesHead(spec: OptionSpec, args: seq<string>, v: Vars)
    ensures var (w, ok) := Step(spec, args, v);
            var before, after := Future(spec, args, v), Future(spec, args, w);
            && w.optind.Some? && w.lastOptind == w.optind && 1 <= w.optind.value <= |args| + 1
            && (ok <==> before.reports != [])
            && (ok ==> before == Cons(Report(w.target, w.optarg), after))
            && (!ok ==> before.operands == args[w.optind.value - 1..] && w.target == "?" && w.optarg.None?)
  {
    var i := NextIndex(v);
    if i > |args| {
    } else if !IsOptionWord(args[i - 1]) {
      assert args[i - 1..][1..] == args[i..];
    } else {
      var word := args[i - 1];
      CharIndexInWord(SeenCursor(v), word);
      if Takes(spec, word[CharIndex(SeenCursor(v), word)]) {
        StepTaker(spec, args, v);
      } else {
        StepPlain(spec, args, v);
      }
    }
  }

  /** Calling getopts until it fails. */
  function Run(spec: OptionSpec, args: seq<string>, v: Vars): (seq<Report>, Vars)
    decreases WordsLeft(args, v), CharsLeft(args, v)
  {
    var (w, ok) := Step(spec, args, v);
    if !ok then ([], w)
    else
      StepDecreases(spec, args, v);
      var (rs, end) := Run(spec, args, w);
      ([Report(w.target, w.optarg)] + rs, end)
  }

  lemma RunUnfolds(spec: OptionSpec, args: seq<string>, v: Vars)
    ensures var (w, ok) := Step(spec, args, v);
            Run(spec, args, v) == if !ok then ([], w)
                                  else ([Report(w.target, w.optarg)] + Run(spec, args, w).0, Run(spec, args, w).1)
  {
  }

  /** From any variables whatever, a run reports exactly what is left to report, and OPTIND ends on
      the first operand. */
  lemma {:induction false} RunReportsFuture(spec: OptionSpec, args: seq<string>, v: Vars)
    ensures var (reports, end) := Run(spec, args, v);
            && reports == Future(spec, args, v).reports
            && end.optind.Some? && 1 <= end.optind.value <= |args| + 1
            && args[end.optind.value - 1..] == Future(spec, args, v).operands
    decreases WordsLeft(args, v), CharsLeft(args, v)
  {
    var (w, ok) := Step(spec, args, v);
    StepTakesHead(spec, args, v);
    if ok {
      StepDecreases(spec, args, v);
      RunReportsFuture(spec, args, w);
    }
  }

  /** A run that starts at OPTIND=1 with no cursor is the one-pass parse of the arguments. */
  lemma RunIsOnePassParse(spec: OptionSpec, args: seq<string>, v: Vars)
    requires SignedIndex(v) <= 1 && SeenCursor(v).None?
    ensures var (reports, end) := Run(spec, args, v);
            && end.optind.Some? && 1 <= end.optind.value <= |args| + 1
            && Parsed(reports, args[end.optind.value - 1..]) == ParseArgs(spec, args)
  {
    RunReportsFuture(spec, args, v);
    FutureAtWordStart(spec, args, v);
    assert WordsFrom(args, 1) == args;
  }

  // ---------------------------------------------------------------------------------------------
  // What holds between the calls of one run

  /** A cursor that the next call will honour points into the option word at OPTIND, behind at
      least one character, and no character before it takes an argument. */
  predicate CursorInWord(spec: OptionSpec, args: seq<string>, v: Vars) {
    v.nextChar.Some? ==>
      && v.optind.Some? && v.lastOptind == v.optind
      && 1 <= v.optind.value <= |args|
      && IsOptionWord(args[v.optind.value - 1])
      && 1 < v.nextChar.value < |args[v.optind.value - 1]|
      && NoneTakes(spec, args[v.optind.value - 1][1..v.nextChar.value])
  }

  predicate NoneTakes(spec: OptionSpec, s: string) {
    forall c | c in s :: !Takes(spec, c)
  }

  /** Kept by every call of a run; a failing call leaves no cursor. */
  lemma StepKeepsCursor(spec: OptionSpec, args: seq<string>, v: Vars)
    requires CursorInWord(spec, args, v)
    ensures CursorInWord(spec, args, Step(spec, args, v).0)
    ensures !Step(spec, args, v).1 ==> Step(spec, args, v).0.nextChar.None?
  {
    var i := NextIndex(v);
    if i <= |args| && IsOptionWord(args[i - 1]) {
      var word := args[i - 1];
      CharIndexInWord(SeenCursor(v), word);
      var k := CharIndex(SeenCursor(v), word);
      assert word[1..k + 1] == word[1..k] + [word[k]];
    }
  }

  /** Characters that take no argument give one report each. */
  lemma {:induction false} ClusterSkip(spec: OptionSpec, skipped: string, rest: string, words: seq<string>)
    requires NoneTakes(spec, skipped)
    ensures |ParseCluster(spec, skipped + rest, words).reports| ==
            |skipped| + |ParseCluster(spec, rest, words).reports|
  {
    if skipped == "" {
      assert skipped + rest == rest;
    } else {
      assert (skipped + rest)[1..] == skipped[1..] + rest;
      assert skipped[0] in skipped;
      ClusterSkip(spec, skipped[1..], rest, words);
    }
  }

  /** Restarting by assigning OPTIND := n between calls works exactly when no cursor is set or n is
      not the value OPTIND already has: re-assigning the same number mid-word goes unnoticed. */
  lemma RestartWorksIff(spec: OptionSpec, args: seq<string>, v: Vars, n: nat)
    requires CursorInWord(spec, args, v) && 1 <= n <= |args| + 1
    ensures var w := v.(optind := Some(n));
            Run(spec, args, w).0 == ParseArgs(spec, WordsFrom(args, n)).reports
            <==> (v.nextChar.None? || v.lastOptind != Some(n))
  {
    var w := v.(optind := Some(n));
    RunReportsFuture(spec, args, w);
    if SeenCursor(w).None? {
      FutureAtWordStart(spec, args, w);
    }
    if v.nextChar.Some? && v.lastOptind == Some(n) {
      var word, k := args[n - 1], v.nextChar.value;
      assert word[1..] == word[1..k] + word[k..];
      ClusterSkip(spec, word[1..k], word[k..], args[n..]);
      assert args[n - 1..][1..] == args[n..];
    }
  }

  const FLAGS := "ab"

  const CLUSTER := "-ab"

  lemma FlagsTakeNothing(c: char)
    ensures !TakesArgument(FLAGS, c)
  {
    assert forall i | 0 <= i < |FLAGS| :: FLAGS[i] != ':';
  }

  /** The first call on `-ab` stays in the word. */
  lemma FirstOfCluster(v: Vars)
    requires v == Vars(None, None, None, None, "")
    ensures Step(SpecOf(FLAGS), [CLUSTER], v) == (Vars(Some(1), Some(1), Some(2), None, "a"), true)
  {
    FlagsTakeNothing('a');
    assert FLAGS[0] == 'a' && CLUSTER[1] == 'a' && IsOptionWord(CLUSTER);
    assert 'a' in SpecOf(FLAGS).defs;
  }

  /** After it, OPTIND := 1 does not start over: the run reports `b` alone. */
  lemma RestartUnnoticed(v: Vars)
    requires v == Vars(None, None, None, None, "")
    ensures var w := Step(SpecOf(FLAGS), [CLUSTER], v).0;
            && CursorInWord(SpecOf(FLAGS), [CLUSTER], w) && w.nextChar == Some(2) && w.optind == w.lastOptind == Some(1)
            && Run(SpecOf(FLAGS), [CLUSTER], w.(optind := Some(1))).0 != ParseArgs(SpecOf(FLAGS), [CLUSTER]).reports
  {
    FirstOfCluster(v);
    var w := Step(SpecOf(FLAGS), [CLUSTER], v).0;
    StepKeepsCursor(SpecOf(FLAGS), [CLUSTER], v);
    RestartWorksIff(SpecOf(FLAGS), [CLUSTER], w, 1);
    assert WordsFrom([CLUSTER], 1) == [CLUSTER];
  }

  // ---------------------------------------------------------------------------------------------
  // Round trip: printing options and reading them back

  /** The end of an option word: nothing, an argument in the same word, or in the next word. */
  datatype Tail = NoTail | Attached(c: char, arg: string) | Separate(c: char, arg: string)

  datatype Group = Group(flags: string, tail: Tail)

  function TailText(t: Tail): string {
    match t
    case NoTail => ""
    case Attached(c, arg) => [c] + arg
    case Separate(c, _) => [c]
  }

  function TailWords(t: Tail): seq<string> {
    if t.Separate? then [t.arg] else []
  }

  function TailReports(t: Tail): seq<Report> {
    if t.NoTail? then [] else [Report([t.c], Some(t.arg))]
  }

  function FirstWord(g: Group): string {
    "-" + g.flags + TailText(g.tail)
  }

  function PrintGroup(g: Group): seq<string> {
    [FirstWord(g)] + TailWords(g.tail)
  }

  function Print(gs: seq<Group>): seq<string> {
    if gs == [] then [] else PrintGroup(gs[0]) + Print(gs[1..])
  }

  /** Flags are declared without argument, the tail option with one; an attached argument is not
      empty; and the word is neither "-" nor "--". */
  predicate Printable(spec: OptionSpec, g: Group) {
    && (forall c | c in g.flags :: c in spec.defs && !spec.defs[c])
    && (!g.tail.NoTail? ==> g.tail.c in spec.defs && spec.defs[g.tail.c])
    && (g.tail.Attached? ==> g.tail.arg != "")
    && FirstWord(g) != "-" && FirstWord(g) != "--"
  }

  function FlagReports(flags: string): seq<Report> {
    if flags == "" then [] else [Report([flags[0]], None)] + FlagReports(flags[1..])
  }

  function GroupReports(g: Group): seq<Report> {
    FlagReports(g.flags) + TailReports(g.tail)
  }

  function Options(gs: seq<Group>): seq<Report> {
    if gs == [] then [] else GroupReports(gs[0]) + Options(gs[1..])
  }

  lemma PrependTwice(a: seq<Report>, b: seq<Report>, p: Parsed)
    ensures Prepend(a, Prepend(b, p)) == Prepend(a + b, p)
  {
    assert a + (b + p.reports) == a + b + p.reports;
  }

  lemma {:induction false} ParseFlags(spec: OptionSpec, flags: string, rest: string, words: seq<string>)
    requires forall c | c in flags :: c in spec.defs && !spec.defs[c]
    ensures ParseCluster(spec, flags + rest, words) == Prepend(FlagReports(flags), ParseCluster(spec, rest, words))
  {
    if flags == "" {
      assert flags + rest == rest;
    } else {
      assert (flags + rest)[1..] == flags[1..] + rest;
      ParseFlags(spec, flags[1..], rest, words);
      PrependTwice([Report([flags[0]], None)], FlagReports(flags[1..]), ParseCluster(spec, rest, words));
    }
  }

  lemma {:induction false} ParseTail(spec: OptionSpec, t: Tail, more: seq<string>)
    requires !t.NoTail? ==> Takes(spec, t.c)
    requires t.Attached? ==> t.arg != ""
    ensures ParseCluster(spec, TailText(t), TailWords(t) + more) == Prepend(TailReports(t), ParseArgs(spec, more))
  {
    match t
    case NoTail =>
      assert TailWords(t) + more == more;
    case Attached(c, arg) =>
      assert TailWords(t) + more == more && TailText(t)[1..] == arg;
    case Separate(c, arg) =>
      assert (TailWords(t) + more)[1..] == more;
  }

  lemma ParseGroup(spec: OptionSpec, g: Group, more: seq<string>)
    requires Printable(spec, g)
    ensures ParseArgs(spec, PrintGroup(g) + more) == Prepend(GroupReports(g), ParseArgs(spec, more))
  {
    var words := PrintGroup(g) + more;
    assert words[1..] == TailWords(g.tail) + more;
    assert words[0][1..] == g.flags + TailText(g.tail);
    ParseFlags(spec, g.flags, TailText(g.tail), TailWords(g.tail) + more);
    ParseTail(spec, g.tail, more);
    PrependTwice(FlagReports(g.flags), TailReports(g.tail), ParseArgs(spec, more));
  }

  /** Printed options read back as themselves in front of any further words. */
  lemma {:induction false} ParseOfPrint(spec: OptionSpec, gs: seq<Group>, rest: seq<string>)
    requires forall g | g in gs :: Printable(spec, g)
    ensures ParseArgs(spec, Print(gs) + rest) == Prepend(Options(gs), ParseArgs(spec, rest))
  {
    if gs == [] {
      assert Print(gs) + rest == rest;
    } else {
      var more := Print(gs[1..]) + rest;
      assert Print(gs) + rest == PrintGroup(gs[0]) + more;
      assert gs[0] in gs;
      ParseGroup(spec, gs[0], more);
      ParseOfPrint(spec, gs[1..], rest);
      PrependTwice(GroupReports(gs[0]), Options(gs[1..]), ParseArgs(spec, rest));
    }
  }

  /** Printing options, "--" and operands, and running getopts to the end, gives them back. */
  lemma PrintRunRoundTrip(optstring: string, gs: seq<Group>, operands: seq<string>, v: Vars)
    requires forall g | g in gs :: Printable(SpecOf(optstring), g)
    requires SignedIndex(v) <= 1 && SeenCursor(v).None?
    ensures var args := Print(gs) + (["--"] + operands);
            var (reports, end) := Run(SpecOf(optstring), args, v);
            && reports == Options(gs)
            && end.optind.Some? && 1 <= end.optind.value <= |args| + 1
            && args[end.optind.value - 1..] == operands
  {
    var rest := ["--"] + operands;
    assert rest[1..] == operands;
    ParseOfPrint(SpecOf(optstring), gs, rest);
    RunIsOnePassParse(SpecOf(optstring), Print(gs) + rest, v);
  }

  // ---------------------------------------------------------------------------------------------
  // The builtins, on a shell that holds the variables

  predicate IsNameChar(c: char) {
    'a' <= c <= 'z' || 'A' <= c <= 'Z' || c == '_'
  }

  predicate ValidVariableName(s: string) {
    && |s| > 0 && IsNameChar(s[0])
    && forall c | c in s :: IsNameChar(c) || '0' <= c <= '9'
  }

  method IsValidVariableName(s: string) returns (valid: bool)
    ensures valid <==> ValidVariableName(s)
  {
    if s == "" {
      return false;
    }
    var first := s[0];
    if !('a' <= first <= 'z') && !('A' <= first <= 'Z') && first != '_' {
      return false;
    }
    for i := 1 to |s|
      invariant forall j | 0 <= j < i :: IsNameChar(s[j]) || '0' <= s[j] <= '9'
    {
      var c := s[i];
      if !('a' <= c <= 'z') && !('A' <= c <= 'Z') && c != '_' && !('0' <= c <= '9') {
        assert c in s;
        return false;
      }
    }
    return true;
  }

  class Shell {
    var optind: Option<int>
    var lastOptind: Option<int>
    var nextChar: Option<nat>
    var optarg: Option<string>
    var target: string
    var positional: seq<string>

    function Variables(): Vars
      reads this
    {
      Vars(optind, lastOptind, nextChar, optarg, target)
    }

    /** `cursor` as read from the hidden variable; a call that stays in a word moves it, one that
        leaves the word unsets it. */
    method ParseNextOption(spec: OptionSpec, args: seq<string>, index: nat) returns (r: GetoptsResult)
      requires index >= 1
      modifies this`nextChar
      ensures (r, nextChar) == NextOption(spec, args, index, old(nextChar))
    {
      if index > |args| {
        return GetoptsResult("?", None, |args| + 1, false);
      }
      var arg := args[index - 1];
      if |arg| == 0 || arg[0] != '-' || arg == "--" || arg == "-" {
        return GetoptsResult("?", None, if arg == "--" then index + 1 else index, false);
      }
      CharIndexInWord(nextChar, arg);
      var charIndex := nextChar.GetOr(1);
      if charIndex >= |arg| {
        charIndex := 1;
      }
      var c := arg[charIndex];
      var lastInWord := charIndex == |arg| - 1;
      var nextIndex := index;
      var value, found;
      if c in spec.defs {
        value, found := [c], None;
        if spec.defs[c] {
          value, found, nextIndex := ResolveArgument(spec, c, arg, args, charIndex, lastInWord, index);
          lastInWord := true;
        }
      } else {
        value, found := "?", if spec.silent then Some([c]) else None;
      }
      if lastInWord {
        nextChar := None;
        r := GetoptsResult(value, found, nextIndex + 1, true);
      } else {
        nextChar := Some(charIndex + 1);
        r := GetoptsResult(value, found, nextIndex, true);
      }
    }

    method ResolveArgument(spec: OptionSpec, c: char, arg: string, args: seq<string>,
                           charIndex: nat, lastInWord: bool, index: nat)
      returns (value: string, found: Option<string>, nextIndex: nat)
      requires charIndex < |arg| && lastInWord == (charIndex == |arg| - 1) && 1 <= index <= |args|
      ensures !lastInWord ==> value == [c] && found == Some(arg[charIndex + 1..]) && nextIndex == index
      ensures lastInWord && index == |args| ==>
                nextIndex == index && value == (if spec.silent then ":" else "?")
                && found == if spec.silent then Some([c]) else None
      ensures lastInWord && index < |args| ==>
                value == [c] && found == Some(args[index]) && nextIndex == index + 1
    {
      nextIndex := index;
      if lastInWord {
        if index >= |args| {
          if spec.silent {
            value, found := ":", Some([c]);
          } else {
            value, found := "?", None;
          }
        } else {
          nextIndex := index + 1;
          value, found := [c], Some(args[nextIndex - 1]);
        }
      } else {
        value, found := [c], Some(arg[charIndex + 1..]);
      }
    }

    method UpdateVariables(r: GetoptsResult) returns (exitCode: nat)
      modifies this`target, this`optarg, this`optind, this`lastOptind
      ensures target == r.value && optarg == r.optarg && optind == lastOptind == Some(r.optind)
      ensures exitCode == if r.success then 0 else 1
    {
      target := r.value;
      optarg := r.optarg;
      optind := Some(r.optind);
      lastOptind := Some(r.optind);
      exitCode := if r.success then 0 else 1;
    }

    /** `getopts optstring name [args]`. */
    method Execute(optstring: string, name: string, explicitArgs: seq<string>) returns (exitCode: nat)
      modifies this
      ensures positional == old(positional)
      ensures !ValidVariableName(name) ==> exitCode == 1 && Variables() == old(Variables())
      ensures ValidVariableName(name) ==>
                var args := if explicitArgs != [] then explicitArgs else positional;
                (Variables(), exitCode == 0) == Step(SpecOf(optstring), args, old(Variables()))
    {
      var valid := IsValidVariableName(name);
      if !valid {
        return 1;
      }
      var spec := ParseOptionSpec(optstring);
      var signed := optind.GetOr(1);
      if lastOptind != Some(signed) {
        nextChar := None;
      }
      var index: nat := if signed > 1 then signed else 1;
      var args := if explicitArgs != [] then explicitArgs else positional;
      var result := ParseNextOption(spec, args, index);
      exitCode := UpdateVariables(result);
    }

    /** `shift n`. */
    method Shift(n: Option<int>) returns (ok: bool)
      modifies this`positional
      ensures ok <==> 0 <= n.GetOr(1) <= |old(positional)|
      ensures positional == if ok then old(positional)[n.GetOr(1)..] else old(positional)
    {
      var count := n.GetOr(1);
      if count < 0 {
        return false;
      }
      if count > |positional| {
        return false;
      }
      positional := positional[count..];
      return true;
    }

    /** The usual script: `while getopts optstring name; do ...; done; shift $((OPTIND - 1))`.
        It ends, hands out the options of the one-pass parse in order, and leaves the operands. */
    method OptionLoop(optstring: string, name: string) returns (reports: seq<Report>)
      requires ValidVariableName(name)
      requires SignedIndex(Variables()) <= 1 && SeenCursor(Variables()).None?
      modifies this
      ensures Parsed(reports, positional) == ParseArgs(SpecOf(optstring), old(positional))
    {
      ghost var spec, args, start := SpecOf(optstring), positional, Variables();
      reports := [];
      while true
        invariant positional == args
        invariant Run(spec, args, start).0 == reports + Run(spec, args, Variables()).0
        invariant Run(spec, args, start).1 == Run(spec, args, Variables()).1
        decreases WordsLeft(args, Variables()), CharsLeft(args, Variables())
      {
        ghost var before := Variables();
        var exitCode := Execute(optstring, name, []);
        RunUnfolds(spec, args, before);
        if exitCode != 0 {
          break;
        }
        StepDecreases(spec, args, before);
        ghost var later := Run(spec, args, Variables()).0;
        assert reports + ([Report(target, optarg)] + later) == reports + [Report(target, optarg)] + later;
        reports := reports + [Report(target, optarg)];
      }
      RunIsOnePassParse(spec, args, start);
      var ok := Shift(Some(optind.GetOr(1) - 1));
      assert ok;
    }
  }
}
