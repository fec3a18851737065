/** What each call of `getopts` reports, in terms of the option string and the words. */
module GetoptsReports {
  import opened Wrappers
  import opened Getopts

  // ---------------------------------------------------------------------------------------------
  // What an option string declares

  predicate Declared(optstring: string, c: char) { c in optstring && c != ':' }

  predicate Silent(optstring: string) { optstring != "" && optstring[0] == ':' }

  /** The first occurrence of `c` is followed by a colon. */
  predicate WithArgument(optstring: string, c: char) {
    && Declared(optstring, c)
    && exists i: nat :: FirstAt(optstring, c, i) && i + 1 < |optstring| && optstring[i + 1] == ':'
  }

  predicate FirstAt(optstring: string, c: char, i: nat) {
    i < |optstring| && optstring[i] == c && forall j: nat | j < i :: optstring[j] != c
  }

  lemma SpecIs(optstring: string, c: char)
    ensures c in SpecOf(optstring).defs <==> Declared(optstring, c)
    ensures Takes(SpecOf(optstring), c) <==> WithArgument(optstring, c)
    ensures SpecOf(optstring).silent == Silent(optstring)
  {
    if TakesArgument(optstring, c) {
      var i :| 0 <= i < |optstring| - 1 && optstring[i] == c && First(optstring, i) && optstring[i + 1] == ':';
      assert FirstAt(optstring, c, i);
    }
    if WithArgument(optstring, c) {
      var i: nat :| FirstAt(optstring, c, i) && i + 1 < |optstring| && optstring[i + 1] == ':';
      assert First(optstring, i);
    }
  }

  // ---------------------------------------------------------------------------------------------
  // One call

  /** The word that the variables point at: OPTIND, or 1 if it is unset or smaller. */
  function WordIndex(v: Vars): nat {
    if v.optind.Some? && v.optind.value > 1 then v.optind.value else 1
  }

  /** The call looks at character `k` of an option word: at the cursor, if OPTIND was not changed and
      the word is long enough, and else behind the hyphen. */
  predicate LooksAt(args: seq<string>, v: Vars, i: nat, k: nat) {
    && i == WordIndex(v) <= |args|
    && |args[i - 1]| > 1 && args[i - 1][0] == '-' && args[i - 1] != "--"
    && k == if Kept(v) && v.nextChar.Some? && v.nextChar.value < |args[i - 1]| then v.nextChar.value else 1
  }

  /** OPTIND is what the last call left. */
  predicate Kept(v: Vars) {
    v.lastOptind.Some? && v.lastOptind.value == if v.optind.Some? then v.optind.value else 1
  }

  /** An option word gives a report. A character that is not declared gives "?", and in silent mode
      itself as OPTARG. */
  lemma Undeclared(optstring: string, args: seq<string>, v: Vars, i: nat, k: nat)
    requires LooksAt(args, v, i, k) && !Declared(optstring, args[i - 1][k])
    ensures var (w, ok) := Step(SpecOf(optstring), args, v);
            && ok && w.target == "?" && w.optarg == (if Silent(optstring) then Some([args[i - 1][k]]) else None)
            && (if k + 1 < |args[i - 1]| then w.optind == Some(i) && w.nextChar == Some(k + 1)
                else w.optind == Some(i + 1) && w.nextChar == None)
            && w.lastOptind == w.optind
  {
    SpecIs(optstring, args[i - 1][k]);
  }

  /** One declared without argument gives itself. */
  lemma Flag(optstring: string, args: seq<string>, v: Vars, i: nat, k: nat)
    requires LooksAt(args, v, i, k)
    requires Declared(optstring, args[i - 1][k]) && !WithArgument(optstring, args[i - 1][k])
    ensures var (w, ok) := Step(SpecOf(optstring), args, v);
            && ok && w.target == [args[i - 1][k]] && w.optarg == None
            && (if k + 1 < |args[i - 1]| then w.optind == Some(i) && w.nextChar == Some(k + 1)
                else w.optind == Some(i + 1) && w.nextChar == None)
            && w.lastOptind == w.optind
  {
    SpecIs(optstring, args[i - 1][k]);
  }

  /** One declared with argument takes the rest of the word, or else the next word. If there is none it
      gives ":" and itself in silent mode, and "?" otherwise. */
  lemma WithValue(optstring: string, args: seq<string>, v: Vars, i: nat, k: nat)
    requires LooksAt(args, v, i, k) && WithArgument(optstring, args[i - 1][k])
    ensures var (w, ok) := Step(SpecOf(optstring), args, v);
            var word := args[i - 1];
            && ok && w.nextChar == None && w.lastOptind == w.optind
            && (if k + 1 < |word| then
                  w.target == [word[k]] && w.optarg == Some(word[k + 1..]) && w.optind == Some(i + 1)
                else if i < |args| then
                  w.target == [word[k]] && w.optarg == Some(args[i]) && w.optind == Some(i + 2)
                else if Silent(optstring) then
                  w.target == ":" && w.optarg == Some([word[k]]) && w.optind == Some(i + 1)
                else w.target == "?" && w.optarg == None && w.optind == Some(i + 1))
  {
    SpecIs(optstring, args[i - 1][k]);
  }

  /** Anything else ends the options: no word, a word without hyphen, a single hyphen, and "--", which
      is passed over. */
  lemma NoOption(optstring: string, args: seq<string>, v: Vars, i: nat)
    requires i == WordIndex(v)
    requires i <= |args| ==> |args[i - 1]| <= 1 || args[i - 1][0] != '-' || args[i - 1] == "--"
    ensures var (w, ok) := Step(SpecOf(optstring), args, v);
            && !ok && w.target == "?" && w.optarg == None && w.lastOptind == w.optind
            && w.optind == Some(if i > |args| then |args| + 1 else if args[i - 1] == "--" then i + 1 else i)
  {
  }

  // ---------------------------------------------------------------------------------------------
  // Whole runs

  /** A report names a declared option, with an argument exactly if it is declared with one; or it
      stands for an undeclared one or a missing argument. */
  ghost predicate Sensible(optstring: string, r: Report) {
    || (exists c :: Declared(optstring, c) && r.value == [c] && (r.optarg.Some? <==> WithArgument(optstring, c)))
    || (r.value == "?" && !Silent(optstring) && r.optarg == None)
    || (r.value == "?" && Silent(optstring) && exists c :: !Declared(optstring, c) && r.optarg == Some([c]))
    || (r.value == ":" && Silent(optstring) && exists c :: WithArgument(optstring, c) && r.optarg == Some([c]))
  }

  lemma StepIsSensible(optstring: string, args: seq<string>, v: Vars)
    requires Step(SpecOf(optstring), args, v).1
    ensures var w := Step(SpecOf(optstring), args, v).0; Sensible(optstring, Report(w.target, w.optarg))
  {
    var i := WordIndex(v);
    if i > |args| || |args[i - 1]| <= 1 || args[i - 1][0] != '-' || args[i - 1] == "--" {
      NoOption(optstring, args, v, i);
    } else {
      CharIndexInWord(SeenCursor(v), args[i - 1]);
      var k := CharIndex(SeenCursor(v), args[i - 1]);
      var c := args[i - 1][k];
      if !Declared(optstring, c) {
        Undeclared(optstring, args, v, i, k);
      } else if WithArgument(optstring, c) {
        WithValue(optstring, args, v, i, k);
      } else {
        Flag(optstring, args, v, i, k);
      }
    }
  }

  lemma {:induction false} RunIsSensible(optstring: string, args: seq<string>, v: Vars)
    ensures forall r | r in Run(SpecOf(optstring), args, v).0 :: Sensible(optstring, r)
    decreases WordsLeft(args, v), CharsLeft(args, v)
  {
    var spec := SpecOf(optstring);
    RunUnfolds(spec, args, v);
    if Step(spec, args, v).1 {
      StepDecreases(spec, args, v);
      StepIsSensible(optstring, args, v);
      RunIsSensible(optstring, args, Step(spec, args, v).0);
    }
  }

  /** A run hands out no option that the option string does not declare. */
  lemma OnlyDeclared(optstring: string, args: seq<string>, v: Vars, r: Report, c: char)
    requires r in Run(SpecOf(optstring), args, v).0 && r.value == [c] && c != '?' && c != ':'
    ensures Declared(optstring, c) && (r.optarg.Some? <==> WithArgument(optstring, c))
  {
    RunIsSensible(optstring, args, v);
    assert r.value[0] == c;
  }
}
