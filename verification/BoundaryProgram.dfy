/** The program of the boundary parser: a loop over flags, and sections counted in place. */
module BoundaryProgram {
  import opened Text
  import opened TextLines
  import opened Boundary

  class EditSection {
    const target: string
    var ops: nat
    var payload: nat
    var deleted: nat

    function Value(): Section
      reads this
    {
      Section(target, ops, payload, deleted)
    }

    constructor (target: string)
      ensures Value() == Section(target, 0, 0, 0)
    {
      this.target := target;
      ops, payload, deleted := 0, 0, 0;
    }
  }

  function Values(sections: seq<EditSection>): (values: seq<Section>)
    reads sections
    ensures |values| == |sections|
  {
    if sections == [] then [] else Values(sections[..|sections| - 1]) + [sections[|sections| - 1].Value()]
  }

  lemma ValuesSnoc(sections: seq<EditSection>, cur: EditSection)
    ensures Values(sections + [cur]) == Values(sections) + [cur.Value()]
  {
    assert (sections + [cur])[..|sections|] == sections;
  }

  lemma CountLast(sections: seq<Section>, cur: Section, ops: nat, payload: nat, deleted: nat)
    ensures Count(sections + [cur], ops, payload, deleted)
            == sections + [Section(cur.target, cur.ops + ops, cur.payload + payload, cur.deleted + deleted)]
  {
  }

  lemma SpansAt(look: string -> Look, lines: seq<string>, i: nat, pos: nat)
    requires i < |lines|
    ensures Spans(look, lines[i..], pos)
            == [Span(look(lines[i]), pos + |lines[i]|)] + Spans(look, lines[i + 1..], pos + |lines[i]|)
  {
    assert lines[i..][1..] == lines[i + 1..];
  }

  method LineSpans(look: string -> Look, text: string) returns (spans: seq<Span>)
    ensures spans == Spans(look, SplitKeep(text), 0)
  {
    var lines := SplitKeep(text);
    var pos: nat := 0;
    spans := [];
    for i := 0 to |lines|
      invariant spans + Spans(look, lines[i..], pos) == Spans(look, lines, 0)
    {
      SpansAt(look, lines, i, pos);
      pos := pos + |lines[i]|;
      var span := Span(look(lines[i]), pos);
      assert spans + ([span] + Spans(look, lines[i + 1..], pos)) == (spans + [span]) + Spans(look, lines[i + 1..], pos);
      spans := spans + [span];
    }
    assert spans + [] == spans;
  }

  /** The other variables of the loop over the lines. */
  datatype Locals = Locals(parsedEnd: nat, lineNo: nat, needs: bool, allowed: bool, saw: bool, seen: bool) {
    function With(sections: seq<Section>, stopped: bool): State {
      State(sections, parsedEnd, lineNo, needs, allowed, saw, seen, stopped)
    }
  }

  predicate Distinct(sections: seq<EditSection>) {
    forall i, j | 0 <= i < j < |sections| :: sections[i] != sections[j]
  }

  /** Counts in the current section, which is the last one. */
  method CountIn(sections: seq<EditSection>, ops: nat, payload: nat, deleted: nat)
    requires sections != [] && Distinct(sections)
    modifies sections[|sections| - 1]
    ensures Values(sections) == Count(old(Values(sections)), ops, payload, deleted)
  {
    var cur := sections[|sections| - 1];
    ghost var others := sections[..|sections| - 1];
    assert cur !in others;
    CountLast(Values(others), cur.Value(), ops, payload, deleted);
    cur.ops := cur.ops + ops;
    cur.payload := cur.payload + payload;
    cur.deleted := cur.deleted + deleted;
  }

  /** A line below a section header; `go` is false at the line that ends the parse. */
  method ReadInSection(sections: seq<EditSection>, span: Span, vars: Locals) returns (v: Locals, go: bool)
    requires sections != [] && Distinct(sections)
    modifies sections[|sections| - 1]
    ensures v.With(Values(sections), !go) == ReadBody(vars.With(old(Values(sections)), false), span)
  {
    v, go := vars, true;
    var missing := v.needs && !v.saw;
    if v.allowed && !span.look.lead {
      CountIn(sections, 0, 1, 0);
      v := v.(parsedEnd := span.end, saw := true, needs := false);
    } else if span.look.blank {
      if missing {
        go := false;
      } else {
        v := v.(parsedEnd := span.end, allowed := false, needs := false, saw := false);
      }
    } else if missing {
      go := false;
    } else if span.look.kind.Insert? {
      CountIn(sections, 1, 0, 0);
      v := v.(needs := true, allowed := true, saw := false);
    } else if span.look.kind.Replace? {
      CountIn(sections, 1, 0, span.look.kind.size);
      v := v.(parsedEnd := span.end, needs := false, allowed := true, saw := false);
    } else {
      go := false;
    }
  }

  method OpenSection(sections: seq<EditSection>, target: string) returns (more: seq<EditSection>)
    requires Distinct(sections)
    ensures fresh(more) && Distinct(sections + more)
    ensures Values(sections + more) == Values(sections) + [Section(target, 0, 0, 0)]
  {
    var cur := new EditSection(target);
    ValuesSnoc(sections, cur);
    more := [cur];
  }

  /** A line behind the leading blank lines; `more` is the section it opens. */
  method ReadContent(sections: seq<EditSection>, span: Span, vars: Locals)
    returns (more: seq<EditSection>, v: Locals, go: bool)
    requires Distinct(sections)
    modifies sections
    ensures fresh(more) && Distinct(sections + more)
    ensures v.With(Values(sections + more), !go) == ReadLine(vars.With(old(Values(sections)), false), span)
  {
    more, v, go := [], vars, true;
    assert sections + [] == sections;
    var missing := v.needs && !v.saw;
    if span.look.kind.BeginMark? || span.look.kind.EndMark? {
      if missing {
        go := false;
      } else {
        v := v.(parsedEnd := span.end, allowed := false);
      }
    } else if span.look.kind.FileHeader? {
      if missing {
        go := false;
      } else {
        more := OpenSection(sections, span.look.kind.target);
        v := v.(parsedEnd := span.end, needs := false, allowed := false, saw := false);
      }
    } else if sections == [] {
      go := false;
    } else {
      v, go := ReadInSection(sections, span, v);
    }
  }

  lemma StepReads(st: State, span: Span)
    requires !st.stopped && !(!st.seen && span.look.blank)
    ensures Step(st, span) == ReadLine(st.(lineNo := st.lineNo + 1, seen := true), span)
  {
  }

  method ReadSpan(sections: seq<EditSection>, span: Span, vars: Locals)
    returns (more: seq<EditSection>, v: Locals, go: bool)
    requires Distinct(sections)
    modifies sections
    ensures fresh(more) && Distinct(sections + more)
    ensures v.With(Values(sections + more), !go) == Step(vars.With(old(Values(sections)), false), span)
  {
    v := vars.(lineNo := vars.lineNo + 1);
    ghost var st := vars.With(Values(sections), false);
    if !v.seen && span.look.blank {
      more, v, go := [], v.(parsedEnd := span.end), true;
      assert sections + more == sections;
    } else {
      v := v.(seen := true);
      StepReads(st, span);
      assert v.With(Values(sections), false) == st.(lineNo := st.lineNo + 1, seen := true);
      more, v, go := ReadContent(sections, span, v);
    }
  }

  lemma RunStep(spans: seq<Span>, i: nat)
    requires i < |spans|
    ensures Run(spans[..i + 1]) == Step(Run(spans[..i]), spans[i])
  {
    assert spans[..i + 1][..i] == spans[..i];
  }

  /** The run is over when a line stops it. */
  lemma StopEnds(spans: seq<Span>, k: nat)
    requires k <= |spans| && Run(spans[..k]).stopped
    ensures Run(spans) == Run(spans[..k])
  {
    RunExtends(spans[..k], spans[k..]);
    assert spans[..k] + spans[k..] == spans;
  }

  method ScanSpans(spans: seq<Span>) returns (result: Outcome)
    ensures result == Result(Run(spans))
  {
    var sections: seq<EditSection> := [];
    var v := Locals(0, 0, false, false, false, false);
    var i, go := 0, true;
    while go && i < |spans|
      invariant i <= |spans| && fresh(sections) && Distinct(sections)
      invariant v.With(Values(sections), !go) == if go then Run(spans[..i]) else Run(spans)
    {
      RunStep(spans, i);
      var more;
      more, v, go := ReadSpan(sections, spans[i], v);
      sections := sections + more;
      if !go {
        StopEnds(spans, i + 1);
      }
      i := i + 1;
    }
    assert spans[..|spans|] == spans;
    result := Result(v.With(Values(sections), !go));
  }

  /** The parser; `legacy` is the parser of the older format. */
  method ParseEditBoundary(text: string, legacy: string -> Outcome) returns (result: Outcome)
    ensures result == ParseEdit(text, legacy)
  {
    var spans := LineSpans(LookAt, text);
    result := ScanSpans(spans);
    if result.sections == [] && LEGACY <= TrimLeft(text) {
      result := legacy(text);
    }
  }
}
