/** Pairing the tool calls of session files with their results, up to a limit. */
module ToolIO {
  import opened Wrappers

  /** `data` stands for what is carried along: arguments, thinking, texts, times. */
  datatype ToolCall = ToolCall(id: string, name: string, data: string)

  datatype ToolResult = ToolResult(id: string, name: string, data: string)

  datatype Invocation = Invocation(call: ToolCall, result: Option<ToolResult>)

  /** A call in the content of a message; name or id may be missing or no string. */
  datatype Item = Item(id: Option<string>, name: Option<string>, data: string)

  datatype Entry = Assistant(content: seq<Item>) | Reply(id: Option<string>, name: Option<string>, data: string) | Other

  datatype Mode = Calls | Events

  datatype Config = Config(wanted: set<string>, includeUnresolved: bool, mode: Mode, maxItems: int)

  function Weight(mode: Mode, v: Invocation): nat {
    if mode.Calls? then 1 else if v.result.Some? then 2 else 1
  }

  // ---------------------------------------------------------------------------------------------
  // The calls of a file that wait for a result, in the order of a dictionary

  predicate Waits(pending: seq<ToolCall>, id: string) {
    exists c | c in pending :: c.id == id
  }

  /** A known id keeps its place. */
  function Put(pending: seq<ToolCall>, c: ToolCall): seq<ToolCall> {
    if pending == [] then [c]
    else if pending[0].id == c.id then [c] + pending[1..]
    else [pending[0]] + Put(pending[1..], c)
  }

  function Find(pending: seq<ToolCall>, id: string): (c: ToolCall)
    requires Waits(pending, id)
    ensures c in pending && c.id == id
  {
    if pending[0].id == id then pending[0]
    else
      assert Waits(pending[1..], id);
      Find(pending[1..], id)
  }

  function Remove(pending: seq<ToolCall>, id: string): seq<ToolCall> {
    if pending == [] then [] else if pending[0].id == id then pending[1..] else [pending[0]] + Remove(pending[1..], id)
  }

  // ---------------------------------------------------------------------------------------------
  // The events of a file, and what they yield

  datatype Event = Called(call: ToolCall) | Answered(result: ToolResult)

  predicate Counts(wanted: set<string>, id: Option<string>, name: Option<string>) {
    id.Some? && name.Some? && name.value in wanted
  }

  function ItemEvents(wanted: set<string>, items: seq<Item>): seq<Event> {
    if items == [] then []
    else
      var n := |items| - 1;
      ItemEvents(wanted, items[..n])
      + if Counts(wanted, items[n].id, items[n].name)
        then [Called(ToolCall(items[n].id.value, items[n].name.value, items[n].data))] else []
  }

  function EntryEvents(wanted: set<string>, e: Entry): seq<Event> {
    match e
    case Assistant(content) => ItemEvents(wanted, content)
    case Reply(id, name, data) =>
      if Counts(wanted, id, name) then [Answered(ToolResult(id.value, name.value, data))] else []
    case Other => []
  }

  function FileEvents(wanted: set<string>, entries: seq<Entry>): seq<Event> {
    if entries == [] then []
    else FileEvents(wanted, entries[..|entries| - 1]) + EntryEvents(wanted, entries[|entries| - 1])
  }

  datatype State = State(pending: seq<ToolCall>, out: seq<Invocation>)

  const START := State([], [])

  function Step(st: State, e: Event): State {
    match e
    case Called(c) => st.(pending := Put(st.pending, c))
    case Answered(r) =>
      if Waits(st.pending, r.id) then
        State(Remove(st.pending, r.id), st.out + [Invocation(Find(st.pending, r.id), Some(r))])
      else st
  }

  function Run(st: State, events: seq<Event>): State {
    if events == [] then st else Step(Run(st, events[..|events| - 1]), events[|events| - 1])
  }

  function Unresolved(pending: seq<ToolCall>): (out: seq<Invocation>)
    ensures |out| == |pending| && forall i | 0 <= i < |out| :: out[i] == Invocation(pending[i], None)
  {
    if pending == [] then []
    else Unresolved(pending[..|pending| - 1]) + [Invocation(pending[|pending| - 1], None)]
  }

  /** All that a file yields when no limit ends it. */
  function FileYield(c: Config, entries: seq<Entry>): seq<Invocation> {
    var st := Run(START, FileEvents(c.wanted, entries));
    st.out + if c.includeUnresolved then Unresolved(st.pending) else []
  }

  function Stream(c: Config, files: seq<seq<Entry>>): seq<Invocation> {
    if files == [] then [] else Stream(c, files[..|files| - 1]) + FileYield(c, files[|files| - 1])
  }

  // ---------------------------------------------------------------------------------------------
  // The limit

  function TotalWeight(mode: Mode, vs: seq<Invocation>): nat {
    if vs == [] then 0 else TotalWeight(mode, vs[..|vs| - 1]) + Weight(mode, vs[|vs| - 1])
  }

  /** The limit is reached by the last of these, if by any. */
  predicate Full(c: Config, vs: seq<Invocation>) {
    vs != [] && TotalWeight(c.mode, vs) >= c.maxItems
  }

  /** What is yielded of a stream: everything up to the item that reaches the limit. */
  function Limited(c: Config, stream: seq<Invocation>): seq<Invocation> {
    if stream == [] then []
    else
      var n := |stream| - 1;
      var before := Limited(c, stream[..n]);
      if Full(c, before) then before else before + [stream[n]]
  }

  lemma {:induction false} LimitedIsWhole(c: Config, stream: seq<Invocation>)
    ensures Limited(c, stream) <= stream && (stream != [] ==> Limited(c, stream) != [])
    ensures !Full(c, Limited(c, stream)) ==> Limited(c, stream) == stream
  {
    if stream != [] {
      var n := |stream| - 1;
      LimitedIsWhole(c, stream[..n]);
      LimitedStep(c, stream, Limited(c, stream[..n]), Limited(c, stream));
    }
  }

  lemma LimitedStep(c: Config, stream: seq<Invocation>, before: seq<Invocation>, vs: seq<Invocation>)
    requires stream != []
    requires before <= stream[..|stream| - 1] && (!Full(c, before) ==> before == stream[..|stream| - 1])
    requires vs == if Full(c, before) then before else before + [stream[|stream| - 1]]
    ensures vs <= stream && vs != [] && (!Full(c, vs) ==> vs == stream)
  {
    assert stream == stream[..|stream| - 1] + [stream[|stream| - 1]];
  }

  lemma {:induction false} LimitedInTime(c: Config, stream: seq<Invocation>)
    requires Limited(c, stream) != []
    ensures !Full(c, Limited(c, stream)[..|Limited(c, stream)| - 1])
  {
    var before := Limited(c, stream[..|stream| - 1]);
    if Full(c, before) {
      LimitedInTime(c, stream[..|stream| - 1]);
    } else {
      assert Limited(c, stream)[..|before|] == before;
    }
  }

  /** The yielded weight passes the limit by at most one, in `calls` mode not at all; nothing is left
      out below the limit. A limit below one lets exactly one item through. */
  lemma {:induction false} WeightBound(c: Config, stream: seq<Invocation>)
    ensures var vs := Limited(c, stream);
            && vs <= stream && (vs == stream || TotalWeight(c.mode, vs) >= c.maxItems)
            && (c.maxItems >= 1 ==> TotalWeight(c.mode, vs) <= c.maxItems + (if c.mode.Calls? then 0 else 1))
            && (c.maxItems < 1 && stream != [] ==> |vs| == 1)
  {
    LimitedIsWhole(c, stream);
    var vs := Limited(c, stream);
    if vs != [] {
      LimitedInTime(c, stream);
    }
    if |vs| == 1 {
      assert vs[..0] == [];
    }
  }

  lemma {:induction false} LimitedConcat(c: Config, a: seq<Invocation>, b: seq<Invocation>)
    requires Full(c, Limited(c, a))
    ensures Limited(c, a + b) == Limited(c, a)
  {
    LimitedIsWhole(c, a);
    if b == [] {
      assert a + b == a;
    } else {
      assert (a + b)[..|a + b| - 1] == a + b[..|b| - 1];
      LimitedConcat(c, a, b[..|b| - 1]);
    }
  }

  /** The results among the items. */
  function Results(vs: seq<Invocation>): nat {
    if vs == [] then 0 else Results(vs[..|vs| - 1]) + if vs[|vs| - 1].result == None then 0 else 1
  }

  lemma {:induction false} WeightIs(mode: Mode, vs: seq<Invocation>)
    ensures TotalWeight(mode, vs) == |vs| + if mode == Events then Results(vs) else 0
  {
    if vs != [] {
      WeightIs(mode, vs[..|vs| - 1]);
    }
  }

  /** A limit of at least one cuts the stream off at that number of calls, or, counting events, of calls and
      results together; a pair that starts below the limit may end one above it. */
  lemma LimitIs(c: Config, stream: seq<Invocation>)
    requires c.maxItems >= 1
    ensures var vs := Limited(c, stream);
            && vs <= stream
            && (c.mode == Calls ==> |vs| == if |stream| <= c.maxItems then |stream| else c.maxItems)
            && (c.mode == Events ==> |vs| + Results(vs) <= c.maxItems + 1)
            && (c.mode == Events && vs != stream ==> |vs| + Results(vs) >= c.maxItems)
  {
    WeightBound(c, stream);
    WeightIs(c.mode, Limited(c, stream));
  }

  // ---------------------------------------------------------------------------------------------
  // The events of a file

  /** The item of a message is this call, and the call is wanted. */
  predicate IsCall(wanted: set<string>, item: Item, call: ToolCall) {
    item.id == Some(call.id) && item.name == Some(call.name) && item.data == call.data && call.name in wanted
  }

  predicate IsReply(wanted: set<string>, e: Entry, r: ToolResult) {
    e.Reply? && e.id == Some(r.id) && e.name == Some(r.name) && e.data == r.data && r.name in wanted
  }

  predicate HasCall(wanted: set<string>, e: Entry, call: ToolCall) {
    e.Assistant? && exists item | item in e.content :: IsCall(wanted, item, call)
  }

  lemma LastItem(wanted: set<string>, item: Item, e: Event)
    ensures e.Called? && IsCall(wanted, item, e.call)
            <==> Counts(wanted, item.id, item.name) && e == Called(ToolCall(item.id.value, item.name.value, item.data))
  {
  }

  lemma {:induction false} ItemEventsIs(wanted: set<string>, items: seq<Item>, e: Event)
    ensures e in ItemEvents(wanted, items) <==> e.Called? && exists item | item in items :: IsCall(wanted, item, e.call)
  {
    if items != [] {
      var n := |items| - 1;
      ItemEventsIs(wanted, items[..n], e);
      LastItem(wanted, items[n], e);
      assert forall item :: item in items <==> item in items[..n] || item == items[n];
    }
  }

  /** The entry makes the event. */
  predicate Says(wanted: set<string>, entry: Entry, e: Event) {
    if e.Called? then HasCall(wanted, entry, e.call) else IsReply(wanted, entry, e.result)
  }

  lemma AnyEntrySnoc(wanted: set<string>, entries: seq<Entry>, e: Event)
    requires entries != []
    ensures (exists entry | entry in entries :: Says(wanted, entry, e))
            <==> (exists entry | entry in entries[..|entries| - 1] :: Says(wanted, entry, e))
                 || Says(wanted, entries[|entries| - 1], e)
  {
    assert forall entry :: entry in entries <==> entry in entries[..|entries| - 1] || entry == entries[|entries| - 1];
  }

  lemma EntryEventsIs(wanted: set<string>, entry: Entry, e: Event)
    ensures e in EntryEvents(wanted, entry)
            <==> Says(wanted, entry, e)
  {
    if entry.Assistant? {
      ItemEventsIs(wanted, entry.content, e);
    }
  }

  /** The events of a file are the wanted calls in its messages and the wanted results: those with a name
      that is wanted and with an id. */
  lemma {:induction false} FileEventsIs(wanted: set<string>, entries: seq<Entry>, e: Event)
    ensures e in FileEvents(wanted, entries)
            <==> exists entry | entry in entries :: Says(wanted, entry, e)
  {
    if entries != [] {
      var n := |entries| - 1;
      FileEventsIs(wanted, entries[..n], e);
      EntryEventsIs(wanted, entries[n], e);
      AnyEntrySnoc(wanted, entries, e);
    }
  }

  ghost predicate IsReplaced(next: seq<ToolCall>, pending: seq<ToolCall>, c: ToolCall) {
    exists i: nat :: i < |pending| && pending[i].id == c.id && next == pending[i := c]
  }

  lemma ReplacedBehind(pending: seq<ToolCall>, next: seq<ToolCall>, c: ToolCall)
    requires pending != [] && IsReplaced(next, pending[1..], c)
    ensures IsReplaced([pending[0]] + next, pending, c)
  {
    var i: nat :| i < |pending[1..]| && pending[1..][i].id == c.id && next == pending[1..][i := c];
    assert pending[i + 1].id == c.id && [pending[0]] + next == pending[i + 1 := c];
  }

  lemma WaitsFirst(pending: seq<ToolCall>, id: string)
    requires pending != []
    ensures Waits(pending, id) <==> pending[0].id == id || Waits(pending[1..], id)
  {
    assert forall c :: c in pending <==> c == pending[0] || c in pending[1..];
  }

  /** A waiting call is replaced where it is, and a new one comes last. */
  lemma {:induction false} PutIs(pending: seq<ToolCall>, c: ToolCall)
    ensures !Waits(pending, c.id) ==> Put(pending, c) == pending + [c]
    ensures Waits(pending, c.id) ==> IsReplaced(Put(pending, c), pending, c)
  {
    if pending != [] {
      WaitsFirst(pending, c.id);
      if pending[0].id == c.id {
        assert Put(pending, c) == pending[0 := c];
      } else {
        PutIs(pending[1..], c);
        if Waits(pending[1..], c.id) {
          ReplacedBehind(pending, Put(pending[1..], c), c);
        }
      }
    }
  }

  lemma RemovedBehind(pending: seq<ToolCall>, i: nat)
    requires pending != [] && i < |pending| - 1
    ensures pending[1..][i] == pending[i + 1]
    ensures [pending[0]] + (pending[1..][..i] + pending[1..][i + 1..]) == pending[..i + 1] + pending[i + 2..]
  {
  }

  lemma WithoutBehind(pending: seq<ToolCall>, rest: seq<ToolCall>, id: string)
    requires pending != [] && IsWithout(rest, pending[1..], id)
    ensures IsWithout([pending[0]] + rest, pending, id)
  {
    var i: nat :| i < |pending[1..]| && pending[1..][i].id == id && rest == pending[1..][..i] + pending[1..][i + 1..];
    RemovedBehind(pending, i);
    assert pending[i + 1].id == id;
  }

  ghost predicate IsWithout(rest: seq<ToolCall>, pending: seq<ToolCall>, id: string) {
    exists i: nat :: i < |pending| && pending[i].id == id && rest == pending[..i] + pending[i + 1..]
  }

  /** An answered call is taken out, and the others stay in order. */
  lemma {:induction false} RemoveIs(pending: seq<ToolCall>, id: string)
    ensures !Waits(pending, id) ==> Remove(pending, id) == pending
    ensures Waits(pending, id) ==> IsWithout(Remove(pending, id), pending, id)
  {
    if pending != [] {
      WaitsFirst(pending, id);
      if pending[0].id == id {
        assert pending[..0] + pending[0 + 1..] == pending[1..];
      } else {
        RemoveIs(pending[1..], id);
        if Waits(pending[1..], id) {
          WithoutBehind(pending, Remove(pending[1..], id), id);
        }
      }
    }
  }

  // ---------------------------------------------------------------------------------------------
  // Each call with its result

  function IdOf(e: Event): string {
    if e.Called? then e.call.id else e.result.id
  }

  /** The first event with the id, be it a call or a result. */
  function NextWith(events: seq<Event>, id: string): Option<Event> {
    if events == [] then None else if IdOf(events[0]) == id then Some(events[0]) else NextWith(events[1..], id)
  }

  lemma {:induction false} NextWithSnoc(events: seq<Event>, e: Event, id: string)
    ensures NextWith(events + [e], id)
            == if NextWith(events, id).Some? then NextWith(events, id) else if IdOf(e) == id then Some(e) else None
  {
    if events == [] {
      assert [] + [e] == [e];
    } else {
      assert (events + [e])[1..] == events[1..] + [e];
      NextWithSnoc(events[1..], e, id);
    }
  }

  /** The call in front is answered by the next event with its id, if that is a result; it waits if
      there is none; a second call with its id takes its place. */
  function Outcome(c: ToolCall, behind: seq<Event>): Option<Invocation> {
    match NextWith(behind, c.id)
    case None => Some(Invocation(c, None))
    case Some(Answered(r)) => Some(Invocation(c, Some(r)))
    case Some(Called(_)) => None
  }

  /** How many calls of the file come to this invocation. */
  function Due(events: seq<Event>, v: Invocation): nat {
    if events == [] then 0
    else
      (if events[0].Called? && Outcome(events[0].call, events[1..]) == Some(v) then 1 else 0) + Due(events[1..], v)
  }

  lemma OutcomeSnoc(c: ToolCall, behind: seq<Event>, e: Event)
    ensures Outcome(c, behind + [e])
            == if Outcome(c, behind) == Some(Invocation(c, None)) && IdOf(e) == c.id then
                 if e.Called? then None else Some(Invocation(c, Some(e.result)))
               else Outcome(c, behind)
  {
    NextWithSnoc(behind, e, c.id);
  }

  /** What one more event changes: a result answers the waiting call with its id, a call takes the place
      of a waiting one. */
  function DueAfter(events: seq<Event>, e: Event, v: Invocation): nat {
    if v.result.None? then
      if IdOf(e) != v.call.id then Due(events, v) else if e == Called(v.call) then 1 else 0
    else
      Due(events, v)
      + if e == Answered(v.result.value) && IdOf(e) == v.call.id then Due(events, Invocation(v.call, None)) else 0
  }

  lemma {:induction false} DueSnoc(events: seq<Event>, e: Event, v: Invocation)
    ensures Due(events + [e], v) == DueAfter(events, e, v)
  {
    if events == [] {
      assert [] + [e] == [e] && [e][1..] == [];
    } else {
      assert (events + [e])[1..] == events[1..] + [e];
      DueSnoc(events[1..], e, v);
      if events[0].Called? {
        OutcomeSnoc(events[0].call, events[1..], e);
      }
    }
  }

  predicate DistinctIds(calls: seq<ToolCall>) {
    forall i, j | 0 <= i < j < |calls| :: calls[i].id != calls[j].id
  }

  lemma HeadDiffers(pending: seq<ToolCall>)
    requires DistinctIds(pending) && pending != []
    ensures forall c | c in pending[1..] :: c.id != pending[0].id
  {
    forall c | c in pending[1..] ensures c.id != pending[0].id {
      var k :| 0 <= k < |pending[1..]| && pending[1..][k] == c;
      assert pending[k + 1] == c;
    }
  }

  lemma ConsDistinct(c: ToolCall, rest: seq<ToolCall>)
    requires DistinctIds(rest) && forall d | d in rest :: d.id != c.id
    ensures DistinctIds([c] + rest)
  {
    forall k | 0 <= k < |rest| ensures rest[k].id != c.id {
      assert rest[k] in rest;
    }
  }

  lemma {:induction false} RemoveOne(pending: seq<ToolCall>, id: string)
    requires DistinctIds(pending)
    ensures forall c :: c in Remove(pending, id) <==> c in pending && c.id != id
    ensures DistinctIds(Remove(pending, id))
  {
    if pending != [] {
      assert pending == [pending[0]] + pending[1..];
      HeadDiffers(pending);
      RemoveOne(pending[1..], id);
      if pending[0].id != id {
        ConsDistinct(pending[0], Remove(pending[1..], id));
      }
    }
  }

  lemma {:induction false} PutOne(pending: seq<ToolCall>, c: ToolCall)
    requires DistinctIds(pending)
    ensures forall d :: d in Put(pending, c) <==> d == c || (d in pending && d.id != c.id)
    ensures DistinctIds(Put(pending, c))
  {
    if pending != [] {
      assert pending == [pending[0]] + pending[1..];
      HeadDiffers(pending);
      PutOne(pending[1..], c);
      if pending[0].id == c.id {
        ConsDistinct(c, pending[1..]);
      } else {
        ConsDistinct(pending[0], Put(pending[1..], c));
      }
    }
  }

  // ---------------------------------------------------------------------------------------------

  /** The waiting calls are those without an answer, and what has been yielded are the answered ones,
      each as often as it is due. */
  ghost predicate Inv(events: seq<Event>, st: State) {
    && DistinctIds(st.pending)
    && (forall c :: Due(events, Invocation(c, None)) == if c in st.pending then 1 else 0)
    && (forall v :: multiset(st.out)[v] == if v.result.Some? then Due(events, v) else 0)
  }

  lemma CalledKeeps(events: seq<Event>, st: State, c: ToolCall)
    requires Inv(events, st)
    ensures Inv(events + [Called(c)], Step(st, Called(c)))
  {
    PutOne(st.pending, c);
    forall v ensures Due(events + [Called(c)], v) == DueAfter(events, Called(c), v) {
      DueSnoc(events, Called(c), v);
    }
  }

  lemma AnsweredKeeps(events: seq<Event>, st: State, r: ToolResult)
    requires Inv(events, st) && Waits(st.pending, r.id)
    ensures Inv(events + [Answered(r)], Step(st, Answered(r)))
  {
    RemoveOne(st.pending, r.id);
    var c := Find(st.pending, r.id);
    FindOnly(st.pending, r.id);
    forall v ensures Due(events + [Answered(r)], v) == DueAfter(events, Answered(r), v) {
      DueSnoc(events, Answered(r), v);
    }
  }

  lemma FindOnly(pending: seq<ToolCall>, id: string)
    requires DistinctIds(pending) && Waits(pending, id)
    ensures forall c | c in pending && c.id == id :: c == Find(pending, id)
  {
    var i :| 0 <= i < |pending| && pending[i] == Find(pending, id);
    forall c | c in pending && c.id == id ensures c == Find(pending, id) {
      var j :| 0 <= j < |pending| && pending[j] == c;
    }
  }

  lemma IgnoredKeeps(events: seq<Event>, st: State, r: ToolResult)
    requires Inv(events, st) && !Waits(st.pending, r.id)
    ensures Inv(events + [Answered(r)], st)
  {
    forall v ensures Due(events + [Answered(r)], v) == DueAfter(events, Answered(r), v) {
      DueSnoc(events, Answered(r), v);
    }
    assert forall c :: c in st.pending ==> c.id != r.id;
  }

  lemma {:induction false} RunPairs(events: seq<Event>)
    ensures Inv(events, Run(START, events))
  {
    if events != [] {
      var n := |events| - 1;
      var before, e := events[..n], events[n];
      RunPairs(before);
      assert events == before + [e];
      var st := Run(START, before);
      match e
      case Called(c) => CalledKeeps(before, st, c);
      case Answered(r) =>
        if Waits(st.pending, r.id) {
          AnsweredKeeps(before, st, r);
        } else {
          IgnoredKeeps(before, st, r);
        }
    }
  }

  /** An invocation is due at most as often as its call is made. */
  lemma {:induction false} DueAtMostCalled(events: seq<Event>, v: Invocation)
    ensures Due(events, v) <= multiset(events)[Called(v.call)]
  {
    if events != [] {
      DueAtMostCalled(events[1..], v);
      assert events == [events[0]] + events[1..];
    }
  }

  lemma {:induction false} CountUnresolved(pending: seq<ToolCall>, v: Invocation)
    requires DistinctIds(pending)
    ensures multiset(Unresolved(pending))[v] == if v.result.None? && v.call in pending then 1 else 0
  {
    if pending != [] {
      var n := |pending| - 1;
      CountUnresolved(pending[..n], v);
      assert pending == pending[..n] + [pending[n]];
      assert v.call in pending[..n] ==> v.call.id != pending[n].id;
    }
  }

  /** Does the configuration ask for such an invocation? */
  predicate Asked(c: Config, v: Invocation) { v.result.Some? || c.includeUnresolved }

  /** A file yields each invocation exactly as often as it is due. */
  lemma FileIsDue(c: Config, entries: seq<Entry>, v: Invocation)
    ensures multiset(FileYield(c, entries))[v] == if Asked(c, v) then Due(FileEvents(c.wanted, entries), v) else 0
  {
    var events := FileEvents(c.wanted, entries);
    var st := Run(START, events);
    RunPairs(events);
    CountUnresolved(st.pending, v);
    assert v.result.None? ==> v == Invocation(v.call, None);
    assert FileYield(c, entries) == st.out + (if c.includeUnresolved then Unresolved(st.pending) else []);
  }

  /** How often the invocation is due in all files. */
  function DueIn(c: Config, files: seq<seq<Entry>>, v: Invocation): nat {
    if files == [] then 0
    else
      var n := |files| - 1;
      DueIn(c, files[..n], v) + if Asked(c, v) then Due(FileEvents(c.wanted, files[n]), v) else 0
  }

  /** The unlimited stream holds each invocation as often as it is due, and nothing else. */
  lemma {:induction false} StreamIsDue(c: Config, files: seq<seq<Entry>>, v: Invocation)
    ensures multiset(Stream(c, files))[v] == DueIn(c, files, v)
  {
    if files != [] {
      var n := |files| - 1;
      StreamIsDue(c, files[..n], v);
      FileIsDue(c, files[n], v);
    }
  }

  // ---------------------------------------------------------------------------------------------
  // The program

  lemma {:induction false} RunConcat(st: State, a: seq<Event>, b: seq<Event>)
    ensures Run(st, a + b) == Run(Run(st, a), b)
  {
    if b == [] {
      assert a + b == a;
    } else {
      assert (a + b)[..|a + b| - 1] == a + b[..|b| - 1];
      RunConcat(st, a, b[..|b| - 1]);
    }
  }

  lemma {:induction false} OutGrows(st: State, events: seq<Event>)
    ensures st.out <= Run(st, events).out
  {
    if events != [] {
      OutGrows(st, events[..|events| - 1]);
    }
  }

  lemma {:induction false} ReadsPrefix(c: Config, entries: seq<Entry>, i: nat)
    requires i <= |entries|
    ensures Run(START, FileEvents(c.wanted, entries[..i])).out <= Run(START, FileEvents(c.wanted, entries)).out
  {
    if i == |entries| {
      assert entries[..i] == entries;
    } else {
      var n := |entries| - 1;
      assert entries[..n][..i] == entries[..i];
      ReadsPrefix(c, entries[..n], i);
      RunConcat(START, FileEvents(c.wanted, entries[..n]), EntryEvents(c.wanted, entries[n]));
      OutGrows(Run(START, FileEvents(c.wanted, entries[..n])), EntryEvents(c.wanted, entries[n]));
    }
  }

  /** The yielded items so far: all of a stream that has not reached the limit. */
  ghost predicate Below(c: Config, out: seq<Invocation>, seen: nat) {
    seen == TotalWeight(c.mode, out) && Limited(c, out) == out && !Full(c, out)
  }

  /** One more item is yielded; the limit may end the stream. */
  lemma YieldOne(c: Config, out: seq<Invocation>, seen: nat, v: Invocation)
    requires Below(c, out, seen)
    ensures var more, weight := out + [v], seen + Weight(c.mode, v);
            && Limited(c, more) == more && weight == TotalWeight(c.mode, more)
            && (weight >= c.maxItems <==> Full(c, more))
  {
    assert (out + [v])[..|out|] == out;
  }

  method AddCalls(c: Config, content: seq<Item>, waiting: seq<ToolCall>, ghost out: seq<Invocation>)
    returns (pending: seq<ToolCall>)
    ensures State(pending, out) == Run(State(waiting, out), ItemEvents(c.wanted, content))
  {
    pending := waiting;
    for i := 0 to |content|
      invariant State(pending, out) == Run(State(waiting, out), ItemEvents(c.wanted, content[..i]))
    {
      var item := content[i];
      assert content[..i + 1][..i] == content[..i];
      if Counts(c.wanted, item.id, item.name) {
        ghost var e := Called(ToolCall(item.id.value, item.name.value, item.data));
        assert (ItemEvents(c.wanted, content[..i]) + [e])[..|ItemEvents(c.wanted, content[..i])|]
            == ItemEvents(c.wanted, content[..i]);
        pending := Put(pending, ToolCall(item.id.value, item.name.value, item.data));
      } else {
        assert ItemEvents(c.wanted, content[..i + 1]) == ItemEvents(c.wanted, content[..i]);
      }
    }
    assert content[..|content|] == content;
  }

  /** One entry of a file: `found` is the completed invocation, if any. */
  method ReadEntry(c: Config, e: Entry, waiting: seq<ToolCall>, ghost out: seq<Invocation>)
    returns (pending: seq<ToolCall>, found: Option<Invocation>)
    ensures State(pending, out + (if found.Some? then [found.value] else []))
            == Run(State(waiting, out), EntryEvents(c.wanted, e))
  {
    pending, found := waiting, None;
    assert out + [] == out;
    match e
    case Assistant(content) =>
      pending := AddCalls(c, content, waiting, out);
    case Reply(id, name, data) =>
      if Counts(c.wanted, id, name) {
        var r := ToolResult(id.value, name.value, data);
        assert [Answered(r)][..0] == [];
        assert Run(State(waiting, out), [Answered(r)]) == Step(State(waiting, out), Answered(r));
        if Waits(pending, r.id) {
          found := Some(Invocation(Find(pending, r.id), Some(r)));
          pending := Remove(pending, r.id);
        }
      }
    case Other =>
  }

  function StateAt(c: Config, entries: seq<Entry>, i: nat): State
    requires i <= |entries|
  {
    Run(START, FileEvents(c.wanted, entries[..i]))
  }

  lemma NextState(c: Config, entries: seq<Entry>, i: nat)
    requires i < |entries|
    ensures StateAt(c, entries, i + 1) == Run(StateAt(c, entries, i), EntryEvents(c.wanted, entries[i]))
  {
    assert entries[..i + 1][..i] == entries[..i];
    RunConcat(START, FileEvents(c.wanted, entries[..i]), EntryEvents(c.wanted, entries[i]));
  }

  lemma Continue(before: seq<Invocation>, a: seq<Invocation>, all: seq<Invocation>)
    requires a <= all
    ensures before + all == (before + a) + all[|a|..]
  {
    assert all == a + all[|a|..];
  }

  lemma StopsHere(c: Config, before: seq<Invocation>, a: seq<Invocation>, all: seq<Invocation>)
    requires a <= all && Full(c, before + a) && Limited(c, before + a) == before + a
    ensures Limited(c, before + all) == before + a
  {
    LimitedConcat(c, before + a, all[|a|..]);
    Continue(before, a, all);
  }

  lemma FileStopsHere(c: Config, entries: seq<Entry>, i: nat, before: seq<Invocation>)
    requires i <= |entries|
    requires var out := before + StateAt(c, entries, i).out; Full(c, out) && Limited(c, out) == out
    ensures Limited(c, before + FileYield(c, entries)) == before + StateAt(c, entries, i).out
  {
    ReadsPrefix(c, entries, i);
    StopsHere(c, before, StateAt(c, entries, i).out, FileYield(c, entries));
  }

  /** The entry `i` completes the invocation `v`. */
  lemma YieldInFile(c: Config, entries: seq<Entry>, i: nat, before: seq<Invocation>,
                    out: seq<Invocation>, seen: nat, v: Invocation)
    requires i < |entries| && Below(c, out, seen) && out == before + StateAt(c, entries, i).out
    requires StateAt(c, entries, i + 1).out == StateAt(c, entries, i).out + [v]
    ensures out + [v] == before + StateAt(c, entries, i + 1).out
    ensures seen + Weight(c.mode, v) < c.maxItems ==> Below(c, out + [v], seen + Weight(c.mode, v))
    ensures seen + Weight(c.mode, v) >= c.maxItems ==>
              Full(c, out + [v]) && out + [v] == Limited(c, before + FileYield(c, entries))
  {
    YieldOne(c, out, seen, v);
    assert before + (StateAt(c, entries, i).out + [v]) == out + [v];
    if seen + Weight(c.mode, v) >= c.maxItems {
      FileStopsHere(c, entries, i + 1, before);
    }
  }

  /** The entries of a file; `stop` when the limit is reached. */
  method ReadEntries(c: Config, entries: seq<Entry>, before: seq<Invocation>, weight: nat)
    returns (out: seq<Invocation>, seen: nat, pending: seq<ToolCall>, stop: bool)
    requires Below(c, before, weight)
    ensures stop ==> Full(c, out) && out == Limited(c, before + FileYield(c, entries))
    ensures !stop ==> Below(c, out, seen) && out == before + StateAt(c, entries, |entries|).out
                      && pending == StateAt(c, entries, |entries|).pending
  {
    out, seen, pending, stop := before, weight, [], false;
    assert before + [] == before;
    for i := 0 to |entries|
      invariant Below(c, out, seen) && out == before + StateAt(c, entries, i).out
      invariant pending == StateAt(c, entries, i).pending
    {
      NextState(c, entries, i);
      ghost var done := StateAt(c, entries, i).out;
      var found;
      pending, found := ReadEntry(c, entries[i], pending, done);
      if found.Some? {
        YieldInFile(c, entries, i, before, out, seen, found.value);
        out, seen := out + [found.value], seen + Weight(c.mode, found.value);
        if seen >= c.maxItems {
          return out, seen, pending, true;
        }
      } else {
        assert done + [] == done;
      }
    }
  }

  /** Behind the entries, only the calls still waiting may be yielded. */
  lemma AtEnd(c: Config, entries: seq<Entry>, before: seq<Invocation>)
    ensures var st := StateAt(c, entries, |entries|);
            before + FileYield(c, entries)
            == (before + st.out) + (if c.includeUnresolved then Unresolved(st.pending) else [])
  {
    assert entries[..|entries|] == entries;
  }

  /** One file; `before` is what the files in front of it yielded. */
  method ReadFile(c: Config, entries: seq<Entry>, before: seq<Invocation>, weight: nat)
    returns (out: seq<Invocation>, seen: nat, stop: bool)
    requires Below(c, before, weight)
    ensures out == Limited(c, before + FileYield(c, entries)) && stop == Full(c, out)
    ensures !stop ==> Below(c, out, seen)
  {
    var pending;
    out, seen, pending, stop := ReadEntries(c, entries, before, weight);
    if stop {
      return;
    }
    AtEnd(c, entries, before);
    if c.includeUnresolved {
      out, seen, stop := YieldUnresolved(c, pending, out, seen);
    } else {
      assert out + [] == out;
    }
  }

  method YieldUnresolved(c: Config, pending: seq<ToolCall>, before: seq<Invocation>, weight: nat)
    returns (out: seq<Invocation>, seen: nat, stop: bool)
    requires Below(c, before, weight)
    ensures out == Limited(c, before + Unresolved(pending)) && stop == Full(c, out)
    ensures !stop ==> Below(c, out, seen)
  {
    out, seen, stop := before, weight, false;
    assert before + [] == before;
    for i := 0 to |pending|
      invariant Below(c, out, seen) && out == before + Unresolved(pending)[..i]
    {
      var v := Invocation(pending[i], None);
      YieldOne(c, out, seen, v);
      out, seen := out + [v], seen + Weight(c.mode, v);
      assert Unresolved(pending)[..i + 1] == Unresolved(pending)[..i] + [v];
      assert out == before + Unresolved(pending)[..i + 1];
      if seen >= c.maxItems {
        StopsHere(c, before, Unresolved(pending)[..i + 1], Unresolved(pending));
        return out, seen, true;
      }
    }
    assert Unresolved(pending)[..|pending|] == Unresolved(pending);
  }

  /** The generator. If the limit is not reached, it yields each invocation as often as it is due, and
      nothing else. */
  method IterToolInvocations(c: Config, files: seq<seq<Entry>>) returns (out: seq<Invocation>)
    ensures out == Limited(c, Stream(c, files))
    ensures TotalWeight(c.mode, out) < c.maxItems ==> forall v :: multiset(out)[v] == DueIn(c, files, v)
  {
    out := YieldAll(c, files);
    WeightBound(c, Stream(c, files));
    if TotalWeight(c.mode, out) < c.maxItems {
      forall v ensures multiset(out)[v] == DueIn(c, files, v) {
        StreamIsDue(c, files, v);
      }
    }
  }

  method YieldAll(c: Config, files: seq<seq<Entry>>) returns (out: seq<Invocation>)
    ensures out == Limited(c, Stream(c, files))
  {
    var seen, stop := 0, false;
    out := [];
    for i := 0 to |files|
      invariant Below(c, out, seen) && out == Stream(c, files[..i])
    {
      assert files[..i + 1][..i] == files[..i];
      out, seen, stop := ReadFile(c, files[i], out, seen);
      LimitedIsWhole(c, Stream(c, files[..i + 1]));
      if stop {
        StreamPrefix(c, files, i + 1);
        Rest(Stream(c, files[..i + 1]), Stream(c, files));
        LimitedConcat(c, Stream(c, files[..i + 1]), Stream(c, files)[|Stream(c, files[..i + 1])|..]);
        return;
      }
    }
    assert files[..|files|] == files;
  }

  lemma {:induction false} StreamPrefix(c: Config, files: seq<seq<Entry>>, i: nat)
    requires i <= |files|
    ensures Stream(c, files[..i]) <= Stream(c, files)
  {
    if i == |files| {
      assert files[..i] == files;
    } else {
      var n := |files| - 1;
      assert files[..n][..i] == files[..i];
      StreamPrefix(c, files[..n], i);
      PrefixOfConcat(Stream(c, files[..i]), Stream(c, files[..n]), FileYield(c, files[n]));
    }
  }

  lemma Rest(a: seq<Invocation>, all: seq<Invocation>)
    requires a <= all
    ensures all == a + all[|a|..]
  {
  }

  lemma PrefixOfConcat(a: seq<Invocation>, b: seq<Invocation>, more: seq<Invocation>)
    requires a <= b
    ensures a <= b + more
  {
  }
}
