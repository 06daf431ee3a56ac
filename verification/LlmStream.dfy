/** The two readers of a streamed model answer, streamLLMEndpoint and streamLLMEndpointWithCallbacks of
    ai_helper.go: one returns the text and the tool calls, the other hands them to callbacks. */
module LlmStream {
  import opened Encoding
  import opened Json
  import opened Options
  import opened Ordering
  import opened Text

  datatype Delta = Delta(index: int, name: string, arguments: string)

  datatype Event = Event(usage: Option<seq<Member>>, deltas: seq<Delta>, content: string, finished: bool)

  datatype Slot = Slot(name: string, arguments: string)

  datatype Call = Call(name: string, arguments: seq<Member>)

  datatype Stats = Stats(prompt: int, completion: int, thinking: int)

  // What has been read so far.
  datatype State = State(text: string, slots: map<int, Slot>, calls: seq<Call>, usage: Option<seq<Member>>)

  const START := State("", map[], [], None)

  // ----- from lines to events -----

  function Sub(ms: seq<Member>, key: string): Option<seq<Member>> {
    match Get(ms, key) { case Some(Obj(sub)) => Some(sub) case _ => None }
  }

  function List(ms: seq<Member>, key: string): seq<Value> {
    match Get(ms, key) { case Some(Arr(items)) => items case _ => [] }
  }

  function StrOf(ms: seq<Member>, key: string): string {
    match Get(ms, key) { case Some(Str(s)) => s case _ => "" }
  }

  function FirstChoice(event: seq<Member>): Option<seq<Member>> {
    var choices := List(event, "choices");
    if choices != [] && choices[0].Obj? then Some(choices[0].members) else None
  }

  function ContentText(v: Value): string {
    match v
    case Str(s) => s
    case Arr(items) => PartsText(items)
    case _ => ""
  }

  function PartsText(items: seq<Value>): string {
    if items == [] then ""
    else (match items[0] { case Str(s) => s case Obj(ms) => StrOf(ms, "text") case _ => "" }) + PartsText(items[1..])
  }

  function ContentOf(ms: seq<Member>, key: string): string {
    match Sub(ms, key)
    case None => ""
    case Some(sub) => match Get(sub, "content") { case Some(c) => ContentText(c) case None => "" }
  }

  function DeltaOf(call: seq<Member>): Delta {
    var fn := Sub(call, "function");
    Delta(IntField(call, "index"), if fn.Some? then StrOf(fn.value, "name") else "", if fn.Some? then StrOf(fn.value, "arguments") else "")
  }

  function DeltasOf(items: seq<Value>): seq<Delta> {
    if items == [] then []
    else (if items[0].Obj? then [DeltaOf(items[0].members)] else []) + DeltasOf(items[1..])
  }

  function EventOf(event: seq<Member>): Event {
    match FirstChoice(event)
    case None => Event(Sub(event, "usage"), [], "", false)
    case Some(choice) =>
      var delta := Sub(choice, "delta");
      Event(Sub(event, "usage"),
            if delta.Some? then DeltasOf(List(delta.value, "tool_calls")) else [],
            if ContentOf(choice, "delta") != "" then ContentOf(choice, "delta") else ContentOf(choice, "message"),
            StrOf(choice, "finish_reason") == "tool_calls")
  }

  datatype Line = Skipped | Done | Data(event: Event)

  function ReadLine(raw: string): Line {
    var line := TrimSpace(raw);
    if line == "" || line[0] == ':' || !("data:" <= line) then Skipped
    else
      var data := TrimSpace(line[5..]);
      if data == "" then Skipped
      else if data == "[DONE]" then Done
      else match Parse(data) { case Some(Obj(event)) => Data(EventOf(event)) case _ => Skipped }
  }

  function Events(lines: seq<string>): seq<Event> {
    if lines == [] then []
    else match ReadLine(lines[0])
      case Skipped => Events(lines[1..])
      case Done => []
      case Data(event) => [event] + Events(lines[1..])
  }

  // ----- what the events come to -----

  function AddDelta(slots: map<int, Slot>, d: Delta): map<int, Slot> {
    var slot := if d.index in slots then slots[d.index] else Slot("", "");
    slots[d.index := Slot(if d.name != "" then d.name else slot.name, slot.arguments + d.arguments)]
  }

  function AddDeltas(slots: map<int, Slot>, ds: seq<Delta>): map<int, Slot>
    decreases |ds|
  {
    if ds == [] then slots else AddDeltas(AddDelta(slots, ds[0]), ds[1..])
  }

  // Arguments that are no JSON object count as none.
  function Arguments(raw: string): seq<Member> {
    if raw == "" then []
    else match Parse(raw) { case Some(Obj(ms)) => ms case _ => [] }
  }

  lemma Element(keys: set<int>)
    ensures keys == {} || exists k :: k in keys
  {
    if forall k :: k !in keys {
      assert keys == {};
    }
  }

  ghost function Least(keys: set<int>): (m: int)
    requires keys != {}
    ensures m in keys && forall k :: k in keys ==> m <= k
  {
    Element(keys);
    var x :| x in keys;
    if keys == {x} then x
    else
      assert keys - {x} != {};
      var m := Least(keys - {x});
      assert forall k :: k in keys ==> k == x || k in keys - {x};
      if x < m then x else m
  }

  ghost function Ascending(keys: set<int>): seq<int>
    decreases |keys|
  {
    if keys == {} then [] else [Least(keys)] + Ascending(keys - {Least(keys)})
  }

  function CallsOf(indices: seq<int>, slots: map<int, Slot>): seq<Call>
    requires forall i :: 0 <= i < |indices| ==> indices[i] in slots
  {
    if indices == [] then []
    else [Call(slots[indices[0]].name, Arguments(slots[indices[0]].arguments))] + CallsOf(indices[1..], slots)
  }

  ghost function Flush(slots: map<int, Slot>): seq<Call> {
    AscendingSpec(slots.Keys);
    CallsOf(Ascending(slots.Keys), slots)
  }

  ghost function Apply(s: State, e: Event): State {
    var slots := AddDeltas(s.slots, e.deltas);
    State(s.text + e.content, if e.finished then map[] else slots, if e.finished then s.calls + Flush(slots) else s.calls,
          if e.usage.Some? then e.usage else s.usage)
  }

  ghost function Run(s: State, es: seq<Event>): State
    decreases |es|
  {
    if es == [] then s else Run(Apply(s, es[0]), es[1..])
  }

  ghost function Finish(s: State): State {
    if s.slots == map[] then s else s.(slots := map[], calls := s.calls + Flush(s.slots))
  }

  ghost function ReadAll(content: string): State { Finish(Run(START, Events(Split(content, '\n')))) }

  function StatsOf(usage: Option<seq<Member>>): Stats {
    match usage
    case None => Stats(0, 0, 0)
    case Some(u) =>
      var thinking := IntField(u, "thinking_tokens");
      Stats(IntField(u, "prompt_tokens"), IntField(u, "completion_tokens"),
            if thinking == 0 then IntField(u, "reasoning_tokens") else thinking)
  }

  predicate StrictlyAscending(s: seq<int>) { forall i, j :: 0 <= i < j < |s| ==> s[i] < s[j] }

  lemma {:induction false} AscendingSpec(keys: set<int>)
    ensures StrictlyAscending(Ascending(keys))
    ensures forall k :: k in Ascending(keys) <==> k in keys
    decreases |keys|
  {
    if keys != {} {
      var m := Least(keys);
      var rest := Ascending(keys - {m});
      AscendingSpec(keys - {m});
      assert Ascending(keys) == [m] + rest;
      hide Ascending;
      forall j | 0 <= j < |rest| ensures m < rest[j] {
        assert rest[j] in rest;
      }
    }
  }

  lemma {:induction false} AscendingUnique(s: seq<int>, keys: set<int>)
    requires StrictlyAscending(s) && forall k :: k in s <==> k in keys
    ensures s == Ascending(keys)
    decreases |s|
  {
    if s == [] {
      Element(keys);
    } else {
      assert s[0] in s && s[0] in keys;
      var m := Least(keys);
      assert m in s;
      var at :| 0 <= at < |s| && s[at] == m;
      assert m == s[0];
      forall k ensures k in s[1..] <==> k in keys - {m} {
        if k in s[1..] {
          var i :| 0 <= i < |s[1..]| && s[1..][i] == k;
          assert s[i + 1] == k;
        }
        if k in keys - {m} {
          var i :| 0 <= i < |s| && s[i] == k;
          assert s[1..][i - 1] == k;
        }
      }
      AscendingUnique(s[1..], keys - {m});
    }
  }

  // ----- main results about events -----

  lemma {:induction false} RunConcat(s: State, a: seq<Event>, b: seq<Event>)
    ensures Run(s, a + b) == Run(Run(s, a), b)
    decreases |a|
  {
    hide Apply;
    if a == [] {
      assert a + b == b;
    } else {
      assert (a + b)[1..] == a[1..] + b;
      RunConcat(Apply(s, a[0]), a[1..], b);
    }
  }

  lemma {:induction false} AddDeltasConcat(slots: map<int, Slot>, a: seq<Delta>, b: seq<Delta>)
    ensures AddDeltas(slots, a + b) == AddDeltas(AddDeltas(slots, a), b)
    decreases |a|
  {
    if a == [] {
      assert a + b == b;
    } else {
      assert (a + b)[1..] == a[1..] + b;
      AddDeltasConcat(AddDelta(slots, a[0]), a[1..], b);
    }
  }

  // Splitting the content and the tool-call deltas of an event over two events changes nothing.
  lemma SplitEvent(s: State, before: seq<Event>, after: seq<Event>, e: Event, first: seq<Delta>, second: seq<Delta>, front: string, back: string)
    requires e.deltas == first + second && e.content == front + back
    ensures Run(s, before + [e] + after) == Run(s, before + [Event(e.usage, first, front, false), Event(None, second, back, e.finished)] + after)
  {
    var one, two := Event(e.usage, first, front, false), Event(None, second, back, e.finished);
    var t := Run(s, before);
    AddDeltasConcat(t.slots, first, second);
    assert t.text + front + back == t.text + (front + back);
    assert Run(t, [e]) == Apply(t, e) == Apply(Apply(t, one), two);
    assert [one, two][1..] == [two] && Run(Apply(t, one), [two]) == Apply(Apply(t, one), two);
    RunConcat(s, before + [e], after);
    RunConcat(s, before, [e]);
    RunConcat(s, before + [one, two], after);
    RunConcat(s, before, [one, two]);
  }

  // Splitting one argument text over two deltas of the same call changes nothing; only the first needs the name.
  lemma SplitArguments(slots: map<int, Slot>, before: seq<Delta>, after: seq<Delta>, d: Delta, front: string, back: string)
    requires d.arguments == front + back
    ensures AddDeltas(slots, before + [d] + after) ==
            AddDeltas(slots, before + [Delta(d.index, d.name, front), Delta(d.index, "", back)] + after)
  {
    var one, two := Delta(d.index, d.name, front), Delta(d.index, "", back);
    var t := AddDeltas(slots, before);
    AddDeltasConcat(slots, before + [d], after);
    AddDeltasConcat(slots, before, [d]);
    AddDeltasConcat(slots, before + [one, two], after);
    AddDeltasConcat(slots, before, [one, two]);
    assert [one, two][1..] == [two] && [two][1..] == [] && [d][1..] == [];
    var held := if d.index in t then t[d.index].arguments else "";
    assert held + front + back == held + (front + back);
    assert AddDelta(t, d) == AddDelta(AddDelta(t, one), two);
    hide AddDelta;
    assert AddDeltas(AddDelta(t, one), [two]) == AddDelta(AddDelta(t, one), two);
  }

  function ArgumentsAt(ds: seq<Delta>, i: int): string {
    if ds == [] then "" else ArgumentsAt(ds[..|ds| - 1], i) + if ds[|ds| - 1].index == i then ds[|ds| - 1].arguments else ""
  }

  function NameAt(ds: seq<Delta>, i: int): string {
    if ds == [] then ""
    else
      var d := ds[|ds| - 1];
      if d.index == i && d.name != "" then d.name else NameAt(ds[..|ds| - 1], i)
  }

  // A slot holds all the argument text of its index in order, and the last name that was given.
  lemma {:induction false} SlotsAssemble(ds: seq<Delta>, i: int)
    ensures var slots := AddDeltas(map[], ds);
            && (i in slots <==> exists d :: d in ds && d.index == i)
            && (i in slots ==> slots[i] == Slot(NameAt(ds, i), ArgumentsAt(ds, i)))
            && (i !in slots ==> NameAt(ds, i) == "" && ArgumentsAt(ds, i) == "")
    decreases |ds|
  {
    if ds != [] {
      var front, d := ds[..|ds| - 1], ds[|ds| - 1];
      SlotsAssemble(front, i);
      AddDeltasConcat(map[], front, [d]);
      assert ds == front + [d];
    }
  }

  // ----- the readers -----

  const BELOW: (int, int) -> bool := (a: int, b: int) => a < b

  method SortedIndices(slots: map<int, Slot>) returns (idxs: seq<int>)
    ensures idxs == Ascending(slots.Keys) && forall n :: 0 <= n < |idxs| ==> idxs[n] in slots
  {
    ghost var seen: set<int> := {};
    var unseen: set<int>, found: seq<int> := slots.Keys, [];
    while unseen != {}
      invariant unseen + seen == slots.Keys && unseen !! seen
      invariant forall k :: k in found <==> k in seen
      invariant Distinct(found)
      decreases unseen
    {
      Element(unseen);
      var i :| i in unseen;
      forall j | 0 <= j < |found| ensures found[j] != i {
        assert found[j] in found;
      }
      unseen, seen, found := unseen - {i}, seen + {i}, found + [i];
    }
    idxs := InsertionSort(found, BELOW);
    SortsInts(found);
    AscendingUnique(idxs, slots.Keys);
  }

  lemma SortsInts(s: seq<int>)
    requires Distinct(s)
    ensures StrictlyAscending(InsertionSort(s, BELOW)) && forall k :: k in InsertionSort(s, BELOW) <==> k in s
  {
    SortSorts(s, BELOW);
    SortPermutes(s, BELOW);
    SortKeepsElements(s, BELOW);
    var r := InsertionSort(s, BELOW);
    PermutedDistinct(s, r);
    forall i, j | 0 <= i < j < |r| ensures r[i] < r[j] {
      assert !BELOW(r[j], r[i]);
    }
  }

  method FlushCalls(slots: map<int, Slot>) returns (calls: seq<Call>)
    ensures calls == Flush(slots)
  {
    hide Arguments, Ascending;
    var idxs := SortedIndices(slots);
    calls := [];
    for n := 0 to |idxs|
      invariant calls + CallsOf(idxs[n..], slots) == CallsOf(idxs, slots)
    {
      assert idxs[n] in idxs && idxs[n..][1..] == idxs[n + 1..];
      var slot := slots[idxs[n]];
      calls := calls + [Call(slot.name, Arguments(slot.arguments))];
    }
  }

  // The body of both readers' inner loop.
  method Accumulate(slots: map<int, Slot>, ds: seq<Delta>) returns (toolAccum: map<int, Slot>)
    ensures toolAccum == AddDeltas(slots, ds)
  {
    hide AddDeltas;
    toolAccum := slots;
    NoDelta(slots, ds);
    for n := 0 to |ds|
      invariant AddDeltas(toolAccum, ds[n..]) == AddDeltas(slots, ds)
    {
      var td := ds[n];
      NextDelta(toolAccum, ds, n);
      ghost var before := toolAccum;
      if td.index !in toolAccum {
        toolAccum := toolAccum[td.index := Slot("", "")];
      }
      if td.name != "" {
        toolAccum := toolAccum[td.index := toolAccum[td.index].(name := td.name)];
      }
      if td.arguments != "" {
        toolAccum := toolAccum[td.index := toolAccum[td.index].(arguments := toolAccum[td.index].arguments + td.arguments)];
      }
      assert td.index in before ==> before[td.index].arguments + "" == before[td.index].arguments;
      assert toolAccum[td.index] == AddDelta(before, td)[td.index];
      assert toolAccum == AddDelta(before, td);
    }
    NoDelta(toolAccum, ds);
  }

  lemma NoDelta(slots: map<int, Slot>, ds: seq<Delta>)
    ensures AddDeltas(slots, ds[|ds|..]) == slots && ds[0..] == ds
  {
  }

  lemma NextDelta(slots: map<int, Slot>, ds: seq<Delta>, n: nat)
    requires n < |ds|
    ensures AddDeltas(slots, ds[n..]) == AddDeltas(AddDelta(slots, ds[n]), ds[n + 1..])
  {
    hide AddDelta;
    assert ds[n..][1..] == ds[n + 1..];
  }

  lemma RunAhead(s: State, e: Event, rest: seq<Event>)
    ensures Run(s, [e] + rest) == Run(Apply(s, e), rest)
  {
    hide Apply;
    assert ([e] + rest)[1..] == rest;
  }

  lemma RunEnds(s: State, lines: seq<string>)
    ensures Run(s, []) == s && Events(lines[|lines|..]) == []
  {
  }

  lemma ApplyIs(s: State, e: Event, t: State)
    requires t.text == s.text + e.content && t.usage == (if e.usage.Some? then e.usage else s.usage)
    requires var slots := AddDeltas(s.slots, e.deltas);
             t.slots == (if e.finished then map[] else slots) && t.calls == (if e.finished then s.calls + Flush(slots) else s.calls)
    ensures Apply(s, e) == t
  {
    hide AddDeltas, Flush;
  }

  lemma EventsAhead(lines: seq<string>, i: nat)
    requires i < |lines|
    ensures Events(lines[i..]) == match ReadLine(lines[i]) {
              case Skipped => Events(lines[i + 1..]) case Done => [] case Data(e) => [e] + Events(lines[i + 1..]) }
  {
    assert lines[i..][1..] == lines[i + 1..];
  }

  method StreamEndpoint(content: Option<string>) returns (joined: string, completed: seq<Call>, st: Stats)
    ensures content.None? ==> joined == "" && completed == [] && st == Stats(0, 0, 0)
    ensures content.Some? ==> var r := ReadAll(content.value); joined == r.text && completed == r.calls && st == StatsOf(r.usage)
  {
    if content.None? {
      return "", [], Stats(0, 0, 0);
    }
    hide *;
    var usage: Option<seq<Member>>, toolAccum: map<int, Slot> := None, map[];
    joined, completed := "", [];
    var lines := Split(content.value, '\n');
    var i := 0;
    assert lines[0..] == lines;
    while i < |lines|
      invariant 0 <= i <= |lines|
      invariant Run(State(joined, toolAccum, completed, usage), Events(lines[i..])) == Run(START, Events(lines))
    {
      EventsAhead(lines, i);
      var line := ReadLine(lines[i]);
      if line.Done? {
        break;
      }
      if line.Data? {
        var event := line.event;
        ghost var before := State(joined, toolAccum, completed, usage);
        RunAhead(before, event, Events(lines[i + 1..]));
        if event.usage.Some? {
          usage := event.usage;
        }
        toolAccum := Accumulate(toolAccum, event.deltas);
        joined := joined + event.content;
        if event.finished {
          var calls := FlushCalls(toolAccum);
          completed, toolAccum := completed + calls, map[];
        }
        ApplyIs(before, event, State(joined, toolAccum, completed, usage));
      }
      i := i + 1;
    }
    RunEnds(State(joined, toolAccum, completed, usage), lines);
    Finished(content.value, State(joined, toolAccum, completed, usage));
    if |toolAccum| > 0 {
      var calls := FlushCalls(toolAccum);
      completed := completed + calls;
    }
    st := StatsOf(usage);
  }

  // The two callbacks: what they have been called with.
  class Listener {
    var deltas: seq<string>
    var tools: seq<Call>
  }

  function Concat(parts: seq<string>): string {
    if parts == [] then "" else Concat(parts[..|parts| - 1]) + parts[|parts| - 1]
  }

  // What the callbacks heard of a text and of the calls so far.
  predicate Heard(deltas: seq<string>, tools: seq<Call>, text: string, told: seq<Call>, onDelta: bool, onTool: bool) {
    && tools == (if onTool then told else [])
    && Concat(deltas) == (if onDelta then text else "") && "" !in deltas
  }

  lemma HearDelta(deltas: seq<string>, tools: seq<Call>, text: string, told: seq<Call>, onDelta: bool, onTool: bool, d: string)
    requires Heard(deltas, tools, text, told, onDelta, onTool)
    ensures Heard(if d != "" && onDelta then deltas + [d] else deltas, tools, text + d, told, onDelta, onTool)
  {
    assert (deltas + [d])[..|deltas|] == deltas;
    assert text + "" == text;
  }

  lemma HearTools(deltas: seq<string>, tools: seq<Call>, text: string, told: seq<Call>, onDelta: bool, onTool: bool, calls: seq<Call>)
    requires Heard(deltas, tools, text, told, onDelta, onTool)
    ensures Heard(deltas, if onTool then tools + calls else tools, text, told + calls, onDelta, onTool)
  {
  }

  // The callback's flush.
  method FlushTo(slots: map<int, Slot>, listener: Listener, onTool: bool, ghost text: string, ghost told: seq<Call>, ghost onDelta: bool)
    requires Heard(listener.deltas, listener.tools, text, told, onDelta, onTool)
    modifies listener`tools
    ensures Heard(listener.deltas, listener.tools, text, told + Flush(slots), onDelta, onTool)
  {
    hide *;
    var calls := FlushCalls(slots);
    HearTools(listener.deltas, listener.tools, text, told, onDelta, onTool, calls);
    if onTool {
      listener.tools := listener.tools + calls;
    }
  }

  // One event: the callbacks hear it, and the reader's state moves from s to t.
  method TakeEvent(event: Event, listener: Listener, onDelta: bool, onTool: bool, known: Option<seq<Member>>, slots: map<int, Slot>, ghost s: State)
    returns (usage: Option<seq<Member>>, toolAccum: map<int, Slot>, ghost t: State)
    requires s.slots == slots && s.usage == known && Heard(listener.deltas, listener.tools, s.text, s.calls, onDelta, onTool)
    modifies listener
    ensures t == Apply(s, event) && t.slots == toolAccum && t.usage == usage
    ensures Heard(listener.deltas, listener.tools, t.text, t.calls, onDelta, onTool)
  {
    hide *;
    usage := known;
    if event.usage.Some? {
      usage := event.usage;
    }
    toolAccum := Accumulate(slots, event.deltas);
    HearDelta(listener.deltas, listener.tools, s.text, s.calls, onDelta, onTool, event.content);
    if event.content != "" && onDelta {
      listener.deltas := listener.deltas + [event.content];
    }
    ghost var told := s.calls;
    if event.finished {
      FlushTo(toolAccum, listener, onTool, s.text + event.content, s.calls, onDelta);
      told, toolAccum := s.calls + Flush(toolAccum), map[];
    }
    t := State(s.text + event.content, toolAccum, told, usage);
    ApplyIs(s, event, t);
  }

  // Either callback may be missing. The tools hear the returned list of the other reader, in order, and
  // the deltas are its text in pieces none of which is empty.
  method StreamWithCallbacks(content: Option<string>, listener: Listener, onDelta: bool, onTool: bool) returns (st: Stats)
    requires listener.deltas == [] && listener.tools == []
    modifies listener
    ensures content.None? ==> listener.deltas == [] && listener.tools == [] && st == Stats(0, 0, 0)
    ensures content.Some? ==>
              var r := ReadAll(content.value);
              && st == StatsOf(r.usage)
              && Heard(listener.deltas, listener.tools, r.text, r.calls, onDelta, onTool)
  {
    if content.None? {
      return Stats(0, 0, 0);
    }
    assert Heard([], [], "", [], onDelta, onTool);
    hide *;
    var usage: Option<seq<Member>>, toolAccum: map<int, Slot> := None, map[];
    ghost var s := START;
    var lines := Split(content.value, '\n');
    ghost var all := Run(START, Events(lines));
    var i := 0;
    assert lines[0..] == lines;
    while i < |lines|
      invariant 0 <= i <= |lines|
      invariant Run(s, Events(lines[i..])) == all && s.slots == toolAccum && s.usage == usage
      invariant Heard(listener.deltas, listener.tools, s.text, s.calls, onDelta, onTool)
    {
      EventsAhead(lines, i);
      var line := ReadLine(lines[i]);
      if line.Done? {
        break;
      }
      if line.Data? {
        RunAhead(s, line.event, Events(lines[i + 1..]));
        usage, toolAccum, s := TakeEvent(line.event, listener, onDelta, onTool, usage, toolAccum, s);
      }
      i := i + 1;
    }
    RunEnds(s, lines);
    if |toolAccum| > 0 {
      FlushTo(toolAccum, listener, onTool, s.text, s.calls, onDelta);
    }
    Finished(content.value, all);
    st := StatsOf(usage);
  }

  lemma Finished(content: string, s: State)
    requires Run(START, Events(Split(content, '\n'))) == s
    ensures ReadAll(content).text == s.text && ReadAll(content).usage == s.usage
    ensures ReadAll(content).calls == if s.slots == map[] then s.calls else s.calls + Flush(s.slots)
  {
    hide Flush, Run, Events;
  }
}
