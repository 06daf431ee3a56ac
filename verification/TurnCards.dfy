/** Turn cards built from the spans of a conversation: buildAiTraceTurnCards of ai_view.go. */
module TurnCards {
  import opened Options
  import opened Ordering
  import opened Text

  // The fields of a proposed action that its summary shows.
  datatype ActionFields = ActionFields(actionType: string, sqlWhere: string, targetPage: string)

  // Attributes of a span as they were read. userText and assistantText stand for what the message parsers of
  // the same file make of the span, and toolFields for what encoding/json reads of toolAction, if it is an
  // object.
  datatype Span = Span(
    turnID: string, chatID: string, model: string, provider: string, traceID: string, eventName: string, ts: string,
    tokensIn: int, tokensOut: int, thinkingTokens: int,
    question: string, userText: string, prompt: string, assistantText: string, response: string,
    request: string, action: string, result: string,
    guardAllowed: bool, guardReason: string, errorMessage: string,
    toolName: string, toolStatus: string, toolSummary: string, toolAction: string, toolFields: Option<ActionFields>, toolActionID: string)

  datatype Tool = Tool(name: string, status: string, summary: string, actionID: string)

  datatype Guard = Unknown | Allowed(yes: bool)

  datatype Turn = Turn(
    turnID: string, chatID: string, model: string, provider: string, traceID: string, status: string,
    userMessage: string, assistantMessage: string, requestSummary: string, actionSummary: string, resultSummary: string,
    guardAllowed: Guard, guardReason: string, tools: seq<Tool>,
    tokensIn: int, tokensOut: int, thinkingTokens: int, startedAt: string, completedAt: string, eventNames: seq<string>)

  datatype Card = Card(turn: Turn, requestSummary: string, resultSummary: string, index: nat)

  function Or(a: string, b: string): string { if a == "" then b else a }

  function Event(s: Span): string { TrimSpace(s.eventName) }

  function Key(s: Span): string { TrimSpace(s.turnID) }

  function Begin(s: Span): Turn {
    Turn(Key(s), TrimSpace(s.chatID), TrimSpace(s.model), TrimSpace(s.provider), TrimSpace(s.traceID), "in_progress",
         "", "", "", "", "", Unknown, "", [], 0, 0, 0, s.ts, "", [])
  }

  function UserCandidate(s: Span): string { Or(Or(TrimSpace(s.question), s.userText), TrimSpace(s.prompt)) }

  function AssistantCandidate(s: Span): string { Or(s.assistantText, TrimSpace(s.response)) }

  predicate ToolEvent(s: Span) { Event(s) == "tool.proposed" || Event(s) == "tool.executed" }

  // What summarizeAiToolAction shows the first 180 characters of.
  function ActionText(raw: string, fields: Option<ActionFields>): string {
    var text := TrimSpace(raw);
    if text == "" || fields.None? then text
    else
      var kind, where, page := TrimSpace(fields.value.actionType), TrimSpace(fields.value.sqlWhere), TrimSpace(fields.value.targetPage);
      if where != "" then Or(kind, "action") + ": " + where
      else if page != "" then Or(kind, "action") + " -> " + page
      else kind
  }

  const SUMMARY_LENGTH := 180

  function ActionSummary(raw: string, fields: Option<ActionFields>): string {
    var text := ActionText(raw, fields);
    if |text| <= SUMMARY_LENGTH then text else text[..SUMMARY_LENGTH]
  }

  function ToolOf(s: Span): Tool {
    Tool(Or(TrimSpace(s.toolName), "propose_ui_action"),
         Or(TrimSpace(s.toolStatus), if Event(s) == "tool.executed" then "executed" else "proposed"),
         Or(TrimSpace(s.toolSummary), ActionSummary(TrimSpace(s.toolAction), s.toolFields)), TrimSpace(s.toolActionID))
  }

  function Trimmed'(t: Tool): Tool { Tool(TrimSpace(t.name), TrimSpace(t.status), TrimSpace(t.summary), TrimSpace(t.actionID)) }

  // An entry counts as seen when one already listed equals it after trimming.
  predicate Seen(tools: seq<Tool>, t: Tool) { exists i :: 0 <= i < |tools| && Trimmed'(tools[i]) == t }

  function AddTool(tools: seq<Tool>, t: Tool): seq<Tool> { if Seen(tools, t) then tools else tools + [t] }

  function NextStatus(status: string, event: string): string {
    if event == "turn.blocked" then "blocked"
    else if event == "turn.error" then "failed"
    else if event == "turn.cancelled" then "cancelled"
    else if event == "turn.complete" && status == "in_progress" then "completed"
    else status
  }

  function Earlier(t: string, ts: string): string { if ts != "" && (t == "" || Less(ts, t)) then ts else t }

  function Later(t: string, ts: string): string { if ts != "" && (t == "" || Less(t, ts)) then ts else t }

  function Add(t: Turn, s: Span): Turn {
    var e := Event(s);
    t.(
      eventNames := if e != "" && e !in t.eventNames then t.eventNames + [e] else t.eventNames,
      model := Or(t.model, TrimSpace(s.model)),
      provider := Or(t.provider, TrimSpace(s.provider)),
      chatID := Or(t.chatID, TrimSpace(s.chatID)),
      traceID := Or(t.traceID, TrimSpace(s.traceID)),
      startedAt := Earlier(t.startedAt, s.ts),
      completedAt := Later(t.completedAt, s.ts),
      tokensIn := t.tokensIn + s.tokensIn,
      tokensOut := t.tokensOut + s.tokensOut,
      thinkingTokens := t.thinkingTokens + s.thinkingTokens,
      userMessage := Or(t.userMessage, UserCandidate(s)),
      assistantMessage :=
        if AssistantCandidate(s) != "" && (e == "turn.complete" || t.assistantMessage == "") then AssistantCandidate(s) else t.assistantMessage,
      requestSummary := Or(t.requestSummary, TrimSpace(s.request)),
      actionSummary := Or(t.actionSummary, TrimSpace(s.action)),
      resultSummary := Or(t.resultSummary, TrimSpace(s.result)),
      guardAllowed := if e == "guard.result" then Allowed(s.guardAllowed) else t.guardAllowed,
      guardReason :=
        if e == "guard.result" then TrimSpace(s.guardReason)
        else if e == "turn.blocked" then Or(TrimSpace(s.guardReason), TrimSpace(s.errorMessage)) else t.guardReason,
      status := NextStatus(t.status, e),
      tools := if ToolEvent(s) then AddTool(t.tools, ToolOf(s)) else t.tools)
  }

  // ----- the spans of one turn -----

  function Mine(spans: seq<Span>, id: string): seq<Span> {
    if spans == [] then []
    else Mine(spans[..|spans| - 1], id) + if Key(spans[|spans| - 1]) == id then [spans[|spans| - 1]] else []
  }

  function TurnOf(mine: seq<Span>): Turn
    requires mine != []
  {
    var n := |mine| - 1;
    Add(if n == 0 then Begin(mine[0]) else TurnOf(mine[..n]), mine[n])
  }

  // The turn ids in the order of their first spans.
  function Ids(spans: seq<Span>): seq<string> {
    if spans == [] then []
    else
      var front, k := Ids(spans[..|spans| - 1]), Key(spans[|spans| - 1]);
      if k == "" || k in front then front else front + [k]
  }

  lemma {:induction false} IdsSpec(spans: seq<Span>)
    ensures Distinct(Ids(spans)) && "" !in Ids(spans)
    ensures forall id :: id in Ids(spans) <==> id != "" && Mine(spans, id) != []
  {
    hide Key;
    if spans != [] {
      IdsSpec(spans[..|spans| - 1]);
    }
  }

  predicate Before(t: Turn, u: Turn) {
    if t.startedAt != u.startedAt then Less(t.startedAt, u.startedAt) else Less(t.turnID, u.turnID)
  }

  const BEFORE: (Turn, Turn) -> bool := (t: Turn, u: Turn) => Before(t, u)

  function Turns(spans: seq<Span>, ids: seq<string>): seq<Turn>
    requires forall id :: id in ids ==> Mine(spans, id) != []
  {
    seq(|ids|, i requires 0 <= i < |ids| => TurnOf(Mine(spans, ids[i])))
  }

  function CardOf(t: Turn, index: nat): Card {
    Card(t, if TrimSpace(t.requestSummary) == "" then TrimSpace(t.userMessage) else t.requestSummary,
         if TrimSpace(t.resultSummary) == "" then TrimSpace(t.assistantMessage) else t.resultSummary, index)
  }

  function Cards(spans: seq<Span>): (cards: seq<Card>) {
    IdsSpec(spans);
    var sorted := InsertionSort(Turns(spans, Ids(spans)), BEFORE);
    seq(|sorted|, i requires 0 <= i < |sorted| => CardOf(sorted[i], i + 1))
  }

  // The record of this turn holds what the spans so far say of it.
  ghost predicate UpToDate(turns: map<string, Turn>, spans: seq<Span>, id: string) {
    id in turns ==> Mine(spans, id) != [] && turns[id] == TurnOf(Mine(spans, id))
  }

  method CollectTurns(spans: seq<Span>) returns (turns: map<string, Turn>, order: seq<string>)
    ensures order == Ids(spans)
    ensures forall id :: (id in turns <==> id in order) && UpToDate(turns, spans, id)
  {
    hide Add, Begin, Key, TurnOf, Mine;
    turns, order := map[], [];
    for i := 0 to |spans|
      invariant order == Ids(spans[..i])
      invariant forall id :: (id in turns <==> id in order) && UpToDate(turns, spans[..i], id)
    {
      var item := spans[i];
      var turnID := Key(item);
      assert spans[..i + 1][..i] == spans[..i];
      IdsSpec(spans[..i]);
      MineGrows(spans, i);
      if turnID != "" {
        assert UpToDate(turns, spans[..i], turnID);
        if turnID !in turns {
          turns := turns[turnID := Begin(item)];
          order := order + [turnID];
        }
        turns := turns[turnID := Add(turns[turnID], item)];
      }
    }
    assert spans[..|spans|] == spans;
  }

  method BuildCards(spans: seq<Span>) returns (out: seq<Card>)
    ensures out == Cards(spans)
  {
    hide Add, Begin, Key, TurnOf, Mine, CardOf;
    var turns, order := CollectTurns(spans);
    IdsSpec(spans);
    var listed: seq<Turn> := [];
    for i := 0 to |order|
      invariant listed == Turns(spans, order)[..i]
    {
      assert order[i] in order && UpToDate(turns, spans, order[i]);
      listed := listed + [turns[order[i]]];
    }
    assert listed == Turns(spans, order);
    var sorted := InsertionSort(listed, BEFORE);
    out := [];
    for i := 0 to |sorted|
      invariant |out| == i && forall j :: 0 <= j < i ==> out[j] == CardOf(sorted[j], j + 1)
    {
      out := out + [CardOf(sorted[i], i + 1)];
    }
  }

  lemma MineGrows(spans: seq<Span>, i: nat)
    requires i < |spans|
    ensures var id := Key(spans[i]);
            var was, now := Mine(spans[..i], id), Mine(spans[..i + 1], id);
            now == was + [spans[i]] && TurnOf(now) == Add(if was == [] then Begin(spans[i]) else TurnOf(was), spans[i])
    ensures forall id :: id != Key(spans[i]) ==> Mine(spans[..i + 1], id) == Mine(spans[..i], id)
  {
    hide Add, Begin, Key;
    assert spans[..i + 1][..i] == spans[..i];
    var id := Key(spans[i]);
    var was := Mine(spans[..i], id);
    assert (was + [spans[i]])[..|was|] == was;
  }

  // ----- main results about one turn -----

  lemma {:induction false} TurnIdentity(mine: seq<Span>)
    requires mine != []
    ensures TurnOf(mine).turnID == Key(mine[0])
  {
    if |mine| > 1 {
      TurnIdentity(mine[..|mine| - 1]);
    }
  }

  // The least and the greatest of the times that are given.
  ghost predicate Extreme(t: string, times: set<string>, before: (string, string) -> bool) {
    if times == {} then t == "" else t in times && forall u :: u in times ==> !before(u, t)
  }

  function Times(mine: seq<Span>): (times: set<string>)
    ensures "" !in times
  {
    if mine == [] then {} else Times(mine[..|mine| - 1]) + if mine[|mine| - 1].ts == "" then {} else {mine[|mine| - 1].ts}
  }

  lemma {:induction false} StartAndEnd(mine: seq<Span>)
    requires mine != []
    ensures Extreme(TurnOf(mine).startedAt, Times(mine), (a, b) => Less(a, b))
    ensures Extreme(TurnOf(mine).completedAt, Times(mine), (a, b) => Less(b, a))
  {
    hide Add, Begin, Extreme, Earlier, Later;
    var n := |mine| - 1;
    var front, ts := mine[..n], mine[n].ts;
    var t := if n == 0 then Begin(mine[0]) else TurnOf(front);
    AddTimes(t, mine[n]);
    if n == 0 {
      BeginTimes(mine[0]);
      FirstTime(ts);
    } else {
      StartAndEnd(front);
      TimesMove(t.startedAt, t.completedAt, Times(front), ts);
    }
  }

  lemma AddTimes(t: Turn, s: Span)
    ensures Add(t, s).startedAt == Earlier(t.startedAt, s.ts) && Add(t, s).completedAt == Later(t.completedAt, s.ts)
  {
  }

  lemma BeginTimes(s: Span)
    ensures Begin(s).startedAt == s.ts && Begin(s).completedAt == ""
  {
  }

  lemma FirstTime(ts: string)
    ensures Extreme(Earlier(ts, ts), {} + if ts == "" then {} else {ts}, (a, b) => Less(a, b))
    ensures Extreme(Later("", ts), {} + if ts == "" then {} else {ts}, (a, b) => Less(b, a))
  {
    StringOrder();
    hide Less;
  }

  lemma TimesMove(start: string, end: string, times: set<string>, ts: string)
    requires Extreme(start, times, (a, b) => Less(a, b)) && Extreme(end, times, (a, b) => Less(b, a)) && "" !in times
    ensures Extreme(Earlier(start, ts), times + if ts == "" then {} else {ts}, (a, b) => Less(a, b))
    ensures Extreme(Later(end, ts), times + if ts == "" then {} else {ts}, (a, b) => Less(b, a))
  {
    StringOrder();
    hide Less;
  }

  predicate Final(event: string) { event == "turn.blocked" || event == "turn.error" || event == "turn.cancelled" }

  // The last blocking, failing or cancelling event decides; without one a completion does.
  function StatusOf(events: seq<string>): string {
    if events == [] then "in_progress"
    else
      var last := events[|events| - 1];
      if Final(last) then NextStatus("", last)
      else if exists i :: 0 <= i < |events| && Final(events[i]) then StatusOf(events[..|events| - 1])
      else if "turn.complete" in events then "completed" else "in_progress"
  }

  function EventsOf(mine: seq<Span>): (r: seq<string>)
    ensures |r| == |mine|
  {
    seq(|mine|, i requires 0 <= i < |mine| => Event(mine[i]))
  }

  lemma {:induction false} StatusSettles(events: seq<string>, last: string)
    ensures StatusOf(events + [last]) == NextStatus(StatusOf(events), last)
    ensures StatusOf(events) == "in_progress" <==> "turn.complete" !in events && forall i :: 0 <= i < |events| ==> !Final(events[i])
    decreases |events|
  {
    var all := events + [last];
    assert all[..|events|] == events && all[|events|] == last;
    assert forall i :: 0 <= i < |events| ==> all[i] == events[i];
    if events != [] {
      var front := events[..|events| - 1];
      assert events == front + [events[|events| - 1]];
      StatusSettles(front, events[|events| - 1]);
    }
  }

  lemma {:induction false} StatusIs(mine: seq<Span>)
    requires mine != []
    ensures TurnOf(mine).status == StatusOf(EventsOf(mine))
  {
    assert StatusOf([]) == "in_progress";
    hide AddTool, UserCandidate, AssistantCandidate, Or, Event, ToolOf, ToolEvent, Less, StatusOf;
    var n := |mine| - 1;
    assert EventsOf(mine) == EventsOf(mine[..n]) + [Event(mine[n])];
    StatusSettles(EventsOf(mine[..n]), Event(mine[n]));
    if n > 0 {
      StatusIs(mine[..n]);
    }
  }

  function FirstOf(parts: seq<string>): string {
    if parts == [] then "" else Or(FirstOf(parts[..|parts| - 1]), parts[|parts| - 1])
  }

  function LastOf(parts: seq<string>): string {
    if parts == [] then "" else Or(parts[|parts| - 1], LastOf(parts[..|parts| - 1]))
  }

  function Questions(mine: seq<Span>): seq<string> {
    if mine == [] then [] else Questions(mine[..|mine| - 1]) + [UserCandidate(mine[|mine| - 1])]
  }

  function Answers(mine: seq<Span>): seq<string> {
    if mine == [] then [] else Answers(mine[..|mine| - 1]) + [AssistantCandidate(mine[|mine| - 1])]
  }

  function FinalAnswers(mine: seq<Span>): seq<string> {
    if mine == [] then []
    else FinalAnswers(mine[..|mine| - 1]) + if Event(mine[|mine| - 1]) == "turn.complete" then [AssistantCandidate(mine[|mine| - 1])] else []
  }

  // The user's message is the first that is given; the answer is the last that a completion gives, or
  // without one the first of any.
  lemma {:induction false} MessagesAre(mine: seq<Span>)
    requires mine != []
    ensures TurnOf(mine).userMessage == FirstOf(Questions(mine))
    ensures TurnOf(mine).assistantMessage == Or(LastOf(FinalAnswers(mine)), FirstOf(Answers(mine)))
    ensures LastOf(FinalAnswers(mine)) != "" ==> FirstOf(Answers(mine)) != ""
  {
    assert FirstOf([]) == LastOf([]) == "";
    hide AddTool, UserCandidate, AssistantCandidate, Event, ToolOf, ToolEvent, Earlier, Later, NextStatus, FirstOf, LastOf;
    var n := |mine| - 1;
    var front, last := mine[..n], mine[n];
    FirstSnoc(Questions(front), UserCandidate(last));
    FirstSnoc(Answers(front), AssistantCandidate(last));
    FirstSnoc(FinalAnswers(front), AssistantCandidate(last));
    assert Event(last) != "turn.complete" ==> FinalAnswers(mine) == FinalAnswers(front);
    if n > 0 {
      MessagesAre(front);
    }
  }

  lemma FirstSnoc(parts: seq<string>, last: string)
    ensures FirstOf(parts + [last]) == Or(FirstOf(parts), last) && LastOf(parts + [last]) == Or(last, LastOf(parts))
  {
  }

  // ----- tools -----

  // The entries that the turn's tool events propose, in order.
  function Proposed(mine: seq<Span>): seq<Tool> {
    if mine == [] then []
    else Proposed(mine[..|mine| - 1]) + if ToolEvent(mine[|mine| - 1]) then [ToolOf(mine[|mine| - 1])] else []
  }

  function AddTools(ts: seq<Tool>): seq<Tool> {
    if ts == [] then [] else AddTool(AddTools(ts[..|ts| - 1]), ts[|ts| - 1])
  }

  lemma {:induction false} ToolsAre(mine: seq<Span>)
    requires mine != []
    ensures TurnOf(mine).tools == AddTools(Proposed(mine)) && Distinct(TurnOf(mine).eventNames)
  {
    hide AddTool, ToolOf, ToolEvent, UserCandidate, AssistantCandidate, Earlier, Later, NextStatus, Or, Event;
    var n := |mine| - 1;
    var front, t := Proposed(mine[..n]), if n == 0 then Begin(mine[0]) else TurnOf(mine[..n]);
    if n > 0 {
      ToolsAre(mine[..n]);
    } else {
      assert mine[..0] == [] && Begin(mine[0]).tools == [] == AddTools([]) && Begin(mine[0]).eventNames == [];
    }
    ToolsMore(t, mine[n], front);
    assert Proposed(mine) == front + if ToolEvent(mine[n]) then [ToolOf(mine[n])] else [];
  }

  lemma ToolsMore(t: Turn, s: Span, before: seq<Tool>)
    requires t.tools == AddTools(before) && Distinct(t.eventNames)
    ensures Add(t, s).tools == AddTools(before + if ToolEvent(s) then [ToolOf(s)] else []) && Distinct(Add(t, s).eventNames)
  {
    hide AddTool, ToolOf, ToolEvent, UserCandidate, AssistantCandidate, Earlier, Later, NextStatus, Or, Event;
    if ToolEvent(s) {
      assert (before + [ToolOf(s)])[..|before|] == before;
    } else {
      assert before + [] == before;
    }
  }

  lemma TrimmedOnce(t: Tool)
    ensures Trimmed'(Trimmed'(t)) == Trimmed'(t)
  {
    TrimSpaceSpec(t.name);
    TrimSpaceSpec(t.status);
    TrimSpaceSpec(t.summary);
    TrimSpaceSpec(t.actionID);
    TrimSpaceSpec(TrimSpace(t.name));
    TrimSpaceSpec(TrimSpace(t.status));
    TrimSpaceSpec(TrimSpace(t.summary));
    TrimSpaceSpec(TrimSpace(t.actionID));
  }

  // An entry with trimmed fields is listed at most once; one with a field that is not trimmed, as a
  // summary that was cut off behind a space, is listed as often as it was proposed.
  lemma {:induction false} TimesListed(ts: seq<Tool>, t: Tool)
    ensures var n := multiset(AddTools(ts))[t]; if Trimmed'(t) == t then n <= 1 else n == multiset(ts)[t]
    decreases |ts|
  {
    hide Trimmed';
    if ts != [] {
      var front, last := ts[..|ts| - 1], ts[|ts| - 1];
      var tools := AddTools(front);
      TimesListed(front, t);
      assert ts == front + [last];
      if Seen(tools, last) {
        var i :| 0 <= i < |tools| && Trimmed'(tools[i]) == last;
        TrimmedOnce(tools[i]);
      } else if last == t && Trimmed'(t) == t {
        assert t !in tools;
      }
    }
  }

  lemma {:induction false} ListedWasProposed(ts: seq<Tool>, t: Tool)
    requires t in AddTools(ts)
    ensures t in ts
    decreases |ts|
  {
    if ts != [] && t != ts[|ts| - 1] {
      ListedWasProposed(ts[..|ts| - 1], t);
    }
  }

  lemma DistinctExactly<T>(s: seq<T>)
    ensures Distinct(s) <==> forall x :: x in s ==> multiset(s)[x] == 1
  {
    if Distinct(s) {
      forall x | x in s ensures multiset(s)[x] == 1 {
        var i :| 0 <= i < |s| && s[i] == x;
        DistinctOnce(s, i);
      }
    }
    if forall x :: x in s ==> multiset(s)[x] == 1 {
      forall i, j | 0 <= i < j < |s| ensures s[i] != s[j] {
        if s[i] == s[j] {
          PresentTwice(s, i, j);
        }
      }
    }
  }

  // The tool is summed up by its action, and the cut of the summary ends with a blank.
  predicate BlankCut(s: Span) {
    var text := ActionText(TrimSpace(s.toolAction), s.toolFields);
    TrimSpace(s.toolSummary) == "" && |text| > SUMMARY_LENGTH && Space(text[SUMMARY_LENGTH - 1])
  }

  lemma ActionTextTrimmed(raw: string, fields: Option<ActionFields>)
    ensures Trimmed(ActionText(raw, fields))
  {
    TrimSpaceSpec(raw);
    if fields.Some? {
      TrimSpaceSpec(fields.value.actionType);
      TrimSpaceSpec(fields.value.sqlWhere);
      TrimSpaceSpec(fields.value.targetPage);
      assert !Space('a') && !Space('n');
    }
    hide TrimSpace, Space;
  }

  lemma SummaryTrimmedExactly(raw: string, fields: Option<ActionFields>)
    ensures var text := ActionText(raw, fields);
            Trimmed(ActionSummary(raw, fields)) <==> !(|text| > SUMMARY_LENGTH && Space(text[SUMMARY_LENGTH - 1]))
  {
    ActionTextTrimmed(raw, fields);
    hide ActionText, Space;
  }

  // An entry has an untrimmed field exactly when its summary is cut behind a blank.
  lemma UntrimmedExactly(s: Span)
    requires ToolEvent(s)
    ensures Trimmed'(ToolOf(s)) != ToolOf(s) <==> BlankCut(s)
  {
    var raw := TrimSpace(s.toolAction);
    SummaryTrimmedExactly(raw, s.toolFields);
    FieldStays(s.toolName, "propose_ui_action");
    FieldStays(s.toolStatus, "executed");
    FieldStays(s.toolStatus, "proposed");
    TrimSpaceSpec(s.toolActionID);
    TrimSpaceSpec(TrimSpace(s.toolActionID));
    TrimSpaceSpec(s.toolSummary);
    TrimSpaceSpec(ToolOf(s).summary);
    LettersAreNoSpace();
    hide TrimSpace, Space, ActionText, ActionSummary;
  }

  lemma LettersAreNoSpace()
    ensures !Space('p') && !Space('n') && !Space('e') && !Space('d')
  {
  }

  lemma FieldStays(field: string, default: string)
    ensures Trimmed(default) ==> TrimSpace(Or(TrimSpace(field), default)) == Or(TrimSpace(field), default)
  {
    TrimSpaceSpec(field);
    TrimSpaceSpec(TrimSpace(field));
    TrimSpaceSpec(default);
    hide TrimSpace, Space;
  }

  // Two tool events of the turn make the same entry of it.
  ghost predicate Twice(mine: seq<Span>, t: Tool) {
    exists i, j :: 0 <= i < j < |mine| && Makes(mine[i], t) && Makes(mine[j], t)
  }

  predicate Makes(s: Span, t: Tool) { ToolEvent(s) && ToolOf(s) == t }

  ghost predicate Once(mine: seq<Span>, t: Tool) { exists i :: 0 <= i < |mine| && Makes(mine[i], t) }

  lemma OneSpanMore(front: seq<Span>, s: Span, t: Tool)
    ensures Once(front + [s], t) <==> Once(front, t) || Makes(s, t)
    ensures Twice(front + [s], t) <==> Twice(front, t) || (Once(front, t) && Makes(s, t))
  {
    hide Makes;
    var mine, n := front + [s], |front|;
    assert forall i :: 0 <= i < n ==> mine[i] == front[i];
    if Once(front, t) {
      var i :| 0 <= i < n && Makes(front[i], t);
      assert Makes(mine[i], t);
    }
    if Makes(s, t) {
      assert Makes(mine[n], t);
    }
  }

  lemma ProposedMore(front: seq<Span>, s: Span, t: Tool)
    ensures multiset(Proposed(front + [s]))[t] == multiset(Proposed(front))[t] + if Makes(s, t) then 1 else 0
  {
    hide ToolEvent, ToolOf;
    assert (front + [s])[..|front|] == front;
  }

  lemma {:induction false} ProposedTwice(mine: seq<Span>, t: Tool)
    ensures multiset(Proposed(mine))[t] > 0 <==> Once(mine, t)
    ensures multiset(Proposed(mine))[t] > 1 <==> Twice(mine, t)
    decreases |mine|
  {
    if mine == [] {
    } else {
      hide *;
      var front, last := mine[..|mine| - 1], mine[|mine| - 1];
      assert mine == front + [last];
      ProposedTwice(front, t);
      OneSpanMore(front, last, t);
      ProposedMore(front, last, t);
    }
  }

  // A turn lists no tool twice exactly when no two of its tool events make one entry whose summary is cut
  // behind a blank.
  lemma ToolsDistinctExactly(mine: seq<Span>)
    requires mine != []
    ensures Distinct(TurnOf(mine).tools) <==>
            !exists i, j :: 0 <= i < j < |mine| && ToolEvent(mine[i]) && BlankCut(mine[i]) && Makes(mine[j], ToolOf(mine[i]))
  {
    hide ToolEvent, ToolOf, BlankCut, Proposed, TurnOf, Trimmed';
    ToolsDistinct(mine);
    forall i | 0 <= i < |mine| && ToolEvent(mine[i]) ensures Trimmed'(ToolOf(mine[i])) != ToolOf(mine[i]) <==> BlankCut(mine[i]) {
      UntrimmedExactly(mine[i]);
    }
    forall t ensures multiset(Proposed(mine))[t] > 1 <==> Twice(mine, t) {
      ProposedTwice(mine, t);
    }
  }

  // No entry with an untrimmed field is proposed twice.
  lemma ToolsDistinct(mine: seq<Span>)
    requires mine != []
    ensures Distinct(TurnOf(mine).tools) <==> forall t :: Trimmed'(t) != t ==> multiset(Proposed(mine))[t] <= 1
  {
    hide Trimmed', AddTools, Proposed;
    ToolsAre(mine);
    var ts := Proposed(mine);
    var tools := AddTools(ts);
    DistinctExactly(tools);
    forall t ensures t in tools ==> t in ts && (Trimmed'(t) == t ==> multiset(tools)[t] == 1) {
      TimesListed(ts, t);
      if t in tools {
        ListedWasProposed(ts, t);
      }
    }
    forall t | Trimmed'(t) != t ensures multiset(tools)[t] == multiset(ts)[t] {
      TimesListed(ts, t);
    }
    forall t | t in ts && Trimmed'(t) != t ensures t in tools {
      assert t in multiset(ts) && multiset(tools)[t] == multiset(ts)[t];
      assert t in multiset(tools);
    }
  }

  // A proposal whose action is this text.
  function Proposal(text: string): Span {
    Span("t", "", "", "", "", "tool.proposed", "", 0, 0, 0, "", "", "", "", "", "", "", "", false, "", "", "", "", "", text, None, "")
  }

  function LongText(): string { seq(SUMMARY_LENGTH - 1, i => 'a') + " a" }

  lemma RepeatedSpan(s: Span)
    requires ToolEvent(s) && BlankCut(s)
    ensures !Distinct(TurnOf([s, s]).tools)
  {
    hide ToolEvent, ToolOf, BlankCut, TurnOf;
    var mine := [s, s];
    assert mine[0] == mine[1] == s && Makes(mine[1], ToolOf(mine[0]));
    ToolsDistinctExactly(mine);
  }

  // Reported by two spans, a proposal whose 180th character is a blank is listed twice.
  lemma ListedTwice()
    ensures !Distinct(TurnOf([Proposal(LongText()), Proposal(LongText())]).tools)
  {
    LongTextCut();
    hide LongText, Proposal, TurnOf, Space;
    ProposalIs(LongText());
    hide *;
    RepeatedSpan(Proposal(LongText()));
  }

  lemma LongTextCut()
    ensures var t := LongText(); Trimmed(t) && |t| > SUMMARY_LENGTH && Space(t[SUMMARY_LENGTH - 1])
  {
    assert !Space('a') && Space(' ');
    hide Space;
    assert LongText()[SUMMARY_LENGTH - 1] == ' ' && LongText()[0] == 'a';
  }

  lemma ProposalIs(text: string)
    requires Trimmed(text)
    ensures ToolEvent(Proposal(text))
    ensures BlankCut(Proposal(text)) <==> |text| > SUMMARY_LENGTH && Space(text[SUMMARY_LENGTH - 1])
  {
    TrimSpaceSpec(text);
    TrimSpaceSpec("tool.proposed");
    LettersAreNoSpace();
    ToolIsNoSpace();
    hide TrimSpace, Space;
    TrimSpaceSpec("");
  }

  lemma ToolIsNoSpace()
    ensures Trimmed("tool.proposed")
  {
    assert "tool.proposed"[0] == 't' && "tool.proposed"[12] == 'd';
    assert !Space('t') && !Space('d');
  }

  // ----- main results about all cards -----

  lemma TurnsOrder()
    ensures StrictOrder(BEFORE)
    ensures forall t: Turn, u: Turn :: !BEFORE(t, u) && !BEFORE(u, t) ==> t.turnID == u.turnID
  {
    StringOrder();
    hide Less;
  }

  lemma {:induction false} MineKeys(spans: seq<Span>, id: string)
    ensures forall s :: s in Mine(spans, id) ==> Key(s) == id
  {
    hide Key;
    if spans != [] {
      MineKeys(spans[..|spans| - 1], id);
    }
  }

  predicate Listed(cards: seq<Card>, id: string) { exists i :: 0 <= i < |cards| && cards[i].turn.turnID == id }

  lemma TurnsKeyed(spans: seq<Span>)
    ensures (forall id :: id in Ids(spans) ==> Mine(spans, id) != [])
    ensures var ts := Turns(spans, Ids(spans)); Distinct(ts) && forall i :: 0 <= i < |ts| ==> ts[i].turnID == Ids(spans)[i]
  {
    hide TurnOf, Key;
    IdsSpec(spans);
    var ids := Ids(spans);
    forall i | 0 <= i < |ids| ensures Turns(spans, ids)[i].turnID == ids[i] {
      var mine := Mine(spans, ids[i]);
      assert ids[i] in ids;
      MineKeys(spans, ids[i]);
      TurnIdentity(mine);
      assert mine[0] in mine;
    }
  }

  lemma SortedTurns(spans: seq<Span>)
    ensures (forall id :: id in Ids(spans) ==> Mine(spans, id) != [])
    ensures var ids := Ids(spans);
            var sorted := InsertionSort(Turns(spans, ids), BEFORE);
            && (forall i :: 0 <= i < |sorted| ==> sorted[i].turnID in ids && sorted[i] == TurnOf(Mine(spans, sorted[i].turnID)))
            && (forall i, j :: 0 <= i < j < |sorted| ==> Before(sorted[i], sorted[j]) && sorted[i].turnID != sorted[j].turnID)
            && (forall id :: id in ids ==> exists i :: 0 <= i < |sorted| && sorted[i].turnID == id)
  {
    hide TurnOf, Key, Before, Mine;
    IdsSpec(spans);
    TurnsKeyed(spans);
    TurnsOrder();
    var ids := Ids(spans);
    var turns := Turns(spans, ids);
    var sorted := InsertionSort(turns, BEFORE);
    SortSorts(turns, BEFORE);
    SortPermutes(turns, BEFORE);
    SortKeepsElements(turns, BEFORE);
    PermutedDistinct(turns, sorted);
    hide InsertionSort, Ids;
    forall i | 0 <= i < |sorted| ensures sorted[i].turnID in ids && sorted[i] == TurnOf(Mine(spans, sorted[i].turnID)) {
      assert sorted[i] in turns;
      var j :| 0 <= j < |turns| && turns[j] == sorted[i];
      assert turns[j].turnID == ids[j];
    }
    forall i, j | 0 <= i < j < |sorted| ensures Before(sorted[i], sorted[j]) && sorted[i].turnID != sorted[j].turnID {
      assert sorted[i] != sorted[j] && !BEFORE(sorted[j], sorted[i]);
    }
    forall id | id in ids ensures exists i :: 0 <= i < |sorted| && sorted[i].turnID == id {
      var j :| 0 <= j < |ids| && ids[j] == id;
      assert turns[j] in sorted;
      var i :| 0 <= i < |sorted| && sorted[i] == turns[j];
    }
  }

  // One card for each turn id that is not blank, holding what its spans say, in strict order of start and id.
  lemma CardsAre(spans: seq<Span>)
    ensures var cards := Cards(spans);
            && (forall id :: Listed(cards, id) <==> id != "" && Mine(spans, id) != [])
            && (forall i, j :: 0 <= i < j < |cards| ==> Before(cards[i].turn, cards[j].turn) && cards[i].turn.turnID != cards[j].turn.turnID)
            && (forall i :: 0 <= i < |cards| ==> var mine := Mine(spans, cards[i].turn.turnID); mine != [] && cards[i] == CardOf(TurnOf(mine), i + 1))
  {
    hide TurnOf, Key, CardOf, Before, Mine, InsertionSort;
    IdsSpec(spans);
    SortedTurns(spans);
    var sorted := InsertionSort(Turns(spans, Ids(spans)), BEFORE);
    var cards := Cards(spans);
    forall i | 0 <= i < |cards| ensures cards[i].turn == sorted[i] {
      CardKeepsTurn(sorted[i], i + 1);
    }
    forall id | id in Ids(spans) ensures Listed(cards, id) {
      var i :| 0 <= i < |sorted| && sorted[i].turnID == id;
      assert cards[i].turn.turnID == id;
    }
  }

  lemma CardKeepsTurn(t: Turn, index: nat)
    ensures CardOf(t, index).turn == t
  {
  }

  // ----- conservation -----

  function Total(spans: seq<Span>, amount: Span -> int): int {
    if spans == [] then 0 else Total(spans[..|spans| - 1], amount) + amount(spans[|spans| - 1])
  }

  function TotalOver(ids: seq<string>, spans: seq<Span>, amount: Span -> int): int {
    if ids == [] then 0 else TotalOver(ids[..|ids| - 1], spans, amount) + Total(Mine(spans, ids[|ids| - 1]), amount)
  }

  // The spans that belong to some turn.
  function Owned(spans: seq<Span>): seq<Span> {
    if spans == [] then []
    else Owned(spans[..|spans| - 1]) + if Key(spans[|spans| - 1]) != "" then [spans[|spans| - 1]] else []
  }

  lemma MineMore(spans: seq<Span>, id: string, amount: Span -> int)
    requires spans != []
    ensures Total(Mine(spans, id), amount) ==
            Total(Mine(spans[..|spans| - 1], id), amount) + if Key(spans[|spans| - 1]) == id then amount(spans[|spans| - 1]) else 0
  {
    hide Key;
    var was, last := Mine(spans[..|spans| - 1], id), spans[|spans| - 1];
    assert (was + [last])[..|was|] == was;
    assert was + [] == was;
  }

  lemma {:induction false} OneMore(ids: seq<string>, spans: seq<Span>, amount: Span -> int)
    requires spans != [] && Distinct(ids)
    ensures TotalOver(ids, spans, amount) ==
            TotalOver(ids, spans[..|spans| - 1], amount) + if Key(spans[|spans| - 1]) in ids then amount(spans[|spans| - 1]) else 0
    decreases |ids|
  {
    hide Key, Mine, Total;
    if ids != [] {
      OneMore(ids[..|ids| - 1], spans, amount);
      MineMore(spans, ids[|ids| - 1], amount);
      assert ids == ids[..|ids| - 1] + [ids[|ids| - 1]] && ids[|ids| - 1] !in ids[..|ids| - 1];
    }
  }

  lemma {:induction false} TotalOverIds(ids: seq<string>, spans: seq<Span>, amount: Span -> int)
    requires Distinct(ids) && "" !in ids && forall s :: s in spans && Key(s) != "" ==> Key(s) in ids
    ensures TotalOver(ids, spans, amount) == Total(Owned(spans), amount)
    decreases |spans|
  {
    hide Key;
    if spans == [] {
      NothingOwned(ids, amount);
    } else {
      var front, last := spans[..|spans| - 1], spans[|spans| - 1];
      OneMore(ids, spans, amount);
      TotalOverIds(ids, front, amount);
      assert (Owned(front) + [last])[..|Owned(front)|] == Owned(front);
      assert Owned(front) + [] == Owned(front) && last in spans;
    }
  }

  lemma {:induction false} NothingOwned(ids: seq<string>, amount: Span -> int)
    ensures TotalOver(ids, [], amount) == 0
    decreases |ids|
  {
    if ids != [] {
      NothingOwned(ids[..|ids| - 1], amount);
    }
  }

  function Sum(ts: seq<Turn>, field: Turn -> int): int {
    if ts == [] then 0 else Sum(ts[..|ts| - 1], field) + field(ts[|ts| - 1])
  }

  lemma {:induction false} SumInsert(ts: seq<Turn>, t: Turn, field: Turn -> int)
    ensures Sum(Insert(ts, t, BEFORE), field) == Sum(ts, field) + field(t)
    decreases |ts|
  {
    if ts == [] || !BEFORE(t, ts[|ts| - 1]) {
      assert (ts + [t])[..|ts|] == ts;
    } else {
      var r := Insert(ts[..|ts| - 1], t, BEFORE);
      SumInsert(ts[..|ts| - 1], t, field);
      assert (r + [ts[|ts| - 1]])[..|r|] == r;
    }
  }

  lemma {:induction false} SumSort(ts: seq<Turn>, field: Turn -> int)
    ensures Sum(InsertionSort(ts, BEFORE), field) == Sum(ts, field)
    decreases |ts|
  {
    if ts != [] {
      SumSort(ts[..|ts| - 1], field);
      SumInsert(InsertionSort(ts[..|ts| - 1], BEFORE), ts[|ts| - 1], field);
    }
  }

  const IN: Span -> int := (s: Span) => s.tokensIn
  const OUT: Span -> int := (s: Span) => s.tokensOut
  const THINKING: Span -> int := (s: Span) => s.thinkingTokens
  const TURN_IN: Turn -> int := (t: Turn) => t.tokensIn
  const TURN_OUT: Turn -> int := (t: Turn) => t.tokensOut
  const TURN_THINKING: Turn -> int := (t: Turn) => t.thinkingTokens

  // The field of a turn adds up the amounts of its spans.
  ghost predicate Counts(field: Turn -> int, amount: Span -> int) {
    forall mine: seq<Span> | mine != [] :: field(TurnOf(mine)) == Total(mine, amount)
  }

  lemma {:induction false} TurnTokens(mine: seq<Span>)
    requires mine != []
    ensures TURN_IN(TurnOf(mine)) == Total(mine, IN) && TURN_OUT(TurnOf(mine)) == Total(mine, OUT)
    ensures TURN_THINKING(TurnOf(mine)) == Total(mine, THINKING)
  {
    hide AddTool, UserCandidate, AssistantCandidate, Event, ToolOf, ToolEvent, Earlier, Later, NextStatus, Or;
    if |mine| > 1 {
      TurnTokens(mine[..|mine| - 1]);
    } else {
      assert mine[..0] == [];
    }
  }

  lemma {:induction false} SumTurns(spans: seq<Span>, ids: seq<string>, field: Turn -> int, amount: Span -> int)
    requires Counts(field, amount) && forall id :: id in ids ==> Mine(spans, id) != []
    ensures Sum(Turns(spans, ids), field) == TotalOver(ids, spans, amount)
    decreases |ids|
  {
    hide TurnOf, Mine;
    if ids != [] {
      SumTurns(spans, ids[..|ids| - 1], field, amount);
      assert Turns(spans, ids)[..|ids| - 1] == Turns(spans, ids[..|ids| - 1]);
    }
  }

  function CardTurns(cards: seq<Card>): (r: seq<Turn>)
    ensures |r| == |cards|
  {
    seq(|cards|, i requires 0 <= i < |cards| => cards[i].turn)
  }

  lemma FieldConserved(spans: seq<Span>, field: Turn -> int, amount: Span -> int)
    requires Counts(field, amount)
    ensures Sum(CardTurns(Cards(spans)), field) == Total(Owned(spans), amount)
  {
    hide TurnOf, Mine, Key, CardOf, Counts, TotalOver, Total;
    IdsSpec(spans);
    var ids := Ids(spans);
    var sorted := InsertionSort(Turns(spans, ids), BEFORE);
    forall i | 0 <= i < |sorted| ensures CardTurns(Cards(spans))[i] == sorted[i] {
      CardKeepsTurn(sorted[i], i + 1);
    }
    assert CardTurns(Cards(spans)) == sorted;
    SumSort(Turns(spans, ids), field);
    SumTurns(spans, ids, field, amount);
    forall s | s in spans && Key(s) != "" ensures Key(s) in ids {
      MineHas(spans, s);
    }
    TotalOverIds(ids, spans, amount);
  }

  lemma {:induction false} MineHas(spans: seq<Span>, s: Span)
    requires s in spans
    ensures s in Mine(spans, Key(s)) && Mine(spans, Key(s)) != []
  {
    hide Key;
    if spans[|spans| - 1] != s {
      MineHas(spans[..|spans| - 1], s);
    }
  }

  // No token is lost or counted twice.
  lemma TokensConserved(spans: seq<Span>)
    ensures var turns := CardTurns(Cards(spans));
            && Sum(turns, TURN_IN) == Total(Owned(spans), IN)
            && Sum(turns, TURN_OUT) == Total(Owned(spans), OUT)
            && Sum(turns, TURN_THINKING) == Total(Owned(spans), THINKING)
  {
    hide Total, Sum, TurnOf, Cards;
    forall mine: seq<Span> | mine != []
      ensures TURN_IN(TurnOf(mine)) == Total(mine, IN) && TURN_OUT(TurnOf(mine)) == Total(mine, OUT)
           && TURN_THINKING(TurnOf(mine)) == Total(mine, THINKING)
    {
      TurnTokens(mine);
    }
    FieldConserved(spans, TURN_IN, IN);
    FieldConserved(spans, TURN_OUT, OUT);
    FieldConserved(spans, TURN_THINKING, THINKING);
  }
}
