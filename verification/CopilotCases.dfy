/** Short series of runs, from an empty desk, that exceed the limits or request an issue twice. */
module CopilotCases {
  import opened CopilotLimits
  import opened DedupeKey
  import opened IssueFlow
  import IssueNoise
  import opened Options

  // An issue address inside a repository.
  predicate Site(repo: string, url: string) { repo != "" && url != "" && RepoOf(url) == repo }

  lemma SiteExists()
    ensures Site("o/r", IssueNoise.Address("1"))
  {
    IssueNoise.AddressReads("1");
    hide IssueNoise.Address, RepoOf;
  }

  // What a run is given besides the answers; its reply comes at once.
  datatype Setting = Setting(repo: string, url: string, maxActive: nat, tf: Trigger)

  // A run that opens an issue and asks Copilot to work on it.
  function Opening(s: Setting, clock: nat, hourCounted: bool, saved: bool): Inputs {
    Inputs(s.repo, true, s.tf, true, true, true, Skipped, NotAsked, [], Some(Decision(Unrelated, "")), true, Issue(s.url, 1),
           false, Requested(clock), 1, s.maxActive, hourCounted, true, clock, saved)
  }

  // A run that reuses the issue.
  function Reusing(s: Setting, clock: nat, wantsCopilot: bool, maxPerHour: nat): Inputs {
    Inputs(s.repo, true, s.tf, true, wantsCopilot, true, Skipped, NotAsked, [OpenIssue(s.url, 1, [])],
           Some(Decision(Same, s.url)), true, Nothing, false, Requested(clock), maxPerHour, s.maxActive, true, true, clock, true)
  }

  lemma OpeningAsks(s: Setting, items: seq<Item>, clock: nat, hourCounted: bool, saved: bool)
    requires Site(s.repo, s.url)
    ensures var inp := Opening(s, clock, hourCounted, saved);
            && ReachesIssue(inp) && Target(items, inp) == None
            && (Asks(items, inp) <==> HourCount(items, inp) < 1 && ActiveCount(items, inp) < s.maxActive)
  {
    hide RepoOf, HourCount, ActiveCount;
  }

  predicate SaysRequested(i: Item) { i.status == "requested" }

  predicate SaysBlocked(i: Item) { i.status == "blocked" }

  lemma StatusFacts(i: Item)
    ensures SaysRequested(i) ==> Busy(i.status) && i.status != ""
    ensures SaysBlocked(i) ==> !Busy(i.status) && i.status != ""
  {
  }

  // What such a run leaves when it asks.
  lemma OpeningSteps(s: Setting, items: seq<Item>, clock: nat, hourCounted: bool, saved: bool) returns (row: Item)
    requires Site(s.repo, s.url) && Asks(items, Opening(s, clock, hourCounted, saved))
    ensures Step(items, Opening(s, clock, hourCounted, saved)) == if saved then items + [row] else items
    ensures row.repo == s.repo && row.url == s.url && SaysRequested(row) && row.requestedAt == clock
  {
    var inp := Opening(s, clock, hourCounted, saved);
    OpeningAsks(s, items, clock, hourCounted, saved);
    AsksExactly(items, inp);
    row := Recorded(items, inp);
    hide RepoOf, Key, NumberOf, HourCount, ActiveCount, Asks;
  }

  // The fields of such a run, and the counts at an empty desk.
  lemma OpeningFields(s: Setting, clock: nat, hourCounted: bool, saved: bool)
    ensures var inp := Opening(s, clock, hourCounted, saved);
            && inp.maxPerHour == 1 && inp.maxActive == s.maxActive && inp.hourCounted == hourCounted && inp.activeCounted
            && inp.saved == saved && inp.reply == Requested(clock) && inp.clock == clock
            && Timely([], inp) && HourCount([], inp) == 0 && ActiveCount([], inp) == 0
  {
  }

  lemma OneCounts(row: Item, from: int, to: int)
    ensures Requests([row], from, to) == if row.requestedAt > 0 && from <= row.requestedAt <= to then 1 else 0
    ensures Active([row]) == if Busy(row.status) then 1 else 0
  {
    AppendRequests([], row, from, to);
    AppendActive([], row);
    assert [] + [row] == [row];
  }

  lemma OneIsWithin(row: Item)
    ensures WithinLimit([row], 1)
  {
    forall a: int ensures HourFrom([row], a) <= 1 {
      OneCounts(row, a, a + HOUR_MS);
    }
  }

  // ----- an unreadable hourly count -----

  lemma SecondUncounted(s: Setting, row: Item, second: nat)
    requires Site(s.repo, s.url) && s.maxActive > 1 && 0 < row.requestedAt <= second <= row.requestedAt + HOUR_MS
    ensures var inp := Opening(s, second, false, true);
            Timely([row], inp) && Records([row], inp) && HourFrom([row], inp.reply.at - HOUR_MS) == 1
  {
    hide RepoOf, Requests, Active, Target, Asks;
    OneCounts(row, second - HOUR_MS, second);
    OpeningAsks(s, [row], second, false, true);
  }

  // The first run requests the issue within its limit.
  lemma FirstCounted(s: Setting, first: nat) returns (row: Item)
    requires Site(s.repo, s.url) && s.maxActive > 1 && first > 0
    ensures var a := Opening(s, first, true, true); After([a]) == [row] && Serial([a], 1) && a.hourCounted
    ensures row.requestedAt == first
  {
    assert After([]) == [] && Serial([], 1);
    var a := Opening(s, first, true, true);
    OpeningFields(s, first, true, true);
    hide *;
    OpeningAsks(s, [], first, true, true);
    row := OpeningSteps(s, [], first, true, true);
    AfterMore([], a);
    SerialMore([], a, 1);
    assert [] + [row] == [row] && [] + [a] == [a];
  }

  // A limit of one, two requests within the hour: the second run could not read the count.
  lemma UnreadableCountExceeds(s: Setting, first: nat, second: nat) returns (inputs: seq<Inputs>)
    requires Site(s.repo, s.url) && s.maxActive > 1 && 0 < first <= second <= first + HOUR_MS
    ensures Serial(inputs, 1) && !WithinLimit(After(inputs), 1)
    ensures |inputs| == 2 && inputs[0].hourCounted && !inputs[1].hourCounted
  {
    hide *;
    var row := FirstCounted(s, first);
    var a, b := Opening(s, first, true, true), Opening(s, second, false, true);
    OpeningFields(s, second, false, true);
    SecondUncounted(s, row, second);
    AfterMore([a], b);
    SerialMore([a], b, 1);
    OneIsWithin(row);
    LimitBreaksExactly([row], b);
    inputs := [a] + [b];
  }

  // ----- a work item that is not written -----

  lemma OpeningMakes(s: Setting, items: seq<Item>, clock: nat, hourCounted: bool, saved: bool)
    requires Asks(items, Opening(s, clock, hourCounted, saved)) && ReachesIssue(Opening(s, clock, hourCounted, saved))
    ensures Makes(items, Opening(s, clock, hourCounted, saved))
  {
    hide Asks, ReachesIssue;
  }

  lemma NothingMade()
    ensures After([]) == [] && Serial([], 1) && MadeBy([]) == [] && forall from, to :: MadeIn([], from, to) == 0
  {
  }

  // A limit of one, readable counts, and two requests within the hour: the first one's row was not written.
  lemma UnsavedRequestExceeds(s: Setting, first: nat, second: nat) returns (inputs: seq<Inputs>)
    requires Site(s.repo, s.url) && s.maxActive > 0 && 0 < first <= second <= first + HOUR_MS
    ensures Serial(inputs, 1) && Counted(inputs) && MadeIn(MadeBy(inputs), first, first + HOUR_MS) == 2
  {
    NothingMade();
    var a, b := Opening(s, first, true, false), Opening(s, second, true, true);
    OpeningFields(s, first, true, false);
    OpeningFields(s, second, true, true);
    hide *;
    OpeningAsks(s, [], first, true, false);
    OpeningAsks(s, [], second, true, true);
    OpeningMakes(s, [], first, true, false);
    OpeningMakes(s, [], second, true, true);
    var row := OpeningSteps(s, [], first, true, false);
    assert [] + [a] == [a] && [] + [first] == [first];
    AfterMore([], a);
    SerialMore([], a, 1);
    MadeNext([], a);
    SerialMore([a], b, 1);
    MadeNext([a], b);
    MadeMore([first], second, first, first + HOUR_MS);
    MadeMore([], first, first, first + HOUR_MS);
    inputs := [a] + [b];
    BothCounted(a, b);
  }

  lemma BothCounted(a: Inputs, b: Inputs)
    requires a.hourCounted && b.hourCounted
    ensures Counted([a] + [b])
  {
  }

  // ----- reusing the issue -----

  // With the issue alone in the open list, the classifier's answer finds it.
  lemma ReusingFinds(s: Setting, items: seq<Item>, clock: nat, wantsCopilot: bool, maxPerHour: nat) returns (c: Candidate)
    requires Site(s.repo, s.url)
    ensures var inp := Reusing(s, clock, wantsCopilot, maxPerHour);
            && ReachesIssue(inp) && Target(items, inp) == Some(c) && c.url == s.url && c.number == 1 && c.assignees == []
            && c.status == FirstStatus(Recent(items, s.repo, CANDIDATE_LIMIT), s.url)
  {
    var inp := Reusing(s, clock, wantsCopilot, maxPerHour);
    var local := Recent(items, s.repo, CANDIDATE_LIMIT);
    hide RepoOf, Recent, Candidates, FirstStatus;
    CandidatesSpec(local, inp.open);
    assert inp.open[0] in inp.open;
    c :| c in Candidates(local, inp.open) && c.url == s.url;
    assert c in CandidatesOf(items, inp);
    CandidateStatus(items, inp, c);
    FindDistinct(Candidates(local, inp.open), c);
    assert forall o :: o in inp.open ==> o == inp.open[0];
    if exists i :: i in local && i.url == c.url {
      var k :| Describes(local, k, ByUrl(inp.open), c);
    }
  }

  lemma {:induction false} FindDistinct(cs: seq<Candidate>, c: Candidate)
    requires Distinct(cs) && c in cs
    ensures FindByUrl(cs, c.url) == Some(c)
  {
    if cs[0] != c {
      var k :| 0 <= k < |cs| && cs[k] == c;
      assert cs[0].url != cs[k].url && cs[1..][k - 1] == c;
      FindDistinct(cs[1..], c);
    }
  }

  lemma NewestStatus(items: seq<Item>, row: Item, repo: string, url: string)
    requires row.repo == repo && row.url == url != ""
    ensures FirstStatus(Recent(items + [row], repo, CANDIDATE_LIMIT), url) == row.status
  {
    assert (items + [row])[..|items|] == items;
  }

  // What a reusing run leaves, in terms of the newest row.
  lemma ReusingSteps(s: Setting, items: seq<Item>, newest: Item, clock: nat, wantsCopilot: bool, maxPerHour: nat) returns (row: Item)
    requires Site(s.repo, s.url) && newest.repo == s.repo && newest.url == s.url && newest.status != ""
    ensures var all, inp := items + [newest], Reusing(s, clock, wantsCopilot, maxPerHour);
            && Step(all, inp) == all + [row] && row.repo == s.repo && row.url == s.url
            && (!wantsCopilot ==> row.status == newest.status && row.requestedAt == 0)
            && (wantsCopilot && Busy(newest.status) ==> SaysBlocked(row) && row.requestedAt == 0 && !Asks(all, inp))
            && (wantsCopilot && !Busy(newest.status) && HourCount(all, inp) < maxPerHour && ActiveCount(all, inp) < s.maxActive ==>
                  Asks(all, inp) && SaysRequested(row) && row.requestedAt == clock)
  {
    var all, inp := items + [newest], Reusing(s, clock, wantsCopilot, maxPerHour);
    hide RepoOf, Recent, Key, NumberOf, FirstStatus, Target, HourCount, ActiveCount;
    var c := ReusingFinds(s, all, clock, wantsCopilot, maxPerHour);
    NewestStatus(items, newest, s.repo, s.url);
    row := Recorded(all, inp);
  }

  // A limit of one active assignment: the first run requests one, the second asks for nothing, and there are two.
  lemma PlainReuseExceeds(s: Setting, first: nat, second: nat) returns (inputs: seq<Inputs>)
    requires Site(s.repo, s.url) && s.maxActive == 1
    ensures |inputs| == 2 && inputs[1] == Reusing(s, second, false, 1)
    ensures Active(After(inputs[..1])) == 1 == inputs[1].maxActive && Active(After(inputs)) == 2
  {
    NothingMade();
    var a, b := Opening(s, first, true, true), Reusing(s, second, false, 1);
    OpeningFields(s, first, true, true);
    assert b.maxActive == 1;
    hide *;
    OpeningAsks(s, [], first, true, true);
    var row := OpeningSteps(s, [], first, true, true);
    AfterMore([], a);
    assert [] + [row] == [row] && [] + [a] == [a];
    StatusFacts(row);
    OneCounts(row, 0, 0);
    var more := ReusingSteps(s, [], row, second, false, 1);
    AfterMore([a], b);
    AppendActive([row], more);
    inputs := [a] + [b];
    assert inputs[..1] == [a];
  }

  lemma {:induction false} CountsAreFew(items: seq<Item>, inp: Inputs)
    ensures HourCount(items, inp) <= |items| && ActiveCount(items, inp) <= |items|
  {
    SinceIsFew(items, if inp.clock < HOUR_MS then 0 else inp.clock - HOUR_MS);
  }

  lemma {:induction false} SinceIsFew(items: seq<Item>, from: int)
    ensures Since(items, from) <= |items| && Active(items) <= |items|
  {
    if items != [] {
      SinceIsFew(items[..|items| - 1], from);
    }
  }

  // The first run requests the issue.
  lemma FirstAsks(s: Setting, first: nat) returns (row: Item)
    requires Site(s.repo, s.url) && s.maxActive > 2 && first > 0
    ensures var a := Opening(s, first, true, true); Asks([], a) && After([a]) == [] + [row]
    ensures row.repo == s.repo && row.url == s.url && SaysRequested(row) && row.requestedAt == first
  {
    NothingMade();
    var a := Opening(s, first, true, true);
    OpeningFields(s, first, true, true);
    hide *;
    OpeningAsks(s, [], first, true, true);
    row := OpeningSteps(s, [], first, true, true);
    AfterMore([], a);
    assert [] + [a] == [a];
  }

  // The second is blocked because it is requested.
  lemma ThenBlocked(s: Setting, first: nat, second: nat) returns (row: Item, blocked: Item)
    requires Site(s.repo, s.url) && s.maxActive > 2 && first > 0
    ensures var a, b := Opening(s, first, true, true), Reusing(s, second, true, 20);
            && Asks([], a) && After([a]) == [] + [row] && !Asks(After([a]), b) && After([a] + [b]) == [] + [row] + [blocked]
    ensures row.url == s.url && row.requestedAt == first && blocked.repo == s.repo && blocked.url == s.url && SaysBlocked(blocked)
  {
    hide *;
    row := FirstAsks(s, first);
    StatusFacts(row);
    blocked := ReusingSteps(s, [], row, second, true, 20);
    AfterMore([Opening(s, first, true, true)], Reusing(s, second, true, 20));
  }

  // And a third run requests it again, because the newest row says blocked.
  lemma RequestedTwice(s: Setting, first: nat, second: nat, third: nat)
    requires Site(s.repo, s.url) && s.maxActive > 2 && first > 0
    ensures var a, b, c := Opening(s, first, true, true), Reusing(s, second, true, 20), Reusing(s, third, true, 20);
            && Asks([], a) && !Asks(After([a]), b) && Asks(After([a] + [b]), c) && RequestedBefore(After([a] + [b]), s.url)
            && Target(After([a] + [b]), c).Some? && Target(After([a] + [b]), c).value.url == s.url
  {
    hide *;
    var row, blocked := ThenBlocked(s, first, second);
    StatusFacts(blocked);
    var items := [] + [row];
    CountsAreFew(items + [blocked], Reusing(s, third, true, 20));
    var again := ReusingSteps(s, items, blocked, third, true, 20);
    var found := ReusingFinds(s, items + [blocked], third, true, 20);
    assert row in items + [blocked];
    WasRequested(items + [blocked], row);
  }

  lemma WasRequested(items: seq<Item>, row: Item)
    requires row in items && row.requestedAt > 0
    ensures RequestedBefore(items, row.url)
  {
  }
}
