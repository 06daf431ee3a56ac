/** The Copilot assignment limits over whole series of runs. */
module CopilotLimits {
  import opened DedupeKey
  import opened IssueFlow

  // Recorded requests in the closed window of one hour from a on.
  function HourFrom(items: seq<Item>, a: int): nat { Requests(items, a, a + HOUR_MS) }

  // No window of one hour holds more than m recorded requests.
  ghost predicate WithinLimit(items: seq<Item>, m: nat) { forall a: int :: HourFrom(items, a) <= m }

  // The clock does not run backwards: recorded requests are no later than the count, and a request
  // made by this run is no earlier.
  ghost predicate Timely(items: seq<Item>, inp: Inputs) {
    && (forall i :: i in items ==> i.requestedAt <= inp.clock)
    && (!inp.reply.Refused? ==> inp.clock <= inp.reply.at)
  }

  lemma {:induction false} RequestsBounds(items: seq<Item>, from: int, to: int, low: int)
    requires low <= from
    ensures Requests(items, from, to) <= Since(items, low)
  {
    if items != [] {
      RequestsBounds(items[..|items| - 1], from, to, low);
    }
  }

  lemma {:induction false} SinceIsRequests(items: seq<Item>, from: int, to: int)
    requires forall i :: i in items ==> i.requestedAt <= to
    ensures Since(items, from) == Requests(items, from, to)
  {
    if items != [] {
      SinceIsRequests(items[..|items| - 1], from, to);
    }
  }

  lemma AppendRequests(items: seq<Item>, i: Item, from: int, to: int)
    ensures Requests(items + [i], from, to) ==
      Requests(items, from, to) + if i.requestedAt > 0 && from <= i.requestedAt <= to then 1 else 0
  {
    assert (items + [i])[..|items|] == items;
  }

  // A row stamped no earlier than all others keeps the limit exactly when fewer than m requests are recorded
  // in the hour before it.
  lemma AppendWithinLimitExactly(items: seq<Item>, row: Item, m: nat)
    requires WithinLimit(items, m)
    requires row.requestedAt > 0 ==> forall i :: i in items ==> i.requestedAt <= row.requestedAt
    ensures WithinLimit(items + [row], m) <==>
      row.requestedAt == 0 || HourFrom(items, row.requestedAt - HOUR_MS) < m
  {
    hide Requests, Since;
    var at := row.requestedAt;
    forall a: int
      ensures HourFrom(items + [row], a) == HourFrom(items, a) + if at > 0 && a <= at <= a + HOUR_MS then 1 else 0
      ensures HourFrom(items, a) <= m
      ensures at > 0 && a <= at <= a + HOUR_MS ==> HourFrom(items, a) <= HourFrom(items, at - HOUR_MS)
    {
      AppendRequests(items, row, a, a + HOUR_MS);
      if at > 0 && a <= at <= a + HOUR_MS {
        RequestsBounds(items, a, a + HOUR_MS, at - HOUR_MS);
        SinceIsRequests(items, at - HOUR_MS, at);
      }
    }
    assert at > 0 ==> HourFrom(items + [row], at - HOUR_MS) == HourFrom(items, at - HOUR_MS) + 1;
  }

  // A run that makes a request: it reaches the issue step and asks.
  predicate Makes(items: seq<Item>, inp: Inputs) { ReachesIssue(inp) && Asks(items, inp) }

  // And one that records it: its row is written, with a time.
  predicate Records(items: seq<Item>, inp: Inputs) {
    Makes(items, inp) && inp.saved && !inp.reply.Refused? && inp.reply.at > 0
  }

  // One run breaks the hourly limit exactly when it records a request although m are recorded in the hour
  // before it.
  lemma StepWithinLimitExactly(items: seq<Item>, inp: Inputs, m: nat)
    requires WithinLimit(items, m) && Timely(items, inp)
    ensures !WithinLimit(Step(items, inp), m) <==> Records(items, inp) && HourFrom(items, inp.reply.at - HOUR_MS) >= m
  {
    hide Choose, Asks, ReachesIssue, WithinLimit, HourFrom, RepoOf, NumberOf, Key;
    AsksExactly(items, inp);
    AsksIsAnswered(items, inp);
    if ReachesIssue(inp) && inp.saved {
      AppendWithinLimitExactly(items, Recorded(items, inp), m);
    }
  }

  lemma AsksIsAnswered(items: seq<Item>, inp: Inputs)
    ensures Asks(items, inp) ==> !inp.reply.Refused? && HourCount(items, inp) < inp.maxPerHour && ActiveCount(items, inp) < inp.maxActive
  {
    hide Target, CurrentStatus;
  }

  lemma {:induction false} RequestsFromZero(items: seq<Item>, from: int, to: int, low: nat)
    requires low <= from || low == 0
    ensures Requests(items, from, to) <= Since(items, low)
  {
    if items != [] {
      RequestsFromZero(items[..|items| - 1], from, to, low);
    }
  }

  // The count of the run is at least what the hour before its request holds, if it can be read.
  lemma CountCovers(items: seq<Item>, inp: Inputs)
    requires Timely(items, inp) && inp.hourCounted && !inp.reply.Refused?
    ensures HourFrom(items, inp.reply.at - HOUR_MS) <= HourCount(items, inp)
  {
    var low := if inp.clock < HOUR_MS then 0 else inp.clock - HOUR_MS;
    RequestsFromZero(items, inp.reply.at - HOUR_MS, inp.reply.at, low);
  }

  // So a run breaks its own limit only with an unreadable count, and then exactly when it records a request
  // into a full hour.
  lemma LimitBreaksExactly(items: seq<Item>, inp: Inputs)
    requires WithinLimit(items, inp.maxPerHour) && Timely(items, inp)
    ensures !WithinLimit(Step(items, inp), inp.maxPerHour) <==>
              !inp.hourCounted && Records(items, inp) && HourFrom(items, inp.reply.at - HOUR_MS) >= inp.maxPerHour
  {
    hide Asks, ReachesIssue, WithinLimit, HourFrom, HourCount, ActiveCount, Step, Timely;
    StepWithinLimitExactly(items, inp, inp.maxPerHour);
    AsksIsAnswered(items, inp);
    if Records(items, inp) && inp.hourCounted {
      CountCovers(items, inp);
    }
  }

  function After(inputs: seq<Inputs>): seq<Item> {
    if inputs == [] then [] else Step(After(inputs[..|inputs| - 1]), inputs[|inputs| - 1])
  }

  lemma AfterMore(inputs: seq<Inputs>, inp: Inputs)
    ensures After(inputs + [inp]) == Step(After(inputs), inp)
  {
    assert (inputs + [inp])[..|inputs|] == inputs;
  }

  // Serial runs with one fixed hourly limit and a clock that does not run backwards.
  ghost predicate Serial(inputs: seq<Inputs>, m: nat) {
    forall k :: 0 <= k < |inputs| ==> inputs[k].maxPerHour == m && Timely(After(inputs[..k]), inputs[k])
  }

  lemma SerialMore(inputs: seq<Inputs>, inp: Inputs, m: nat)
    ensures Serial(inputs + [inp], m) <==> Serial(inputs, m) && inp.maxPerHour == m && Timely(After(inputs), inp)
  {
    hide After, Timely;
    var all := inputs + [inp];
    assert all[..|inputs|] == inputs && all[|inputs|] == inp;
    assert forall k :: 0 <= k < |inputs| ==> all[..k] == inputs[..k] && all[k] == inputs[k];
    if Serial(all, m) {
      assert all[|inputs|].maxPerHour == m;
      forall k | 0 <= k < |inputs| ensures inputs[k].maxPerHour == m && Timely(After(inputs[..k]), inputs[k]) {
        assert all[k].maxPerHour == m;
      }
    }
  }

  predicate Counted(inputs: seq<Inputs>) { forall k :: 0 <= k < |inputs| ==> inputs[k].hourCounted }

  // Over any such series with readable counts, across the new-issue and the reuse path and whatever the
  // classifier says, no hour holds more than m recorded requests.
  lemma {:induction false} HourlyLimit(inputs: seq<Inputs>, m: nat)
    requires Serial(inputs, m) && Counted(inputs)
    ensures WithinLimit(After(inputs), m)
  {
    if inputs == [] {
      assert forall a: int :: HourFrom([], a) == 0;
    } else {
      hide After, Timely, Step, WithinLimit;
      var front, last := inputs[..|inputs| - 1], inputs[|inputs| - 1];
      assert inputs == front + [last];
      SerialMore(front, last, m);
      AfterMore(front, last);
      HourlyLimit(front, m);
      LimitBreaksExactly(After(front), last);
    }
  }

  // ----- requests that were made, recorded or not -----

  function MadeBy(inputs: seq<Inputs>): seq<nat> {
    if inputs == [] then []
    else
      var front, last := inputs[..|inputs| - 1], inputs[|inputs| - 1];
      MadeBy(front) + if Makes(After(front), last) && !last.reply.Refused? then [last.reply.at] else []
  }

  function MadeIn(made: seq<nat>, from: int, to: int): nat {
    if made == [] then 0
    else MadeIn(made[..|made| - 1], from, to) + if made[|made| - 1] > 0 && from <= made[|made| - 1] <= to then 1 else 0
  }

  lemma MadeMore(made: seq<nat>, at: nat, from: int, to: int)
    ensures MadeIn(made + [at], from, to) == MadeIn(made, from, to) + if at > 0 && from <= at <= to then 1 else 0
  {
    assert (made + [at])[..|made|] == made;
  }

  lemma MakesIsAnswered(items: seq<Item>, inp: Inputs)
    ensures Makes(items, inp) ==> !inp.reply.Refused?
  {
    AsksIsAnswered(items, inp);
  }

  // What one run adds to the recorded and to the made requests of a window.
  lemma StepCounts(items: seq<Item>, inp: Inputs, from: int, to: int)
    ensures Requests(Step(items, inp), from, to) ==
            Requests(items, from, to) + if Records(items, inp) && from <= inp.reply.at <= to then 1 else 0
  {
    hide Choose, Asks, ReachesIssue, Requests, RepoOf, NumberOf, Key;
    AsksExactly(items, inp);
    AsksIsAnswered(items, inp);
    AppendRequests(items, Recorded(items, inp), from, to);
  }

  lemma MadeNext(inputs: seq<Inputs>, inp: Inputs)
    ensures MadeBy(inputs + [inp]) == MadeBy(inputs) + if Makes(After(inputs), inp) && !inp.reply.Refused? then [inp.reply.at] else []
  {
    assert (inputs + [inp])[..|inputs|] == inputs;
  }

  // A run that makes a request in this window, and whose work item is not written.
  predicate Loses(before: seq<Inputs>, inp: Inputs, from: int, to: int) {
    Makes(After(before), inp) && !inp.saved && !inp.reply.Refused? && inp.reply.at > 0 && from <= inp.reply.at <= to
  }

  function LostIn(inputs: seq<Inputs>, from: int, to: int): nat {
    if inputs == [] then 0
    else
      var front, last := inputs[..|inputs| - 1], inputs[|inputs| - 1];
      LostIn(front, from, to) + if Loses(front, last, from, to) then 1 else 0
  }

  lemma LostMore(inputs: seq<Inputs>, inp: Inputs, from: int, to: int)
    ensures LostIn(inputs + [inp], from, to) == LostIn(inputs, from, to) + if Loses(inputs, inp, from, to) then 1 else 0
  {
    hide Loses;
    assert (inputs + [inp])[..|inputs|] == inputs;
  }

  // Every request is recorded or lost.
  lemma {:induction false} MadeAccount(inputs: seq<Inputs>, from: int, to: int)
    ensures MadeIn(MadeBy(inputs), from, to) == Requests(After(inputs), from, to) + LostIn(inputs, from, to)
  {
    if inputs == [] {
    } else {
      var front, last := inputs[..|inputs| - 1], inputs[|inputs| - 1];
      assert inputs == front + [last];
      hide After, MadeBy, MadeIn, Makes, Step, Requests, LostIn;
      MadeAccount(front, from, to);
      AfterMore(front, last);
      MadeNext(front, last);
      LostMore(front, last, from, to);
      StepCounts(After(front), last, from, to);
      MakesIsAnswered(After(front), last);
      if Makes(After(front), last) {
        MadeMore(MadeBy(front), last.reply.at, from, to);
      } else {
        assert MadeBy(front) + [] == MadeBy(front);
      }
    }
  }

  lemma {:induction false} NothingLost(inputs: seq<Inputs>, from: int, to: int)
    ensures LostIn(inputs, from, to) == 0 <==> forall k :: 0 <= k < |inputs| ==> !Loses(inputs[..k], inputs[k], from, to)
  {
    hide Loses;
    if inputs != [] {
      var n := |inputs| - 1;
      NothingLost(inputs[..n], from, to);
      assert forall k :: 0 <= k < n ==> inputs[..n][..k] == inputs[..k];
    }
  }

  // What is recorded was made, and all that was made in a window is recorded exactly when each of its runs
  // wrote its work item.
  lemma RecordedWasMade(inputs: seq<Inputs>, from: int, to: int)
    ensures Requests(After(inputs), from, to) <= MadeIn(MadeBy(inputs), from, to)
    ensures Requests(After(inputs), from, to) == MadeIn(MadeBy(inputs), from, to) <==>
              forall k :: 0 <= k < |inputs| ==> !Loses(inputs[..k], inputs[k], from, to)
  {
    hide After, MadeBy, MadeIn, Requests, LostIn, Loses;
    MadeAccount(inputs, from, to);
    NothingLost(inputs, from, to);
  }

  // So no hour holds more requests than the limit and the lost rows of that hour together.
  lemma MadeLimit(inputs: seq<Inputs>, m: nat, a: int)
    requires Serial(inputs, m) && Counted(inputs)
    ensures MadeIn(MadeBy(inputs), a, a + HOUR_MS) <= m + LostIn(inputs, a, a + HOUR_MS)
  {
    hide After, MadeBy, MadeIn, Requests, Timely, LostIn;
    HourlyLimit(inputs, m);
    MadeAccount(inputs, a, a + HOUR_MS);
    assert HourFrom(After(inputs), a) <= m;
  }

  // No window of one hour holds more than m of these requests.
  ghost predicate MadeWithin(made: seq<nat>, m: nat) { forall a: int :: MadeFrom(made, a) <= m }

  function MadeFrom(made: seq<nat>, a: int): nat { MadeIn(made, a, a + HOUR_MS) }

  // The requests made so far are no later than that of the run.
  ghost predicate InOrder(made: seq<nat>, inp: Inputs) { !inp.reply.Refused? ==> forall t :: t in made ==> t <= inp.reply.at }

  // The run makes a request although m lie in the hour before it.
  predicate FullHour(before: seq<Inputs>, inp: Inputs, m: nat) {
    Makes(After(before), inp) && !inp.reply.Refused? && inp.reply.at > 0 && MadeFrom(MadeBy(before), inp.reply.at - HOUR_MS) >= m
  }

  // Of the windows that reach the last request, the one that ends there holds the most.
  lemma {:induction false} MadeBounds(made: seq<nat>, a: int, at: nat)
    requires (forall t :: t in made ==> t <= at) && at - HOUR_MS <= a
    ensures MadeFrom(made, a) <= MadeFrom(made, at - HOUR_MS)
    decreases |made|
  {
    if made != [] {
      var front := made[..|made| - 1];
      assert made[|made| - 1] in made;
      forall t | t in front ensures t <= at {
        assert t in made;
      }
      MadeBounds(front, a, at);
    }
  }

  lemma MadeWithinExactly(made: seq<nat>, at: nat, m: nat)
    requires MadeWithin(made, m) && at > 0 && forall t :: t in made ==> t <= at
    ensures MadeWithin(made + [at], m) <==> MadeFrom(made, at - HOUR_MS) < m
  {
    hide MadeIn;
    forall a: int
      ensures MadeFrom(made + [at], a) == MadeFrom(made, a) + if a <= at <= a + HOUR_MS then 1 else 0
      ensures MadeFrom(made, a) <= m
      ensures a <= at <= a + HOUR_MS ==> MadeFrom(made, a) <= MadeFrom(made, at - HOUR_MS)
    {
      MadeMore(made, at, a, a + HOUR_MS);
      if a <= at <= a + HOUR_MS {
        MadeBounds(made, a, at);
      }
    }
    assert MadeFrom(made + [at], at - HOUR_MS) == MadeFrom(made, at - HOUR_MS) + 1;
  }

  // A request without a time is in no window.
  lemma UntimedStays(made: seq<nat>, m: nat)
    ensures MadeWithin(made + [0], m) <==> MadeWithin(made, m)
  {
    hide MadeIn;
    forall a: int ensures MadeFrom(made + [0], a) == MadeFrom(made, a) {
      MadeMore(made, 0, a, a + HOUR_MS);
    }
  }

  // One run breaks the limit on the requests themselves exactly when it makes one into a full hour.
  lemma MadeBreaksExactly(inputs: seq<Inputs>, inp: Inputs, m: nat)
    requires MadeWithin(MadeBy(inputs), m) && InOrder(MadeBy(inputs), inp)
    ensures !MadeWithin(MadeBy(inputs + [inp]), m) <==> FullHour(inputs, inp, m)
  {
    hide After, MadeBy, Makes, MadeWithin, MadeFrom;
    MadeNext(inputs, inp);
    MakesIsAnswered(After(inputs), inp);
    if !Makes(After(inputs), inp) {
      assert MadeBy(inputs) + [] == MadeBy(inputs);
    } else if inp.reply.at == 0 {
      UntimedStays(MadeBy(inputs), m);
    } else {
      MadeWithinExactly(MadeBy(inputs), inp.reply.at, m);
    }
  }

  ghost predicate AllInOrder(inputs: seq<Inputs>) { forall k :: 0 <= k < |inputs| ==> InOrder(MadeBy(inputs[..k]), inputs[k]) }

  ghost predicate SomeFullHour(inputs: seq<Inputs>, m: nat) { exists k :: 0 <= k < |inputs| && FullHour(inputs[..k], inputs[k], m) }

  lemma SeriesMore(inputs: seq<Inputs>, inp: Inputs, m: nat)
    ensures AllInOrder(inputs + [inp]) <==> AllInOrder(inputs) && InOrder(MadeBy(inputs), inp)
    ensures SomeFullHour(inputs + [inp], m) <==> SomeFullHour(inputs, m) || FullHour(inputs, inp, m)
  {
    hide MadeBy, InOrder, FullHour;
    var all, n := inputs + [inp], |inputs|;
    assert all[..n] == inputs && all[n] == inp;
    assert forall k :: 0 <= k < n ==> all[..k] == inputs[..k] && all[k] == inputs[k];
    if AllInOrder(all) {
      assert InOrder(MadeBy(all[..n]), all[n]);
      forall k | 0 <= k < n ensures InOrder(MadeBy(inputs[..k]), inputs[k]) {
        assert InOrder(MadeBy(all[..k]), all[k]);
      }
    }
    if SomeFullHour(inputs, m) {
      var k :| 0 <= k < n && FullHour(inputs[..k], inputs[k], m);
      assert FullHour(all[..k], all[k], m);
    }
    if FullHour(inputs, inp, m) {
      assert FullHour(all[..n], all[n], m);
    }
  }

  lemma NoneMade(m: nat)
    ensures MadeWithin(MadeBy([]), m) && !SomeFullHour([], m)
  {
    assert MadeBy([]) == [];
    hide FullHour, MadeBy;
    assert forall a: int :: MadeFrom([], a) == 0;
  }

  // Over a series whose requests come in the order of their times, some hour holds more than m of them exactly
  // when some run makes one into a full hour.
  lemma {:induction false} MadeLimitExactly(inputs: seq<Inputs>, m: nat)
    requires AllInOrder(inputs)
    ensures !MadeWithin(MadeBy(inputs), m) <==> SomeFullHour(inputs, m)
  {
    hide *;
    if inputs == [] {
      NoneMade(m);
    } else {
      var front, last := inputs[..|inputs| - 1], inputs[|inputs| - 1];
      assert inputs == front + [last];
      SeriesMore(front, last, m);
      MadeLimitExactly(front, m);
      if MadeWithin(MadeBy(front), m) {
        MadeBreaksExactly(front, last, m);
      } else {
        MadeGrows(front, last, m);
      }
    }
  }

  lemma MadeGrows(inputs: seq<Inputs>, inp: Inputs, m: nat)
    requires !MadeWithin(MadeBy(inputs), m)
    ensures !MadeWithin(MadeBy(inputs + [inp]), m)
  {
    hide After, MadeBy, Makes, MadeIn;
    MadeNext(inputs, inp);
    var a: int :| MadeFrom(MadeBy(inputs), a) > m;
    if Makes(After(inputs), inp) && !inp.reply.Refused? {
      MadeMore(MadeBy(inputs), inp.reply.at, a, a + HOUR_MS);
    } else {
      assert MadeBy(inputs) + [] == MadeBy(inputs);
    }
    assert MadeFrom(MadeBy(inputs + [inp]), a) > m;
  }

  // And a run that has counted, within its own limit, finds such an hour only behind a lost row of it.
  lemma FullHourLost(before: seq<Inputs>, inp: Inputs)
    requires FullHour(before, inp, inp.maxPerHour) && Timely(After(before), inp) && inp.hourCounted
    ensures exists k :: 0 <= k < |before| && Loses(before[..k], before[k], inp.reply.at - HOUR_MS, inp.reply.at)
  {
    var from, to := inp.reply.at - HOUR_MS, inp.reply.at;
    AsksIsAnswered(After(before), inp);
    CountCovers(After(before), inp);
    hide After, MadeBy, MadeIn, Requests, LostIn, Loses, HourCount, ActiveCount, Asks, ReachesIssue;
    MadeAccount(before, from, to);
    NothingLost(before, from, to);
  }

  // ----- requested or active assignments -----

  lemma AppendActive(items: seq<Item>, i: Item)
    ensures Active(items + [i]) == Active(items) + if Busy(i.status) then 1 else 0
  {
    assert (items + [i])[..|items|] == items;
  }

  // A run that asks for no assignment, and reuses an issue that is requested or active: it copies the status.
  predicate CopiesBusy(items: seq<Item>, inp: Inputs) {
    !inp.wantsCopilot && Target(items, inp).Some? && Busy(CurrentStatus(Target(items, inp).value))
  }

  lemma StepActive(items: seq<Item>, inp: Inputs)
    ensures Active(Step(items, inp)) == Active(items) +
              if ReachesIssue(inp) && inp.saved && ((Asks(items, inp) && inp.reply.Requested?) || CopiesBusy(items, inp))
              then 1 else 0
  {
    hide Choose, Asks, ReachesIssue, Active, RepoOf, NumberOf, Key, Target, CurrentStatus;
    AsksExactly(items, inp);
    AsksWants(items, inp);
    AppendActive(items, Recorded(items, inp));
  }

  lemma AsksWants(items: seq<Item>, inp: Inputs)
    ensures Asks(items, inp) ==> inp.wantsCopilot
  {
    hide Target, CurrentStatus, HourCount, ActiveCount;
  }

  // A step that makes a request does not take the requested or active count above its limit, if the count
  // can be read.
  lemma RequestWithinActiveLimit(items: seq<Item>, inp: Inputs)
    requires Asks(items, inp) && inp.activeCounted
    ensures Active(Step(items, inp)) <= inp.maxActive
  {
    hide Asks, Step, Target, CurrentStatus;
    StepActive(items, inp);
    AsksIsAnswered(items, inp);
  }

  // From within the limit a run exceeds it exactly when it is reached already, and the run copies a busy
  // status or makes a request without having read the count.
  lemma ActiveLimitBreaksExactly(items: seq<Item>, inp: Inputs)
    requires Active(items) <= inp.maxActive
    ensures Active(Step(items, inp)) > inp.maxActive <==>
              && ReachesIssue(inp) && inp.saved && Active(items) == inp.maxActive
              && (CopiesBusy(items, inp) || (!inp.activeCounted && Asks(items, inp) && inp.reply.Requested?))
  {
    hide Asks, Step, CopiesBusy, ReachesIssue, Active;
    StepActive(items, inp);
    AsksIsAnswered(items, inp);
  }

  // ----- requesting an issue again -----

  // The status of the first listed row of an issue, which is its newest.
  function FirstStatus(local: seq<Item>, url: string): string {
    if local == [] then "" else if local[0].url == url then local[0].status else FirstStatus(local[1..], url)
  }

  lemma {:induction false} FirstStatusIs(local: seq<Item>, url: string, k: nat)
    requires k <= |local| && (forall j :: 0 <= j < k ==> local[j].url != url) && (k < |local| ==> local[k].url == url)
    ensures FirstStatus(local, url) == if k < |local| then local[k].status else ""
  {
    if k > 0 {
      FirstStatusIs(local[1..], url, k - 1);
    }
  }

  // A candidate has the status of the newest of the recent rows of its issue.
  lemma CandidateStatus(items: seq<Item>, inp: Inputs, c: Candidate)
    requires c in CandidatesOf(items, inp)
    ensures c.status == FirstStatus(Recent(items, inp.repo, CANDIDATE_LIMIT), c.url)
  {
    hide Recent, Candidates, FirstStatus, ByUrl;
    var local := Recent(items, inp.repo, CANDIDATE_LIMIT);
    CandidatesSpec(local, inp.open);
    if exists i :: i in local && i.url == c.url {
      var k :| Describes(local, k, ByUrl(inp.open), c);
      FirstStatusIs(local, c.url, k);
    } else {
      FirstStatusIs(local, c.url, |local|);
    }
  }

  lemma {:induction false} FindByUrlSound(cs: seq<Candidate>, url: string)
    ensures match FindByUrl(cs, url) { case Some(c) => c in cs && c.url == url case None => url !in Urls(cs) }
  {
    if cs != [] {
      FindByUrlSound(cs[1..], url);
    }
  }

  lemma TargetIsCandidate(items: seq<Item>, inp: Inputs)
    ensures Target(items, inp).Some? ==> Target(items, inp).value in CandidatesOf(items, inp)
  {
    hide CandidatesOf, Decide;
    FindByUrlSound(CandidatesOf(items, inp), Decide(items, inp).candidate);
  }

  // Some earlier run has requested an assignment for the issue.
  predicate RequestedBefore(items: seq<Item>, url: string) { exists i :: i in items && i.url == url && i.requestedAt > 0 }

  // An issue that was requested is requested again exactly when nothing else stops the request and the newest
  // of its recent rows is neither requested nor active: the earlier request itself is not looked at.
  lemma RequestedAgainExactly(items: seq<Item>, inp: Inputs, c: Candidate)
    requires Target(items, inp).Some? && Target(items, inp).value == c
    ensures Asks(items, inp) && RequestedBefore(items, c.url) <==>
              && RequestedBefore(items, c.url) && inp.wantsCopilot && !inp.reply.Refused? && !inp.linkedPr && c.number > 0
              && HourCount(items, inp) < inp.maxPerHour && ActiveCount(items, inp) < inp.maxActive
              && !CopilotAssigned(c.assignees)
              && !Busy(FirstStatus(Recent(items, inp.repo, CANDIDATE_LIMIT), c.url))
  {
    hide Target, Recent, FirstStatus, HourCount, ActiveCount, CandidatesOf, CopilotAssigned;
    TargetIsCandidate(items, inp);
    CandidateStatus(items, inp, c);
  }
}
