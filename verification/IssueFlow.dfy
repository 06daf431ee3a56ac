/** Issue de-duplication and Copilot assignment: agent_dedupe.go and the flow around it in agent_flow.go.
    GitHub, the language model and the guard answer through the inputs of a run. */
module IssueFlow {
  import opened DedupeKey
  import opened Options
  import opened Text

  const CANDIDATE_LIMIT: nat := 10
  const HOUR_MS := 3600 * 1000

  // A row of sobs_github_work_items; the sequence of rows is in order of creation.
  datatype Item = Item(repo: string, tf: Trigger, key: string, url: string, number: int, status: string,
                       requestedAt: nat, occurrence: nat)

  datatype OpenIssue = OpenIssue(url: string, number: int, assignees: seq<string>)

  datatype Candidate = Candidate(url: string, number: int, service: string, signal: string, key: string,
                                 status: string, assignees: seq<string>)

  // ----- candidates -----

  // The most recent rows of a repository that have an issue, newest first.
  function Recent(items: seq<Item>, repo: string, limit: nat): (r: seq<Item>)
    ensures |r| <= limit
    ensures forall i :: i in r ==> i in items && i.repo == repo && i.url != ""
  {
    if limit == 0 || items == [] then []
    else
      var last, rest := items[|items| - 1], items[..|items| - 1];
      if last.repo == repo && last.url != "" then [last] + Recent(rest, repo, limit - 1)
      else Recent(rest, repo, limit)
  }

  function ByUrl(open: seq<OpenIssue>): (m: map<string, OpenIssue>)
    ensures forall u :: u in m <==> exists o :: o in open && o.url == u
    ensures forall u :: u in m ==> m[u] in open && m[u].url == u
  {
    if open == [] then map[]
    else
      var o := open[|open| - 1];
      ByUrl(open[..|open| - 1])[o.url := o]
  }

  function Known(i: Item, o: OpenIssue): Candidate {
    Candidate(i.url, if o.number != 0 then o.number else i.number, i.tf.service, i.tf.signal, i.key, i.status, o.assignees)
  }

  function Unknown(o: OpenIssue): Candidate {
    Candidate(o.url, o.number, "", "", "", "", o.assignees)
  }

  lemma KnownUrl(i: Item, o: OpenIssue)
    ensures Known(i, o).url == i.url
  {
  }

  lemma UnknownUrl(o: OpenIssue)
    ensures Unknown(o).url == o.url
  {
  }

  function Urls(cs: seq<Candidate>): set<string> { set c | c in cs :: c.url }

  // Local rows whose issue is open, first row per issue; then the open issues without a local row.
  function FromLocal(local: seq<Item>, open: map<string, OpenIssue>): seq<Candidate> {
    if local == [] then []
    else
      var i := local[|local| - 1];
      var cs := FromLocal(local[..|local| - 1], open);
      if i.url == "" || i.url in Urls(cs) || i.url !in open then cs else cs + [Known(i, open[i.url])]
  }

  function AddOpen(cs: seq<Candidate>, open: seq<OpenIssue>): seq<Candidate> {
    if open == [] then cs
    else
      var o := open[|open| - 1];
      var ds := AddOpen(cs, open[..|open| - 1]);
      if o.url == "" || o.url in Urls(ds) then ds else ds + [Unknown(o)]
  }

  function Candidates(local: seq<Item>, open: seq<OpenIssue>): seq<Candidate> {
    AddOpen(FromLocal(local, ByUrl(open)), open)
  }

  method BuildCandidates(local: seq<Item>, open: seq<OpenIssue>) returns (cs: seq<Candidate>)
    ensures cs == Candidates(local, open)
  {
    hide Known, Unknown;
    var openByUrl: map<string, OpenIssue> := map[];
    for k := 0 to |open|
      invariant openByUrl == ByUrl(open[..k])
    {
      assert open[..k + 1][..k] == open[..k];
      openByUrl := openByUrl[open[k].url := open[k]];
    }
    assert open[..|open|] == open;
    cs := [];
    var seen: set<string> := {};
    for k := 0 to |local|
      invariant cs == FromLocal(local[..k], openByUrl) && seen == Urls(cs)
    {
      assert local[..k + 1][..k] == local[..k];
      var u := local[k].url;
      if u == "" || u in seen || u !in openByUrl {
        continue;
      }
      KnownUrl(local[k], openByUrl[u]);
      cs := cs + [Known(local[k], openByUrl[u])];
      seen := seen + {u};
    }
    assert local[..|local|] == local;
    ghost var known := cs;
    for k := 0 to |open|
      invariant cs == AddOpen(known, open[..k]) && seen == Urls(cs)
    {
      assert open[..k + 1][..k] == open[..k];
      var u := open[k].url;
      if u == "" || u in seen {
        continue;
      }
      UnknownUrl(open[k]);
      cs := cs + [Unknown(open[k])];
      seen := seen + {u};
    }
  }

  // Row k is the first of the listed rows with its issue, and c describes that issue from it.
  ghost predicate Describes(local: seq<Item>, k: int, open: map<string, OpenIssue>, c: Candidate) {
    0 <= k < |local| && c.url in open && c.url != "" && c == Known(local[k], open[c.url]) &&
    forall j :: 0 <= j < k ==> local[j].url != c.url
  }

  ghost predicate Distinct(cs: seq<Candidate>) { forall a, b :: 0 <= a < b < |cs| ==> cs[a].url != cs[b].url }

  lemma {:induction false} FromLocalComplete(local: seq<Item>, open: map<string, OpenIssue>, k: nat)
    requires k < |local| && local[k].url != "" && local[k].url in open
    ensures local[k].url in Urls(FromLocal(local, open))
    decreases |local|
  {
    var rest := local[..|local| - 1];
    var cs := FromLocal(rest, open);
    var u := local[k].url;
    if k < |rest| {
      FromLocalComplete(rest, open, k);
    }
    if u in Urls(cs) {
      var c :| c in cs && c.url == u;
      assert c in FromLocal(local, open);
    } else {
      assert Known(local[k], open[u]) in FromLocal(local, open);
    }
  }

  lemma {:induction false} FromLocalSound(local: seq<Item>, open: map<string, OpenIssue>, c: Candidate)
    requires c in FromLocal(local, open)
    ensures exists k :: Describes(local, k, open, c)
    decreases |local|
  {
    var rest := local[..|local| - 1];
    if c in FromLocal(rest, open) {
      FromLocalSound(rest, open, c);
      var k :| Describes(rest, k, open, c);
      assert Describes(local, k, open, c);
    } else {
      var k := |local| - 1;
      forall j | 0 <= j < k ensures local[j].url != c.url {
        assert rest[j] == local[j];
        if local[j].url == c.url {
          FromLocalComplete(rest, open, j);
        }
      }
      assert Describes(local, k, open, c);
    }
  }

  lemma {:induction false} FromLocalDistinct(local: seq<Item>, open: map<string, OpenIssue>)
    ensures Distinct(FromLocal(local, open))
    decreases |local|
  {
    if local != [] {
      FromLocalDistinct(local[..|local| - 1], open);
      var cs := FromLocal(local[..|local| - 1], open);
      assert forall a :: 0 <= a < |cs| ==> cs[a].url in Urls(cs);
    }
  }

  lemma {:induction false} AddOpenKeeps(cs: seq<Candidate>, open: seq<OpenIssue>)
    requires Distinct(cs)
    ensures Distinct(AddOpen(cs, open)) && cs <= AddOpen(cs, open)
    decreases |open|
  {
    if open != [] {
      AddOpenKeeps(cs, open[..|open| - 1]);
      var ds := AddOpen(cs, open[..|open| - 1]);
      assert forall a :: 0 <= a < |ds| ==> ds[a].url in Urls(ds);
    }
  }

  lemma {:induction false} AddOpenSound(cs: seq<Candidate>, open: seq<OpenIssue>, c: Candidate)
    requires c in AddOpen(cs, open) && c !in cs
    ensures c.url !in Urls(cs) && c.url != "" && exists o :: o in open && c == Unknown(o)
    decreases |open|
  {
    var ds := AddOpen(cs, open[..|open| - 1]);
    if c in ds {
      AddOpenSound(cs, open[..|open| - 1], c);
    } else {
      AddOpenGrows(cs, open[..|open| - 1]);
      assert c == Unknown(open[|open| - 1]);
    }
  }

  lemma {:induction false} AddOpenGrows(cs: seq<Candidate>, open: seq<OpenIssue>)
    ensures Urls(cs) <= Urls(AddOpen(cs, open))
    decreases |open|
  {
    if open != [] {
      AddOpenGrows(cs, open[..|open| - 1]);
    }
  }

  lemma {:induction false} AddOpenComplete(cs: seq<Candidate>, open: seq<OpenIssue>, o: OpenIssue)
    requires o in open && o.url != ""
    ensures o.url in Urls(AddOpen(cs, open))
    decreases |open|
  {
    var front, last := open[..|open| - 1], open[|open| - 1];
    var ds := AddOpen(cs, front);
    if o in front {
      AddOpenComplete(cs, front, o);
    }
    if o.url in Urls(ds) {
      var c :| c in ds && c.url == o.url;
      assert c in AddOpen(cs, open);
    } else {
      assert o == last && Unknown(o) in AddOpen(cs, open);
    }
  }

  // What the merge is for: every open issue once, described by the newest listed row if there is one.
  lemma CandidatesSpec(local: seq<Item>, open: seq<OpenIssue>)
    ensures Distinct(Candidates(local, open))
    ensures forall o :: o in open && o.url != "" ==> o.url in Urls(Candidates(local, open))
    ensures forall c :: c in Candidates(local, open) ==>
      c.url in ByUrl(open) &&
      if exists i :: i in local && i.url == c.url then exists k :: Describes(local, k, ByUrl(open), c)
      else exists o :: o in open && c == Unknown(o)
  {
    var m := ByUrl(open);
    var cs := FromLocal(local, m);
    FromLocalDistinct(local, m);
    AddOpenKeeps(cs, open);
    forall o | o in open && o.url != "" ensures o.url in Urls(Candidates(local, open)) {
      AddOpenComplete(cs, open, o);
    }
    forall c | c in Candidates(local, open)
      ensures c.url in m
      ensures if exists i :: i in local && i.url == c.url then exists k :: Describes(local, k, m, c)
              else exists o :: o in open && c == Unknown(o)
    {
      if c in cs {
        FromLocalSound(local, m, c);
        var k :| Describes(local, k, m, c);
        assert local[k] in local && local[k].url == c.url;
      } else {
        AddOpenSound(cs, open, c);
        var o :| o in open && c == Unknown(o);
        if exists i :: i in local && i.url == c.url {
          var k :| 0 <= k < |local| && local[k].url == c.url;
          FromLocalComplete(local, m, k);
        }
      }
    }
  }

  // ----- classification -----

  datatype Kind = Same | Related | Unrelated
  datatype Decision = Decision(kind: Kind, candidate: string)

  function FindByKey(cs: seq<Candidate>, key: string): Option<Candidate> {
    if cs == [] then None
    else if key != "" && cs[0].key != "" && key == cs[0].key then Some(cs[0])
    else FindByKey(cs[1..], key)
  }

  function FindByFamily(cs: seq<Candidate>, service: string, signal: string): Option<Candidate> {
    if cs == [] then None
    else if service != "" && service == Normalize(cs[0].service) && signal != "" && signal == Normalize(cs[0].signal)
    then Some(cs[0])
    else FindByFamily(cs[1..], service, signal)
  }

  // fallbackIssueDedupeDecision: a key match first, then the same service and signal.
  function Fallback(key: string, tf: Trigger, cs: seq<Candidate>): Decision {
    match FindByKey(cs, key)
    case Some(c) => Decision(Same, c.url)
    case None =>
      match FindByFamily(cs, Normalize(tf.service), Normalize(tf.signal))
      case Some(c) => Decision(Related, c.url)
      case None => Decision(Unrelated, "")
  }

  function FindByUrl(cs: seq<Candidate>, url: string): Option<Candidate> {
    if cs == [] then None else if cs[0].url == url then Some(cs[0]) else FindByUrl(cs[1..], url)
  }

  // ----- one run -----

  datatype Created = Nothing | Error | Issue(url: string, number: int)
  datatype Reply = Refused | Rejected(at: nat) | Requested(at: nat)
  datatype Analysis = Skipped | Replied | ModelFailed
  datatype Screening = NotAsked | Clean | Flagged

  // What a run is asked to do and what the outside world answers it. verdict is a usable reply of the
  // language model; without one the local fallback decides. clock is the time of the hourly count. saved
  // says whether the work item could be written: a failed write is ignored.
  datatype Inputs = Inputs(
    repo: string, token: bool, tf: Trigger, wantsIssue: bool, wantsCopilot: bool,
    guard: bool, analysis: Analysis, screening: Screening,
    open: seq<OpenIssue>, verdict: Option<Decision>, allowNew: bool, created: Created, linkedPr: bool, reply: Reply,
    maxPerHour: nat, maxActive: nat, hourCounted: bool, activeCounted: bool, clock: nat, saved: bool)

  function Distance(a: int, b: int): int { if a < b then b - a else a - b }

  // parseBoundedIntSetting, for a setting that is absent or no integer (None) or an integer.
  function Bounded(setting: Option<int>, default: int, low: int, high: int): (n: int)
    requires low <= default <= high
    ensures low <= n <= high && (setting.None? ==> n == default)
    ensures setting.Some? ==> forall m :: low <= m <= high ==> Distance(n, setting.value) <= Distance(m, setting.value)
  {
    var parsed := if setting.Some? then setting.value else default;
    if parsed < low then low else if parsed > high then high else parsed
  }

  function Requests(items: seq<Item>, from: int, to: int): nat {
    if items == [] then 0
    else
      var i := items[|items| - 1];
      Requests(items[..|items| - 1], from, to) + if i.requestedAt > 0 && from <= i.requestedAt <= to then 1 else 0
  }

  function Since(items: seq<Item>, from: int): nat {
    if items == [] then 0
    else
      var i := items[|items| - 1];
      Since(items[..|items| - 1], from) + if i.requestedAt > 0 && from <= i.requestedAt then 1 else 0
  }

  predicate Busy(status: string) { status == "requested" || status == "active" }

  function Active(items: seq<Item>): nat {
    if items == [] then 0
    else Active(items[..|items| - 1]) + if Busy(items[|items| - 1].status) then 1 else 0
  }

  function Occurrences(items: seq<Item>, url: string): nat {
    if items == [] then 0
    else Occurrences(items[..|items| - 1], url) + if items[|items| - 1].url == url then 1 else 0
  }

  // The counters answer 0 when their query fails; the cutoff is clamped at 0.
  function HourCount(items: seq<Item>, inp: Inputs): nat {
    if inp.hourCounted then Since(items, if inp.clock < HOUR_MS then 0 else inp.clock - HOUR_MS) else 0
  }

  function ActiveCount(items: seq<Item>, inp: Inputs): nat { if inp.activeCounted then Active(items) else 0 }

  datatype Outcome = Outcome(url: string, decision: string, status: string, requestedAt: nat, createdNew: bool, occurrence: nat)

  // assignIssueToCopilot refuses a missing issue number; every attempted request is stamped.
  function Assign(o: Outcome, number: int, reply: Reply): Outcome {
    if number <= 0 || reply.Refused? then o.(status := "blocked", requestedAt := 0)
    else if reply.Rejected? then o.(status := "failed", requestedAt := reply.at)
    else o.(status := "requested", requestedAt := reply.at)
  }

  function OpenNew(items: seq<Item>, inp: Inputs): Outcome {
    var created := if inp.allowNew then inp.created else Nothing;
    var url := if created.Issue? then created.url else "";
    var decision := if url != "" then "new_issue" else if !inp.allowNew then "suppressed_rate_limit" else "create_failed";
    var o := Outcome(url, decision, "not_requested", 0, url != "", 1);
    if created.Nothing? then o.(status := if inp.wantsCopilot then "blocked" else "not_requested")
    else if !inp.wantsCopilot then o
    else if HourCount(items, inp) >= inp.maxPerHour then o.(status := "blocked")
    else if ActiveCount(items, inp) >= inp.maxActive then o.(status := "blocked")
    else Assign(o, if created.Issue? then created.number else 0, inp.reply)
  }

  const COPILOT_LOGINS: set<string> := {"copilot-swe-agent[bot]", "copilot-swe-agent"}

  predicate CopilotAssigned(assignees: seq<string>) {
    exists a :: a in assignees && ToLower(a) in COPILOT_LOGINS
  }

  function CurrentStatus(c: Candidate): string {
    if CopilotAssigned(c.assignees) then "active" else if c.status == "" then "not_requested" else c.status
  }

  function DecisionName(kind: Kind): string { if kind == Same then "reused_existing" else "related_existing" }

  function Reuse(items: seq<Item>, inp: Inputs, c: Candidate, kind: Kind): Outcome {
    var status := CurrentStatus(c);
    var o := Outcome(c.url, DecisionName(kind), status, 0, false, Occurrences(items, c.url) + 1);
    if !inp.wantsCopilot then o
    else if inp.linkedPr || Busy(status) then o.(status := "blocked")
    else if HourCount(items, inp) >= inp.maxPerHour then o.(status := "blocked")
    else if ActiveCount(items, inp) >= inp.maxActive then o.(status := "blocked")
    else Assign(o, c.number, inp.reply)
  }

  function CandidatesOf(items: seq<Item>, inp: Inputs): seq<Candidate> {
    Candidates(Recent(items, inp.repo, CANDIDATE_LIMIT), inp.open)
  }

  function Decide(items: seq<Item>, inp: Inputs): Decision {
    if inp.verdict.Some? then inp.verdict.value
    else Fallback(Key(inp.repo, inp.tf), inp.tf, CandidatesOf(items, inp))
  }

  // The candidate that the classification picks, if it is one.
  function Target(items: seq<Item>, inp: Inputs): Option<Candidate> {
    var d := Decide(items, inp);
    if d.kind == Unrelated then None else FindByUrl(CandidatesOf(items, inp), d.candidate)
  }

  function Choose(items: seq<Item>, inp: Inputs): Outcome {
    match Target(items, inp)
    case Some(c) => Reuse(items, inp, c, Decide(items, inp).kind)
    case None => OpenNew(items, inp)
  }

  // Whether a run that reaches the issue step asks Copilot to work on an issue: what the code checks
  // before it does, on either path.
  predicate Asks(items: seq<Item>, inp: Inputs) {
    && inp.wantsCopilot && !inp.reply.Refused?
    && HourCount(items, inp) < inp.maxPerHour && ActiveCount(items, inp) < inp.maxActive
    && match Target(items, inp)
       case Some(c) => !inp.linkedPr && !Busy(CurrentStatus(c)) && c.number > 0
       case None => inp.allowNew && inp.created.Issue? && inp.created.number > 0
  }

  lemma AsksExactly(items: seq<Item>, inp: Inputs)
    ensures Choose(items, inp).requestedAt == if Asks(items, inp) then inp.reply.at else 0
    ensures Asks(items, inp) ==> Choose(items, inp).status == if inp.reply.Requested? then "requested" else "failed"
    ensures !Asks(items, inp) && Busy(Choose(items, inp).status) <==>
              !inp.wantsCopilot && Target(items, inp).Some? && Busy(CurrentStatus(Target(items, inp).value))
  {
    hide Target, HourCount, ActiveCount, CurrentStatus, Decide;
  }

  // The number at the end of an issue address, or 0.
  function NumberOf(url: string): int {
    var parts := Split(TrimRight(url, '/'), '/');
    Atoi(parts[|parts| - 1])
  }

  // owner/name as persistGithubWorkItem reads it off an issue address.
  function RepoOf(url: string): string {
    var parts := Split(url, '/');
    if |parts| >= 4 then parts[|parts| - 4] + "/" + parts[|parts| - 3] else ""
  }

  predicate ReachesIssue(inp: Inputs) {
    && inp.guard && !inp.analysis.ModelFailed? && inp.wantsIssue && inp.token && inp.repo != ""
    && !inp.screening.Flagged?
  }

  function Recorded(items: seq<Item>, inp: Inputs): Item {
    var o := Choose(items, inp);
    Item(RepoOf(o.url), inp.tf, Key(inp.repo, inp.tf), o.url, NumberOf(o.url), o.status, o.requestedAt, o.occurrence)
  }

  function Step(items: seq<Item>, inp: Inputs): seq<Item> {
    if ReachesIssue(inp) && inp.saved then items + [Recorded(items, inp)] else items
  }

  datatype Status = Pending | Running | BlockedByGuard | Completed | FailedRun
  datatype RunRow = RunRow(id: nat, status: Status, url: string)

  function FinalRow(items: seq<Item>, id: nat, inp: Inputs): RunRow {
    if !inp.guard then RunRow(id, BlockedByGuard, "")
    else if inp.analysis.ModelFailed? then RunRow(id, FailedRun, "")
    else RunRow(id, Completed, if ReachesIssue(inp) then Choose(items, inp).url else "")
  }

  // The rows that were written: a failed insert of a run row is ignored.
  function Written(rows: seq<RunRow>, fails: nat -> bool): seq<RunRow> {
    if rows == [] then []
    else Written(rows[..|rows| - 1], fails) + if fails(|rows| - 1) then [] else [rows[|rows| - 1]]
  }

  function IfWritten(row: RunRow, fails: bool): seq<RunRow> { if fails then [] else [row] }

  lemma WrittenThree(runs: seq<RunRow>, a: RunRow, b: RunRow, c: RunRow, fails: nat -> bool)
    ensures runs + Written([a, b, c], fails) ==
            runs + IfWritten(a, fails(0)) + IfWritten(b, fails(1)) + IfWritten(c, fails(2))
  {
    assert [a, b, c][..2] == [a, b] && [a, b][..1] == [a] && [a][..0] == [];
    assert Written([a], fails) == IfWritten(a, fails(0));
    var x, y, z := IfWritten(a, fails(0)), IfWritten(b, fails(1)), IfWritten(c, fails(2));
    assert Written([a, b, c], fails) == x + y + z;
    assert runs + (x + y + z) == runs + x + y + z;
  }

  /** The work items and the run rows, as the flow appends to them. */
  class Desk {
    var items: seq<Item>
    var runs: seq<RunRow>

    constructor ()
      ensures items == [] && runs == []
    {
      items, runs := [], [];
    }

    method InsertAgentRun(row: RunRow, fails: bool)
      modifies this`runs
      ensures runs == old(runs) + IfWritten(row, fails)
    {
      if !fails {
        runs := runs + [row];
      }
    }

    method ReuseExisting(inp: Inputs, c: Candidate, kind: Kind) returns (o: Outcome)
      ensures o == Reuse(items, inp, c, kind)
    {
      var status := if c.status == "" then "not_requested" else c.status;
      var k := 0;
      while k < |c.assignees| && ToLower(c.assignees[k]) !in COPILOT_LOGINS
        invariant 0 <= k <= |c.assignees|
        invariant forall j :: 0 <= j < k ==> ToLower(c.assignees[j]) !in COPILOT_LOGINS
      {
        k := k + 1;
      }
      if k < |c.assignees| {
        status := "active";
      }
      assert CopilotAssigned(c.assignees) <==> k < |c.assignees|;
      o := Outcome(c.url, DecisionName(kind), status, 0, false, Occurrences(items, c.url) + 1);
      if !inp.wantsCopilot {
        return;
      }
      if inp.linkedPr || Busy(status) || HourCount(items, inp) >= inp.maxPerHour || ActiveCount(items, inp) >= inp.maxActive {
        o := o.(status := "blocked");
      } else {
        o := Assign(o, c.number, inp.reply);
      }
    }

    method ChooseOutcome(inp: Inputs) returns (o: Outcome)
      ensures o == Choose(items, inp)
    {
      var cs := BuildCandidates(Recent(items, inp.repo, CANDIDATE_LIMIT), inp.open);
      var d := if inp.verdict.Some? then inp.verdict.value else Fallback(Key(inp.repo, inp.tf), inp.tf, cs);
      var found := FindByUrl(cs, d.candidate);
      if d.kind != Unrelated && found.Some? {
        o := ReuseExisting(inp, found.value, d.kind);
        return;
      }
      o := OpenNew(items, inp);
    }

    // The insert of run row number k of this run fails if fails(k).
    method RunRule(id: nat, inp: Inputs, fails: nat -> bool)
      modifies this
      ensures items == Step(old(items), inp)
      ensures runs == old(runs) +
                Written([RunRow(id, Pending, ""), RunRow(id, Running, ""), FinalRow(old(items), id, inp)], fails)
    {
      hide Choose, Written, IfWritten, NumberOf, RepoOf, Key;
      WrittenThree(runs, RunRow(id, Pending, ""), RunRow(id, Running, ""), FinalRow(items, id, inp), fails);
      InsertAgentRun(RunRow(id, Pending, ""), fails(0));
      InsertAgentRun(RunRow(id, Running, ""), fails(1));
      if !inp.guard {
        InsertAgentRun(RunRow(id, BlockedByGuard, ""), fails(2));
        return;
      }
      if inp.analysis.ModelFailed? {
        InsertAgentRun(RunRow(id, FailedRun, ""), fails(2));
        return;
      }
      var url := "";
      if inp.wantsIssue && inp.token && inp.repo != "" {
        if inp.screening.Flagged? {
          InsertAgentRun(RunRow(id, Completed, ""), fails(2));
          return;
        }
        var o := ChooseOutcome(inp);
        url := o.url;
        if inp.saved {
          items := items + [Item(RepoOf(o.url), inp.tf, Key(inp.repo, inp.tf), o.url, NumberOf(o.url), o.status, o.requestedAt, o.occurrence)];
        }
      }
      InsertAgentRun(RunRow(id, Completed, url), fails(2));
    }
  }
}
