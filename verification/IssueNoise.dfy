/** Visibility of issues is not automatic: a series of runs in which every open issue is fetched, and which
    leaves two open issues for one service and signal all the same. */
module IssueNoise {
  import opened DedupeKey
  import opened IssueFlow
  import opened IssueUniqueness
  import opened Options
  import opened Text

  // Every open issue is in the fetched list; the work items are as recent as they happen to be.
  ghost predicate Fetched(inputs: seq<Inputs>, live: seq<set<string>>) {
    |live| == |inputs| + 1 && forall k :: 0 <= k < |inputs| ==> FetchedAt(inputs, live, k)
  }

  ghost predicate FetchedAt(inputs: seq<Inputs>, live: seq<set<string>>, k: nat)
    requires k < |inputs| && |live| == |inputs| + 1
  {
    Goes(After(inputs[..k]), inputs[k], live[k], After(inputs[..k]).Next(inputs[k]), live[k + 1])
  }

  // One such run, from l with these issues open to l'.
  ghost predicate Goes(l: Ledger, inp: Inputs, live: set<string>, l': Ledger, now: set<string>) {
    Local(l, inp) && Lists(inp, live) && l' == l.Next(inp) && now <= LiveAfter(l, inp, live)
  }

  predicate Lists(inp: Inputs, live: set<string>) { forall u :: u in live ==> exists p :: p in inp.open && p.url == u }

  lemma FetchedMore(inputs: seq<Inputs>, live: seq<set<string>>, inp: Inputs, l': Ledger, now: set<string>)
    requires Fetched(inputs, live) && Goes(After(inputs), inp, live[|inputs|], l', now)
    ensures Fetched(inputs + [inp], live + [now]) && After(inputs + [inp]) == l'
  {
    hide After, Goes;
    var all, lives := inputs + [inp], live + [now];
    GoesNext(After(inputs), inp, live[|inputs|], l', now);
    AfterMore(inputs, inp);
    forall k | 0 <= k < |all| ensures FetchedAt(all, lives, k) {
      if k < |inputs| {
        assert all[..k] == inputs[..k] && FetchedAt(inputs, live, k);
      } else {
        assert all[..k] == inputs;
      }
    }
  }

  lemma GoesNext(l: Ledger, inp: Inputs, live: set<string>, l': Ledger, now: set<string>)
    ensures Goes(l, inp, live, l', now) ==> l' == l.Next(inp)
  {
    hide Local, LiveAfter, Ledger.Next, Lists;
  }

  lemma AfterMore(inputs: seq<Inputs>, inp: Inputs)
    ensures After(inputs + [inp]) == After(inputs).Next(inp)
  {
    assert (inputs + [inp])[..|inputs|] == inputs;
  }

  // ----- one repository, two families, three addresses -----

  datatype Scene = Scene(repo: string, a: Trigger, b: Trigger, one: string, two: string, three: string) {
    predicate Valid() {
      && Normalize(repo) != "" && FamilyOf(repo, a).Named() && FamilyOf(repo, b).Named()
      && Normalize(a.service) != Normalize(b.service)
      && RepoOf(one) == RepoOf(two) == RepoOf(three) == repo
      && one != "" && two != "" && three != "" && one != two && one != three && two != three
    }

    function Input(tf: Trigger, open: seq<OpenIssue>, created: Created): Inputs {
      Inputs(repo, true, tf, true, false, true, Skipped, NotAsked, open, None, true, created, false, Refused, 1, 1,
             true, true, 0, true)
    }

    function One(): OpenIssue { OpenIssue(one, 1, []) }

    function Two(): OpenIssue { OpenIssue(two, 2, []) }

    function Issues(n: nat): seq<AgentIssue> {
      [AgentIssue(one, FamilyOf(repo, a))] + (if n == 0 then [] else [AgentIssue(two, FamilyOf(repo, b))])
    }

    predicate Row(i: Item, url: string, tf: Trigger) { i.repo == repo && i.tf == tf && i.key == Key(repo, tf) && i.url == url }

    // The first family has one row, all later rows are of the second family's issue.
    ghost predicate Noisy(l: Ledger, n: nat) {
      && Consistent(l) && |l.items| == n + 1 && l.issues == Issues(n) && Row(l.items[0], one, a)
      && forall k :: 1 <= k <= n ==> Row(l.items[k], two, b)
    }
  }

  lemma KeysDiffer(s: Scene)
    requires s.Valid()
    ensures Key(s.repo, s.a) != Key(s.repo, s.b)
  {
    hide Normalize, RepoOf;
    assert Parts(s.repo, s.a)[1] != Parts(s.repo, s.b)[1];
    KeyInjective(s.repo, s.a, s.repo, s.b);
  }

  // A run whose family none of the recent rows has finds no match.
  lemma Unmatched(s: Scene, l: Ledger, inp: Inputs, other: Trigger)
    requires s.Valid() && inp.repo == s.repo && ((inp.tf == s.a && other == s.b) || (inp.tf == s.b && other == s.a))
    requires forall i :: i in Recent(l.items, s.repo, CANDIDATE_LIMIT) ==> i.tf == other && i.key == Key(s.repo, other)
    ensures NoMatch(l.items, inp)
  {
    KeysDiffer(s);
    KeyIsGiven(s.repo, inp.tf);
    hide Normalize, Key, CandidatesOf, RepoOf, Recent;
    forall c | c in CandidatesOf(l.items, inp) ensures c.key != Key(inp.repo, inp.tf) && !SameFamily(c, inp.tf) {
      if c.key != "" || Normalize(c.service) != "" {
        var i := KnownCandidate(l, inp, c);
      }
    }
  }

  lemma Opened(l: Ledger, inp: Inputs)
    requires Normalize(inp.repo) != "" && inp.verdict.None? && Opens(l.items, inp) && inp.saved
    ensures var o := Choose(l.items, inp);
            && o.createdNew && o.url == inp.created.url
            && l.Next(inp).items == l.items + [Recorded(l.items, inp)]
            && l.Next(inp).issues == l.issues + [AgentIssue(o.url, FamilyOf(inp.repo, inp.tf))]
            && forall live :: LiveAfter(l, inp, live) == live + {o.url}
  {
    OpensExactly(l.items, inp);
    NewIssueIsCreated(l.items, inp);
    hide OpenNew, Target, Decide, Normalize, NoMatch, Reuse, RepoOf, NumberOf, Key;
    match Target(l.items, inp)
    case Some(c) => ReuseKeepsIssue(l.items, inp, c, Decide(l.items, inp).kind);
    case None =>
  }

  lemma RowRecorded(s: Scene, items: seq<Item>, inp: Inputs, url: string)
    requires s.Valid() && inp.repo == s.repo && Choose(items, inp).url == url && RepoOf(url) == s.repo
    ensures s.Row(Recorded(items, inp), url, inp.tf)
  {
    hide Choose, RepoOf, NumberOf, Key, Normalize;
  }

  lemma InputOpens(s: Scene, l: Ledger, tf: Trigger, open: seq<OpenIssue>, url: string, number: int)
    requires s.Valid() && NoMatch(l.items, s.Input(tf, open, Issue(url, number))) && url != ""
    requires RepoOf(url) == s.repo && forall o :: o in l.issues ==> o.url != url
    ensures var inp := s.Input(tf, open, Issue(url, number)); Opens(l.items, inp) && Local(l, inp)
  {
    hide Normalize, RepoOf, NoMatch;
    assert s.repo != "" by {
      NormalOfNothing();
    }
  }

  lemma NormalOfNothing()
    ensures Normalize("") == ""
  {
  }

  // A run that finds no match opens an issue, and leaves a row of it.
  lemma OpeningGoes(s: Scene, l: Ledger, tf: Trigger, open: seq<OpenIssue>, url: string, number: int, live: set<string>)
    returns (l': Ledger)
    requires s.Valid() && Consistent(l) && NoMatch(l.items, s.Input(tf, open, Issue(url, number))) && url != ""
    requires RepoOf(url) == s.repo && forall o :: o in l.issues ==> o.url != url
    requires Lists(s.Input(tf, open, Issue(url, number)), live)
    ensures var inp := s.Input(tf, open, Issue(url, number));
            && Goes(l, inp, live, l', live + {url}) && Consistent(l')
            && |l'.items| == |l.items| + 1 && l.items <= l'.items && s.Row(l'.items[|l.items|], url, tf)
            && l'.issues == l.issues + [AgentIssue(url, FamilyOf(s.repo, tf))]
  {
    hide Normalize, Key, RepoOf, NumberOf, Consistent, Local, LiveAfter, Choose, NoMatch, Opens, Recent, Ledger.Next, Recorded, Lists, Scene.Row;
    var inp := s.Input(tf, open, Issue(url, number));
    l' := l.Next(inp);
    InputOpens(s, l, tf, open, url, number);
    Opened(l, inp);
    RowRecorded(s, l.items, inp, url);
    NextConsistent(l, inp);
  }

  lemma NothingYet(s: Scene)
    ensures Consistent(Ledger([], [])) && Recent([], s.repo, CANDIDATE_LIMIT) == [] && After([]) == Ledger([], [])
    ensures Fetched([], [{}]) && Lists(s.Input(s.a, [], Issue(s.one, 1)), {})
  {
  }

  lemma FirstRun(s: Scene) returns (inputs: seq<Inputs>, live: seq<set<string>>)
    requires s.Valid()
    ensures Fetched(inputs, live) && live[|inputs|] == {s.one} && s.Noisy(After(inputs), 0)
  {
    NothingYet(s);
    hide Normalize, Key, RepoOf, Consistent, Goes, NoMatch, Fetched, After, Recent, Lists;
    var inp := s.Input(s.a, [], Issue(s.one, 1));
    Unmatched(s, Ledger([], []), inp, s.b);
    var l := OpeningGoes(s, Ledger([], []), s.a, [], s.one, 1, {});
    FetchedMore([], [{}], inp, l, {} + {s.one});
    inputs, live := [] + [inp], [{}] + [{} + {s.one}];
  }

  // The newest rows are all that is recent.
  lemma {:induction false} RecentIsNewest(s: Scene, items: seq<Item>, noise: seq<Item>, limit: nat)
    requires limit <= |noise| && forall k :: 0 <= k < |noise| ==> noise[k].repo == s.repo && noise[k].url != ""
    ensures forall i :: i in Recent(items + noise, s.repo, limit) ==> i in noise
    decreases limit
  {
    if limit > 0 {
      var all, front := items + noise, noise[..|noise| - 1];
      assert all[..|all| - 1] == items + front && all[|all| - 1] == noise[|noise| - 1];
      RecentIsNewest(s, items, front, limit - 1);
    }
  }

  lemma {:induction false} RecentIsItem(items: seq<Item>, repo: string, limit: nat)
    ensures forall i :: i in Recent(items, repo, limit) ==> i in items
  {
  }

  lemma OneIsMatched(s: Scene, l: Ledger)
    requires s.Valid() && s.Noisy(l, 0)
    ensures NoMatch(l.items, s.Input(s.b, [s.One()], Issue(s.two, 2)))
  {
    hide Normalize, Key, RepoOf, Consistent, NoMatch, Recent;
    RecentIsItem(l.items, s.repo, CANDIDATE_LIMIT);
    Unmatched(s, l, s.Input(s.b, [s.One()], Issue(s.two, 2)), s.a);
  }

  // The second family's first run.
  lemma SecondRun(s: Scene) returns (inputs: seq<Inputs>, live: seq<set<string>>)
    requires s.Valid()
    ensures Fetched(inputs, live) && live[|inputs|] == {s.one, s.two} && s.Noisy(After(inputs), 1)
  {
    hide Normalize, Key, RepoOf, Consistent, Goes, NoMatch, Fetched, After, Recent;
    inputs, live := FirstRun(s);
    FetchedLength(inputs, live);
    var inp := s.Input(s.b, [s.One()], Issue(s.two, 2));
    OneIsMatched(s, After(inputs));
    assert inp.open[0].url == s.one;
    var l := OpeningGoes(s, After(inputs), s.b, [s.One()], s.two, 2, {s.one});
    assert {s.one} + {s.two} == {s.one, s.two};
    FetchedMore(inputs, live, inp, l, {s.one, s.two});
    inputs, live := inputs + [inp], live + [{s.one, s.two}];
  }

  lemma NewestIsRecent(items: seq<Item>, repo: string)
    requires items != [] && items[|items| - 1].repo == repo && items[|items| - 1].url != ""
    ensures items[|items| - 1] in Recent(items, repo, CANDIDATE_LIMIT)
  {
  }

  lemma MatchRefutes(items: seq<Item>, inp: Inputs, c: Candidate)
    requires c in CandidatesOf(items, inp) && SameFamily(c, inp.tf)
    ensures !NoMatch(items, inp)
  {
  }

  lemma InputIsLocal(s: Scene, l: Ledger, tf: Trigger, open: seq<OpenIssue>)
    requires s.Valid()
    ensures var inp := s.Input(tf, open, Nothing); Local(l, inp) && inp.repo == s.repo && ReachesIssue(inp)
  {
    hide Normalize, RepoOf;
    assert s.repo != "" by {
      NormalOfNothing();
    }
  }

  lemma BothVisible(s: Scene, l: Ledger, inp: Inputs, n: nat)
    requires s.Valid() && s.Noisy(l, n) && n > 0 && inp == s.Input(s.b, [s.One(), s.Two()], Nothing)
    ensures Visible(l, inp, {s.one, s.two})
  {
    hide Normalize, Key, RepoOf, Recent, Consistent;
    NewestIsRecent(l.items, s.repo);
    assert l.items[n].url == s.two && inp.open[1].url == s.two && inp.open[0].url == s.one;
  }

  lemma SecondIsMatched(s: Scene, l: Ledger, inp: Inputs, n: nat)
    requires s.Valid() && s.Noisy(l, n) && n > 0 && inp == s.Input(s.b, [s.One(), s.Two()], Nothing)
    ensures Target(l.items, inp).Some?
  {
    BothVisible(s, l, inp, n);
    hide Normalize, Key, RepoOf, CandidatesOf, Recent, NoMatch, Target, Visible, Consistent;
    var issue := AgentIssue(s.two, FamilyOf(s.repo, s.b));
    assert l.issues[1] == issue;
    var c := VisibleCandidate(l, inp, {s.one, s.two}, issue);
    MatchRefutes(l.items, inp, c);
    NothingFound(l.items, inp);
  }

  lemma NoisyFacts(s: Scene, l: Ledger, n: nat)
    requires s.Valid() && s.Noisy(l, n)
    ensures Consistent(l) && AgentIssue(s.one, FamilyOf(s.repo, s.a)) in l.issues && FamilyOf(s.repo, s.a).Named()
    ensures forall o :: o in l.issues ==> o.url == s.one || o.url == s.two
    ensures forall i :: i in l.items && FamilyOf(i.repo, i.tf) == FamilyOf(s.repo, s.b) ==> i.url == s.two
  {
    hide Normalize, Key, RepoOf, Consistent;
    assert l.issues[0] == AgentIssue(s.one, FamilyOf(s.repo, s.a));
    assert FamilyOf(s.repo, s.a) != FamilyOf(s.repo, s.b);
  }

  lemma SceneFacts(s: Scene, tf: Trigger, open: seq<OpenIssue>, created: Created)
    requires s.Valid()
    ensures Normalize(s.repo) != "" && RepoOf(s.two) == s.repo && RepoOf(s.three) == s.repo
    ensures s.three != "" && s.three != s.one && s.three != s.two
    ensures var inp := s.Input(tf, open, created); inp.repo == s.repo && inp.tf == tf && inp.saved && inp.open == open
  {
    hide Normalize, RepoOf;
  }

  // One more run of the second family reuses its issue.
  lemma Reused(s: Scene, l: Ledger, inp: Inputs, n: nat)
    requires s.Valid() && s.Noisy(l, n) && n > 0 && inp == s.Input(s.b, [s.One(), s.Two()], Nothing)
    ensures var o := Choose(l.items, inp); !o.createdNew && o.url == s.two
  {
    hide *;
    SecondIsMatched(s, l, inp, n);
    InputIsLocal(s, l, s.b, [s.One(), s.Two()]);
    NoisyFacts(s, l, n);
    SceneFacts(s, s.b, [s.One(), s.Two()], Nothing);
    var found := Target(l.items, inp).value;
    ReusedRow(l, inp, found);
    ReuseSharesFamily(l, inp, found);
  }

  lemma ReuseSteps(l: Ledger, inp: Inputs, live: set<string>)
    requires ReachesIssue(inp) && inp.saved && !Choose(l.items, inp).createdNew
    ensures l.Next(inp) == Ledger(l.items + [Recorded(l.items, inp)], l.issues) && LiveAfter(l, inp, live) == live
  {
    hide Choose, Recorded;
  }

  lemma NoisyMore(s: Scene, l: Ledger, n: nat, row: Item)
    requires s.Noisy(l, n) && n > 0 && s.Row(row, s.two, s.b) && Consistent(Ledger(l.items + [row], l.issues))
    ensures s.Noisy(Ledger(l.items + [row], l.issues), n + 1)
  {
    hide Consistent, Scene.Row;
  }

  lemma ListsBoth(s: Scene, tf: Trigger, created: Created)
    ensures Lists(s.Input(tf, [s.One(), s.Two()], created), {s.one, s.two})
  {
    var inp := s.Input(tf, [s.One(), s.Two()], created);
    assert inp.open[0].url == s.one && inp.open[1].url == s.two;
  }

  lemma GoesIs(l: Ledger, inp: Inputs, live: set<string>, now: set<string>)
    requires Local(l, inp) && Lists(inp, live) && now <= LiveAfter(l, inp, live)
    ensures Goes(l, inp, live, l.Next(inp), now)
  {
    hide Local, LiveAfter, Ledger.Next, Lists;
  }

  lemma ReuseGoes(s: Scene, l: Ledger, n: nat) returns (l': Ledger)
    requires s.Valid() && s.Noisy(l, n) && n > 0
    ensures Goes(l, s.Input(s.b, [s.One(), s.Two()], Nothing), {s.one, s.two}, l', {s.one, s.two}) && s.Noisy(l', n + 1)
  {
    hide *;
    var inp := s.Input(s.b, [s.One(), s.Two()], Nothing);
    l' := l.Next(inp);
    Reused(s, l, inp, n);
    InputIsLocal(s, l, s.b, [s.One(), s.Two()]);
    NoisyFacts(s, l, n);
    SceneFacts(s, s.b, [s.One(), s.Two()], Nothing);
    ReuseSteps(l, inp, {s.one, s.two});
    RowRecorded(s, l.items, inp, s.two);
    NextConsistent(l, inp);
    NoisyMore(s, l, n, Recorded(l.items, inp));
    ListsBoth(s, s.b, Nothing);
    GoesIs(l, inp, {s.one, s.two}, {s.one, s.two});
  }

  lemma {:induction false} NoisyRuns(s: Scene, n: nat) returns (inputs: seq<Inputs>, live: seq<set<string>>)
    requires s.Valid() && n > 0
    ensures Fetched(inputs, live) && live[|inputs|] == {s.one, s.two} && s.Noisy(After(inputs), n)
  {
    hide Scene.Valid, Scene.Noisy, Goes, Fetched, After;
    if n == 1 {
      inputs, live := SecondRun(s);
    } else {
      inputs, live := NoisyRuns(s, n - 1);
      FetchedLength(inputs, live);
      var inp := s.Input(s.b, [s.One(), s.Two()], Nothing);
      var l := ReuseGoes(s, After(inputs), n - 1);
      FetchedMore(inputs, live, inp, l, {s.one, s.two});
      inputs, live := inputs + [inp], live + [{s.one, s.two}];
    }
  }

  lemma FetchedLength(inputs: seq<Inputs>, live: seq<set<string>>)
    ensures Fetched(inputs, live) ==> |live| == |inputs| + 1
  {
  }

  lemma TenRowsHide(s: Scene, l: Ledger)
    requires s.Valid() && s.Noisy(l, CANDIDATE_LIMIT)
    ensures forall i :: i in Recent(l.items, s.repo, CANDIDATE_LIMIT) ==> i.tf == s.b && i.key == Key(s.repo, s.b)
  {
    hide Normalize, Key, RepoOf, Recent, Consistent;
    var noise := l.items[1..];
    assert l.items == l.items[..1] + noise;
    assert forall k :: 0 <= k < |noise| ==> s.Row(noise[k], s.two, s.b);
    RecentIsNewest(s, l.items[..1], noise, CANDIDATE_LIMIT);
  }

  lemma TwoRivals(l: Ledger, a: AgentIssue, b: AgentIssue, live: set<string>)
    requires a in l.issues && b in l.issues && Rivals(a, b, live) && a.url != b.url
    ensures !OneOpenIssue(l, live)
  {
  }

  // The first family's issue is then out of sight.
  lemma ThirdGoes(s: Scene, l: Ledger) returns (l': Ledger)
    requires s.Valid() && s.Noisy(l, CANDIDATE_LIMIT)
    ensures Goes(l, s.Input(s.a, [s.One(), s.Two()], Issue(s.three, 3)), {s.one, s.two}, l', {s.one, s.two} + {s.three})
    ensures Consistent(l') && !OneOpenIssue(l', {s.one, s.two} + {s.three})
  {
    hide *;
    var inp := s.Input(s.a, [s.One(), s.Two()], Issue(s.three, 3));
    var live := {s.one, s.two} + {s.three};
    TenRowsHide(s, l);
    NoisyFacts(s, l, CANDIDATE_LIMIT);
    SceneFacts(s, s.a, [s.One(), s.Two()], Issue(s.three, 3));
    Unmatched(s, l, inp, s.b);
    ListsBoth(s, s.a, Issue(s.three, 3));
    l' := OpeningGoes(s, l, s.a, [s.One(), s.Two()], s.three, 3, {s.one, s.two});
    var a, b := AgentIssue(s.one, FamilyOf(s.repo, s.a)), AgentIssue(s.three, FamilyOf(s.repo, s.a));
    assert Rivals(a, b, live) by {
      AreRivals(a, b, live);
    }
    TwoRivals(l', a, b, live);
  }

  lemma AreRivals(a: AgentIssue, b: AgentIssue, live: set<string>)
    requires a.url in live && b.url in live && a.family == b.family && a.family.Named()
    ensures Rivals(a, b, live)
  {
  }

  // Whatever the repository and the two families: after ten runs for the second, a run for the first opens a
  // second issue although its first one is open and in the fetched list.
  lemma TwoOpenIssues(s: Scene) returns (inputs: seq<Inputs>, live: seq<set<string>>)
    requires s.Valid()
    ensures Fetched(inputs, live) && |live| == |inputs| + 1
    ensures Consistent(After(inputs)) && !OneOpenIssue(After(inputs), live[|inputs|])
  {
    hide Scene.Valid, Scene.Noisy, Goes, Fetched, After, Consistent, OneOpenIssue;
    inputs, live := NoisyRuns(s, CANDIDATE_LIMIT);
    FetchedLength(inputs, live);
    var inp := s.Input(s.a, [s.One(), s.Two()], Issue(s.three, 3));
    var l := ThirdGoes(s, After(inputs));
    FetchedMore(inputs, live, inp, l, {s.one, s.two} + {s.three});
    inputs, live := inputs + [inp], live + [{s.one, s.two} + {s.three}];
    FetchedLength(inputs, live);
  }

  // ----- such a repository exists -----

  function Address(n: string): string { Join(["https:", "", "github.com", "o", "r", "issues", n], '/') }

  lemma AddressReads(n: string)
    requires '/' !in n
    ensures Split(Address(n), '/') == ["https:", "", "github.com", "o", "r", "issues", n] && RepoOf(Address(n)) == "o/r"
    ensures Address(n) != ""
  {
    SplitOfJoin(["https:", "", "github.com", "o", "r", "issues", n], '/');
    hide Join, Split;
    assert "o" + "/" + "r" == "o/r";
  }

  lemma AddressesDiffer(m: string, n: string)
    requires '/' !in m && '/' !in n && m != n
    ensures Address(m) != Address(n)
  {
    AddressReads(m);
    AddressReads(n);
    hide Address, Split;
  }

  lemma WordIsNormal(s: string)
    requires s != "" && forall c :: c in s ==> Alnum(c)
    ensures Normalize(s) == s
  {
    forall i | 0 <= i < |s| ensures Lower(s[i]) == s[i] {
      assert s[i] in s;
    }
    assert ToLower(s) == s;
    FieldsOfWord(s, PUNCTUATION);
    NormalizeJoinsWords(s);
  }

  lemma {:induction false} RepoIsNormal()
    ensures Normalize("o/r") != ""
  {
    NormalizeJoinsWords("o/r");
    assert ToLower("o/r")[0] == 'o';
    assert WordsOf("o/r") != [];
  }

  lemma FamilyIsNamed(repo: string, service: string, signal: string)
    requires service != "" && signal != "" && (forall c :: c in service ==> Alnum(c)) && forall c :: c in signal ==> Alnum(c)
    ensures var tf := Trigger(service, "", signal, "");
            FamilyOf(repo, tf) == Family(repo, service, signal) && Normalize(tf.service) == service
  {
    WordIsNormal(service);
    WordIsNormal(signal);
    hide Normalize;
  }

  lemma SceneExists() returns (s: Scene)
    ensures s.Valid()
  {
    var a, b := Trigger("a", "", "s", ""), Trigger("b", "", "t", "");
    RepoIsNormal();
    FamilyIsNamed("o/r", "a", "s");
    FamilyIsNamed("o/r", "b", "t");
    AddressReads("1");
    AddressReads("2");
    AddressReads("3");
    AddressesDiffer("1", "2");
    AddressesDiffer("1", "3");
    AddressesDiffer("2", "3");
    hide Normalize, Address, RepoOf, Split, FamilyOf;
    s := Scene("o/r", a, b, Address("1"), Address("2"), Address("3"));
  }
}
