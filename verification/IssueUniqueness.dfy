/** At most one open issue per repository, service and signal, over whole series of runs with the local
    fallback classifier. */
module IssueUniqueness {
  import opened DedupeKey
  import opened IssueFlow
  import opened Options

  datatype Family = Family(repo: string, service: string, signal: string) {
    predicate Named() { service != "" && signal != "" }
  }

  function FamilyOf(repo: string, tf: Trigger): Family { Family(repo, Normalize(tf.service), Normalize(tf.signal)) }

  datatype AgentIssue = AgentIssue(url: string, family: Family)

  // The work items, and the issues the agent has opened so far.
  datatype Ledger = Ledger(items: seq<Item>, issues: seq<AgentIssue>) {
    function Next(inp: Inputs): Ledger {
      var o := Choose(items, inp);
      Ledger(Step(items, inp),
             if ReachesIssue(inp) && o.createdNew then issues + [AgentIssue(o.url, FamilyOf(inp.repo, inp.tf))] else issues)
    }
  }

  // The runs the promise is about: no language model verdict, a repository with a normal form, and GitHub
  // answering a creation with a new address inside the configured repository.
  ghost predicate Local(l: Ledger, inp: Inputs) {
    && inp.verdict.None? && Normalize(inp.repo) != ""
    && (inp.created.Issue? && inp.created.url != "" ==>
          RepoOf(inp.created.url) == inp.repo && forall o :: o in l.issues ==> o.url != inp.created.url)
  }

  ghost predicate SharesFamily(l: Ledger, i: Item) {
    i.url != "" ==>
      && i.repo == RepoOf(i.url) && Normalize(i.repo) != "" && i.key == Key(i.repo, i.tf)
      && (exists o :: o in l.issues && o.url == i.url)
      && forall o :: o in l.issues && o.url == i.url ==> o.family == FamilyOf(i.repo, i.tf)
  }

  // All work items of one issue have the service and signal the issue was opened for.
  ghost predicate Consistent(l: Ledger) {
    (forall i :: i in l.items ==> SharesFamily(l, i)) && forall o :: o in l.issues ==> o.url != ""
  }

  predicate Rivals(a: AgentIssue, b: AgentIssue, live: set<string>) {
    a.url in live && b.url in live && a.family == b.family && a.family.Named()
  }

  // live is the set of issue addresses that are open.
  ghost predicate OneOpenIssue(l: Ledger, live: set<string>) {
    forall a, b :: a in l.issues && b in l.issues && Rivals(a, b, live) ==> a.url == b.url
  }

  // Every live issue of the run's family is in the fetched list and among the recent work items.
  ghost predicate Visible(l: Ledger, inp: Inputs, live: set<string>) {
    forall o :: o in l.issues && o.url in live && o.family == FamilyOf(inp.repo, inp.tf) ==>
      && (exists i :: i in Recent(l.items, inp.repo, CANDIDATE_LIMIT) && i.url == o.url)
      && (exists p :: p in inp.open && p.url == o.url)
  }

  // ----- the fallback -----

  lemma {:induction false} FindByKeySpec(cs: seq<Candidate>, key: string)
    ensures match FindByKey(cs, key)
            case Some(c) => c in cs && c.key == key && key != ""
            case None => forall c :: c in cs ==> key == "" || c.key != key
  {
    if cs != [] {
      FindByKeySpec(cs[1..], key);
    }
  }

  lemma {:induction false} FindByFamilySpec(cs: seq<Candidate>, service: string, signal: string)
    ensures match FindByFamily(cs, service, signal)
            case Some(c) => c in cs && service != "" && signal != "" && Normalize(c.service) == service && Normalize(c.signal) == signal
            case None =>
              service != "" && signal != "" ==>
                forall c :: c in cs ==> Normalize(c.service) != service || Normalize(c.signal) != signal
  {
    if cs != [] {
      FindByFamilySpec(cs[1..], service, signal);
    }
  }

  lemma {:induction false} FindByUrlSpec(cs: seq<Candidate>, c: Candidate)
    requires Distinct(cs) && c in cs
    ensures FindByUrl(cs, c.url) == Some(c)
  {
    if cs[0] != c {
      var k :| 0 <= k < |cs| && cs[k] == c;
      assert cs[0].url != cs[k].url;
      FindByUrlSpec(cs[1..], c);
    }
  }

  // A candidate with a key or a service comes from a recent work item of its issue.
  lemma KnownCandidate(l: Ledger, inp: Inputs, c: Candidate) returns (i: Item)
    requires c in CandidatesOf(l.items, inp) && (c.key != "" || Normalize(c.service) != "")
    ensures i in Recent(l.items, inp.repo, CANDIDATE_LIMIT) && i in l.items && i.url == c.url != "" && i.repo == inp.repo
    ensures c.key == i.key && c.service == i.tf.service && c.signal == i.tf.signal
  {
    var local, m := Recent(l.items, inp.repo, CANDIDATE_LIMIT), ByUrl(inp.open);
    CandidatesSpec(local, inp.open);
    assert Normalize("") == "";
    var k :| Describes(local, k, m, c);
    i := local[k];
    assert i in local;
  }

  // A reused issue has the family of the run.
  lemma ReuseSharesFamily(l: Ledger, inp: Inputs, c: Candidate)
    requires Consistent(l) && Local(l, inp)
    requires Target(l.items, inp) == Some(c)
    ensures exists i :: i in l.items && i.url == c.url && c.url != "" && FamilyOf(i.repo, i.tf) == FamilyOf(inp.repo, inp.tf)
  {
    hide CandidatesOf, Key;
    var cs := CandidatesOf(l.items, inp);
    var key := Key(inp.repo, inp.tf);
    CandidatesSpec(Recent(l.items, inp.repo, CANDIDATE_LIMIT), inp.open);
    assert Distinct(cs) by { assert cs == Candidates(Recent(l.items, inp.repo, CANDIDATE_LIMIT), inp.open) by { CandidatesAre(l.items, inp); } }
    FindByKeySpec(cs, key);
    FindByFamilySpec(cs, Normalize(inp.tf.service), Normalize(inp.tf.signal));
    match FindByKey(cs, key)
    case Some(d) =>
      FindByUrlSpec(cs, d);
      var i := KnownCandidate(l, inp, d);
      assert SharesFamily(l, i);
      KeyInjective(inp.repo, inp.tf, i.repo, i.tf);
      assert Parts(inp.repo, inp.tf)[1] == Parts(i.repo, i.tf)[1] && Parts(inp.repo, inp.tf)[3] == Parts(i.repo, i.tf)[3];
    case None =>
      match FindByFamily(cs, Normalize(inp.tf.service), Normalize(inp.tf.signal))
      case Some(d) =>
        FindByUrlSpec(cs, d);
        var i := KnownCandidate(l, inp, d);
      case None =>
  }

  lemma CandidatesAre(items: seq<Item>, inp: Inputs)
    ensures CandidatesOf(items, inp) == Candidates(Recent(items, inp.repo, CANDIDATE_LIMIT), inp.open)
  {
  }

  // A visible issue is a candidate that carries its family.
  lemma VisibleCandidate(l: Ledger, inp: Inputs, live: set<string>, o: AgentIssue) returns (c: Candidate)
    requires Consistent(l) && Visible(l, inp, live)
    requires o in l.issues && o.url in live && o.family == FamilyOf(inp.repo, inp.tf)
    ensures c in CandidatesOf(l.items, inp)
    ensures Normalize(c.service) == o.family.service && Normalize(c.signal) == o.family.signal
  {
    hide Normalize, Key, RepoOf, Candidates, Recent, ByUrl;
    var local, m := Recent(l.items, inp.repo, CANDIDATE_LIMIT), ByUrl(inp.open);
    CandidatesSpec(local, inp.open);
    var i :| i in local && i.url == o.url;
    var p :| p in inp.open && p.url == o.url;
    assert o.url in Urls(Candidates(local, inp.open));
    c :| c in Candidates(local, inp.open) && c.url == o.url;
    var k :| Describes(local, k, m, c);
    assert local[k] in local && local[k] in l.items;
    assert SharesFamily(l, local[k]);
  }

  // While a live issue of a named family is visible, the fallback finds a candidate: nothing is opened.
  lemma VisibleMeansReuse(l: Ledger, inp: Inputs, live: set<string>, o: AgentIssue)
    requires Consistent(l) && Local(l, inp) && Visible(l, inp, live)
    requires o in l.issues && o.url in live && o.family == FamilyOf(inp.repo, inp.tf) && o.family.Named()
    ensures !Choose(l.items, inp).createdNew
  {
    hide CandidatesOf, Key, OpenNew, Reuse, Normalize, RepoOf, Consistent, Visible;
    var cs := CandidatesOf(l.items, inp);
    CandidatesAre(l.items, inp);
    CandidatesSpec(Recent(l.items, inp.repo, CANDIDATE_LIMIT), inp.open);
    var c := VisibleCandidate(l, inp, live, o);
    FindByKeySpec(cs, Key(inp.repo, inp.tf));
    FindByFamilySpec(cs, Normalize(inp.tf.service), Normalize(inp.tf.signal));
    var d := Decide(l.items, inp);
    var e :| e in cs && e.url == d.candidate;
    FindByUrlSpec(cs, e);
    ReuseKeepsIssue(l.items, inp, e, d.kind);
  }

  lemma ReuseKeepsIssue(items: seq<Item>, inp: Inputs, c: Candidate, kind: Kind)
    ensures !Reuse(items, inp, c, kind).createdNew && Reuse(items, inp, c, kind).url == c.url
  {
  }

  lemma NewIssueIsCreated(items: seq<Item>, inp: Inputs)
    ensures var o := OpenNew(items, inp);
            if o.createdNew then o.url != "" && inp.allowNew && inp.created.Issue? && o.url == inp.created.url else o.url == ""
  {
  }

  // The row of a reused issue, and the row of a new one.
  lemma ReusedRow(l: Ledger, inp: Inputs, c: Candidate)
    requires Consistent(l) && Local(l, inp) && Target(l.items, inp) == Some(c)
    ensures !Choose(l.items, inp).createdNew && Choose(l.items, inp).url == c.url && SharesFamily(l, Recorded(l.items, inp))
  {
    hide CandidatesOf, Key, OpenNew, Reuse, RepoOf, NumberOf, Target, Decide;
    ReuseKeepsIssue(l.items, inp, c, Decide(l.items, inp).kind);
    ReuseSharesFamily(l, inp, c);
    var i :| i in l.items && i.url == c.url && c.url != "" && FamilyOf(i.repo, i.tf) == FamilyOf(inp.repo, inp.tf);
    assert SharesFamily(l, i);
  }

  lemma NewRow(l: Ledger, inp: Inputs)
    requires Consistent(l) && Local(l, inp) && ReachesIssue(inp) && Target(l.items, inp) == None
    ensures SharesFamily(l.Next(inp), Recorded(l.items, inp))
  {
    hide CandidatesOf, Key, OpenNew, RepoOf, NumberOf, ReachesIssue, Target, Decide;
    NewIssueIsCreated(l.items, inp);
    var o, l' := OpenNew(l.items, inp), l.Next(inp);
    if o.createdNew {
      var n := AgentIssue(o.url, FamilyOf(inp.repo, inp.tf));
      assert n in l'.issues && n.url == o.url;
    }
  }

  lemma MoreIssues(l: Ledger, inp: Inputs, i: Item)
    requires Local(l, inp) && SharesFamily(l, i)
    ensures SharesFamily(l.Next(inp), i)
  {
    hide Key, RepoOf, NumberOf, Step, Choose, Local, Parts;
    CreatedIsNew(l, inp);
    if i.url != "" {
      var p :| p in l.issues && p.url == i.url;
      assert p in l.Next(inp).issues;
    }
  }

  lemma NextConsistent(l: Ledger, inp: Inputs)
    requires Consistent(l) && Local(l, inp)
    ensures Consistent(l.Next(inp))
  {
    hide Choose, Recorded, SharesFamily, Local, ReachesIssue;
    var l' := l.Next(inp);
    forall i | i in l.items ensures SharesFamily(l', i) {
      MoreIssues(l, inp, i);
    }
    CreatedIsNew(l, inp);
    if ReachesIssue(inp) {
      var row := Recorded(l.items, inp);
      match Target(l.items, inp)
      case Some(c) =>
        ReusedRow(l, inp, c);
        MoreIssues(l, inp, row);
      case None => NewRow(l, inp);
    }
  }

  // The open issues after a run: it opens at most the one it created.
  function LiveAfter(l: Ledger, inp: Inputs, live: set<string>): set<string> {
    if ReachesIssue(inp) && Choose(l.items, inp).createdNew then live + {Choose(l.items, inp).url} else live
  }

  // No candidate has the key of the run, and none its service and signal.
  ghost predicate NoMatch(items: seq<Item>, inp: Inputs) {
    forall c :: c in CandidatesOf(items, inp) ==> c.key != Key(inp.repo, inp.tf) && !SameFamily(c, inp.tf)
  }

  predicate SameFamily(c: Candidate, tf: Trigger) {
    && Normalize(tf.service) != "" && Normalize(c.service) == Normalize(tf.service)
    && Normalize(tf.signal) != "" && Normalize(c.signal) == Normalize(tf.signal)
  }

  // What the code and GitHub must say before an issue is opened.
  ghost predicate Opens(items: seq<Item>, inp: Inputs) {
    ReachesIssue(inp) && inp.allowNew && inp.created.Issue? && inp.created.url != "" && NoMatch(items, inp)
  }

  lemma KeyIsGiven(repo: string, tf: Trigger)
    requires Normalize(repo) != ""
    ensures Key(repo, tf) != ""
  {
    hide Normalize;
    PartsHaveNoBar(repo, tf);
    var p := Parts(repo, tf);
    KeyIsCore(p);
    DropBlankFrontShape(p);
    DropBlankBackShape(DropBlankFront(p));
    assert p[0] != "";
  }

  lemma NothingFound(items: seq<Item>, inp: Inputs)
    requires inp.verdict.None? && Normalize(inp.repo) != ""
    ensures Target(items, inp).None? <==> NoMatch(items, inp)
  {
    var cs, key := CandidatesOf(items, inp), Key(inp.repo, inp.tf);
    KeyIsGiven(inp.repo, inp.tf);
    FindByKeySpec(cs, key);
    FindByFamilySpec(cs, Normalize(inp.tf.service), Normalize(inp.tf.signal));
    CandidatesSpec(Recent(items, inp.repo, CANDIDATE_LIMIT), inp.open);
    hide Normalize, Key, CandidatesOf;
    CandidatesAre(items, inp);
    hide Candidates, Describes;
    match FindByKey(cs, key)
    case Some(c) => FindByUrlSpec(cs, c);
    case None =>
      match FindByFamily(cs, Normalize(inp.tf.service), Normalize(inp.tf.signal))
      case Some(c) => FindByUrlSpec(cs, c);
      case None =>
  }

  // A run opens an issue exactly when that holds.
  lemma OpensExactly(items: seq<Item>, inp: Inputs)
    requires inp.verdict.None? && Normalize(inp.repo) != "" && ReachesIssue(inp)
    ensures Choose(items, inp).createdNew <==> Opens(items, inp)
  {
    hide NoMatch, Target, Decide, CandidatesOf, Normalize, HourCount, ActiveCount, CurrentStatus, Occurrences;
    NothingFound(items, inp);
  }

  // A run leaves two open issues of one named family exactly when it may open one, finds no match among the
  // candidates, and another of the family is live.
  lemma DuplicateExactly(l: Ledger, inp: Inputs, live: set<string>)
    requires Consistent(l) && Local(l, inp) && OneOpenIssue(l, live)
    ensures !OneOpenIssue(l.Next(inp), LiveAfter(l, inp, live)) <==>
              Opens(l.items, inp) && FamilyOf(inp.repo, inp.tf).Named() &&
              exists p :: p in l.issues && p.url in live && p.family == FamilyOf(inp.repo, inp.tf)
  {
    hide Choose, ReachesIssue, Step, RepoOf, Opens, OneOpenIssue;
    if ReachesIssue(inp) {
      OpensExactly(l.items, inp);
    }
    OpensReaches(l.items, inp);
    DuplicateIfCreated(l, inp, live);
  }

  lemma OpensReaches(items: seq<Item>, inp: Inputs)
    ensures Opens(items, inp) ==> ReachesIssue(inp)
  {
  }

  lemma DuplicateIfCreated(l: Ledger, inp: Inputs, live: set<string>)
    requires Consistent(l) && Local(l, inp) && OneOpenIssue(l, live)
    ensures !OneOpenIssue(l.Next(inp), LiveAfter(l, inp, live)) <==>
              ReachesIssue(inp) && Choose(l.items, inp).createdNew && FamilyOf(inp.repo, inp.tf).Named() &&
              exists p :: p in l.issues && p.url in live && p.family == FamilyOf(inp.repo, inp.tf)
  {
    hide Choose, ReachesIssue, Step, RepoOf;
    var l', o, live' := l.Next(inp), Choose(l.items, inp), LiveAfter(l, inp, live);
    CreatedIsNew(l, inp);
    if ReachesIssue(inp) && o.createdNew {
      var n := AgentIssue(o.url, FamilyOf(inp.repo, inp.tf));
      assert l'.issues == l.issues + [n] && n in l'.issues;
      if n.family.Named() && exists p :: p in l.issues && p.url in live && p.family == n.family {
        var p :| p in l.issues && p.url in live && p.family == n.family;
        assert p in l'.issues && Rivals(p, n, live');
      } else {
        forall a, b | a in l'.issues && b in l'.issues && Rivals(a, b, live') ensures a.url == b.url {
          if a in l.issues && b in l.issues {
            assert Rivals(a, b, live);
          }
        }
      }
    } else {
      assert l'.issues == l.issues && live' == live;
    }
  }

  lemma CreatedIsNew(l: Ledger, inp: Inputs)
    requires Local(l, inp)
    ensures var o := Choose(l.items, inp);
            o.createdNew ==> o.url != "" && forall p :: p in l.issues ==> p.url != o.url
  {
    hide Target, OpenNew, Reuse, Decide;
    NewIssueIsCreated(l.items, inp);
    match Target(l.items, inp)
    case Some(c) => ReuseKeepsIssue(l.items, inp, c, Decide(l.items, inp).kind);
    case None =>
  }

  // A series of local runs. live[k] holds the open issues before run k: issues may be closed in
  // between, but only the agent's own creations appear.
  function After(inputs: seq<Inputs>): Ledger {
    if inputs == [] then Ledger([], []) else After(inputs[..|inputs| - 1]).Next(inputs[|inputs| - 1])
  }

  ghost predicate Runs(inputs: seq<Inputs>, live: seq<set<string>>) {
    |live| == |inputs| + 1 &&
    forall k :: 0 <= k < |inputs| ==>
      && Local(After(inputs[..k]), inputs[k])
      && Visible(After(inputs[..k]), inputs[k], live[k])
      && live[k + 1] <= LiveAfter(After(inputs[..k]), inputs[k], live[k])
  }

  // Over every such series at most one open agent-created issue exists per repository, normalized
  // service and normalized signal (both non-empty), and the work items of one issue share them.
  lemma {:induction false} AtMostOneOpenIssue(inputs: seq<Inputs>, live: seq<set<string>>)
    requires Runs(inputs, live)
    ensures Consistent(After(inputs)) && OneOpenIssue(After(inputs), live[|inputs|])
    decreases |inputs|
  {
    hide Consistent, OneOpenIssue, Local, Visible, LiveAfter, Ledger.Next;
    if inputs == [] {
      NothingOpened(live[0]);
    } else {
      var n := |inputs| - 1;
      var front, last := inputs[..n], inputs[n];
      RunsPrefix(inputs, live);
      AtMostOneOpenIssue(front, live[..n + 1]);
      var l := After(front);
      NextConsistent(l, last);
      StepKeepsOne(l, last, live[n]);
      FewerLive(After(inputs), LiveAfter(l, last, live[n]), live[n + 1]);
    }
  }

  lemma NothingOpened(live: set<string>)
    ensures Consistent(Ledger([], [])) && OneOpenIssue(Ledger([], []), live)
  {
  }

  lemma RunsPrefix(inputs: seq<Inputs>, live: seq<set<string>>)
    requires Runs(inputs, live) && inputs != []
    ensures Runs(inputs[..|inputs| - 1], live[..|inputs|])
  {
    hide After, Local, Visible, LiveAfter;
    var front, lives := inputs[..|inputs| - 1], live[..|inputs|];
    forall k | 0 <= k < |front|
      ensures Local(After(front[..k]), front[k]) && Visible(After(front[..k]), front[k], lives[k])
      ensures lives[k + 1] <= LiveAfter(After(front[..k]), front[k], lives[k])
    {
      assert front[..k] == inputs[..k];
    }
  }

  lemma FewerLive(l: Ledger, live: set<string>, fewer: set<string>)
    requires OneOpenIssue(l, live) && fewer <= live
    ensures OneOpenIssue(l, fewer)
  {
  }

  lemma StepKeepsOne(l: Ledger, inp: Inputs, live: set<string>)
    requires Consistent(l) && Local(l, inp) && Visible(l, inp, live) && OneOpenIssue(l, live)
    ensures OneOpenIssue(l.Next(inp), LiveAfter(l, inp, live))
  {
    DuplicateExactly(l, inp, live);
    if FamilyOf(inp.repo, inp.tf).Named() && exists p :: p in l.issues && p.url in live && p.family == FamilyOf(inp.repo, inp.tf) {
      var p :| p in l.issues && p.url in live && p.family == FamilyOf(inp.repo, inp.tf);
      VisibleMeansReuse(l, inp, live, p);
    }
  }
}
