/** How far the runs of the copy worker get: the per-run budget, and what is left to do. */
module CopyProgress {
  import opened CopyWorker

  // The budget holds whatever fails.
  lemma {:induction false} BudgetFrom(s: Store, ps: seq<(Window, Table)>, i: nat, world: nat -> Moment, k: nat, n: Tally)
    requires n.attempted == n.ok + n.errors <= MAX_PER_RUN
    ensures var m := RunFrom(s, ps, i, world, k, n).1;
            m.attempted == m.ok + m.errors <= MAX_PER_RUN && m.attempted <= n.attempted + (m.windows - n.windows)
    decreases |ps| - i
  {
    hide CopyPair;
    if i < |ps| && n.attempted < MAX_PER_RUN {
      var (s', o, next) := CopyPair(s, ps[i].0, ps[i].1, world, k);
      BudgetFrom(s', ps, i + 1, world, next, n.Count(o));
    }
  }

  lemma RunWithinBudget(s: Store, windows: seq<Window>, world: nat -> Moment)
    ensures var n := Run(s, windows, world).1; n.ok + n.errors <= MAX_PER_RUN && n.ok + n.errors <= n.windows
  {
    BudgetFrom(s, Pairs(windows), 0, world, 0, NONE);
  }

  // A pair has work left when it is unmarked and some raw row matches its window.
  predicate Pending(s: Store, p: (Window, Table)) {
    (p.0.id, p.1) !in s.marks && Matched(s, p.0, p.1) != []
  }

  function Remaining(s: Store, ps: seq<(Window, Table)>, i: nat): set<Marker> {
    set j | i <= j < |ps| && Pending(s, ps[j]) :: (ps[j].0.id, ps[j].1)
  }

  function Min(a: nat, b: nat): nat { if a < b then a else b }

  // Nobody else changes anything, and nothing fails.
  const CLEAN: nat -> Moment := _ => Moment([], Fine)

  lemma PairWithoutFaults(s: Store, p: (Window, Table), k: nat)
    ensures var (s', o, next) := CopyPair(s, p.0, p.1, CLEAN, k);
            && s'.raw == s.raw
            && (if Pending(s, p) then o == Copied && s'.marks == s.marks + {(p.0.id, p.1)}
                else s' == s && o in {AlreadyCopied, NothingMatched})
  {
  }

  lemma RemainingStep(s: Store, s': Store, ps: seq<(Window, Table)>, i: nat)
    requires i < |ps| && s'.raw == s.raw
    requires s'.marks == if Pending(s, ps[i]) then s.marks + {(ps[i].0.id, ps[i].1)} else s.marks
    ensures Remaining(s', ps, i + 1) ==
      if Pending(s, ps[i]) then Remaining(s, ps, i) - {(ps[i].0.id, ps[i].1)} else Remaining(s, ps, i)
  {
  }

  // What a clean run from pair i on does, with b copies left in its budget.
  ghost predicate Finishes(s: Store, s': Store, todo: set<Marker>, b: nat) {
    && s'.raw == s.raw && s.marks <= s'.marks
    && s'.marks - s.marks <= todo
    && |s'.marks - s.marks| == Min(b, |todo|)
    && (todo == {} ==> s' == s)
  }

  lemma FinishesMore(s: Store, s1: Store, s': Store, todo: set<Marker>, b: nat, m: Marker)
    requires m in todo && m !in s.marks && s1.raw == s.raw && s1.marks == s.marks + {m} && b > 0
    requires Finishes(s1, s', todo - {m}, b - 1)
    ensures Finishes(s, s', todo, b)
  {
    assert s'.marks - s.marks == (s'.marks - s1.marks) + {m};
  }

  lemma NothingToFinish(s: Store, todo: set<Marker>, b: nat)
    requires b == 0 || todo == {}
    ensures Finishes(s, s, todo, b)
  {
    assert s.marks - s.marks == {};
  }

  // A clean run marks as many pending pairs as its budget allows, and nothing else.
  lemma {:induction false} CleanRunFrom(s: Store, ps: seq<(Window, Table)>, i: nat, k: nat, n: Tally)
    requires n.attempted <= MAX_PER_RUN
    ensures var (s', n') := RunFrom(s, ps, i, CLEAN, k, n);
            && Finishes(s, s', Remaining(s, ps, i), MAX_PER_RUN - n.attempted)
            && n'.ok == n.ok + |s'.marks - s.marks| && n'.errors == n.errors
    decreases |ps| - i
  {
    hide CopyPair, Remaining, Finishes, Pending;
    if i < |ps| && n.attempted < MAX_PER_RUN {
      var p := ps[i];
      var m := (p.0.id, p.1);
      var (s1, o, next) := CopyPair(s, p.0, p.1, CLEAN, k);
      PairWithoutFaults(s, p, k);
      RemainingStep(s, s1, ps, i);
      CleanRunFrom(s1, ps, i + 1, next, n.Count(o));
      if Pending(s, p) {
        PendingRemains(s, ps, i);
        var s' := RunFrom(s, ps, i, CLEAN, k, n).0;
        FinishesMore(s, s1, s', Remaining(s, ps, i), MAX_PER_RUN - n.attempted, m);
        MarkedOneMore(s, s1, s', Remaining(s1, ps, i + 1), MAX_PER_RUN - n.attempted - 1, m);
      }
    } else {
      if i >= |ps| {
        NothingRemains(s, ps, i);
      }
      NothingToFinish(s, Remaining(s, ps, i), MAX_PER_RUN - n.attempted);
      assert s.marks - s.marks == {};
    }
  }

  lemma PendingRemains(s: Store, ps: seq<(Window, Table)>, i: nat)
    requires i < |ps| && Pending(s, ps[i])
    ensures (ps[i].0.id, ps[i].1) in Remaining(s, ps, i) && (ps[i].0.id, ps[i].1) !in s.marks
  {
  }

  lemma NothingRemains(s: Store, ps: seq<(Window, Table)>, i: nat)
    requires i >= |ps|
    ensures Remaining(s, ps, i) == {}
  {
  }

  lemma MarkedOneMore(s: Store, s1: Store, s': Store, todo: set<Marker>, b: nat, m: Marker)
    requires m !in s.marks && s1.marks == s.marks + {m} && Finishes(s1, s', todo, b)
    ensures |s'.marks - s.marks| == |s'.marks - s1.marks| + 1
  {
  }

  function CleanRun(s: Store, windows: seq<Window>): Store { Run(s, windows, CLEAN).0 }

  function Left(s: Store, windows: seq<Window>): set<Marker> { Remaining(s, Pairs(windows), 0) }

  // A clean run finishes min(10, remaining) of the pending pairs of the listed windows.
  lemma RunProgress(s: Store, windows: seq<Window>)
    ensures var s' := CleanRun(s, windows);
            && s'.raw == s.raw
            && Left(s', windows) == Left(s, windows) - s'.marks
            && |Left(s', windows)| == |Left(s, windows)| - Min(MAX_PER_RUN, |Left(s, windows)|)
    ensures Run(s, windows, CLEAN).1.ok == Min(MAX_PER_RUN, |Left(s, windows)|)
    ensures Run(s, windows, CLEAN).1.errors == 0
  {
    var ps := Pairs(windows);
    CleanRunFrom(s, ps, 0, 0, NONE);
    var s' := CleanRun(s, windows);
    var done := s'.marks - s.marks;
    forall j | 0 <= j < |ps|
      ensures Pending(s', ps[j]) <==> Pending(s, ps[j]) && (ps[j].0.id, ps[j].1) !in s'.marks
    {
      assert s'.Raw(ps[j].1) == s.Raw(ps[j].1);
    }
    assert Left(s', windows) == Left(s, windows) - s'.marks == Left(s, windows) - done by {
      assert forall m :: m in Left(s, windows) ==> m !in s.marks;
    }
  }

  // A clean run changes nothing exactly when nothing is left.
  lemma QuietExactlyWhenDone(s: Store, windows: seq<Window>)
    ensures CleanRun(s, windows) == s <==> Left(s, windows) == {}
  {
    CleanRunFrom(s, Pairs(windows), 0, 0, NONE);
    RunProgress(s, windows);
  }

  function RunTimes(s: Store, windows: seq<Window>, k: nat): Store {
    if k == 0 then s else CleanRun(RunTimes(s, windows, k - 1), windows)
  }

  // With fixed raw data and no failures, k runs leave max(0, N - 10k) of N pending pairs, so exactly
  // the k with 10k >= N reach a state that further runs leave unchanged.
  lemma {:induction false} RunsConverge(s: Store, windows: seq<Window>, k: nat)
    ensures var n := |Left(s, windows)|;
            var s' := RunTimes(s, windows, k);
            && |Left(s', windows)| == (if n <= MAX_PER_RUN * k then 0 else n - MAX_PER_RUN * k)
            && (n <= MAX_PER_RUN * k <==> CleanRun(s', windows) == s')
  {
    hide CleanRun, Left;
    if k > 0 {
      RunsConverge(s, windows, k - 1);
      RunProgress(RunTimes(s, windows, k - 1), windows);
    }
    QuietExactlyWhenDone(RunTimes(s, windows, k), windows);
  }
}
