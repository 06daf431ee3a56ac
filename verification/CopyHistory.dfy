/** Whole histories of the copy worker, one statement a step: others ingest, expire and register rows and
    windows in between, statements fail anywhere, and the worker may die at any point. */
module CopyHistory {
  import opened CopyWorker

  // What one INSERT into a pinned table wrote, and what a marker was written for: the rows of the raw table
  // when the last missing-count or INSERT of the copy read it.
  datatype Copy = Copy(window: Window, table: Table, rows: seq<Row>)
  datatype Coverage = Coverage(window: Window, seen: seq<Row>)

  // The statement of a copy that comes next.
  datatype Stage = Check | Count | Compare | Insert | Finish

  datatype Progress = Idle | Running(ps: seq<(Window, Table)>, i: nat, stage: Stage, n: Tally)

  // seen is what the last missing-count or INSERT of the copy under way has read.
  datatype History = History(db: Store, run: Progress, seen: seq<Row>, registered: set<Window>,
                             ingested: map<Table, set<Row>>, copies: seq<Copy>, covered: map<Marker, Coverage>) {
    function Ingested(t: Table): set<Row> { if t in ingested then ingested[t] else {} }

    predicate Busy() { run.Running? && run.i < |run.ps| }

    function CurrentWindow(): Window
      requires Busy()
    {
      run.ps[run.i].0
    }

    function CurrentTable(): Table
      requires Busy()
    {
      run.ps[run.i].1
    }

    function CurrentMarker(): Marker
      requires Busy()
    {
      (CurrentWindow().id, CurrentTable())
    }

    function At(stage: Stage): History
      requires Busy()
    {
      this.(run := run.(stage := stage))
    }

    function Done(o: Outcome): History
      requires Busy()
    {
      this.(run := Settle(run.ps, run.i + 1, run.n.Count(o)))
    }

    // What the statement has read.
    function Saw(): History
      requires Busy()
    {
      this.(seen := db.Raw(CurrentTable()))
    }

    function Wrote(rows: seq<Row>): History
      requires Busy()
    {
      this.(db := db.Pin(CurrentTable(), rows),
            copies := if rows == [] then copies else copies + [Copy(CurrentWindow(), CurrentTable(), rows)])
    }

    function Marked(): History
      requires Busy()
    {
      this.(db := db.(marks := db.marks + {CurrentMarker()}), covered := covered[CurrentMarker() := Coverage(CurrentWindow(), seen)])
    }
  }

  const EMPTY := History(Store(map[], map[], {}), Idle, [], {}, map[], [], map[])

  // The next pair, or the end of the run.
  function Settle(ps: seq<(Window, Table)>, i: nat, n: Tally): Progress {
    if i < |ps| && n.attempted < MAX_PER_RUN then Running(ps, i, Check, n) else Idle
  }

  datatype Event = Elsewhere(change: Change) | Start(listing: seq<Window>) | Statement(fault: Fault) | Crash

  // A run lists registered windows only; which ones and in which order is up to the query.
  predicate Enabled(h: History, e: Event) {
    match e
    case Start(listing) => h.run.Idle? && forall w :: w in listing ==> w in h.registered
    case Statement(fault) => h.Busy()
    case _ => true
  }

  function Next(h: History, e: Event): History
    requires Enabled(h, e)
  {
    match e
    case Elsewhere(c) => WithChange(h, c)
    case Start(listing) => h.(run := Settle(Pairs(listing), 0, NONE))
    case Statement(f) => Execute(h, f)
    case Crash => h.(run := Idle)
  }

  function WithChange(h: History, c: Change): History {
    var g := h.(db := h.db.Changed(c));
    match c
    case Ingest(t, r) => g.(ingested := h.ingested[t := h.Ingested(t) + {r}])
    case Expire(t, kept) => g
    case Register(w) => g.(registered := h.registered + {w})
  }

  function Execute(h: History, f: Fault): History
    requires h.Busy()
  {
    match h.run.stage
    case Check => if f.Fails? then h.Done(Unreadable) else if h.CurrentMarker() in h.db.marks then h.Done(AlreadyCopied) else h.At(Count)
    case Count =>
      if f.Fails? then h.Done(Failed)
      else if Matched(h.db, h.CurrentWindow(), h.CurrentTable()) == [] then h.Done(NothingMatched) else h.At(Compare)
    case Compare =>
      if f.Fails? then h.Done(Failed)
      else if Missing(h.db, h.CurrentWindow(), h.CurrentTable()) == [] then h.Saw().At(Finish) else h.At(Insert)
    case Insert =>
      var missing := Missing(h.db, h.CurrentWindow(), h.CurrentTable());
      if f.Fails? then h.Wrote(Select(missing, r => r in f.landed)).Done(Failed) else h.Saw().Wrote(missing).At(Finish)
    case Finish => (if f.Fails? then h else h.Marked()).Done(Copied)
  }

  // A history from h to h'.
  ghost predicate Path(h: History, es: seq<Event>, h': History)
    decreases |es|
  {
    if es == [] then h == h' else Enabled(h, es[0]) && Path(Next(h, es[0]), es[1..], h')
  }

  ghost predicate Leads(h: History, h': History) { exists es :: Path(h, es, h') }

  ghost predicate Reachable(h: History) { Leads(EMPTY, h) }

  lemma {:induction false} PathConcat(h: History, es: seq<Event>, g: History, fs: seq<Event>, h': History)
    requires Path(h, es, g) && Path(g, fs, h')
    ensures Path(h, es + fs, h')
    decreases |es|
  {
    if es == [] {
      assert es + fs == fs;
    } else {
      assert (es + fs)[1..] == es[1..] + fs;
      PathConcat(Next(h, es[0]), es[1..], g, fs, h');
    }
  }

  lemma LeadsOn(h: History, g: History, e: Event)
    requires Leads(h, g) && Enabled(g, e)
    ensures Leads(h, Next(g, e))
  {
    hide Enabled, Next;
    var es :| Path(h, es, g);
    assert [e][1..] == [] && Path(g, [e], Next(g, e));
    PathConcat(h, es, g, [e], Next(g, e));
  }

  lemma LeadsFrom(h: History)
    ensures Leads(h, h)
  {
    assert Path(h, [], h);
  }

  // ----- the invariant -----

  function RowsOf(copies: seq<Copy>, t: Table): seq<Row> {
    if copies == [] then []
    else
      var c := copies[|copies| - 1];
      RowsOf(copies[..|copies| - 1], t) + if c.table == t then c.rows else []
  }

  predicate HasKey(rows: seq<Row>, k: Key) { exists p :: p in rows && KeyOf(p) == k }

  ghost predicate Conserved(h: History) {
    forall t: Table :: h.db.Pinned(t) == RowsOf(h.copies, t)
  }

  ghost predicate Justified(h: History) {
    && (forall t: Table, r :: r in h.db.Raw(t) ==> r in h.Ingested(t))
    && forall c :: c in h.copies ==>
         c.window in h.registered && forall r :: r in c.rows ==> Matches(c.window, r) && r in h.Ingested(c.table)
  }

  ghost predicate Holds(rows: seq<Row>, w: Window, seen: seq<Row>) {
    forall r :: r in seen && Matches(w, r) ==> HasKey(rows, KeyOf(r))
  }

  // Some row can match the window.
  predicate Proper(w: Window) { w.start <= w.end }

  ghost predicate Covers(h: History, m: Marker) {
    && m in h.covered && h.covered[m].window in h.registered && h.covered[m].window.id == m.0
    && Proper(h.covered[m].window)
    && (forall r :: r in h.covered[m].seen ==> r in h.Ingested(m.1))
    && Holds(h.db.Pinned(m.1), h.covered[m].window, h.covered[m].seen)
  }

  // The copy under way: its window is registered, it is not marked yet, and when only the mark is left to
  // write all that was seen is pinned.
  ghost predicate UnderWay(h: History) {
    h.run.Running? ==>
      && h.Busy() && (forall p :: p in h.run.ps ==> p.0 in h.registered)
      && (h.run.stage != Check ==> h.CurrentMarker() !in h.db.marks)
      && (h.run.stage != Check && h.run.stage != Count ==> Proper(h.CurrentWindow()))
      && (h.run.stage == Finish ==> Holds(h.db.Pinned(h.CurrentTable()), h.CurrentWindow(), h.seen))
      && (h.run.stage == Finish ==> forall r :: r in h.seen ==> r in h.Ingested(h.CurrentTable()))
  }

  ghost predicate Inv(h: History) {
    Conserved(h) && Justified(h) && UnderWay(h) && forall m :: m in h.db.marks ==> Covers(h, m)
  }

  lemma ChangeKeepsInv(h: History, c: Change)
    requires Inv(h)
    ensures Inv(WithChange(h, c))
  {
    var h' := WithChange(h, c);
    assert forall t: Table :: h.Ingested(t) <= h'.Ingested(t);
    assert forall t: Table :: h'.db.Pinned(t) == h.db.Pinned(t);
    forall t: Table, r | r in h'.db.Raw(t) ensures r in h'.Ingested(t) {
      assert r in h.db.Raw(t) || c == Ingest(t, r);
    }
    forall m | m in h'.db.marks ensures Covers(h', m) {
      assert Covers(h, m);
    }
  }

  lemma {:induction false} AppendRows(copies: seq<Copy>, c: Copy, t: Table)
    ensures RowsOf(copies + [c], t) == RowsOf(copies, t) + if c.table == t then c.rows else []
  {
    assert (copies + [c])[..|copies|] == copies;
  }

  // An INSERT of missing rows.
  lemma PinnedBy(h: History, rows: seq<Row>, u: Table)
    requires h.Busy()
    ensures h.Wrote(rows).db.Pinned(u) == h.db.Pinned(u) + if u == h.CurrentTable() then rows else []
  {
  }

  lemma LoggedBy(h: History, rows: seq<Row>, u: Table)
    requires h.Busy()
    ensures RowsOf(h.Wrote(rows).copies, u) == RowsOf(h.copies, u) + if u == h.CurrentTable() then rows else []
  {
    AppendRows(h.copies, Copy(h.CurrentWindow(), h.CurrentTable(), rows), u);
  }

  lemma WroteConserves(h: History, rows: seq<Row>)
    requires Conserved(h) && h.Busy()
    ensures Conserved(h.Wrote(rows))
  {
    hide RowsOf;
    forall u: Table ensures h.Wrote(rows).db.Pinned(u) == RowsOf(h.Wrote(rows).copies, u) {
      PinnedBy(h, rows, u);
      LoggedBy(h, rows, u);
      assert h.db.Pinned(u) == RowsOf(h.copies, u);
    }
  }

  lemma WroteJustified(h: History, rows: seq<Row>)
    requires Justified(h) && UnderWay(h) && h.Busy()
    requires forall r :: r in rows ==> r in Missing(h.db, h.CurrentWindow(), h.CurrentTable())
    ensures Justified(h.Wrote(rows))
  {
    var h' := h.Wrote(rows);
    assert h.run.ps[h.run.i] in h.run.ps;
    assert forall u: Table :: h'.db.Raw(u) == h.db.Raw(u) && h'.Ingested(u) == h.Ingested(u);
  }

  lemma WroteCovers(h: History, rows: seq<Row>, m: Marker)
    requires h.Busy() && Covers(h, m)
    ensures Covers(h.Wrote(rows), m)
  {
    PinnedMore(h, rows, m.1);
    assert h.Wrote(rows).Ingested(m.1) == h.Ingested(m.1);
    hide HasKey;
  }

  lemma WroteKeepsInv(h: History, rows: seq<Row>)
    requires Inv(h) && h.Busy()
    requires forall r :: r in rows ==> r in Missing(h.db, h.CurrentWindow(), h.CurrentTable())
    ensures Conserved(h.Wrote(rows)) && Justified(h.Wrote(rows))
    ensures forall m :: m in h.db.marks ==> Covers(h.Wrote(rows), m)
  {
    hide Conserved, Justified, Covers, UnderWay, Missing;
    WroteConserves(h, rows);
    WroteJustified(h, rows);
    forall m | m in h.db.marks ensures Covers(h.Wrote(rows), m) {
      WroteCovers(h, rows, m);
    }
  }

  lemma PinnedMore(h: History, rows: seq<Row>, t: Table)
    requires h.Busy()
    ensures forall k :: HasKey(h.db.Pinned(t), k) ==> HasKey(h.Wrote(rows).db.Pinned(t), k)
  {
    assert forall p :: p in h.db.Pinned(t) ==> p in h.Wrote(rows).db.Pinned(t);
    forall k | HasKey(h.db.Pinned(t), k) ensures HasKey(h.Wrote(rows).db.Pinned(t), k) {
      var p :| p in h.db.Pinned(t) && KeyOf(p) == k;
      assert p in h.Wrote(rows).db.Pinned(t);
    }
  }

  // After an INSERT that did not fail every matching row it saw has its key pinned.
  lemma InsertPins(h: History)
    requires h.Busy()
    ensures var h' := h.Wrote(Missing(h.db, h.CurrentWindow(), h.CurrentTable()));
            Holds(h'.db.Pinned(h.CurrentTable()), h.CurrentWindow(), h.db.Raw(h.CurrentTable()))
  {
    var w, t := h.CurrentWindow(), h.CurrentTable();
    var missing := Missing(h.db, w, t);
    var h' := h.Wrote(missing);
    forall r | r in h.db.Raw(t) && Matches(w, r) ensures HasKey(h'.db.Pinned(t), KeyOf(r)) {
      if r in missing {
        assert r in h'.db.Pinned(t);
      } else {
        var p :| p in h.db.Pinned(t) && Matches(w, p) && KeyOf(p) == KeyOf(r);
        assert p in h'.db.Pinned(t);
      }
    }
  }

  lemma MatchedIsProper(s: Store, w: Window, t: Table)
    ensures Matched(s, w, t) != [] ==> Proper(w)
  {
    var matched := Matched(s, w, t);
    assert matched != [] ==> matched[0] in matched;
  }

  lemma NothingMissing(h: History)
    requires h.Busy() && Missing(h.db, h.CurrentWindow(), h.CurrentTable()) == []
    ensures Holds(h.db.Pinned(h.CurrentTable()), h.CurrentWindow(), h.db.Raw(h.CurrentTable()))
  {
    var w, t := h.CurrentWindow(), h.CurrentTable();
    forall r | r in h.db.Raw(t) && Matches(w, r) ensures HasKey(h.db.Pinned(t), KeyOf(r)) {
      assert r !in Missing(h.db, w, t);
      var p :| p in h.db.Pinned(t) && Matches(w, p) && KeyOf(p) == KeyOf(r);
    }
  }

  lemma ExecuteKeepsInv(h: History, f: Fault)
    requires Inv(h) && h.Busy()
    ensures Inv(Execute(h, f))
  {
    hide Conserved, Justified, Covers, Holds, Missing, Matched;
    match h.run.stage
    case Check => SameTables(h, Execute(h, f));
    case Count =>
      MatchedIsProper(h.db, h.CurrentWindow(), h.CurrentTable());
      SameTables(h, Execute(h, f));
    case Compare => CompareKeepsInv(h, f);
    case Insert => InsertKeepsInv(h, f);
    case Finish => FinishKeepsInv(h, f);
  }

  lemma CompareKeepsInv(h: History, f: Fault)
    requires Inv(h) && h.Busy() && h.run.stage == Compare
    ensures Inv(Execute(h, f))
  {
    hide Conserved, Justified, Covers, Holds, Missing;
    if Missing(h.db, h.CurrentWindow(), h.CurrentTable()) == [] {
      NothingMissing(h);
      SeenIngested(h);
    }
    SameTables(h, Execute(h, f));
  }

  lemma InsertKeepsInv(h: History, f: Fault)
    requires Inv(h) && h.Busy() && h.run.stage == Insert
    ensures Inv(Execute(h, f))
  {
    hide Conserved, Justified, Covers, Holds, Missing;
    var missing := Missing(h.db, h.CurrentWindow(), h.CurrentTable());
    var rows := if f.Fails? then Select(missing, r => r in f.landed) else missing;
    WroteKeepsInv(h, rows);
    InsertPins(h);
    SeenIngested(h);
    SameTables(h.Wrote(rows), Execute(h, f));
  }

  lemma FinishKeepsInv(h: History, f: Fault)
    requires Inv(h) && h.Busy() && h.run.stage == Finish
    ensures Inv(Execute(h, f))
  {
    hide Conserved, Justified, Covers, Holds;
    if f.Fails? {
      SameTables(h, Execute(h, f));
    } else {
      MarkedKeepsInv(h);
      SameTables(h.Marked(), Execute(h, f));
    }
  }

  lemma SeenIngested(h: History)
    requires h.Busy() && Justified(h)
    ensures forall r :: r in h.db.Raw(h.CurrentTable()) ==> r in h.Ingested(h.CurrentTable())
  {
  }

  lemma MarkedKeepsInv(h: History)
    requires Inv(h) && h.Busy() && h.run.stage == Finish
    ensures Conserved(h.Marked()) && Justified(h.Marked()) && forall m :: m in h.Marked().db.marks ==> Covers(h.Marked(), m)
  {
    hide Holds;
    var h' := h.Marked();
    assert h.run.ps[h.run.i] in h.run.ps;
    assert forall t: Table :: h'.db.Pinned(t) == h.db.Pinned(t) && h'.db.Raw(t) == h.db.Raw(t) && h'.Ingested(t) == h.Ingested(t);
    forall t: Table ensures h'.db.Pinned(t) == RowsOf(h'.copies, t) {
      assert h.db.Pinned(t) == RowsOf(h.copies, t);
    }
    forall m | m in h'.db.marks ensures Covers(h', m) {
      assert m != h.CurrentMarker() ==> Covers(h, m);
    }
  }

  // Steps that change nothing but the worker's place.
  lemma SameTables(h: History, h': History)
    requires Conserved(h) && Justified(h) && forall m :: m in h.db.marks ==> Covers(h, m)
    requires h' == h.(run := h'.run, seen := h'.seen)
    ensures Conserved(h') && Justified(h') && forall m :: m in h'.db.marks ==> Covers(h', m)
  {
    forall t: Table ensures h'.db.Pinned(t) == RowsOf(h'.copies, t) {
      assert h.db.Pinned(t) == RowsOf(h.copies, t);
    }
    assert forall t: Table :: h'.db.Raw(t) == h.db.Raw(t) && h'.Ingested(t) == h.Ingested(t);
    forall m | m in h'.db.marks ensures Covers(h', m) {
      assert Covers(h, m);
    }
  }

  lemma StartKeepsInv(h: History, listing: seq<Window>)
    requires Inv(h) && Enabled(h, Start(listing))
    ensures Inv(Next(h, Start(listing)))
  {
    hide Conserved, Justified, Covers;
    SameTables(h, Next(h, Start(listing)));
    forall p | p in Pairs(listing) ensures p.0 in h.registered {
      var j :| 0 <= j < |Pairs(listing)| && Pairs(listing)[j] == p;
      assert p.0 == listing[j / 3];
    }
  }

  lemma NextKeepsInv(h: History, e: Event)
    requires Inv(h) && Enabled(h, e)
    ensures Inv(Next(h, e))
  {
    hide Inv;
    match e
    case Elsewhere(c) => ChangeKeepsInv(h, c);
    case Start(listing) => StartKeepsInv(h, listing);
    case Statement(f) => ExecuteKeepsInv(h, f);
    case Crash => CrashKeepsInv(h);
  }

  lemma CrashKeepsInv(h: History)
    requires Inv(h)
    ensures Inv(Next(h, Crash))
  {
    hide Conserved, Justified, Covers;
    SameTables(h, Next(h, Crash));
  }

  lemma {:induction false} PathKeepsInv(h: History, es: seq<Event>, h': History)
    requires Inv(h) && Path(h, es, h')
    ensures Inv(h')
    decreases |es|
  {
    hide Inv, Next, Enabled;
    if es != [] {
      NextKeepsInv(h, es[0]);
      PathKeepsInv(Next(h, es[0]), es[1..], h');
    }
  }

  // Over every history: pinned rows are exactly what the copies wrote, each of them a matching ingested row
  // of a registered window, and a marked pair has the key of every matching row that the last missing-count
  // or INSERT of its copy saw.
  lemma Safety(h: History)
    requires Reachable(h)
    ensures Inv(h)
  {
    var es :| Path(EMPTY, es, h);
    assert Inv(EMPTY);
    PathKeepsInv(EMPTY, es, h);
  }

  // ----- a run of the worker is such a history -----

  lemma {:induction false} ChangesLead(h0: History, h: History, cs: seq<Change>) returns (g: History)
    requires Leads(h0, h)
    ensures Leads(h0, g) && g.db == h.db.Apply(cs) && g.run == h.run
    decreases |cs|
  {
    if cs == [] {
      g := h;
    } else {
      hide Leads, Store.Changed;
      LeadsOn(h0, h, Elsewhere(cs[0]));
      g := ChangesLead(h0, WithChange(h, cs[0]), cs[1..]);
    }
  }

  lemma FinishLeads(h0: History, h: History, world: nat -> Moment, k: nat) returns (g: History)
    requires Leads(h0, h) && h.Busy() && h.run.stage == Finish
    ensures var (s, o, next) := Complete(h.db, h.CurrentWindow(), h.CurrentTable(), world, k);
            Leads(h0, g) && g.db == s && g.run == Settle(h.run.ps, h.run.i + 1, h.run.n.Count(o))
  {
    hide Leads, Store.Apply;
    g := ChangesLead(h0, h, world(k).changes);
    LeadsOn(h0, g, Statement(world(k).fault));
    g := Next(g, Statement(world(k).fault));
  }

  lemma MatchedLeads(h0: History, h: History, world: nat -> Moment, k: nat) returns (g: History)
    requires Leads(h0, h) && h.Busy() && h.run.stage == Compare
    ensures var (s, o, next) := CopyMatched(h.db, h.CurrentWindow(), h.CurrentTable(), world, k);
            Leads(h0, g) && g.db == s && g.run == Settle(h.run.ps, h.run.i + 1, h.run.n.Count(o))
  {
    hide Leads, Store.Apply, Missing, Complete;
    g := ChangesLead(h0, h, world(k).changes);
    LeadsOn(h0, g, Statement(world(k).fault));
    g := Next(g, Statement(world(k).fault));
    if g.run.Running? && g.run.i == h.run.i && g.run.stage == Finish {
      g := FinishLeads(h0, g, world, k + 1);
    } else if g.run.Running? && g.run.i == h.run.i {
      g := ChangesLead(h0, g, world(k + 1).changes);
      LeadsOn(h0, g, Statement(world(k + 1).fault));
      g := Next(g, Statement(world(k + 1).fault));
      if world(k + 1).fault.Fine? {
        g := FinishLeads(h0, g, world, k + 2);
      }
    }
  }

  lemma UnmarkedLeads(h0: History, h: History, world: nat -> Moment, k: nat) returns (g: History)
    requires Leads(h0, h) && h.Busy() && h.run.stage == Count
    ensures var (s, o, next) := CopyUnmarked(h.db, h.CurrentWindow(), h.CurrentTable(), world, k);
            Leads(h0, g) && g.db == s && g.run == Settle(h.run.ps, h.run.i + 1, h.run.n.Count(o))
  {
    hide Leads, Store.Apply, CopyMatched, Matched;
    g := ChangesLead(h0, h, world(k).changes);
    LeadsOn(h0, g, Statement(world(k).fault));
    g := Next(g, Statement(world(k).fault));
    if g.run.Running? && g.run.i == h.run.i {
      g := MatchedLeads(h0, g, world, k + 1);
    }
  }

  lemma PairLeads(h0: History, h: History, world: nat -> Moment, k: nat) returns (g: History)
    requires Leads(h0, h) && h.Busy() && h.run.stage == Check
    ensures var (s, o, next) := CopyPair(h.db, h.CurrentWindow(), h.CurrentTable(), world, k);
            Leads(h0, g) && g.db == s && g.run == Settle(h.run.ps, h.run.i + 1, h.run.n.Count(o))
  {
    hide Leads, Store.Apply, CopyUnmarked;
    g := ChangesLead(h0, h, world(k).changes);
    LeadsOn(h0, g, Statement(world(k).fault));
    g := Next(g, Statement(world(k).fault));
    if g.run.Running? && g.run.i == h.run.i {
      g := UnmarkedLeads(h0, g, world, k + 1);
    }
  }

  lemma {:induction false} RunFromLeads(h0: History, h: History, ps: seq<(Window, Table)>, i: nat, world: nat -> Moment, k: nat, n: Tally)
    returns (g: History)
    requires Leads(h0, h) && h.run == Settle(ps, i, n)
    ensures Leads(h0, g) && g.run == Idle && g.db == RunFrom(h.db, ps, i, world, k, n).0
    decreases |ps| - i
  {
    hide Leads, CopyPair;
    g := h;
    if i < |ps| && n.attempted < MAX_PER_RUN {
      g := PairLeads(h0, h, world, k);
      var (s, o, next) := CopyPair(h.db, ps[i].0, ps[i].1, world, k);
      g := RunFromLeads(h0, g, ps, i + 1, world, next, n.Count(o));
    }
  }

  // Whatever others do between its statements and whichever of them fail, a run of the worker is a history
  // of statements: all that holds over histories holds for the worker.
  lemma RunIsHistory(h: History, listing: seq<Window>, world: nat -> Moment) returns (g: History)
    requires h.run == Idle && forall w :: w in listing ==> w in h.registered
    ensures Leads(h, g) && g.run == Idle && g.db == Run(h.db, listing, world).0
  {
    LeadsFrom(h);
    hide Leads;
    LeadsOn(h, h, Start(listing));
    g := RunFromLeads(h, Next(h, Start(listing)), Pairs(listing), 0, world, 0, NONE);
  }
}
