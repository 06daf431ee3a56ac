/** What the copy worker's histories leave uncovered or copy twice, and exactly when. */
module CopyCoverage {
  import opened CopyHistory
  import opened CopyWorker

  // The worker copies the first table of one window without failures, and then dies.
  lemma FirstCopy(h0: History, h: History, w: Window) returns (g: History)
    requires Leads(h0, h) && h.run == Idle && w in h.registered
    requires (w.id, Gauge) !in h.db.marks && Matched(h.db, w, Gauge) != []
    ensures var missing := Missing(h.db, w, Gauge);
            && Leads(h0, g) && g.run == Idle && g.registered == h.registered && g.ingested == h.ingested
            && g.db.raw == h.db.raw && g.db.Pinned(Gauge) == h.db.Pinned(Gauge) + missing
            && g.db.marks == h.db.marks + {(w.id, Gauge)}
            && g.covered == h.covered[(w.id, Gauge) := Coverage(w, h.db.Raw(Gauge))]
            && g.copies == if missing == [] then h.copies else h.copies + [Copy(w, Gauge, missing)]
  {
    hide Leads, Matched, Missing;
    LeadsOn(h0, h, Start([w]));
    g := Next(h, Start([w]));
    assert Pairs([w])[0] == (w, Gauge);
    LeadsOn(h0, g, Statement(Fine));
    g := Next(g, Statement(Fine));
    LeadsOn(h0, g, Statement(Fine));
    g := Next(g, Statement(Fine));
    LeadsOn(h0, g, Statement(Fine));
    g := Next(g, Statement(Fine));
    if g.run.stage == Insert {
      LeadsOn(h0, g, Statement(Fine));
      g := Next(g, Statement(Fine));
    }
    LeadsOn(h0, g, Statement(Fine));
    g := Next(g, Statement(Fine));
    LeadsOn(h0, g, Crash);
    g := Next(g, Crash);
    assert h.db.Pinned(Gauge) + [] == h.db.Pinned(Gauge);
  }

  lemma Registers(h0: History, h: History, w: Window) returns (g: History)
    requires Leads(h0, h)
    ensures Leads(h0, g) && g == h.(registered := h.registered + {w})
  {
    hide Leads;
    LeadsOn(h0, h, Elsewhere(Register(w)));
    g := WithChange(h, Register(w));
  }

  lemma Ingests(h0: History, h: History, r: Row) returns (g: History)
    requires Leads(h0, h)
    ensures Leads(h0, g)
    ensures g == h.(db := h.db.Changed(Ingest(Gauge, r)), ingested := h.ingested[Gauge := h.Ingested(Gauge) + {r}])
    ensures g.db.Raw(Gauge) == h.db.Raw(Gauge) + [r]
  {
    hide Leads;
    LeadsOn(h0, h, Elsewhere(Ingest(Gauge, r)));
    g := WithChange(h, Ingest(Gauge, r));
  }

  // ----- no key is inserted by two copies -----

  // The key holds the fingerprint, not the attributes. This says the fingerprint determines the two
  // attributes a window may filter on.
  ghost predicate Determined(rows: set<Row>) {
    forall r, q :: r in rows && q in rows && KeyOf(r) == KeyOf(q) ==> r.namespace == q.namespace && r.node == q.node
  }

  ghost predicate AllDetermined(h: History) { forall t: Table :: Determined(h.Ingested(t)) }

  // A copy inserts a key that is pinned already exactly when every pinned row with that key is hidden
  // from the window's anti-join by the namespace or the node filter.
  lemma ReinsertedExactly(s: Store, w: Window, t: Table, r: Row)
    requires r in s.Raw(t) && Matches(w, r)
    ensures r in Missing(s, w, t) <==>
      forall p :: p in s.Pinned(t) && KeyOf(p) == KeyOf(r) ==>
        (w.namespace != "" && p.namespace != r.namespace) || (w.node != "" && p.node != r.node)
  {
  }

  ghost predicate Apart(c: Copy, d: Copy) {
    c.table == d.table ==> forall p, r :: p in c.rows && r in d.rows ==> KeyOf(p) != KeyOf(r)
  }

  ghost predicate OneCopyPerKey(copies: seq<Copy>) {
    forall i, j :: 0 <= i < j < |copies| ==> Apart(copies[i], copies[j])
  }

  lemma {:induction false} RowsOfHolds(copies: seq<Copy>, i: nat, r: Row)
    requires i < |copies| && r in copies[i].rows
    ensures r in RowsOf(copies, copies[i].table)
    decreases |copies|
  {
    if i < |copies| - 1 {
      RowsOfHolds(copies[..|copies| - 1], i, r);
    }
  }

  lemma WroteKeepsOneCopy(h: History, rows: seq<Row>)
    requires Inv(h) && OneCopyPerKey(h.copies) && AllDetermined(h) && h.Busy()
    requires forall r :: r in rows ==> r in Missing(h.db, h.CurrentWindow(), h.CurrentTable())
    ensures OneCopyPerKey(h.Wrote(rows).copies)
  {
    var w, t := h.CurrentWindow(), h.CurrentTable();
    forall i, p, r | 0 <= i < |h.copies| && h.copies[i].table == t && p in h.copies[i].rows && r in rows
      ensures KeyOf(p) != KeyOf(r)
    {
      RowsOfHolds(h.copies, i, p);
      assert p in h.db.Pinned(t) && h.copies[i] in h.copies && p in h.Ingested(t);
      assert r in Missing(h.db, w, t) && r in h.db.Raw(t) && r in h.Ingested(t);
      assert Determined(h.Ingested(t));
      ReinsertedExactly(h.db, w, t, r);
    }
    assert forall i :: 0 <= i < |h.copies| ==> Apart(h.copies[i], Copy(w, t, rows));
  }

  lemma NextKeepsOneCopy(h: History, e: Event)
    requires Inv(h) && OneCopyPerKey(h.copies) && AllDetermined(h) && Enabled(h, e)
    ensures OneCopyPerKey(Next(h, e).copies)
  {
    hide Inv, OneCopyPerKey, AllDetermined;
    if e.Statement? && h.run.stage == Insert {
      var missing := Missing(h.db, h.CurrentWindow(), h.CurrentTable());
      WroteKeepsOneCopy(h, missing);
      if e.fault.Fails? {
        WroteKeepsOneCopy(h, Select(missing, r => r in e.fault.landed));
      }
    }
  }

  lemma {:induction false} IngestedGrows(h: History, es: seq<Event>, h': History, t: Table)
    requires Path(h, es, h')
    ensures h.Ingested(t) <= h'.Ingested(t)
    decreases |es|
  {
    if es != [] {
      assert h.Ingested(t) <= Next(h, es[0]).Ingested(t);
      IngestedGrows(Next(h, es[0]), es[1..], h', t);
    }
  }

  lemma {:induction false} PathKeepsOneCopy(h: History, es: seq<Event>, h': History)
    requires Inv(h) && OneCopyPerKey(h.copies) && Path(h, es, h') && AllDetermined(h')
    ensures OneCopyPerKey(h'.copies)
    decreases |es|
  {
    hide Inv, OneCopyPerKey, Next, Enabled;
    if es != [] {
      forall t: Table ensures Determined(h.Ingested(t)) {
        IngestedGrows(h, es, h', t);
        assert Determined(h'.Ingested(t));
      }
      NextKeepsInv(h, es[0]);
      NextKeepsOneCopy(h, es[0]);
      PathKeepsOneCopy(Next(h, es[0]), es[1..], h');
    }
  }

  // Over every history in which the fingerprint determines namespace and node, no key of a pinned table is
  // inserted by two different copies, whatever failed, died or was half written in between.
  lemma EachKeyCopiedOnce(h: History)
    requires Reachable(h) && AllDetermined(h)
    ensures OneCopyPerKey(h.copies)
  {
    var es :| Path(EMPTY, es, h);
    assert Inv(EMPTY);
    PathKeepsOneCopy(EMPTY, es, h);
  }

  lemma MatchedHas(s: Store, w: Window, t: Table, r: Row)
    requires r in s.Raw(t) && Matches(w, r)
    ensures Matched(s, w, t) != []
  {
    assert r in Matched(s, w, t);
  }

  lemma MissingMatches(s: Store, w: Window, t: Table)
    ensures forall r :: r in Missing(s, w, t) ==> r in s.Raw(t) && Matches(w, r)
  {
  }

  lemma NotApart(c: Copy, d: Copy, p: Row, r: Row)
    requires c.table == d.table && p in c.rows && r in d.rows && KeyOf(p) == KeyOf(r)
    ensures !OneCopyPerKey([c, d])
  {
    assert !Apart([c, d][0], [c, d][1]);
  }

  // The window around r that filters on its attributes does not match p.
  predicate Hides(p: Row, r: Row) {
    (r.namespace != "" && p.namespace != r.namespace) || (r.node != "" && p.node != r.node)
  }

  // A history that has copied p alone, for the window v.
  ghost predicate CopiedOne(h: History, v: Window, w: Window, p: Row, first: seq<Row>) {
    && Leads(EMPTY, h) && h.run == Idle && w in h.registered && h.db.Raw(Gauge) == [p]
    && (forall t: Table :: h.Ingested(t) <= {p}) && h.db.marks == {(v.id, Gauge)} && h.copies == [Copy(v, Gauge, first)]
    && p in first && h.db.Pinned(Gauge) == first && forall q :: q in first ==> q == p
  }

  lemma CopiesOne(v: Window, w: Window, p: Row) returns (h: History, first: seq<Row>)
    requires Matches(v, p)
    ensures CopiedOne(h, v, w, p, first)
  {
    LeadsFrom(EMPTY);
    hide Leads, Matched, Missing, Select, Matches;
    h := Registers(EMPTY, EMPTY, v);
    h := Registers(EMPTY, h, w);
    h := Ingests(EMPTY, h, p);
    MatchedHas(h.db, v, Gauge, p);
    MissingMatches(h.db, v, Gauge);
    ReinsertedExactly(h.db, v, Gauge, p);
    first := Missing(h.db, v, Gauge);
    h := FirstCopy(EMPTY, h, v);
  }

  lemma CopiesOther(h0: History, v: Window, w: Window, p: Row, r: Row, first: seq<Row>) returns (h: History, second: seq<Row>)
    requires CopiedOne(h0, v, w, p, first) && v.id != w.id && Matches(w, r) && !Matches(w, p)
    ensures Leads(EMPTY, h) && r in second && h.copies == [Copy(v, Gauge, first), Copy(w, Gauge, second)]
    ensures forall t: Table :: h.Ingested(t) <= {p, r}
  {
    hide Leads, Matched, Missing, Select, Matches;
    h := Ingests(EMPTY, h0, r);
    MatchedHas(h.db, w, Gauge, r);
    HiddenIsMissing(h.db, w, Gauge, r);
    second := Missing(h.db, w, Gauge);
    h := FirstCopy(EMPTY, h, w);
    forall t: Table ensures h.Ingested(t) <= {p, r} {
      assert h0.Ingested(t) <= {p};
    }
  }

  // The anti-join looks at no pinned row that its window does not match.
  lemma HiddenIsMissing(s: Store, w: Window, t: Table, r: Row)
    requires r in s.Raw(t) && Matches(w, r) && forall q :: q in s.Pinned(t) ==> !Matches(w, q)
    ensures r in Missing(s, w, t)
  {
  }

  lemma LeadsReaches(h: History)
    requires Leads(EMPTY, h)
    ensures Reachable(h)
  {
  }

  // Without that, two rows that share a key but not their attributes are enough: a copy for a window without
  // filters inserts the one, and a copy for a window that filters on the other's attributes inserts the other.
  lemma KeyCopiedTwice(p: Row, r: Row) returns (h: History)
    requires KeyOf(p) == KeyOf(r) && Hides(p, r)
    ensures Reachable(h) && Over(h, {p, r}) && !OneCopyPerKey(h.copies)
  {
    var v, w := Window("v", p.time, p.time, "", "", ""), Window("w", p.time, p.time, "", r.namespace, r.node);
    assert "v"[0] == 'v' && "w"[0] == 'w' && KeyOf(p).time == KeyOf(r).time;
    assert Matches(v, p) && Matches(w, r) && !Matches(w, p);
    hide Leads, OneCopyPerKey, Matches, CopiedOne, Reachable;
    var h0, first := CopiesOne(v, w, p);
    var second: seq<Row>;
    h, second := CopiesOther(h0, v, w, p, r, first);
    LeadsReaches(h);
    assert p in first by {
      CopiedOneHas(h0, v, w, p, first);
    }
    NotApart(Copy(v, Gauge, first), Copy(w, Gauge, second), p, r);
  }

  lemma CopiedOneHas(h: History, v: Window, w: Window, p: Row, first: seq<Row>)
    requires CopiedOne(h, v, w, p, first)
    ensures p in first
  {
  }

  // Nothing but these rows was ever ingested.
  ghost predicate Over(h: History, rows: set<Row>) { forall t: Table :: h.Ingested(t) <= rows }

  ghost predicate CanCopyTwice(rows: set<Row>) { exists h :: Reachable(h) && Over(h, rows) && !OneCopyPerKey(h.copies) }

  // Over a set of rows some history inserts a key by two copies exactly when the fingerprint does not
  // determine namespace and node in it.
  lemma CopiedTwiceExactly(rows: set<Row>)
    ensures CanCopyTwice(rows) <==> !Determined(rows)
  {
    if CanCopyTwice(rows) {
      var h :| Reachable(h) && Over(h, rows) && !OneCopyPerKey(h.copies);
      OneCopyOver(h, rows);
    }
    if !Determined(rows) {
      var p, r :| p in rows && r in rows && KeyOf(p) == KeyOf(r) && (p.namespace != r.namespace || p.node != r.node);
      hide Reachable, OneCopyPerKey, KeyOf;
      var h: History;
      if Hides(p, r) {
        h := KeyCopiedTwice(p, r);
      } else {
        h := KeyCopiedTwice(r, p);
      }
      assert Over(h, rows);
    }
  }

  lemma OneCopyOver(h: History, rows: set<Row>)
    requires Reachable(h) && Over(h, rows)
    ensures Determined(rows) ==> OneCopyPerKey(h.copies)
  {
    hide Reachable, OneCopyPerKey, KeyOf;
    assert forall t: Table :: h.Ingested(t) <= rows;
    if Determined(rows) {
      EachKeyCopiedOnce(h);
    }
  }

  // ----- windows that share an id -----

  // A row of a marked window that the last statement of the copy saw, and that is not pinned.
  ghost predicate Uncovered(h: History, w: Window, t: Table, r: Row) {
    && w in h.registered && (w.id, t) in h.db.marks && (w.id, t) in h.covered
    && r in h.covered[(w.id, t)].seen && Matches(w, r) && !HasKey(h.db.Pinned(t), KeyOf(r))
  }

  // No row matches w alone.
  predicate Within(w: Window, v: Window) {
    && v.start <= w.start && w.end <= v.end
    && (v.service == "" || v.service == w.service)
    && (v.namespace == "" || v.namespace == w.namespace)
    && (v.node == "" || v.node == w.node)
  }

  function Other(s: string): string { s + "x" }

  // A row of a window at this time, or with another attribute where the window does not filter.
  function RowOf(w: Window, time: int, v: Window, metric: string): Row {
    Row(if w.service != "" then w.service else Other(v.service), metric, "", time,
        if w.namespace != "" then w.namespace else Other(v.namespace), if w.node != "" then w.node else Other(v.node), "")
  }

  lemma RowOfMatches(w: Window, time: int, v: Window, metric: string)
    requires w.start <= time <= w.end
    ensures Matches(w, RowOf(w, time, v, metric))
  {
  }

  // A proper window that does not lie within another has a row that the other does not match.
  lemma Outside(w: Window, v: Window) returns (r: Row)
    requires Proper(w) && !Within(w, v)
    ensures Matches(w, r) && !Matches(v, r) && r.metric == "m"
  {
    r := RowOf(w, if v.start <= w.start then w.end else w.start, v, "m");
    RowOfMatches(w, r.time, v, "m");
    assert |Other(v.service)| > |v.service| && |Other(v.namespace)| > |v.namespace| && |Other(v.node)| > |v.node|;
  }

  // A marked window whose id is its own is covered: every matching row that was seen is pinned.
  lemma OwnIdCovers(h: History, w: Window, t: Table)
    requires Reachable(h) && w in h.registered && (w.id, t) in h.db.marks
    requires forall v :: v in h.registered && v.id == w.id ==> v == w
    ensures (w.id, t) in h.covered && h.covered[(w.id, t)].window == w
    ensures Holds(h.db.Pinned(t), w, h.covered[(w.id, t)].seen)
  {
    Safety(h);
    assert Covers(h, (w.id, t));
  }

  // An uncovered row is a row of w that the window the mark was set for does not match.
  lemma UncoveredMeans(h: History, w: Window, t: Table, r: Row)
    requires Reachable(h) && Uncovered(h, w, t, r)
    ensures var v := h.covered[(w.id, t)].window;
            v in h.registered && v.id == w.id && Proper(v) && Proper(w) && !Matches(v, r) && !Within(w, v)
  {
    Safety(h);
    assert Covers(h, (w.id, t));
  }

  lemma SharedIdUncovers(v: Window, w: Window) returns (h: History, r: Row)
    requires v.id == w.id && Proper(v) && Proper(w) && !Within(w, v)
    ensures Reachable(h) && h.registered == {v, w} && Uncovered(h, w, Gauge, r) && r in h.db.Raw(Gauge)
  {
    r := Outside(w, v);
    var a := RowOf(v, v.start, v, "n");
    RowOfMatches(v, v.start, v, "n");
    assert KeyOf(a).metric == "n" && KeyOf(r).metric == "m";
    LeadsFrom(EMPTY);
    hide Leads, RowOf;
    h := Registers(EMPTY, EMPTY, v);
    h := Registers(EMPTY, h, w);
    h := Ingests(EMPTY, h, a);
    h := Ingests(EMPTY, h, r);
    assert h.db.Raw(Gauge) == [a, r] && a in Matched(h.db, v, Gauge);
    assert forall q :: q in Missing(h.db, v, Gauge) ==> q == a;
    h := FirstCopy(EMPTY, h, v);
    assert forall q :: q in h.db.Pinned(Gauge) ==> q == a;
  }

  ghost predicate CanLeaveUncovered(ws: set<Window>) {
    exists h, w, t, r :: Reachable(h) && h.registered <= ws && Uncovered(h, w, t, r)
  }

  // Windows whose copies can leave a row of another unseen to: they share an id, and neither is empty.
  predicate Clash(v: Window, w: Window) { v.id == w.id && Proper(v) && Proper(w) && !Within(w, v) }

  // Over a set of windows some history leaves a marked window uncovered exactly when two of them share an id
  // and one does not lie within the other.
  lemma CoverageFailsExactly(ws: set<Window>)
    ensures CanLeaveUncovered(ws) <==> exists v, w :: v in ws && w in ws && Clash(v, w)
  {
    if CanLeaveUncovered(ws) {
      var h, w, t, r :| Reachable(h) && h.registered <= ws && Uncovered(h, w, t, r);
      UncoveredMeans(h, w, t, r);
      assert Clash(h.covered[(w.id, t)].window, w);
    }
    if exists v, w :: v in ws && w in ws && Clash(v, w) {
      var v, w :| v in ws && w in ws && Clash(v, w);
      var h, r := SharedIdUncovers(v, w);
    }
  }

  lemma SameIdExample()
    ensures CanLeaveUncovered({Window("w", 0, 10, "", "", ""), Window("w", 5, 15, "", "", "")})
  {
    var v, w := Window("w", 0, 10, "", "", ""), Window("w", 5, 15, "", "", "");
    assert Clash(v, w);
    CoverageFailsExactly({v, w});
  }

  // ----- how windows get their ids: registerRawWindow -----

  const MINUTE_MS := 60 * 1000

  // A signal at a time in milliseconds, with the coordinates that go into the id and into the filters.
  datatype Signal = Signal(time: int, about: string, service: string, namespace: string, node: string)

  // The id is a digest of the minute and the coordinates; the bounds are five minutes around the exact time.
  function WindowOf(s: Signal, digest: (int, Signal) -> string): Window {
    Window(digest(s.time / MINUTE_MS, s.(time := 0)), s.time - 5 * MINUTE_MS, s.time + 5 * MINUTE_MS, s.service, s.namespace, s.node)
  }

  // Two signals of one minute that differ in time only share an id, and some history leaves the window of
  // either uncovered.
  lemma SameMinuteClashes(s: Signal, later: int, digest: (int, Signal) -> string)
    requires s.time < later && s.time / MINUTE_MS == later / MINUTE_MS
    ensures var v, w := WindowOf(s, digest), WindowOf(s.(time := later), digest);
            v.id == w.id && CanLeaveUncovered({v, w}) && Clash(v, w) && Clash(w, v)
  {
    var v, w := WindowOf(s, digest), WindowOf(s.(time := later), digest);
    assert s.(time := later).(time := 0) == s.(time := 0);
    CoverageFailsExactly({v, w});
  }

  // ----- after the mark -----

  function CopiesOf(copies: seq<Copy>, m: Marker): seq<Copy> {
    if copies == [] then []
    else
      var c := copies[|copies| - 1];
      CopiesOf(copies[..|copies| - 1], m) + if (c.window.id, c.table) == m then [c] else []
  }

  ghost predicate Skipped(h: History, h': History, m: Marker) {
    && m in h.db.marks && m in h'.db.marks && m in h.covered && m in h'.covered && h'.covered[m] == h.covered[m]
    && CopiesOf(h'.copies, m) == CopiesOf(h.copies, m) && h.copies <= h'.copies
  }

  lemma WroteElsewhere(h: History, rows: seq<Row>, m: Marker)
    requires h.Busy() && h.CurrentMarker() != m
    ensures CopiesOf(h.Wrote(rows).copies, m) == CopiesOf(h.copies, m) && h.copies <= h.Wrote(rows).copies
  {
    assert (h.copies + [Copy(h.CurrentWindow(), h.CurrentTable(), rows)])[..|h.copies|] == h.copies;
  }

  // Once a mark is set, no statement of any run copies for a window with that id.
  lemma MarkedIsSkipped(h: History, e: Event, m: Marker)
    requires Inv(h) && Enabled(h, e) && m in h.db.marks
    ensures Skipped(h, Next(h, e), m)
  {
    hide Conserved, Justified, Missing, Select, CopiesOf, Holds;
    assert Covers(h, m);
    if e.Statement? && h.run.stage == Insert {
      var missing := Missing(h.db, h.CurrentWindow(), h.CurrentTable());
      WroteElsewhere(h, if e.fault.Fails? then Select(missing, r => r in e.fault.landed) else missing, m);
    }
  }

  lemma {:induction false} SkippedForGood(h: History, es: seq<Event>, h': History, m: Marker)
    requires Inv(h) && m in h.db.marks && Path(h, es, h')
    ensures Skipped(h, h', m)
    decreases |es|
  {
    assert Covers(h, m);
    hide Inv, Next, Enabled, Covers;
    if es != [] {
      MarkedIsSkipped(h, es[0], m);
      NextKeepsInv(h, es[0]);
      SkippedForGood(Next(h, es[0]), es[1..], h', m);
    }
  }

  predicate Writes(c: Copy, t: Table, k: Key) { c.table == t && HasKey(c.rows, k) }

  lemma {:induction false} RowsOfExactly(copies: seq<Copy>, t: Table, p: Row)
    ensures p in RowsOf(copies, t) <==> exists c :: c in copies && c.table == t && p in c.rows
  {
    if copies != [] {
      var front, last := copies[..|copies| - 1], copies[|copies| - 1];
      RowsOfExactly(front, t, p);
      assert copies == front + [last];
    }
  }

  lemma PinnedByCopies(copies: seq<Copy>, t: Table, k: Key)
    ensures HasKey(RowsOf(copies, t), k) <==> exists c :: c in copies && Writes(c, t, k)
  {
    hide RowsOf;
    forall p ensures p in RowsOf(copies, t) <==> exists c :: c in copies && c.table == t && p in c.rows {
      RowsOfExactly(copies, t, p);
    }
  }

  lemma {:induction false} CopiesOfHas(copies: seq<Copy>, m: Marker)
    ensures forall c :: c in CopiesOf(copies, m) <==> c in copies && (c.window.id, c.table) == m
  {
    if copies != [] {
      CopiesOfHas(copies[..|copies| - 1], m);
    }
  }

  // A matching row of a marked window whose id is its own is missing exactly when the last statement of the
  // copy did not see it and no copy of another window wrote its key.
  lemma MissedExactly(h: History, w: Window, t: Table, r: Row)
    requires Reachable(h) && w in h.registered && (w.id, t) in h.db.marks && Matches(w, r)
    requires forall v :: v in h.registered && v.id == w.id ==> v == w
    ensures (w.id, t) in h.covered
    ensures !HasKey(h.db.Pinned(t), KeyOf(r)) <==>
              r !in h.covered[(w.id, t)].seen && forall c :: c in h.copies ==> !Writes(c, t, KeyOf(r))
  {
    OwnIdCovers(h, w, t);
    Safety(h);
    PinnedByCopies(h.copies, t, KeyOf(r));
  }

  // What is not pinned when a mark is set, as a row that comes in later, is pinned afterwards exactly when a
  // copy for a window with another id writes it.
  lemma LateRowExactly(h: History, es: seq<Event>, h': History, m: Marker, k: Key)
    requires Reachable(h) && m in h.db.marks && !HasKey(h.db.Pinned(m.1), k) && Path(h, es, h')
    ensures h.copies <= h'.copies
    ensures HasKey(h'.db.Pinned(m.1), k) <==>
              exists c :: c in h'.copies[|h.copies|..] && Writes(c, m.1, k) && c.window.id != m.0
  {
    PathPins(h, es, h', m.1, k);
    Safety(h);
    SkippedForGood(h, es, h', m);
    CopiesOfHas(h.copies, m);
    CopiesOfHas(h'.copies, m);
    hide Inv, HasKey, CopiesOf, RowsOf, Path, Reachable;
    assert h'.copies == h.copies + h'.copies[|h.copies|..];
    forall c | c in h'.copies && Writes(c, m.1, k) ensures c in h'.copies[|h.copies|..] && c.window.id != m.0 {
      assert (c.window.id, c.table) == m ==> c in CopiesOf(h'.copies, m);
    }
  }

  // At both ends of a path, the pinned keys are those the copies wrote.
  lemma PathPins(h: History, es: seq<Event>, h': History, t: Table, k: Key)
    requires Reachable(h) && Path(h, es, h')
    ensures HasKey(h.db.Pinned(t), k) <==> exists c :: c in h.copies && Writes(c, t, k)
    ensures HasKey(h'.db.Pinned(t), k) <==> exists c :: c in h'.copies && Writes(c, t, k)
  {
    Safety(h);
    hide Path, HasKey, RowsOf;
    PathKeepsInv(h, es, h');
    PinnedByCopies(h.copies, t, k);
    PinnedByCopies(h'.copies, t, k);
  }

  // The mark does not wait for the window to close: in every proper window a row can come too late, be raw
  // and matching, and stay out of the pinned table for as long as no other window is registered.
  lemma OpenWindowMisses(w: Window) returns (h: History, r: Row)
    requires Proper(w)
    ensures Reachable(h) && h.registered == {w} && (w.id, Gauge) in h.db.marks
    ensures r in h.db.Raw(Gauge) && Matches(w, r) && !HasKey(h.db.Pinned(Gauge), KeyOf(r))
  {
    var a := RowOf(w, w.start, w, "n");
    r := RowOf(w, w.start, w, "m");
    RowOfMatches(w, w.start, w, "n");
    RowOfMatches(w, w.start, w, "m");
    assert KeyOf(a).metric == "n" && KeyOf(r).metric == "m";
    LeadsFrom(EMPTY);
    hide Leads, RowOf;
    h := Registers(EMPTY, EMPTY, w);
    h := Ingests(EMPTY, h, a);
    assert h.db.Raw(Gauge) == [a] && a in Matched(h.db, w, Gauge);
    h := FirstCopy(EMPTY, h, w);
    assert forall q :: q in h.db.Pinned(Gauge) ==> q == a;
    h := Ingests(EMPTY, h, r);
  }
}
