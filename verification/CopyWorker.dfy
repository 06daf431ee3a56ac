/** The raw-window copy worker of background_tasks.go: a restartable job that copies the raw metric
    rows of registered windows into pinned tables. Others ingest, expire and register between any two
    of its statements, and every statement may fail. */
module CopyWorker {
  import opened Options

  datatype Table = Gauge | Sum | Histogram

  const TABLES: seq<Table> := [Gauge, Sum, Histogram]
  const MAX_PER_RUN := 10

  datatype Row = Row(service: string, metric: string, fingerprint: string, time: int,
                     namespace: string, node: string, payload: string)

  datatype Key = Key(service: string, metric: string, fingerprint: string, time: int)

  function KeyOf(r: Row): Key { Key(r.service, r.metric, r.fingerprint, r.time) }

  datatype Window = Window(id: string, start: int, end: int, service: string, namespace: string, node: string)

  // The WHERE clause shared by the three statements of a copy; an empty filter is left out.
  predicate Matches(w: Window, r: Row) {
    && w.start <= r.time <= w.end
    && (w.service == "" || w.service == r.service)
    && (w.namespace == "" || w.namespace == r.namespace)
    && (w.node == "" || w.node == r.node)
  }

  type Marker = (string, Table)

  // What others do between two statements of the worker.
  datatype Change = Ingest(table: Table, row: Row) | Expire(table: Table, kept: set<Row>) | Register(window: Window)

  datatype Store = Store(raw: map<Table, seq<Row>>, pinned: map<Table, seq<Row>>, marks: set<Marker>) {
    function Raw(t: Table): seq<Row> { if t in raw then raw[t] else [] }

    function Pinned(t: Table): seq<Row> { if t in pinned then pinned[t] else [] }

    function Pin(t: Table, rows: seq<Row>): Store { this.(pinned := pinned[t := Pinned(t) + rows]) }

    function Changed(c: Change): Store {
      match c
      case Ingest(t, r) => this.(raw := raw[t := Raw(t) + [r]])
      case Expire(t, kept) => this.(raw := raw[t := Select(Raw(t), r => r in kept)])
      case Register(w) => this
    }

    function Apply(cs: seq<Change>): Store
      decreases |cs|
    {
      if cs == [] then this else Changed(cs[0]).Apply(cs[1..])
    }
  }

  function Select(rows: seq<Row>, keep: Row -> bool): (r: seq<Row>)
    ensures forall x :: x in r <==> x in rows && keep(x)
  {
    if rows == [] then []
    else if keep(rows[0]) then [rows[0]] + Select(rows[1..], keep)
    else Select(rows[1..], keep)
  }

  // The keys of the NOT IN subquery: it repeats the window's WHERE clause on the pinned table.
  function PinnedKeys(w: Window, pinned: seq<Row>): set<Key> {
    set p | p in pinned && Matches(w, p) :: KeyOf(p)
  }

  function Matched(s: Store, w: Window, t: Table): seq<Row> { Select(s.Raw(t), r => Matches(w, r)) }

  function AntiJoin(rows: seq<Row>, w: Window, pinned: seq<Row>): seq<Row> {
    Select(rows, r => Matches(w, r) && KeyOf(r) !in PinnedKeys(w, pinned))
  }

  function Missing(s: Store, w: Window, t: Table): seq<Row> { AntiJoin(s.Raw(t), w, s.Pinned(t)) }

  // A failing INSERT may still leave any part of its rows behind.
  datatype Fault = Fine | Fails(landed: set<Row>)

  // One statement: what others did since the one before, and whether it fails.
  datatype Moment = Moment(changes: seq<Change>, fault: Fault)

  datatype Outcome = Unreadable | AlreadyCopied | Failed | NothingMatched | Copied

  datatype Tally = Tally(windows: nat, attempted: nat, ok: nat, errors: nat) {
    function Count(o: Outcome): Tally {
      match o
      case Unreadable => this
      case AlreadyCopied => this
      case NothingMatched => this.(windows := windows + 1)
      case Failed => Tally(windows + 1, attempted + 1, ok, errors + 1)
      case Copied => Tally(windows + 1, attempted + 1, ok + 1, errors)
    }
  }

  const NONE := Tally(0, 0, 0, 0)

  function Mark(s: Store, w: Window, t: Table, f: Fault): Store {
    if f.Fails? then s else s.(marks := s.marks + {(w.id, t)})
  }

  // One (window, table) pair, the body of the worker's inner loop, from statement k on: the tables, the
  // outcome and the number of the next statement.
  function CopyPair(s: Store, w: Window, t: Table, world: nat -> Moment, k: nat): (Store, Outcome, nat) {
    var checked := s.Apply(world(k).changes);
    if world(k).fault.Fails? then (checked, Unreadable, k + 1)
    else if (w.id, t) in checked.marks then (checked, AlreadyCopied, k + 1)
    else CopyUnmarked(checked, w, t, world, k + 1)
  }

  function CopyUnmarked(s: Store, w: Window, t: Table, world: nat -> Moment, k: nat): (Store, Outcome, nat) {
    var counted := s.Apply(world(k).changes);
    if world(k).fault.Fails? then (counted, Failed, k + 1)
    else if Matched(counted, w, t) == [] then (counted, NothingMatched, k + 1)
    else CopyMatched(counted, w, t, world, k + 1)
  }

  function CopyMatched(s: Store, w: Window, t: Table, world: nat -> Moment, k: nat): (Store, Outcome, nat) {
    var compared := s.Apply(world(k).changes);
    if world(k).fault.Fails? then (compared, Failed, k + 1)
    else if Missing(compared, w, t) == [] then Complete(compared, w, t, world, k + 1)
    else
      var before := compared.Apply(world(k + 1).changes);
      var missing := Missing(before, w, t);
      match world(k + 1).fault
      case Fails(landed) => (before.Pin(t, Select(missing, r => r in landed)), Failed, k + 2)
      case Fine => Complete(before.Pin(t, missing), w, t, world, k + 2)
  }

  function Complete(s: Store, w: Window, t: Table, world: nat -> Moment, k: nat): (Store, Outcome, nat) {
    (Mark(s.Apply(world(k).changes), w, t, world(k).fault), Copied, k + 1)
  }

  function Pairs(windows: seq<Window>): (ps: seq<(Window, Table)>)
    ensures |ps| == 3 * |windows|
  {
    seq(3 * |windows|, i requires 0 <= i < 3 * |windows| => (windows[i / 3], TABLES[i % 3]))
  }

  // A run from pair i and statement k on: it stops at the end of the list or once its budget is used up.
  function RunFrom(s: Store, ps: seq<(Window, Table)>, i: nat, world: nat -> Moment, k: nat, n: Tally): (Store, Tally)
    decreases |ps| - i
  {
    if i >= |ps| || n.attempted >= MAX_PER_RUN then (s, n)
    else
      var (s', o, k') := CopyPair(s, ps[i].0, ps[i].1, world, k);
      RunFrom(s', ps, i + 1, world, k', n.Count(o))
  }

  function Run(s: Store, windows: seq<Window>, world: nat -> Moment): (Store, Tally) {
    RunFrom(s, Pairs(windows), 0, world, 0, NONE)
  }

  lemma RunStops(s: Store, ps: seq<(Window, Table)>, i: nat, world: nat -> Moment, k: nat, n: Tally)
    requires i >= |ps| || n.attempted >= MAX_PER_RUN
    ensures RunFrom(s, ps, i, world, k, n) == (s, n)
  {
  }

  lemma RunSteps(s: Store, ps: seq<(Window, Table)>, i: nat, world: nat -> Moment, k: nat, n: Tally)
    requires i < |ps| && n.attempted < MAX_PER_RUN
    ensures var (s', o, k') := CopyPair(s, ps[i].0, ps[i].1, world, k);
            RunFrom(s, ps, i, world, k, n) == RunFrom(s', ps, i + 1, world, k', n.Count(o))
  {
  }

  /** The tables as the worker and others change them. */
  class Database {
    var raw: map<Table, seq<Row>>
    var pinned: map<Table, seq<Row>>
    var marks: set<Marker>

    constructor (s: Store)
      ensures Value() == s
    {
      raw, pinned, marks := s.raw, s.pinned, s.marks;
    }

    ghost function Value(): Store
      reads this
    {
      Store(raw, pinned, marks)
    }

    // What happens before the worker's next statement reaches the database.
    method Others(changes: seq<Change>)
      modifies this`raw
      ensures Value() == old(Value()).Apply(changes)
    {
      ghost var s := Value();
      for i := 0 to |changes|
        invariant Value().Apply(changes[i..]) == s.Apply(changes)
        invariant pinned == s.pinned && marks == s.marks
      {
        assert changes[i..][1..] == changes[i + 1..];
        match changes[i] {
          case Ingest(t, r) => raw := raw[t := (if t in raw then raw[t] else []) + [r]];
          case Expire(t, kept) => raw := raw[t := Select(if t in raw then raw[t] else [], r => r in kept)];
          case Register(w) =>
        }
      }
    }

    // markCopied: a failed write of the marker is ignored.
    method MarkCopied(w: Window, t: Table, at: Moment)
      modifies this`raw, this`marks
      ensures Value() == Mark(old(Value()).Apply(at.changes), w, t, at.fault)
    {
      Others(at.changes);
      if !at.fault.Fails? {
        marks := marks + {(w.id, t)};
      }
    }

    method InsertPinned(t: Table, rows: seq<Row>)
      modifies this`pinned
      ensures Value() == old(Value()).Pin(t, rows)
    {
      pinned := pinned[t := (if t in pinned then pinned[t] else []) + rows];
    }

    // The rows that the anti-join selects now.
    method SelectMissing(w: Window, t: Table) returns (rows: seq<Row>)
      ensures rows == Missing(Value(), w, t)
    {
      rows := AntiJoin(if t in raw then raw[t] else [], w, if t in pinned then pinned[t] else []);
    }

    // The body of the inner loop, one statement after the other, from statement k on.
    method CopyOne(w: Window, t: Table, world: nat -> Moment, k: nat) returns (o: Outcome, next: nat)
      modifies this
      ensures (Value(), o, next) == CopyPair(old(Value()), w, t, world, k)
    {
      hide Store.Apply, Select, Missing;
      Others(world(k).changes);
      if world(k).fault.Fails? {
        return Unreadable, k + 1;
      }
      if (w.id, t) in marks {
        return AlreadyCopied, k + 1;
      }
      Others(world(k + 1).changes);
      if world(k + 1).fault.Fails? {
        return Failed, k + 2;
      }
      var matched := Select(if t in raw then raw[t] else [], r => Matches(w, r));
      if |matched| <= 0 {
        return NothingMatched, k + 2;
      }
      Others(world(k + 2).changes);
      if world(k + 2).fault.Fails? {
        return Failed, k + 3;
      }
      var missing := SelectMissing(w, t);
      if |missing| <= 0 {
        MarkCopied(w, t, world(k + 3));
        return Copied, k + 4;
      }
      Others(world(k + 3).changes);
      missing := SelectMissing(w, t);
      if world(k + 3).fault.Fails? {
        InsertPinned(t, Select(missing, r => r in world(k + 3).fault.landed));
        return Failed, k + 4;
      }
      InsertPinned(t, missing);
      MarkCopied(w, t, world(k + 4));
      return Copied, k + 5;
    }

    // windows is the answer to the listing query, None when it failed.
    method RunWorker(windows: Option<seq<Window>>, world: nat -> Moment)
      returns (windowsAttempted: nat, copiesOk: nat, copiesError: nat)
      modifies this
      ensures var ws := if windows.Some? then windows.value else [];
              var (s, n) := Run(old(Value()), ws, world);
              Value() == s && windowsAttempted == n.windows && copiesOk == n.ok && copiesError == n.errors
    {
      hide RunFrom, CopyPair;
      windowsAttempted, copiesOk, copiesError := 0, 0, 0;
      if windows.None? || |windows.value| == 0 {
        RunStops(Value(), [], 0, world, 0, NONE);
        assert Pairs([]) == [];
        return;
      }
      var ws := windows.value;
      ghost var ps := Pairs(ws);
      ghost var goal := Run(Value(), ws, world);
      var copiesAttempted, k := 0, 0;
      for wi := 0 to |ws|
        invariant RunFrom(Value(), ps, 3 * wi, world, k,
                          Tally(windowsAttempted, copiesAttempted, copiesOk, copiesError)) == goal
      {
        if copiesAttempted >= MAX_PER_RUN {
          RunStops(Value(), ps, 3 * wi, world, k, Tally(windowsAttempted, copiesAttempted, copiesOk, copiesError));
          break;
        }
        for ti := 0 to |TABLES|
          invariant RunFrom(Value(), ps, 3 * wi + ti, world, k,
                            Tally(windowsAttempted, copiesAttempted, copiesOk, copiesError)) == goal
        {
          ghost var n := Tally(windowsAttempted, copiesAttempted, copiesOk, copiesError);
          if copiesAttempted >= MAX_PER_RUN {
            RunStops(Value(), ps, 3 * wi + ti, world, k, n);
            RunStops(Value(), ps, 3 * wi + 3, world, k, n);
            break;
          }
          RunSteps(Value(), ps, 3 * wi + ti, world, k, n);
          assert ps[3 * wi + ti] == (ws[wi], TABLES[ti]);
          var o: Outcome;
          o, k := CopyOne(ws[wi], TABLES[ti], world, k);
          match o {
            case Unreadable =>
            case AlreadyCopied =>
            case NothingMatched =>
              windowsAttempted := windowsAttempted + 1;
            case Failed =>
              windowsAttempted := windowsAttempted + 1;
              copiesAttempted, copiesError := copiesAttempted + 1, copiesError + 1;
            case Copied =>
              windowsAttempted := windowsAttempted + 1;
              copiesAttempted, copiesOk := copiesAttempted + 1, copiesOk + 1;
          }
        }
      }
      RunStops(Value(), ps, 3 * |ws|, world, k, Tally(windowsAttempted, copiesAttempted, copiesOk, copiesError));
    }
  }
}
