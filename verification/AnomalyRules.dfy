/** The anomaly rule engine: chart_anomaly_engine.go. Rows are annotated in place while composite rules
    read other rows of the same list. */
module AnomalyRules {
  import opened Options
  import opened Ordering

  datatype Cell = Nil | Text(s: string) | Flag(b: bool) | Number(x: real)

  type Cells = map<string, Cell>

  class Row {
    var cells: Cells
  }

  // The column names, which the caller chooses.
  datatype Keys = Keys(source: string, signal: string, service: string, attrFp: string, value: string, sampleCount: string, time: string)

  datatype Rule = Rule(
    id: string, name: string, source: string, signal: string, service: string, attrFp: string, kind: string,
    comparator: string, warning: Cell, critical: Cell, minSampleCount: Cell, buckets: string,
    secondarySource: string, secondarySignal: string, secondaryComparator: string, secondaryWarning: Cell, secondaryCritical: Cell)

  // One threshold of a seasonal bucket.
  datatype Entry = Absent | Unreadable | Given(x: real)

  // Library code: number parsing and printing, the bucket of a time in a seasonal rule's JSON text, and
  // the newest database row of a series (service, source, signal, attributes, time).
  datatype Library = Library(
    float: Cell -> Option<real>, integer: Cell -> Option<int>, text: Cell -> string,
    show: real -> string, show4: real -> string,
    bucket: (string, Cell) -> Option<(Entry, Entry)>,
    fetch: (string, string, string, string, string) -> Option<Cells>)

  datatype Verdict = Verdict(state: string, reason: string, id: string, name: string, seasonal: Option<bool>)

  // The columns that annotation writes.
  const WRITTEN := {"rule_name", "rule_state", "rule_reason", "rule_seasonal", "rule_id", "effective_state"}

  predicate KeysOutside(k: Keys) {
    {k.source, k.signal, k.service, k.attrFp, k.value, k.sampleCount, k.time} !! WRITTEN
  }

  function At(c: Cells, key: string): Cell { if key in c then c[key] else Nil }

  function Str(c: Cells, key: string): string { if At(c, key).Text? then At(c, key).s else "" }

  function Default(s: string, otherwise: string): string { if s == "" then otherwise else s }

  // ----- verdicts -----

  function Severity(state: string): nat { if state == "warning" then 1 else if state == "outlier" then 2 else 0 }

  predicate Matches(r: Rule, c: Cells, k: Keys) {
    && r.source == Str(c, k.source)
    && r.signal == Str(c, k.signal)
    && (r.service == "" || r.service == Str(c, k.service))
    && (r.attrFp == "" || r.attrFp == Str(c, k.attrFp))
  }

  function FloatOrZero(cell: Cell, lib: Library): real { if lib.float(cell).Some? then lib.float(cell).value else 0.0 }

  function MinSamples(r: Rule, lib: Library): int {
    if r.minSampleCount.Nil? then 1
    else if lib.integer(r.minSampleCount).Some? then lib.integer(r.minSampleCount).value
    else 0
  }

  // A rule with this comparator and these thresholds on one value: the state and the threshold it passed.
  function Triggered(comparator: string, warning: real, critical: real, value: real): Option<(string, real)> {
    if comparator == "gt" then
      if value >= critical then Some(("outlier", critical)) else if value >= warning then Some(("warning", warning)) else None
    else if comparator == "lt" then
      if value <= critical then Some(("outlier", critical)) else if value <= warning then Some(("warning", warning)) else None
    else None
  }

  function Condition(name: string, comparator: string, warning: real, critical: real, value: Cell, samples: Cell, least: int,
                     lib: Library): (r: Option<(string, string)>)
    ensures r.Some? ==> r.value.0 == "warning" || r.value.0 == "outlier"
  {
    var v, n := lib.float(value), lib.integer(samples);
    if v.None? || n.None? || n.value < least then None else
    match Triggered(comparator, warning, critical, v.value)
    case None => None
    case Some((state, threshold)) =>
      Some((state, name + ": value " + lib.show4(v.value) + (if comparator == "gt" then " >= " else " <= ") + lib.show(threshold)))
  }

  function Threshold(r: Rule, c: Cells, k: Keys, lib: Library): Option<Verdict> {
    match Condition(r.name, Default(r.comparator, "gt"), FloatOrZero(r.warning, lib), FloatOrZero(r.critical, lib),
                    At(c, k.value), At(c, k.sampleCount), MinSamples(r, lib), lib)
    case None => None
    case Some((state, reason)) => Some(Verdict(state, reason, r.id, r.name, None))
  }

  // A bucket's readable warning threshold stays in force even when its critical one is unreadable.
  function SeasonalThresholds(r: Rule, time: Cell, lib: Library): (real, real, bool) {
    var w, c := FloatOrZero(r.warning, lib), FloatOrZero(r.critical, lib);
    match lib.bucket(r.buckets, time)
    case None => (w, c, false)
    case Some((warning, critical)) =>
      var w' := if warning.Given? then warning.x else w;
      if warning.Unreadable? then (w, c, false)
      else if critical.Unreadable? then (w', c, false)
      else (w', if critical.Given? then critical.x else c, true)
  }

  function Seasonal(r: Rule, c: Cells, k: Keys, lib: Library): Option<Verdict> {
    var (w, cr, seasonal) := SeasonalThresholds(r, if k.time == "" then Nil else At(c, k.time), lib);
    match Condition(r.name, Default(r.comparator, "gt"), w, cr, At(c, k.value), At(c, k.sampleCount), MinSamples(r, lib), lib)
    case None => None
    case Some((state, reason)) => Some(Verdict(state, reason, r.id, r.name, Some(seasonal)))
  }

  // combineRuleStates: the most severe, and of equally severe ones the last in string order.
  function Combine(a: string, b: string): (r: string)
    ensures r == a || r == b
    ensures Severity(r) >= Severity(a) && Severity(r) >= Severity(b)
  {
    if Severity(b) > Severity(a) || (Severity(b) == Severity(a) && Less(a, b)) then b else a
  }

  function Composite(r: Rule, c: Cells, other: Option<Cells>, k: Keys, lib: Library): Option<Verdict> {
    match Condition(r.name + " primary", Default(r.comparator, "gt"), FloatOrZero(r.warning, lib), FloatOrZero(r.critical, lib),
                    At(c, k.value), At(c, k.sampleCount), MinSamples(r, lib), lib)
    case None => None
    case Some((primary, _)) =>
      if r.secondarySource == "" || r.secondarySignal == "" || other.None? then None else
      var o := other.value;
      var value := if At(o, k.value).Nil? then At(o, "value") else At(o, k.value);
      var samples := if At(o, k.sampleCount).Nil? then At(o, "sample_count") else At(o, k.sampleCount);
      match Condition(r.name + " secondary", Default(r.secondaryComparator, "gt"), FloatOrZero(r.secondaryWarning, lib),
                      FloatOrZero(r.secondaryCritical, lib), value, samples, MinSamples(r, lib), lib)
      case None => None
      case Some((secondary, _)) =>
        Some(Verdict(Combine(primary, secondary),
                     r.name + ": primary " + Str(c, k.signal) + "=" + lib.text(At(c, k.value)) +
                     " and secondary " + r.secondarySignal + "=" + lib.text(At(o, k.value)) + " triggered",
                     r.id, r.name, None))
  }

  // ----- the other row a composite rule reads -----

  type Series = (string, string, string, string)

  function SeriesOf(c: Cells, k: Keys): Series { (Str(c, k.service), Str(c, k.attrFp), Str(c, k.source), Str(c, k.signal)) }

  function OtherSeries(r: Rule, c: Cells, k: Keys): Series {
    (Str(c, k.service), Str(c, k.attrFp), r.secondarySource, r.secondarySignal)
  }

  // The last row of the list in this series, at this time if one is given.
  function LastRow(table: seq<Cells>, s: Series, time: Option<string>, k: Keys): (i: Option<nat>)
    ensures i.Some? ==> i.value < |table|
    decreases |table|
  {
    if table == [] then None else
    var n := |table| - 1;
    if SeriesOf(table[n], k) == s && (time.None? || Str(table[n], k.time) == time.value) then Some(n)
    else LastRow(table[..n], s, time, k)
  }

  function Other(r: Rule, c: Cells, table: seq<Cells>, k: Keys, lib: Library): Option<Cells> {
    var s := OtherSeries(r, c, k);
    var time := if k.time == "" then "" else Str(c, k.time);
    var timed := if k.time == "" then None else LastRow(table, s, Some(time), k);
    var latest := LastRow(table, s, None, k);
    if timed.Some? then Some(table[timed.value])
    else if latest.Some? then Some(table[latest.value])
    else Fetch(s, time, lib)
  }

  function Fetch(s: Series, time: string, lib: Library): Option<Cells> {
    var exact := if time == "" then None else lib.fetch(s.0, s.2, s.3, s.1, time);
    if exact.Some? then exact else lib.fetch(s.0, s.2, s.3, s.1, "")
  }

  function Judge(r: Rule, c: Cells, table: seq<Cells>, k: Keys, lib: Library): Option<Verdict> {
    if !Matches(r, c, k) then None
    else if r.kind == "composite" then Composite(r, c, Other(r, c, table, k, lib), k, lib)
    else if r.kind == "seasonal" then Seasonal(r, c, k, lib)
    else Threshold(r, c, k, lib)
  }

  // ----- the best verdict -----

  type Rank = (int, int, string)

  function TypeRank(kind: string): nat {
    if kind == "seasonal" then 3 else if kind == "composite" then 2 else if kind == "" || kind == "threshold" then 1 else 0
  }

  function RankOf(r: Rule, v: Verdict): Rank { (Severity(v.state), TypeRank(r.kind), v.name) }

  predicate Greater(a: Rank, b: Rank) {
    if a.0 != b.0 then a.0 > b.0 else if a.1 != b.1 then a.1 > b.1 else Less(b.2, a.2)
  }

  // The first verdict of the highest rank, with its rank.
  function Best(rules: seq<Rule>, c: Cells, table: seq<Cells>, k: Keys, lib: Library): (r: (Option<Verdict>, Rank)) {
    if rules == [] then (None, (-1, -1, "")) else
    var n := |rules| - 1;
    var best := Best(rules[..n], c, table, k, lib);
    match Judge(rules[n], c, table, k, lib)
    case None => best
    case Some(v) => if Greater(RankOf(rules[n], v), best.1) then (Some(v), RankOf(rules[n], v)) else best
  }

  // ----- what annotation makes of a row -----

  function Own(c: Cells): string { Default(Str(c, "anomaly_state"), "normal") }

  function Reset(c: Cells): Cells {
    c["rule_name" := Text("")]["rule_state" := Text("normal")]["rule_reason" := Text("")]["rule_seasonal" := Flag(false)]
     ["effective_state" := Text(Own(c))]
  }

  function Merge(c: Cells, v: Verdict): Cells {
    var d := c["rule_id" := Text(v.id)]["rule_name" := Text(v.name)]["rule_state" := Text(v.state)]["rule_reason" := Text(v.reason)];
    if v.seasonal.Some? then d["rule_seasonal" := Flag(v.seasonal.value)] else d
  }

  function Finish(c: Cells): Cells {
    c["effective_state" := Text(Combine(Own(c), Default(Str(c, "rule_state"), "normal")))]
  }

  function Annotated(c: Cells, rules: seq<Rule>, table: seq<Cells>, k: Keys, lib: Library): Cells {
    var best := Best(rules, c, table, k, lib).0;
    Finish(if best.Some? then Merge(Reset(c), best.value) else Reset(c))
  }

  function AnnotateTable(table: seq<Cells>, rules: seq<Rule>, k: Keys, lib: Library): (r: seq<Cells>)
    ensures |r| == |table|
  {
    seq(|table|, i requires 0 <= i < |table| => Annotated(table[i], rules, table, k, lib))
  }

  // ----- evaluation reads none of the written columns -----

  predicate SameBase(c: Cells, d: Cells) { c - WRITTEN == d - WRITTEN }

  lemma SameBack(c: Cells, d: Cells)
    requires SameBase(c, d)
    ensures SameBase(d, c)
  {
  }

  lemma SameSelf()
    ensures forall c: Cells :: SameBase(c, c)
    ensures forall t: seq<Cells> :: SameBases(t, t)
  {
  }

  lemma FourWritten(c: Cells)
    ensures SameBase(c["rule_name" := Text("")]["rule_state" := Text("normal")]["rule_reason" := Text("")]["rule_seasonal" := Flag(false)], c)
  {
  }

  predicate SameBases(t: seq<Cells>, u: seq<Cells>) {
    |t| == |u| && forall i :: 0 <= i < |t| ==> SameBase(t[i], u[i])
  }

  lemma SameAt(c: Cells, d: Cells, key: string)
    requires SameBase(c, d) && key !in WRITTEN
    ensures At(c, key) == At(d, key) && Str(c, key) == Str(d, key)
  {
    assert key in c <==> key in c - WRITTEN;
    assert key in d <==> key in d - WRITTEN;
    assert key in c ==> c[key] == (c - WRITTEN)[key];
    assert key in d ==> d[key] == (d - WRITTEN)[key];
  }

  lemma SameColumns(c: Cells, d: Cells, k: Keys)
    requires SameBase(c, d) && KeysOutside(k)
    ensures At(c, k.value) == At(d, k.value) && At(c, k.sampleCount) == At(d, k.sampleCount) && At(c, k.time) == At(d, k.time)
    ensures At(c, "value") == At(d, "value") && At(c, "sample_count") == At(d, "sample_count")
    ensures Str(c, k.time) == Str(d, k.time) && Str(c, k.signal) == Str(d, k.signal)
    ensures SeriesOf(c, k) == SeriesOf(d, k) && Own(c) == Own(d)
  {
    hide At, Str, SameBase;
    SameAt(c, d, k.value);
    SameAt(c, d, k.sampleCount);
    SameAt(c, d, k.time);
    SameAt(c, d, k.source);
    SameAt(c, d, k.signal);
    SameAt(c, d, k.service);
    SameAt(c, d, k.attrFp);
    SameAt(c, d, "value");
    SameAt(c, d, "sample_count");
    SameAt(c, d, "anomaly_state");
  }

  lemma {:induction false} SameLastRow(t: seq<Cells>, u: seq<Cells>, s: Series, time: Option<string>, k: Keys)
    requires SameBases(t, u) && KeysOutside(k)
    ensures LastRow(t, s, time, k) == LastRow(u, s, time, k)
    decreases |t|
  {
    if t != [] {
      var n := |t| - 1;
      SameColumns(t[n], u[n], k);
      hide SeriesOf, Str, SameBase;
      SameLastRow(t[..n], u[..n], s, time, k);
    }
  }

  lemma SameComposite(r: Rule, c: Cells, d: Cells, o: Option<Cells>, p: Option<Cells>, k: Keys, lib: Library)
    requires KeysOutside(k) && SameBase(c, d) && o.Some? == p.Some? && (o.Some? ==> SameBase(o.value, p.value))
    ensures Composite(r, c, o, k, lib) == Composite(r, d, p, k, lib)
  {
    hide At, Str, SameBase, Condition, Combine;
    SameColumns(c, d, k);
    if o.Some? {
      SameColumns(o.value, p.value, k);
    }
  }

  predicate SameOption(o: Option<Cells>, p: Option<Cells>) {
    o.Some? == p.Some? && (o.Some? ==> SameBase(o.value, p.value))
  }

  lemma SameOther(r: Rule, c: Cells, d: Cells, t: seq<Cells>, u: seq<Cells>, k: Keys, lib: Library)
    requires KeysOutside(k) && SameBase(c, d) && SameBases(t, u)
    ensures SameOption(Other(r, c, t, k, lib), Other(r, d, u, k, lib))
  {
    SameColumns(c, d, k);
    var s := OtherSeries(r, c, k);
    SameLastRow(t, u, s, Some(Str(c, k.time)), k);
    SameLastRow(t, u, s, None, k);
    hide At, Str, SameBase, LastRow, Fetch;
  }

  lemma SameSimple(r: Rule, c: Cells, d: Cells, k: Keys, lib: Library)
    requires KeysOutside(k) && SameBase(c, d)
    ensures Seasonal(r, c, k, lib) == Seasonal(r, d, k, lib) && Threshold(r, c, k, lib) == Threshold(r, d, k, lib)
  {
    SameColumns(c, d, k);
    hide At, Str, SameBase, Condition, SeasonalThresholds;
  }

  lemma SameMatches(r: Rule, c: Cells, d: Cells, k: Keys)
    requires KeysOutside(k) && SameBase(c, d)
    ensures Matches(r, c, k) == Matches(r, d, k)
  {
    SameColumns(c, d, k);
    hide At, Str, SameBase, KeysOutside;
  }

  lemma OthersFit(r: Rule, c: Cells, d: Cells, t: seq<Cells>, u: seq<Cells>, k: Keys, lib: Library)
    requires KeysOutside(k) && SameBase(c, d) && SameBases(t, u)
    ensures var o, p := Other(r, c, t, k, lib), Other(r, d, u, k, lib);
            o.Some? == p.Some? && (o.Some? ==> SameBase(o.value, p.value))
  {
    SameOther(r, c, d, t, u, k, lib);
    hide SameBase, SameBases, Other, KeysOutside;
  }

  lemma SameJudge(r: Rule, c: Cells, d: Cells, t: seq<Cells>, u: seq<Cells>, k: Keys, lib: Library)
    requires KeysOutside(k) && SameBase(c, d) && SameBases(t, u)
    ensures Judge(r, c, t, k, lib) == Judge(r, d, u, k, lib)
  {
    SameMatches(r, c, d, k);
    OthersFit(r, c, d, t, u, k, lib);
    SameSimple(r, c, d, k, lib);
    hide Matches, At, Str, SameBase, SameBases, Composite, Other, Seasonal, Threshold, KeysOutside;
    SameComposite(r, c, d, Other(r, c, t, k, lib), Other(r, d, u, k, lib), k, lib);
  }

  lemma {:induction false} SameBest(rules: seq<Rule>, c: Cells, d: Cells, t: seq<Cells>, u: seq<Cells>, k: Keys, lib: Library)
    requires KeysOutside(k) && SameBase(c, d) && SameBases(t, u)
    ensures Best(rules, c, t, k, lib) == Best(rules, d, u, k, lib)
    decreases |rules|
  {
    hide Judge, SameBase, SameBases, KeysOutside;
    if rules != [] {
      var n := |rules| - 1;
      SameJudge(rules[n], c, d, t, u, k, lib);
      SameBest(rules[..n], c, d, t, u, k, lib);
    }
  }

  // ----- main results -----

  lemma ResetFrames(c: Cells)
    ensures SameBase(Reset(c), c) && Own(Reset(c)) == Own(c)
  {
  }

  lemma MergeFrames(c: Cells, v: Verdict)
    ensures SameBase(Merge(c, v), c) && Own(Merge(c, v)) == Own(c)
  {
  }

  // Only the written columns change.
  lemma AnnotatedFrames(c: Cells, rules: seq<Rule>, table: seq<Cells>, k: Keys, lib: Library)
    ensures SameBase(Annotated(c, rules, table, k, lib), c)
  {
    hide Best, Merge, Reset;
    ResetFrames(c);
    var best := Best(rules, c, table, k, lib).0;
    if best.Some? {
      MergeFrames(Reset(c), best.value);
    }
  }

  // What the written columns hold in terms of the best verdict.
  lemma AnnotatedColumns(c: Cells, rules: seq<Rule>, table: seq<Cells>, k: Keys, lib: Library)
    ensures var d, best := Annotated(c, rules, table, k, lib), Best(rules, c, table, k, lib).0;
            && (forall key :: key in WRITTEN && key != "rule_id" ==> key in d)
            && At(d, "rule_state") == Text(if best.Some? then best.value.state else "normal")
            && At(d, "rule_name") == Text(if best.Some? then best.value.name else "")
            && At(d, "rule_reason") == Text(if best.Some? then best.value.reason else "")
            && At(d, "effective_state") == Text(Combine(Own(c), if best.Some? then Default(best.value.state, "normal") else "normal"))
            && At(d, "rule_seasonal") == Flag(best.Some? && best.value.seasonal == Some(true))
            && ("rule_id" in d <==> best.Some? || "rule_id" in c)
            && At(d, "rule_id") == if best.Some? then Text(best.value.id) else At(c, "rule_id")
  {
    hide Best, Combine, Own;
    ResetFrames(c);
    var best := Best(rules, c, table, k, lib).0;
    if best.Some? {
      MergeFrames(Reset(c), best.value);
      var m := Merge(Reset(c), best.value);
      assert Str(m, "rule_state") == best.value.state;
    } else {
      assert Str(Reset(c), "rule_state") == "normal";
    }
  }

  lemma JudgeSevere(r: Rule, c: Cells, table: seq<Cells>, k: Keys, lib: Library)
    ensures var v := Judge(r, c, table, k, lib); v.Some? ==> v.value.state in {"warning", "outlier"} && v.value.name == r.name
  {
  }

  // The first verdict of this rank in the list.
  predicate Found(i: nat, v: Verdict, rank: Rank, rules: seq<Rule>, c: Cells, table: seq<Cells>, k: Keys, lib: Library) {
    && i < |rules| && Judge(rules[i], c, table, k, lib) == Some(v) && rank == RankOf(rules[i], v)
    && forall j :: 0 <= j < i ==> Differs(rules[j], rank, c, table, k, lib)
  }

  predicate Differs(r: Rule, rank: Rank, c: Cells, table: seq<Cells>, k: Keys, lib: Library) {
    var v := Judge(r, c, table, k, lib);
    v.Some? ==> RankOf(r, v.value) != rank
  }

  predicate Outranked(r: Rule, rank: Rank, c: Cells, table: seq<Cells>, k: Keys, lib: Library) {
    var v := Judge(r, c, table, k, lib);
    v.Some? ==> !Greater(RankOf(r, v.value), rank)
  }

  lemma GreaterOrder(a: Rank, b: Rank, c: Rank)
    ensures !Greater(a, a)
    ensures Greater(a, b) && !Greater(c, b) ==> !Greater(c, a) && c != a
    ensures !Greater(a, b) && !Greater(b, a) ==> a == b
  {
    StringOrder();
    hide Less;
  }

  lemma Promoted(r: Rule, rank: Rank, higher: Rank, c: Cells, table: seq<Cells>, k: Keys, lib: Library)
    requires Outranked(r, rank, c, table, k, lib) && Greater(higher, rank)
    ensures Outranked(r, higher, c, table, k, lib) && Differs(r, higher, c, table, k, lib)
  {
    var v := Judge(r, c, table, k, lib);
    if v.Some? {
      GreaterOrder(higher, rank, RankOf(r, v.value));
    }
  }

  lemma OutrankedIs(r: Rule, rank: Rank, c: Cells, table: seq<Cells>, k: Keys, lib: Library)
    ensures var v := Judge(r, c, table, k, lib); Outranked(r, rank, c, table, k, lib) <==> v.None? || !Greater(RankOf(r, v.value), rank)
  {
  }

  lemma AboveNone(rank: Rank)
    requires rank.0 >= 0
    ensures Greater(rank, (-1, -1, ""))
  {
  }

  // The fold keeps the first verdict of the highest rank.
  lemma {:induction false} BestSpec(rules: seq<Rule>, c: Cells, table: seq<Cells>, k: Keys, lib: Library)
    ensures var (v, rank) := Best(rules, c, table, k, lib);
            && (v.Some? ==> exists i: nat :: Found(i, v.value, rank, rules, c, table, k, lib))
            && (v.None? ==> rank == (-1, -1, "") && forall i :: 0 <= i < |rules| ==> Judge(rules[i], c, table, k, lib).None?)
            && (forall i :: 0 <= i < |rules| ==> Outranked(rules[i], rank, c, table, k, lib))
    decreases |rules|
  {
    hide Judge, Greater, Outranked, Differs;
    if rules == [] {
    } else {
      var n := |rules| - 1;
      var front := rules[..n];
      BestSpec(front, c, table, k, lib);
      var (v, rank) := Best(front, c, table, k, lib);
      if v.Some? {
        var i: nat :| Found(i, v.value, rank, front, c, table, k, lib);
        assert Found(i, v.value, rank, rules, c, table, k, lib);
      }
      JudgeSevere(rules[n], c, table, k, lib);
      var last := Judge(rules[n], c, table, k, lib);
      if last.Some? && Greater(RankOf(rules[n], last.value), rank) {
        var higher := RankOf(rules[n], last.value);
        GreaterOrder(higher, rank, rank);
        forall i | 0 <= i < n ensures Outranked(rules[i], higher, c, table, k, lib) && Differs(rules[i], higher, c, table, k, lib) {
          assert front[i] == rules[i];
          Promoted(rules[i], rank, higher, c, table, k, lib);
        }
        assert Found(n, last.value, higher, rules, c, table, k, lib);
        OutrankedIs(rules[n], higher, c, table, k, lib);
      } else {
        if last.Some? {
          AboveNone(RankOf(rules[n], last.value));
        }
        OutrankedIs(rules[n], rank, c, table, k, lib);
        assert forall i :: 0 <= i < n ==> front[i] == rules[i];
      }
    }
  }

  predicate Reaches(i: nat, severity: nat, rules: seq<Rule>, c: Cells, table: seq<Cells>, k: Keys, lib: Library) {
    i < |rules| && var v := Judge(rules[i], c, table, k, lib); v.Some? && Severity(v.value.state) == severity
  }

  // The effective state is as severe as the row's own state and every verdict on it, and no more.
  lemma EffectiveIsMaximum(c: Cells, rules: seq<Rule>, table: seq<Cells>, k: Keys, lib: Library)
    ensures var s := Severity(Str(Annotated(c, rules, table, k, lib), "effective_state"));
            && s >= Severity(Own(c))
            && (forall i: nat, x: nat :: Reaches(i, x, rules, c, table, k, lib) ==> s >= x)
            && (s == Severity(Own(c)) || exists i: nat :: Reaches(i, s, rules, c, table, k, lib))
  {
    hide Judge, Best, Annotated;
    AnnotatedColumns(c, rules, table, k, lib);
    BestSpec(rules, c, table, k, lib);
    var (v, rank) := Best(rules, c, table, k, lib);
    if v.Some? {
      var i: nat :| Found(i, v.value, rank, rules, c, table, k, lib);
      JudgeSevere(rules[i], c, table, k, lib);
      assert Reaches(i, Severity(v.value.state), rules, c, table, k, lib);
      forall j: nat, x: nat | Reaches(j, x, rules, c, table, k, lib) ensures x <= Severity(v.value.state) {
        assert Outranked(rules[j], rank, c, table, k, lib);
      }
    }
  }

  lemma Elsewhere<T>(s: seq<T>, t: seq<T>, i: nat) returns (j: nat)
    requires multiset(s) == multiset(t) && i < |s|
    ensures j < |t| && t[j] == s[i]
  {
    assert s[i] in multiset(t);
    j :| 0 <= j < |t| && t[j] == s[i];
  }

  lemma RankBelow(rules: seq<Rule>, permuted: seq<Rule>, c: Cells, table: seq<Cells>, k: Keys, lib: Library)
    requires multiset(rules) == multiset(permuted)
    ensures var (v, rank), (w, other) := Best(rules, c, table, k, lib), Best(permuted, c, table, k, lib);
            v.Some? ==> w.Some? && !Greater(rank, other)
  {
    hide Judge, Greater, Best;
    BestSpec(rules, c, table, k, lib);
    BestSpec(permuted, c, table, k, lib);
    var best := Best(rules, c, table, k, lib);
    if best.0.Some? {
      var i: nat :| Found(i, best.0.value, best.1, rules, c, table, k, lib);
      var j := Elsewhere(rules, permuted, i);
      assert Outranked(permuted[j], Best(permuted, c, table, k, lib).1, c, table, k, lib);
    }
  }

  // The order of the rules does not matter for the state and the name of the rule that is shown.
  lemma RuleOrderIrrelevant(c: Cells, rules: seq<Rule>, permuted: seq<Rule>, table: seq<Cells>, k: Keys, lib: Library)
    requires multiset(rules) == multiset(permuted)
    ensures var d, e := Annotated(c, rules, table, k, lib), Annotated(c, permuted, table, k, lib);
            && At(d, "rule_state") == At(e, "rule_state") && At(d, "rule_name") == At(e, "rule_name")
            && At(d, "effective_state") == At(e, "effective_state")
  {
    hide Judge, Greater, Best, Annotated;
    AnnotatedColumns(c, rules, table, k, lib);
    AnnotatedColumns(c, permuted, table, k, lib);
    RankBelow(rules, permuted, c, table, k, lib);
    RankBelow(permuted, rules, c, table, k, lib);
    BestSpec(rules, c, table, k, lib);
    BestSpec(permuted, c, table, k, lib);
    var v, w := Best(rules, c, table, k, lib), Best(permuted, c, table, k, lib);
    if v.0.Some? {
      GreaterOrder(v.1, w.1, w.1);
      var i: nat :| Found(i, v.0.value, v.1, rules, c, table, k, lib);
      var j: nat :| Found(j, w.0.value, w.1, permuted, c, table, k, lib);
      JudgeSevere(rules[i], c, table, k, lib);
      JudgeSevere(permuted[j], c, table, k, lib);
    }
  }

  lemma CellsEqual(c: Cells, d: Cells)
    requires SameBase(c, d)
    requires forall key :: key in WRITTEN ==> (key in c <==> key in d) && At(c, key) == At(d, key)
    ensures c == d
  {
    forall key ensures (key in c <==> key in d) && At(c, key) == At(d, key) {
      if key !in WRITTEN {
        assert key in c <==> key in c - WRITTEN;
        assert key in d <==> key in d - WRITTEN;
        SameAt(c, d, key);
      }
    }
    assert forall key :: key in c ==> c[key] == At(c, key) == At(d, key) == d[key];
  }

  // Annotating an annotated row again changes nothing, whichever of the other rows are annotated by then.
  lemma AnnotatedTwice(c: Cells, rules: seq<Rule>, t: seq<Cells>, u: seq<Cells>, k: Keys, lib: Library)
    requires KeysOutside(k) && SameBases(t, u)
    ensures Annotated(Annotated(c, rules, t, k, lib), rules, u, k, lib) == Annotated(c, rules, t, k, lib)
  {
    hide Annotated, Best, SameBases, SameBase, KeysOutside, At, Str, Own, Combine;
    var d := Annotated(c, rules, t, k, lib);
    AnnotatedFrames(c, rules, t, k, lib);
    AnnotatedFrames(d, rules, u, k, lib);
    SameBack(d, c);
    SameBest(rules, c, d, t, u, k, lib);
    SameColumns(c, d, k);
    AnnotatedColumns(c, rules, t, k, lib);
    AnnotatedColumns(d, rules, u, k, lib);
    var e := Annotated(d, rules, u, k, lib);
    forall key | key in WRITTEN ensures (key in e <==> key in d) && At(e, key) == At(d, key) {
      assert key == "rule_name" || key == "rule_state" || key == "rule_reason" || key == "rule_seasonal" || key == "rule_id" || key == "effective_state";
    }
    CellsEqual(e, d);
  }

  lemma AnnotateIdempotent(table: seq<Cells>, rules: seq<Rule>, k: Keys, lib: Library)
    requires KeysOutside(k)
    ensures var once := AnnotateTable(table, rules, k, lib); SameBases(once, table) && AnnotateTable(once, rules, k, lib) == once
  {
    hide Annotated, SameBase;
    var once := AnnotateTable(table, rules, k, lib);
    forall i | 0 <= i < |table| ensures SameBase(once[i], table[i]) && SameBase(table[i], once[i]) {
      AnnotatedFrames(table[i], rules, table, k, lib);
      SameBack(Annotated(table[i], rules, table, k, lib), table[i]);
    }
    forall i | 0 <= i < |table| ensures AnnotateTable(once, rules, k, lib)[i] == once[i] {
      AnnotatedTwice(table[i], rules, table, once, k, lib);
    }
  }

  // ----- annotation in place -----

  function Snapshot(rows: seq<Row>): (t: seq<Cells>)
    reads rows
    ensures |t| == |rows|
  {
    seq(|rows|, i requires 0 <= i < |rows| reads rows => rows[i].cells)
  }

  // The lookup tables hold the last row of every series, and of every series at every time.
  ghost predicate Lookups(latest: map<Series, Row>, timed: map<(Series, string), Row>, rows: seq<Row>, table: seq<Cells>, k: Keys)
    requires |rows| == |table|
  {
    && (forall s :: Latest(latest, s, rows, table, k))
    && (k.time != "" ==> forall s, time :: Timed(timed, s, time, rows, table, k))
    && (k.time == "" ==> timed == map[])
  }

  ghost predicate Latest(latest: map<Series, Row>, s: Series, rows: seq<Row>, table: seq<Cells>, k: Keys)
    requires |rows| == |table|
  {
    var i := LastRow(table, s, None, k);
    (s in latest <==> i.Some?) && (s in latest ==> latest[s] == rows[i.value])
  }

  ghost predicate Timed(timed: map<(Series, string), Row>, s: Series, time: string, rows: seq<Row>, table: seq<Cells>, k: Keys)
    requires |rows| == |table|
  {
    var i := LastRow(table, s, Some(time), k);
    ((s, time) in timed <==> i.Some?) && ((s, time) in timed ==> timed[(s, time)] == rows[i.value])
  }

  method BuildLookups(rows: seq<Row>, k: Keys) returns (latest: map<Series, Row>, timed: map<(Series, string), Row>)
    ensures Lookups(latest, timed, rows, Snapshot(rows), k)
  {
    hide SeriesOf, Str;
    latest, timed := map[], map[];
    ghost var table := Snapshot(rows);
    for i := 0 to |rows|
      invariant Lookups(latest, timed, rows[..i], table[..i], k)
    {
      var row := rows[i];
      var series := SeriesOf(row.cells, k);
      assert table[..i + 1][..i] == table[..i] && table[..i + 1][i] == row.cells;
      ghost var latest', timed' := latest, timed;
      latest := latest[series := row];
      ghost var rs, ts := rows[..i + 1], table[..i + 1];
      forall s ensures Latest(latest, s, rs, ts, k) {
        assert Latest(latest', s, rows[..i], table[..i], k);
      }
      if k.time != "" {
        var key := (series, Str(row.cells, k.time));
        timed := timed[key := row];
        forall s, time ensures Timed(timed, s, time, rs, ts, k) {
          assert Timed(timed', s, time, rows[..i], table[..i], k);
        }
      }
    }
    assert rows[..|rows|] == rows && table[..|rows|] == table;
  }

  method EvaluateComposite(r: Rule, row: Row, latest: map<Series, Row>, timed: map<(Series, string), Row>,
                           ghost rows: seq<Row>, ghost table: seq<Cells>, k: Keys, lib: Library) returns (v: Option<Verdict>)
    requires KeysOutside(k) && SameBases(Snapshot(rows), table) && Lookups(latest, timed, rows, table, k)
    ensures v == Composite(r, row.cells, Other(r, row.cells, table, k, lib), k, lib)
  {
    hide At, Str, SameBase, Condition, LastRow;
    var s := OtherSeries(r, row.cells, k);
    var time := if k.time == "" then "" else Str(row.cells, k.time);
    assert Latest(latest, s, rows, table, k) && (k.time != "" ==> Timed(timed, s, time, rows, table, k));
    var other: Option<Cells> := None;
    if k.time != "" && (s, time) in timed {
      other := Some(timed[(s, time)].cells);
    }
    if other.None? && s in latest {
      other := Some(latest[s].cells);
    }
    if other.None? {
      other := Fetch(s, time, lib);
    }
    ghost var expected := Other(r, row.cells, table, k, lib);
    assert forall i :: 0 <= i < |rows| ==> Snapshot(rows)[i] == rows[i].cells;
    SameSelf();
    assert SameBase(row.cells, row.cells) && SameOption(other, expected);
    SameComposite(r, row.cells, row.cells, other, expected, k, lib);
    v := Composite(r, row.cells, other, k, lib);
  }

  lemma OwnKept(c: Cells, d: Cells)
    requires SameBase(c, d)
    ensures Own(c) == Own(d)
  {
    SameAt(c, d, "anomaly_state");
  }

  lemma BasesKept(rows: seq<Row>, was: seq<Cells>, table: seq<Cells>)
    requires |was| == |rows| && SameBases(was, table) && forall j :: 0 <= j < |rows| ==> SameBase(rows[j].cells, was[j])
    ensures SameBases(Snapshot(rows), table)
  {
  }

  method AnnotateRow(row: Row, rules: seq<Rule>, latest: map<Series, Row>, timed: map<(Series, string), Row>,
                     ghost rows: seq<Row>, ghost table: seq<Cells>, k: Keys, lib: Library)
    requires KeysOutside(k) && SameBases(Snapshot(rows), table) && Lookups(latest, timed, rows, table, k)
    modifies row
    ensures row.cells == Annotated(old(row.cells), rules, table, k, lib)
    ensures SameBases(Snapshot(rows), table)
  {
    hide Matches, Seasonal, Threshold, Composite, Other, RankOf, Greater, SameBase, SameBases, At, Str, Own, Lookups, Merge;
    ghost var before, was := row.cells, Snapshot(rows);
    row.cells := row.cells["rule_name" := Text("")];
    row.cells := row.cells["rule_state" := Text("normal")];
    row.cells := row.cells["rule_reason" := Text("")];
    row.cells := row.cells["rule_seasonal" := Flag(false)];
    FourWritten(before);
    OwnKept(row.cells, before);
    row.cells := row.cells["effective_state" := Text(Own(row.cells))];
    ghost var reset := row.cells;
    assert reset == Reset(before);
    ResetFrames(before);
    SameBack(reset, before);
    SameSelf();
    assert forall j :: 0 <= j < |rows| ==> SameBase(rows[j].cells, was[j]);
    BasesKept(rows, was, table);
    var bestMatch: Option<Verdict>, bestRank: Rank := None, (-1, -1, "");
    for i := 0 to |rules|
      invariant row.cells == reset && SameBases(Snapshot(rows), table)
      invariant (bestMatch, bestRank) == Best(rules[..i], before, table, k, lib)
    {
      var r := rules[i];
      assert rules[..i + 1][..i] == rules[..i];
      SameJudge(r, before, reset, table, table, k, lib);
      if Matches(r, row.cells, k) {
        var v: Option<Verdict>;
        if r.kind == "composite" {
          v := EvaluateComposite(r, row, latest, timed, rows, table, k, lib);
        } else if r.kind == "seasonal" {
          v := Seasonal(r, row.cells, k, lib);
        } else {
          v := Threshold(r, row.cells, k, lib);
        }
        if v.Some? {
          var rank := RankOf(r, v.value);
          if Greater(rank, bestRank) {
            bestMatch, bestRank := v, rank;
          }
        }
      }
    }
    assert rules[..|rules|] == rules;
    if bestMatch.Some? {
      row.cells := Merge(row.cells, bestMatch.value);
    }
    row.cells := row.cells["effective_state" := Text(Combine(Own(row.cells), Default(Str(row.cells, "rule_state"), "normal")))];
    AnnotatedFrames(before, rules, table, k, lib);
    assert forall j :: 0 <= j < |rows| ==> SameBase(rows[j].cells, was[j]);
    BasesKept(rows, was, table);
  }

  method AnnotateRows(rows: seq<Row>, rules: seq<Rule>, k: Keys, lib: Library)
    requires KeysOutside(k)
    modifies rows
    ensures Snapshot(rows) == AnnotateTable(old(Snapshot(rows)), rules, k, lib)
  {
    hide SameBase, SameBases, Annotated, Lookups, KeysOutside;
    ghost var table := Snapshot(rows);
    SameSelf();
    var latest, timed := BuildLookups(rows, k);
    for i := 0 to |rows|
      invariant SameBases(Snapshot(rows), table)
      invariant forall j :: 0 <= j < |rows| ==>
                              rows[j].cells == if rows[j] in rows[..i] then Annotated(table[j], rules, table, k, lib) else table[j]
    {
      AnnotatedTwice(table[i], rules, table, table, k, lib);
      AnnotateRow(rows[i], rules, latest, timed, rows, table, k, lib);
      assert forall j :: 0 <= j < |rows| ==> (rows[j] in rows[..i + 1] <==> rows[j] in rows[..i] || rows[j] == rows[i]);
    }
  }
}
