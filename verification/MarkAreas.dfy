/** Shaded areas and highlighted points of an anomaly chart: extractDerivedSignalBindings of
    chart_render_binding.go, from the state column and the time column. */
module MarkAreas {
  import opened Options

  datatype Area = Area(state: string, warning: bool, from: nat, to: nat)

  function Min(a: nat, b: nat): nat { if a < b then a else b }

  // A maximal stretch of one state other than normal.
  predicate IsRun(states: seq<string>, a: Area) {
    && a.from <= a.to < |states|
    && a.state != "normal" && a.warning == (a.state == "warning")
    && (forall i :: a.from <= i <= a.to ==> states[i] == a.state)
    && (a.from > 0 ==> states[a.from - 1] != a.state)
    && (a.to + 1 < |states| ==> states[a.to + 1] != a.state)
  }

  // In order and apart.
  predicate Ordered(areas: seq<Area>) { forall i, j :: 0 <= i < j < |areas| ==> areas[i].to < areas[j].from }

  predicate Covered(areas: seq<Area>, i: nat) { exists k :: 0 <= k < |areas| && areas[k].from <= i <= areas[k].to }

  // The runs that begin at a time of the chart.
  ghost predicate AllRuns(states: seq<string>, times: nat, areas: seq<Area>) {
    && Ordered(areas)
    && (forall k :: 0 <= k < |areas| ==> IsRun(states, areas[k]) && areas[k].from < times)
    && (forall i: nat :: i < Min(|states|, times) && states[i] != "normal" ==> Covered(areas, i))
  }

  // The state column goes on where the time column ends, in the middle of a run.
  predicate RunsOver(states: seq<string>, times: nat) {
    0 < times < |states| && states[times] == states[times - 1] != "normal"
  }

  // An area and the times of its ends.
  datatype Entry = Entry(area: Area, first: string, last: string)

  predicate Placed(e: Entry, times: seq<string>) {
    e.area.from < |times| && e.area.to < |times| && e.first == times[e.area.from] && e.last == times[e.area.to]
  }

  function Areas(es: seq<Entry>): (r: seq<Area>)
    ensures |r| == |es| && forall k :: 0 <= k < |es| ==> r[k] == es[k].area
  {
    seq(|es|, k requires 0 <= k < |es| => es[k].area)
  }

  // The states before i are shaded.
  ghost predicate Shaded(states: seq<string>, times: seq<string>, out: seq<Entry>, i: nat) {
    && i <= |states| && i <= |times|
    && Ordered(Areas(out))
    && (forall k :: 0 <= k < |out| ==> Placed(out[k], times) && IsRun(states, out[k].area) && out[k].area.to < i)
    && (forall j: nat :: j < i && states[j] != "normal" ==> Covered(Areas(out), j))
    && (0 < i < |states| && states[i - 1] != "normal" ==> states[i] != states[i - 1])
  }

  lemma RunAdded(states: seq<string>, times: seq<string>, out: seq<Entry>, i: nat, e: Entry)
    requires Shaded(states, times, out, i) && IsRun(states, e.area) && e.area.from == i && Placed(e, times)
    ensures Shaded(states, times, out + [e], e.area.to + 1)
  {
    var all := out + [e];
    forall j: nat | j <= e.area.to && states[j] != "normal" ensures Covered(Areas(all), j) {
      if j < i {
        var k :| 0 <= k < |out| && Areas(out)[k].from <= j <= Areas(out)[k].to;
        assert Areas(all)[k] == Areas(out)[k];
      } else {
        assert Areas(all)[|out|] == e.area;
      }
    }
  }

  lemma NormalPassed(states: seq<string>, times: seq<string>, out: seq<Entry>, i: nat)
    requires Shaded(states, times, out, i) && i < |states| && i < |times| && states[i] == "normal"
    ensures Shaded(states, times, out, i + 1)
  {
  }

  lemma RunBegins(states: seq<string>, times: seq<string>, out: seq<Entry>, i: nat, a: Area)
    requires Shaded(states, times, out, i) && a.from == i <= a.to < |states| && a.state != "normal" && a.warning == (a.state == "warning")
    requires (forall j :: i <= j <= a.to ==> states[j] == a.state) && (a.to + 1 < |states| ==> states[a.to + 1] != a.state)
    ensures IsRun(states, a)
  {
  }

  lemma NothingShaded(states: seq<string>, times: seq<string>)
    ensures Shaded(states, times, [], 0)
  {
  }

  lemma RunsOn(states: seq<string>, times: nat, state: string)
    requires 0 < times < |states| && states[times] == states[times - 1] == state != "normal"
    ensures RunsOver(states, times)
  {
  }

  lemma AllShaded(states: seq<string>, times: seq<string>, out: seq<Entry>)
    requires Shaded(states, times, out, Min(|states|, |times|))
    ensures AllRuns(states, |times|, Areas(out)) && !RunsOver(states, |times|)
    ensures forall e :: e in out ==> Placed(e, times)
  {
  }

  // None stands for the source's failure: it indexes past the times when a run goes on behind them.
  method Shade(states: seq<string>, times: seq<string>) returns (areas: Option<seq<Entry>>)
    ensures areas.None? <==> RunsOver(states, |times|)
    ensures areas.Some? ==> AllRuns(states, |times|, Areas(areas.value)) && forall e :: e in areas.value ==> Placed(e, times)
  {
    NothingShaded(states, times);
    hide AllRuns, RunsOver, Shaded, IsRun;
    var out: seq<Entry> := [];
    var i := 0;
    while i < Min(|states|, |times|)
      invariant 0 <= i <= Min(|states|, |times|) && Shaded(states, times, out, i)
    {
      var state := states[i];
      if state == "normal" {
        NormalPassed(states, times, out, i);
        i := i + 1;
        continue;
      }
      ghost var before := i;
      var startIdx := i;
      while i + 1 < |states| && states[i + 1] == state
        invariant startIdx <= i < |states|
        invariant forall j :: startIdx <= j <= i ==> states[j] == state
      {
        i := i + 1;
      }
      var endIdx := i;
      if endIdx >= |times| {
        RunsOn(states, |times|, state);
        return None;
      }
      var area := Area(state, state == "warning", startIdx, endIdx);
      var entry := Entry(area, times[startIdx], times[endIdx]);
      assert IsRun(states, area) by {
        RunBegins(states, times, out, startIdx, area);
      }
      RunAdded(states, times, out, startIdx, entry);
      out := out + [entry];
      i := i + 1;
    }
    AllShaded(states, times, out);
    areas := Some(out);
  }

  // The areas are determined by the states: the runs that begin within the chart, each once.
  lemma {:induction false} RunsUnique(states: seq<string>, times: nat, a: seq<Area>, b: seq<Area>)
    requires AllRuns(states, times, a) && AllRuns(states, times, b)
    ensures forall x :: x in a ==> x in b
  {
    forall x | x in a ensures x in b {
      assert Covered(b, x.from);
      var k :| 0 <= k < |b| && b[k].from <= x.from <= b[k].to;
      SameRun(states, x, b[k], x.from);
    }
  }

  lemma SameRun(states: seq<string>, x: Area, y: Area, i: nat)
    requires IsRun(states, x) && IsRun(states, y) && x.from <= i <= x.to && y.from <= i <= y.to
    ensures x == y
  {
    assert states[i] == x.state == y.state;
    assert x.from < y.from ==> x.from <= y.from - 1 <= x.to;
    assert y.from < x.from ==> y.from <= x.from - 1 <= y.to;
    assert x.to < y.to ==> y.from <= x.to + 1 <= y.to;
    assert y.to < x.to ==> x.from <= y.to + 1 <= x.to;
  }

  // Every index lies in an area exactly when its state is not normal, and then in only one.
  lemma AreasPartition(states: seq<string>, times: nat, areas: seq<Area>, i: nat)
    requires AllRuns(states, times, areas) && i < Min(|states|, times)
    ensures Covered(areas, i) <==> states[i] != "normal"
    ensures forall j, k :: 0 <= j < |areas| && 0 <= k < |areas| && areas[j].from <= i <= areas[j].to && areas[k].from <= i <= areas[k].to ==> j == k
  {
  }

  // ----- points -----

  function Rank(state: string): nat { if state == "warning" then 1 else if state == "outlier" then 2 else 0 }

  // The indices of a chart with n points whose state has this rank.
  function IndicesOf(states: seq<string>, n: nat, rank: nat): (r: seq<nat>)
    ensures forall i: nat :: i in r <==> i < n && i < |states| && Rank(states[i]) == rank
    ensures forall i, j :: 0 <= i < j < |r| ==> r[i] < r[j]
  {
    if n == 0 then []
    else
      var front := IndicesOf(states, n - 1, rank);
      assert forall j :: 0 <= j < |front| ==> front[j] in front;
      if n - 1 < |states| && Rank(states[n - 1]) == rank then front + [n - 1] else front
  }

  function PointsAt(times: seq<string>, values: seq<real>, indices: seq<nat>): seq<(string, real)>
    requires forall i :: i in indices ==> i < |times| && i < |values|
  {
    seq(|indices|, k requires 0 <= k < |indices| =>
      assert indices[k] in indices;
      (times[indices[k]], values[indices[k]]))
  }

  lemma NextPoint(times: seq<string>, values: seq<real>, states: seq<string>, idx: nat, rank: nat)
    requires idx < |times| && idx < |values|
    ensures var was, now := IndicesOf(states, idx, rank), IndicesOf(states, idx + 1, rank);
            PointsAt(times, values, now) ==
            PointsAt(times, values, was) + if idx < |states| && Rank(states[idx]) == rank then [(times[idx], values[idx])] else []
  {
  }

  method SplitPoints(times: seq<string>, values: seq<real>, states: seq<string>)
    returns (warningPoints: seq<(string, real)>, outlierPoints: seq<(string, real)>)
    ensures var n := Min(|times|, |values|);
            && warningPoints == PointsAt(times, values, IndicesOf(states, n, 1))
            && outlierPoints == PointsAt(times, values, IndicesOf(states, n, 2))
  {
    warningPoints, outlierPoints := [], [];
    assert PointsAt(times, values, []) == [];
    hide PointsAt, Rank;
    for idx := 0 to Min(|times|, |values|)
      invariant warningPoints == PointsAt(times, values, IndicesOf(states, idx, 1))
      invariant outlierPoints == PointsAt(times, values, IndicesOf(states, idx, 2))
    {
      NextPoint(times, values, states, idx, 1);
      NextPoint(times, values, states, idx, 2);
      var rk := if idx < |states| then Rank(states[idx]) else 0;
      if rk == 1 {
        warningPoints := warningPoints + [(times[idx], values[idx])];
      } else if rk == 2 {
        outlierPoints := outlierPoints + [(times[idx], values[idx])];
      }
    }
  }
}
