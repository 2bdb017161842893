/** A chart's blocking dependency: the first deactivated connection one of
    its datasets uses. Computing it also drops the chart from the selection
    (`_getDependency` in CustomTemplateForm.jsx, which runs while the chart
    list is drawn); here that is an explicit result instead of a side effect. */
module Blocking {
  import opened Entities
  import opened Selection

  /** A dataset is blocked when its connection has a record that is switched off. */
  predicate Blocks(m: map<string, ConnState>, d: Dataset)
    ensures Blocks(m, d) ==> d.connection in m && |m| > 0
  {
    d.connection in m && !m[d.connection].active
  }

  /** The name of the record that blocks the first blocked dataset, or ""
      when no dataset is blocked. A blocking record whose name is empty also
      yields "", and the datasets after it are not looked at. */
  function BlockingName(m: map<string, ConnState>, ds: seq<Dataset>): (name: string)
    ensures (forall j :: 0 <= j < |ds| ==> !Blocks(m, ds[j])) ==> name == ""
    ensures forall j :: 0 <= j < |ds| && Blocks(m, ds[j]) ==>
      ((forall k :: 0 <= k < j ==> !Blocks(m, ds[k])) ==> name == m[ds[j].connection].name)
    ensures name != "" ==> exists j :: 0 <= j < |ds| && Blocks(m, ds[j]) && name == m[ds[j].connection].name
    decreases |ds|
  {
    if |ds| == 0 then ""
    else if Blocks(m, ds[0]) then m[ds[0].connection].name
    else
      var rest := BlockingName(m, ds[1..]);
      assert forall j :: 1 <= j < |ds| ==> ds[1..][j - 1] == ds[j];
      rest
  }

  /** The dependency shown next to a chart and the chart selection after
      it: with no connection records at all the answer is "" at once;
      otherwise a non-empty blocking name deselects the chart's first
      occurrence when it is selected, and nothing else changes. */
  function Dependency(m: map<string, ConnState>, chart: Chart, s: seq<string>): (r: (string, seq<string>))
    ensures |m| == 0 ==> r.0 == "" && r.1 == s
    ensures r.0 == BlockingName(m, chart.datasets)
    ensures r.0 == "" || chart.tid !in s ==> r.1 == s
    ensures r.0 != "" && chart.tid in s ==>
      r.1 == ToggleChart(s, chart.tid) && multiset(r.1) == multiset(s) - multiset{chart.tid}
    ensures forall x :: x != chart.tid ==> (x in r.1 <==> x in s)
    ensures Distinct(s) ==> Distinct(r.1)
    ensures Distinct(s) && r.0 != "" ==> chart.tid !in r.1
  {
    if |m| < 1 then
      assert forall j :: 0 <= j < |chart.datasets| ==> !Blocks(m, chart.datasets[j]);
      ("", s)
    else
      var name := BlockingName(m, chart.datasets);
      if name != "" && chart.tid in s then
        var s' := ToggleChart(s, chart.tid);
        assert Distinct(s) ==> Distinct(s') && chart.tid !in s' by {
          if Distinct(s) {
            ToggleChartKeepsDistinct(s, chart.tid);
            DistinctCount(s, chart.tid);
            assert multiset(s')[chart.tid] == 0;
          }
        }
        (name, s')
      else
        (name, s)
  }

  /** The chart tids the render pass must drop: a chart among `charts`
      carries the tid and its blocking name is non-empty. */
  ghost predicate BlockedTid(m: map<string, ConnState>, charts: seq<Chart>, x: string)
  {
    exists i :: 0 <= i < |charts| && charts[i].tid == x && BlockingName(m, charts[i].datasets) != ""
  }

  /** The selection after every declared chart's dependency has been
      computed once, in declaration order, each step seeing the previous
      step's selection. */
  function DeselectBlocked(m: map<string, ConnState>, charts: seq<Chart>, s: seq<string>): (r: seq<string>)
    ensures forall x :: x in r ==> x in s
    decreases |charts|
  {
    if |charts| == 0 then s
    else DeselectBlocked(m, charts[1..], Dependency(m, charts[0], s).1)
  }

  /** Over a selection without repeated tids, the render pass keeps exactly
      the selected tids that no blocked chart carries. */
  lemma {:induction false} DeselectBlockedExact(m: map<string, ConnState>, charts: seq<Chart>, s: seq<string>)
    requires Distinct(s)
    ensures Distinct(DeselectBlocked(m, charts, s))
    ensures forall x :: x in DeselectBlocked(m, charts, s) <==> x in s && !BlockedTid(m, charts, x)
    decreases |charts|
  {
    if |charts| > 0 {
      var s1 := Dependency(m, charts[0], s).1;
      DeselectBlockedExact(m, charts[1..], s1);
      forall x
        ensures BlockedTid(m, charts, x) <==>
          (charts[0].tid == x && BlockingName(m, charts[0].datasets) != "") || BlockedTid(m, charts[1..], x)
      {
        if BlockedTid(m, charts, x) {
          var i :| 0 <= i < |charts| && charts[i].tid == x && BlockingName(m, charts[i].datasets) != "";
          if i > 0 {
            assert charts[1..][i - 1] == charts[i];
          }
        }
        if BlockedTid(m, charts[1..], x) {
          var i :| 0 <= i < |charts[1..]| && charts[1..][i].tid == x && BlockingName(m, charts[1..][i].datasets) != "";
          assert charts[i + 1] == charts[1..][i];
        }
      }
    }
  }

  /** Switching off the one connection a selected chart uses makes that
      connection the chart's dependency and drops the chart on the next
      evaluation, provided the connection has a name to show. */
  lemma DeactivatingSoleConnectionDeselects(m: map<string, ConnState>, cid: string, chart: Chart, s: seq<string>)
    requires cid in m && m[cid].active && m[cid].name != ""
    requires chart.datasets == [Dataset(cid)]
    requires chart.tid in s && Distinct(s)
    ensures Dependency(ToggleActive(m, cid), chart, s).0 == m[cid].name
    ensures chart.tid !in Dependency(ToggleActive(m, cid), chart, s).1
    ensures forall x :: x != chart.tid ==> (x in Dependency(ToggleActive(m, cid), chart, s).1 <==> x in s)
  {
  }

  /** One pass removes one copy of a tid per blocked chart that carries it,
      so a tid selected twice survives a single blocked chart. */
  lemma DeselectBlockedOnDuplicateTid(m: map<string, ConnState>, chart: Chart, s: seq<string>)
    requires BlockingName(m, chart.datasets) != ""
    requires multiset(s)[chart.tid] == 2
    ensures multiset(DeselectBlocked(m, [chart], s)) == multiset(s) - multiset{chart.tid}
    ensures multiset(DeselectBlocked(m, [chart], s))[chart.tid] == 1
    ensures chart.tid in DeselectBlocked(m, [chart], s)
  {
    assert chart.tid in multiset(s);
    var s1 := Dependency(m, chart, s).1;
    assert [chart][1..] == [];
    assert DeselectBlocked(m, [chart], s) == s1;
    assert multiset(s1)[chart.tid] == 1;
    assert chart.tid in multiset(s1);
  }
}
