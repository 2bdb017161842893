/** The form's selection state: one record per template connection, keyed
    by the connection's id, and the list of selected chart tids. */
module Selection {
  import opened Entities
  import Matcher

  /** What the form remembers about one template connection: whether it is
      used at all (`active`) and whether a new connection is to be created
      for it rather than an existing one reused (`createNew`). */
  datatype ConnState = ConnState(id: string, name: string, active: bool, createNew: bool)

  datatype FormState = FormState(connections: map<string, ConnState>, charts: seq<string>)

  /** The record a declared connection starts with. */
  function Fresh(c: Connection): (r: ConnState)
    ensures r.id == c.id && r.name == c.name
    ensures r.active && !r.createNew
  {
    ConnState(c.id, c.name, true, false)
  }

  /** The connection records a template's declared connections produce,
      writing them into the map one after another, so a later duplicate id
      replaces an earlier record. */
  function Seed(conns: seq<Connection>): (m: map<string, ConnState>)
    ensures forall id :: id in m <==> LastWithId(conns, id).Some?
    ensures forall id :: id in m ==> m[id] == Fresh(LastWithId(conns, id).value)
    ensures forall id :: id in m ==> m[id].id == id && m[id].active && !m[id].createNew
    decreases |conns|
  {
    if |conns| == 0 then map[]
    else
      var n := |conns| - 1;
      var front := Seed(conns[..n]);
      front[conns[n].id := Fresh(conns[n])]
  }

  /** Loading a template: each list the template declares replaces that
      part of the state, a missing list leaves it as it was. */
  function Init(t: Template, prior: FormState): (r: FormState)
    ensures t.model.connections.None? ==> r.connections == prior.connections
    ensures t.model.charts.None? ==> r.charts == prior.charts
    ensures t.model.connections.Some? ==>
      var conns := t.model.connections.value;
      && r.connections.Keys == (set i | 0 <= i < |conns| :: conns[i].id)
      && forall id :: id in r.connections ==>
           r.connections[id] == ConnState(id, LastWithId(conns, id).value.name, true, false)
    ensures t.model.charts.Some? ==>
      var charts := t.model.charts.value;
      && |r.charts| == |charts|
      && forall i :: 0 <= i < |charts| ==> r.charts[i] == charts[i].tid
  {
    FormState(
      match t.model.connections
      case Some(conns) => Seed(conns)
      case None => prior.connections,
      match t.model.charts
      case Some(charts) => Tids(charts)
      case None => prior.charts)
  }

  /** Switching a connection on or off. The source indexes the map without
      a check and would throw on a missing id, so the id must be present. */
  function ToggleActive(m: map<string, ConnState>, cid: string): (r: map<string, ConnState>)
    requires cid in m
    ensures r.Keys == m.Keys
    ensures r[cid].active == !m[cid].active
    ensures r[cid].id == m[cid].id && r[cid].name == m[cid].name && r[cid].createNew == m[cid].createNew
    ensures forall k :: k in m && k != cid ==> r[k] == m[k]
  {
    m[cid := m[cid].(active := !m[cid].active)]
  }

  /** Switching "create a new connection" for one template connection; an
      id without a record is ignored. */
  function ToggleCreateNew(m: map<string, ConnState>, cid: string): (r: map<string, ConnState>)
    ensures cid !in m ==> r == m
    ensures r.Keys == m.Keys
    ensures cid in m ==> r[cid].createNew == !m[cid].createNew
    ensures cid in m ==> r[cid].id == m[cid].id && r[cid].name == m[cid].name && r[cid].active == m[cid].active
    ensures forall k :: k in m && k != cid ==> r[k] == m[k]
  {
    if cid in m then m[cid := m[cid].(createNew := !m[cid].createNew)] else m
  }

  lemma ToggleActiveInvolution(m: map<string, ConnState>, cid: string)
    requires cid in m
    ensures cid in ToggleActive(m, cid)
    ensures ToggleActive(ToggleActive(m, cid), cid) == m
  {
  }

  lemma ToggleCreateNewInvolution(m: map<string, ConnState>, cid: string)
    ensures ToggleCreateNew(ToggleCreateNew(m, cid), cid) == m
  {
  }

  /** The position of the first occurrence of `x` in `s`, or -1 when `x`
      does not occur (lodash `indexOf`). */
  function IndexOf(s: seq<string>, x: string): (r: int)
    ensures -1 <= r < |s|
    ensures r == -1 <==> x !in s
    ensures 0 <= r ==> s[r] == x && forall j :: 0 <= j < r ==> s[j] != x
    decreases |s|
  {
    if |s| == 0 then -1
    else if s[0] == x then 0
    else
      var k := IndexOf(s[1..], x);
      if k == -1 then -1 else k + 1
  }

  /** Ticking a chart's checkbox: a tid that is not selected goes to the
      end of the selection; a selected one loses its first occurrence only. */
  function ToggleChart(s: seq<string>, tid: string): (r: seq<string>)
    ensures tid !in s ==> r == s + [tid]
    ensures tid in s ==>
      exists k :: 0 <= k < |s| && s[k] == tid && tid !in s[..k] && r == s[..k] + s[k + 1..]
    ensures tid !in s ==> multiset(r) == multiset(s) + multiset{tid}
    ensures tid in s ==> multiset(r) == multiset(s) - multiset{tid}
    ensures forall x :: x != tid ==> (x in r <==> x in s)
  {
    var k := IndexOf(s, tid);
    if k == -1 then s + [tid]
    else
      assert s == s[..k] + [tid] + s[k + 1..];
      assert multiset(s) == multiset(s[..k]) + multiset{tid} + multiset(s[k + 1..]);
      s[..k] + s[k + 1..]
  }

  /** No tid is selected twice. */
  predicate Distinct(s: seq<string>)
  {
    forall a, b :: 0 <= a < b < |s| ==> s[a] != s[b]
  }

  lemma DistinctCount(s: seq<string>, x: string)
    requires Distinct(s)
    ensures multiset(s)[x] <= 1
    decreases |s|
  {
    if |s| > 0 {
      assert s == [s[0]] + s[1..];
      DistinctCount(s[1..], x);
      if s[0] == x {
        assert x !in s[1..];
      }
    }
  }

  /** Ticking a chart twice restores which tids are selected, as long as the
      tid was not selected more than once, though a deselected-then-
      reselected tid moves to the end. A tid that was not selected comes
      back to exactly the original selection. */
  lemma ToggleChartTwice(s: seq<string>, tid: string)
    requires multiset(s)[tid] <= 1
    ensures multiset(ToggleChart(ToggleChart(s, tid), tid)) == multiset(s)
    ensures forall x :: x in ToggleChart(ToggleChart(s, tid), tid) <==> x in s
    ensures tid !in s ==> ToggleChart(ToggleChart(s, tid), tid) == s
  {
    if tid in s {
      ReselectRestoresMultiset(s, tid);
    } else {
      SelectThenDeselect(s, tid);
    }
    SameMultisetSameMembers(ToggleChart(ToggleChart(s, tid), tid), s);
  }

  lemma ReselectRestoresMultiset(s: seq<string>, tid: string)
    requires multiset(s)[tid] == 1
    ensures multiset(ToggleChart(ToggleChart(s, tid), tid)) == multiset(s)
  {
  }

  lemma SelectThenDeselect(s: seq<string>, tid: string)
    requires tid !in s
    ensures ToggleChart(ToggleChart(s, tid), tid) == s
  {
    var once := ToggleChart(s, tid);
    assert once == s + [tid];
    assert IndexOf(once, tid) == |s| by {
      assert once[..|s|] == s;
    }
    assert once[..|s|] == s;
  }

  lemma SameMultisetSameMembers(a: seq<string>, b: seq<string>)
    requires multiset(a) == multiset(b)
    ensures forall x :: x in a <==> x in b
  {
    forall x
      ensures x in a <==> x in b
    {
      assert x in a <==> x in multiset(a);
      assert x in b <==> x in multiset(b);
    }
  }

  /** With a tid selected twice, two ticks remove both occurrences rather
      than restoring the selection; other tids keep their membership. */
  lemma ToggleChartTwiceOnDuplicate(s: seq<string>, tid: string)
    requires multiset(s)[tid] == 2
    ensures multiset(ToggleChart(ToggleChart(s, tid), tid)) == multiset(s) - multiset{tid, tid}
    ensures tid !in ToggleChart(ToggleChart(s, tid), tid)
    ensures forall x :: x != tid ==> (x in ToggleChart(ToggleChart(s, tid), tid) <==> x in s)
  {
    var once := ToggleChart(s, tid);
    assert tid in multiset(s);
    assert multiset(once)[tid] == 1;
    assert tid in multiset(once);
    var twice := ToggleChart(once, tid);
    assert multiset(twice)[tid] == 0;
    assert tid !in multiset(twice);
  }

  lemma ToggleChartKeepsDistinct(s: seq<string>, tid: string)
    requires Distinct(s)
    ensures Distinct(ToggleChart(s, tid))
  {
  }

  /** "Select all": the declared tids, in order; without a chart list the
      selection stays. */
  function SelectAll(t: Template, s: seq<string>): (r: seq<string>)
    ensures t.model.charts.None? ==> r == s
    ensures t.model.charts.Some? ==> r == Init(t, FormState(map[], s)).charts
  {
    match t.model.charts
    case Some(charts) => Tids(charts)
    case None => s
  }

  /** "Deselect all". */
  function DeselectAll(): (r: seq<string>)
    ensures r == []
    ensures GenerateDisabled(r)
  {
    []
  }

  /** The generate button is disabled while no chart is selected. */
  predicate GenerateDisabled(s: seq<string>)
    ensures GenerateDisabled(s) <==> s == []
  {
    |s| == 0
  }

  lemma SelectAllEnablesGenerate(t: Template, s: seq<string>)
    requires t.model.charts.Some? && |t.model.charts.value| > 0
    ensures !GenerateDisabled(SelectAll(t, s))
    ensures forall i :: 0 <= i < |t.model.charts.value| ==> t.model.charts.value[i].tid in SelectAll(t, s)
    ensures GenerateDisabled(DeselectAll())
  {
  }

  /** The "New connection" box is ticked when the user asked for a new
      connection or when no existing connection is compatible; it is
      disabled exactly in the second case. */
  predicate NewConnectionChecked(m: map<string, ConnState>, cid: string, existing: seq<Connection>)
    ensures NewConnectionDisabled(existing) ==> NewConnectionChecked(m, cid, existing)
    ensures !(cid in m && m[cid].createNew) ==>
      (NewConnectionChecked(m, cid, existing) <==> NewConnectionDisabled(existing))
  {
    (cid in m && m[cid].createNew) || |existing| == 0
  }

  predicate NewConnectionDisabled(existing: seq<Connection>)
    ensures NewConnectionDisabled(existing) <==> existing == []
  {
    |existing| == 0
  }

  /** With the matcher's answer plugged in, the box is ticked exactly when
      the user asked for a new connection or nothing among `conns` shares
      the id or passes the identity test; and when it is disabled, toggling
      cannot untick it. */
  lemma NewConnectionCheckedIff(m: map<string, ConnState>, cand: Connection, conns: seq<Connection>)
    ensures NewConnectionChecked(m, cand.id, Matcher.Compatible(cand, conns)) <==>
      (cand.id in m && m[cand.id].createNew)
      || forall i :: 0 <= i < |conns| ==> conns[i].id != cand.id && !Matcher.IdentityMatch(cand, conns[i])
    ensures NewConnectionDisabled(Matcher.Compatible(cand, conns)) ==>
      NewConnectionChecked(ToggleCreateNew(m, cand.id), cand.id, Matcher.Compatible(cand, conns))
  {
  }

  /** Every record the form holds belongs to a declared connection and
      every declared connection has one. */
  predicate Covers(m: map<string, ConnState>, conns: seq<Connection>)
  {
    m.Keys == set i | 0 <= i < |conns| :: conns[i].id
  }

  /** Loading a template that declares connections makes the map cover them,
      and both toggles keep it that way, so the switch of any declared
      connection always finds its record. */
  lemma TogglesKeepCoverage(t: Template, prior: FormState, cid: string)
    requires t.model.connections.Some?
    ensures Covers(Init(t, prior).connections, t.model.connections.value)
    ensures (exists i :: 0 <= i < |t.model.connections.value| && t.model.connections.value[i].id == cid)
      ==> cid in Init(t, prior).connections
    ensures cid in Init(t, prior).connections ==>
      Covers(ToggleActive(Init(t, prior).connections, cid), t.model.connections.value)
    ensures Covers(ToggleCreateNew(Init(t, prior).connections, cid), t.model.connections.value)
  {
  }
}
