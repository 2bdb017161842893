/** Which of the user's existing connections can stand in for a connection a
    template declares (`_getExistingConnections` in CustomTemplateForm.jsx). */
module Matcher {
  import opened Entities

  /** The kinds compared by connection string or database name. The third
      label is spelled "potgres" in the source, so a connection of kind
      "postgres" is not one of them. */
  const SqlKinds: set<string> := {"mongodb", "mysql", "potgres"}

  /** The kinds compared by Firebase service account. */
  const FirebaseKinds: set<string> := {"firestore", "realtimedb"}

  /** Every kind that has an identity test at all: the seven case labels of
      the source's switch. */
  predicate KnownKind(kind: string)
    ensures KnownKind(kind) <==>
      kind in {"api", "mongodb", "mysql", "potgres", "firestore", "realtimedb", "googleAnalytics"}
  {
    kind == "api" || kind in SqlKinds || kind in FirebaseKinds || kind == "googleAnalytics"
  }

  /** The per-kind identity test, chosen by the template connection's kind:
      an existing connection `c` matches `cand` when it has the same kind
      and the same identity fields for that kind. Missing fields are equal
      to each other. Any other kind never matches. */
  predicate IdentityMatch(cand: Connection, c: Connection)
    ensures IdentityMatch(cand, c) ==> c.kind == cand.kind && KnownKind(cand.kind)
  {
    && c.kind == cand.kind
    && if cand.kind == "api" then c.host == cand.host
       else if cand.kind in SqlKinds then
         c.connectionString == cand.connectionString || c.dbName == cand.dbName
       else if cand.kind in FirebaseKinds then
         c.firebaseServiceAccount == cand.firebaseServiceAccount
       else if cand.kind == "googleAnalytics" then c.oauthId == cand.oauthId
       else false
  }

  /** The positions in `conns` of the connections that pass the identity
      test, in increasing order. */
  function MatchIndices(cand: Connection, conns: seq<Connection>): (r: seq<int>)
    ensures forall k :: 0 <= k < |r| ==> 0 <= r[k] < |conns|
    ensures forall a, b :: 0 <= a < b < |r| ==> r[a] < r[b]
    ensures forall i :: 0 <= i < |conns| ==> (i in r <==> IdentityMatch(cand, conns[i]))
    decreases |conns|
  {
    if |conns| == 0 then []
    else
      var n := |conns| - 1;
      var front := MatchIndices(cand, conns[..n]);
      assert forall i :: 0 <= i < n ==> conns[..n][i] == conns[i];
      if IdentityMatch(cand, conns[n]) then front + [n] else front
  }

  /** The connections that pass the identity test, in the order of `conns`:
      the k-th of them sits at the k-th matching position. */
  function IdentityMatches(cand: Connection, conns: seq<Connection>): (r: seq<Connection>)
    ensures |r| == |MatchIndices(cand, conns)|
    ensures forall k :: 0 <= k < |r| ==> r[k] == conns[MatchIndices(cand, conns)[k]]
    decreases |conns|
  {
    if |conns| == 0 then []
    else
      var n := |conns| - 1;
      var front := IdentityMatches(cand, conns[..n]);
      assert forall i :: 0 <= i < n ==> conns[..n][i] == conns[i];
      if IdentityMatch(cand, conns[n]) then front + [conns[n]] else front
  }

  /** The compatible existing connections: the identity matches in order,
      followed by the last connection with the candidate's own id when
      there is one. The two tests are independent, so a same-id connection
      that also passes the identity test appears twice. */
  function Compatible(cand: Connection, conns: seq<Connection>): (r: seq<Connection>)
    ensures forall k :: 0 <= k < |r| ==> r[k].id == cand.id || IdentityMatch(cand, r[k])
    ensures forall i :: 0 <= i < |conns| && IdentityMatch(cand, conns[i]) ==> conns[i] in r
    ensures |r| == |MatchIndices(cand, conns)| + (if LastWithId(conns, cand.id).Some? then 1 else 0)
    ensures r[..|MatchIndices(cand, conns)|] == IdentityMatches(cand, conns)
    ensures LastWithId(conns, cand.id).Some? ==> r[|r| - 1] == LastWithId(conns, cand.id).value
    ensures r == [] <==>
      forall i :: 0 <= i < |conns| ==> conns[i].id != cand.id && !IdentityMatch(cand, conns[i])
  {
    var matches := IdentityMatches(cand, conns);
    var r := match LastWithId(conns, cand.id)
      case Some(same) => matches + [same]
      case None => matches;
    assert forall i :: 0 <= i < |conns| && IdentityMatch(cand, conns[i]) ==> conns[i] in r by {
      forall i | 0 <= i < |conns| && IdentityMatch(cand, conns[i])
        ensures conns[i] in r
      {
        var k :| 0 <= k < |MatchIndices(cand, conns)| && MatchIndices(cand, conns)[k] == i;
        assert r[k] == conns[i];
      }
    }
    assert |MatchIndices(cand, conns)| > 0 ==>
      MatchIndices(cand, conns)[0] in MatchIndices(cand, conns);
    r
  }

  /** The source's single pass over the existing connections: a same-id
      connection overwrites the remembered one, an identity match is
      pushed, and the remembered same-id connection is pushed at the end.
      It computes exactly `Compatible`. */
  method ExistingConnections(cand: Connection, conns: seq<Connection>) returns (found: seq<Connection>)
    ensures found == Compatible(cand, conns)
    ensures forall k :: 0 <= k < |found| ==>
      found[k].id == cand.id || (found[k].kind == cand.kind && IdentityMatch(cand, found[k]))
  {
    found := [];
    var same: Option<Connection> := None;
    var i := 0;
    while i < |conns|
      invariant 0 <= i <= |conns|
      invariant found == IdentityMatches(cand, conns[..i])
      invariant same == LastWithId(conns[..i], cand.id)
    {
      var c := conns[i];
      assert conns[..i + 1][..i] == conns[..i];
      if c.id == cand.id {
        same := Some(c);
      }
      if c.kind == cand.kind {
        if cand.kind == "api" {
          if c.host == cand.host {
            found := found + [c];
          }
        } else if cand.kind in SqlKinds {
          if c.connectionString == cand.connectionString || c.dbName == cand.dbName {
            found := found + [c];
          }
        } else if cand.kind in FirebaseKinds {
          if c.firebaseServiceAccount == cand.firebaseServiceAccount {
            found := found + [c];
          }
        } else if cand.kind == "googleAnalytics" {
          if c.oauthId == cand.oauthId {
            found := found + [c];
          }
        }
      }
      i := i + 1;
    }
    assert conns[..i] == conns;
    if same.Some? {
      found := found + [same.value];
    }
  }

  /** A template connection of a kind without an identity test, "postgres"
      included, is matched only through its own id. */
  lemma {:induction false} UnknownKindMatchesOnlyById(cand: Connection, conns: seq<Connection>)
    requires !KnownKind(cand.kind)
    ensures Compatible(cand, conns) ==
      match LastWithId(conns, cand.id)
      case Some(same) => [same]
      case None => []
  {
    var idx := MatchIndices(cand, conns);
    if |idx| > 0 {
      assert idx[0] in idx;
    }
  }

  /** "postgres" has no identity test, because the source's label reads "potgres". */
  lemma PostgresHasNoIdentityTest(cand: Connection, conns: seq<Connection>)
    requires cand.kind == "postgres"
    ensures !KnownKind(cand.kind)
    ensures |Compatible(cand, conns)| <= 1
  {
    UnknownKindMatchesOnlyById(cand, conns);
  }

  /** The identity test is symmetric: it only compares fields for equality,
      under the kind the two connections share. */
  lemma IdentityMatchSymmetric(a: Connection, b: Connection)
    ensures IdentityMatch(a, b) <==> IdentityMatch(b, a)
  {
  }

  /** The same-id test and the identity test are independent, so when the
      last connection with the candidate's id also passes the identity test
      it is listed twice: once among the matches, once at the end. */
  lemma SameIdMatchListedTwice(cand: Connection, conns: seq<Connection>)
    requires LastWithId(conns, cand.id).Some?
    requires IdentityMatch(cand, LastWithId(conns, cand.id).value)
    ensures multiset(Compatible(cand, conns))[LastWithId(conns, cand.id).value] >= 2
  {
    var same := LastWithId(conns, cand.id).value;
    var r := Compatible(cand, conns);
    var n := |MatchIndices(cand, conns)|;
    var i :| 0 <= i < |conns| && conns[i] == same;
    assert same in r[..n] by {
      assert same in IdentityMatches(cand, conns) by {
        var k :| 0 <= k < n && MatchIndices(cand, conns)[k] == i;
      }
    }
    assert r == r[..n] + [same];
    assert multiset(r) == multiset(r[..n]) + multiset{same};
  }

  /** A connection passes the identity test against itself whenever its
      kind has one, so an exact copy of the template's connection that is
      the last connection with its id is listed twice. */
  lemma ExactCopyListedTwice(cand: Connection, conns: seq<Connection>)
    requires KnownKind(cand.kind)
    requires LastWithId(conns, cand.id) == Some(cand)
    ensures IdentityMatch(cand, cand)
    ensures multiset(Compatible(cand, conns))[cand] >= 2
  {
    SameIdMatchListedTwice(cand, conns);
  }
}
