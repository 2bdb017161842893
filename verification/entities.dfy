/** The values the custom-template form works on: the user's existing data
    source connections, and the template, which declares the connections
    and the charts a generated dashboard needs. */
module Entities {

  /** An optional value. A JavaScript field that may be missing (`undefined`)
      is an `Option`; two missing fields compare equal, as `undefined ===
      undefined` does. A field holding `null`, or a value that is not a
      string, has no separate representation. */
  datatype Option<+T> = None | Some(value: T)

  /** A data source connection, either one of the user's or one declared by
      a template. `kind` is the connection's `type` string exactly as stored:
      any string, not only the kinds the matcher knows. The remaining fields
      are the per-kind identity fields; a record that does not carry one has
      `None` there. */
  datatype Connection = Connection(
    id: string,
    name: string,
    kind: string,
    host: Option<string>,
    connectionString: Option<string>,
    dbName: Option<string>,
    firebaseServiceAccount: Option<string>,
    oauthId: Option<string>)

  /** A chart's dependency on one template connection, by that connection's id. */
  datatype Dataset = Dataset(connection: string)

  /** A chart declared by a template; `tid` is its template-local identifier.
      Its dataset list is always present. */
  datatype Chart = Chart(tid: string, name: string, datasets: seq<Dataset>)

  /** The body of a template. Either list may be missing from the stored
      template, which the form tolerates. */
  datatype TemplateModel = TemplateModel(
    connections: Option<seq<Connection>>,
    charts: Option<seq<Chart>>)

  datatype Template = Template(id: string, name: string, model: TemplateModel)

  /** The last connection of `conns` whose id is `id`, if there is one: the
      one a left-to-right pass that keeps overwriting ends up holding. */
  function LastWithId(conns: seq<Connection>, id: string): (r: Option<Connection>)
    ensures r.None? <==> forall i :: 0 <= i < |conns| ==> conns[i].id != id
    ensures r.Some? ==> r.value.id == id
    ensures r.Some? ==>
      exists i :: 0 <= i < |conns| && conns[i] == r.value
        && forall j :: i < j < |conns| ==> conns[j].id != id
    decreases |conns|
  {
    if |conns| == 0 then None
    else if conns[|conns| - 1].id == id then Some(conns[|conns| - 1])
    else
      var r := LastWithId(conns[..|conns| - 1], id);
      assert forall j :: 0 <= j < |conns| - 1 ==> conns[..|conns| - 1][j] == conns[j];
      r
  }

  /** The declared chart identifiers, in declaration order. */
  function Tids(charts: seq<Chart>): (r: seq<string>)
    ensures |r| == |charts|
    ensures forall i :: 0 <= i < |charts| ==> r[i] == charts[i].tid
  {
    seq(|charts|, i requires 0 <= i < |charts| => charts[i].tid)
  }
}
