/** The decision made when the user asks to generate the dashboard
    (`_generateTemplate`), and the effect that resumes it once a project
    exists. The requests to the backend are returned as values. */
module Generation {
  import opened Entities
  import opened Selection

  /** The form status that marks a submission parked until a project exists. */
  const WaitingForProject: string := "waitingForProject"

  /** What the generation request carries. */
  datatype Payload = Payload(templateId: string, charts: seq<string>, connections: map<string, ConnState>)

  /** A request to a collaborator: create the project, or generate the
      dashboard in the given project. */
  datatype Effect = RequestProject | Generate(projectId: string, payload: Payload)

  /** The submission-related part of the form: the project id it was given
      ("" when there is none yet), its status string, and whether a
      generation is in progress. */
  datatype Flow = Flow(projectId: string, status: string, creating: bool)

  /** Pressing "Generate from template". Without a project and without a
      status the form parks itself and asks for a project; in every other
      case, an empty project id with a non-empty status included, it sends
      the template id and the current selection as they are. */
  function Submit(f: Flow, t: Template, sel: FormState): (r: (Flow, Effect))
    ensures r.0.creating
    ensures r.0.projectId == f.projectId
    ensures r.1.RequestProject? <==> f.projectId == "" && f.status == ""
    ensures r.1.RequestProject? ==> r.0.status == WaitingForProject
    ensures r.1.Generate? ==>
      && r.0.status == f.status
      && r.1.projectId == f.projectId
      && r.1.payload.templateId == t.id
      && r.1.payload.charts == sel.charts
      && r.1.payload.connections == sel.connections
  {
    if f.projectId == "" && f.status == "" then
      (f.(status := WaitingForProject, creating := true), RequestProject)
    else
      (f.(creating := true), Generate(f.projectId, Payload(t.id, sel.charts, sel.connections)))
  }

  /** The form receives project id `p`. The resume effect runs only when
      the id actually changes; it submits again when the new id is
      non-empty and the form is waiting for a project. */
  function ProjectIdChanged(f: Flow, p: string, t: Template, sel: FormState): (r: (Flow, seq<Effect>))
    ensures r.0.projectId == p
    ensures |r.1| <= 1
    ensures |r.1| == 1 <==> p != f.projectId && p != "" && f.status == WaitingForProject
    ensures |r.1| == 1 ==> r.1[0] == Generate(p, Payload(t.id, sel.charts, sel.connections))
    ensures |r.1| == 1 ==> r.0 == f.(projectId := p, creating := true)
    ensures |r.1| == 0 ==> r.0 == f.(projectId := p)
  {
    var f' := f.(projectId := p);
    if p != f.projectId && p != "" && f.status == WaitingForProject then
      var (g, e) := Submit(f', t, sel);
      (g, [e])
    else
      (f', [])
  }

  /** A first submission without a project asks for one and generates
      nothing; when the project id then arrives, exactly one generation is
      requested, in that project, with the selection as it is at that
      moment. */
  lemma DeferredGeneration(t: Template, sel: FormState, later: FormState, p: string)
    requires p != ""
    ensures Submit(Flow("", "", false), t, sel).1 == RequestProject
    ensures
      var resumed := ProjectIdChanged(Submit(Flow("", "", false), t, sel).0, p, t, later);
      && resumed.1 == [Generate(p, Payload(t.id, later.charts, later.connections))]
      && resumed.0.creating
  {
  }

  /** Before anything was submitted, a project id arriving starts nothing. */
  lemma ArrivalBeforeSubmitIsQuiet(f: Flow, p: string, t: Template, sel: FormState)
    requires f.status == ""
    ensures ProjectIdChanged(f, p, t, sel).1 == []
  {
  }

  /** Pressing the button again while still waiting for the project sends a
      generation request with the empty project id. */
  lemma SecondSubmitWhileWaiting(t: Template, sel: FormState)
    ensures
      var parked := Submit(Flow("", "", false), t, sel).0;
      Submit(parked, t, sel).1 == Generate("", Payload(t.id, sel.charts, sel.connections))
  {
  }

  /** Resuming does not clear the waiting status, so a further change to
      another non-empty project id generates once more. */
  lemma {:induction false} ResumeRepeatsOnNextIdChange(t: Template, sel: FormState, p: string, q: string)
    requires p != "" && q != "" && p != q
    ensures
      var parked := Submit(Flow("", "", false), t, sel).0;
      var resumed := ProjectIdChanged(parked, p, t, sel).0;
      && resumed.status == WaitingForProject
      && ProjectIdChanged(resumed, q, t, sel).1 == [Generate(q, Payload(t.id, sel.charts, sel.connections))]
  {
    var parked := Submit(Flow("", "", false), t, sel).0;
    assert parked.status == WaitingForProject;
  }
}
