# Custom template form: connection matching, selection and submission

A model of the decision logic in the chartbrew client's custom-template
form (`CustomTemplateForm.jsx`). A user picks a dashboard template. The
template declares the connections and the charts it needs. The form then:

- finds, for each declared connection, the user's existing connections
  that could stand in for it (the *matcher*);
- keeps one record per declared connection. The record says whether the
  connection is used (`active`) and whether a new one should be created
  (`createNew`). The form also keeps the list of selected chart tids;
- reports, for each chart, the first switched-off connection it depends
  on, and drops such a chart from the selection;
- on submit, either parks itself and asks for a project to be created, or
  sends `{template_id, charts, connections}` to the dashboard generator. It
  resumes on its own once the project id arrives.

Everything is modelled as pure functions over immutable values. Requests
to collaborators (create a project, generate a dashboard) are returned as
`Effect` values.

Modules:

- `Entities` (entities.dfy): connections, datasets, charts and templates.
  Missing JavaScript fields are `Option`s. `LastWithId` gives the last
  connection with a given id.
- `Matcher` (matcher.dfy): the per-kind identity test, and the matcher as
  a reference function (`Compatible`). `ExistingConnections` is the
  source's single pass, proved equal to `Compatible`.
- `Selection` (selection.dfy): the connection records and the chart
  selection, with their transitions and the "New connection" checkbox.
- `Blocking` (blocking.dfy): a chart's blocking dependency and the
  deselection it causes.
- `Generation` (generation.dfy): the submit step and the resume effect.
- `Scenarios` (scenarios.dfy): a worked run with two connections and two
  charts.

Behaviour that follows the code as written, where a plain reading of the
product would expect something else:

- The kind label in the source is `"potgres"`. A `"postgres"` connection
  therefore has no identity test and is matched only by its own id.
- The same-id test and the identity test are independent. An existing
  connection with the candidate's id that also passes the identity test
  is listed twice: once among the matches, once at the end.
- Loading a template without a `Connections` or `Charts` list leaves that
  part of the state as it was. It does not empty it.
- The chart selection is a list, not a set. Ticking appends at the end.
  Unticking removes only the first occurrence. So two ticks restore
  membership only when the tid occurred at most once, and a re-selected
  tid moves to the end.
- Switching a connection on or off indexes the record map without a check,
  so `ToggleActive` requires the id to be present. `TogglesKeepCoverage`
  shows that every declared connection has a record after loading, so the
  form's own switches always meet this requirement.
- Submitting while still waiting for a project, with no project id yet,
  sends a generation request with an empty project id.

## Model

| member | source | states |
|---|---|---|
| Entities.LastWithId | client/src/containers/Connections/CustomTemplates/CustomTemplateForm.jsx:69-73 | The remembered same-id connection is absent exactly when no connection has the id. Otherwise it carries the id and no later connection has that id. |
| Entities.Tids | client/src/containers/Connections/CustomTemplates/CustomTemplateForm.jsx:52-55 | The chart tids in declaration order, one per declared chart. The same collection runs again for "select all" at 149-151. |
| Matcher.KnownKind | client/src/containers/Connections/CustomTemplates/CustomTemplateForm.jsx:76-104 | The kinds with an identity test are exactly the seven case labels: api, mongodb, mysql, "potgres", firestore, realtimedb and googleAnalytics. |
| Matcher.IdentityMatch | client/src/containers/Connections/CustomTemplates/CustomTemplateForm.jsx:75-107 | The per-kind identity test: same kind, then same host for api; the same connection string or the same database name for mongodb, mysql and "potgres"; the same service account for firestore and realtimedb; the same OAuth id for googleAnalytics. Any other kind fails. A match always shares the kind, and that kind is one of the listed ones. |
| Matcher.MatchIndices | client/src/containers/Connections/CustomTemplates/CustomTemplateForm.jsx:70-107 | Positions are in range and strictly increasing. A position is listed exactly when the connection there passes the identity test. |
| Matcher.IdentityMatches | client/src/containers/Connections/CustomTemplates/CustomTemplateForm.jsx:75-107 | The identity matches are the connections at the matching positions, in their original order, one per position. |
| Matcher.Compatible | client/src/containers/Connections/CustomTemplates/CustomTemplateForm.jsx:66-116 | Every element has the candidate's id or passes the identity test. Every identity match appears, and the matches come first in order. The length is the number of matches plus one if a same-id connection exists, and that connection is last. The result is empty exactly when nothing shares the id or passes the test. |
| Matcher.ExistingConnections | client/src/containers/Connections/CustomTemplates/CustomTemplateForm.jsx:66-116 | The single pass, with two independent ifs per connection and the same-id connection pushed after the loop, returns exactly `Compatible`. Every element has the candidate's id, or has the candidate's kind and passes its identity test. |
| Matcher.UnknownKindMatchesOnlyById | client/src/containers/Connections/CustomTemplates/CustomTemplateForm.jsx:77-106 | For a kind outside the switch cases, the result is just the last same-id connection, or empty. |
| Matcher.PostgresHasNoIdentityTest | client/src/containers/Connections/CustomTemplates/CustomTemplateForm.jsx:83-92 | Because the label reads "potgres", a "postgres" candidate has no identity test and gets at most one compatible connection. |
| Matcher.IdentityMatchSymmetric | client/src/containers/Connections/CustomTemplates/CustomTemplateForm.jsx:75-103 | The identity test gives the same answer with the two connections swapped. |
| Matcher.SameIdMatchListedTwice | client/src/containers/Connections/CustomTemplates/CustomTemplateForm.jsx:70-113 | When the last connection with the candidate's id also passes the identity test, it occurs at least twice in the result. |
| Matcher.ExactCopyListedTwice | client/src/containers/Connections/CustomTemplates/CustomTemplateForm.jsx:70-113 | A candidate whose kind has a test passes the identity test against itself. So an exact copy that is the last connection with that id occurs at least twice in the result. |
| Selection.Fresh | client/src/containers/Connections/CustomTemplates/CustomTemplateForm.jsx:40-45 | The record a declared connection starts with: its id and name, active, not createNew. |
| Selection.Seed | client/src/containers/Connections/CustomTemplates/CustomTemplateForm.jsx:38-46 | An id is a key exactly when some declared connection has it. Each record is that of the last declaration with its id: active, not createNew, same id and name. |
| Selection.Init | client/src/containers/Connections/CustomTemplates/CustomTemplateForm.jsx:36-58 | Declared connections give exactly one fresh record per id, with a later duplicate winning. Declared charts give the selection as the tids in declaration order. A missing list leaves its part of the state unchanged. |
| Selection.ToggleActive | client/src/containers/Connections/CustomTemplates/CustomTemplateForm.jsx:118-122 | Requires the id to be present. Flips `active` of that record only. Every other field and key is unchanged. |
| Selection.ToggleCreateNew | client/src/containers/Connections/CustomTemplates/CustomTemplateForm.jsx:124-131 | An absent id changes nothing. Otherwise flips `createNew` of that record only, and everything else is unchanged. |
| Selection.ToggleActiveInvolution | client/src/containers/Connections/CustomTemplates/CustomTemplateForm.jsx:118-122 | Toggling `active` twice restores the map. |
| Selection.ToggleCreateNewInvolution | client/src/containers/Connections/CustomTemplates/CustomTemplateForm.jsx:124-131 | Toggling `createNew` twice restores the map, whether or not the id is present. |
| Selection.IndexOf | client/src/containers/Connections/CustomTemplates/CustomTemplateForm.jsx:135 | The result is -1 exactly when the tid is absent. Otherwise it is the position of its first occurrence. |
| Selection.ToggleChart | client/src/containers/Connections/CustomTemplates/CustomTemplateForm.jsx:133-144 | An absent tid is appended at the end. A present tid loses its first occurrence only, so the multiset loses exactly one copy. Other tids keep their membership. |
| Selection.ToggleChartTwice | client/src/containers/Connections/CustomTemplates/CustomTemplateForm.jsx:133-144 | If the tid occurs at most once, two ticks restore the multiset and the membership. An unselected tid comes back to exactly the original list. |
| Selection.ReselectRestoresMultiset | client/src/containers/Connections/CustomTemplates/CustomTemplateForm.jsx:137-141 | Unticking a tid selected once, then ticking it again, restores the multiset. |
| Selection.SelectThenDeselect | client/src/containers/Connections/CustomTemplates/CustomTemplateForm.jsx:137-141 | Ticking an unselected tid, then unticking it, restores the list exactly. |
| Selection.ToggleChartTwiceOnDuplicate | client/src/containers/Connections/CustomTemplates/CustomTemplateForm.jsx:133-144 | For any tid selected exactly twice, two ticks remove both copies and do not restore the selection. Other tids keep their membership. |
| Selection.ToggleChartKeepsDistinct | client/src/containers/Connections/CustomTemplates/CustomTemplateForm.jsx:133-144 | Ticking keeps a selection free of repeated tids. |
| Selection.SelectAll | client/src/containers/Connections/CustomTemplates/CustomTemplateForm.jsx:146-154 | Gives the same selection that loading the template gives. Without a chart list the selection stays. |
| Selection.DeselectAll | client/src/containers/Connections/CustomTemplates/CustomTemplateForm.jsx:156-158 | "Deselect all" empties the selection, which disables generation. |
| Selection.GenerateDisabled | client/src/containers/Connections/CustomTemplates/CustomTemplateForm.jsx:346 | The generate button is disabled exactly when the selection is empty. |
| Selection.SelectAllEnablesGenerate | client/src/containers/Connections/CustomTemplates/CustomTemplateForm.jsx:146-158 | With a non-empty chart list, "select all" contains every declared tid and enables generation. "Deselect all" disables it. |
| Selection.NewConnectionChecked | client/src/containers/Connections/CustomTemplates/CustomTemplateForm.jsx:242-247 | The "New connection" box is ticked when createNew is set or no compatible connection exists. It is always ticked when disabled. Without createNew, it is ticked exactly when it is disabled. |
| Selection.NewConnectionDisabled | client/src/containers/Connections/CustomTemplates/CustomTemplateForm.jsx:249 | The box is disabled exactly when the list of compatible connections is empty. |
| Selection.NewConnectionCheckedIff | client/src/containers/Connections/CustomTemplates/CustomTemplateForm.jsx:242-249 | The box is ticked exactly when createNew is set or nothing shares the id or passes the identity test. When it is disabled, toggling leaves it ticked. |
| Selection.TogglesKeepCoverage | client/src/containers/Connections/CustomTemplates/CustomTemplateForm.jsx:36-49 | After loading, the record keys are exactly the declared ids. So every declared id can be toggled, and both toggles keep the keys. |
| Blocking.Blocks | client/src/containers/Connections/CustomTemplates/CustomTemplateForm.jsx:167-168 | A dataset is blocked when its connection has a record and that record is switched off. A blocked dataset implies a non-empty record map, so the early return at 161 hides no blocked dataset. |
| Blocking.BlockingName | client/src/containers/Connections/CustomTemplates/CustomTemplateForm.jsx:163-173 | The result is "" when no dataset's connection has an inactive record. Otherwise it is the name of the first such record in dataset order. A non-empty result is the name of some blocking record. |
| Blocking.Dependency | client/src/containers/Connections/CustomTemplates/CustomTemplateForm.jsx:160-180 | An empty map gives "" and no change. The early return agrees with the loop. A non-empty name with the chart selected removes exactly one copy of its tid. Otherwise the selection is unchanged, and other tids are never affected. |
| Blocking.DeselectBlocked | client/src/containers/Connections/CustomTemplates/CustomTemplateForm.jsx:278-293 | Evaluating every chart's dependency in order only ever removes tids from the selection. |
| Blocking.DeselectBlockedExact | client/src/containers/Connections/CustomTemplates/CustomTemplateForm.jsx:278-293 | Evaluating every chart's dependency over a duplicate-free selection keeps exactly the selected tids that no blocked chart carries. |
| Blocking.DeselectBlockedOnDuplicateTid | client/src/containers/Connections/CustomTemplates/CustomTemplateForm.jsx:175-177 | For any blocked chart whose tid is selected exactly twice, the pass removes one copy, and the tid stays selected. |
| Blocking.DeactivatingSoleConnectionDeselects | client/src/containers/Connections/CustomTemplates/CustomTemplateForm.jsx:160-180 | Switching off the only connection of a selected chart makes its name the dependency. The chart leaves the selection and the other tids stay. |
| Generation.Submit | client/src/containers/Connections/CustomTemplates/CustomTemplateForm.jsx:182-197 | A project is requested exactly when both the project id and the status are empty, and the status becomes "waitingForProject". Otherwise the request carries the project id, the template id and the current selection unchanged. |
| Generation.ProjectIdChanged | client/src/containers/Connections/CustomTemplates/CustomTemplateForm.jsx:60-64 | Resubmits exactly when the id changes to a non-empty one while the form is waiting, and then generates with the current selection. It marks the form as creating and leaves the waiting status in place. Otherwise it only records the id. |
| Generation.ResumeRepeatsOnNextIdChange | client/src/containers/Connections/CustomTemplates/CustomTemplateForm.jsx:60-64 | Resuming leaves the status at "waitingForProject", so a later change to another non-empty project id generates once more. |
| Generation.DeferredGeneration | client/src/containers/Connections/CustomTemplates/CustomTemplateForm.jsx:182-189 | A first submit without a project only requests one. The arriving id then causes exactly one generation, in that project, with the selection of that moment. |
| Generation.ArrivalBeforeSubmitIsQuiet | client/src/containers/Connections/CustomTemplates/CustomTemplateForm.jsx:60-64 | A project id that arrives before any submission starts nothing. |
| Generation.SecondSubmitWhileWaiting | client/src/containers/Connections/CustomTemplates/CustomTemplateForm.jsx:185-195 | Submitting again while still waiting sends a generation request with the empty project id. |
| Scenarios.LoadSample | client/src/containers/Connections/CustomTemplates/CustomTemplateForm.jsx:36-58 | Worked example with connections A and B and charts X on A and Y on B. Loading gives one fresh record for each connection and selects [x, y], and "select all" gives [x, y] again. |
| Scenarios.SwitchOffAlpha | client/src/containers/Connections/CustomTemplates/CustomTemplateForm.jsx:160-180 | Worked example, continued. After A is switched off, X reports A's name and the selection becomes [y]. Y reports nothing and keeps [y]. |

## Left out

- Rendering, icons, theme detection, the delete-template modal and the
  `isAdmin` switch: these are presentation only.
- The `generateDashboard` request, its success and failure handling, and
  the 2000 ms completion delay: the model stops at the `Generate` effect.
  `creating` is set on submit but never cleared here.
- The `onCreateProject`, `onComplete`, `onBack` and `onDelete`
  callbacks: they are external collaborators, and requesting a project is
  the `RequestProject` effect.
- The shallow `_.clone` of the record map, which in the source shares the
  record objects with the previous state. In a value model every
  transition yields a new map, so the sharing has no counterpart.
- Render timing of the dependency check. The source computes it while
  drawing: once per chart, and a second time for the tooltip when the
  first call returned a name (the second call, at line 293, sits inside
  the `&&` at line 289). Each call deselects through a closure over that
  render's selection. `Blocking.DeselectBlocked` models only the
  selection reached when each chart's dependency is taken in turn on the
  current selection. It does not model how state updates within one
  render are batched. With a tid selected more than once, the two differ.
  The source keeps re-rendering until no blocked chart's tid is selected,
  so every copy goes. The model removes one copy per blocked chart
  (`Blocking.DeselectBlockedOnDuplicateTid`).
- JavaScript truthiness beyond strings. Project ids are strings, and the
  empty string stands for "no project". A numeric id `0`, `null` or
  `undefined` is not modelled separately. Ids, tids and record names are
  strings, and a missing record name would be falsy like "".
- `null` and non-string identity fields. The source compares identity
  fields with `===`, which tells `null` from a missing field and compares
  values of different types as unequal. The model has only a string or
  nothing (`Option<string>`), so a `null` field and a missing one both
  become `None` and match each other, where the source rejects the pair.
- A chart without a `Datasets` list. Once any connection record exists,
  the source throws on such a chart when reading `datasets.length`. The
  model's `Chart` always carries a dataset sequence, so this error path
  is not expressed.
- The `template` prop is always present, as its required prop type says.
  A template whose `model` is missing, on which the source throws, is not
  modelled.
- MongoQueryBuilder.jsx and settings.template.js: the first is the query
  editor UI over asynchronous store actions, the second holds environment
  constants. Neither is part of this model.
