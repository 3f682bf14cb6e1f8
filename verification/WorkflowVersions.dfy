/** Versions of a workflow: drafts, publishing, discarding and reverting, run one after the
    other (`api/db/workflow_client.py:14-284`). */
module WorkflowVersions {
  import opened Documents
  import opened Optional

  /** The behavioural snapshot of a version, and the legacy columns of a workflow. */
  datatype Content = Content(definition: Json, configurations: Json, variables: Json)

  datatype Status = Draft | Published | Archived

  datatype Definition = Definition(
    id: nat, workflow: nat, status: Status, version: nat, isCurrent: bool, publishedAt: Option<int>, content: Content)

  datatype Workflow = Workflow(name: string, legacy: Content, released: Option<nat>)

  datatype Store = Store(rows: seq<Definition>, workflows: map<nat, Workflow>, nextDefinition: nat, nextWorkflow: nat)

  /** A partial save: `None` leaves a field alone. */
  datatype Edit = Edit(definition: Option<Json>, configurations: Option<Json>, variables: Option<Json>)

  datatype Outcome = Done | NoDraft | DraftExists | NoSuchVersion | NoSuchWorkflow

  // --------------------------------------------------------------------- queries

  /** The place of the first row that a query wants. */
  function First(rows: seq<Definition>, wanted: Definition -> bool): (r: Option<nat>)
    ensures r.Some? ==> r.value < |rows| && wanted(rows[r.value])
    ensures forall i :: 0 <= i < Or(r, |rows|) ==> !wanted(rows[i])
  {
    if rows == [] then None
    else
      var n := |rows| - 1;
      var before := First(rows[..n], wanted);
      assert forall i :: 0 <= i < n ==> rows[i] == rows[..n][i];
      if before.Some? then before else if wanted(rows[n]) then Some(n) else None
  }

  function Find(rows: seq<Definition>, workflow: nat, status: Status): (r: Option<nat>)
    ensures r.Some? ==> r.value < |rows| && rows[r.value].workflow == workflow && rows[r.value].status == status
    ensures forall i :: 0 <= i < Or(r, |rows|) ==> rows[i].workflow != workflow || rows[i].status != status
  {
    First(rows, (d: Definition) => d.workflow == workflow && d.status == status)
  }

  function FindVersion(rows: seq<Definition>, workflow: nat, id: nat): (r: Option<nat>)
    ensures r.Some? ==> r.value < |rows| && rows[r.value].workflow == workflow && rows[r.value].id == id
    ensures forall i :: 0 <= i < Or(r, |rows|) ==> rows[i].workflow != workflow || rows[i].id != id
  {
    First(rows, (d: Definition) => d.workflow == workflow && d.id == id)
  }

  /** The place of the row with this key. */
  function Place(rows: seq<Definition>, id: nat): (r: Option<nat>)
    ensures r.Some? ==> r.value < |rows| && rows[r.value].id == id
    ensures forall i :: 0 <= i < Or(r, |rows|) ==> rows[i].id != id
  {
    First(rows, (d: Definition) => d.id == id)
  }

  /** `max(version_number)`, 0 when the workflow has no version. */
  function MaxVersion(rows: seq<Definition>, workflow: nat): (r: nat)
    ensures forall i :: 0 <= i < |rows| && rows[i].workflow == workflow ==> rows[i].version <= r
    ensures r == 0 || exists i :: 0 <= i < |rows| && rows[i].workflow == workflow && rows[i].version == r
  {
    if rows == [] then 0
    else
      var n := |rows| - 1;
      var before := MaxVersion(rows[..n], workflow);
      assert forall i :: 0 <= i < n ==> rows[i] == rows[..n][i];
      if rows[n].workflow == workflow && rows[n].version > before then rows[n].version else before
  }

  /** An edit laid over a snapshot. */
  function Overlay(edit: Edit, base: Content): Content {
    Content(Or(edit.definition, base.definition), Or(edit.configurations, base.configurations),
            Or(edit.variables, base.variables))
  }

  function PublishedContent(rows: seq<Definition>, workflow: nat): Content {
    var p := Find(rows, workflow, Published);
    if p.Some? then rows[p.value].content else Content(EMPTY, EMPTY, EMPTY)
  }

  function NewDraft(store: Store, workflow: nat, content: Content): Definition {
    Definition(store.nextDefinition, workflow, Draft, MaxVersion(store.rows, workflow) + 1, false, None, content)
  }

  function WithLegacy(store: Store, workflow: nat, content: Content): Store {
    if workflow in store.workflows
    then store.(workflows := store.workflows[workflow := store.workflows[workflow].(legacy := content)])
    else store
  }

  // ------------------------------------------------------------------ operations

  function Create(store: Store, name: string, definition: Json, now: int): Store {
    var w, d := store.nextWorkflow, store.nextDefinition;
    var content := Content(definition, EMPTY, EMPTY);
    Store(store.rows + [Definition(d, w, Published, 1, true, Some(now), content)],
          store.workflows[w := Workflow(name, content, Some(d))], d + 1, w + 1)
  }

  /** `save_workflow_draft`; a draft of an unknown workflow violates the foreign key. */
  function SaveOutcome(store: Store, workflow: nat): Outcome {
    if Find(store.rows, workflow, Draft).None? && workflow !in store.workflows then NoSuchWorkflow else Done
  }

  function Save(store: Store, workflow: nat, edit: Edit): Store
    requires SaveOutcome(store, workflow) == Done
  {
    var d := Find(store.rows, workflow, Draft);
    if d.Some? then
      var content := Overlay(edit, store.rows[d.value].content);
      WithLegacy(store.(rows := store.rows[d.value := store.rows[d.value].(content := content)]), workflow, content)
    else
      var content := Overlay(edit, PublishedContent(store.rows, workflow));
      WithLegacy(store.(rows := store.rows + [NewDraft(store, workflow, content)],
                        nextDefinition := store.nextDefinition + 1),
                 workflow, content)
  }

  function ArchivePublished(rows: seq<Definition>, workflow: nat): (r: seq<Definition>)
    ensures |r| == |rows|
    ensures forall i :: 0 <= i < |rows| ==>
                          r[i] == if rows[i].workflow == workflow && rows[i].status == Published
                                  then rows[i].(status := Archived, isCurrent := false) else rows[i]
  {
    seq(|rows|, i requires 0 <= i < |rows| =>
      if rows[i].workflow == workflow && rows[i].status == Published
      then rows[i].(status := Archived, isCurrent := false) else rows[i])
  }

  /** The released reference and the legacy columns are written on a row that must exist. */
  function PublishOutcome(store: Store, workflow: nat): Outcome {
    if Find(store.rows, workflow, Draft).None? then NoDraft
    else if workflow !in store.workflows then NoSuchWorkflow else Done
  }

  /** The published version is archived, and the row at `d` takes its place. */
  function Promote(store: Store, workflow: nat, d: nat, now: int, legacy: Content): Store
    requires d < |store.rows| && workflow in store.workflows
  {
    var promoted := store.rows[d].(status := Published, isCurrent := true, publishedAt := Some(now));
    var row := store.workflows[workflow].(released := Some(promoted.id), legacy := legacy);
    store.(rows := ArchivePublished(store.rows, workflow)[d := promoted], workflows := store.workflows[workflow := row])
  }

  function Publish(store: Store, workflow: nat, now: int): Store
    requires PublishOutcome(store, workflow) == Done
  {
    var d := Find(store.rows, workflow, Draft).value;
    Promote(store, workflow, d, now, store.rows[d].content)
  }

  function DiscardOutcome(store: Store, workflow: nat): Outcome {
    if Find(store.rows, workflow, Draft).None? then NoDraft else Done
  }

  function Discard(store: Store, workflow: nat): Store
    requires DiscardOutcome(store, workflow) == Done
  {
    var d := Find(store.rows, workflow, Draft).value;
    store.(rows := store.rows[..d] + store.rows[d + 1..])
  }

  /** `revert_to_version` accepts any version of the workflow, not only an archived one. */
  function RevertOutcome(store: Store, workflow: nat, id: nat): Outcome {
    if Find(store.rows, workflow, Draft).Some? then DraftExists
    else if FindVersion(store.rows, workflow, id).None? then NoSuchVersion
    else Done
  }

  function Revert(store: Store, workflow: nat, id: nat): Store
    requires RevertOutcome(store, workflow, id) == Done
  {
    var source := store.rows[FindVersion(store.rows, workflow, id).value];
    store.(rows := store.rows + [NewDraft(store, workflow, source.content)], nextDefinition := store.nextDefinition + 1)
  }

  // ------------------------------------------------------- the same, in place

  class WorkflowStore {
    var rows: seq<Definition>
    var workflows: map<nat, Workflow>
    var nextDefinition: nat
    var nextWorkflow: nat

    function State(): Store
      reads this
    {
      Store(rows, workflows, nextDefinition, nextWorkflow)
    }

    method CreateWorkflow(name: string, definition: Json, now: int) returns (workflow: nat)
      modifies this
      ensures State() == Create(old(State()), name, definition, now)
      ensures workflow == old(nextWorkflow)
    {
      workflow := nextWorkflow;
      var content := Content(definition, EMPTY, EMPTY);
      workflows := workflows[workflow := Workflow(name, content, None)];
      var id := nextDefinition;
      rows := rows + [Definition(id, workflow, Published, 1, true, Some(now), content)];
      workflows := workflows[workflow := workflows[workflow].(released := Some(id))];
      nextWorkflow, nextDefinition := nextWorkflow + 1, nextDefinition + 1;
    }

    method SaveWorkflowDraft(workflow: nat, edit: Edit) returns (r: Outcome)
      modifies this
      ensures r == SaveOutcome(old(State()), workflow)
      ensures State() == if r == Done then Save(old(State()), workflow, edit) else old(State())
    {
      var found := Find(rows, workflow, Draft);
      var draft: Definition;
      if found.Some? {
        draft := rows[found.value];
        if edit.definition.Some? {
          draft := draft.(content := draft.content.(definition := edit.definition.value));
        }
        if edit.configurations.Some? {
          draft := draft.(content := draft.content.(configurations := edit.configurations.value));
        }
        if edit.variables.Some? {
          draft := draft.(content := draft.content.(variables := edit.variables.value));
        }
        rows := rows[found.value := draft];
      } else {
        if workflow !in workflows {
          return NoSuchWorkflow;
        }
        var published := PublishedContent(rows, workflow);
        draft := Definition(nextDefinition, workflow, Draft, MaxVersion(rows, workflow) + 1, false, None,
                            Content(Or(edit.definition, published.definition),
                                    Or(edit.configurations, published.configurations),
                                    Or(edit.variables, published.variables)));
        rows := rows + [draft];
        nextDefinition := nextDefinition + 1;
      }
      if workflow in workflows {
        workflows := workflows[workflow := workflows[workflow].(legacy := draft.content)];
      }
      r := Done;
    }

    method PublishWorkflowDraft(workflow: nat, now: int) returns (r: Outcome)
      modifies this
      ensures r == PublishOutcome(old(State()), workflow)
      ensures State() == if r == Done then Publish(old(State()), workflow, now) else old(State())
    {
      var found := Find(rows, workflow, Draft);
      if found.None? {
        return NoDraft;
      }
      if workflow !in workflows {
        return NoSuchWorkflow;
      }
      var draft := rows[found.value];
      rows := ArchivePublished(rows, workflow);
      draft := draft.(status := Published, publishedAt := Some(now), isCurrent := true);
      rows := rows[found.value := draft];
      workflows := workflows[workflow := workflows[workflow].(released := Some(draft.id), legacy := draft.content)];
      r := Done;
    }

    method DiscardWorkflowDraft(workflow: nat) returns (r: Outcome)
      modifies this
      ensures r == DiscardOutcome(old(State()), workflow)
      ensures State() == if r == Done then Discard(old(State()), workflow) else old(State())
    {
      var found := Find(rows, workflow, Draft);
      if found.None? {
        return NoDraft;
      }
      rows := rows[..found.value] + rows[found.value + 1..];
      r := Done;
    }

    method RevertToVersion(workflow: nat, id: nat) returns (r: Outcome)
      modifies this
      ensures r == RevertOutcome(old(State()), workflow, id)
      ensures State() == if r == Done then Revert(old(State()), workflow, id) else old(State())
    {
      if Find(rows, workflow, Draft).Some? {
        return DraftExists;
      }
      var source := FindVersion(rows, workflow, id);
      if source.None? {
        return NoSuchVersion;
      }
      rows := rows + [Definition(nextDefinition, workflow, Draft, MaxVersion(rows, workflow) + 1, false, None,
                                 rows[source.value].content)];
      nextDefinition := nextDefinition + 1;
      r := Done;
    }
  }
}
