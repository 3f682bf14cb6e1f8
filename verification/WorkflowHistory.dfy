/** What every serial run of the version operations keeps, and what a draft is: an overlay on
    the published version (`api/db/workflow_client.py:14-284`). */
module WorkflowHistory {
  import opened Documents
  import opened Optional
  import opened WorkflowVersions

  // ------------------------------------------------------------- serial requests

  datatype Request =
    | CreateRequest(name: string, definition: Json, at: int)
    | SaveRequest(workflow: nat, edit: Edit)
    | PublishRequest(workflow: nat, at: int)
    | DiscardRequest(workflow: nat)
    | RevertRequest(workflow: nat, id: nat)

  /** The store after one request; a request that fails rolls back. */
  function After(store: Store, request: Request): Store {
    match request
    case CreateRequest(name, definition, at) => Create(store, name, definition, at)
    case SaveRequest(w, edit) => if SaveOutcome(store, w) == Done then Save(store, w, edit) else store
    case PublishRequest(w, at) => if PublishOutcome(store, w) == Done then Publish(store, w, at) else store
    case DiscardRequest(w) => if DiscardOutcome(store, w) == Done then Discard(store, w) else store
    case RevertRequest(w, id) => if RevertOutcome(store, w, id) == Done then Revert(store, w, id) else store
  }

  function Run(store: Store, requests: seq<Request>): Store {
    if requests == [] then store
    else After(Run(store, requests[..|requests| - 1]), requests[|requests| - 1])
  }

  lemma RunSnoc(store: Store, requests: seq<Request>, request: Request)
    ensures Run(store, requests + [request]) == After(Run(store, requests), request)
  {
    assert (requests + [request])[..|requests|] == requests;
  }

  const NOTHING: Store := Store([], map[], 0, 0)

  // ------------------------------------------------------------------ invariant

  /** Two rows have different keys; of one workflow, also different version numbers, a draft's
      being the higher one. So a workflow has at most one draft. */
  predicate Apart(a: Definition, b: Definition) {
    && a.id != b.id
    && (a.workflow == b.workflow ==>
          && a.version != b.version
          && (a.status == Draft ==> b.version < a.version)
          && (b.status == Draft ==> a.version < b.version))
  }

  predicate RowsApart(rows: seq<Definition>) {
    forall i, j {:trigger rows[i], rows[j]} :: 0 <= i < j < |rows| ==> Apart(rows[i], rows[j])
  }

  /** The published row is the one its workflow points to, and the only one that is current. */
  predicate RowFits(row: Definition, store: Store) {
    && row.id < store.nextDefinition
    && row.workflow in store.workflows
    && (row.isCurrent <==> row.status == Published)
    && (row.status == Published <==> store.workflows[row.workflow].released == Some(row.id))
  }

  predicate WorkflowFits(w: nat, store: Store) {
    w < store.nextWorkflow && Find(store.rows, w, Published).Some?
  }

  predicate Inv(store: Store) {
    && RowsApart(store.rows)
    && (forall i :: 0 <= i < |store.rows| ==> RowFits(store.rows[i], store))
    && (forall w {:trigger WorkflowFits(w, store)} :: w in store.workflows ==> WorkflowFits(w, store))
  }

  lemma Separate(rows: seq<Definition>, i: nat, j: nat)
    requires RowsApart(rows) && i < |rows| && j < |rows|
    ensures i == j || Apart(rows[i], rows[j])
  {
    assert i < j ==> Apart(rows[i], rows[j]);
    assert j < i ==> Apart(rows[j], rows[i]);
  }

  /** The same version, perhaps no longer a draft. */
  predicate SameVersion(before: Definition, after: Definition) {
    && after.id == before.id && after.workflow == before.workflow && after.version == before.version
    && (after.status == Draft ==> before.status == Draft)
  }

  lemma UpdatedApart(rows: seq<Definition>, after: seq<Definition>)
    requires RowsApart(rows) && |after| == |rows|
    requires forall i :: 0 <= i < |rows| ==> SameVersion(rows[i], after[i])
    ensures RowsApart(after)
  {
    forall i, j {:trigger after[i], after[j]} | 0 <= i < j < |after| ensures Apart(after[i], after[j]) {
      assert Apart(rows[i], rows[j]);
    }
  }

  lemma AppendedApart(rows: seq<Definition>, row: Definition)
    requires RowsApart(rows) && forall i :: 0 <= i < |rows| ==> Apart(rows[i], row)
    ensures RowsApart(rows + [row])
  {
  }

  /** The place of a row before the row at `d` was deleted, and after. */
  function PlaceBefore(d: nat, i: nat): nat {
    if i < d then i else i + 1
  }

  function PlaceAfter(d: nat, i: nat): nat
    requires i != d
  {
    if i < d then i else i - 1
  }

  function Deleted(rows: seq<Definition>, d: nat): (r: seq<Definition>)
    requires d < |rows|
    ensures |r| == |rows| - 1
    ensures forall i {:trigger r[i]} :: 0 <= i < |r| ==> r[i] == rows[PlaceBefore(d, i)]
  {
    rows[..d] + rows[d + 1..]
  }

  lemma StillThere(rows: seq<Definition>, d: nat, i: nat)
    requires d < |rows| && i < |rows| && i != d
    ensures PlaceAfter(d, i) < |rows| - 1 && Deleted(rows, d)[PlaceAfter(d, i)] == rows[i]
  {
    assert PlaceBefore(d, PlaceAfter(d, i)) == i;
  }

  lemma DeletedApart(rows: seq<Definition>, d: nat)
    requires RowsApart(rows) && d < |rows|
    ensures RowsApart(Deleted(rows, d))
  {
    var after := Deleted(rows, d);
    forall i, j {:trigger after[i], after[j]} | 0 <= i < j < |after| ensures Apart(after[i], after[j]) {
      assert Apart(rows[PlaceBefore(d, i)], rows[PlaceBefore(d, j)]);
    }
  }

  lemma CreateKeepsInv(store: Store, name: string, definition: Json, at: int)
    requires Inv(store)
    ensures Inv(Create(store, name, definition, at))
  {
    var after := Create(store, name, definition, at);
    var n := |store.rows|;
    var row := after.rows[n];
    forall i | 0 <= i < n ensures Apart(store.rows[i], row) && RowFits(store.rows[i], after) {
      assert RowFits(store.rows[i], store) && WorkflowFits(store.rows[i].workflow, store);
    }
    AppendedApart(store.rows, row);
    forall w | w in after.workflows ensures WorkflowFits(w, after) {
      if w == row.workflow {
        assert after.rows[n].status == Published;
      } else {
        assert WorkflowFits(w, store);
        assert after.rows[Find(store.rows, w, Published).value] == store.rows[Find(store.rows, w, Published).value];
      }
    }
  }

  /** The row is a fresh draft numbered above the highest version. */
  predicate IsNextDraft(store: Store, row: Definition) {
    && row.id == store.nextDefinition && row.status == Draft && !row.isCurrent
    && row.workflow in store.workflows && row.version > MaxVersion(store.rows, row.workflow)
  }

  lemma NextDraftIsApart(store: Store, draft: Definition)
    requires Inv(store) && IsNextDraft(store, draft) && Find(store.rows, draft.workflow, Draft).None?
    ensures RowsApart(store.rows + [draft])
  {
    forall i | 0 <= i < |store.rows| ensures Apart(store.rows[i], draft) {
      assert RowFits(store.rows[i], store);
    }
    AppendedApart(store.rows, draft);
  }

  lemma AddingDraftKeepsInv(store: Store, draft: Definition)
    requires Inv(store) && IsNextDraft(store, draft) && Find(store.rows, draft.workflow, Draft).None?
    ensures Inv(store.(rows := store.rows + [draft], nextDefinition := store.nextDefinition + 1))
  {
    var after := store.(rows := store.rows + [draft], nextDefinition := store.nextDefinition + 1);
    NextDraftIsApart(store, draft);
    forall i | 0 <= i < |store.rows| ensures RowFits(store.rows[i], after) {
      assert RowFits(store.rows[i], store);
    }
    assert WorkflowFits(draft.workflow, store);
    assert RowFits(store.rows[Find(store.rows, draft.workflow, Published).value], store);
    assert RowFits(draft, after);
    forall v | v in after.workflows ensures WorkflowFits(v, after) {
      assert WorkflowFits(v, store);
      var p := Find(store.rows, v, Published).value;
      assert after.rows[p] == store.rows[p];
    }
  }

  lemma LegacyKeepsInv(store: Store, w: nat, content: Content)
    requires Inv(store)
    ensures Inv(WithLegacy(store, w, content))
  {
    var after := WithLegacy(store, w, content);
    forall i | 0 <= i < |store.rows| ensures RowFits(store.rows[i], after) {
      assert RowFits(store.rows[i], store);
    }
    forall v | v in after.workflows ensures WorkflowFits(v, after) {
      assert WorkflowFits(v, store);
    }
  }

  lemma EditingDraftKeepsInv(store: Store, d: nat, content: Content)
    requires Inv(store) && d < |store.rows| && store.rows[d].status == Draft
    ensures Inv(store.(rows := store.rows[d := store.rows[d].(content := content)]))
  {
    var after := store.(rows := store.rows[d := store.rows[d].(content := content)]);
    UpdatedApart(store.rows, after.rows);
    forall i | 0 <= i < |store.rows| ensures RowFits(after.rows[i], after) {
      assert RowFits(store.rows[i], store);
    }
    forall v | v in after.workflows ensures WorkflowFits(v, after) {
      assert WorkflowFits(v, store);
      var p := Find(store.rows, v, Published).value;
      assert after.rows[p] == store.rows[p];
    }
  }

  lemma SaveKeepsInv(store: Store, w: nat, edit: Edit)
    requires Inv(store) && SaveOutcome(store, w) == Done
    ensures Inv(Save(store, w, edit))
  {
    var d := Find(store.rows, w, Draft);
    if d.Some? {
      var content := Overlay(edit, store.rows[d.value].content);
      EditingDraftKeepsInv(store, d.value, content);
      LegacyKeepsInv(store.(rows := store.rows[d.value := store.rows[d.value].(content := content)]), w, content);
    } else {
      var content := Overlay(edit, PublishedContent(store.rows, w));
      AddingDraftKeepsInv(store, NewDraft(store, w, content));
      LegacyKeepsInv(store.(rows := store.rows + [NewDraft(store, w, content)],
                            nextDefinition := store.nextDefinition + 1),
                     w, content);
    }
  }

  lemma PromotingKeepsInv(store: Store, w: nat, d: nat, at: int, legacy: Content)
    requires Inv(store) && w in store.workflows && d < |store.rows| && store.rows[d].workflow == w
    ensures Inv(Promote(store, w, d, at, legacy))
  {
    var after := Promote(store, w, d, at, legacy);
    UpdatedApart(store.rows, after.rows);
    forall i | 0 <= i < |store.rows| ensures RowFits(after.rows[i], after) {
      assert RowFits(store.rows[i], store);
      Separate(store.rows, i, d);
    }
    forall v | v in store.workflows ensures WorkflowFits(v, after) {
      assert WorkflowFits(v, store);
      var p := Find(store.rows, v, Published).value;
      var kept := if v == w then d else p;
      assert after.rows[kept].workflow == v && after.rows[kept].status == Published;
    }
  }

  lemma PublishKeepsInv(store: Store, w: nat, at: int)
    requires Inv(store) && PublishOutcome(store, w) == Done
    ensures Inv(Publish(store, w, at))
  {
    var d := Find(store.rows, w, Draft).value;
    PromotingKeepsInv(store, w, d, at, store.rows[d].content);
  }

  lemma DeletingKeepsInv(store: Store, d: nat)
    requires Inv(store) && d < |store.rows| && store.rows[d].status != Published
    ensures Inv(store.(rows := Deleted(store.rows, d)))
  {
    var after := store.(rows := Deleted(store.rows, d));
    DeletedApart(store.rows, d);
    forall i | 0 <= i < |after.rows| ensures RowFits(after.rows[i], after) {
      assert RowFits(store.rows[PlaceBefore(d, i)], store);
    }
    forall v | v in store.workflows ensures WorkflowFits(v, after) {
      assert WorkflowFits(v, store);
      StillThere(store.rows, d, Find(store.rows, v, Published).value);
    }
  }

  lemma DiscardKeepsInv(store: Store, w: nat)
    requires Inv(store) && DiscardOutcome(store, w) == Done
    ensures Inv(Discard(store, w))
  {
    DeletingKeepsInv(store, Find(store.rows, w, Draft).value);
  }

  lemma StepKeepsInv(store: Store, request: Request)
    requires Inv(store)
    ensures Inv(After(store, request))
  {
    match request
    case CreateRequest(name, definition, at) => CreateKeepsInv(store, name, definition, at);
    case SaveRequest(w, edit) => if SaveOutcome(store, w) == Done { SaveKeepsInv(store, w, edit); }
    case PublishRequest(w, at) => if PublishOutcome(store, w) == Done { PublishKeepsInv(store, w, at); }
    case DiscardRequest(w) => if DiscardOutcome(store, w) == Done { DiscardKeepsInv(store, w); }
    case RevertRequest(w, id) =>
      if RevertOutcome(store, w, id) == Done {
        var source := store.rows[FindVersion(store.rows, w, id).value];
        assert RowFits(source, store);
        AddingDraftKeepsInv(store, NewDraft(store, w, source.content));
      }
  }

  /** Every serial run keeps the version history. */
  lemma {:induction false} RunKeepsInv(store: Store, requests: seq<Request>)
    requires Inv(store)
    ensures Inv(Run(store, requests))
  {
    if requests == [] {
    } else {
      RunKeepsInv(store, requests[..|requests| - 1]);
      StepKeepsInv(Run(store, requests[..|requests| - 1]), requests[|requests| - 1]);
    }
  }

  // ------------------------------------------------------ published is immutable

  /** The row with this key. */
  function ById(rows: seq<Definition>, id: nat): (r: Option<Definition>)
    ensures r.Some? ==> r.value in rows && r.value.id == id
    ensures r.None? ==> forall i :: 0 <= i < |rows| ==> rows[i].id != id
  {
    var i := Place(rows, id);
    if i.Some? then Some(rows[i.value]) else None
  }

  lemma PlaceIs(rows: seq<Definition>, i: nat)
    requires RowsApart(rows) && i < |rows|
    ensures Place(rows, rows[i].id) == Some(i)
  {
    Separate(rows, i, Place(rows, rows[i].id).value);
  }

  lemma ByIdIs(rows: seq<Definition>, i: nat)
    requires RowsApart(rows) && i < |rows|
    ensures ById(rows, rows[i].id) == Some(rows[i])
  {
    PlaceIs(rows, i);
  }

  /** A version that was once published keeps its number, snapshot and date, and is never a
      draft again; once archived it stays archived. */
  predicate Frozen(before: Definition, after: Definition) {
    && after == before.(status := after.status, isCurrent := after.isCurrent)
    && after.status != Draft
    && (before.status == Archived ==> after.status == Archived)
  }

  predicate Publishes(store: Store, request: Request, w: nat) {
    request.PublishRequest? && request.workflow == w && PublishOutcome(store, w) == Done
  }

  /** Where a published or archived row is after a request; only a publication of its own
      workflow touches it. */
  lemma RowAfter(store: Store, request: Request, i: nat) returns (k: nat)
    requires i < |store.rows| && store.rows[i].status != Draft
    ensures var after := After(store, request);
            && k < |after.rows| && Frozen(store.rows[i], after.rows[k])
            && (!Publishes(store, request, store.rows[i].workflow) ==> after.rows[k] == store.rows[i])
  {
    k := i;
    if request.DiscardRequest? && DiscardOutcome(store, request.workflow) == Done {
      var d := Find(store.rows, request.workflow, Draft).value;
      StillThere(store.rows, d, i);
      assert Discard(store, request.workflow).rows == Deleted(store.rows, d);
      k := PlaceAfter(d, i);
    }
  }

  lemma {:induction false} StepFreezes(store: Store, request: Request, id: nat)
    requires Inv(store) && ById(store.rows, id).Some? && ById(store.rows, id).value.status != Draft
    ensures ById(After(store, request).rows, id).Some?
    ensures Frozen(ById(store.rows, id).value, ById(After(store, request).rows, id).value)
  {
    StepKeepsInv(store, request);
    var i :| 0 <= i < |store.rows| && store.rows[i] == ById(store.rows, id).value;
    var k := RowAfter(store, request, i);
    ByIdIs(After(store, request).rows, k);
  }

  /** No run of saves, publications, discards and reverts ever changes a published or archived
      snapshot. */
  lemma {:induction false} PublishedIsImmutable(store: Store, requests: seq<Request>, id: nat)
    requires Inv(store) && ById(store.rows, id).Some? && ById(store.rows, id).value.status != Draft
    ensures ById(Run(store, requests).rows, id).Some?
    ensures Frozen(ById(store.rows, id).value, ById(Run(store, requests).rows, id).value)
  {
    if requests == [] {
    } else {
      var prefix := requests[..|requests| - 1];
      PublishedIsImmutable(store, prefix, id);
      RunKeepsInv(store, prefix);
      StepFreezes(Run(store, prefix), requests[|requests| - 1], id);
    }
  }

  // ------------------------------------------------- published versions increase

  /** The number of the published version. */
  function ReleasedVersion(store: Store, w: nat): nat
    requires Find(store.rows, w, Published).Some?
  {
    store.rows[Find(store.rows, w, Published).value].version
  }

  /** How often the run publishes a draft of the workflow. */
  function Publications(store: Store, requests: seq<Request>, w: nat): nat {
    if requests == [] then 0
    else
      var prefix := requests[..|requests| - 1];
      Publications(store, prefix, w) + if Publishes(Run(store, prefix), requests[|requests| - 1], w) then 1 else 0
  }

  lemma ReleasedRow(store: Store, w: nat, i: nat)
    requires Inv(store) && i < |store.rows| && store.rows[i].workflow == w && store.rows[i].status == Published
    ensures Find(store.rows, w, Published) == Some(i)
  {
    var p := Find(store.rows, w, Published).value;
    assert RowFits(store.rows[p], store) && RowFits(store.rows[i], store);
    Separate(store.rows, i, p);
  }

  /** What any serial run leaves in each workflow: exactly one published version, the one the
      workflow and `is_current` point to. */
  lemma OnePublishedVersion(requests: seq<Request>, i: nat)
    requires i < |Run(NOTHING, requests).rows|
    ensures var store := Run(NOTHING, requests);
            var row := store.rows[i];
            && row.workflow in store.workflows
            && (row.isCurrent <==> row.status == Published)
            && (row.isCurrent <==> store.workflows[row.workflow].released == Some(row.id))
            && (row.isCurrent <==> Find(store.rows, row.workflow, Published) == Some(i))
            && Find(store.rows, row.workflow, Published).Some?
  {
    var store := Run(NOTHING, requests);
    RunKeepsInv(NOTHING, requests);
    var row := store.rows[i];
    assert RowFits(row, store) && WorkflowFits(row.workflow, store);
    if row.status == Published {
      ReleasedRow(store, row.workflow, i);
    }
  }

  /** And at most one draft, numbered above every other version. */
  lemma {:induction false} DraftIsNewest(requests: seq<Request>, i: nat, j: nat)
    requires var rows := Run(NOTHING, requests).rows;
             i < |rows| && j < |rows| && i != j && rows[i].workflow == rows[j].workflow
    ensures var rows := Run(NOTHING, requests).rows;
            rows[i].version != rows[j].version
            && (rows[i].status == Draft ==> rows[j].status != Draft && rows[j].version < rows[i].version)
  {
    RunKeepsInv(NOTHING, requests);
    Separate(Run(NOTHING, requests).rows, i, j);
  }

  lemma StepReleases(store: Store, request: Request, w: nat)
    requires Inv(store) && w in store.workflows
    ensures Inv(After(store, request)) && w in After(store, request).workflows && WorkflowFits(w, After(store, request))
    ensures WorkflowFits(w, store)
    ensures if Publishes(store, request, w) then ReleasedVersion(After(store, request), w) > ReleasedVersion(store, w)
            else ReleasedVersion(After(store, request), w) == ReleasedVersion(store, w)
  {
    StepKeepsInv(store, request);
    assert WorkflowFits(w, store);
    var after := After(store, request);
    var p := Find(store.rows, w, Published).value;
    if Publishes(store, request, w) {
      var d := Find(store.rows, w, Draft).value;
      Separate(store.rows, p, d);
      assert after.rows[d].version == store.rows[d].version;
      ReleasedRow(after, w, d);
    } else {
      var k := RowAfter(store, request, p);
      ReleasedRow(after, w, k);
    }
    assert WorkflowFits(w, after);
  }

  /** Published version numbers strictly increase: each publication raises the number and
      nothing else moves it. */
  lemma {:induction false} PublishedVersionsIncrease(store: Store, requests: seq<Request>, w: nat)
    requires Inv(store) && w in store.workflows
    ensures Inv(Run(store, requests)) && w in Run(store, requests).workflows
    ensures WorkflowFits(w, store) && WorkflowFits(w, Run(store, requests))
    ensures ReleasedVersion(Run(store, requests), w) >= ReleasedVersion(store, w) + Publications(store, requests, w)
    ensures Publications(store, requests, w) == 0 ==>
            ReleasedVersion(Run(store, requests), w) == ReleasedVersion(store, w)
  {
    if requests == [] {
      assert WorkflowFits(w, store);
    } else {
      var prefix := requests[..|requests| - 1];
      PublishedVersionsIncrease(store, prefix, w);
      StepReleases(Run(store, prefix), requests[|requests| - 1], w);
    }
  }

  // ------------------------------------------------------------ drafts are overlays

  /** The last value given for a field by a sequence of saves. */
  function LastGiven(values: seq<Option<Json>>): Option<Json> {
    if values == [] then None
    else if values[|values| - 1].Some? then values[|values| - 1]
    else LastGiven(values[..|values| - 1])
  }

  /** One edit that gives each field its last given value. */
  function Combined(edits: seq<Edit>): Edit {
    Edit(LastGiven(seq(|edits|, i requires 0 <= i < |edits| => edits[i].definition)),
         LastGiven(seq(|edits|, i requires 0 <= i < |edits| => edits[i].configurations)),
         LastGiven(seq(|edits|, i requires 0 <= i < |edits| => edits[i].variables)))
  }

  function SaveAll(store: Store, w: nat, edits: seq<Edit>): Store
    requires SaveOutcome(store, w) == Done
    ensures edits != [] ==>
            SaveOutcome(SaveAll(store, w, edits), w) == Done && Find(SaveAll(store, w, edits).rows, w, Draft).Some?
  {
    if edits == [] then store
    else
      var before := SaveAll(store, w, edits[..|edits| - 1]);
      SaveLeavesDraft(before, w, edits[|edits| - 1]);
      Save(before, w, edits[|edits| - 1])
  }

  /** Where the draft is after a save. */
  function DraftPlace(store: Store, w: nat): nat {
    var d := Find(store.rows, w, Draft);
    if d.Some? then d.value else |store.rows|
  }

  lemma FirstDraft(rows: seq<Definition>, w: nat, i: nat)
    requires i < |rows| && rows[i].workflow == w && rows[i].status == Draft
    requires forall k :: 0 <= k < i ==> rows[k].workflow != w || rows[k].status != Draft
    ensures Find(rows, w, Draft) == Some(i)
  {}

  lemma SaveLeavesDraft(store: Store, w: nat, edit: Edit)
    requires SaveOutcome(store, w) == Done
    ensures var after := Save(store, w, edit);
            && Find(after.rows, w, Draft) == Some(DraftPlace(store, w))
            && SaveOutcome(after, w) == Done
  {
    var rows, i := Save(store, w, edit).rows, DraftPlace(store, w);
    assert forall k :: 0 <= k < i ==> rows[k] == store.rows[k];
    FirstDraft(rows, w, i);
  }

  lemma CombinedSnoc(edits: seq<Edit>, edit: Edit, base: Content)
    ensures Overlay(Combined(edits + [edit]), base) == Overlay(edit, Overlay(Combined(edits), base))
  {
    var all := edits + [edit];
    LastGivenSnoc(seq(|edits|, i requires 0 <= i < |edits| => edits[i].definition), edit.definition);
    LastGivenSnoc(seq(|edits|, i requires 0 <= i < |edits| => edits[i].configurations), edit.configurations);
    LastGivenSnoc(seq(|edits|, i requires 0 <= i < |edits| => edits[i].variables), edit.variables);
    assert seq(|all|, i requires 0 <= i < |all| => all[i].definition)
        == seq(|edits|, i requires 0 <= i < |edits| => edits[i].definition) + [edit.definition];
    assert seq(|all|, i requires 0 <= i < |all| => all[i].configurations)
        == seq(|edits|, i requires 0 <= i < |edits| => edits[i].configurations) + [edit.configurations];
    assert seq(|all|, i requires 0 <= i < |all| => all[i].variables)
        == seq(|edits|, i requires 0 <= i < |edits| => edits[i].variables) + [edit.variables];
  }

  lemma LastGivenSnoc(values: seq<Option<Json>>, value: Option<Json>)
    ensures LastGiven(values + [value]) == if value.Some? then value else LastGiven(values)
  {
    assert (values + [value])[..|values|] == values;
  }

  /** Two saves are one save of what the second leaves of the first. */
  lemma SaveAfterSave(store: Store, w: nat, first: Edit, second: Edit, both: Edit)
    requires SaveOutcome(store, w) == Done
    requires forall base :: Overlay(both, base) == Overlay(second, Overlay(first, base))
    ensures SaveOutcome(Save(store, w, first), w) == Done
    ensures Save(Save(store, w, first), w, second) == Save(store, w, both)
  {
    SaveLeavesDraft(store, w, first);
    var d := Find(store.rows, w, Draft);
    var base := if d.Some? then store.rows[d.value].content else PublishedContent(store.rows, w);
    assert Overlay(both, base) == Overlay(second, Overlay(first, base));
    var i := DraftPlace(store, w);
    var one, two := Save(store, w, both), Save(Save(store, w, first), w, second);
    assert one.rows[i].content == Overlay(both, base);
    assert two.rows[i].content == Overlay(second, Overlay(first, base));
    assert one.rows == two.rows;
  }

  /** Any sequence of partial saves is one save of the last given value of each field: the same
      draft, the same legacy columns, and every other row untouched in both. */
  lemma {:induction false} SavesAreOneSave(store: Store, w: nat, edits: seq<Edit>)
    requires SaveOutcome(store, w) == Done && edits != []
    ensures SaveAll(store, w, edits) == Save(store, w, Combined(edits))
  {
    var prefix, last := edits[..|edits| - 1], edits[|edits| - 1];
    assert edits == prefix + [last];
    if prefix == [] {
      forall base ensures Overlay(Combined(edits), base) == Overlay(last, base) {
        CombinedSnoc(prefix, last, base);
      }
      SavesAlike(store, w, Combined(edits), last);
    } else {
      SavesAreOneSave(store, w, prefix);
      forall base ensures Overlay(Combined(edits), base) == Overlay(last, Overlay(Combined(prefix), base)) {
        CombinedSnoc(prefix, last, base);
      }
      SaveAfterSave(store, w, Combined(prefix), last, Combined(edits));
    }
  }

  lemma SavesAlike(store: Store, w: nat, one: Edit, other: Edit)
    requires SaveOutcome(store, w) == Done && forall base :: Overlay(one, base) == Overlay(other, base)
    ensures Save(store, w, one) == Save(store, w, other)
  {
    var d := Find(store.rows, w, Draft);
    var base := if d.Some? then store.rows[d.value].content else PublishedContent(store.rows, w);
    assert Overlay(one, base) == Overlay(other, base);
  }

  /** So a draft started from the published version holds, in each field, the last given value
      or else the published one. */
  lemma DraftIsOverlay(store: Store, w: nat, edits: seq<Edit>)
    requires Inv(store) && w in store.workflows && Find(store.rows, w, Draft).None? && edits != []
    ensures var after := SaveAll(store, w, edits);
            var d := Find(after.rows, w, Draft);
            && d.Some?
            && after.rows[d.value].content == Overlay(Combined(edits), PublishedContent(store.rows, w))
            && after.rows[d.value].version == MaxVersion(store.rows, w) + 1
            && after.rows[..d.value] == store.rows
  {
    SavesAreOneSave(store, w, edits);
    SaveLeavesDraft(store, w, Combined(edits));
  }

  /** Publishing makes the draft the released version, with its number and snapshot, archives
      the one before, and leaves no draft. */
  lemma PublishPromotes(store: Store, w: nat, at: int)
    requires Inv(store) && PublishOutcome(store, w) == Done
    ensures var d, p := Find(store.rows, w, Draft).value, Find(store.rows, w, Published);
            var after := Publish(store, w, at);
            && p.Some? && |after.rows| == |store.rows|
            && Find(after.rows, w, Published) == Some(d) && Find(after.rows, w, Draft).None?
            && after.rows[d] == store.rows[d].(status := Published, isCurrent := true, publishedAt := Some(at))
            && after.rows[p.value] == store.rows[p.value].(status := Archived, isCurrent := false)
            && after.workflows[w].released == Some(store.rows[d].id)
            && forall i :: 0 <= i < |store.rows| && i != d && i != p.value ==> after.rows[i] == store.rows[i]
  {
    PublishKeepsInv(store, w, at);
    assert WorkflowFits(w, store);
    var d, p := Find(store.rows, w, Draft).value, Find(store.rows, w, Published).value;
    var after := Publish(store, w, at);
    assert after.rows[d].status == Published;
    ReleasedRow(after, w, d);
    forall i | 0 <= i < |store.rows| && i != d && i != p ensures after.rows[i] == store.rows[i] {
      if store.rows[i].workflow == w && store.rows[i].status == Published {
        ReleasedRow(store, w, i);
      }
    }
    if Find(after.rows, w, Draft).Some? {
      var i := Find(after.rows, w, Draft).value;
      Separate(store.rows, i, d);
    }
  }

  /** Reverting adds one draft with the chosen snapshot, numbered above all, and changes no
      other row. */
  lemma RevertStartsDraft(store: Store, w: nat, id: nat)
    requires Inv(store) && RevertOutcome(store, w, id) == Done
    ensures var after, n := Revert(store, w, id), |store.rows|;
            && after.rows[..n] == store.rows && |after.rows| == n + 1
            && Find(after.rows, w, Draft) == Some(n)
            && ById(store.rows, id).Some? && after.rows[n].content == ById(store.rows, id).value.content
            && forall i :: 0 <= i < n && store.rows[i].workflow == w ==> store.rows[i].version < after.rows[n].version
  {
    var source := FindVersion(store.rows, w, id).value;
    ByIdIs(store.rows, source);
    assert Revert(store, w, id).rows[|store.rows|].status == Draft;
  }

  // ------------------------------------------- what discarding and reverting leave

  /** The legacy columns show the draft, or the published version when there is none. */
  predicate LegacyInSync(store: Store, w: nat)
    requires w in store.workflows
  {
    var d := Find(store.rows, w, Draft);
    store.workflows[w].legacy == if d.Some? then store.rows[d.value].content else PublishedContent(store.rows, w)
  }

  lemma SavedIsInSync(store: Store, w: nat, edit: Edit)
    requires w in store.workflows
    ensures w in Save(store, w, edit).workflows && LegacyInSync(Save(store, w, edit), w)
  {
    SaveLeavesDraft(store, w, edit);
  }

  lemma PublishedIsInSync(store: Store, w: nat, at: int)
    requires Inv(store) && PublishOutcome(store, w) == Done
    ensures LegacyInSync(Publish(store, w, at), w)
  {
    PublishKeepsInv(store, w, at);
    var d := Find(store.rows, w, Draft).value;
    var after := Publish(store, w, at);
    assert after.rows[d].status == Published;
    ReleasedRow(after, w, d);
    assert Find(after.rows, w, Draft).None?;
  }

  /** Discarding does not write the legacy columns: they are right afterwards exactly when they
      showed the published version already. */
  lemma DiscardInSyncIff(store: Store, w: nat)
    requires Inv(store) && w in store.workflows && DiscardOutcome(store, w) == Done
    ensures LegacyInSync(Discard(store, w), w) <==> store.workflows[w].legacy == PublishedContent(store.rows, w)
  {
    DiscardKeepsInv(store, w);
    assert WorkflowFits(w, store);
    var d, p := Find(store.rows, w, Draft).value, Find(store.rows, w, Published).value;
    var after := Discard(store, w);
    assert after.rows == Deleted(store.rows, d);
    OtherRowsAreNoDrafts(store, w);
    StillThere(store.rows, d, p);
    ReleasedRow(after, w, PlaceAfter(d, p));
  }

  lemma OtherRowsAreNoDrafts(store: Store, w: nat)
    requires Inv(store) && DiscardOutcome(store, w) == Done
    ensures Find(Deleted(store.rows, Find(store.rows, w, Draft).value), w, Draft).None?
  {
    var d := Find(store.rows, w, Draft).value;
    var after := Deleted(store.rows, d);
    if Find(after, w, Draft).Some? {
      var i := PlaceBefore(d, Find(after, w, Draft).value);
      Separate(store.rows, i, d);
      assert false;
    }
  }

  /** Reverting does not write the legacy columns either: they are right exactly when the
      chosen snapshot equals what they already showed. */
  lemma RevertInSyncIff(store: Store, w: nat, id: nat)
    requires Inv(store) && w in store.workflows && RevertOutcome(store, w, id) == Done
    ensures LegacyInSync(Revert(store, w, id), w) <==>
            store.rows[FindVersion(store.rows, w, id).value].content == store.workflows[w].legacy
  {
    var after := Revert(store, w, id);
    assert after.rows[|store.rows|].status == Draft;
  }

  /** Saving and discarding undo each other up to the legacy columns and the spent key. */
  lemma DiscardUndoesSave(store: Store, w: nat, edit: Edit)
    requires w in store.workflows && Find(store.rows, w, Draft).None?
    ensures DiscardOutcome(Save(store, w, edit), w) == Done
    ensures Discard(Save(store, w, edit), w)
         == WithLegacy(store.(nextDefinition := store.nextDefinition + 1), w,
                       Overlay(edit, PublishedContent(store.rows, w)))
  {
    SaveLeavesDraft(store, w, edit);
    AppendThenCut(store.rows, Save(store, w, edit).rows[|store.rows|]);
  }

  lemma AppendThenCut(rows: seq<Definition>, row: Definition)
    ensures (rows + [row])[..|rows|] + (rows + [row])[|rows| + 1..] == rows
  {
  }

  /** A discarded version number is given out again, to another row. */
  lemma {:induction false} DiscardedNumberIsReused(store: Store, w: nat, first: Edit, second: Edit)
    requires w in store.workflows && Find(store.rows, w, Draft).None?
    ensures var one := Save(store, w, first);
            var two := Save(Discard(Save(store, w, first), w), w, second);
            && |one.rows| == |two.rows| == |store.rows| + 1
            && one.rows[|store.rows|].version == two.rows[|store.rows|].version
            && one.rows[|store.rows|].id != two.rows[|store.rows|].id
  {
    DiscardUndoesSave(store, w, first);
  }

  // ------------------------------------------------------- numbers given again

  predicate Carries(rows: seq<Definition>, w: nat, number: nat) {
    exists i :: 0 <= i < |rows| && rows[i].workflow == w && rows[i].version == number
  }

  /** Some version of the workflow had the number at some time of the run. */
  predicate Given(requests: seq<Request>, w: nat, number: nat) {
    || Carries(Run(NOTHING, requests).rows, w, number)
    || (requests != [] && Given(requests[..|requests| - 1], w, number))
  }

  predicate Discards(store: Store, request: Request, w: nat) {
    request.DiscardRequest? && request.workflow == w && DiscardOutcome(store, w) == Done
  }

  /** The draft that the workflow had last was discarded, not published. */
  predicate LastDraftDiscarded(requests: seq<Request>, w: nat) {
    requests != [] &&
    var prefix, last := requests[..|requests| - 1], requests[|requests| - 1];
    var store := Run(NOTHING, prefix);
    Discards(store, last, w) || (!Publishes(store, last, w) && LastDraftDiscarded(prefix, w))
  }

  predicate Starts(store: Store, request: Request, w: nat) {
    && (request.SaveRequest? || request.RevertRequest?) && request.workflow == w && Find(store.rows, w, Draft).None?
    && (request.RevertRequest? ==> RevertOutcome(store, w, request.id) == Done)
  }

  /** A draft's number follows on that of another version. */
  predicate DraftFollows(rows: seq<Definition>, w: nat) {
    var d := Find(rows, w, Draft);
    d.Some? ==> rows[d.value].version > 0 && Carries(rows, w, rows[d.value].version - 1)
  }

  lemma MaxIs(rows: seq<Definition>, w: nat, i: nat)
    requires i < |rows| && rows[i].workflow == w
    requires forall k :: 0 <= k < |rows| && rows[k].workflow == w ==> rows[k].version <= rows[i].version
    ensures MaxVersion(rows, w) == rows[i].version
  {}

  lemma MaxIsCarried(store: Store, w: nat)
    requires Inv(store) && w in store.workflows
    ensures Carries(store.rows, w, MaxVersion(store.rows, w))
  {
    assert WorkflowFits(w, store);
    var p := Find(store.rows, w, Published).value;
    if MaxVersion(store.rows, w) == 0 {
      assert store.rows[p].version == 0;
    }
  }

  lemma DraftIsMax(store: Store, w: nat, d: nat)
    requires Inv(store) && d < |store.rows| && store.rows[d].workflow == w && store.rows[d].status == Draft
    ensures Find(store.rows, w, Draft) == Some(d) && MaxVersion(store.rows, w) == store.rows[d].version
  {
    forall k | 0 <= k < |store.rows| && store.rows[k].workflow == w
      ensures store.rows[k].version <= store.rows[d].version
    {
      Separate(store.rows, k, d);
    }
    MaxIs(store.rows, w, d);
    Separate(store.rows, Find(store.rows, w, Draft).value, d);
  }

  lemma DeletedMax(store: Store, w: nat, d: nat, k: nat)
    requires Inv(store) && d < |store.rows| && store.rows[d].workflow == w && store.rows[d].status == Draft
    requires k < |store.rows| && store.rows[k].workflow == w && store.rows[k].version + 1 == store.rows[d].version
    ensures MaxVersion(Deleted(store.rows, d), w) == store.rows[k].version
  {
    var rows := Deleted(store.rows, d);
    StillThere(store.rows, d, k);
    forall j | 0 <= j < |rows| && rows[j].workflow == w ensures rows[j].version <= store.rows[k].version {
      Separate(store.rows, PlaceBefore(d, j), d);
    }
    MaxIs(rows, w, PlaceAfter(d, k));
  }

  /** The discarded draft's number is free again. */
  lemma DiscardLowersMax(store: Store, request: Request, w: nat)
    requires Inv(store) && DraftFollows(store.rows, w) && Discards(store, request, w)
    ensures var rows := After(store, request).rows;
            && Find(rows, w, Draft).None? && MaxVersion(rows, w) + 1 == MaxVersion(store.rows, w)
  {
    var d := Find(store.rows, w, Draft).value;
    DraftIsMax(store, w, d);
    OtherRowsAreNoDrafts(store, w);
    assert After(store, request).rows == Deleted(store.rows, d);
    var k :| 0 <= k < |store.rows| && store.rows[k].workflow == w && store.rows[k].version == store.rows[d].version - 1;
    DeletedMax(store, w, d, k);
  }

  lemma PublishKeepsMax(store: Store, request: Request, w: nat)
    requires Inv(store) && Publishes(store, request, w)
    ensures var rows := After(store, request).rows;
            Find(rows, w, Draft).None? && MaxVersion(rows, w) == MaxVersion(store.rows, w)
  {
    var d, rows := Find(store.rows, w, Draft).value, After(store, request).rows;
    PublishPromotes(store, w, request.at);
    DraftIsMax(store, w, d);
    assert forall k :: 0 <= k < |rows| ==>
        rows[k].workflow == store.rows[k].workflow && rows[k].version == store.rows[k].version;
    MaxIs(rows, w, d);
  }

  lemma AppendedDraft(rows: seq<Definition>, draft: Definition, w: nat)
    requires draft.workflow == w && draft.status == Draft && draft.version == MaxVersion(rows, w) + 1
    requires Find(rows, w, Draft).None? && Carries(rows, w, MaxVersion(rows, w))
    ensures MaxVersion(rows + [draft], w) == draft.version
    ensures Find(rows + [draft], w, Draft).Some? && DraftFollows(rows + [draft], w)
  {
    var after, n := rows + [draft], |rows|;
    FirstDraft(after, w, n);
    MaxIs(after, w, n);
    var i :| 0 <= i < n && rows[i].workflow == w && rows[i].version == MaxVersion(rows, w);
    assert after[i].version == draft.version - 1;
  }

  lemma StartRaisesMax(store: Store, request: Request, w: nat)
    requires Inv(store) && w in store.workflows && Starts(store, request, w)
    ensures var rows := After(store, request).rows;
            Find(rows, w, Draft).Some? && MaxVersion(rows, w) == MaxVersion(store.rows, w) + 1 && DraftFollows(rows, w)
  {
    var n := |store.rows|;
    var draft := After(store, request).rows[n];
    assert After(store, request).rows == store.rows + [draft];
    MaxIsCarried(store, w);
    AppendedDraft(store.rows, draft, w);
  }

  /** The others carry the same numbers of the workflow, and have a draft of it if these do. */
  ghost predicate Covered(rows: seq<Definition>, others: seq<Definition>, w: nat) {
    && (forall number :: Carries(rows, w, number) ==> Carries(others, w, number))
    && (Find(rows, w, Draft).Some? ==> Find(others, w, Draft).Some?)
  }

  lemma CoveredMax(rows: seq<Definition>, others: seq<Definition>, w: nat)
    requires Covered(rows, others, w)
    ensures MaxVersion(rows, w) <= MaxVersion(others, w)
  {
    if MaxVersion(rows, w) > 0 {
      assert Carries(rows, w, MaxVersion(rows, w));
    }
  }

  /** The workflow's rows stay where they are, and it gets no further ones. */
  predicate InPlace(before: seq<Definition>, after: seq<Definition>, w: nat) {
    && |before| <= |after|
    && (forall i :: 0 <= i < |before| ==>
                      && after[i].workflow == before[i].workflow
                      && (before[i].workflow == w ==>
                            && after[i].version == before[i].version
                            && (after[i].status == Draft <==> before[i].status == Draft)))
    && forall i :: |before| <= i < |after| ==> after[i].workflow != w
  }

  lemma InPlaceCovered(before: seq<Definition>, after: seq<Definition>, w: nat)
    requires InPlace(before, after, w)
    ensures Covered(before, after, w) && Covered(after, before, w)
  {
    forall number | Carries(before, w, number) ensures Carries(after, w, number) {
      var i :| 0 <= i < |before| && before[i].workflow == w && before[i].version == number;
      assert after[i].version == number;
    }
    forall number | Carries(after, w, number) ensures Carries(before, w, number) {
      var i :| 0 <= i < |after| && after[i].workflow == w && after[i].version == number;
      assert before[i].version == number;
    }
  }

  lemma DeletedCovered(rows: seq<Definition>, d: nat, w: nat)
    requires d < |rows| && rows[d].workflow != w
    ensures Covered(rows, Deleted(rows, d), w) && Covered(Deleted(rows, d), rows, w)
  {
    var after := Deleted(rows, d);
    forall number | Carries(rows, w, number) ensures Carries(after, w, number) {
      var i :| 0 <= i < |rows| && rows[i].workflow == w && rows[i].version == number;
      StillThere(rows, d, i);
    }
    forall number | Carries(after, w, number) ensures Carries(rows, w, number) {
      var i :| 0 <= i < |after| && after[i].workflow == w && after[i].version == number;
      assert rows[PlaceBefore(d, i)] == after[i];
    }
    if Find(rows, w, Draft).Some? {
      StillThere(rows, d, Find(rows, w, Draft).value);
    }
  }

  lemma CreateInPlace(store: Store, name: string, definition: Json, at: int, w: nat)
    requires w < store.nextWorkflow
    ensures InPlace(store.rows, Create(store, name, definition, at).rows, w)
  {}

  lemma SaveInPlace(store: Store, v: nat, edit: Edit, w: nat)
    requires SaveOutcome(store, v) == Done && (v == w ==> Find(store.rows, w, Draft).Some?)
    ensures InPlace(store.rows, Save(store, v, edit).rows, w)
  {}

  lemma PublishInPlace(store: Store, v: nat, at: int, w: nat)
    requires PublishOutcome(store, v) == Done && v != w
    ensures InPlace(store.rows, Publish(store, v, at).rows, w)
  {}

  lemma RevertInPlace(store: Store, v: nat, id: nat, w: nat)
    requires RevertOutcome(store, v, id) == Done && v != w
    ensures InPlace(store.rows, Revert(store, v, id).rows, w)
  {}

  lemma OthersInPlace(store: Store, request: Request, w: nat)
    requires w < store.nextWorkflow && !request.DiscardRequest?
    requires !Publishes(store, request, w) && !Starts(store, request, w)
    requires request.SaveRequest? && request.workflow == w ==> w in store.workflows
    ensures InPlace(store.rows, After(store, request).rows, w)
  {
    match request
    case CreateRequest(name, definition, at) => CreateInPlace(store, name, definition, at, w);
    case SaveRequest(v, edit) => if SaveOutcome(store, v) == Done { SaveInPlace(store, v, edit, w); }
    case PublishRequest(v, at) => if PublishOutcome(store, v) == Done { PublishInPlace(store, v, at, w); }
    case RevertRequest(v, id) => if RevertOutcome(store, v, id) == Done { RevertInPlace(store, v, id, w); }
  }

  /** Every other request leaves the workflow's numbers and its draft as they are. */
  lemma OthersLeaveRows(store: Store, request: Request, w: nat)
    requires Inv(store) && w in store.workflows
    requires !Discards(store, request, w) && !Publishes(store, request, w) && !Starts(store, request, w)
    ensures Covered(store.rows, After(store, request).rows, w) && Covered(After(store, request).rows, store.rows, w)
  {
    assert WorkflowFits(w, store);
    if !request.DiscardRequest? {
      OthersInPlace(store, request, w);
      InPlaceCovered(store.rows, After(store, request).rows, w);
    } else if DiscardOutcome(store, request.workflow) == Done {
      DeletedCovered(store.rows, Find(store.rows, request.workflow, Draft).value, w);
    }
  }

  lemma CoveredMaxima(store: Store, after: Store, w: nat)
    requires Inv(store) && Inv(after) && DraftFollows(store.rows, w)
    requires Covered(store.rows, after.rows, w) && Covered(after.rows, store.rows, w)
    ensures MaxVersion(after.rows, w) == MaxVersion(store.rows, w) && DraftFollows(after.rows, w)
    ensures Find(after.rows, w, Draft).Some? == Find(store.rows, w, Draft).Some?
  {
    CoveredMax(store.rows, after.rows, w);
    CoveredMax(after.rows, store.rows, w);
    if Find(after.rows, w, Draft).Some? {
      DraftIsMax(store, w, Find(store.rows, w, Draft).value);
      DraftIsMax(after, w, Find(after.rows, w, Draft).value);
    }
  }

  lemma OthersKeepMax(store: Store, request: Request, w: nat)
    requires Inv(store) && w in store.workflows && DraftFollows(store.rows, w)
    requires !Discards(store, request, w) && !Publishes(store, request, w) && !Starts(store, request, w)
    ensures var rows := After(store, request).rows;
            && MaxVersion(rows, w) == MaxVersion(store.rows, w) && DraftFollows(rows, w)
            && Find(rows, w, Draft).Some? == Find(store.rows, w, Draft).Some?
  {
    OthersLeaveRows(store, request, w);
    StepKeepsInv(store, request);
    CoveredMaxima(store, After(store, request), w);
  }

  /** Of the numbers above the highest, only the next one can have been given: when there is no
      draft and the last one was discarded. */
  predicate GivenAbove(requests: seq<Request>, w: nat, number: nat) {
    var rows := Run(NOTHING, requests).rows;
    Given(requests, w, number) <==>
    number == MaxVersion(rows, w) + 1 && Find(rows, w, Draft).None? && LastDraftDiscarded(requests, w)
  }

  lemma NoRowsYet(store: Store, w: nat, number: nat)
    requires Inv(store) && w !in store.workflows
    ensures !Carries(store.rows, w, number) && Find(store.rows, w, Draft).None?
  {
    assert forall i :: 0 <= i < |store.rows| ==> RowFits(store.rows[i], store);
  }

  lemma WorkflowsStay(store: Store, request: Request)
    ensures store.workflows.Keys <= After(store, request).workflows.Keys
  {}

  lemma {:induction false} NothingGivenYet(requests: seq<Request>, w: nat, number: nat)
    requires w !in Run(NOTHING, requests).workflows
    ensures !Given(requests, w, number) && !LastDraftDiscarded(requests, w)
  {
    RunKeepsInv(NOTHING, requests);
    NoRowsYet(Run(NOTHING, requests), w, number);
    if requests == [] {
    } else {
      var prefix := requests[..|requests| - 1];
      WorkflowsStay(Run(NOTHING, prefix), requests[|requests| - 1]);
      NothingGivenYet(prefix, w, number);
      RunKeepsInv(NOTHING, prefix);
      NoRowsYet(Run(NOTHING, prefix), w, number);
    }
  }

  lemma {:induction false} NumbersAbove(requests: seq<Request>, w: nat, number: nat)
    requires w in Run(NOTHING, requests).workflows
    ensures DraftFollows(Run(NOTHING, requests).rows, w)
    ensures number > MaxVersion(Run(NOTHING, requests).rows, w) ==> GivenAbove(requests, w, number)
    decreases |requests|
  {
    var prefix, last := requests[..|requests| - 1], requests[|requests| - 1];
    var before := Run(NOTHING, prefix);
    RunKeepsInv(NOTHING, prefix);
    if w !in before.workflows {
      NothingGivenYet(prefix, w, number);
      CreatedHasNoDraft(before, last, w);
    } else {
      NumbersAbove(prefix, w, number);
      MaxIsCarried(before, w);
      if Discards(before, last, w) {
        DiscardLowersMax(before, last, w);
      } else if Publishes(before, last, w) {
        PublishKeepsMax(before, last, w);
      } else if Starts(before, last, w) {
        StartRaisesMax(before, last, w);
      } else {
        OthersKeepMax(before, last, w);
      }
    }
  }

  lemma CreatedHasNoDraft(store: Store, request: Request, w: nat)
    requires Inv(store) && w !in store.workflows && w in After(store, request).workflows
    ensures Find(After(store, request).rows, w, Draft).None?
  {
    NoRowsYet(store, w, 0);
  }

  /** In every serial run, the number a new draft gets was given before if and only if the
      workflow's last draft was discarded. */
  lemma NumberIsReusedIff(requests: seq<Request>, store: Store, w: nat, draft: Definition)
    requires store == Run(NOTHING, requests) && w in store.workflows && Find(store.rows, w, Draft).None?
    requires draft == NewDraft(store, w, draft.content)
    ensures Given(requests, w, draft.version) <==> LastDraftDiscarded(requests, w)
  {
    NumbersAbove(requests, w, draft.version);
    assert GivenAbove(requests, w, draft.version);
  }
}
