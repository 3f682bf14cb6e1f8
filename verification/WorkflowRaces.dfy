/** Saves, reverts, discards and publications look for a draft and write later, without a lock
    in between (`api/db/workflow_client.py:71-284`): what overlapping ones break, and when. */
module WorkflowRaces {
  import opened Documents
  import opened Optional
  import opened WorkflowVersions
  import opened WorkflowHistory

  /** What a request read: the draft to edit, discard or publish, or the number and snapshot of
      a new one. A revert does not write the legacy columns; a publication has its own date. */
  datatype Look =
    | Editing(workflow: nat, id: nat, edit: Edit, seen: Content)
    | Starting(workflow: nat, version: nat, content: Content, syncsLegacy: bool)
    | Discarding(workflow: nat, id: nat)
    | Publishing(workflow: nat, id: nat, at: int, seen: Content)

  datatype State = State(store: Store, open: map<nat, Look>)

  /** `MixedLook` is one for a new draft whose SELECTs saw different moments, so that its number
      and its snapshot may be any. `Whole` is a request that nothing interrupts. */
  datatype Event =
    | SaveLook(tx: nat, workflow: nat, edit: Edit)
    | RevertLook(tx: nat, workflow: nat, id: nat)
    | DiscardLook(tx: nat, workflow: nat)
    | PublishLook(tx: nat, workflow: nat, at: int)
    | MixedLook(tx: nat, workflow: nat, version: nat, content: Content, syncsLegacy: bool)
    | Write(tx: nat)
    | Whole(request: Request)

  function LookForSave(store: Store, w: nat, edit: Edit): Option<Look> {
    var d := Find(store.rows, w, Draft);
    if d.Some? then Some(Editing(w, store.rows[d.value].id, edit, store.rows[d.value].content))
    else if w in store.workflows
    then Some(Starting(w, MaxVersion(store.rows, w) + 1, Overlay(edit, PublishedContent(store.rows, w)), true))
    else None
  }

  function LookForRevert(store: Store, w: nat, id: nat): Option<Look> {
    if RevertOutcome(store, w, id) != Done || w !in store.workflows then None
    else
      var source := store.rows[FindVersion(store.rows, w, id).value];
      Some(Starting(w, MaxVersion(store.rows, w) + 1, source.content, false))
  }

  function LookForDiscard(store: Store, w: nat): Option<Look> {
    var d := Find(store.rows, w, Draft);
    if d.None? then None else Some(Discarding(w, store.rows[d.value].id))
  }

  function LookForPublish(store: Store, w: nat, at: int): Option<Look> {
    var d := Find(store.rows, w, Draft);
    if d.None? then None else Some(Publishing(w, store.rows[d.value].id, at, store.rows[d.value].content))
  }

  function Inserted(store: Store, look: Look): Store
    requires look.Starting?
  {
    var row := Definition(store.nextDefinition, look.workflow, Draft, look.version, false, None, look.content);
    store.(rows := store.rows + [row], nextDefinition := store.nextDefinition + 1)
  }

  /** The UPDATE goes by key, whatever the row has become; if it is gone, all is rolled back. */
  function Edited(store: Store, look: Look): Store
    requires look.Editing?
  {
    var i := Place(store.rows, look.id);
    if i.None? then store
    else
      var row := store.rows[i.value];
      store.(rows := store.rows[i.value := row.(content := Overlay(look.edit, row.content))])
  }

  predicate IsReleased(store: Store, id: nat) {
    exists w :: w in store.workflows && store.workflows[w].released == Some(id)
  }

  /** So does the DELETE; no row is there to delete, or the foreign key of `released` forbids it. */
  function Removed(store: Store, look: Look): Store
    requires look.Discarding?
  {
    var i := Place(store.rows, look.id);
    if i.None? || IsReleased(store, look.id) then store else store.(rows := Deleted(store.rows, i.value))
  }

  /** And the promotion, which does not read the snapshot again for the legacy columns. */
  function Promoted(store: Store, look: Look): Store
    requires look.Publishing?
  {
    var i := Place(store.rows, look.id);
    if i.None? || look.workflow !in store.workflows then store
    else Promote(store, look.workflow, i.value, look.at, look.seen)
  }

  function Written(store: Store, look: Look): Store {
    match look
    case Starting(w, _, content, syncsLegacy) =>
      if syncsLegacy then WithLegacy(Inserted(store, look), w, content) else Inserted(store, look)
    case Editing(w, id, edit, seen) =>
      if Place(store.rows, id).None? then store else WithLegacy(Edited(store, look), w, Overlay(edit, seen))
    case Discarding(_, _) => Removed(store, look)
    case Publishing(_, _, _, _) => Promoted(store, look)
  }

  function Looked(state: State, tx: nat, look: Option<Look>): State {
    if look.Some? then state.(open := state.open[tx := look.value]) else state
  }

  function Step(state: State, e: Event): State {
    match e
    case SaveLook(tx, w, edit) => Looked(state, tx, LookForSave(state.store, w, edit))
    case RevertLook(tx, w, id) => Looked(state, tx, LookForRevert(state.store, w, id))
    case DiscardLook(tx, w) => Looked(state, tx, LookForDiscard(state.store, w))
    case PublishLook(tx, w, at) => Looked(state, tx, LookForPublish(state.store, w, at))
    case MixedLook(tx, w, version, content, syncsLegacy) =>
      if w in state.store.workflows then Looked(state, tx, Some(Starting(w, version, content, syncsLegacy))) else state
    case Write(tx) =>
      if tx in state.open then State(Written(state.store, state.open[tx]), state.open - {tx}) else state
    case Whole(request) => state.(store := After(state.store, request))
  }

  function Run(start: State, events: seq<Event>): State {
    if events == [] then start
    else Step(Run(start, events[..|events| - 1]), events[|events| - 1])
  }

  lemma RunSnoc(start: State, events: seq<Event>, e: Event)
    ensures Run(start, events + [e]) == Step(Run(start, events), e)
  {
    assert (events + [e])[..|events|] == events;
  }

  /** The look of a request, if it has one and the request does not fail there. */
  function LookFor(store: Store, request: Request): Option<Look> {
    match request
    case CreateRequest(_, _, _) => None
    case SaveRequest(w, edit) => LookForSave(store, w, edit)
    case PublishRequest(w, at) => LookForPublish(store, w, at)
    case DiscardRequest(w) => LookForDiscard(store, w)
    case RevertRequest(w, id) => LookForRevert(store, w, id)
  }

  /** The request an event looks for. */
  function Looking(e: Event): Option<Request> {
    match e
    case SaveLook(_, w, edit) => Some(SaveRequest(w, edit))
    case RevertLook(_, w, id) => Some(RevertRequest(w, id))
    case DiscardLook(_, w) => Some(DiscardRequest(w))
    case PublishLook(_, w, at) => Some(PublishRequest(w, at))
    case _ => None
  }

  lemma LookOpens(state: State, e: Event)
    requires Looking(e).Some? && LookFor(state.store, Looking(e).value).Some?
    ensures Step(state, e)
            == state.(open := state.open[e.tx := LookFor(state.store, Looking(e).value).value])
  {}

  /** A look that is written at once is the whole request, and without a look nothing happens. */
  lemma WrittenAtOnceIsWhole(store: Store, request: Request)
    requires Inv(store) && !request.CreateRequest?
    ensures var look := LookFor(store, request);
            After(store, request) == if look.Some? then Written(store, look.value) else store
  {
    if request.RevertRequest? && RevertOutcome(store, request.workflow, request.id) == Done {
      assert RowFits(store.rows[FindVersion(store.rows, request.workflow, request.id).value], store);
    } else if !request.RevertRequest? && Find(store.rows, request.workflow, Draft).Some? {
      var d := Find(store.rows, request.workflow, Draft).value;
      PlaceIs(store.rows, d);
      assert RowFits(store.rows[d], store);
      ReleasedIsPublished(store, d);
    }
  }

  /** The released rows are the published ones. */
  lemma ReleasedIsPublished(store: Store, i: nat)
    requires Inv(store) && i < |store.rows|
    ensures IsReleased(store, store.rows[i].id) <==> store.rows[i].status == Published
  {
    assert RowFits(store.rows[i], store);
    if IsReleased(store, store.rows[i].id) {
      var w :| w in store.workflows && store.workflows[w].released == Some(store.rows[i].id);
      assert WorkflowFits(w, store);
      var p := Find(store.rows, w, Published).value;
      assert RowFits(store.rows[p], store);
      Separate(store.rows, i, p);
    }
  }

  // ------------------------------------------------------- the version history

  /** When an insert keeps the history: no draft has appeared, nor a version with the number. */
  predicate InsertInTime(store: Store, look: Look) {
    look.Starting? ==>
      Find(store.rows, look.workflow, Draft).None? && look.version > MaxVersion(store.rows, look.workflow)
  }

  lemma LateInsertBreaksInv(store: Store, look: Look)
    requires Inv(store) && look.Starting? && look.workflow in store.workflows && !InsertInTime(store, look)
    ensures !Inv(Inserted(store, look))
  {
    var after, n, w := Inserted(store, look), |store.rows|, look.workflow;
    assert WorkflowFits(w, store);
    var d := Find(store.rows, w, Draft);
    var i: nat;
    if d.Some? {
      i := d.value;
    } else if MaxVersion(store.rows, w) == 0 {
      i := Find(store.rows, w, Published).value;
    } else {
      i :| 0 <= i < n && store.rows[i].workflow == w && store.rows[i].version == MaxVersion(store.rows, w);
    }
    assert after.rows[i] == store.rows[i] && !Apart(after.rows[i], after.rows[n]);
  }

  /** An insert keeps the version history if and only if at that moment the workflow has no
      draft and the number read before exceeds every version. */
  lemma InsertKeepsInvIff(store: Store, look: Look)
    requires Inv(store) && look.Starting? && look.workflow in store.workflows
    ensures Inv(Inserted(store, look)) <==> InsertInTime(store, look)
  {
    if InsertInTime(store, look) {
      AddingDraftKeepsInv(store, Inserted(store, look).rows[|store.rows|]);
    } else {
      LateInsertBreaksInv(store, look);
    }
  }

  /** Writing the legacy columns neither keeps nor breaks it. */
  lemma LegacyIsApart(store: Store, w: nat, content: Content)
    ensures Inv(WithLegacy(store, w, content)) <==> Inv(store)
  {
    var after := WithLegacy(store, w, content);
    if Inv(store) {
      LegacyKeepsInv(store, w, content);
    }
    if w in store.workflows {
      var legacy := store.workflows[w].legacy;
      assert after.workflows[w := store.workflows[w]] == store.workflows;
      assert WithLegacy(after, w, legacy) == store;
      if Inv(after) {
        LegacyKeepsInv(after, w, legacy);
      }
    }
  }

  lemma EditKeepsInv(store: Store, look: Look)
    requires Inv(store) && look.Editing?
    ensures Inv(Edited(store, look))
  {
    var i := Place(store.rows, look.id);
    if i.Some? {
      var after := Edited(store, look);
      UpdatedApart(store.rows, after.rows);
      forall k | 0 <= k < |store.rows| ensures RowFits(after.rows[k], after) {
        assert RowFits(store.rows[k], store);
      }
      forall v | v in after.workflows ensures WorkflowFits(v, after) {
        assert WorkflowFits(v, store);
        var p := Find(store.rows, v, Published).value;
        assert after.rows[p].workflow == v && after.rows[p].status == Published;
      }
    }
  }

  lemma RemovalKeepsInv(store: Store, look: Look)
    requires Inv(store) && look.Discarding?
    ensures Inv(Removed(store, look))
  {
    var i := Place(store.rows, look.id);
    if i.Some? && !IsReleased(store, look.id) {
      ReleasedIsPublished(store, i.value);
      DeletingKeepsInv(store, i.value);
    }
  }

  /** The workflow of the look is there, and its row, wherever it is, is one of that workflow. */
  predicate LookFits(look: Look, store: Store) {
    && look.workflow in store.workflows
    && (!look.Starting? ==>
          && look.id < store.nextDefinition
          && forall i :: 0 <= i < |store.rows| ==>
                           (store.rows[i].id == look.id ==> store.rows[i].workflow == look.workflow))
  }

  lemma WriteKeepsInvIff(store: Store, look: Look)
    requires Inv(store) && LookFits(look, store)
    ensures Inv(Written(store, look)) <==> InsertInTime(store, look)
  {
    match look
    case Starting(w, _, content, _) =>
      InsertKeepsInvIff(store, look);
      LegacyIsApart(Inserted(store, look), w, content);
    case Editing(w, _, edit, seen) =>
      EditKeepsInv(store, look);
      LegacyIsApart(Edited(store, look), w, Overlay(edit, seen));
    case Discarding(_, _) => RemovalKeepsInv(store, look);
    case Publishing(w, id, at, seen) =>
      var i := Place(store.rows, id);
      if i.Some? {
        PromotingKeepsInv(store, w, i.value, at, seen);
      }
  }

  /** The event, if it writes, inserts in time. */
  predicate OnTime(state: State, e: Event) {
    e.Write? && e.tx in state.open ==> InsertInTime(state.store, state.open[e.tx])
  }

  predicate AllOnTime(start: State, events: seq<Event>) {
    events == [] ||
    (AllOnTime(start, events[..|events| - 1]) && OnTime(Run(start, events[..|events| - 1]), events[|events| - 1]))
  }

  predicate AlwaysInv(start: State, events: seq<Event>) {
    (events == [] || AlwaysInv(start, events[..|events| - 1])) && Inv(Run(start, events).store)
  }

  predicate LooksFit(state: State) {
    forall tx :: tx in state.open ==> LookFits(state.open[tx], state.store)
  }

  /** The row has a new key, or was there before with the same key and workflow. */
  predicate KeepsOwner(row: Definition, store: Store) {
    row.id >= store.nextDefinition ||
    exists i :: 0 <= i < |store.rows| && store.rows[i].id == row.id && store.rows[i].workflow == row.workflow
  }

  predicate KeepsOwners(store: Store, after: Store) {
    && store.workflows.Keys <= after.workflows.Keys && store.nextDefinition <= after.nextDefinition
    && forall j :: 0 <= j < |after.rows| ==> KeepsOwner(after.rows[j], store)
  }

  lemma WholeKeepsOwners(store: Store, request: Request)
    ensures KeepsOwners(store, After(store, request))
  {
    var after := After(store, request);
    forall j | 0 <= j < |after.rows| ensures KeepsOwner(after.rows[j], store) {
      if request.DiscardRequest? && DiscardOutcome(store, request.workflow) == Done {
        var d := Find(store.rows, request.workflow, Draft).value;
        assert after.rows == Deleted(store.rows, d) && after.rows[j] == store.rows[PlaceBefore(d, j)];
      } else if j < |store.rows| {
        assert store.rows[j].id == after.rows[j].id;
      }
    }
  }

  lemma WriteKeepsOwners(store: Store, look: Look)
    ensures KeepsOwners(store, Written(store, look))
  {
    var after := Written(store, look);
    forall j | 0 <= j < |after.rows| ensures KeepsOwner(after.rows[j], store) {
      if look.Discarding? && |after.rows| < |store.rows| {
        var d := Place(store.rows, look.id).value;
        assert after.rows[j] == store.rows[PlaceBefore(d, j)];
      } else if j < |store.rows| {
        assert store.rows[j].id == after.rows[j].id;
      }
    }
  }

  lemma LookStaysFit(look: Look, store: Store, after: Store)
    requires LookFits(look, store) && KeepsOwners(store, after)
    ensures LookFits(look, after)
  {
    if !look.Starting? {
      forall j | 0 <= j < |after.rows| && after.rows[j].id == look.id ensures after.rows[j].workflow == look.workflow {
        assert KeepsOwner(after.rows[j], store);
      }
    }
  }

  lemma NewLookFits(store: Store, request: Request)
    requires Inv(store) && LookFor(store, request).Some?
    ensures LookFits(LookFor(store, request).value, store)
  {
    var d := Find(store.rows, request.workflow, Draft);
    if d.Some? {
      assert RowFits(store.rows[d.value], store);
      forall i | 0 <= i < |store.rows| && store.rows[i].id == store.rows[d.value].id
        ensures store.rows[i].workflow == request.workflow
      {
        Separate(store.rows, i, d.value);
      }
    }
  }

  lemma StepKeepsLooks(state: State, e: Event)
    requires Inv(state.store) && LooksFit(state)
    ensures LooksFit(Step(state, e))
  {
    var after := Step(state, e);
    if Looking(e).Some? {
      if LookFor(state.store, Looking(e).value).Some? {
        NewLookFits(state.store, Looking(e).value);
      }
    } else {
      if e.Whole? {
        WholeKeepsOwners(state.store, e.request);
      } else if e.Write? && e.tx in state.open {
        WriteKeepsOwners(state.store, state.open[e.tx]);
      }
      forall tx | tx in after.open ensures LookFits(after.open[tx], after.store) {
        if after.store != state.store {
          LookStaysFit(state.open[tx], state.store, after.store);
        }
      }
    }
  }

  lemma {:induction false} StepKeepsInvIff(state: State, e: Event)
    requires Inv(state.store) && LooksFit(state)
    ensures Inv(Step(state, e).store) <==> OnTime(state, e)
  {
    if e.Whole? {
      StepKeepsInv(state.store, e.request);
    } else if e.Write? && e.tx in state.open {
      WriteKeepsInvIff(state.store, state.open[e.tx]);
    }
  }

  lemma {:induction false} AlwaysInvKeepsLooks(start: State, events: seq<Event>)
    requires LooksFit(start) && AlwaysInv(start, events)
    ensures LooksFit(Run(start, events))
  {
    if events == [] {
    } else {
      var prefix := events[..|events| - 1];
      AlwaysInvKeepsLooks(start, prefix);
      assert Inv(Run(start, prefix).store);
      StepKeepsLooks(Run(start, prefix), events[|events| - 1]);
    }
  }

  /** In any interleaving the version history holds throughout if and only if every insert
      comes in time. */
  lemma {:induction false} HistoryHoldsIff(start: State, events: seq<Event>)
    requires Inv(start.store) && LooksFit(start)
    ensures AlwaysInv(start, events) <==> AllOnTime(start, events)
  {
    if events == [] {
    } else {
      var prefix, e := events[..|events| - 1], events[|events| - 1];
      HistoryHoldsIff(start, prefix);
      if AlwaysInv(start, prefix) {
        AlwaysInvKeepsLooks(start, prefix);
        assert Inv(Run(start, prefix).store);
        StepKeepsInvIff(Run(start, prefix), e);
      }
    }
  }

  lemma TwoInserts(store: Store, one: Look, two: Look)
    requires one.Starting? && two.Starting? && one.workflow == two.workflow && one.version == two.version
    ensures var rows, n := Written(Written(store, one), two).rows, |store.rows|;
            && |rows| == n + 2 && rows[n].status == rows[n + 1].status == Draft
            && rows[n].workflow == rows[n + 1].workflow == one.workflow && rows[n].version == rows[n + 1].version
            && rows[n].id != rows[n + 1].id && !RowsApart(rows)
  {
    var rows, n := Written(Written(store, one), two).rows, |store.rows|;
    assert !Apart(rows[n], rows[n + 1]);
  }

  /** A race: two saves that both look before either writes leave two drafts. */
  lemma RacingSavesMakeTwoDrafts(store: Store, w: nat, first: Edit, second: Edit)
    requires Inv(store) && w in store.workflows && Find(store.rows, w, Draft).None?
    ensures var start := State(store, map[]);
            var events := [SaveLook(1, w, first), SaveLook(2, w, second), Write(1), Write(2)];
            var rows, n := Run(start, events).store.rows, |store.rows|;
            && |rows| == n + 2 && rows[n].status == rows[n + 1].status == Draft
            && rows[n].workflow == rows[n + 1].workflow == w && rows[n].version == rows[n + 1].version
            && rows[n].id != rows[n + 1].id && !Inv(Run(start, events).store)
  {
    var start := State(store, map[]);
    var a, b: Event := SaveLook(1, w, first), SaveLook(2, w, second);
    var one, two := LookForSave(store, w, first).value, LookForSave(store, w, second).value;
    LookOpens(start, a);
    LookOpens(start.(open := map[1 := one]), b);
    RunSnoc(start, [], a);
    RunSnoc(start, [] + [a], b);
    assert [] + [a] + [b] == [a, b];
    BothWritten(start, [a, b], store, one, two);
    assert [a, b] + [Write(1)] + [Write(2)] == [a, b, Write(1), Write(2)];
    TwoInserts(store, one, two);
  }

  lemma BothWritten(start: State, events: seq<Event>, store: Store, one: Look, two: Look)
    requires Run(start, events) == State(store, map[1 := one, 2 := two])
    ensures Run(start, events + [Write(1)] + [Write(2)]).store == Written(Written(store, one), two)
  {
    RunSnoc(start, events, Write(1));
    RunSnoc(start, events + [Write(1)], Write(2));
  }

  // ------------------------------------------------------- published snapshots

  /** When a write leaves published snapshots alone: an edit whose row is still a draft, or
      gone, or says what the edit says; a discard whose row is a draft, gone or released; a
      publication whose row is a draft, or gone, or was published at that very moment. */
  predicate SparesPublished(store: Store, look: Look) {
    var i := if look.Starting? then None else Place(store.rows, look.id);
    i.None? || store.rows[i.value].status == Draft ||
    var row := store.rows[i.value];
    match look
    case Starting(_, _, _, _) => true
    case Editing(_, _, edit, _) => Overlay(edit, row.content) == row.content
    case Discarding(_, _) => row.status == Published
    case Publishing(_, _, at, _) => row.status == Published && row.publishedAt == Some(at)
  }

  /** Every published or archived row is frozen by the step. */
  ghost predicate Freezes(before: seq<Definition>, after: seq<Definition>) {
    forall id :: ById(before, id).Some? && ById(before, id).value.status != Draft ==>
                   ById(after, id).Some? && Frozen(ById(before, id).value, ById(after, id).value)
  }

  /** Where no row moves, it can be seen row by row. */
  lemma FreezesInPlace(before: seq<Definition>, after: seq<Definition>)
    requires RowsApart(before) && RowsApart(after) && |before| <= |after|
    requires forall k :: 0 <= k < |before| ==> after[k].id == before[k].id
    ensures Freezes(before, after) <==>
            forall k :: 0 <= k < |before| && before[k].status != Draft ==> Frozen(before[k], after[k])
  {
    forall k | 0 <= k < |before|
      ensures ById(before, before[k].id) == Some(before[k]) && ById(after, before[k].id) == Some(after[k])
    {
      ByIdIs(before, k);
      ByIdIs(after, k);
    }
    forall id | ById(before, id).Some? ensures exists k :: 0 <= k < |before| && before[k].id == id {
      assert ById(before, id).value in before;
    }
  }

  lemma EditFreezesIff(store: Store, look: Look)
    requires Inv(store) && look.Editing?
    ensures Freezes(store.rows, Edited(store, look).rows) <==> SparesPublished(store, look)
  {
    EditKeepsInv(store, look);
    FreezesInPlace(store.rows, Edited(store, look).rows);
    var i := Place(store.rows, look.id);
    if i.Some? && store.rows[i.value].status != Draft {
      assert Frozen(store.rows[i.value], Edited(store, look).rows[i.value]) <==> SparesPublished(store, look);
    }
  }

  lemma PromotionFreezesIff(store: Store, look: Look)
    requires Inv(store) && look.Publishing? && LookFits(look, store)
    ensures Freezes(store.rows, Promoted(store, look).rows) <==> SparesPublished(store, look)
  {
    var i, after := Place(store.rows, look.id), Promoted(store, look).rows;
    WriteKeepsInvIff(store, look);
    FreezesInPlace(store.rows, after);
    if i.Some? && store.rows[i.value].status != Draft {
      assert Frozen(store.rows[i.value], after[i.value]) <==> SparesPublished(store, look);
    }
  }

  lemma RemovalFreezesIff(store: Store, look: Look)
    requires Inv(store) && look.Discarding?
    ensures Freezes(store.rows, Removed(store, look).rows) <==> SparesPublished(store, look)
  {
    var i, after := Place(store.rows, look.id), Removed(store, look).rows;
    RemovalKeepsInv(store, look);
    if i.Some? {
      ReleasedIsPublished(store, i.value);
      ByIdIs(store.rows, i.value);
      if store.rows[i.value].status == Archived {
        DeletedIsGone(store.rows, i.value);
      }
    }
    forall id | ById(store.rows, id).Some? && (|after| == |store.rows| || id != look.id)
      ensures ById(after, id) == ById(store.rows, id)
    {
      if |after| < |store.rows| {
        DeletedStays(store.rows, i.value, id);
      }
    }
  }

  lemma DeletedIsGone(rows: seq<Definition>, d: nat)
    requires RowsApart(rows) && d < |rows|
    ensures ById(Deleted(rows, d), rows[d].id).None?
  {
    forall j | 0 <= j < |rows| - 1 ensures Deleted(rows, d)[j].id != rows[d].id {
      Separate(rows, d, PlaceBefore(d, j));
    }
  }

  lemma DeletedStays(rows: seq<Definition>, d: nat, id: nat)
    requires RowsApart(rows) && d < |rows| && rows[d].id != id && ById(rows, id).Some?
    ensures ById(Deleted(rows, d), id) == ById(rows, id)
  {
    var k :| 0 <= k < |rows| && rows[k] == ById(rows, id).value;
    DeletedApart(rows, d);
    StillThere(rows, d, k);
    ByIdIs(Deleted(rows, d), PlaceAfter(d, k));
  }

  lemma WriteFreezesIff(store: Store, look: Look)
    requires Inv(store) && LookFits(look, store) && InsertInTime(store, look)
    ensures Freezes(store.rows, Written(store, look).rows) <==> SparesPublished(store, look)
  {
    match look
    case Starting(_, _, _, _) =>
      InsertKeepsInvIff(store, look);
      FreezesInPlace(store.rows, Inserted(store, look).rows);
    case Editing(_, _, _, _) => EditFreezesIff(store, look);
    case Discarding(_, _) => RemovalFreezesIff(store, look);
    case Publishing(_, _, _, _) => PromotionFreezesIff(store, look);
  }

  lemma WholeFreezes(store: Store, request: Request)
    requires Inv(store)
    ensures Freezes(store.rows, After(store, request).rows)
  {
    forall id | ById(store.rows, id).Some? && ById(store.rows, id).value.status != Draft
      ensures ById(After(store, request).rows, id).Some?
      ensures Frozen(ById(store.rows, id).value, ById(After(store, request).rows, id).value)
    {
      StepFreezes(store, request, id);
    }
  }

  /** The event, if it writes, finds its row so. */
  predicate Spares(state: State, e: Event) {
    e.Write? && e.tx in state.open ==> SparesPublished(state.store, state.open[e.tx])
  }

  /** A step of any interleaving leaves every published and archived snapshot as it was if and
      only if it is not a late edit, discard or publication. */
  lemma {:induction false} StepFreezesIff(state: State, e: Event)
    requires Inv(state.store) && LooksFit(state) && OnTime(state, e)
    ensures Freezes(state.store.rows, Step(state, e).store.rows) <==> Spares(state, e)
  {
    if e.Whole? {
      WholeFreezes(state.store, e.request);
    } else if e.Write? && e.tx in state.open {
      WriteFreezesIff(state.store, state.open[e.tx]);
    }
  }

  predicate AllSpare(start: State, events: seq<Event>) {
    events == [] ||
    (AllSpare(start, events[..|events| - 1]) && Spares(Run(start, events[..|events| - 1]), events[|events| - 1]))
  }

  /** So when every insert, edit, discard and publication comes in time, no interleaving ever
      changes a published or archived snapshot. */
  lemma {:induction false} PublishedSurvivesRaces(start: State, events: seq<Event>, id: nat)
    requires Inv(start.store) && LooksFit(start) && AllOnTime(start, events) && AllSpare(start, events)
    requires ById(start.store.rows, id).Some? && ById(start.store.rows, id).value.status != Draft
    ensures ById(Run(start, events).store.rows, id).Some?
    ensures Frozen(ById(start.store.rows, id).value, ById(Run(start, events).store.rows, id).value)
  {
    if events == [] {
    } else {
      var prefix := events[..|events| - 1];
      PublishedSurvivesRaces(start, prefix, id);
      HistoryHoldsIff(start, prefix);
      AlwaysInvKeepsLooks(start, prefix);
      assert Inv(Run(start, prefix).store);
      StepFreezesIff(Run(start, prefix), events[|events| - 1]);
    }
  }

  // -------------------------------------------------------- the released number

  lemma WriteReleases(store: Store, look: Look, w: nat)
    requires Inv(store) && w in store.workflows && LookFits(look, store)
    requires InsertInTime(store, look) && SparesPublished(store, look)
    ensures WorkflowFits(w, store) && WorkflowFits(w, Written(store, look))
    ensures ReleasedVersion(Written(store, look), w) >= ReleasedVersion(store, w)
  {
    WriteKeepsInvIff(store, look);
    WriteKeepsOwners(store, look);
    var after := Written(store, look);
    assert WorkflowFits(w, store) && WorkflowFits(w, after);
    var p := Find(store.rows, w, Published).value;
    var i := if look.Starting? then None else Place(store.rows, look.id);
    if look.Publishing? && look.workflow == w && i.Some? {
      Separate(store.rows, p, i.value);
      ReleasedRow(after, w, i.value);
    } else if look.Discarding? && |after.rows| < |store.rows| {
      ReleasedIsPublished(store, i.value);
      StillThere(store.rows, i.value, p);
      ReleasedRow(after, w, PlaceAfter(i.value, p));
    } else {
      ReleasedRow(after, w, p);
    }
  }

  /** Nor does the number of the released version ever fall in such an interleaving. */
  lemma {:induction false} ReleasedNeverFalls(start: State, events: seq<Event>, w: nat)
    requires Inv(start.store) && LooksFit(start) && AllOnTime(start, events) && AllSpare(start, events)
    requires w in start.store.workflows
    ensures w in Run(start, events).store.workflows
    ensures WorkflowFits(w, start.store) && WorkflowFits(w, Run(start, events).store)
    ensures ReleasedVersion(Run(start, events).store, w) >= ReleasedVersion(start.store, w)
  {
    if events == [] {
      assert WorkflowFits(w, start.store);
    } else {
      var prefix, e := events[..|events| - 1], events[|events| - 1];
      var state := Run(start, prefix);
      ReleasedNeverFalls(start, prefix, w);
      HistoryHoldsIff(start, prefix);
      AlwaysInvKeepsLooks(start, prefix);
      assert Inv(state.store);
      if e.Whole? {
        StepReleases(state.store, e.request, w);
      } else if e.Write? && e.tx in state.open {
        WriteKeepsOwners(state.store, state.open[e.tx]);
        WriteReleases(state.store, state.open[e.tx], w);
      }
    }
  }

  // --------------------------------------------------------- writes that come late

  /** A race that breaks it: a save looks at the draft, the draft is published, and the save
      writes into the published version. */
  lemma LateEditChangesPublished(store: Store, w: nat, edit: Edit, at: int)
    requires Inv(store) && w in store.workflows && Find(store.rows, w, Draft).Some?
    ensures var start, d := State(store, map[]), Find(store.rows, w, Draft).value;
            var published := Run(start, [SaveLook(1, w, edit), Whole(PublishRequest(w, at))]).store.rows;
            var after := Run(start, [SaveLook(1, w, edit), Whole(PublishRequest(w, at)), Write(1)]).store.rows;
            && |after| == |published| == |store.rows| && published[d].status == after[d].status == Published
            && published[d].content == store.rows[d].content && after[d].content == Overlay(edit, store.rows[d].content)
  {
    var start, d := State(store, map[]), Find(store.rows, w, Draft).value;
    var a, b := SaveLook(1, w, edit), Whole(PublishRequest(w, at));
    RunSnoc(start, [], a);
    assert [] + [a] == [a];
    RunSnoc(start, [a], b);
    assert [a] + [b] == [a, b];
    RunSnoc(start, [a, b], Write(1));
    assert [a, b] + [Write(1)] == [a, b, Write(1)];
    PublishPromotes(store, w, at);
    PublishKeepsInv(store, w, at);
    PlaceIs(Publish(store, w, at).rows, d);
  }

  /** Requests that nothing interrupts, one after the other. */
  function Wholes(requests: seq<Request>): seq<Event> {
    seq(|requests|, i requires 0 <= i < |requests| => Whole(requests[i]))
  }

  lemma WholeSnoc(start: State, events: seq<Event>, request: Request)
    ensures Run(start, events + [Whole(request)])
            == Run(start, events).(store := After(Run(start, events).store, request))
  {
    RunSnoc(start, events, Whole(request));
  }

  /** They do what they do in a serial run. */
  lemma {:induction false} WholesAreSerial(start: State, events: seq<Event>, state: State, requests: seq<Request>)
    requires Run(start, events) == state
    ensures Run(start, events + Wholes(requests)) == state.(store := WorkflowHistory.Run(state.store, requests))
  {
    if requests == [] {
      assert events + Wholes(requests) == events;
    } else {
      var n := |requests| - 1;
      var before, last := requests[..n], requests[n];
      WholesAreSerial(start, events, state, before);
      WholeSnoc(start, events + Wholes(before), last);
      assert events + Wholes(requests) == (events + Wholes(before)) + [Whole(last)];
    }
  }

  /** So a look, serial requests, and the write in the end. */
  lemma LookThenWrite(store: Store, look: Event, requests: seq<Request>)
    requires Looking(look).Some? && LookFor(store, Looking(look).value).Some?
    ensures var start, events := State(store, map[]), [look] + Wholes(requests);
            var later := WorkflowHistory.Run(store, requests);
            && Run(start, events).store == later
            && Run(start, events + [Write(look.tx)]).store == Written(later, LookFor(store, Looking(look).value).value)
  {
    var start := State(store, map[]);
    LookOpens(start, look);
    RunSnoc(start, [], look);
    assert [] + [look] == [look];
    WholesAreSerial(start, [look], Step(start, look), requests);
    RunSnoc(start, [look] + Wholes(requests), Write(look.tx));
  }

  /** A draft is published, and another one after it. */
  function Superseding(w: nat, edit: Edit, at: int, again: int): seq<Request> {
    [PublishRequest(w, at), SaveRequest(w, edit), PublishRequest(w, again)]
  }

  lemma ThreeRequests(store: Store, a: Request, b: Request, c: Request)
    ensures WorkflowHistory.Run(store, [a, b, c]) == After(After(After(store, a), b), c)
  {
    WorkflowHistory.RunSnoc(store, [], a);
    WorkflowHistory.RunSnoc(store, [] + [a], b);
    WorkflowHistory.RunSnoc(store, [] + [a] + [b], c);
    assert [] + [a] + [b] + [c] == [a, b, c];
  }

  lemma SupersededIsArchived(store: Store, w: nat, edit: Edit, at: int, again: int)
    requires Inv(store) && w in store.workflows && Find(store.rows, w, Draft).Some?
    ensures var d, n := Find(store.rows, w, Draft).value, |store.rows|;
            var after := WorkflowHistory.Run(store, Superseding(w, edit, at, again));
            && Inv(after) && w in after.workflows && |after.rows| == n + 1
            && after.rows[d] == store.rows[d].(status := Archived, publishedAt := Some(at))
            && Find(after.rows, w, Published) == Some(n) && after.rows[n].version > store.rows[d].version
  {
    ThreeRequests(store, PublishRequest(w, at), SaveRequest(w, edit), PublishRequest(w, again));
    var d, n := Find(store.rows, w, Draft).value, |store.rows|;
    assert RowFits(store.rows[d], store);
    PublishPromotes(store, w, at);
    PublishKeepsInv(store, w, at);
    var published := Publish(store, w, at);
    SaveLeavesDraft(published, w, edit);
    SaveKeepsInv(published, w, edit);
    var saved := Save(published, w, edit);
    assert saved.rows[d] == published.rows[d] && saved.rows[n].version > published.rows[d].version;
    ReleasedRow(saved, w, d);
    PublishPromotes(saved, w, again);
    PublishKeepsInv(saved, w, again);
  }

  /** Another: a discard looks at the draft, the draft is published and superseded, and the
      discard deletes the archived version. */
  lemma LateDiscardDeletesArchived(store: Store, w: nat, edit: Edit, at: int, again: int)
    requires Inv(store) && w in store.workflows && Find(store.rows, w, Draft).Some?
    ensures var start, draft := State(store, map[]), store.rows[Find(store.rows, w, Draft).value];
            var events := [DiscardLook(1, w)] + Wholes(Superseding(w, edit, at, again));
            var before, after := Run(start, events).store, Run(start, events + [Write(1)]).store;
            && ById(before.rows, draft.id) == Some(draft.(status := Archived, publishedAt := Some(at)))
            && ById(after.rows, draft.id).None?
  {
    var d := Find(store.rows, w, Draft).value;
    LookThenWrite(store, DiscardLook(1, w), Superseding(w, edit, at, again));
    SupersededIsArchived(store, w, edit, at, again);
    var after := WorkflowHistory.Run(store, Superseding(w, edit, at, again));
    PlaceIs(after.rows, d);
    ReleasedIsPublished(after, d);
    DeletedIsGone(after.rows, d);
  }

  /** And a third: a publication looks at the draft, the draft is published and superseded, and
      the publication releases it again, archiving the newer version. */
  lemma LatePublishReleasesOlder(store: Store, w: nat, edit: Edit, at: int, again: int, late: int)
    requires Inv(store) && w in store.workflows && Find(store.rows, w, Draft).Some?
    ensures var start, draft := State(store, map[]), store.rows[Find(store.rows, w, Draft).value];
            var events := [PublishLook(1, w, late)] + Wholes(Superseding(w, edit, at, again));
            var before, after := Run(start, events).store, Run(start, events + [Write(1)]).store;
            && WorkflowFits(w, before) && WorkflowFits(w, after)
            && ReleasedVersion(after, w) == draft.version < ReleasedVersion(before, w)
            && ById(before.rows, draft.id) == Some(draft.(status := Archived, publishedAt := Some(at)))
            && ById(after.rows, draft.id)
               == Some(draft.(status := Published, isCurrent := true, publishedAt := Some(late)))
  {
    var d := Find(store.rows, w, Draft).value;
    var draft := store.rows[d];
    LookThenWrite(store, PublishLook(1, w, late), Superseding(w, edit, at, again));
    SupersededIsArchived(store, w, edit, at, again);
    var before := WorkflowHistory.Run(store, Superseding(w, edit, at, again));
    PlaceIs(before.rows, d);
    assert WorkflowFits(w, before);
    PromotingKeepsInv(before, w, d, late, draft.content);
    var after := Promote(before, w, d, late, draft.content);
    assert WorkflowFits(w, after);
    ReleasedRow(after, w, d);
    ByIdIs(after.rows, d);
  }
}
