/** Trigger paths and the workflows that own them (`api/db/agent_trigger_client.py:54-192`). */
module AgentTriggers {
  import opened Optional

  type Path = string

  datatype Trigger = Trigger(workflow: nat, organization: nat, active: bool)

  /** `trigger_path` is unique in the table. */
  type Table = map<Path, Trigger>

  datatype Outcome = Synced | Refused(conflicts: set<Path>)

  function PathSet(paths: seq<Path>): set<Path> {
    set p | p in paths
  }

  /** The paths in use by another workflow, active or archived. */
  function Conflicts(table: Table, paths: set<Path>, exclude: Option<nat>): set<Path> {
    set p | p in paths && p in table && (exclude.None? || table[p].workflow != exclude.value)
  }

  function Owned(table: Table, workflow: nat): set<Path> {
    set p | p in table && table[p].workflow == workflow
  }

  function Active(table: Table, workflow: nat): set<Path> {
    set p | p in table && table[p].workflow == workflow && table[p].active
  }

  // ------------------------------------------------------------------ statements

  /** `UPDATE ... SET state WHERE workflow_id = w AND trigger_path IN (...)`. */
  function WithState(table: Table, workflow: nat, paths: set<Path>, active: bool): Table {
    map p | p in table :: if p in paths && table[p].workflow == workflow then table[p].(active := active) else table[p]
  }

  function WithNew(table: Table, workflow: nat, organization: nat, paths: set<Path>): Table {
    map p | p in table.Keys + paths :: if p in paths then Trigger(workflow, organization, true) else table[p]
  }

  /** What a sync leaves when no path belongs to another workflow: its own rows are active
      exactly for the given paths. */
  function SyncedTable(table: Table, workflow: nat, organization: nat, paths: set<Path>): Table {
    map p | p in table.Keys + paths ::
      if p !in table then Trigger(workflow, organization, true)
      else if table[p].workflow == workflow then table[p].(active := p in paths)
      else table[p]
  }

  class TriggerTable {
    var triggers: Table

    method CheckTriggerPathConflicts(paths: seq<Path>, exclude: Option<nat>) returns (conflicts: set<Path>)
      ensures conflicts == Conflicts(triggers, PathSet(paths), exclude)
    {
      if paths == [] {
        assert Conflicts(triggers, PathSet(paths), exclude) == {};
        return {};
      }
      conflicts := set p | p in PathSet(paths) && p in triggers &&
        (exclude.None? || triggers[p].workflow != exclude.value);
    }

    method SyncTriggersForWorkflow(workflow: nat, organization: nat, paths: seq<Path>) returns (r: Outcome)
      modifies this
      ensures var all := PathSet(paths);
              var conflicts := Conflicts(old(triggers), all, Some(workflow));
              && r == (if conflicts == {} then Synced else Refused(conflicts))
              && triggers == if conflicts == {} then SyncedTable(old(triggers), workflow, organization, all)
                 else old(triggers)
    {
      var existing, wanted := Owned(triggers, workflow), PathSet(paths);
      var toAdd := wanted - existing;
      ConflictsAreNew(triggers, workflow, wanted);
      if toAdd != {} {
        var conflicts := Conflicts(triggers, toAdd, Some(workflow));
        if conflicts != {} {
          return Refused(conflicts);
        }
      }
      var toArchive := existing - wanted;
      NothingToWrite(triggers, workflow, organization);
      if toArchive != {} {
        triggers := WithState(triggers, workflow, toArchive, false);
      }
      var toReactivate := wanted * existing;
      NothingToWrite(triggers, workflow, organization);
      if toReactivate != {} {
        triggers := WithState(triggers, workflow, toReactivate, true);
      }
      NothingToWrite(triggers, workflow, organization);
      StatesThenRows(old(triggers), workflow, organization, wanted);
      triggers := InsertEach(triggers, workflow, organization, toAdd);
      r := Synced;
    }
  }

  /** The check before the transaction on all paths and the one inside it on the new paths find
      the same conflicts. */
  lemma ConflictsAreNew(table: Table, workflow: nat, paths: set<Path>)
    ensures Conflicts(table, paths, Some(workflow)) == Conflicts(table, paths - Owned(table, workflow), Some(workflow))
  {
  }

  lemma NothingToWrite(table: Table, workflow: nat, organization: nat)
    ensures WithState(table, workflow, {}, false) == table && WithState(table, workflow, {}, true) == table
    ensures WithNew(table, workflow, organization, {}) == table
  {
  }

  lemma OneMoreRow(table: Table, workflow: nat, organization: nat, paths: set<Path>, p: Path)
    ensures WithNew(table, workflow, organization, paths)[p := Trigger(workflow, organization, true)]
         == WithNew(table, workflow, organization, paths + {p})
  {
  }

  /** The inserts of the new paths, in any order. */
  method InsertEach(table: Table, workflow: nat, organization: nat, paths: set<Path>) returns (r: Table)
    ensures r == WithNew(table, workflow, organization, paths)
  {
    r := table;
    NothingToWrite(table, workflow, organization);
    var left, done := paths, {};
    while left != {}
      invariant done + left == paths && r == WithNew(table, workflow, organization, done)
      decreases |left|
    {
      var p :| p in left;
      OneMoreRow(table, workflow, organization, done, p);
      r := r[p := Trigger(workflow, organization, true)];
      left, done := left - {p}, done + {p};
    }
    assert done == paths;
  }

  /** Archiving, reactivating and inserting, one after the other, is one sync. */
  lemma StatesThenRows(table: Table, workflow: nat, organization: nat, wanted: set<Path>)
    requires Conflicts(table, wanted, Some(workflow)) == {}
    ensures var existing := Owned(table, workflow);
            var updated := WithState(WithState(table, workflow, existing - wanted, false), workflow,
              wanted * existing, true);
            WithNew(updated, workflow, organization, wanted - existing)
              == SyncedTable(table, workflow, organization, wanted)
  {
    var existing := Owned(table, workflow);
    assert forall p :: p in wanted && p in table && p !in existing ==> p in Conflicts(table, wanted, Some(workflow));
  }

  // ----------------------------------------------------------------- serial syncs

  datatype Request = Request(workflow: nat, organization: nat, paths: seq<Path>)

  predicate Accepts(table: Table, r: Request) {
    Conflicts(table, PathSet(r.paths), Some(r.workflow)) == {}
  }

  function After(table: Table, r: Request): Table {
    if Accepts(table, r) then SyncedTable(table, r.workflow, r.organization, PathSet(r.paths)) else table
  }

  function Run(table: Table, requests: seq<Request>): Table {
    if requests == [] then table
    else After(Run(table, requests[..|requests| - 1]), requests[|requests| - 1])
  }

  /** The paths of the workflow's last accepted sync. */
  function LastSynced(table: Table, requests: seq<Request>, workflow: nat): set<Path> {
    if requests == [] then Active(table, workflow)
    else
      var prefix, last := requests[..|requests| - 1], requests[|requests| - 1];
      if last.workflow == workflow && Accepts(Run(table, prefix), last) then PathSet(last.paths)
      else LastSynced(table, prefix, workflow)
  }

  lemma NoConflict(table: Table, r: Request, p: Path)
    requires Accepts(table, r) && p in PathSet(r.paths) && p in table
    ensures table[p].workflow == r.workflow
  {
    assert table[p].workflow != r.workflow ==> p in Conflicts(table, PathSet(r.paths), Some(r.workflow));
  }

  /** An accepted sync makes the workflow's active paths exactly the given ones and leaves every
      row of every other workflow as it was. */
  lemma SyncIsExact(table: Table, r: Request, other: nat)
    requires Accepts(table, r) && other != r.workflow
    ensures Active(After(table, r), r.workflow) == PathSet(r.paths)
    ensures Owned(After(table, r), other) == Owned(table, other)
    ensures forall p :: p in Owned(table, other) ==> After(table, r)[p] == table[p]
  {
    var after := After(table, r);
    forall p | p in PathSet(r.paths) && p in table ensures table[p].workflow == r.workflow {
      NoConflict(table, r, p);
    }
    assert forall p :: p in Active(after, r.workflow) <==> p in PathSet(r.paths);
    assert forall p :: p in Owned(after, other) <==> p in Owned(table, other);
  }

  /** After any sequence of syncs a workflow's active paths are those of its last accepted one. */
  lemma {:induction false} ActiveIsLastSynced(table: Table, requests: seq<Request>, workflow: nat)
    ensures Active(Run(table, requests), workflow) == LastSynced(table, requests, workflow)
  {
    if requests == [] {
    } else {
      var prefix, last := requests[..|requests| - 1], requests[|requests| - 1];
      ActiveIsLastSynced(table, prefix, workflow);
      var before := Run(table, prefix);
      if Accepts(before, last) {
        SyncIsExact(before, last, if last.workflow == workflow then workflow + 1 else workflow);
        if last.workflow != workflow {
          assert Active(After(before, last), workflow) == Active(before, workflow) by {
            assert forall p :: p in Active(before, workflow) ==> p in Owned(before, workflow);
            assert forall p :: p in Active(After(before, last), workflow) ==> p in Owned(After(before, last), workflow);
          }
        }
      }
    }
  }

  /** A path, once taken, keeps its owner: no sequence of syncs moves or frees it. */
  lemma {:induction false} OwnerNeverChanges(table: Table, requests: seq<Request>, p: Path)
    requires p in table
    ensures p in Run(table, requests)
    ensures Run(table, requests)[p] == table[p].(active := Run(table, requests)[p].active)
  {
    if requests == [] {
    } else {
      OwnerNeverChanges(table, requests[..|requests| - 1], p);
    }
  }

  /** Syncing the same paths again is accepted and changes nothing. */
  lemma SyncIsIdempotent(table: Table, r: Request)
    requires Accepts(table, r)
    ensures Accepts(After(table, r), r) && After(After(table, r), r) == After(table, r)
  {
    var after := After(table, r);
    forall p | p in PathSet(r.paths) ensures after[p].workflow == r.workflow {
      if p in table {
        NoConflict(table, r, p);
      }
    }
    assert Conflicts(after, PathSet(r.paths), Some(r.workflow)) == {};
  }

  // --------------------------------------------------------------- interleavings

  /** A sync that has read the table and found no conflict, but has not yet written. */
  datatype Pending = Pending(request: Request, toAdd: set<Path>, toArchive: set<Path>, toReactivate: set<Path>)

  datatype State = State(table: Table, open: map<nat, Pending>)

  /** A transaction may also die before its commit, which leaves nothing of it. */
  datatype Event = Begin(tx: nat, request: Request) | Commit(tx: nat) | Abort(tx: nat)

  function Plan(table: Table, r: Request): Pending {
    var existing, wanted := Owned(table, r.workflow), PathSet(r.paths);
    Pending(r, wanted - existing, existing - wanted, wanted * existing)
  }

  /** The writes of a plan on the table of that moment; inserting a path that exists by now
      violates the unique constraint and rolls everything back. */
  function Written(table: Table, plan: Pending): Table {
    if plan.toAdd * table.Keys != {} then table
    else
      var w := plan.request.workflow;
      WithNew(WithState(WithState(table, w, plan.toArchive, false), w, plan.toReactivate, true), w,
        plan.request.organization, plan.toAdd)
  }

  function Step(state: State, e: Event): State {
    match e
    case Begin(tx, r) =>
      if Accepts(state.table, r) then state.(open := state.open[tx := Plan(state.table, r)]) else state
    case Commit(tx) =>
      if tx in state.open then State(Written(state.table, state.open[tx]), state.open - {tx}) else state
    case Abort(tx) => state.(open := state.open - {tx})
  }

  function RunEvents(state: State, events: seq<Event>): State {
    if events == [] then state
    else Step(RunEvents(state, events[..|events| - 1]), events[|events| - 1])
  }

  /** The unique constraint backs the check up: in any interleaving of syncs a path keeps its
      owner. */
  lemma {:induction false} OwnerSurvivesRaces(state: State, events: seq<Event>, p: Path)
    requires p in state.table
    ensures p in RunEvents(state, events).table
    ensures RunEvents(state, events).table[p] == state.table[p].(active := RunEvents(state, events).table[p].active)
  {
    if events == [] {
    } else {
      OwnerSurvivesRaces(state, events[..|events| - 1], p);
      WritesKeepOwner(RunEvents(state, events[..|events| - 1]), events[|events| - 1], p);
    }
  }

  lemma WritesKeepOwner(state: State, e: Event, p: Path)
    requires p in state.table
    ensures p in Step(state, e).table &&
            Step(state, e).table[p] == state.table[p].(active := Step(state, e).table[p].active)
  {
    if e.Commit? && e.tx in state.open && p in state.open[e.tx].toAdd {
      assert p in state.open[e.tx].toAdd * state.table.Keys;
    }
  }

  /** A commit with nothing in between is the serial sync. */
  lemma CommitAtOnceIsSync(state: State, tx: nat, r: Request)
    requires Accepts(state.table, r)
    ensures Step(Step(state, Begin(tx, r)), Commit(tx)).table == After(state.table, r)
  {
    StatesThenRows(state.table, r.workflow, r.organization, PathSet(r.paths));
    var plan := Plan(state.table, r);
    forall p | p in PathSet(r.paths) && p in state.table ensures p !in plan.toAdd {
      NoConflict(state.table, r, p);
    }
    assert plan.toAdd * state.table.Keys == {};
  }

  // ------------------------------------------- what a commit leaves, whatever overlapped it

  /** The workflow's own paths when the sync began. */
  function Existing(plan: Pending): set<Path> {
    plan.toArchive + plan.toReactivate
  }

  predicate RollsBack(table: Table, plan: Pending) {
    plan.toAdd * table.Keys != {}
  }

  /** The plan was made from a table whose owners the present table keeps. */
  predicate Planned(table: Table, plan: Pending) {
    var w, wanted := plan.request.workflow, PathSet(plan.request.paths);
    && plan.toAdd == wanted - Existing(plan)
    && plan.toArchive == Existing(plan) - wanted
    && plan.toReactivate == wanted * Existing(plan)
    && Existing(plan) <= Owned(table, w)
  }

  lemma PlanIsPlanned(table: Table, r: Request)
    ensures Planned(table, Plan(table, r)) && Existing(Plan(table, r)) == Owned(table, r.workflow)
  {}

  lemma PlannedPersists(state: State, e: Event, plan: Pending)
    requires Planned(state.table, plan)
    ensures Planned(Step(state, e).table, plan)
  {
    forall p | p in Existing(plan) ensures p in Owned(Step(state, e).table, plan.request.workflow) {
      assert p in Owned(state.table, plan.request.workflow);
      WritesKeepOwner(state, e, p);
    }
  }

  lemma {:induction false} OpenPlansArePlanned(start: State, events: seq<Event>, tx: nat)
    requires start.open == map[] && tx in RunEvents(start, events).open
    ensures Planned(RunEvents(start, events).table, RunEvents(start, events).open[tx])
  {
    var prefix, e := events[..|events| - 1], events[|events| - 1];
    var before := RunEvents(start, prefix);
    if e.Begin? && e.tx == tx && Accepts(before.table, e.request) {
      PlanIsPlanned(before.table, e.request);
    } else {
      OpenPlansArePlanned(start, prefix, tx);
      PlannedPersists(before, e, before.open[tx]);
    }
  }

  /** A commit that is not rolled back leaves the given paths active, and whatever is active
      now that was not the workflow's when the sync began. */
  lemma CommitLeaves(table: Table, plan: Pending)
    requires Planned(table, plan) && !RollsBack(table, plan)
    ensures Active(Written(table, plan), plan.request.workflow)
         == PathSet(plan.request.paths) + (Active(table, plan.request.workflow) - Existing(plan))
  {
    var w, wanted := plan.request.workflow, PathSet(plan.request.paths);
    var after := Written(table, plan);
    forall p ensures p in Active(after, w) <==> p in wanted + (Active(table, w) - Existing(plan)) {
      assert p in Existing(plan) ==> p in Owned(table, w);
      assert p in plan.toAdd && p in table ==> p in plan.toAdd * table.Keys;
    }
  }

  /** No commit touches the rows of another workflow. */
  lemma OthersUntouched(table: Table, plan: Pending, other: nat)
    requires other != plan.request.workflow
    ensures Active(Written(table, plan), other) == Active(table, other)
    ensures Owned(Written(table, plan), other) == Owned(table, other)
  {
    var after := Written(table, plan);
    if !RollsBack(table, plan) {
      forall p ensures p in plan.toAdd ==> p !in table {
        assert p in plan.toAdd && p in table ==> p in plan.toAdd * table.Keys;
      }
    }
    assert forall p :: p in Active(after, other) <==> p in Active(table, other);
    assert forall p :: p in Owned(after, other) <==> p in Owned(table, other);
  }

  /** Event `k` commits a sync of the workflow and is not rolled back. */
  predicate Commits(start: State, events: seq<Event>, k: nat, workflow: nat)
    requires k < |events|
  {
    var state := RunEvents(start, events[..k]);
    && events[k].Commit? && events[k].tx in state.open
    && state.open[events[k].tx].request.workflow == workflow
    && !RollsBack(state.table, state.open[events[k].tx])
  }

  /** The last such event. */
  function LastCommit(start: State, events: seq<Event>, workflow: nat): (r: Option<nat>)
    ensures r.Some? ==> r.value < |events| && Commits(start, events, r.value, workflow)
  {
    if events == [] then None
    else
      var n := |events| - 1;
      if Commits(start, events, n, workflow) then Some(n)
      else
        var before := LastCommit(start, events[..n], workflow);
        assert before.Some? ==> events[..n][..before.value] == events[..before.value];
        before
  }

  /** The sync committed by event `k`, the paths it was given, and those it could not see. */
  function CommittedPaths(start: State, events: seq<Event>, k: nat, workflow: nat): set<Path>
    requires k < |events| && Commits(start, events, k, workflow)
  {
    PathSet(RunEvents(start, events[..k]).open[events[k].tx].request.paths)
  }

  function Unseen(start: State, events: seq<Event>, k: nat, workflow: nat): set<Path>
    requires k < |events| && Commits(start, events, k, workflow)
  {
    var state := RunEvents(start, events[..k]);
    Active(state.table, workflow) - Existing(state.open[events[k].tx])
  }

  lemma StepLeavesActive(state: State, e: Event, workflow: nat)
    requires !(e.Commit? && e.tx in state.open && state.open[e.tx].request.workflow == workflow
               && !RollsBack(state.table, state.open[e.tx]))
    ensures Active(Step(state, e).table, workflow) == Active(state.table, workflow)
  {
    if e.Commit? && e.tx in state.open && state.open[e.tx].request.workflow != workflow {
      OthersUntouched(state.table, state.open[e.tx], workflow);
    }
  }

  /** In every interleaving a workflow's active paths are those of its last effective sync,
      together with the active ones which that sync could not see. */
  lemma {:induction false} LastCommitDecides(start: State, events: seq<Event>, workflow: nat)
    requires start.open == map[]
    ensures var k := LastCommit(start, events, workflow);
            Active(RunEvents(start, events).table, workflow) ==
            if k.None? then Active(start.table, workflow)
            else CommittedPaths(start, events, k.value, workflow) + Unseen(start, events, k.value, workflow)
  {
    if events == [] {
    } else {
      var n := |events| - 1;
      var prefix, state := events[..n], RunEvents(start, events[..n]);
      if Commits(start, events, n, workflow) {
        OpenPlansArePlanned(start, prefix, events[n].tx);
        CommitLeaves(state.table, state.open[events[n].tx]);
      } else {
        LastCommitDecides(start, prefix, workflow);
        StepLeavesActive(state, events[n], workflow);
        var k := LastCommit(start, prefix, workflow);
        assert k.Some? ==> prefix[..k.value] == events[..k.value];
      }
    }
  }

  /** So they are exactly the paths of the last effective sync if and only if every active path
      it could not see was among its own. */
  lemma {:induction false} ActiveIsLastCommittedIff(start: State, events: seq<Event>, workflow: nat)
    requires start.open == map[] && LastCommit(start, events, workflow).Some?
    ensures var k := LastCommit(start, events, workflow).value;
            Active(RunEvents(start, events).table, workflow) == CommittedPaths(start, events, k, workflow) <==>
            Unseen(start, events, k, workflow) <= CommittedPaths(start, events, k, workflow)
  {
    LastCommitDecides(start, events, workflow);
  }

  /** At every moment at most one sync of the workflow is open. */
  predicate OneAtATime(start: State, events: seq<Event>, workflow: nat) {
    events == [] ||
    (&& OneAtATime(start, events[..|events| - 1], workflow)
     && var open := RunEvents(start, events).open;
        forall t, u :: t in open && u in open && open[t].request.workflow == open[u].request.workflow == workflow ==>
          t == u)
  }

  /** Then an open sync still sees every row of its workflow. */
  lemma {:induction false} OpenSyncSeesAll(start: State, events: seq<Event>, tx: nat, workflow: nat)
    requires start.open == map[] && OneAtATime(start, events, workflow)
    requires tx in RunEvents(start, events).open && RunEvents(start, events).open[tx].request.workflow == workflow
    ensures Existing(RunEvents(start, events).open[tx]) == Owned(RunEvents(start, events).table, workflow)
  {
    var prefix, e := events[..|events| - 1], events[|events| - 1];
    var before := RunEvents(start, prefix);
    if e.Begin? && e.tx == tx && Accepts(before.table, e.request) {
      PlanIsPlanned(before.table, e.request);
    } else {
      assert tx in before.open && before.open[tx].request.workflow == workflow;
      OpenSyncSeesAll(start, prefix, tx, workflow);
      if e.Commit? && e.tx in before.open {
        OnlyOpenSync(start, prefix, tx, e.tx, workflow);
        OthersUntouched(before.table, before.open[e.tx], workflow);
      }
    }
  }

  lemma OnlyOpenSync(start: State, events: seq<Event>, t: nat, u: nat, workflow: nat)
    requires start.open == map[] && OneAtATime(start, events, workflow) && t != u
    requires t in RunEvents(start, events).open && RunEvents(start, events).open[t].request.workflow == workflow
    requires u in RunEvents(start, events).open
    ensures RunEvents(start, events).open[u].request.workflow != workflow
  {}

  /** With at most one open sync of a workflow at a time, whatever the others do, its active
      paths are always those of its last effective sync. */
  lemma {:induction false} OneAtATimeIsExact(start: State, events: seq<Event>, workflow: nat)
    requires start.open == map[] && OneAtATime(start, events, workflow)
    ensures var k := LastCommit(start, events, workflow);
            Active(RunEvents(start, events).table, workflow) ==
            if k.None? then Active(start.table, workflow) else CommittedPaths(start, events, k.value, workflow)
  {
    LastCommitDecides(start, events, workflow);
    var k := LastCommit(start, events, workflow);
    if k.Some? {
      EarlierOneAtATime(start, events, k.value, workflow);
      OpenSyncSeesAll(start, events[..k.value], events[k.value].tx, workflow);
      assert Unseen(start, events, k.value, workflow) == {};
    }
  }

  lemma {:induction false} EarlierOneAtATime(start: State, events: seq<Event>, k: nat, workflow: nat)
    requires OneAtATime(start, events, workflow) && k <= |events|
    ensures OneAtATime(start, events[..k], workflow)
    decreases |events|
  {
    if k == |events| {
      assert events[..k] == events;
    } else {
      assert events[..|events| - 1][..k] == events[..k];
      EarlierOneAtATime(start, events[..|events| - 1], k, workflow);
    }
  }

  /** But two overlapping syncs of one workflow can leave the paths of both active. */
  lemma OverlappingSyncsAddUp(workflow: nat, organization: nat, p: Path, q: Path)
    requires p != q
    ensures var one, two := Request(workflow, organization, [p]), Request(workflow, organization, [q]);
            var s := Step(Step(State(map[], map[]), Begin(1, one)), Begin(2, two));
            Active(Step(Step(s, Commit(1)), Commit(2)).table, workflow) == {p, q}
  {
    var one, two := Request(workflow, organization, [p]), Request(workflow, organization, [q]);
    assert PathSet([p]) == {p} && PathSet([q]) == {q};
    var s := Step(Step(State(map[], map[]), Begin(1, one)), Begin(2, two));
    assert Owned(map[], workflow) == {};
    assert Conflicts(map[], {p}, Some(workflow)) == {} == Conflicts(map[], {q}, Some(workflow));
    assert Plan(map[], one) == Pending(one, {p}, {}, {}) && Plan(map[], two) == Pending(two, {q}, {}, {});
    assert s.open == map[1 := Pending(one, {p}, {}, {}), 2 := Pending(two, {q}, {}, {})];
    var s1 := Step(s, Commit(1));
    assert s1.table == map[p := Trigger(workflow, organization, true)];
    assert {q} * s1.table.Keys == {};
    assert Step(s1, Commit(2)).table
           == map[p := Trigger(workflow, organization, true), q := Trigger(workflow, organization, true)];
  }
}
