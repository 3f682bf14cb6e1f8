/** Text chat sessions written by concurrent callers under an optimistic revision number
    (`api/db/workflow_run_text_session_client.py:27-64,142-256`). */
module TextSessions {
  import opened Documents
  import opened Optional

  type Context = map<string, Json>

  datatype Session = Session(data: Json, checkpoint: Json, revision: nat)

  datatype WorkflowRun = WorkflowRun(
    usage: Json, initial: Context, gathered: Context, logs: Context, state: string, completed: bool)

  /** The two kinds of write, with the values the caller computed. */
  datatype Write =
    | Update(data: Option<Json>, checkpoint: Option<Json>)
    | Completion(newData: Json, newCheckpoint: Option<Json>, usage: Json, initial: Option<Context>,
                 gathered: Context, logs: Context, finalState: string)

  datatype Outcome = Done | NoSession | Conflict(expected: nat, actual: nat) | NoRun

  /** A session and the workflow run that owns it. */
  datatype Entry = Entry(session: Session, run: Option<WorkflowRun>)

  /** What an accepted write leaves. */
  function Applied(entry: Entry, write: Write): Entry {
    match write
    case Update(data, checkpoint) =>
      entry.(session := Session(Or(data, entry.session.data), Or(checkpoint, entry.session.checkpoint),
        entry.session.revision + 1))
    case Completion(data, checkpoint, usage, initial, gathered, logs, state) =>
      Entry(Session(data, Or(checkpoint, entry.session.checkpoint), entry.session.revision + 1),
            if entry.run.None? then None
            else
              var run := entry.run.value;
              Some(WorkflowRun(usage, if initial.Some? then run.initial + initial.value else run.initial,
                               run.gathered + gathered, run.logs + logs, state, true)))
  }

  /** Which error a write meets, in the order the code looks for them. */
  function WriteOutcome(entry: Option<Entry>, write: Write, expected: Option<nat>): Outcome {
    if entry.None? then NoSession
    else if expected.Some? && entry.value.session.revision != expected.value
    then Conflict(expected.value, entry.value.session.revision)
    else if write.Completion? && entry.value.run.None? then NoRun
    else Done
  }

  // ------------------------------------------------------------------ the client

  class SessionTable {
    var sessions: map<nat, Session>
    var runs: map<nat, WorkflowRun>

    function EntryOf(id: nat): Option<Entry>
      reads this
    {
      if id in sessions then Some(Entry(sessions[id], if id in runs then Some(runs[id]) else None)) else None
    }

    /** Every other session and run is left alone. */
    twostate predicate OnlyTouches(id: nat)
      reads this
    {
      sessions - {id} == old(sessions) - {id} && runs - {id} == old(runs) - {id} && (id in runs <==> old(id in runs))
    }

    method EnsureWorkflowRunTextSession(id: nat, data: Option<Json>, checkpoint: Option<Json>) returns (r: Outcome)
      modifies this
      ensures r == if id in old(sessions) || id in old(runs) then Done else NoRun
      ensures runs == old(runs)
      ensures sessions == if id in old(sessions) || r != Done then old(sessions)
                          else old(sessions)[id := Session(Or(data, EMPTY), Or(checkpoint, EMPTY), 0)]
    {
      if id in sessions {
        return Done;
      }
      if id !in runs {
        return NoRun;
      }
      var d, c := EMPTY, EMPTY;
      if data.Some? { d := data.value; }
      if checkpoint.Some? { c := checkpoint.value; }
      sessions := sessions[id := Session(d, c, 0)];
      r := Done;
    }

    method UpdateWorkflowRunTextSession(
      id: nat, data: Option<Json>, checkpoint: Option<Json>, expected: Option<nat>) returns (r: Outcome)
      modifies this
      ensures r == WriteOutcome(old(EntryOf(id)), Update(data, checkpoint), expected)
      ensures EntryOf(id) == if r == Done then Some(Applied(old(EntryOf(id)).value, Update(data, checkpoint)))
              else old(EntryOf(id))
      ensures OnlyTouches(id)
    {
      if id !in sessions {
        return NoSession;
      }
      var session := sessions[id];
      if expected.Some? && session.revision != expected.value {
        return Conflict(expected.value, session.revision);
      }
      if data.Some? { session := session.(data := data.value); }
      if checkpoint.Some? { session := session.(checkpoint := checkpoint.value); }
      session := session.(revision := session.revision + 1);
      sessions := sessions[id := session];
      r := Done;
    }

    method CompleteWorkflowRunTextSession(id: nat, write: Write, expected: Option<nat>) returns (r: Outcome)
      requires write.Completion?
      modifies this
      ensures r == WriteOutcome(old(EntryOf(id)), write, expected)
      ensures EntryOf(id) == if r == Done then Some(Applied(old(EntryOf(id)).value, write)) else old(EntryOf(id))
      ensures OnlyTouches(id)
    {
      if id !in sessions {
        return NoSession;
      }
      var session := sessions[id];
      if expected.Some? && session.revision != expected.value {
        return Conflict(expected.value, session.revision);
      }
      if id !in runs {
        return NoRun;
      }
      var run := runs[id];
      assert run.initial + map[] == run.initial;
      session := session.(data := write.newData);
      if write.newCheckpoint.Some? { session := session.(checkpoint := write.newCheckpoint.value); }
      session := session.(revision := session.revision + 1);
      run := run.(usage := write.usage);
      if write.initial.Some? && write.initial.value != map[] {
        run := run.(initial := run.initial + write.initial.value);
      }
      run := run.(gathered := run.gathered + write.gathered, logs := run.logs + write.logs);
      run := run.(state := write.finalState, completed := true);
      sessions, runs := sessions[id := session], runs[id := run];
      r := Done;
    }
  }

  // --------------------------------------------------------------- interleavings

  /** How a writer computes its write from what it read. */
  type Edit = Entry -> Write

  /** What each writer has read and not yet written back. */
  datatype State = State(entries: map<nat, Entry>, read: map<nat, (nat, Entry)>)

  /** A writer reads a session, or writes back what it computes from its reading; a guarded
      write passes the revision that was read as `expected_revision`. */
  datatype Event =
    | Read(writer: nat, id: nat)
    | WriteBack(writer: nat, edit: Edit, guarded: bool)

  function Expected(reading: Entry, guarded: bool): Option<nat> {
    if guarded then Some(reading.session.revision) else None
  }

  /** The write goes through. */
  predicate Accepted(state: State, e: Event) {
    && e.WriteBack?
    && e.writer in state.read
    && var (id, reading) := state.read[e.writer];
       id in state.entries &&
         WriteOutcome(Some(state.entries[id]), e.edit(reading), Expected(reading, e.guarded)) == Done
  }

  function Step(state: State, e: Event): State {
    if e.Read? then
      if e.id in state.entries then state.(read := state.read[e.writer := (e.id, state.entries[e.id])]) else state
    else if Accepted(state, e) then
      var (id, reading) := state.read[e.writer];
      state.(entries := state.entries[id := Applied(state.entries[id], e.edit(reading))])
    else state
  }

  function Run(entries: map<nat, Entry>, events: seq<Event>): State {
    if events == [] then State(entries, map[])
    else Step(Run(entries, events[..|events| - 1]), events[|events| - 1])
  }

  /** The edits accepted on one session, in order. */
  function AcceptedEdits(entries: map<nat, Entry>, events: seq<Event>, id: nat): seq<Edit> {
    if events == [] then []
    else
      var prefix, e := events[..|events| - 1], events[|events| - 1];
      var state := Run(entries, prefix);
      var before := AcceptedEdits(entries, prefix, id);
      if Accepted(state, e) && state.read[e.writer].0 == id then before + [e.edit] else before
  }

  /** The revisions the accepted writes had read. */
  function AcceptedRevisions(entries: map<nat, Entry>, events: seq<Event>, id: nat): seq<nat> {
    if events == [] then []
    else
      var prefix, e := events[..|events| - 1], events[|events| - 1];
      var state := Run(entries, prefix);
      var before := AcceptedRevisions(entries, prefix, id);
      if Accepted(state, e) && state.read[e.writer].0 == id
      then before + [state.read[e.writer].1.session.revision]
      else before
  }

  /** Each edit computed from, and applied to, what its predecessor left. */
  function Fold(entry: Entry, edits: seq<Edit>): Entry {
    if edits == [] then entry
    else
      var before := Fold(entry, edits[..|edits| - 1]);
      Applied(before, edits[|edits| - 1](before))
  }

  predicate AllGuarded(events: seq<Event>) {
    forall i :: 0 <= i < |events| ==> events[i].WriteBack? ==> events[i].guarded
  }

  /** A reading is older than the row, or is the row. */
  predicate ReadingsAreCurrentOrOld(state: State) {
    forall w :: w in state.read ==>
                  && state.read[w].0 in state.entries
                  && state.read[w].1.session.revision <= state.entries[state.read[w].0].session.revision
                  && (state.read[w].1.session.revision == state.entries[state.read[w].0].session.revision ==>
                        state.read[w].1 == state.entries[state.read[w].0])
  }

  lemma StepKeepsReadings(state: State, e: Event)
    requires ReadingsAreCurrentOrOld(state)
    ensures ReadingsAreCurrentOrOld(Step(state, e)) && Step(state, e).entries.Keys == state.entries.Keys
  {
    if Accepted(state, e) {
      var after := Step(state, e);
      var id := state.read[e.writer].0;
      assert after.entries[id].session.revision == state.entries[id].session.revision + 1;
    }
  }

  lemma {:induction false} ReadingsKept(entries: map<nat, Entry>, events: seq<Event>)
    ensures ReadingsAreCurrentOrOld(Run(entries, events)) && Run(entries, events).entries.Keys == entries.Keys
  {
    if events == [] {
    } else {
      ReadingsKept(entries, events[..|events| - 1]);
      StepKeepsReadings(Run(entries, events[..|events| - 1]), events[|events| - 1]);
    }
  }

  /** The revision counts the successful writes, guarded or not. */
  lemma {:induction false} RevisionCountsWrites(entries: map<nat, Entry>, events: seq<Event>, id: nat)
    requires id in entries
    ensures id in Run(entries, events).entries
    ensures Run(entries, events).entries[id].session.revision
         == entries[id].session.revision + |AcceptedEdits(entries, events, id)|
  {
    if events == [] {
    } else {
      RevisionCountsWrites(entries, events[..|events| - 1], id);
    }
  }

  /** The event is an accepted write to the session. */
  predicate WritesTo(state: State, e: Event, id: nat) {
    Accepted(state, e) && state.read[e.writer].0 == id
  }

  /** A write to the session, if the event is one, read the revision that the row has. */
  predicate ReadCurrent(state: State, e: Event, id: nat) {
    WritesTo(state, e, id) ==> state.read[e.writer].1.session.revision == state.entries[id].session.revision
  }

  /** It leaves what it would have left had it read the row as it is. */
  predicate AsIfCurrent(state: State, e: Event, id: nat) {
    WritesTo(state, e, id) ==>
      var row := state.entries[id];
      Applied(row, e.edit(state.read[e.writer].1)) == Applied(row, e.edit(row))
  }

  predicate AllReadCurrent(entries: map<nat, Entry>, events: seq<Event>, id: nat) {
    events == [] ||
    var prefix := events[..|events| - 1];
    AllReadCurrent(entries, prefix, id) && ReadCurrent(Run(entries, prefix), events[|events| - 1], id)
  }

  predicate AllAsIfCurrent(entries: map<nat, Entry>, events: seq<Event>, id: nat) {
    events == [] ||
    var prefix := events[..|events| - 1];
    AllAsIfCurrent(entries, prefix, id) && AsIfCurrent(Run(entries, prefix), events[|events| - 1], id)
  }

  /** A guarded write is accepted only on the revision it read. */
  lemma {:induction false} GuardedReadCurrent(entries: map<nat, Entry>, events: seq<Event>, id: nat)
    requires AllGuarded(events)
    ensures AllReadCurrent(entries, events, id)
  {
    if events == [] {
    } else {
      GuardedReadCurrent(entries, events[..|events| - 1], id);
    }
  }

  /** And a write that read the current revision was computed from the row it replaces. */
  lemma {:induction false} CurrentIsAsIfCurrent(entries: map<nat, Entry>, events: seq<Event>, id: nat)
    requires AllReadCurrent(entries, events, id)
    ensures AllAsIfCurrent(entries, events, id)
  {
    if events == [] {
    } else {
      var prefix := events[..|events| - 1];
      CurrentIsAsIfCurrent(entries, prefix, id);
      ReadingsKept(entries, prefix);
    }
  }

  lemma FoldSnoc(entry: Entry, edits: seq<Edit>, edit: Edit)
    ensures Fold(entry, edits + [edit]) == Applied(Fold(entry, edits), edit(Fold(entry, edits)))
  {
    assert (edits + [edit])[..|edits|] == edits;
  }

  /** After every event the session, and the workflow run with it, is the fold of the accepted
      edits, each computed from what its immediate predecessor left. */
  predicate NothingLost(entries: map<nat, Entry>, events: seq<Event>, id: nat)
    requires id in entries
  {
    && (events == [] || NothingLost(entries, events[..|events| - 1], id))
    && id in Run(entries, events).entries
    && Run(entries, events).entries[id] == Fold(entries[id], AcceptedEdits(entries, events, id))
  }

  /** In any interleaving of writers, guarded or not, no update is lost if and only if every
      accepted write leaves what it would have left had it read the row it replaces. */
  lemma {:induction false} NoLostUpdateIff(entries: map<nat, Entry>, events: seq<Event>, id: nat)
    requires id in entries
    ensures NothingLost(entries, events, id) <==> AllAsIfCurrent(entries, events, id)
  {
    ReadingsKept(entries, events);
    if events == [] {
    } else {
      var prefix, e := events[..|events| - 1], events[|events| - 1];
      NoLostUpdateIff(entries, prefix, id);
      if WritesTo(Run(entries, prefix), e, id) {
        FoldSnoc(entries[id], AcceptedEdits(entries, prefix, id), e.edit);
      }
    }
  }

  /** So none is lost when every accepted write had read the current revision, and in
      particular when all writers pass the revision they read. */
  lemma NoLostUpdate(entries: map<nat, Entry>, events: seq<Event>, id: nat)
    requires id in entries && (AllReadCurrent(entries, events, id) || AllGuarded(events))
    ensures NothingLost(entries, events, id)
  {
    if AllGuarded(events) {
      GuardedReadCurrent(entries, events, id);
    }
    CurrentIsAsIfCurrent(entries, events, id);
    NoLostUpdateIff(entries, events, id);
  }

  /** The accepted writes read the consecutive revisions from this one on. */
  predicate Consecutive(revisions: seq<nat>, first: nat) {
    forall i :: 0 <= i < |revisions| ==> revisions[i] == first + i
  }

  lemma {:induction false} ConsecutiveIff(entries: map<nat, Entry>, events: seq<Event>, id: nat)
    requires id in entries
    ensures var read := AcceptedRevisions(entries, events, id);
            && |read| == |AcceptedEdits(entries, events, id)|
            && (Consecutive(read, entries[id].session.revision) <==> AllReadCurrent(entries, events, id))
  {
    if events == [] {
    } else {
      var prefix, e := events[..|events| - 1], events[|events| - 1];
      ConsecutiveIff(entries, prefix, id);
      RevisionCountsWrites(entries, prefix, id);
      var before, read := AcceptedRevisions(entries, prefix, id), AcceptedRevisions(entries, events, id);
      assert forall i :: 0 <= i < |before| ==> read[i] == before[i];
      if WritesTo(Run(entries, prefix), e, id) {
        ConsecutiveSnoc(before, read[|before|], entries[id].session.revision);
      }
    }
  }

  lemma ConsecutiveSnoc(revisions: seq<nat>, next: nat, first: nat)
    ensures Consecutive(revisions + [next], first) <==>
            Consecutive(revisions, first) && next == first + |revisions|
  {
    var all := revisions + [next];
    assert all[|revisions|] == next;
    assert forall i :: 0 <= i < |revisions| ==> all[i] == revisions[i];
  }

  /** No two guarded writes succeed on the same revision: the accepted ones read consecutive
      ones. */
  lemma EachRevisionWrittenOnce(entries: map<nat, Entry>, events: seq<Event>, id: nat)
    requires id in entries && AllGuarded(events)
    ensures var read := AcceptedRevisions(entries, events, id);
            && |read| == |AcceptedEdits(entries, events, id)|
            && forall i :: 0 <= i < |read| ==> read[i] == entries[id].session.revision + i
  {
    GuardedReadCurrent(entries, events, id);
    ConsecutiveIff(entries, events, id);
  }

  /** No accepted write forgets: a completed run stays completed, and its contexts and logs
      keep every key they had. */
  ghost predicate Remembers(before: WorkflowRun, after: WorkflowRun) {
    && (before.completed ==> after.completed)
    && before.initial.Keys <= after.initial.Keys
    && before.gathered.Keys <= after.gathered.Keys
    && before.logs.Keys <= after.logs.Keys
  }

  lemma {:induction false} EditsRemember(entry: Entry, edits: seq<Edit>)
    requires entry.run.Some?
    ensures Fold(entry, edits).run.Some? && Remembers(entry.run.value, Fold(entry, edits).run.value)
  {
    if edits == [] {
    } else {
      EditsRemember(entry, edits[..|edits| - 1]);
    }
  }

  /** In a merged context each given key has its new value and every other key its old one. */
  lemma CompletionMerges(entry: Entry, write: Write, k: string)
    requires write.Completion? && entry.run.Some?
    ensures var before, after := entry.run.value, Applied(entry, write).run.value;
            && after.completed && after.state == write.finalState && after.usage == write.usage
            && (k in after.gathered <==> k in before.gathered || k in write.gathered)
            && (k in after.gathered ==>
               after.gathered[k] == if k in write.gathered then write.gathered[k] else before.gathered[k])
            && (k in after.logs <==> k in before.logs || k in write.logs)
            && (k in after.logs ==> after.logs[k] == if k in write.logs then write.logs[k] else before.logs[k])
            && (write.initial.None? ==> after.initial == before.initial)
  {}

  lemma RunSnoc(entries: map<nat, Entry>, events: seq<Event>, e: Event)
    ensures Run(entries, events + [e]) == Step(Run(entries, events), e)
  {
    assert (events + [e])[..|events|] == events;
  }

  /** Without the guard an update is lost: the second of two writers that read the same row
      overwrites what the first one wrote, in every field it gives. */
  lemma UnguardedWriteLosesUpdate(entries: map<nat, Entry>, id: nat, first: Json, edit: Edit)
    requires id in entries && edit(entries[id]).Update? && edit(entries[id]).data.Some?
    ensures var events := [Read(1, id), Read(2, id), WriteBack(1, _ => Update(Some(first), None), true),
            WriteBack(2, edit, false)];
            && id in Run(entries, events).entries
            && Run(entries, events).entries[id].session.data == edit(entries[id]).data.value
            && Run(entries, events).entries[id].session.revision == entries[id].session.revision + 2
  {
    var a: Event, b: Event := Read(1, id), Read(2, id);
    var c, d := WriteBack(1, _ => Update(Some(first), None), true), WriteBack(2, edit, false);
    RunSnoc(entries, [], a);
    assert [] + [a] == [a];
    RunSnoc(entries, [a], b);
    RunSnoc(entries, [a] + [b], c);
    RunSnoc(entries, [a] + [b] + [c], d);
    assert [a] + [b] + [c] + [d] == [a, b, c, d];
  }
}
