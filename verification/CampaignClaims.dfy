/** Claiming queued runs with `SELECT ... FOR UPDATE SKIP LOCKED`
    (`api/db/campaign_client.py:554-624, 775-852`).

    One SQL statement is one atomic step over the committed table. A claim transaction locks
    the rows its two SELECTs return and holds the locks until it commits; its own changes
    become visible at commit. */
module CampaignClaims {
  import opened Optional

  datatype RunState = Queued | Processing | Processed | Failed

  datatype QueuedRun = QueuedRun(campaign: nat, state: RunState, scheduledFor: Option<int>)

  type Table = map<nat, QueuedRun>

  /** An open claim: its arguments, and the rows it has locked so far. */
  datatype Claim = Claim(campaign: nat, before: int, limit: nat, due: Option<seq<nat>>, regular: Option<seq<nat>>)
  {
    function Runs(): seq<nat> {
      (if due.Some? then due.value else []) + (if regular.Some? then regular.value else [])
    }

    /** The second SELECT runs only when slots remain. */
    predicate Ready() {
      due.Some? && (regular.Some? || |due.value| >= limit)
    }
  }

  /** `started` holds the queued runs for which a workflow run exists. */
  datatype Db = Db(rows: Table, claims: map<nat, Claim>, started: set<nat>)
  {
    ghost predicate Locked(run: nat) {
      exists t :: t in claims && run in claims[t].Runs()
    }
  }

  datatype Event =
    | Begin(claim: nat, campaign: nat, before: int, limit: nat)
    | TakeDue(claim: nat, runs: seq<nat>)
    | TakeRegular(claim: nat, runs: seq<nat>)
    | Commit(claim: nat, runs: seq<nat>)
    | Rollback(claim: nat)
    | Return(ids: set<nat>)
    | Enqueue(run: nat, row: QueuedRun)
    | StartWorkflow(run: nat)
    | Finish(run: nat, outcome: RunState)

  // ------------------------------------------------------------------ the SELECTs

  predicate IsDue(row: QueuedRun, campaign: nat, before: int) {
    row.campaign == campaign && row.state == Queued && row.scheduledFor.Some? && row.scheduledFor.value <= before
  }

  predicate IsRegular(row: QueuedRun, campaign: nat) {
    row.campaign == campaign && row.state == Queued && row.scheduledFor.None?
  }

  /** `ORDER BY scheduled_for LIMIT limit` over the due rows nobody has locked. */
  ghost predicate SelectsDue(rows: Table, locked: set<nat>, campaign: nat, before: int, limit: nat, runs: seq<nat>) {
    && |runs| <= limit
    && (forall i :: 0 <= i < |runs| ==> runs[i] in rows && runs[i] !in locked && IsDue(rows[runs[i]], campaign, before))
    && (forall i, j :: 0 <= i < j < |runs| ==> runs[i] != runs[j])
    && (forall i, j :: 0 <= i < j < |runs| ==>
                         rows[runs[i]].scheduledFor.value <= rows[runs[j]].scheduledFor.value)
    && forall r :: r in rows && r !in locked && IsDue(rows[r], campaign, before) && r !in runs ==>
                     |runs| == limit && forall i :: 0 <= i < |runs| ==>
                                                      rows[runs[i]].scheduledFor.value <= rows[r].scheduledFor.value
  }

  /** `ORDER BY random() LIMIT limit` over the unscheduled rows nobody has locked. */
  ghost predicate SelectsRegular(rows: Table, locked: set<nat>, campaign: nat, limit: nat, runs: seq<nat>) {
    && |runs| <= limit
    && (forall i :: 0 <= i < |runs| ==> runs[i] in rows && runs[i] !in locked && IsRegular(rows[runs[i]], campaign))
    && (forall i, j :: 0 <= i < j < |runs| ==> runs[i] != runs[j])
    && forall r :: r in rows && r !in locked && IsRegular(rows[r], campaign) && r !in runs ==> |runs| == limit
  }

  ghost function LockedRuns(db: Db): set<nat> {
    set t, r | t in db.claims && r in db.claims[t].Runs() :: r
  }

  // --------------------------------------------------------------------- the steps

  /** Marking claimed rows, and the UPDATE of a return. */
  function Marked(rows: Table, runs: seq<nat>): Table {
    map r | r in rows :: if r in runs then rows[r].(state := Processing) else rows[r]
  }

  predicate Returns(db: Db, ids: set<nat>, run: nat) {
    run in db.rows && run in ids && db.rows[run].state == Processing && run !in db.started
  }

  function Returned(db: Db, ids: set<nat>): Table {
    map r | r in db.rows :: if Returns(db, ids, r) then db.rows[r].(state := Queued) else db.rows[r]
  }

  ghost predicate Step(db: Db, e: Event, db': Db) {
    match e
    case Begin(t, campaign, before, limit) =>
      t !in db.claims && db' == db.(claims := db.claims[t := Claim(campaign, before, limit, None, None)])
    case TakeDue(t, runs) =>
      && t in db.claims && db.claims[t].due.None?
      && var c := db.claims[t];
         SelectsDue(db.rows, LockedRuns(db), c.campaign, c.before, c.limit, runs) &&
         db' == db.(claims := db.claims[t := c.(due := Some(runs))])
    case TakeRegular(t, runs) =>
      && t in db.claims && db.claims[t].due.Some? && !db.claims[t].Ready()
      && var c := db.claims[t];
         SelectsRegular(db.rows, LockedRuns(db), c.campaign, c.limit - |c.due.value|, runs) &&
         db' == db.(claims := db.claims[t := c.(regular := Some(runs))])
    case Commit(t, runs) =>
      && t in db.claims && db.claims[t].Ready() && runs == db.claims[t].Runs()
      && db' == db.(rows := Marked(db.rows, runs), claims := db.claims - {t})
    case Rollback(t) => t in db.claims && db' == db.(claims := db.claims - {t})
    case Return(ids) => db' == db.(rows := Returned(db, ids))
    case Enqueue(r, row) => r !in db.rows && row.state == Queued && db' == db.(rows := db.rows[r := row])
    case StartWorkflow(r) => r in db.rows && db' == db.(started := db.started + {r})
    case Finish(r, outcome) =>
      // an UPDATE of one row by id waits for its lock
      && r in db.rows && !db.Locked(r) && (outcome == Processed || outcome == Failed)
      && db' == db.(rows := db.rows[r := db.rows[r].(state := outcome)])
  }

  ghost predicate Initial(db: Db) {
    db.claims == map[]
  }

  /** `dbs[i]` is the database before event `i`. */
  ghost predicate IsRun(dbs: seq<Db>, events: seq<Event>) {
    && |dbs| == |events| + 1
    && Initial(dbs[0])
    && forall i {:trigger events[i]} :: 0 <= i < |events| ==> Step(dbs[i], events[i], dbs[i + 1])
  }

  // ------------------------------------------------------------------ invariant

  ghost predicate ClaimInv(rows: Table, c: Claim) {
    && (c.due.None? ==> c.regular.None?)
    && |c.Runs()| <= c.limit
    && (forall i, j :: 0 <= i < j < |c.Runs()| ==> c.Runs()[i] != c.Runs()[j])
    && forall r :: r in c.Runs() ==>
                     r in rows && (IsDue(rows[r], c.campaign, c.before) || IsRegular(rows[r], c.campaign))
  }

  /** Locked rows exist, are still queued and due, and belong to one open claim each. */
  ghost predicate Inv(db: Db) {
    && (forall t :: t in db.claims ==> ClaimInv(db.rows, db.claims[t]))
    && forall t, u, r :: t in db.claims && u in db.claims && r in db.claims[t].Runs() && r in db.claims[u].Runs() ==>
       t == u
  }

  lemma TakeDueKeepsInv(db: Db, t: nat, runs: seq<nat>, db': Db)
    requires Inv(db) && Step(db, TakeDue(t, runs), db')
    ensures Inv(db')
  {
    var c := db.claims[t];
    assert c.Runs() == [];
    assert db'.claims[t].Runs() == runs;
    assert forall r :: r in runs ==> r !in LockedRuns(db);
  }

  lemma TakeRegularKeepsInv(db: Db, t: nat, runs: seq<nat>, db': Db)
    requires Inv(db) && Step(db, TakeRegular(t, runs), db')
    ensures Inv(db')
  {
    var c := db.claims[t];
    assert c.Runs() == c.due.value;
    assert db'.claims[t].Runs() == c.due.value + runs;
    assert forall r :: r in runs ==> r !in LockedRuns(db);
    assert forall r :: r in c.due.value ==> r in LockedRuns(db);
  }

  lemma OtherStepsKeepInv(db: Db, e: Event, db': Db)
    requires Inv(db) && Step(db, e, db') && !e.TakeDue? && !e.TakeRegular?
    ensures Inv(db')
  {}

  lemma {:induction false} StepKeepsInv(db: Db, e: Event, db': Db)
    requires Inv(db) && Step(db, e, db')
    ensures Inv(db')
  {
    match e
    case TakeDue(t, runs) => TakeDueKeepsInv(db, t, runs, db');
    case TakeRegular(t, runs) => TakeRegularKeepsInv(db, t, runs, db');
    case _ => OtherStepsKeepInv(db, e, db');
  }

  /** In every interleaving, at every moment, the locks of open claims are disjoint and every
      locked row is still queued and eligible. */
  lemma {:induction false} RunKeepsInv(dbs: seq<Db>, events: seq<Event>, i: nat)
    requires IsRun(dbs, events) && i <= |events|
    ensures Inv(dbs[i])
  {
    if i == 0 {
    } else {
      RunKeepsInv(dbs, events, i - 1);
      StepKeepsInv(dbs[i - 1], events[i - 1], dbs[i]);
    }
  }

  // ------------------------------------------------------------ exclusive claiming

  ghost predicate Claims(e: Event, run: nat) {
    e.Commit? && run in e.runs
  }

  ghost predicate GivesBack(db: Db, e: Event, run: nat) {
    e.Return? && Returns(db, e.ids, run)
  }

  /** A row that is not queued stays so unless a return gives it back. */
  lemma StaysTaken(db: Db, e: Event, db': Db, run: nat)
    requires Inv(db) && Step(db, e, db')
    requires run in db.rows && db.rows[run].state != Queued && !GivesBack(db, e, run)
    ensures run in db'.rows && db'.rows[run].state != Queued
  {}

  lemma {:induction false} TakenUntilGivenBack(dbs: seq<Db>, events: seq<Event>, i: nat, j: nat, run: nat)
    requires IsRun(dbs, events) && i <= j <= |events|
    requires run in dbs[i].rows && dbs[i].rows[run].state != Queued
    requires forall k {:trigger events[k]} :: i <= k < j ==> !GivesBack(dbs[k], events[k], run)
    ensures run in dbs[j].rows && dbs[j].rows[run].state != Queued
    decreases j
  {
    if i == j {
    } else {
      TakenUntilGivenBack(dbs, events, i, j - 1, run);
      RunKeepsInv(dbs, events, j - 1);
      StaysTaken(dbs[j - 1], events[j - 1], dbs[j], run);
    }
  }

  lemma CommitTakesQueued(db: Db, e: Event, db': Db, run: nat)
    requires Inv(db) && Step(db, e, db') && Claims(e, run)
    ensures run in db.rows && db.rows[run].state == Queued
    ensures run in db'.rows && db'.rows[run].state != Queued
  {
    assert ClaimInv(db.rows, db.claims[e.claim]);
  }

  /** Exclusive claiming: in every interleaving of claims, returns, enqueues and completions,
      two commits that claim the same run are separated by a return that gave it back. */
  lemma ClaimedOncePerReturn(dbs: seq<Db>, events: seq<Event>, i: nat, j: nat, run: nat)
    requires IsRun(dbs, events) && i < j < |events|
    requires Claims(events[i], run) && Claims(events[j], run)
    ensures exists k :: i < k < j && GivesBack(dbs[k], events[k], run)
  {
    RunKeepsInv(dbs, events, i);
    RunKeepsInv(dbs, events, j);
    CommitTakesQueued(dbs[i], events[i], dbs[i + 1], run);
    CommitTakesQueued(dbs[j], events[j], dbs[j + 1], run);
    if forall k {:trigger events[k]} :: i + 1 <= k < j ==> !GivesBack(dbs[k], events[k], run) {
      TakenUntilGivenBack(dbs, events, i + 1, j, run);
      assert false;
    }
  }

  // ------------------------------------------------------------ order and bounds

  /** A claim takes at most `limit` runs, all of its campaign, none twice, none due after its
      cutoff; and at the moment it commits they are all still queued. */
  lemma ClaimBounds(dbs: seq<Db>, events: seq<Event>, i: nat)
    requires IsRun(dbs, events) && i < |events| && events[i].Commit?
    ensures events[i].claim in dbs[i].claims
    ensures var c := dbs[i].claims[events[i].claim];
            var runs := events[i].runs;
            && |runs| <= c.limit
            && (forall j, k :: 0 <= j < k < |runs| ==> runs[j] != runs[k])
            && forall r :: r in runs ==>
                             && r in dbs[i].rows && dbs[i].rows[r].state == Queued
                             && dbs[i].rows[r].campaign == c.campaign
                             && (dbs[i].rows[r].scheduledFor.Some? ==> dbs[i].rows[r].scheduledFor.value <= c.before)
  {
    RunKeepsInv(dbs, events, i);
    assert Step(dbs[i], events[i], dbs[i + 1]);
  }

  /** The due runs an open claim holds were chosen by its own first SELECT. */
  lemma {:induction false} DueWasSelected(dbs: seq<Db>, events: seq<Event>, i: nat, t: nat) returns (k: nat)
    requires IsRun(dbs, events) && i <= |events|
    requires t in dbs[i].claims && dbs[i].claims[t].due.Some?
    ensures k < i && events[k] == TakeDue(t, dbs[i].claims[t].due.value)
    ensures t in dbs[k].claims &&
            dbs[k].claims[t].(due := None, regular := None) == dbs[i].claims[t].(due := None, regular := None)
  {
    assert Step(dbs[i - 1], events[i - 1], dbs[i]);
    if t in dbs[i - 1].claims && dbs[i - 1].claims[t].due.Some? {
      k := DueWasSelected(dbs, events, i - 1, t);
    } else {
      k := i - 1;
    }
  }

  /** Priority: whenever a claim takes a regular run, its first SELECT had left no unlocked due
      retry behind. */
  lemma RegularOnlyAfterDue(dbs: seq<Db>, events: seq<Event>, j: nat) returns (k: nat)
    requires IsRun(dbs, events) && j < |events| && events[j].TakeRegular?
    ensures k < j && events[k].TakeDue? && events[k].claim == events[j].claim
    ensures events[j].claim in dbs[j].claims
    ensures var c := dbs[j].claims[events[j].claim];
            forall r :: r in dbs[k].rows && IsDue(dbs[k].rows[r], c.campaign, c.before) && r !in LockedRuns(dbs[k]) ==>
                          r in events[k].runs
  {
    assert Step(dbs[j], events[j], dbs[j + 1]);
    k := DueWasSelected(dbs, events, j, events[j].claim);
    assert Step(dbs[k], events[k], dbs[k + 1]);
    var c, c' := dbs[j].claims[events[j].claim], dbs[k].claims[events[j].claim];
    assert c'.campaign == c.campaign && c'.before == c.before && c'.limit == c.limit;
    assert SelectsDue(dbs[k].rows, LockedRuns(dbs[k]), c.campaign, c.before, c.limit, events[k].runs);
    assert |events[k].runs| < c.limit;
  }

  // ------------------------------------------------------------------ conservation

  ghost function RunsOf(rows: Table, campaign: nat): set<nat> {
    set r | r in rows && rows[r].campaign == campaign
  }

  ghost function Total(rows: Table, campaign: nat): nat {
    |RunsOf(rows, campaign)|
  }

  ghost function InState(rows: Table, campaign: nat, state: RunState): set<nat> {
    set r | r in rows && rows[r].campaign == campaign && rows[r].state == state
  }

  ghost function Executed(rows: Table, campaign: nat): nat {
    |InState(rows, campaign, Processed)|
  }

  lemma ExecutedAtMostTotal(rows: Table, campaign: nat)
    ensures Executed(rows, campaign) <= Total(rows, campaign)
  {
    SubsetSize(InState(rows, campaign, Processed), RunsOf(rows, campaign));
  }

  lemma {:induction false} SubsetSize(a: set<nat>, b: set<nat>)
    requires a <= b
    ensures |a| <= |b|
  {
    if a == {} {
    } else {
      var x :| x in a;
      SubsetSize(a - {x}, b - {x});
    }
  }

  lemma ProcessedUnchanged(db: Db, e: Event, db': Db, r: nat)
    requires Inv(db) && Step(db, e, db') && !e.Finish?
    ensures (r in db'.rows && db'.rows[r].state == Processed) <==> (r in db.rows && db.rows[r].state == Processed)
    ensures r in db.rows ==> r in db'.rows && db'.rows[r].campaign == db.rows[r].campaign
  {
    if e.Commit? {
      assert ClaimInv(db.rows, db.claims[e.claim]);
    }
  }

  lemma CampaignUnchanged(db: Db, e: Event, db': Db, r: nat)
    requires Step(db, e, db')
    ensures r in db.rows ==> r in db'.rows && db'.rows[r].campaign == db.rows[r].campaign
    ensures r in db'.rows && r !in db.rows ==> e.Enqueue? && e.run == r && db'.rows[r] == e.row
  {}

  /** No step but an enqueue changes a campaign's total. */
  lemma StepConservesTotal(db: Db, e: Event, db': Db, campaign: nat)
    requires Inv(db) && Step(db, e, db')
    ensures Total(db'.rows, campaign) ==
            Total(db.rows, campaign) + (if e.Enqueue? && e.row.campaign == campaign then 1 else 0)
  {
    if e.Enqueue? {
      EnqueueAddsOne(db.rows, e.run, e.row, campaign);
    } else {
      forall r ensures (r in db'.rows <==> r in db.rows) &&
        (r in db.rows ==> db'.rows[r].campaign == db.rows[r].campaign) {
        CampaignUnchanged(db, e, db', r);
      }
      assert RunsOf(db'.rows, campaign) == RunsOf(db.rows, campaign);
    }
  }

  lemma EnqueueAddsOne(rows: Table, run: nat, row: QueuedRun, campaign: nat)
    requires run !in rows
    ensures Total(rows[run := row], campaign) == Total(rows, campaign) + if row.campaign == campaign then 1 else 0
  {
    var before, after := RunsOf(rows, campaign), RunsOf(rows[run := row], campaign);
    assert after == before + if row.campaign == campaign then {run} else {};
  }

  /** No step but a completion changes what has been executed. */
  lemma StepConservesExecuted(db: Db, e: Event, db': Db, campaign: nat)
    requires Inv(db) && Step(db, e, db') && !e.Finish?
    ensures Executed(db'.rows, campaign) == Executed(db.rows, campaign)
  {
    var before, after := InState(db.rows, campaign, Processed), InState(db'.rows, campaign, Processed);
    forall r ensures r in after <==> r in before {
      ProcessedUnchanged(db, e, db', r);
    }
    assert after == before;
  }
}
