/** Durable webhook deliveries: created once per run and node, claimed under a lease, and
    reported without a fence (`api/db/webhook_delivery_client.py:22-217`,
    `api/tasks/webhook_delivery.py:195-230,242-383`). */
module WebhookDeliveries {
  import opened Optional

  datatype Status = Pending | Succeeded | DeadLetter

  /** `scheduledFor` is null once the delivery is terminal. */
  datatype Delivery = Delivery(run: nat, node: string, status: Status, attempts: nat, maxAttempts: nat,
                               scheduledFor: Option<int>)

  type Table = map<nat, Delivery>

  // ------------------------------------------------------------------- statements

  predicate Claimable(d: Delivery, now: int) {
    d.status == Pending && (d.scheduledFor.None? || d.scheduledFor.value <= now)
  }

  function Leased(d: Delivery, until: int): Delivery {
    d.(scheduledFor := Some(until))
  }

  /** The three reports; none of them looks at the row's state. */
  function SucceededAt(d: Delivery, attempt: nat): Delivery {
    d.(status := Succeeded, attempts := attempt, scheduledFor := None)
  }

  function RetryAt(d: Delivery, attempt: nat, due: int): Delivery {
    d.(status := Pending, attempts := attempt, scheduledFor := Some(due))
  }

  function DeadAt(d: Delivery, attempt: nat): Delivery {
    d.(status := DeadLetter, attempts := attempt, scheduledFor := None)
  }

  datatype Created = Created(id: nat, isNew: bool) | NoRun | NoOrganization | WrongOrganization

  predicate SameKey(d: Delivery, run: nat, node: string) {
    d.run == run && d.node == node
  }

  /** No two rows are for one run and node. */
  ghost predicate UniqueKeys(rows: Table) {
    forall i, j :: i in rows && j in rows && i != j ==> !SameKey(rows[i], rows[j].run, rows[j].node)
  }

  class DeliveryTable {
    var rows: Table
    /** The organization of each workflow run, if it has one. */
    var runs: map<nat, Option<nat>>
    var nextId: nat

    ghost predicate Valid()
      reads this
    {
      UniqueKeys(rows) && forall i :: i in rows ==> i < nextId
    }

    /** Get or create: a row for this run and node is returned as it is, never replaced. */
    method CreateWebhookDelivery(run: nat, organization: nat, node: string, maxAttempts: nat, scheduledFor: int)
      returns (r: Created)
      requires Valid()
      modifies this
      ensures Valid() && runs == old(runs)
      ensures r.NoRun? <==> run !in runs
      ensures r.NoOrganization? <==> run in runs && runs[run].None?
      ensures r.WrongOrganization? <==> run in runs && runs[run].Some? && runs[run].value != organization
      ensures r.Created? ==> r.id in rows && SameKey(rows[r.id], run, node)
      ensures r.Created? ==> (r.isNew <==> forall i :: i in old(rows) ==> !SameKey(old(rows)[i], run, node))
      ensures if r.Created? && r.isNew
              then r.id !in old(rows) &&
                rows == old(rows)[r.id := Delivery(run, node, Pending, 0, maxAttempts, Some(scheduledFor))]
              else rows == old(rows)
    {
      if run !in runs {
        return NoRun;
      }
      if runs[run].None? {
        return NoOrganization;
      }
      if runs[run].value != organization {
        return WrongOrganization;
      }
      // the insert, and the unique constraint that may refuse it
      if i :| i in rows && SameKey(rows[i], run, node) {
        return Created(i, false);
      }
      r := Created(nextId, true);
      rows := rows[nextId := Delivery(run, node, Pending, 0, maxAttempts, Some(scheduledFor))];
      nextId := nextId + 1;
    }

    /** The conditional UPDATE of a claim, and its commit. */
    method LeaseDelivery(id: nat, leaseSeconds: nat, now: int) returns (leased: bool)
      modifies this`rows
      ensures leased <==> id in old(rows) && Claimable(old(rows)[id], now)
      ensures rows == if leased then old(rows)[id := Leased(old(rows)[id], now + leaseSeconds)] else old(rows)
    {
      if id !in rows || rows[id].status != Pending {
        return false;
      }
      if rows[id].scheduledFor.Some? && rows[id].scheduledFor.value > now {
        return false;
      }
      rows := rows[id := rows[id].(scheduledFor := Some(now + leaseSeconds))];
      leased := true;
    }

    /** The SELECT that follows in a transaction of its own; it looks for the key alone. */
    method FetchDelivery(id: nat) returns (r: Option<Delivery>)
      ensures r == if id in rows then Some(rows[id]) else None
    {
      r := if id in rows then Some(rows[id]) else None;
    }

    /** A claim that nothing comes between. */
    method ClaimWebhookDelivery(id: nat, leaseSeconds: nat, now: int) returns (r: Option<Delivery>)
      modifies this`rows
      ensures r == if id in old(rows) && Claimable(old(rows)[id], now)
                   then Some(Leased(old(rows)[id], now + leaseSeconds)) else None
      ensures rows == if r.Some? then old(rows)[id := r.value] else old(rows)
    {
      var leased := LeaseDelivery(id, leaseSeconds, now);
      if !leased {
        return None;
      }
      r := FetchDelivery(id);
    }
  }

  // --------------------------------------------------------- one delivery, many workers

  /** What the attempt came to. */
  datatype Result = Accepted | Transient(delay: nat) | Permanent

  /** A worker's claim that has not reported yet; the attempt has its number once the worker
      has fetched the row. */
  datatype Attempt = Attempt(number: Option<nat>, until: int)

  datatype State = State(row: Delivery, open: map<nat, Attempt>, time: int)

  /** Workers claim, fetch the row they claimed, report, or die; each event carries the time it
      happens. The claim's UPDATE and the fetch are two transactions. */
  datatype Event =
    | Claim(worker: nat, lease: nat, at: int)
    | Fetch(worker: nat, at: int)
    | Report(worker: nat, result: Result, at: int)
    | Crash(worker: nat, at: int)

  /** How `deliver_webhook` records a result. */
  function Recorded(d: Delivery, attempt: nat, result: Result, at: int): Delivery {
    match result
    case Accepted => SucceededAt(d, attempt)
    case Transient(delay) => if attempt >= d.maxAttempts then DeadAt(d, attempt) else RetryAt(d, attempt, at + delay)
    case Permanent => DeadAt(d, attempt)
  }

  predicate Claims(state: State, e: Event) {
    e.Claim? && e.worker !in state.open && Claimable(state.row, e.at)
  }

  /** The worker has claimed and goes on to send; the fetch does not look at the status. */
  predicate Fetches(state: State, e: Event) {
    e.Fetch? && e.worker in state.open && state.open[e.worker].number.None?
  }

  predicate Reports(state: State, e: Event) {
    e.Report? && e.worker in state.open && state.open[e.worker].number.Some?
  }

  function Step(state: State, e: Event): State {
    var later := state.(time := e.at);
    match e
    case Claim(worker, lease, at) =>
      if Claims(state, e)
      then later.(row := Leased(state.row, at + lease), open := state.open[worker := Attempt(None, at + lease)])
      else later
    case Fetch(worker, _) =>
      if Fetches(state, e)
      then later.(open := state.open[worker := state.open[worker].(number := Some(state.row.attempts + 1))])
      else later
    case Report(worker, result, at) =>
      if Reports(state, e)
      then later.(row := Recorded(state.row, state.open[worker].number.value, result, at),
                  open := state.open - {worker})
      else later
    case Crash(worker, _) => later.(open := state.open - {worker})
  }

  function Run(start: State, events: seq<Event>): State {
    if events == [] then start else Step(Run(start, events[..|events| - 1]), events[|events| - 1])
  }

  lemma RunSnoc(start: State, events: seq<Event>, e: Event)
    ensures Run(start, events + [e]) == Step(Run(start, events), e)
  {
    assert (events + [e])[..|events|] == events;
  }

  predicate Fresh(start: State) {
    && start.row.status == Pending && start.row.attempts == 0 && start.row.maxAttempts > 0
    && start.open == map[]
  }

  /** The event is not in the past, and no report of a worker that outlived its lease. */
  predicate InTime(state: State, e: Event) {
    && state.time <= e.at
    && (Reports(state, e) ==> e.at < state.open[e.worker].until)
  }

  /** The clock does not run backwards, and a worker that outlived its lease does not report. */
  predicate Prompt(start: State, events: seq<Event>) {
    events == [] ||
    var prefix := events[..|events| - 1];
    Prompt(start, prefix) && InTime(Run(start, prefix), events[|events| - 1])
  }

  /** The worker's lease has not expired. */
  predicate Live(state: State, worker: nat) {
    worker in state.open && state.time < state.open[worker].until
  }

  /** A live attempt is the only one, is the next to be counted, and its lease is what keeps
      the row from being claimed. */
  ghost predicate LeaseInv(state: State) {
    && (forall w :: Live(state, w) ==>
                      && state.row.status == Pending
                      && state.row.scheduledFor == Some(state.open[w].until)
                      && (state.open[w].number.None? || state.open[w].number == Some(state.row.attempts + 1)))
    && (forall v, w :: Live(state, v) && Live(state, w) ==> v == w)
  }

  lemma StepKeepsLease(state: State, e: Event)
    requires LeaseInv(state) && InTime(state, e)
    ensures LeaseInv(Step(state, e))
  {
    var after := Step(state, e);
    if Claims(state, e) {
      assert forall w :: Live(state, w) ==> state.open[w].until <= e.at;
    } else if Reports(state, e) {
      assert Live(state, e.worker);
      assert forall w :: Live(after, w) ==> Live(state, w) && w != e.worker;
    } else {
      assert forall w :: Live(after, w) ==> Live(state, w);
    }
  }

  lemma {:induction false} PromptKeepsLease(start: State, events: seq<Event>)
    requires Fresh(start) && Prompt(start, events)
    ensures LeaseInv(Run(start, events))
  {
    if events == [] {
    } else {
      var prefix := events[..|events| - 1];
      PromptKeepsLease(start, prefix);
      StepKeepsLease(Run(start, prefix), events[|events| - 1]);
    }
  }

  /** With prompt workers no two attempts are in flight at once: a claim succeeds only when
      every earlier lease has run out. */
  lemma OneAttemptInFlight(start: State, events: seq<Event>, e: Event, w: nat)
    requires Fresh(start) && Prompt(start, events + [e]) && Claims(Run(start, events), e)
    ensures w in Run(start, events).open ==> Run(start, events).open[w].until <= e.at
  {
    assert (events + [e])[..|events|] == events;
    PromptKeepsLease(start, events);
    var state := Run(start, events);
    if w in state.open && e.at < state.open[w].until {
      assert Live(state, w);
      assert false;
    }
  }

  /** With prompt workers a terminal row never changes again. */
  lemma {:induction false} TerminalIsFinal(start: State, events: seq<Event>, more: seq<Event>)
    requires Fresh(start) && Prompt(start, events + more) && Run(start, events).row.status != Pending
    ensures Run(start, events + more).row == Run(start, events).row
  {
    if more == [] {
      assert events + more == events;
    } else {
      var n := |more| - 1;
      assert (events + more)[..|events + more| - 1] == events + more[..n];
      TerminalIsFinal(start, events, more[..n]);
      PromptKeepsLease(start, events + more[..n]);
      TerminalStep(Run(start, events + more[..n]), more[n]);
    }
  }

  lemma TerminalStep(state: State, e: Event)
    requires LeaseInv(state) && state.row.status != Pending && InTime(state, e)
    ensures Step(state, e).row == state.row
  {
    if Reports(state, e) {
      assert Live(state, e.worker);
      assert false;
    }
  }

  // ------------------------------------------- what changes a terminal row otherwise

  /** The open claims after some events that leave the terminal row as it is: nobody can claim,
      and whoever fetches now gets the number after the row's. */
  function OpenAfter(terminal: State, more: seq<Event>): map<nat, Attempt> {
    if more == [] then terminal.open
    else
      var open, e := OpenAfter(terminal, more[..|more| - 1]), more[|more| - 1];
      if e.worker !in open || e.Claim? then open
      else if e.Fetch? && open[e.worker].number.None? then
        open[e.worker := open[e.worker].(number := Some(terminal.row.attempts + 1))]
      else if e.Crash? || (e.Report? && open[e.worker].number.Some?) then open - {e.worker}
      else open
  }

  /** Event `k` is a report, by a worker whose claim was open when the row turned terminal and
      that has neither reported nor died since, of anything but what the row already says. */
  ghost predicate ReportsOtherwise(terminal: State, more: seq<Event>, k: nat)
    requires k < |more|
  {
    var open, e := OpenAfter(terminal, more[..k]), more[k];
    && e.Report? && e.worker in open && open[e.worker].number.Some?
    && Recorded(terminal.row, open[e.worker].number.value, e.result, e.at) != terminal.row
  }

  ghost predicate EverChanges(terminal: State, more: seq<Event>) {
    exists k :: 0 <= k <= |more| && Run(terminal, more[..k]).row != terminal.row
  }

  lemma ChangesSnoc(terminal: State, more: seq<Event>, e: Event)
    ensures EverChanges(terminal, more + [e]) <==>
            EverChanges(terminal, more) || Run(terminal, more + [e]).row != terminal.row
  {
    var all := more + [e];
    forall k | 0 <= k <= |more| ensures Run(terminal, more[..k]) == Run(terminal, all[..k]) {
      assert more[..k] == all[..k];
    }
    assert all[..|all|] == all;
  }

  /** While the row stays as it was, these are indeed the open claims. */
  lemma {:induction false} OpenSince(terminal: State, more: seq<Event>)
    requires terminal.row.status != Pending && !EverChanges(terminal, more)
    ensures Run(terminal, more).row == terminal.row && Run(terminal, more).open == OpenAfter(terminal, more)
  {
    if more == [] {
      assert Run(terminal, more[..0]) == terminal;
    } else {
      var before, last := more[..|more| - 1], more[|more| - 1];
      assert more == before + [last];
      ChangesSnoc(terminal, before, last);
      OpenSince(terminal, before);
    }
  }

  ghost predicate SomeReportsOtherwise(terminal: State, more: seq<Event>) {
    exists k :: 0 <= k < |more| && ReportsOtherwise(terminal, more, k)
  }

  lemma ReportsSnoc(terminal: State, more: seq<Event>, e: Event)
    ensures SomeReportsOtherwise(terminal, more + [e]) <==>
            SomeReportsOtherwise(terminal, more) || ReportsOtherwise(terminal, more + [e], |more|)
  {
    var all := more + [e];
    forall k | 0 <= k < |more| ensures ReportsOtherwise(terminal, more, k) <==> ReportsOtherwise(terminal, all, k) {
      assert more[..k] == all[..k];
    }
  }

  /** Terminal in every run, prompt or not: a succeeded or dead-lettered row changes later if
      and only if a worker whose claim was still open then makes a differing report. */
  lemma {:induction false} TerminalChangesIff(terminal: State, more: seq<Event>)
    requires terminal.row.status != Pending
    ensures EverChanges(terminal, more) <==> SomeReportsOtherwise(terminal, more)
    decreases |more|
  {
    if more == [] {
      assert Run(terminal, more[..0]) == terminal;
    } else {
      var before, last := more[..|more| - 1], more[|more| - 1];
      assert more == before + [last];
      TerminalChangesIff(terminal, before);
      ChangesSnoc(terminal, before, last);
      ReportsSnoc(terminal, before, last);
      if !EverChanges(terminal, before) {
        OpenSince(terminal, before);
      }
    }
  }

  /** Without promptness it happens: the first worker outlives its lease, the second one's
      report ends the delivery, as a success or a dead letter, and the first one's late failure
      makes it pending again. */
  lemma LateReportRevives(start: State, lease: nat, ending: Result, delay: nat)
    requires Fresh(start) && start.row.scheduledFor == Some(0) && start.row.maxAttempts > 1
    requires ending.Accepted? || ending.Permanent?
    ensures var events := [Claim(1, lease, 0), Fetch(1, 0), Claim(2, lease, lease), Fetch(2, lease)]
                          + [Report(2, ending, lease)];
            && Run(start, events).row.status == (if ending.Accepted? then Succeeded else DeadLetter)
            && Run(start, events + [Report(1, Transient(delay), lease)]).row.status == Pending
  {
    var a, b, c, d := Claim(1, lease, 0), Fetch(1, 0), Claim(2, lease, lease), Fetch(2, lease);
    TwoSend(start, lease);
    var both := [a, b, c, d];
    RunSnoc(start, both, Report(2, ending, lease));
    RunSnoc(start, both + [Report(2, ending, lease)], Report(1, Transient(delay), lease));
  }

  lemma TwoSend(start: State, lease: nat)
    requires Fresh(start) && start.row.scheduledFor == Some(0)
    ensures Run(start, [Claim(1, lease, 0), Fetch(1, 0), Claim(2, lease, lease), Fetch(2, lease)])
            == State(Leased(start.row, lease + lease),
                     map[1 := Attempt(Some(1), lease), 2 := Attempt(Some(1), lease + lease)], lease)
  {
    var a, b, c, d := Claim(1, lease, 0), Fetch(1, 0), Claim(2, lease, lease), Fetch(2, lease);
    RunFour(start, a, b, c, d);
    var first := State(Leased(start.row, lease), map[1 := Attempt(Some(1), lease)], 0);
    assert Step(Step(start, a), b) == first;
    assert Step(first, c) == State(Leased(start.row, lease + lease),
                                   map[1 := Attempt(Some(1), lease), 2 := Attempt(None, lease + lease)], lease);
  }

  lemma RunFour(start: State, a: Event, b: Event, c: Event, d: Event)
    ensures Run(start, [a, b, c, d]) == Step(Step(Step(Step(start, a), b), c), d)
  {
    RunSnoc(start, [], a);
    RunSnoc(start, [] + [a], b);
    RunSnoc(start, [] + [a] + [b], c);
    RunSnoc(start, [] + [a] + [b] + [c], d);
    assert [] + [a] + [b] + [c] + [d] == [a, b, c, d];
  }

  // -------------------------------------------------------------------- attempts

  /** A delivery that is still pending has attempts left. */
  predicate AttemptsLeft(row: Delivery) {
    row.status == Pending ==> row.attempts < row.maxAttempts
  }

  /** In every run, prompt or not, a delivery that reached its maximum is not pending. */
  lemma {:induction false} PendingHasAttemptsLeft(start: State, events: seq<Event>)
    requires Fresh(start)
    ensures AttemptsLeft(Run(start, events).row) && Run(start, events).row.maxAttempts == start.row.maxAttempts
  {
    if events == [] {
    } else {
      PendingHasAttemptsLeft(start, events[..|events| - 1]);
    }
  }

  /** In no state of the run are there more recorded attempts than the maximum. */
  predicate StaysWithin(start: State, events: seq<Event>) {
    && Run(start, events).row.attempts <= start.row.maxAttempts
    && (events != [] ==> StaysWithin(start, events[..|events| - 1]))
  }

  /** Event `k` reports an attempt that has a number above the maximum. */
  predicate ReportsExcess(start: State, events: seq<Event>, k: nat)
    requires k < |events|
  {
    var state, e := Run(start, events[..k]), events[k];
    Reports(state, e) && state.open[e.worker].number.value > start.row.maxAttempts
  }

  /** The recorded attempts stay within `max_attempts` throughout a run if and only if nobody
      reports an attempt with a number above it. */
  lemma {:induction false} AttemptsAreBoundedIff(start: State, events: seq<Event>)
    requires Fresh(start)
    ensures StaysWithin(start, events) <==> forall k :: 0 <= k < |events| ==> !ReportsExcess(start, events, k)
  {
    if events == [] {
    } else {
      var n := |events| - 1;
      AttemptsAreBoundedIff(start, events[..n]);
      assert forall k :: 0 <= k < n ==> events[..n][..k] == events[..k];
      assert forall k :: 0 <= k < n ==> ReportsExcess(start, events[..n], k) == ReportsExcess(start, events, k);
      assert ReportsExcess(start, events, n) ==> !StaysWithin(start, events);
    }
  }

  /** Every fetch finds the row as its claim left it, still pending. */
  ghost predicate FetchesPending(start: State, events: seq<Event>) {
    forall k :: 0 <= k < |events| && Fetches(Run(start, events[..k]), events[k]) ==>
                  Run(start, events[..k]).row.status == Pending
  }

  ghost predicate NumbersWithin(state: State) {
    forall w :: w in state.open && state.open[w].number.Some? ==>
                  state.open[w].number.value <= state.row.maxAttempts
  }

  /** So they do when every fetch still finds the row pending, however late the reports are. */
  lemma {:induction false} AttemptsAreBounded(start: State, events: seq<Event>)
    requires Fresh(start) && FetchesPending(start, events)
    ensures StaysWithin(start, events) && NumbersWithin(Run(start, events))
  {
    if events == [] {
    } else {
      var n := |events| - 1;
      var prefix := events[..n];
      assert forall k :: 0 <= k < n ==> prefix[..k] == events[..k] && prefix[k] == events[k];
      AttemptsAreBounded(start, prefix);
      PendingHasAttemptsLeft(start, prefix);
      StepKeepsNumbers(Run(start, prefix), events[n]);
    }
  }

  lemma StepKeepsNumbers(state: State, e: Event)
    requires NumbersWithin(state) && AttemptsLeft(state.row) && state.row.attempts <= state.row.maxAttempts
    requires Fetches(state, e) ==> state.row.status == Pending
    ensures NumbersWithin(Step(state, e)) && Step(state, e).row.attempts <= state.row.maxAttempts
  {}

  /** And so they do with prompt workers, who report only what they fetched under their lease. */
  lemma {:induction false} PromptStaysWithin(start: State, events: seq<Event>)
    requires Fresh(start) && Prompt(start, events)
    ensures StaysWithin(start, events)
  {
    if events == [] {
    } else {
      var prefix, e := events[..|events| - 1], events[|events| - 1];
      PromptStaysWithin(start, prefix);
      PromptKeepsLease(start, prefix);
      PendingHasAttemptsLeft(start, prefix);
      assert Reports(Run(start, prefix), e) ==> Live(Run(start, prefix), e.worker);
    }
  }

  /** Otherwise it happens: the first worker's late failure uses up the one attempt between the
      second one's claim and its fetch, which then counts on from it, so that a dead letter is
      sent once more and records two attempts of one. */
  lemma LateFetchExceedsMaximum(start: State, lease: nat, delay: nat, result: Result)
    requires Fresh(start) && start.row.scheduledFor == Some(0) && start.row.maxAttempts == 1
    ensures var claims := [Claim(1, lease, 0), Fetch(1, 0), Claim(2, lease, lease), Report(1, Transient(delay), lease)];
            && Run(start, claims).row.status == DeadLetter && Run(start, claims).row.attempts == 1
            && Run(start, claims + [Fetch(2, lease)] + [Report(2, result, lease)]).row.attempts == 2
  {
    var a, b, c, d := Claim(1, lease, 0), Fetch(1, 0), Claim(2, lease, lease), Report(1, Transient(delay), lease);
    RunFour(start, a, b, c, d);
    assert Run(start, [a, b, c, d])
           == State(DeadAt(start.row, 1), map[2 := Attempt(None, lease + lease)], lease);
    RunSnoc(start, [a, b, c, d], Fetch(2, lease));
    RunSnoc(start, [a, b, c, d] + [Fetch(2, lease)], Report(2, result, lease));
  }

  // -------------------------------------------------------------------- requests

  /** How often a worker went on from its fetch to send a request. */
  function Sends(start: State, events: seq<Event>): nat {
    if events == [] then 0
    else
      var prefix := events[..|events| - 1];
      Sends(start, prefix) + if Fetches(Run(start, prefix), events[|events| - 1]) then 1 else 0
  }

  /** Workers that have sent, or are about to, and have not reported. */
  function Sending(state: State): set<nat> {
    set w | w in state.open && state.open[w].number.Some?
  }

  /** How many workers died after their fetch. */
  function Lost(start: State, events: seq<Event>): nat {
    if events == [] then 0
    else
      var prefix, e := events[..|events| - 1], events[|events| - 1];
      Lost(start, prefix) + if e.Crash? && e.worker in Sending(Run(start, prefix)) then 1 else 0
  }

  /** With prompt workers every request sent is a recorded attempt, one lost with its worker,
      or one still to be reported. */
  lemma {:induction false} SendsAreAccounted(start: State, events: seq<Event>)
    requires Fresh(start) && Prompt(start, events)
    ensures var state := Run(start, events);
            Sends(start, events) == state.row.attempts + Lost(start, events) + |Sending(state)|
  {
    if events == [] {
      assert Sending(start) == {};
    } else {
      var prefix, e := events[..|events| - 1], events[|events| - 1];
      SendsAreAccounted(start, prefix);
      PromptKeepsLease(start, prefix);
      StepAccounts(Run(start, prefix), e);
    }
  }

  lemma SendingAfter(state: State, e: Event)
    ensures Sending(Step(state, e)) == if Fetches(state, e) then Sending(state) + {e.worker}
                                       else if e.Report? || e.Crash? then Sending(state) - {e.worker}
                                       else Sending(state)
  {}

  lemma AttemptsAfter(state: State, e: Event)
    requires LeaseInv(state) && InTime(state, e)
    ensures Step(state, e).row.attempts == state.row.attempts + if Reports(state, e) then 1 else 0
  {
    if Reports(state, e) {
      assert Live(state, e.worker);
    }
  }

  lemma StepAccounts(state: State, e: Event)
    requires LeaseInv(state) && InTime(state, e)
    ensures var after := Step(state, e);
            after.row.attempts + |Sending(after)| + (if e.Crash? && e.worker in Sending(state) then 1 else 0)
            == state.row.attempts + |Sending(state)| + (if Fetches(state, e) then 1 else 0)
  {
    SendingAfter(state, e);
    AttemptsAfter(state, e);
  }

  /** Senders that have not reported although their lease has run out. */
  function Overdue(state: State): set<nat> {
    set w | w in Sending(state) && !Live(state, w)
  }

  /** The attempt ceiling on requests: with prompt workers they exceed `max_attempts` by no
      more than those that were lost or are overdue, so not at all when there are none; and
      with nobody sending, they stay within it if and only if the recorded attempts and the
      lost requests together do. */
  lemma {:induction false} SendsStayWithin(start: State, events: seq<Event>)
    requires Fresh(start) && Prompt(start, events)
    ensures var state, max := Run(start, events), start.row.maxAttempts;
            && Sends(start, events) <= max + Lost(start, events) + |Overdue(state)|
            && (Lost(start, events) == 0 && Overdue(state) == {} ==> Sends(start, events) <= max)
            && (Sending(state) == {} ==>
               (Sends(start, events) <= max <==> state.row.attempts + Lost(start, events) <= max))
  {
    SendsAreAccounted(start, events);
    PromptKeepsLease(start, events);
    PromptStaysWithin(start, events);
    PendingHasAttemptsLeft(start, events);
    var state := Run(start, events);
    if w :| w in Sending(state) && Live(state, w) {
      assert Sending(state) == Overdue(state) + {w};
    } else {
      assert Sending(state) == Overdue(state);
    }
  }

  /** But workers that die before they report are not counted: the number of requests sent has
      no bound. */
  lemma {:induction false} CrashesAreNotCounted(start: State, lease: nat, n: nat) returns (events: seq<Event>)
    requires Fresh(start) && start.row.scheduledFor == Some(0)
    ensures Sends(start, events) == n && Run(start, events).row.attempts == 0
    ensures Run(start, events).open == map[] && Claimable(Run(start, events).row, n * lease)
  {
    if n == 0 {
      events := [];
    } else {
      var before := CrashesAreNotCounted(start, lease, n - 1);
      var at := (n - 1) * lease;
      assert at + lease == n * lease;
      var claimed := before + [Claim(n, lease, at)];
      var fetched := claimed + [Fetch(n, at)];
      events := fetched + [Crash(n, at)];
      RunSnoc(start, before, Claim(n, lease, at));
      RunSnoc(start, claimed, Fetch(n, at));
      RunSnoc(start, fetched, Crash(n, at));
      SendsSnoc(start, before, Claim(n, lease, at));
      SendsSnoc(start, claimed, Fetch(n, at));
      SendsSnoc(start, fetched, Crash(n, at));
    }
  }

  lemma SendsSnoc(start: State, events: seq<Event>, e: Event)
    ensures Sends(start, events + [e]) == Sends(start, events) + if Fetches(Run(start, events), e) then 1 else 0
  {
    assert (events + [e])[..|events|] == events;
  }
}
