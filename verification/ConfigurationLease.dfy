/** The fenced lease over one configuration key of an organization: claimed by an insert or, in
    a second commit, by taking over a stale row; completed or released by its owner token
    (`api/db/organization_configuration_client.py:110-218`). */
module ConfigurationLease {
  import opened Optional

  type Token = string

  datatype Key = Key(organization: nat, name: string)

  datatype Value = Pending(owner: Token) | Completed

  datatype Row = Row(value: Value, updatedAt: int)

  type Table = map<Key, Row>

  // ------------------------------------------------------------- the statements

  predicate Held(rows: Table, key: Key, token: Token) {
    key in rows && rows[key].value == Pending(token)
  }

  /** A pending row may be taken over once it is older than `stale_after`. */
  predicate Stale(rows: Table, key: Key, now: int, staleAfter: nat) {
    key in rows && rows[key].value.Pending? && rows[key].updatedAt < now - staleAfter
  }

  /** What each statement leaves in the table. */
  function Inserted(rows: Table, key: Key, token: Token, now: int): Table {
    if key in rows then rows else rows[key := Row(Pending(token), now)]
  }

  function TakenOver(rows: Table, key: Key, token: Token, now: int, staleAfter: nat): Table {
    if Stale(rows, key, now, staleAfter) then rows[key := Row(Pending(token), now)] else rows
  }

  function Closed(rows: Table, key: Key, token: Token, at: int): Table {
    if Held(rows, key, token) then rows[key := Row(Completed, at)] else rows
  }

  function Dropped(rows: Table, key: Key, token: Token): Table {
    if Held(rows, key, token) then rows - {key} else rows
  }

  class ConfigurationTable {
    var rows: Table

    /** `INSERT ... ON CONFLICT DO NOTHING`. */
    method InsertClaim(key: Key, token: Token, now: int) returns (count: nat)
      modifies this
      ensures rows == Inserted(old(rows), key, token, now)
      ensures count == if key in old(rows) then 0 else 1
    {
      if key in rows {
        return 0;
      }
      rows := rows[key := Row(Pending(token), now)];
      count := 1;
    }

    method TakeOver(key: Key, token: Token, now: int, staleAfter: nat) returns (count: nat)
      modifies this
      ensures rows == TakenOver(old(rows), key, token, now, staleAfter)
      ensures count == if Stale(old(rows), key, now, staleAfter) then 1 else 0
    {
      count := 0;
      if key in rows && rows[key].value.Pending? && rows[key].updatedAt < now - staleAfter {
        rows := rows[key := Row(Pending(token), now)];
        count := 1;
      }
    }

    /** A claim that nothing interrupts wins exactly when the key is free or stale. */
    method ClaimConfigurationLease(key: Key, staleAfter: nat, now: int, token: Token) returns (r: Option<Token>)
      modifies this
      ensures r == if key !in old(rows) || Stale(old(rows), key, now, staleAfter) then Some(token) else None
      ensures rows == if r.Some? then old(rows)[key := Row(Pending(token), now)] else old(rows)
    {
      var count := InsertClaim(key, token, now);
      if count > 0 {
        return Some(token);
      }
      count := TakeOver(key, token, now, staleAfter);
      r := if count > 0 then Some(token) else None;
    }

    method CompleteConfigurationLease(key: Key, token: Token, at: int)
      modifies this
      ensures rows == Closed(old(rows), key, token, at)
    {
      if key in rows && rows[key].value == Pending(token) {
        rows := rows[key := Row(Completed, at)];
      }
    }

    method ReleaseConfigurationLease(key: Key, token: Token)
      modifies this
      ensures rows == Dropped(old(rows), key, token)
    {
      if key in rows && rows[key].value == Pending(token) {
        rows := rows - {key};
      }
    }
  }

  // --------------------------------------------------------------- interleavings

  datatype Phase = Inserting | TakingOver | Won | Lost

  /** A claim in progress, with the time it read when it began. */
  datatype Call = Call(key: Key, now: int, staleAfter: nat, phase: Phase)

  datatype State = State(rows: Table, calls: map<Token, Call>)

  /** One committed statement, or the start of a claim, which draws a fresh token. */
  datatype Event =
    | Begin(token: Token, key: Key, now: int, staleAfter: nat)
    | Insert(token: Token)
    | Takeover(token: Token)
    | Complete(key: Key, token: Token, at: int)
    | Release(key: Key, token: Token)

  predicate At(state: State, token: Token, phase: Phase) {
    token in state.calls && state.calls[token].phase == phase
  }

  function Moved(state: State, token: Token, phase: Phase, rows: Table): State
    requires token in state.calls
  {
    State(rows, state.calls[token := state.calls[token].(phase := phase)])
  }

  function Step(state: State, e: Event): State {
    match e
    case Begin(token, key, now, staleAfter) =>
      if token in state.calls then state
      else state.(calls := state.calls[token := Call(key, now, staleAfter, Inserting)])
    case Insert(token) =>
      if !At(state, token, Inserting) then state
      else
        var c := state.calls[token];
        Moved(state, token, if c.key in state.rows then TakingOver else Won, Inserted(state.rows, c.key, token, c.now))
    case Takeover(token) =>
      if !At(state, token, TakingOver) then state
      else
        var c := state.calls[token];
        Moved(state, token, if Stale(state.rows, c.key, c.now, c.staleAfter) then Won else Lost,
              TakenOver(state.rows, c.key, token, c.now, c.staleAfter))
    case Complete(key, token, at) => state.(rows := Closed(state.rows, key, token, at))
    case Release(key, token) => state.(rows := Dropped(state.rows, key, token))
  }

  /** Any interleaving of any number of claims, completions and releases. */
  function Run(events: seq<Event>): State {
    if events == [] then State(map[], map[])
    else Step(Run(events[..|events| - 1]), events[|events| - 1])
  }

  lemma RunSnoc(events: seq<Event>, e: Event)
    ensures Run(events + [e]) == Step(Run(events), e)
  {
    assert (events + [e])[..|events|] == events;
  }

  // ------------------------------------------------------------------- histories

  /** The claim that this event makes succeed on the key, if any. */
  function Claims(state: State, e: Event, key: Key): Option<Token> {
    if && (e.Insert? || e.Takeover?)
       && At(state, e.token, if e.Insert? then Inserting else TakingOver)
       && At(Step(state, e), e.token, Won)
       && state.calls[e.token].key == key
    then Some(e.token) else None
  }

  predicate Releases(state: State, e: Event, key: Key) {
    e.Release? && e.key == key && Held(state.rows, key, e.token)
  }

  predicate Completes(state: State, e: Event, key: Key) {
    e.Complete? && e.key == key && Held(state.rows, key, e.token)
  }

  /** The claims that succeeded on the key since it was last free, in order. */
  function Holders(events: seq<Event>, key: Key): seq<Token> {
    if events == [] then []
    else
      var prefix, e := events[..|events| - 1], events[|events| - 1];
      var state := Run(prefix);
      var claim := Claims(state, e, key);
      if claim.Some? then Holders(prefix, key) + [claim.value]
      else if Releases(state, e, key) then []
      else Holders(prefix, key)
  }

  /** How many completions have taken effect on the key. */
  function Completions(events: seq<Event>, key: Key): nat {
    if events == [] then 0
    else
      var prefix, e := events[..|events| - 1], events[|events| - 1];
      Completions(prefix, key) + if Completes(Run(prefix), e, key) then 1 else 0
  }

  // -------------------------------------------------------------------- theorems

  /** Successive holders took over more than the later one's `stale_after` apart. */
  predicate Spaced(holders: seq<Token>, calls: map<Token, Call>) {
    && (forall i :: 0 <= i < |holders| ==> holders[i] in calls && calls[holders[i]].phase == Won)
    && (forall i, j :: 0 <= i < j < |holders| ==>
                         calls[holders[i]].now + calls[holders[j]].staleAfter < calls[holders[j]].now)
  }

  /** The row, the claims and the history of one key agree. */
  predicate Agrees(state: State, key: Key, holders: seq<Token>, completions: nat) {
    && Spaced(holders, state.calls)
    && (forall i :: 0 <= i < |holders| ==> state.calls[holders[i]].key == key)
    && (holders == [] <==> key !in state.rows)
    && (key in state.rows && state.rows[key].value.Pending? ==>
          && completions == 0
          && state.rows[key].value.owner == holders[|holders| - 1]
          && state.rows[key].updatedAt == state.calls[holders[|holders| - 1]].now)
    && completions == if key in state.rows && state.rows[key].value.Completed? then 1 else 0
  }

  lemma StepAgrees(state: State, e: Event, key: Key, holders: seq<Token>, completions: nat)
    requires Agrees(state, key, holders, completions)
    ensures var claim := Claims(state, e, key);
            Agrees(Step(state, e), key,
                   if claim.Some? then holders + [claim.value] else if Releases(state, e, key) then [] else holders,
                   completions + if Completes(state, e, key) then 1 else 0)
  {
    if e.Takeover? && Claims(state, e, key).Some? {
      var c, last := state.calls[e.token], state.calls[holders[|holders| - 1]];
      assert last.now < c.now - c.staleAfter;
    }
  }

  lemma {:induction false} HistoryAgrees(events: seq<Event>, key: Key)
    ensures Agrees(Run(events), key, Holders(events, key), Completions(events, key))
  {
    if events == [] {
    } else {
      var prefix := events[..|events| - 1];
      HistoryAgrees(prefix, key);
      StepAgrees(Run(prefix), events[|events| - 1], key, Holders(prefix, key), Completions(prefix, key));
    }
  }

  /** Fencing: whatever the interleaving, the token that can complete or release a key is that
      of the latest claim that succeeded on it, while nothing has completed it. */
  lemma {:induction false} OnlyLatestClaimerHolds(events: seq<Event>, key: Key, token: Token)
    ensures Held(Run(events).rows, key, token) <==>
            Holders(events, key) != [] && token == Holders(events, key)[|Holders(events, key)| - 1] &&
              Completions(events, key) == 0
  {
    HistoryAgrees(events, key);
  }

  /** With any other token neither statement has an effect. */
  lemma OnlyLatestClaimerCloses(events: seq<Event>, e: Event)
    requires e.Complete? || e.Release?
    requires Step(Run(events), e).rows != Run(events).rows
    ensures Holders(events, e.key) != [] && e.token == Holders(events, e.key)[|Holders(events, e.key)| - 1]
    ensures Completions(events, e.key) == 0
  {
    OnlyLatestClaimerHolds(events, e.key, e.token);
  }

  /** At most one completion ever takes effect on a key, and it has exactly when the row says
      so. */
  lemma CompletedAtMostOnce(events: seq<Event>, key: Key)
    ensures Completions(events, key) <= 1
    ensures Completions(events, key) == 1 <==> key in Run(events).rows && Run(events).rows[key].value.Completed?
  {
    HistoryAgrees(events, key);
  }

  lemma CompletedStays(state: State, e: Event, key: Key)
    requires key in state.rows && state.rows[key].value.Completed?
    ensures key in Step(state, e).rows && Step(state, e).rows[key] == state.rows[key]
    ensures Claims(state, e, key).None? && !Releases(state, e, key)
  {
  }

  /** A completed lease is terminal: nothing changes its row again, and no claim succeeds. */
  lemma {:induction false} CompletedIsTerminal(events: seq<Event>, more: seq<Event>, key: Key)
    requires Completions(events, key) == 1
    ensures key in Run(events).rows && key in Run(events + more).rows
    ensures Run(events + more).rows[key] == Run(events).rows[key]
    ensures Holders(events + more, key) == Holders(events, key)
  {
    CompletedAtMostOnce(events, key);
    if more == [] {
      assert events + more == events;
    } else {
      var prefix := more[..|more| - 1];
      CompletedIsTerminal(events, prefix, key);
      assert events + more == (events + prefix) + [more[|more| - 1]];
      assert (events + more)[..|events + more| - 1] == events + prefix;
      CompletedStays(Run(events + prefix), more[|more| - 1], key);
    }
  }

  /** Two holders of one lifetime of the row began more than `stale_after` apart, by their own
      clocks. */
  lemma TakeoversAreSpaced(events: seq<Event>, key: Key, i: nat, j: nat)
    requires i < j < |Holders(events, key)|
    ensures var calls, holders := Run(events).calls, Holders(events, key);
            holders[i] in calls && holders[j] in calls
            && calls[holders[j]].now - calls[holders[i]].now > calls[holders[j]].staleAfter
  {
    HistoryAgrees(events, key);
  }

  // ------------------------------------------------------------- claims that miss

  /** How much of the run is over once the claim's insert has met a row. */
  function InsertPlace(events: seq<Event>, token: Token): (i: nat)
    ensures i <= |events|
  {
    if events != [] && At(Run(events[..|events| - 1]), token, TakingOver)
    then InsertPlace(events[..|events| - 1], token)
    else |events|
  }

  lemma StepTakesOver(state: State, e: Event, token: Token)
    requires At(Step(state, e), token, TakingOver)
    ensures token in state.calls && state.calls[token].key == Step(state, e).calls[token].key
    ensures At(state, token, TakingOver) ||
            (&& e == Insert(token) && At(state, token, Inserting)
             && state.calls[token].key in state.rows && Step(state, e).rows == state.rows)
  {}

  /** There the claim stops inserting, in front of a row for its key. */
  lemma {:induction false} InsertMetRow(events: seq<Event>, token: Token)
    requires At(Run(events), token, TakingOver)
    ensures var i := InsertPlace(events, token);
            && i > 0 && events[i - 1] == Insert(token) && At(Run(events[..i - 1]), token, Inserting)
            && Run(events).calls[token].key in Run(events[..i]).rows
  {
    var n := |events| - 1;
    var prefix := events[..n];
    StepTakesOver(Run(prefix), events[n], token);
    if At(Run(prefix), token, TakingOver) {
      InsertMetRow(prefix, token);
      var i := InsertPlace(prefix, token);
      assert prefix[..i - 1] == events[..i - 1] && prefix[..i] == events[..i];
    } else {
      assert events[..n + 1] == events;
    }
  }

  /** Event `r` frees the key, and no claim on it succeeds after that. */
  ghost predicate FreesForGood(events: seq<Event>, key: Key, r: nat)
    requires r < |events|
  {
    && Releases(Run(events[..r]), events[r], key)
    && forall k :: r < k < |events| ==> Claims(Run(events[..k]), events[k], key).None?
  }

  ghost predicate FreedSince(events: seq<Event>, key: Key, i: nat) {
    exists r :: i <= r < |events| && FreesForGood(events, key, r)
  }

  lemma StepFrees(state: State, e: Event, key: Key)
    ensures key !in Step(state, e).rows <==>
            Claims(state, e, key).None? && (Releases(state, e, key) || key !in state.rows)
  {}

  lemma FreedSnoc(events: seq<Event>, e: Event, key: Key, i: nat)
    requires i <= |events|
    ensures FreedSince(events + [e], key, i) <==>
            Claims(Run(events), e, key).None? && (Releases(Run(events), e, key) || FreedSince(events, key, i))
  {
    var all, n := events + [e], |events|;
    assert all[..n] == events;
    assert forall k :: 0 <= k < n ==> all[..k] == events[..k] && all[k] == events[k];
    if FreedSince(all, key, i) {
      var r :| i <= r <= n && FreesForGood(all, key, r);
      if r < n {
        assert Claims(Run(all[..n]), all[n], key).None?;
        assert FreesForGood(events, key, r);
      } else {
        StepFrees(Run(events), e, key);
      }
    }
    if Claims(Run(events), e, key).None? {
      if Releases(Run(events), e, key) {
        assert FreesForGood(all, key, n);
      } else if FreedSince(events, key, i) {
        var r :| i <= r < n && FreesForGood(events, key, r);
        assert FreesForGood(all, key, r);
      }
    }
  }

  /** A key that was taken is free later if and only if it was freed for good in between. */
  lemma {:induction false} FreeIffFreed(events: seq<Event>, key: Key, i: nat)
    requires i <= |events| && key in Run(events[..i]).rows
    ensures key !in Run(events).rows <==> FreedSince(events, key, i)
  {
    if i == |events| {
      assert events[..i] == events;
    } else {
      var n := |events| - 1;
      assert events[..n][..i] == events[..i] && events[..n] + [events[n]] == events;
      FreeIffFreed(events[..n], key, i);
      FreedSnoc(events[..n], events[n], key, i);
      StepFrees(Run(events[..n]), events[n], key);
    }
  }

  /** In every run, a claim whose insert met a holder comes back empty-handed on a free key if
      and only if a release took effect on the key after that insert and no claim on it has
      succeeded since. */
  lemma {:induction false} ClaimMissesFreedKeyIff(events: seq<Event>, token: Token)
    requires At(Run(events), token, TakingOver)
    ensures var key, after := Run(events).calls[token].key, Run(events + [Takeover(token)]);
            At(after, token, Lost) && key !in after.rows <==> FreedSince(events, key, InsertPlace(events, token))
  {
    InsertMetRow(events, token);
    FreeIffFreed(events, Run(events).calls[token].key, InsertPlace(events, token));
    RunSnoc(events, Takeover(token));
  }

  /** The shortest such run: the insert met a holder, and the takeover found no row at all. */
  lemma ClaimCanMissFreedKey(key: Key, a: Token, b: Token, now: int, staleAfter: nat)
    requires a != b
    ensures var events := [Begin(a, key, now, staleAfter), Insert(a), Begin(b, key, now, staleAfter), Insert(b),
            Release(key, a)];
            && key !in Run(events).rows
            && At(Run(events + [Takeover(b)]), b, Lost)
            && key !in Run(events + [Takeover(b)]).rows
  {
    var e1, e2, e3 := [Begin(a, key, now, staleAfter)], Insert(a), Begin(b, key, now, staleAfter);
    var call := Call(key, now, staleAfter, Inserting);
    RunSnoc([], Begin(a, key, now, staleAfter));
    assert [] + e1 == e1;
    RunSnoc(e1, e2);
    assert Run(e1 + [e2]) == State(map[key := Row(Pending(a), now)], map[a := call.(phase := Won)]);
    RunSnoc(e1 + [e2], e3);
    RunSnoc(e1 + [e2] + [e3], Insert(b));
    RunSnoc(e1 + [e2] + [e3] + [Insert(b)], Release(key, a));
    var events := e1 + [e2] + [e3] + [Insert(b)] + [Release(key, a)];
    assert events
           == [Begin(a, key, now, staleAfter), Insert(a), Begin(b, key, now, staleAfter), Insert(b), Release(key, a)];
    RunSnoc(events, Takeover(b));
  }
}
