/** The queued-run table as one transaction sees and updates it
    (`api/db/campaign_client.py:554-624, 775-852`). */
module QueuedRunTable {
  import opened Optional
  import opened CampaignClaims

  /** One row of `SELECT campaign_id, state, count(id) ... GROUP BY campaign_id, state`. */
  datatype Group = Group(campaign: nat, state: RunState, count: nat)

  /** The first `n` rows of the query are about different (campaign, state) pairs, each with its
      number of runs. */
  ghost predicate CountsGroups(rows: Table, groups: seq<Group>, n: nat)
    requires n <= |groups|
  {
    n == 0 ||
    (&& CountsGroups(rows, groups, n - 1)
     && groups[n - 1].count == |InState(rows, groups[n - 1].campaign, groups[n - 1].state)|
     && forall i :: 0 <= i < n - 1 ==>
        groups[i].campaign != groups[n - 1].campaign || groups[i].state != groups[n - 1].state)
  }

  /** The query lists every pair that has rows, and only requested campaigns. */
  ghost predicate CoversGroups(rows: Table, campaigns: set<nat>, groups: seq<Group>) {
    && (forall i :: 0 <= i < |groups| ==> groups[i].campaign in campaigns)
    && forall r :: r in rows && rows[r].campaign in campaigns ==>
                     exists i :: 0 <= i < |groups| && groups[i].campaign == rows[r].campaign &&
                       groups[i].state == rows[r].state
  }

  /** The group counts runs of the campaign, or among them only executed ones. */
  predicate Matches(group: Group, campaign: nat, executedOnly: bool) {
    group.campaign == campaign && (executedOnly ==> group.state == Processed)
  }

  /** The runs that the first `n` groups count. */
  ghost function Counted(rows: Table, groups: seq<Group>, n: nat, campaign: nat, executedOnly: bool): set<nat>
    requires n <= |groups|
  {
    if n == 0 then {}
    else
      Counted(rows, groups, n - 1, campaign, executedOnly) +
      if Matches(groups[n - 1], campaign, executedOnly) then InState(rows, campaign, groups[n - 1].state) else {}
  }

  /** The sum of their counts. */
  ghost function SumOf(groups: seq<Group>, n: nat, campaign: nat, executedOnly: bool): nat
    requires n <= |groups|
  {
    if n == 0 then 0
    else
      SumOf(groups, n - 1, campaign, executedOnly) +
      if Matches(groups[n - 1], campaign, executedOnly) then groups[n - 1].count else 0
  }

  lemma {:induction false} NotCounted(rows: Table, groups: seq<Group>, n: nat, campaign: nat, executedOnly: bool,
                                      state: RunState)
    requires n <= |groups| && forall i :: 0 <= i < n ==> groups[i].campaign != campaign || groups[i].state != state
    ensures Counted(rows, groups, n, campaign, executedOnly) !! InState(rows, campaign, state)
  {
    if n == 0 {
    } else {
      NotCounted(rows, groups, n - 1, campaign, executedOnly, state);
    }
  }

  lemma UnionSize(a: set<nat>, b: set<nat>)
    requires a !! b
    ensures |a + b| == |a| + |b|
  {}

  /** No run is counted by two groups. */
  lemma GroupAdds(rows: Table, groups: seq<Group>, n: nat, campaign: nat, executedOnly: bool)
    requires 0 < n <= |groups| && CountsGroups(rows, groups, n)
    ensures |Counted(rows, groups, n, campaign, executedOnly)|
         == |Counted(rows, groups, n - 1, campaign, executedOnly)| +
            if Matches(groups[n - 1], campaign, executedOnly) then groups[n - 1].count else 0
  {
    var before, last := Counted(rows, groups, n - 1, campaign, executedOnly), groups[n - 1];
    if Matches(last, campaign, executedOnly) {
      NotCounted(rows, groups, n - 1, campaign, executedOnly, last.state);
      UnionSize(before, InState(rows, campaign, last.state));
    } else {
      assert Counted(rows, groups, n, campaign, executedOnly) == before;
    }
  }

  lemma {:induction false} SumCounts(rows: Table, groups: seq<Group>, n: nat, campaign: nat, executedOnly: bool)
    requires n <= |groups| && CountsGroups(rows, groups, n)
    ensures SumOf(groups, n, campaign, executedOnly) == |Counted(rows, groups, n, campaign, executedOnly)|
    decreases n
  {
    if n == 0 {
    } else {
      SumCounts(rows, groups, n - 1, campaign, executedOnly);
      GroupAdds(rows, groups, n, campaign, executedOnly);
    }
  }

  lemma {:induction false} CountedOnlyMatches(rows: Table, groups: seq<Group>, n: nat, campaign: nat,
                                              executedOnly: bool)
    requires n <= |groups|
    ensures Counted(rows, groups, n, campaign, executedOnly)
         <= if executedOnly then InState(rows, campaign, Processed) else RunsOf(rows, campaign)
  {
    if n == 0 {
    } else {
      CountedOnlyMatches(rows, groups, n - 1, campaign, executedOnly);
    }
  }

  lemma {:induction false} CountedHas(rows: Table, groups: seq<Group>, n: nat, campaign: nat, executedOnly: bool,
                                      i: nat)
    requires i < n <= |groups| && Matches(groups[i], campaign, executedOnly)
    ensures InState(rows, campaign, groups[i].state) <= Counted(rows, groups, n, campaign, executedOnly)
  {
    if i == n - 1 {
    } else {
      CountedHas(rows, groups, n - 1, campaign, executedOnly, i);
    }
  }

  /** Every run of a requested campaign is counted by some group. */
  lemma AllCounted(rows: Table, campaigns: set<nat>, groups: seq<Group>, c: nat, executedOnly: bool)
    requires CoversGroups(rows, campaigns, groups) && c in campaigns
    ensures Counted(rows, groups, |groups|, c, executedOnly)
         == if executedOnly then InState(rows, c, Processed) else RunsOf(rows, c)
  {
    CountedOnlyMatches(rows, groups, |groups|, c, executedOnly);
    forall r | r in RunsOf(rows, c) && (executedOnly ==> rows[r].state == Processed)
      ensures r in Counted(rows, groups, |groups|, c, executedOnly)
    {
      var i :| 0 <= i < |groups| && groups[i].campaign == rows[r].campaign && groups[i].state == rows[r].state;
      CountedHas(rows, groups, |groups|, c, executedOnly, i);
    }
  }

  /** A dictionary of the sums so far. */
  ghost function Sums(campaigns: set<nat>, groups: seq<Group>, n: nat, executedOnly: bool): map<nat, nat>
    requires n <= |groups|
  {
    map c | c in campaigns :: SumOf(groups, n, c, executedOnly)
  }

  function Plus(stats: map<nat, nat>, campaign: nat, count: nat): map<nat, nat>
    requires campaign in stats
  {
    stats[campaign := stats[campaign] + count]
  }

  lemma SumsGrow(campaigns: set<nat>, groups: seq<Group>, n: nat, executedOnly: bool)
    requires n < |groups| && groups[n].campaign in campaigns
    ensures Sums(campaigns, groups, n + 1, executedOnly)
         == if executedOnly && groups[n].state != Processed then Sums(campaigns, groups, n, executedOnly)
            else Plus(Sums(campaigns, groups, n, executedOnly), groups[n].campaign, groups[n].count)
  {
    forall c | c in campaigns
      ensures SumOf(groups, n + 1, c, executedOnly) ==
              SumOf(groups, n, c, executedOnly) + if Matches(groups[n], c, executedOnly) then groups[n].count else 0 {}
  }

  ghost predicate StatsRight(rows: Table, campaigns: set<nat>, total: map<nat, nat>, executed: map<nat, nat>) {
    && total.Keys == campaigns && executed.Keys == campaigns
    && forall c :: c in campaigns ==>
                     total[c] == Total(rows, c) && executed[c] == Executed(rows, c) && executed[c] <= total[c]
  }

  lemma SumsAreRight(rows: Table, groups: seq<Group>, campaigns: set<nat>)
    requires CountsGroups(rows, groups, |groups|) && CoversGroups(rows, campaigns, groups)
    ensures StatsRight(rows, campaigns, Sums(campaigns, groups, |groups|, false),
            Sums(campaigns, groups, |groups|, true))
  {
    forall c | c in campaigns
      ensures SumOf(groups, |groups|, c, false) == Total(rows, c)
      ensures SumOf(groups, |groups|, c, true) == Executed(rows, c) <= Total(rows, c)
    {
      SumCounts(rows, groups, |groups|, c, false);
      SumCounts(rows, groups, |groups|, c, true);
      AllCounted(rows, campaigns, groups, c, false);
      AllCounted(rows, campaigns, groups, c, true);
      ExecutedAtMostTotal(rows, c);
    }
  }

  /** The counting loop of `get_queued_runs_stats_for_campaigns`. */
  method CampaignStats(ghost rows: Table, campaigns: set<nat>, groups: seq<Group>)
    returns (total: map<nat, nat>, executed: map<nat, nat>)
    requires CountsGroups(rows, groups, |groups|) && CoversGroups(rows, campaigns, groups)
    ensures StatsRight(rows, campaigns, total, executed)
  {
    total := map c | c in campaigns :: 0;
    executed := total;
    for i := 0 to |groups|
      invariant total == Sums(campaigns, groups, i, false)
      invariant executed == Sums(campaigns, groups, i, true)
    {
      SumsGrow(campaigns, groups, i, false);
      SumsGrow(campaigns, groups, i, true);
      total := Plus(total, groups[i].campaign, groups[i].count);
      if groups[i].state == Processed {
        executed := Plus(executed, groups[i].campaign, groups[i].count);
      }
    }
    SumsAreRight(rows, groups, campaigns);
  }

  /** A claim that ran alone: what its two SELECTs returned. */
  ghost predicate IsClaim(rows: Table, locked: set<nat>, campaign: nat, before: int, limit: nat,
                          scheduled: seq<nat>, regular: seq<nat>)
  {
    && SelectsDue(rows, locked, campaign, before, limit, scheduled)
    && if |scheduled| < limit then SelectsRegular(rows, locked, campaign, limit - |scheduled|, regular)
       else regular == []
  }

  class QueuedRuns {
    var rows: Table
    /** Rows locked by other open transactions. */
    var locked: set<nat>
    /** Queued runs for which a workflow run exists. */
    var started: set<nat>

    /** A candidate with the earliest due time. */
    method Earliest(candidates: set<nat>) returns (run: nat)
      requires candidates != {} && forall r :: r in candidates ==> r in rows && rows[r].scheduledFor.Some?
      ensures run in candidates
      ensures forall r :: r in candidates ==> rows[run].scheduledFor.value <= rows[r].scheduledFor.value
    {
      run :| run in candidates;
      var rest := candidates - {run};
      while rest != {}
        invariant run in candidates && rest <= candidates
        invariant forall r :: r in candidates - rest ==> rows[run].scheduledFor.value <= rows[r].scheduledFor.value
        decreases rest
      {
        var r :| r in rest;
        if rows[r].scheduledFor.value < rows[run].scheduledFor.value {
          run := r;
        }
        rest := rest - {r};
      }
    }

    method SelectDue(campaign: nat, before: int, limit: nat) returns (runs: seq<nat>)
      ensures SelectsDue(rows, locked, campaign, before, limit, runs)
    {
      var candidates := set r | r in rows && r !in locked && IsDue(rows[r], campaign, before);
      runs := [];
      while |runs| < limit && candidates != {}
        invariant |runs| <= limit
        invariant candidates == set r | r in rows && r !in locked && IsDue(rows[r], campaign, before) && r !in runs
        invariant SelectsPrefix(runs, candidates, campaign, before)
        decreases candidates
      {
        var run := Earliest(candidates);
        runs := runs + [run];
        candidates := candidates - {run};
      }
      assert forall r :: r in rows && r !in locked && IsDue(rows[r], campaign, before) && r !in runs ==>
             r in candidates;
    }

    ghost predicate SelectsPrefix(runs: seq<nat>, rest: set<nat>, campaign: nat, before: int)
      reads this
    {
      && (forall i :: 0 <= i < |runs| ==>
         runs[i] in rows && runs[i] !in locked && IsDue(rows[runs[i]], campaign, before))
      && (forall i, j :: 0 <= i < j < |runs| ==> runs[i] != runs[j])
      && (forall i, j :: 0 <= i < j < |runs| ==>
                           rows[runs[i]].scheduledFor.value <= rows[runs[j]].scheduledFor.value)
      && forall i, r :: 0 <= i < |runs| && r in rest && r in rows && rows[r].scheduledFor.Some? ==>
                          rows[runs[i]].scheduledFor.value <= rows[r].scheduledFor.value
    }

    /** The database picks at random; any pick meets the contract. */
    method SelectRegular(campaign: nat, limit: nat) returns (runs: seq<nat>)
      ensures SelectsRegular(rows, locked, campaign, limit, runs)
    {
      var candidates := set r | r in rows && r !in locked && IsRegular(rows[r], campaign);
      runs := [];
      while |runs| < limit && candidates != {}
        invariant |runs| <= limit
        invariant candidates == set r | r in rows && r !in locked && IsRegular(rows[r], campaign) && r !in runs
        invariant forall i :: 0 <= i < |runs| ==>
                  runs[i] in rows && runs[i] !in locked && IsRegular(rows[runs[i]], campaign)
        invariant forall i, j :: 0 <= i < j < |runs| ==> runs[i] != runs[j]
        decreases candidates
      {
        var run :| run in candidates;
        runs := runs + [run];
        candidates := candidates - {run};
      }
      assert forall r :: r in rows && r !in locked && IsRegular(rows[r], campaign) && r !in runs ==> r in candidates;
    }

    /** `for run in runs: run.state = "processing"; claimed_runs.append(run)`. */
    method MarkProcessing(runs: seq<nat>, claimed: seq<nat>) returns (claimed': seq<nat>)
      requires forall i :: 0 <= i < |runs| ==> runs[i] in rows
      modifies this`rows
      ensures rows == Marked(old(rows), runs)
      ensures claimed' == claimed + runs
    {
      claimed' := claimed;
      for i := 0 to |runs|
        invariant rows == Marked(old(rows), runs[..i])
        invariant claimed' == claimed + runs[..i]
      {
        rows := rows[runs[i] := rows[runs[i]].(state := Processing)];
        claimed' := claimed' + [runs[i]];
        assert runs[..i + 1] == runs[..i] + [runs[i]];
      }
      assert runs[..|runs|] == runs;
    }

    /** `claim_queued_runs_for_processing`. */
    method ClaimForProcessing(campaign: nat, before: int, limit: nat) returns (claimed: seq<nat>)
      modifies this`rows
      ensures exists scheduled, regular :: claimed == scheduled + regular &&
                IsClaim(old(rows), locked, campaign, before, limit, scheduled, regular)
      ensures rows == Marked(old(rows), claimed)
    {
      var scheduled := SelectDue(campaign, before, limit);
      claimed := MarkProcessing(scheduled, []);
      var remaining := limit - |scheduled|;
      ghost var regular: seq<nat> := [];
      if remaining > 0 {
        var more := SelectRegular(campaign, remaining);
        SelectionUnaffected(old(rows), scheduled, locked, campaign, before, limit, more);
        claimed := MarkProcessing(more, claimed);
        MarkedTwice(old(rows), scheduled, more);
        regular := more;
      }
      assert claimed == scheduled + regular;
      assert IsClaim(old(rows), locked, campaign, before, limit, scheduled, regular);
    }

    /** `return_processing_queued_runs_without_workflow`; the result is the row count. */
    method ReturnWithoutWorkflow(ids: set<nat>) returns (count: nat)
      modifies this`rows
      ensures rows == Returned(Db(old(rows), map[], started), ids)
      ensures count == |set r | Returns(Db(old(rows), map[], started), ids, r) && r in old(rows)|
    {
      var db := Db(rows, map[], started);
      var matched := set r | r in rows && Returns(db, ids, r);
      rows := Returned(db, ids);
      count := |matched|;
      assert matched == set r | Returns(db, ids, r) && r in db.rows;
    }
  }

  lemma SelectionUnaffected(rows: Table, scheduled: seq<nat>, locked: set<nat>, campaign: nat, before: int,
                            limit: nat, regular: seq<nat>)
    requires SelectsDue(rows, locked, campaign, before, limit, scheduled) && |scheduled| < limit
    requires SelectsRegular(Marked(rows, scheduled), locked, campaign, limit - |scheduled|, regular)
    ensures SelectsRegular(rows, locked, campaign, limit - |scheduled|, regular)
  {
    var marked := Marked(rows, scheduled);
    forall r | r in rows && IsRegular(rows[r], campaign) ensures marked[r] == rows[r] {}
  }

  lemma MarkedTwice(rows: Table, a: seq<nat>, b: seq<nat>)
    ensures Marked(Marked(rows, a), b) == Marked(rows, a + b)
  {}

  lemma OneClaimLocks(rows: Table, started: set<nat>, c: Claim, r: nat)
    ensures r in LockedRuns(Db(rows, map[0 := c], started)) <==> r in c.Runs()
  {
    var db := Db(rows, map[0 := c], started);
    assert 0 in db.claims && db.claims[0] == c;
  }

  /** A claim that runs alone is a path of the concurrent protocol: begin, the two SELECTs,
      commit, ending in the table the method leaves. */
  lemma SerialClaimIsPath(rows: Table, started: set<nat>, campaign: nat, before: int, limit: nat, scheduled: seq<nat>,
                          regular: seq<nat>)
    requires IsClaim(rows, {}, campaign, before, limit, scheduled, regular)
    ensures var idle, final := Db(rows, map[], started), Db(Marked(rows, scheduled + regular), map[], started);
            var begun := idle.(claims := map[0 := Claim(campaign, before, limit, None, None)]);
            var first := idle.(claims := map[0 := Claim(campaign, before, limit, Some(scheduled), None)]);
            var second := idle.(claims := map[0 := Claim(campaign, before, limit, Some(scheduled), Some(regular))]);
            && Step(idle, Begin(0, campaign, before, limit), begun)
            && Step(begun, TakeDue(0, scheduled), first)
            && if |scheduled| < limit
               then Step(first, TakeRegular(0, regular), second) && Step(second, Commit(0, scheduled + regular), final)
               else Step(first, Commit(0, scheduled + regular), final)
  {
    var idle := Db(rows, map[], started);
    var begun := idle.(claims := map[0 := Claim(campaign, before, limit, None, None)]);
    var first := idle.(claims := map[0 := Claim(campaign, before, limit, Some(scheduled), None)]);
    forall r ensures (r in LockedRuns(begun) <==> r in begun.claims[0].Runs()) &&
      (r in LockedRuns(first) <==> r in first.claims[0].Runs()) {
      OneClaimLocks(rows, started, begun.claims[0], r);
      OneClaimLocks(rows, started, first.claims[0], r);
    }
    assert LockedRuns(begun) == {};
    if |scheduled| < limit {
      assert SelectsRegular(rows, LockedRuns(first), campaign, limit - |scheduled|, regular);
    } else {
      assert scheduled + regular == scheduled;
    }
  }
}
