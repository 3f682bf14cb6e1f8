/** Redial campaigns: a child campaign is created, seeded and linked in one transaction
    (`api/db/campaign_client.py:241-314`). */
module RedialChains {
  import opened Optional

  /** `orchestrator_metadata`: the two link keys, and everything else. */
  datatype Metadata = Metadata(redialed: Option<nat>, parent: Option<nat>, settings: map<string, int>)

  datatype Campaign = Campaign(name: string, workflow: nat, metadata: Metadata, totalRows: nat)

  datatype QueuedRun = QueuedRun(campaign: nat, source: string, context: int)

  datatype Candidate = Candidate(source: string, context: int)

  datatype Store = Store(campaigns: map<nat, Campaign>, queued: seq<QueuedRun>, next: nat)

  datatype Outcome = Created(child: nat) | AlreadyRedialed | NoSuchParent | DuplicateSource

  /** The settings a child inherits. */
  const INHERITED: set<string> := {"max_concurrency", "schedule_config", "circuit_breaker"}

  /** Python reads a stored id of 0 as "not redialed". */
  predicate IsRedialed(m: Metadata) {
    m.redialed.Some? && m.redialed.value != 0
  }

  /** The unique constraint over campaign, source and retry count. */
  predicate DistinctSources(candidates: seq<Candidate>) {
    forall i, j :: 0 <= i < j < |candidates| ==> candidates[i].source != candidates[j].source
  }

  function Inherited(settings: map<string, int>): map<string, int> {
    map k | k in settings && k in INHERITED :: settings[k]
  }

  function ChildOf(parent: nat, copy: Campaign, name: string, rows: nat): Campaign {
    Campaign(name, copy.workflow,
             Metadata(None, Some(parent), Inherited(copy.metadata.settings)), rows)
  }

  function Seeded(child: nat, candidates: seq<Candidate>): (r: seq<QueuedRun>)
    ensures |r| == |candidates|
    ensures forall i :: 0 <= i < |r| ==> r[i] == QueuedRun(child, candidates[i].source, candidates[i].context)
  {
    seq(|candidates|, i requires 0 <= i < |candidates| => QueuedRun(child, candidates[i].source, candidates[i].context))
  }

  function OutcomeOf(store: Store, parent: nat, copy: Campaign, candidates: seq<Candidate>): Outcome {
    if IsRedialed(copy.metadata) then AlreadyRedialed
    else if !DistinctSources(candidates) then DuplicateSource
    else if parent !in store.campaigns then NoSuchParent
    else Created(store.next)
  }

  /** The committed result: the parent's metadata is overwritten with the caller's copy plus
      the new link. */
  function Redialed(store: Store, parent: nat, copy: Campaign, name: string, candidates: seq<Candidate>): Store
    requires OutcomeOf(store, parent, copy, candidates).Created?
  {
    var child := store.next;
    var linked := store.campaigns[parent].(metadata := copy.metadata.(redialed := Some(child)));
    Store(store.campaigns[child := ChildOf(parent, copy, name, |candidates|)][parent := linked],
          store.queued + Seeded(child, candidates), child + 1)
  }

  // ---------------------------------------------------------------- the transaction

  class CampaignStore {
    var campaigns: map<nat, Campaign>
    var queued: seq<QueuedRun>
    var next: nat

    function State(): Store
      reads this
    {
      Store(campaigns, queued, next)
    }

    /** `create_redial_campaign`: `copy` is the caller's copy of the parent row. On failure
        the transaction is rolled back. */
    method CreateRedialCampaign(parent: nat, copy: Campaign, name: string, candidates: seq<Candidate>)
      returns (r: Outcome)
      modifies this
      ensures r == OutcomeOf(old(State()), parent, copy, candidates)
      ensures State() == if r.Created? then Redialed(old(State()), parent, copy, name, candidates) else old(State())
    {
      var metadata := copy.metadata;
      if metadata.redialed.Some? && metadata.redialed.value != 0 {
        return AlreadyRedialed;
      }
      var childMetadata := Metadata(None, Some(parent),
                                    map k | k in metadata.settings && k in INHERITED :: metadata.settings[k]);
      var child := next;
      var rows := queued;
      for i := 0 to |candidates|
        invariant rows == queued + Seeded(child, candidates)[..i]
      {
        rows := rows + [QueuedRun(child, candidates[i].source, candidates[i].context)];
      }
      if i, j :| 0 <= i < j < |candidates| && candidates[i].source == candidates[j].source {
        return DuplicateSource;
      }
      if parent !in campaigns {
        return NoSuchParent;
      }
      metadata := metadata.(redialed := Some(child));
      campaigns := campaigns[child := Campaign(name, copy.workflow, childMetadata, |candidates|)]
                            [parent := campaigns[parent].(metadata := metadata)];
      queued := rows;
      next := child + 1;
      r := Created(child);
    }
  }

  // --------------------------------------------------------------------- the chains

  /** Redial links and parent links are mutually inverse, and a child is younger than its
      parent; ids are handed out from 1 on, and queued runs belong to known campaigns. */
  ghost predicate Linked(store: Store) {
    && store.next > 0
    && (forall c :: c in store.campaigns ==> 0 < c < store.next)
    && (forall c :: c in store.campaigns && store.campaigns[c].metadata.redialed.Some? ==>
                      var d := store.campaigns[c].metadata.redialed.value;
                      d in store.campaigns && store.campaigns[d].metadata.parent == Some(c))
    && (forall d :: d in store.campaigns && store.campaigns[d].metadata.parent.Some? ==>
                      var c := store.campaigns[d].metadata.parent.value;
                      c in store.campaigns && c < d && store.campaigns[c].metadata.redialed == Some(d))
    && forall i :: 0 <= i < |store.queued| ==> store.queued[i].campaign in store.campaigns
  }

  /** The caller's copy agrees with the stored row about both links. */
  predicate IsCurrent(store: Store, parent: nat, copy: Campaign) {
    parent in store.campaigns &&
    (IsRedialed(copy.metadata) <==> IsRedialed(store.campaigns[parent].metadata)) &&
    copy.metadata.parent == store.campaigns[parent].metadata.parent
  }

  /** A successful redial keeps the chains if and only if the caller's copy of the links was
      current. */
  lemma RedialKeepsLinksIffCurrent(store: Store, parent: nat, copy: Campaign, name: string, candidates: seq<Candidate>)
    requires Linked(store) && OutcomeOf(store, parent, copy, candidates).Created?
    ensures Linked(Redialed(store, parent, copy, name, candidates)) <==> IsCurrent(store, parent, copy)
  {
    var after := Redialed(store, parent, copy, name, candidates);
    var row := store.campaigns[parent].metadata;
    if Linked(after) && row.parent.Some? {
      assert after.campaigns[row.parent.value].metadata.redialed == Some(parent);
    }
  }

  /** The rest of the system: plain campaigns, metadata changes that leave the links alone,
      and more queued runs. */
  datatype Event =
    | Create(campaign: Campaign)
    | Redial(parent: nat, copy: Campaign, name: string, candidates: seq<Candidate>)
    | Configure(id: nat, settings: map<string, int>)
    | Enqueue(run: QueuedRun)

  ghost predicate Step(s: Store, e: Event, s': Store) {
    match e
    case Create(c) =>
      c.metadata.redialed.None? && c.metadata.parent.None? &&
        s' == s.(campaigns := s.campaigns[s.next := c], next := s.next + 1)
    case Redial(parent, copy, name, candidates) =>
      if OutcomeOf(s, parent, copy, candidates).Created?
      then IsCurrent(s, parent, copy) && s' == Redialed(s, parent, copy, name, candidates)
      else s' == s
    case Configure(id, settings) =>
      id in s.campaigns &&
      var metadata := s.campaigns[id].metadata.(settings := settings);
      s' == s.(campaigns := s.campaigns[id := s.campaigns[id].(metadata := metadata)])
    case Enqueue(run) => run.campaign in s.campaigns && s' == s.(queued := s.queued + [run])
  }

  /** `states[i]` is the store before event `i`; the store starts without campaigns. */
  ghost predicate IsRun(states: seq<Store>, events: seq<Event>) {
    && |states| == |events| + 1
    && states[0] == Store(map[], [], 1)
    && forall i {:trigger events[i]} :: 0 <= i < |events| ==> Step(states[i], events[i], states[i + 1])
  }

  lemma StepKeepsLinks(s: Store, e: Event, s': Store)
    requires Linked(s) && Step(s, e, s')
    ensures Linked(s')
  {
    if e.Redial? && OutcomeOf(s, e.parent, e.copy, e.candidates).Created? {
      RedialKeepsLinksIffCurrent(s, e.parent, e.copy, e.name, e.candidates);
    }
  }

  lemma {:induction false} RunKeepsLinks(states: seq<Store>, events: seq<Event>, i: nat)
    requires IsRun(states, events) && i <= |events|
    ensures Linked(states[i])
  {
    if i == 0 {
    } else {
      RunKeepsLinks(states, events, i - 1);
      StepKeepsLinks(states[i - 1], events[i - 1], states[i]);
    }
  }

  // ------------------------------------------------------------- what links imply

  /** The campaigns reached from `c` by `n` redials. */
  ghost predicate RedialedTo(s: Store, c: nat, n: nat, d: nat) {
    if n == 0 then c in s.campaigns && c == d
    else exists e :: e in s.campaigns && RedialedTo(s, c, n - 1, e) && s.campaigns[e].metadata.redialed == Some(d)
  }

  lemma {:induction false} RedialsGrow(s: Store, c: nat, n: nat, d: nat)
    requires Linked(s) && RedialedTo(s, c, n, d)
    ensures d in s.campaigns && d >= c + n
  {
    if n == 0 {
    } else {
      var e :| e in s.campaigns && RedialedTo(s, c, n - 1, e) && s.campaigns[e].metadata.redialed == Some(d);
      RedialsGrow(s, c, n - 1, e);
    }
  }

  /** Chains never merge: a campaign has one predecessor at each distance. */
  lemma {:induction false} ChainsNeverMerge(s: Store, a: nat, b: nat, n: nat, d: nat)
    requires Linked(s) && RedialedTo(s, a, n, d) && RedialedTo(s, b, n, d)
    ensures a == b
  {
    if n == 0 {
    } else {
      var e :| e in s.campaigns && RedialedTo(s, a, n - 1, e) && s.campaigns[e].metadata.redialed == Some(d);
      var f :| f in s.campaigns && RedialedTo(s, b, n - 1, f) && s.campaigns[f].metadata.redialed == Some(d);
      assert s.campaigns[d].metadata.parent == Some(e);
      ChainsNeverMerge(s, a, b, n - 1, e);
    }
  }

  /** In every reachable store: a campaign has at most one child and one parent, each the
      inverse of the other, and no campaign lies on a cycle of redials. */
  lemma ChainsAreDisjoint(states: seq<Store>, events: seq<Event>, i: nat, c: nat, d: nat)
    requires IsRun(states, events) && i <= |events|
    ensures var s := states[i];
            && (c in s.campaigns && d in s.campaigns ==>
                  (s.campaigns[c].metadata.redialed == Some(d) <==> s.campaigns[d].metadata.parent == Some(c)))
            && (forall n: nat :: n > 0 ==> !RedialedTo(s, c, n, c))
  {
    RunKeepsLinks(states, events, i);
    forall n: nat | n > 0 ensures !RedialedTo(states[i], c, n, c) {
      if RedialedTo(states[i], c, n, c) {
        RedialsGrow(states[i], c, n, c);
      }
    }
  }

  function RunsOf(queued: seq<QueuedRun>, campaign: nat): seq<QueuedRun> {
    if queued == [] then []
    else RunsOf(queued[..|queued| - 1], campaign) +
         if queued[|queued| - 1].campaign == campaign then [queued[|queued| - 1]] else []
  }

  lemma {:induction false} RunsOfConcat(a: seq<QueuedRun>, b: seq<QueuedRun>, campaign: nat)
    ensures RunsOf(a + b, campaign) == RunsOf(a, campaign) + RunsOf(b, campaign)
  {
    if b == [] {
      assert a + b == a;
    } else {
      assert (a + b)[..|a + b| - 1] == a + b[..|b| - 1];
      RunsOfConcat(a, b[..|b| - 1], campaign);
    }
  }

  lemma {:induction false} RunsOfNone(queued: seq<QueuedRun>, campaign: nat)
    requires forall i :: 0 <= i < |queued| ==> queued[i].campaign != campaign
    ensures RunsOf(queued, campaign) == []
  {
    if queued == [] {
    } else {
      RunsOfNone(queued[..|queued| - 1], campaign);
    }
  }

  lemma {:induction false} RunsOfAll(queued: seq<QueuedRun>, campaign: nat)
    requires forall i :: 0 <= i < |queued| ==> queued[i].campaign == campaign
    ensures RunsOf(queued, campaign) == queued
  {
    if queued == [] {
    } else {
      RunsOfAll(queued[..|queued| - 1], campaign);
    }
  }

  lemma SeededRuns(queued: seq<QueuedRun>, child: nat, candidates: seq<Candidate>, other: nat)
    requires forall i :: 0 <= i < |queued| ==> queued[i].campaign != child
    ensures RunsOf(queued + Seeded(child, candidates), child) == Seeded(child, candidates)
    ensures other != child ==> RunsOf(queued + Seeded(child, candidates), other) == RunsOf(queued, other)
  {
    var seeded := Seeded(child, candidates);
    RunsOfConcat(queued, seeded, child);
    RunsOfConcat(queued, seeded, other);
    RunsOfNone(queued, child);
    RunsOfAll(seeded, child);
    if other != child {
      RunsOfNone(seeded, other);
    }
  }

  /** A new child's queued runs are its candidates, in order, counted by its `total_rows`;
      every other campaign's queued runs, and every campaign but the parent, are as before. */
  lemma ChildIsSeeded(s: Store, parent: nat, copy: Campaign, name: string, candidates: seq<Candidate>, other: nat)
    requires Linked(s) && OutcomeOf(s, parent, copy, candidates).Created?
    ensures var s', child := Redialed(s, parent, copy, name, candidates), s.next;
            && child !in s.campaigns && child in s'.campaigns
            && s'.campaigns[child].workflow == copy.workflow && s'.campaigns[child].metadata.parent == Some(parent)
            && (forall k :: k in s'.campaigns[child].metadata.settings <==>
               k in copy.metadata.settings && k in INHERITED)
            && s'.campaigns[parent] == s.campaigns[parent].(metadata := copy.metadata.(redialed := Some(child)))
            && RunsOf(s'.queued, child) == Seeded(child, candidates)
            && s'.campaigns[child].totalRows == |RunsOf(s'.queued, child)|
            && (other != child ==> RunsOf(s'.queued, other) == RunsOf(s.queued, other))
            && (other in s.campaigns && other != parent ==> s'.campaigns[other] == s.campaigns[other])
  {
    SeededRuns(s.queued, s.next, candidates, other);
  }

  /** Why currency matters: two callers that both read the parent before either redialed it
      both succeed, and the first child is orphaned. */
  lemma {:induction false} RacingRedialsBreakLinks(s: Store, parent: nat, copy: Campaign, a: string, b: string,
                                                   xs: seq<Candidate>, ys: seq<Candidate>)
    requires Linked(s) && IsCurrent(s, parent, copy) && !IsRedialed(copy.metadata)
    requires DistinctSources(xs) && DistinctSources(ys)
    ensures OutcomeOf(s, parent, copy, xs) == Created(s.next)
    ensures var first := Redialed(s, parent, copy, a, xs);
            && OutcomeOf(first, parent, copy, ys) == Created(s.next + 1)
            && var second := Redialed(first, parent, copy, b, ys);
               !Linked(second) && second.campaigns[s.next].metadata.parent == Some(parent) &&
               second.campaigns[parent].metadata.redialed == Some(s.next + 1)
  {
    RedialKeepsLinksIffCurrent(s, parent, copy, a, xs);
    RedialKeepsLinksIffCurrent(Redialed(s, parent, copy, a, xs), parent, copy, b, ys);
  }
}
