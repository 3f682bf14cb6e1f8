/** Choosing whom to call again: the recursive walk over retries and the selection on the
    latest call of each tree (`api/db/campaign_client.py:316-386`). */
module RedialCandidates {
  import opened Optional

  /** A row of `queued_runs`; `context` stands for its context variables. */
  datatype QueuedRow = QueuedRow(id: nat, campaign: nat, parent: Option<nat>, source: string, context: int)

  /** A row of `workflow_runs`; `tags` is the `call_tags` array of its gathered context. */
  datatype Call = Call(queuedRun: Option<nat>, campaign: nat, createdAt: int, tags: Option<set<string>>)

  datatype Pair = Pair(root: nat, run: nat)

  /** The table has a primary key. */
  ghost predicate Keyed(rows: seq<QueuedRow>) {
    forall i, j :: 0 <= i < j < |rows| ==> rows[i].id != rows[j].id
  }

  predicate IsRoot(row: QueuedRow, campaign: nat) {
    row.campaign == campaign && row.parent.None?
  }

  predicate IsChild(row: QueuedRow, campaign: nat, parent: nat) {
    row.campaign == campaign && row.parent == Some(parent)
  }

  // ------------------------------------------------------------- trees of retries

  ghost predicate IsRootRun(rows: seq<QueuedRow>, campaign: nat, run: nat) {
    exists row :: row in rows && row.id == run && IsRoot(row, campaign)
  }

  ghost predicate IsRetryOf(rows: seq<QueuedRow>, campaign: nat, run: nat, parent: nat) {
    exists row :: row in rows && row.id == run && IsChild(row, campaign, parent)
  }

  /** A chain of retries from a root down to `path`'s last run. */
  ghost predicate IsChain(rows: seq<QueuedRow>, campaign: nat, path: seq<nat>) {
    if |path| <= 1 then |path| == 1 && IsRootRun(rows, campaign, path[0])
    else IsChain(rows, campaign, path[..|path| - 1]) &&
         IsRetryOf(rows, campaign, path[|path| - 1], path[|path| - 2])
  }

  /** `run` is `root` itself or a transitive retry of it. */
  ghost predicate InTree(rows: seq<QueuedRow>, campaign: nat, root: nat, run: nat) {
    exists path :: IsChain(rows, campaign, path) && path[0] == root && path[|path| - 1] == run
  }

  lemma RowUnique(rows: seq<QueuedRow>, a: QueuedRow, b: QueuedRow)
    requires Keyed(rows) && a in rows && b in rows && a.id == b.id
    ensures a == b
  {}

  lemma ParentUnique(rows: seq<QueuedRow>, campaign: nat, run: nat, p: nat, q: nat)
    requires Keyed(rows) && IsRetryOf(rows, campaign, run, p)
    ensures IsRetryOf(rows, campaign, run, q) ==> p == q
    ensures !IsRootRun(rows, campaign, run)
  {
    var a :| a in rows && a.id == run && IsChild(a, campaign, p);
    if IsRetryOf(rows, campaign, run, q) {
      var b :| b in rows && b.id == run && IsChild(b, campaign, q);
      RowUnique(rows, a, b);
    }
    if IsRootRun(rows, campaign, run) {
      var b :| b in rows && b.id == run && IsRoot(b, campaign);
      RowUnique(rows, a, b);
    }
  }

  /** A run has one parent and a root has none, so chains to the same run coincide. */
  lemma {:induction false} ChainUnique(rows: seq<QueuedRow>, campaign: nat, p: seq<nat>, q: seq<nat>)
    requires Keyed(rows) && IsChain(rows, campaign, p) && IsChain(rows, campaign, q)
    requires p[|p| - 1] == q[|q| - 1]
    ensures p == q
    decreases |p|
  {
    var m, n := |p| - 1, |q| - 1;
    if m > 0 {
      ParentUnique(rows, campaign, p[m], p[m - 1], if n > 0 then q[n - 1] else 0);
      ChainUnique(rows, campaign, p[..m], q[..n]);
      assert p == p[..m] + [p[m]] && q == q[..n] + [q[n]];
    } else if n > 0 {
      ParentUnique(rows, campaign, q[n], q[n - 1], 0);
    }
  }

  lemma ChainExtends(rows: seq<QueuedRow>, campaign: nat, root: nat, run: nat, next: nat)
    requires InTree(rows, campaign, root, run) && IsRetryOf(rows, campaign, next, run)
    ensures InTree(rows, campaign, root, next)
  {
    var p :| IsChain(rows, campaign, p) && p[0] == root && p[|p| - 1] == run;
    var q := p + [next];
    assert q[..|q| - 1] == p;
    assert IsChain(rows, campaign, q) && q[0] == root && q[|q| - 1] == next;
  }

  lemma RootInOwnTree(rows: seq<QueuedRow>, campaign: nat, run: nat)
    requires IsRootRun(rows, campaign, run)
    ensures InTree(rows, campaign, run, run)
  {
    assert IsChain(rows, campaign, [run]) && [run][0] == run;
  }

  // ------------------------------------------------------------- the recursive query

  /** The non-recursive term. */
  function Roots(rows: seq<QueuedRow>, campaign: nat): seq<Pair> {
    if rows == [] then []
    else Roots(rows[..|rows| - 1], campaign) +
         if IsRoot(rows[|rows| - 1], campaign) then [Pair(rows[|rows| - 1].id, rows[|rows| - 1].id)] else []
  }

  /** The retries of one working row. */
  function Retries(rows: seq<QueuedRow>, campaign: nat, w: Pair): seq<Pair> {
    if rows == [] then []
    else Retries(rows[..|rows| - 1], campaign, w) +
         if IsChild(rows[|rows| - 1], campaign, w.run) then [Pair(w.root, rows[|rows| - 1].id)] else []
  }

  /** The recursive term: the join of the working table with the queued runs. */
  function Join(rows: seq<QueuedRow>, campaign: nat, working: seq<Pair>): seq<Pair> {
    if working == [] then []
    else Join(rows, campaign, working[..|working| - 1]) + Retries(rows, campaign, working[|working| - 1])
  }

  ghost predicate DistinctRuns(pairs: seq<Pair>) {
    forall i, j :: 0 <= i < j < |pairs| ==> pairs[i].run != pairs[j].run
  }

  lemma {:induction false} RootsMeaning(rows: seq<QueuedRow>, campaign: nat)
    requires Keyed(rows)
    ensures DistinctRuns(Roots(rows, campaign))
    ensures forall p :: p in Roots(rows, campaign) <==>
                          p.root == p.run && IsRootRun(rows, campaign, p.run)
  {
    if rows == [] {
    } else {
      var n := |rows| - 1;
      RootsMeaning(rows[..n], campaign);
      assert rows == rows[..n] + [rows[n]];
      assert forall row :: row in rows[..n] ==> row.id != rows[n].id;
      if IsRoot(rows[n], campaign) {
        assert forall p :: p in Roots(rows[..n], campaign) ==> p.run != rows[n].id;
      }
    }
  }

  lemma {:induction false} RetriesMeaning(rows: seq<QueuedRow>, campaign: nat, w: Pair)
    requires Keyed(rows)
    ensures DistinctRuns(Retries(rows, campaign, w))
    ensures forall p :: p in Retries(rows, campaign, w) <==>
                          p.root == w.root && IsRetryOf(rows, campaign, p.run, w.run)
  {
    if rows == [] {
    } else {
      var n := |rows| - 1;
      RetriesMeaning(rows[..n], campaign, w);
      assert rows == rows[..n] + [rows[n]];
      assert forall row :: row in rows[..n] ==> row.id != rows[n].id;
      if IsChild(rows[n], campaign, w.run) {
        assert forall p :: p in Retries(rows[..n], campaign, w) ==> p.run != rows[n].id;
      }
    }
  }

  lemma {:induction false} JoinMeaning(rows: seq<QueuedRow>, campaign: nat, working: seq<Pair>)
    requires Keyed(rows) && DistinctRuns(working)
    ensures DistinctRuns(Join(rows, campaign, working))
    ensures forall p :: p in Join(rows, campaign, working) <==>
                          exists w :: w in working && p.root == w.root && IsRetryOf(rows, campaign, p.run, w.run)
  {
    if working == [] {
    } else {
      var n := |working| - 1;
      var before, last := Join(rows, campaign, working[..n]), Retries(rows, campaign, working[n]);
      JoinMeaning(rows, campaign, working[..n]);
      RetriesMeaning(rows, campaign, working[n]);
      assert working == working[..n] + [working[n]];
      forall p, q | p in before && q in last ensures p.run != q.run {
        var w :| w in working[..n] && p.root == w.root && IsRetryOf(rows, campaign, p.run, w.run);
        ParentUnique(rows, campaign, p.run, w.run, working[n].run);
      }
    }
  }

  /** Between rounds: the listed runs are distinct and truly in their trees; everything
      already expanded has its retries listed, and whoever is listed without being a root was
      reached from an expanded run. */
  ghost predicate WalkInv(rows: seq<QueuedRow>, campaign: nat, expanded: seq<Pair>, working: seq<Pair>) {
    && DistinctRuns(expanded + working)
    && (forall p :: p in expanded + working ==> InTree(rows, campaign, p.root, p.run))
    && (forall p :: p in Roots(rows, campaign) ==> p in expanded + working)
    && (forall p, run :: p in expanded && IsRetryOf(rows, campaign, run, p.run) ==>
       Pair(p.root, run) in expanded + working)
    && forall p :: p in expanded + working ==>
                     || IsRootRun(rows, campaign, p.run)
                     || exists w :: w in expanded && IsRetryOf(rows, campaign, p.run, w.run)
  }

  lemma WalkStart(rows: seq<QueuedRow>, campaign: nat)
    requires Keyed(rows)
    ensures WalkInv(rows, campaign, [], Roots(rows, campaign))
  {
    RootsMeaning(rows, campaign);
    var working := Roots(rows, campaign);
    assert [] + working == working;
    forall p | p in working ensures InTree(rows, campaign, p.root, p.run) {
      RootInOwnTree(rows, campaign, p.run);
    }
  }

  lemma SeparatelyListed(expanded: seq<Pair>, working: seq<Pair>, x: Pair, w: Pair)
    requires DistinctRuns(expanded + working) && x in expanded && w in working
    ensures x.run != w.run
  {
    var i :| 0 <= i < |expanded| && expanded[i] == x;
    var j :| 0 <= j < |working| && working[j] == w;
    assert (expanded + working)[i] == x && (expanded + working)[|expanded| + j] == w;
  }

  /** A run found in this round was not listed before: its only parent is in the working
      table, so that parent has not been expanded yet. */
  lemma {:induction false} RetryIsNew(rows: seq<QueuedRow>, campaign: nat, expanded: seq<Pair>, working: seq<Pair>,
                                      p: Pair, w: Pair)
    requires Keyed(rows) && WalkInv(rows, campaign, expanded, working)
    requires p in expanded + working && w in working
    ensures !IsRetryOf(rows, campaign, p.run, w.run)
  {
    if IsRetryOf(rows, campaign, p.run, w.run) {
      ParentUnique(rows, campaign, p.run, w.run, 0);
      var x :| x in expanded && IsRetryOf(rows, campaign, p.run, x.run);
      ParentUnique(rows, campaign, p.run, w.run, x.run);
      SeparatelyListed(expanded, working, x, w);
    }
  }

  lemma DistinctConcat(a: seq<Pair>, b: seq<Pair>)
    requires DistinctRuns(a) && DistinctRuns(b)
    requires forall p, q :: p in a && q in b ==> p.run != q.run
    ensures DistinctRuns(a + b)
  {}

  lemma WorkingIsDistinct(expanded: seq<Pair>, working: seq<Pair>)
    requires DistinctRuns(expanded + working)
    ensures DistinctRuns(working)
  {
    assert forall i :: 0 <= i < |working| ==> working[i] == (expanded + working)[|expanded| + i];
  }

  /** What one round finds: retries of the working table, in its trees, none listed before. */
  lemma {:induction false} NextRound(rows: seq<QueuedRow>, campaign: nat, expanded: seq<Pair>, working: seq<Pair>,
                                     q: Pair)
    requires Keyed(rows) && WalkInv(rows, campaign, expanded, working) && q in Join(rows, campaign, working)
    ensures forall p :: p in expanded + working ==> p.run != q.run
    ensures InTree(rows, campaign, q.root, q.run)
    ensures exists w :: w in working && q.root == w.root && IsRetryOf(rows, campaign, q.run, w.run)
  {
    WorkingIsDistinct(expanded, working);
    JoinMeaning(rows, campaign, working);
    var w :| w in working && q.root == w.root && IsRetryOf(rows, campaign, q.run, w.run);
    forall p | p in expanded + working ensures p.run != q.run {
      RetryIsNew(rows, campaign, expanded, working, p, w);
    }
    assert w in expanded + working;
    ChainExtends(rows, campaign, w.root, w.run, q.run);
  }

  lemma {:induction false} WalkStep(rows: seq<QueuedRow>, campaign: nat, expanded: seq<Pair>, working: seq<Pair>)
    requires Keyed(rows) && WalkInv(rows, campaign, expanded, working)
    ensures WalkInv(rows, campaign, expanded + working, Join(rows, campaign, working))
  {
    var next := Join(rows, campaign, working);
    WorkingIsDistinct(expanded, working);
    JoinMeaning(rows, campaign, working);
    forall q | q in next
      ensures forall p :: p in expanded + working ==> p.run != q.run
      ensures InTree(rows, campaign, q.root, q.run)
      ensures exists w :: w in expanded + working && IsRetryOf(rows, campaign, q.run, w.run)
    {
      NextRound(rows, campaign, expanded, working, q);
    }
    DistinctConcat(expanded + working, next);
  }

  /** Once nothing is left to expand, the listed runs hold the roots and all their retries. */
  ghost predicate Closed(rows: seq<QueuedRow>, campaign: nat, listed: seq<Pair>) {
    && (forall root :: IsRootRun(rows, campaign, root) ==> Pair(root, root) in listed)
    && forall root, parent, run :: Pair(root, parent) in listed && IsRetryOf(rows, campaign, run, parent) ==>
       Pair(root, run) in listed
  }

  lemma WalkEndsClosed(rows: seq<QueuedRow>, campaign: nat, expanded: seq<Pair>)
    requires Keyed(rows) && WalkInv(rows, campaign, expanded, [])
    ensures Closed(rows, campaign, expanded)
  {
    assert expanded + [] == expanded;
    RootsMeaning(rows, campaign);
    forall root, parent, run | Pair(root, parent) in expanded && IsRetryOf(rows, campaign, run, parent)
      ensures Pair(root, run) in expanded
    {
      var p := Pair(root, parent);
      assert p in expanded && IsRetryOf(rows, campaign, run, p.run);
    }
  }

  lemma {:induction false} ClosedHasChains(rows: seq<QueuedRow>, campaign: nat, listed: seq<Pair>, path: seq<nat>)
    requires Closed(rows, campaign, listed) && IsChain(rows, campaign, path)
    ensures Pair(path[0], path[|path| - 1]) in listed
    decreases |path|
  {
    var n := |path| - 1;
    if n == 0 {
    } else {
      ClosedHasChains(rows, campaign, listed, path[..n]);
      assert Pair(path[0], path[n - 1]) in listed && IsRetryOf(rows, campaign, path[n], path[n - 1]);
    }
  }

  ghost predicate HasRow(rows: seq<QueuedRow>, run: nat) {
    exists k :: 0 <= k < |rows| && rows[k].id == run
  }

  /** Without the row of one run the others still have theirs. */
  lemma OtherRowsStay(rows: seq<QueuedRow>, k: nat, run: nat)
    requires k < |rows| && HasRow(rows, run) && rows[k].id != run
    ensures HasRow(rows[..k] + rows[k + 1..], run)
  {
    var m :| 0 <= m < |rows| && rows[m].id == run;
    var rest := rows[..k] + rows[k + 1..];
    assert rest[if m < k then m else m - 1] == rows[m];
  }

  /** The listed runs number at most the rows, which is why the walk ends. */
  lemma {:induction false} ListedAtMostRows(rows: seq<QueuedRow>, runs: seq<nat>)
    requires forall i, j :: 0 <= i < j < |runs| ==> runs[i] != runs[j]
    requires forall i :: 0 <= i < |runs| ==> HasRow(rows, runs[i])
    ensures |runs| <= |rows|
    decreases |runs|
  {
    if runs == [] {
    } else {
      var n := |runs| - 1;
      assert HasRow(rows, runs[n]);
      var k :| 0 <= k < |rows| && rows[k].id == runs[n];
      forall i | 0 <= i < n ensures HasRow(rows[..k] + rows[k + 1..], runs[..n][i]) {
        OtherRowsStay(rows, k, runs[i]);
      }
      ListedAtMostRows(rows[..k] + rows[k + 1..], runs[..n]);
    }
  }

  lemma ListedHasRow(rows: seq<QueuedRow>, campaign: nat, root: nat, run: nat)
    requires InTree(rows, campaign, root, run)
    ensures HasRow(rows, run)
  {
    var path :| IsChain(rows, campaign, path) && path[0] == root && path[|path| - 1] == run;
    assert exists row :: row in rows && row.id == run;
    var row :| row in rows && row.id == run;
    var k :| 0 <= k < |rows| && rows[k] == row;
  }

  lemma WalkBounded(rows: seq<QueuedRow>, campaign: nat, expanded: seq<Pair>, working: seq<Pair>)
    requires WalkInv(rows, campaign, expanded, working)
    ensures |expanded| + |working| <= |rows|
  {
    var all := expanded + working;
    var runs := seq(|all|, i requires 0 <= i < |all| => all[i].run);
    forall i | 0 <= i < |runs| ensures HasRow(rows, runs[i]) {
      assert all[i] in all;
      ListedHasRow(rows, campaign, all[i].root, all[i].run);
    }
    ListedAtMostRows(rows, runs);
  }

  /** What the walk lists: each run of each tree, once, under its own root. */
  ghost predicate ListsTrees(rows: seq<QueuedRow>, campaign: nat, tree: seq<Pair>) {
    && DistinctRuns(tree)
    && forall p :: p in tree <==> InTree(rows, campaign, p.root, p.run)
  }

  /** The recursive query `run_tree`. It ends on every table, also on one whose parent links
      form cycles, and `UNION ALL` lists nothing twice. */
  method RunTree(rows: seq<QueuedRow>, campaign: nat) returns (tree: seq<Pair>)
    requires Keyed(rows)
    ensures ListsTrees(rows, campaign, tree)
  {
    var working := Roots(rows, campaign);
    tree := working;
    ghost var expanded: seq<Pair> := [];
    WalkStart(rows, campaign);
    WalkBounded(rows, campaign, expanded, working);
    while working != []
      invariant tree == expanded + working
      invariant WalkInv(rows, campaign, expanded, working)
      invariant |expanded| <= |rows|
      decreases |rows| - |expanded|
    {
      WalkStep(rows, campaign, expanded, working);
      expanded := expanded + working;
      working := Join(rows, campaign, working);
      tree := tree + working;
      WalkBounded(rows, campaign, expanded, working);
    }
    WalkEndsClosed(rows, campaign, expanded);
    forall p: Pair | InTree(rows, campaign, p.root, p.run) ensures p in tree {
      var path :| IsChain(rows, campaign, path) && path[0] == p.root && path[|path| - 1] == p.run;
      ClosedHasChains(rows, campaign, expanded, path);
    }
  }

  /** Every run belongs to at most one root. */
  lemma RootUnique(rows: seq<QueuedRow>, campaign: nat, a: nat, b: nat, run: nat)
    requires Keyed(rows) && InTree(rows, campaign, a, run) && InTree(rows, campaign, b, run)
    ensures a == b
  {
    var p :| IsChain(rows, campaign, p) && p[0] == a && p[|p| - 1] == run;
    var q :| IsChain(rows, campaign, q) && q[0] == b && q[|q| - 1] == run;
    ChainUnique(rows, campaign, p, q);
  }

  // -------------------------------------------------------- the latest call per tree

  /** The three failure reasons a redial can select. */
  datatype Reasons = Reasons(voicemail: bool, noAnswer: bool, busy: bool)

  /** `call_tags @> '["..."]'` for one of the selected reasons; without tags, no clause holds. */
  predicate Tagged(reasons: Reasons, call: Call) {
    call.tags.Some? &&
    (|| (reasons.voicemail && "voicemail_detected" in call.tags.value)
     || (reasons.noAnswer && "telephony_no-answer" in call.tags.value)
     || (reasons.busy && "telephony_busy" in call.tags.value))
  }

  /** The call was made for a run in the tree of `root`. */
  ghost predicate IsCallOf(rows: seq<QueuedRow>, campaign: nat, root: nat, call: Call) {
    call.campaign == campaign && call.queuedRun.Some? && InTree(rows, campaign, root, call.queuedRun.value)
  }

  ghost predicate IsLatest(rows: seq<QueuedRow>, calls: seq<Call>, campaign: nat, root: nat, call: Call) {
    && call in calls && IsCallOf(rows, campaign, root, call)
    && forall other :: other in calls && IsCallOf(rows, campaign, root, other) ==> other.createdAt <= call.createdAt
  }

  /** One latest call for every tree that has calls. Calls made at the same instant leave
      the database a choice. */
  ghost predicate PicksLatest(rows: seq<QueuedRow>, calls: seq<Call>, campaign: nat, latest: map<nat, Call>) {
    && (forall root :: root in latest ==> IsLatest(rows, calls, campaign, root, latest[root]))
    && forall root, call :: call in calls && IsCallOf(rows, campaign, root, call) ==> root in latest
  }

  /** The `run_tree` row of a run, if the walk reached it. */
  method RootOf(tree: seq<Pair>, run: nat) returns (root: Option<nat>)
    ensures root.Some? ==> Pair(root.value, run) in tree
    ensures root.None? ==> forall p :: p in tree ==> p.run != run
  {
    for i := 0 to |tree|
      invariant forall j :: 0 <= j < i ==> tree[j].run != run
    {
      if tree[i].run == run {
        return Some(tree[i].root);
      }
    }
    root := None;
  }

  /** The query `latest_run_per_root`. */
  method LatestPerRoot(rows: seq<QueuedRow>, calls: seq<Call>, campaign: nat, tree: seq<Pair>)
    returns (latest: map<nat, Call>)
    requires Keyed(rows) && ListsTrees(rows, campaign, tree)
    ensures PicksLatest(rows, calls, campaign, latest)
  {
    latest := map[];
    for i := 0 to |calls|
      invariant PicksLatest(rows, calls[..i], campaign, latest)
    {
      var call := calls[i];
      assert calls[..i + 1] == calls[..i] + [call];
      if call.campaign == campaign && call.queuedRun.Some? {
        var root := RootOf(tree, call.queuedRun.value);
        if root.Some? {
          assert IsCallOf(rows, campaign, root.value, call);
          OnlyRoot(rows, campaign, root.value, call);
          if root.value !in latest || latest[root.value].createdAt < call.createdAt {
            latest := latest[root.value := call];
          }
        } else {
          NoRoot(rows, campaign, tree, call);
        }
      }
    }
    assert calls[..|calls|] == calls;
  }

  lemma OnlyRoot(rows: seq<QueuedRow>, campaign: nat, root: nat, call: Call)
    requires Keyed(rows) && IsCallOf(rows, campaign, root, call)
    ensures forall r :: IsCallOf(rows, campaign, r, call) ==> r == root
  {
    forall r | IsCallOf(rows, campaign, r, call) ensures r == root {
      RootUnique(rows, campaign, r, root, call.queuedRun.value);
    }
  }

  lemma NoRoot(rows: seq<QueuedRow>, campaign: nat, tree: seq<Pair>, call: Call)
    requires ListsTrees(rows, campaign, tree) && call.queuedRun.Some?
    requires forall p :: p in tree ==> p.run != call.queuedRun.value
    ensures forall r :: !IsCallOf(rows, campaign, r, call)
  {
    forall r ensures !IsCallOf(rows, campaign, r, call) {
      assert Pair(r, call.queuedRun.value) !in tree;
    }
  }

  // ------------------------------------------------------------------ the selection

  function Selected(rows: seq<QueuedRow>, campaign: nat, latest: map<nat, Call>, reasons: Reasons): seq<QueuedRow> {
    if rows == [] then []
    else
      var row := rows[|rows| - 1];
      Selected(rows[..|rows| - 1], campaign, latest, reasons) +
      if row.campaign == campaign && row.id in latest && Tagged(reasons, latest[row.id]) then [row] else []
  }

  /** `get_redial_candidates`: the selected root rows, in table order. The source keeps only
      their source id and context. */
  method GetRedialCandidates(rows: seq<QueuedRow>, calls: seq<Call>, campaign: nat, reasons: Reasons)
    returns (candidates: seq<QueuedRow>)
    requires Keyed(rows)
    ensures exists latest :: PicksLatest(rows, calls, campaign, latest) &&
                             candidates == Selected(rows, campaign, latest, reasons)
  {
    var tree := RunTree(rows, campaign);
    var latest := LatestPerRoot(rows, calls, campaign, tree);
    if !reasons.voicemail && !reasons.noAnswer && !reasons.busy {
      NothingSelected(rows, campaign, latest, reasons);
      return [];
    }
    candidates := [];
    for i := 0 to |rows|
      invariant candidates == Selected(rows[..i], campaign, latest, reasons)
    {
      var row := rows[i];
      assert rows[..i + 1][..i] == rows[..i];
      if row.campaign == campaign && row.id in latest && Tagged(reasons, latest[row.id]) {
        candidates := candidates + [row];
      }
    }
    assert rows[..|rows|] == rows;
  }

  lemma NothingSelected(rows: seq<QueuedRow>, campaign: nat, latest: map<nat, Call>, reasons: Reasons)
    requires !reasons.voicemail && !reasons.noAnswer && !reasons.busy
    ensures Selected(rows, campaign, latest, reasons) == []
  {}

  lemma {:induction false} SelectedMeaning(rows: seq<QueuedRow>, campaign: nat, latest: map<nat, Call>,
                                           reasons: Reasons)
    requires Keyed(rows)
    ensures var s := Selected(rows, campaign, latest, reasons);
            && (forall row :: row in s <==>
                                row in rows && row.campaign == campaign && row.id in latest &&
                                  Tagged(reasons, latest[row.id]))
            && forall i, j :: 0 <= i < j < |s| ==> s[i].id != s[j].id
  {
    if rows == [] {
    } else {
      var n := |rows| - 1;
      var before := Selected(rows[..n], campaign, latest, reasons);
      SelectedMeaning(rows[..n], campaign, latest, reasons);
      assert rows == rows[..n] + [rows[n]];
      forall i | 0 <= i < |before| ensures before[i].id != rows[n].id {
        assert before[i] in rows[..n];
      }
    }
  }

  /** Calls of one tree that tie for the latest agree about the selected reasons. */
  ghost predicate LatestAgree(rows: seq<QueuedRow>, calls: seq<Call>, campaign: nat, reasons: Reasons) {
    forall root, a, b :: IsLatest(rows, calls, campaign, root, a) && IsLatest(rows, calls, campaign, root, b) ==>
                           (Tagged(reasons, a) <==> Tagged(reasons, b))
  }

  /** Selection refines its specification: whatever order the database reads rows in, a row is
      returned, once, exactly when it is the root of a tree whose latest call carries one of
      the selected tags. */
  lemma SelectionExact(rows: seq<QueuedRow>, calls: seq<Call>, campaign: nat, latest: map<nat, Call>,
                       reasons: Reasons, row: QueuedRow)
    requires Keyed(rows) && PicksLatest(rows, calls, campaign, latest) && LatestAgree(rows, calls, campaign, reasons)
    ensures row in Selected(rows, campaign, latest, reasons) <==>
            row in rows && IsRoot(row, campaign) &&
            exists call :: IsLatest(rows, calls, campaign, row.id, call) && Tagged(reasons, call)
  {
    SelectedMeaning(rows, campaign, latest, reasons);
    if row in Selected(rows, campaign, latest, reasons) {
      SelectedIsLatest(rows, calls, campaign, latest, reasons, row);
    } else if row in rows && IsRoot(row, campaign) {
      forall call | IsLatest(rows, calls, campaign, row.id, call) ensures !Tagged(reasons, call) {
        assert IsLatest(rows, calls, campaign, row.id, latest[row.id]);
      }
    }
  }

  lemma SelectedIsLatest(rows: seq<QueuedRow>, calls: seq<Call>, campaign: nat, latest: map<nat, Call>,
                         reasons: Reasons, row: QueuedRow)
    requires Keyed(rows) && PicksLatest(rows, calls, campaign, latest) &&
             row in Selected(rows, campaign, latest, reasons)
    ensures row in rows && IsRoot(row, campaign) && row.id in latest
    ensures IsLatest(rows, calls, campaign, row.id, latest[row.id]) && Tagged(reasons, latest[row.id])
  {
    SelectedMeaning(rows, campaign, latest, reasons);
    var path :| IsChain(rows, campaign, path) && path[0] == row.id &&
      path[|path| - 1] == latest[row.id].queuedRun.value;
    ChainStartsAtRoot(rows, campaign, path);
    var root :| root in rows && root.id == row.id && IsRoot(root, campaign);
    RowUnique(rows, root, row);
  }

  lemma Repick(rows: seq<QueuedRow>, calls: seq<Call>, campaign: nat, latest: map<nat, Call>, root: nat, call: Call)
    requires PicksLatest(rows, calls, campaign, latest) && IsLatest(rows, calls, campaign, root, call)
    ensures PicksLatest(rows, calls, campaign, latest[root := call])
  {}

  /** When tied calls disagree, the database may answer either way. */
  lemma {:induction false} TiesDecide(rows: seq<QueuedRow>, calls: seq<Call>, campaign: nat, latest: map<nat, Call>,
                                      reasons: Reasons,
                   row: QueuedRow, a: Call, b: Call)
    requires Keyed(rows) && PicksLatest(rows, calls, campaign, latest)
    requires row in rows && IsRoot(row, campaign)
    requires IsLatest(rows, calls, campaign, row.id, a) && IsLatest(rows, calls, campaign, row.id, b)
    requires Tagged(reasons, a) && !Tagged(reasons, b)
    ensures PicksLatest(rows, calls, campaign, latest[row.id := a]) &&
            PicksLatest(rows, calls, campaign, latest[row.id := b])
    ensures row in Selected(rows, campaign, latest[row.id := a], reasons)
    ensures row !in Selected(rows, campaign, latest[row.id := b], reasons)
  {
    Repick(rows, calls, campaign, latest, row.id, a);
    Repick(rows, calls, campaign, latest, row.id, b);
    SelectedMeaning(rows, campaign, latest[row.id := a], reasons);
    SelectedMeaning(rows, campaign, latest[row.id := b], reasons);
  }

  lemma {:induction false} ChainStartsAtRoot(rows: seq<QueuedRow>, campaign: nat, path: seq<nat>)
    requires IsChain(rows, campaign, path)
    ensures IsRootRun(rows, campaign, path[0])
  {
    if |path| == 1 {
    } else {
      ChainStartsAtRoot(rows, campaign, path[..|path| - 1]);
    }
  }

  predicate Implies(a: Reasons, b: Reasons) {
    (a.voicemail ==> b.voicemail) && (a.noAnswer ==> b.noAnswer) && (a.busy ==> b.busy)
  }

  /** Enabling more reasons only adds candidates, even across two separate queries. */
  lemma {:induction false} MoreReasonsMoreCandidates(rows: seq<QueuedRow>, calls: seq<Call>, campaign: nat,
                                                     first: map<nat, Call>, second: map<nat, Call>,
                                  a: Reasons, b: Reasons)
    requires Keyed(rows) && LatestAgree(rows, calls, campaign, b) && Implies(a, b)
    requires PicksLatest(rows, calls, campaign, first) && PicksLatest(rows, calls, campaign, second)
    ensures forall row :: row in Selected(rows, campaign, first, a) ==> row in Selected(rows, campaign, second, b)
  {
    forall row | row in Selected(rows, campaign, first, a) ensures row in Selected(rows, campaign, second, b) {
      SelectedIsLatest(rows, calls, campaign, first, a, row);
      SelectionExact(rows, calls, campaign, second, b, row);
    }
  }
}
