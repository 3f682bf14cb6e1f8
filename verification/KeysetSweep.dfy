/** Keyset paging over a table that others change between pages, and the two sweeps built on it
    (`api/db/webhook_delivery_client.py:219-244`, `api/tasks/webhook_delivery.py:385-424`,
    `api/db/workflow_run_text_session_client.py:87-140`, `api/tasks/text_chat_inactivity.py:28-84`). */
module KeysetSweep {
  import opened Optional
  import W = WebhookDeliveries

  /** An `Integer` primary key. */
  const MAX_ID: nat := 0x7fff_ffff

  type Id = n: nat | 0 < n <= MAX_ID witness 1

  // ----------------------------------------------------------------------- pages

  function Above(ids: set<Id>, after: nat): (r: set<Id>)
    ensures forall x :: x in r <==> x in ids && x > after
  {
    set x | x in ids && x > after
  }

  lemma {:induction false} LeastExists(ids: set<Id>) returns (m: Id)
    requires ids != {}
    ensures m in ids && forall x :: x in ids ==> m <= x
    decreases |ids|
  {
    m :| m in ids;
    var rest := ids - {m};
    if rest != {} {
      var n := LeastExists(rest);
      assert forall x :: x in ids ==> x == m || x in rest;
      if n < m { m := n; }
    }
  }

  function Least(ids: set<Id>): (m: Id)
    requires ids != {}
    ensures m in ids && forall x :: x in ids ==> m <= x
  {
    assert exists m :: m in ids && forall x :: x in ids ==> m <= x by { var m := LeastExists(ids); }
    var m :| m in ids && forall x :: x in ids ==> m <= x;
    m
  }

  /** `WHERE id > after ORDER BY id LIMIT limit`. */
  function Page(ids: set<Id>, after: nat, limit: nat): seq<Id>
    decreases limit
  {
    if limit == 0 || Above(ids, after) == {} then []
    else
      var m := Least(Above(ids, after));
      [m] + Page(ids, m, limit - 1)
  }

  predicate Increasing(ids: seq<Id>) {
    forall i, j :: 0 <= i < j < |ids| ==> ids[i] < ids[j]
  }

  /** The page holds the `limit` smallest keys after the cursor: all of them when it is short,
      and otherwise all up to its last. */
  lemma {:induction false} PageMeaning(ids: set<Id>, after: nat, limit: nat)
    ensures var page := Page(ids, after, limit);
            && |page| <= limit
            && Increasing(page)
            && (forall x :: x in page ==> x in ids && x > after)
            && (forall x :: x in ids && x > after ==> x in page || (|page| == limit && forall y :: y in page ==> y < x))
    decreases limit
  {
    if limit == 0 || Above(ids, after) == {} {
    } else {
      var m := Least(Above(ids, after));
      PageMeaning(ids, m, limit - 1);
      var rest := Page(ids, m, limit - 1);
      assert forall x :: x in ids && x > after ==> x == m || x > m;
      assert forall i :: 0 <= i < |rest| ==> rest[i] in rest;
    }
  }

  // ------------------------------------------------------------- an unbounded sweep

  function Rows<R>(table: map<Id, R>, page: seq<Id>): (r: seq<(Id, R)>)
    requires forall x :: x in page ==> x in table
    ensures |r| == |page| && forall i :: 0 <= i < |r| ==> r[i] == (page[i], table[page[i]])
  {
    seq(|page|, i requires 0 <= i < |page| => (page[i], table[page[i]]))
  }

  /** Rows in key order, all after the cursor. */
  predicate Ascends<R>(after: nat, rows: seq<(Id, R)>) {
    && (forall i :: 0 <= i < |rows| ==> after < rows[i].0)
    && (forall i, j :: 0 <= i < j < |rows| ==> rows[i].0 < rows[j].0)
  }

  function NextPage<R>(table: map<Id, R>, after: nat, size: nat): (r: seq<(Id, R)>)
    ensures Ascends(after, r)
  {
    PageMeaning(table.Keys, after, size);
    var page := Page(table.Keys, after, size);
    assert forall i :: 0 <= i < |page| ==> page[i] in page;
    Rows(table, page)
  }

  /** A page for each query number and cursor. */
  type Query<!R> = (nat, nat) -> seq<(Id, R)>

  /** Every page is in key order and moves the cursor on. */
  ghost predicate Advances<R(!new)>(query: Query<R>) {
    forall q: nat, after: nat {:trigger query(q, after)} :: Ascends(after, query(q, after))
  }

  /** The pages of a sweep; `world(q)` holds the rows that qualify when query `q` runs. */
  function Pages<R(!new)>(world: nat -> map<Id, R>, size: nat): (r: Query<R>)
    ensures Advances(r)
  {
    var r: Query<R> := (q, after) => NextPage(world(q), after, size);
    assert forall q: nat, after: nat {:trigger r(q, after)} :: r(q, after) == NextPage(world(q), after, size);
    r
  }

  /** Every row a sweep sees. */
  function Swept<R(!new)>(query: Query<R>, q: nat, after: nat, size: nat): seq<(Id, R)>
    requires size > 0 && Advances(query)
    decreases MAX_ID - after
  {
    var page := query(q, after);
    if |page| < size then page else page + Swept(query, q + 1, page[|page| - 1].0, size)
  }

  /** The query that decides about a key: the first one whose page reaches it or is short. */
  function Decider<R(!new)>(query: Query<R>, q: nat, after: nat, size: nat, x: Id): (r: nat)
    requires size > 0 && Advances(query)
    ensures q <= r
    decreases MAX_ID - after
  {
    var page := query(q, after);
    if |page| < size || x <= page[|page| - 1].0 then q else Decider(query, q + 1, page[|page| - 1].0, size, x)
  }

  lemma NextPageMeaning<R>(table: map<Id, R>, after: nat, size: nat, x: Id, row: R)
    requires x > after
    ensures var page := NextPage(table, after, size);
            if |page| < size || (page != [] && x <= page[|page| - 1].0) then (x, row) in page <==>
              x in table && table[x] == row
            else (x, row) !in page
  {
    PageMeaning(table.Keys, after, size);
    var ids, page := Page(table.Keys, after, size), NextPage(table, after, size);
    assert forall i :: 0 <= i < |ids| ==> page[i].0 == ids[i];
    if x in ids {
      var i :| 0 <= i < |ids| && ids[i] == x;
      assert page[i] == (x, table[x]);
    }
    if (x, row) in page {
      var i :| 0 <= i < |page| && page[i] == (x, row);
      assert ids[i] in ids;
    }
  }

  lemma AscendsAppend<R>(after: nat, first: seq<(Id, R)>, rest: seq<(Id, R)>)
    requires first != [] && Ascends(after, first) && Ascends(first[|first| - 1].0, rest)
    ensures Ascends(after, first + rest)
  {
    var all, last := first + rest, first[|first| - 1].0;
    forall i, j | 0 <= i < j < |all| ensures all[i].0 < all[j].0 {
      assert i < |first| ==> all[i].0 <= last;
      assert j >= |first| ==> last < all[j].0;
    }
  }

  /** Keys come in increasing order, so no row is seen twice, whatever changes in between. */
  lemma {:induction false} SweptAscends<R(!new)>(query: Query<R>, q: nat, after: nat, size: nat)
    requires size > 0 && Advances(query)
    ensures Ascends(after, Swept(query, q, after, size))
    decreases MAX_ID - after
  {
    var page := query(q, after);
    if |page| < size {
    } else {
      SweptAscends(query, q + 1, page[|page| - 1].0, size);
      AscendsAppend(after, page, Swept(query, q + 1, page[|page| - 1].0, size));
    }
  }

  /** A sweep sees a row exactly when it qualifies at the query that decides about its key. */
  lemma {:induction false} SweptExactly<R(!new)>(world: nat -> map<Id, R>, q: nat, after: nat, size: nat, x: Id, row: R)
    requires size > 0 && x > after
    ensures var k := Decider(Pages(world, size), q, after, size, x);
            (x, row) in Swept(Pages(world, size), q, after, size) <==> x in world(k) && world(k)[x] == row
    decreases MAX_ID - after
  {
    var query := Pages(world, size);
    var page := query(q, after);
    assert page == NextPage(world(q), after, size);
    NextPageMeaning(world(q), after, size, x, row);
    if |page| < size {
    } else {
      var last := page[|page| - 1].0;
      var rest := Swept(query, q + 1, last, size);
      assert Swept(query, q, after, size) == page + rest;
      if x <= last {
        SweptAscends(query, q + 1, last, size);
        assert (x, row) !in rest;
      } else {
        SweptExactly(world, q + 1, last, size, x, row);
      }
    }
  }

  /** The number of the last query of a sweep. */
  function LastQuery<R(!new)>(query: Query<R>, q: nat, after: nat, size: nat): nat
    requires size > 0 && Advances(query)
    decreases MAX_ID - after
  {
    var page := query(q, after);
    if |page| < size then q else LastQuery(query, q + 1, page[|page| - 1].0, size)
  }

  lemma {:induction false} DeciderRuns<R(!new)>(query: Query<R>, q: nat, after: nat, size: nat, x: Id)
    requires size > 0 && Advances(query)
    ensures Decider(query, q, after, size, x) <= LastQuery(query, q, after, size)
    ensures q <= LastQuery(query, q, after, size)
    decreases MAX_ID - after
  {
    var page := query(q, after);
    if |page| < size {
    } else {
      DeciderRuns(query, q + 1, page[|page| - 1].0, size, x);
    }
  }

  /** So a row that qualifies throughout the sweep is seen, once, though other rows come and
      go between the pages. */
  lemma PersistentRowIsSweptOnce<R(!new)>(world: nat -> map<Id, R>, size: nat, x: Id) returns (i: nat)
    requires size > 0 && forall k :: 0 <= k <= LastQuery(Pages(world, size), 0, 0, size) ==> x in world(k)
    ensures var swept := Swept(Pages(world, size), 0, 0, size);
            && i < |swept| && swept[i].0 == x
            && (forall j {:trigger swept[j]} :: 0 <= j < |swept| && swept[j].0 == x ==> j == i)
  {
    var swept, k := Swept(Pages(world, size), 0, 0, size), Decider(Pages(world, size), 0, 0, size, x);
    DeciderRuns(Pages(world, size), 0, 0, size, x);
    SweptExactly(world, 0, 0, size, x, world(k)[x]);
    assert (x, world(k)[x]) in swept;
    i :| 0 <= i < |swept| && swept[i].0 == x;
    SweptAscends(Pages(world, size), 0, 0, size);
  }

  // ------------------------------------------------------------ webhook deliveries

  /** What is enqueued for a delivery; the lease timestamp makes the job id fresh. */
  datatype Job = Job(id: Id, attempts: nat, reclaimToken: int)

  predicate Due(delivery: W.Delivery, now: int) {
    delivery.status == W.Pending && delivery.scheduledFor.Some? && delivery.scheduledFor.value <= now
  }

  /** The rows due when each query runs, given the table and the clock at that moment. */
  function DueRows(tables: nat -> map<Id, W.Delivery>, clock: nat -> int): nat -> map<Id, W.Delivery> {
    (q: nat) => map id | id in tables(q) && Due(tables(q)[id], clock(q)) :: tables(q)[id]
  }

  function JobOf(row: (Id, W.Delivery)): Job {
    Job(row.0, row.1.attempts, if row.1.scheduledFor.Some? then row.1.scheduledFor.value else 0)
  }

  function JobsOf(rows: seq<(Id, W.Delivery)>): (r: seq<Job>)
    ensures |r| == |rows| && forall i :: 0 <= i < |r| ==> r[i] == JobOf(rows[i])
  {
    seq(|rows|, i requires 0 <= i < |rows| => JobOf(rows[i]))
  }

  const WEBHOOK_PAGE_SIZE: nat := 100

  lemma Associates<T>(a: seq<T>, b: seq<T>, c: seq<T>)
    ensures (a + b) + c == a + (b + c)
  {
  }

  lemma JobsAppend(first: seq<(Id, W.Delivery)>, rest: seq<(Id, W.Delivery)>)
    ensures JobsOf(first + rest) == JobsOf(first) + JobsOf(rest)
  {
  }

  /** `sweep_webhook_deliveries`: it stops because keys are bounded and the cursor only grows. */
  method SweepWebhookDeliveries(tables: nat -> map<Id, W.Delivery>, clock: nat -> int)
    returns (jobs: seq<Job>, total: nat)
    ensures jobs == JobsOf(Swept(Pages(DueRows(tables, clock), WEBHOOK_PAGE_SIZE), 0, 0, WEBHOOK_PAGE_SIZE))
    ensures total == |jobs|
  {
    jobs, total := SweepDeliveries(Pages(DueRows(tables, clock), WEBHOOK_PAGE_SIZE), WEBHOOK_PAGE_SIZE);
  }

  method SweepDeliveries(query: Query<W.Delivery>, size: nat) returns (jobs: seq<Job>, total: nat)
    requires size > 0 && Advances(query)
    ensures jobs == JobsOf(Swept(query, 0, 0, size))
    ensures total == |jobs|
  {
    var after: nat, q: nat := 0, 0;
    jobs, total := [], 0;
    ghost var seen, left := [], Swept(query, q, after, size);
    ghost var all := left;
    while true
      invariant jobs == JobsOf(seen) && total == |jobs|
      invariant seen + left == all
      invariant left == Swept(query, q, after, size)
      decreases MAX_ID - after
    {
      var due := query(q, after);
      if due == [] {
        break;
      }
      var enqueued := EnqueueEach(due);
      jobs, total := jobs + enqueued, total + |due|;
      JobsAppend(seen, due);
      Associates(seen, due, left[|due|..]);
      assert left == due + left[|due|..];
      seen, left := seen + due, left[|due|..];
      if |due| < size {
        break;
      }
      after := due[|due| - 1].0;
      q := q + 1;
    }
    assert left == [];
  }

  method EnqueueEach(due: seq<(Id, W.Delivery)>) returns (jobs: seq<Job>)
    ensures jobs == JobsOf(due)
  {
    jobs := [];
    for i := 0 to |due|
      invariant jobs == JobsOf(due)[..i]
    {
      jobs := jobs + [JobOf(due[i])];
    }
  }

  // --------------------------------------------------------- inactive text chats

  const SECOND: int := 1_000_000
  const MIN_TIMEOUT: int := 60 * SECOND
  const LOOKBACK: int := 3 * 60 * 60 * SECOND
  const SWEEP_INTERVAL: int := 5 * 60 * SECOND
  const MAX_TIMEOUT: int := LOOKBACK - SWEEP_INTERVAL
  const CHAT_PAGE_SIZE: nat := 500
  const MAX_PAGES: nat := 10
  const ENQUEUE_LIMIT: nat := 500

  /** A text session with the run it belongs to; `configured` is the run's own timeout. */
  datatype Chat = Chat(
    textChat: bool, completed: bool, updated: Option<int>, created: Option<int>, runCreated: Option<int>,
    configured: int, revision: nat)

  predicate Within(time: Option<int>, since: int, before: int) {
    time.Some? && since <= time.value <= before
  }

  /** The query's filter. */
  predicate Inactive(chat: Chat, since: int, before: int) {
    && chat.textChat
    && !chat.completed
    && (|| Within(chat.updated, since, before)
        || (chat.updated.None? && Within(chat.created, since, before))
        || (chat.updated.None? && chat.created.None? && Within(chat.runCreated, since, before)))
  }

  function LastActivity(chat: Chat): Option<int> {
    if chat.updated.Some? then chat.updated else if chat.created.Some? then chat.created else chat.runCreated
  }

  function Timeout(chat: Chat): (r: int)
    ensures MIN_TIMEOUT <= r <= MAX_TIMEOUT
  {
    var atLeast := if chat.configured > MIN_TIMEOUT then chat.configured else MIN_TIMEOUT;
    if atLeast < MAX_TIMEOUT then atLeast else MAX_TIMEOUT
  }

  /** `inactivity_deadline <= completed_at`; without any activity the deadline is a later clock
      reading. */
  predicate Expired(chat: Chat, now: int) {
    LastActivity(chat).Some? && LastActivity(chat).value + Timeout(chat) <= now
  }

  /** The coarse filter loses nothing: an incomplete chat is a candidate at every sweep from the
      end of its own timeout until one sweep interval later. */
  lemma ExpiredIsCandidate(chat: Chat, now: int)
    requires chat.textChat && !chat.completed && Expired(chat, now)
    requires now <= LastActivity(chat).value + Timeout(chat) + SWEEP_INTERVAL
    ensures Inactive(chat, now - LOOKBACK, now - MIN_TIMEOUT)
  {
  }

  function Candidates(tables: nat -> map<Id, Chat>, now: int): nat -> map<Id, Chat> {
    (q: nat) => map id | id in tables(q) && Inactive(tables(q)[id], now - LOOKBACK, now - MIN_TIMEOUT) :: tables(q)[id]
  }

  /** The first `room` rows whose time is up and whose enqueueing succeeds. */
  function Taken(rows: seq<(Id, Chat)>, now: int, accepts: Id -> bool, room: nat): (r: seq<(Id, Chat)>)
    ensures |r| <= room
  {
    if rows == [] || room == 0 then []
    else if Expired(rows[0].1, now) && accepts(rows[0].0) then [rows[0]] + Taken(rows[1..], now, accepts, room - 1)
    else Taken(rows[1..], now, accepts, room)
  }

  /** What a sweep sees in at most `pages` pages. */
  function SweptPages<R>(query: Query<R>, q: nat, after: nat, size: nat, pages: nat): seq<(Id, R)>
    requires size > 0
    decreases pages
  {
    if pages == 0 then []
    else
      var page := query(q, after);
      if |page| < size then page else page + SweptPages(query, q + 1, page[|page| - 1].0, size, pages - 1)
  }

  lemma {:induction false} TakenAppend(first: seq<(Id, Chat)>, rest: seq<(Id, Chat)>, now: int, accepts: Id -> bool,
                                       room: nat)
    ensures Taken(first + rest, now, accepts, room)
         == Taken(first, now, accepts, room) + Taken(rest, now, accepts, room - |Taken(first, now, accepts, room)|)
  {
    if first == [] {
      assert first + rest == rest;
    } else if room > 0 {
      assert (first + rest)[1..] == first[1..] + rest;
      var take := Expired(first[0].1, now) && accepts(first[0].0);
      TakenAppend(first[1..], rest, now, accepts, if take then room - 1 else room);
    }
  }

  /** The sweep ends within so many pages. */
  predicate Fits<R>(query: Query<R>, q: nat, after: nat, size: nat, pages: nat)
    requires size > 0
    decreases pages
  {
    && pages > 0
    && var page := query(q, after);
       (|page| < size || Fits(query, q + 1, page[|page| - 1].0, size, pages - 1))
  }

  lemma {:induction false} FittingSweepIsWhole<R(!new)>(query: Query<R>, q: nat, after: nat, size: nat, pages: nat)
    requires size > 0 && Advances(query) && Fits(query, q, after, size, pages)
    ensures SweptPages(query, q, after, size, pages) == Swept(query, q, after, size)
    decreases pages
  {
    var page := query(q, after);
    if |page| < size {
    } else {
      FittingSweepIsWhole(query, q + 1, page[|page| - 1].0, size, pages - 1);
    }
  }

  /** What is left to take of a sweep with so much room. */
  function LeftToTake(query: Query<Chat>, q: nat, after: nat, size: nat, pages: nat, now: int, accepts: Id -> bool,
                      room: nat): seq<(Id, Chat)>
    requires size > 0
  {
    Taken(SweptPages(query, q, after, size, pages), now, accepts, room)
  }

  lemma PageThenRest(query: Query<Chat>, q: nat, after: nat, size: nat, pages: nat, now: int, accepts: Id -> bool,
                     room: nat)
    requires size > 0 && pages > 0
    ensures var page := query(q, after);
            var taken := Taken(page, now, accepts, room);
            var left := LeftToTake(query, q, after, size, pages, now, accepts, room);
            if |page| < size || |taken| == room then left == taken
            else
              var rest := LeftToTake(query, q + 1, page[|page| - 1].0, size, pages - 1, now, accepts, room - |taken|);
              left == taken + rest
  {
    var page := query(q, after);
    if |page| >= size {
      TakenAppend(page, SweptPages(query, q + 1, page[|page| - 1].0, size, pages - 1), now, accepts, room);
    }
  }

  /** The loop over one page, which stops as soon as the limit is reached. */
  method EnqueueExpired(page: seq<(Id, Chat)>, now: int, accepts: Id -> bool, room: nat)
    returns (taken: seq<(Id, Chat)>)
    requires room > 0
    ensures taken == Taken(page, now, accepts, room)
  {
    taken := [];
    var i := 0;
    while i < |page|
      invariant 0 <= i <= |page| && |taken| < room
      invariant taken == Taken(page[..i], now, accepts, room)
    {
      TakenAppend(page[..i], [page[i]], now, accepts, room);
      assert page[..i + 1] == page[..i] + [page[i]];
      if Expired(page[i].1, now) && accepts(page[i].0) {
        taken := taken + [page[i]];
      }
      i := i + 1;
      if |taken| >= room {
        TakenAppend(page[..i], page[i..], now, accepts, room);
        assert page == page[..i] + page[i..];
        return;
      }
    }
    assert page[..i] == page;
  }

  /** `sweep_inactive_text_chat_sessions`: stopping at the page limit and at the enqueue limit,
      even inside a page, takes exactly the first `ENQUEUE_LIMIT` of what is up in the first
      `MAX_PAGES` pages; the scan limit is reported when those pages were not the whole sweep. */
  method SweepInactiveTextChats(tables: nat -> map<Id, Chat>, now: int, accepts: Id -> bool)
    returns (enqueued: seq<(Id, Chat)>, reachedScanLimit: bool)
    ensures var query := Pages(Candidates(tables, now), CHAT_PAGE_SIZE);
            && enqueued == LeftToTake(query, 0, 0, CHAT_PAGE_SIZE, MAX_PAGES, now, accepts, ENQUEUE_LIMIT)
            && (reachedScanLimit <==> |enqueued| < ENQUEUE_LIMIT && !Fits(query, 0, 0, CHAT_PAGE_SIZE, MAX_PAGES))
  {
    var query := Pages(Candidates(tables, now), CHAT_PAGE_SIZE);
    enqueued, reachedScanLimit := SweepCandidates(query, now, accepts, CHAT_PAGE_SIZE, MAX_PAGES, ENQUEUE_LIMIT);
  }

  method SweepCandidates(query: Query<Chat>, now: int, accepts: Id -> bool, size: nat, maxPages: nat, limit: nat)
    returns (enqueued: seq<(Id, Chat)>, reachedScanLimit: bool)
    requires size > 0 && limit > 0
    ensures enqueued == LeftToTake(query, 0, 0, size, maxPages, now, accepts, limit)
    ensures reachedScanLimit <==> |enqueued| < limit && !Fits(query, 0, 0, size, maxPages)
  {
    enqueued, reachedScanLimit := [], true;
    var q: nat, after: nat, pages, room := 0, 0, maxPages, limit;
    ghost var left := LeftToTake(query, q, after, size, pages, now, accepts, room);
    while pages > 0
      invariant |enqueued| + room == limit && room > 0
      invariant enqueued + left == LeftToTake(query, 0, 0, size, maxPages, now, accepts, limit)
      invariant left == LeftToTake(query, q, after, size, pages, now, accepts, room)
      invariant Fits(query, q, after, size, pages) == Fits(query, 0, 0, size, maxPages)
    {
      var taken, last, stop := SweepPage(query, q, after, size, pages, now, accepts, room);
      Associates(enqueued, taken, left[|taken|..]);
      enqueued, left := enqueued + taken, left[|taken|..];
      if stop {
        return enqueued, false;
      }
      q, after, pages, room := q + 1, last, pages - 1, room - |taken|;
    }
  }

  /** One round of the sweep; it is the last one when the page is short or the limit is met. */
  method SweepPage(query: Query<Chat>, q: nat, after: nat, size: nat, pages: nat, now: int, accepts: Id -> bool,
                   room: nat)
    returns (taken: seq<(Id, Chat)>, last: nat, stop: bool)
    requires size > 0 && pages > 0 && room > 0
    ensures |taken| <= room && (!stop ==> |taken| < room)
    ensures LeftToTake(query, q, after, size, pages, now, accepts, room)
         == if stop then taken
           else taken + LeftToTake(query, q + 1, last, size, pages - 1, now, accepts, room - |taken|)
    ensures if stop then |taken| == room || Fits(query, q, after, size, pages)
            else Fits(query, q, after, size, pages) == Fits(query, q + 1, last, size, pages - 1)
  {
    var page := query(q, after);
    PageThenRest(query, q, after, size, pages, now, accepts, room);
    if page == [] {
      return [], after, true;
    }
    taken := EnqueueExpired(page, now, accepts, room);
    last := page[|page| - 1].0;
    stop := |taken| >= room || |page| < size;
  }

  /** With room to spare the sweep takes every chat that is up. */
  lemma {:induction false} TakenExactly(rows: seq<(Id, Chat)>, now: int, accepts: Id -> bool, room: nat,
                                        row: (Id, Chat))
    requires |Taken(rows, now, accepts, room)| < room
    ensures row in Taken(rows, now, accepts, room) <==> row in rows && Expired(row.1, now) && accepts(row.0)
  {
    if rows == [] {
    } else {
      var take := Expired(rows[0].1, now) && accepts(rows[0].0);
      TakenExactly(rows[1..], now, accepts, if take then room - 1 else room, row);
      assert row in rows <==> row == rows[0] || row in rows[1..];
    }
  }
}
