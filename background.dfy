/** The background service worker: a bounded, first-in-first-out scheduler of
    profile lookups, each done in a background tab that reports back with a
    `countryDataExtracted` message or is abandoned after a timeout.

    Chrome's asynchronous callbacks are methods of one `Scheduler` object.
    Each runs to completion, as callbacks do on the worker's event loop, and
    the order in which they arrive is left to the caller. Every method is
    proved to perform one transition of the state machine below, and the
    properties of the scheduler are proved about that state machine. */
module Background {
  import opened Messages

  /** At most this many lookups hold a slot at a time. */
  const MAX_CONCURRENT: int := 2

  /** Chrome's tab identifiers. */
  type TabId = int

  /** A queued `getCountryForUser` request. `id` stands for the request's
      `sendResponse` callback; ids are handed out in arrival order. */
  datatype Request = Request(id: nat, username: string)

  /** A `pendingRequests` entry. Its 15 s timer is armed exactly while the
      entry exists: the only other way out of the table clears it. */
  datatype Pending = Pending(id: nat, username: string)

  /** One call of a request's `sendResponse` callback. */
  datatype Answer = Answer(id: nat, reply: Reply)

  /** The scheduler's state. `queue`, `active` and `pending` are the source's
      `requestQueue`, `activeRequests` and `pendingRequests`; `opening` holds
      the admitted requests whose `chrome.tabs.create` callback has not run
      yet; `answers` lists every `sendResponse` call made; `usernames[id]` is
      the username request `id` was submitted with and `admitted` lists the
      ids in the order they were admitted. */
  datatype State = State(
    queue: seq<Request>,
    active: int,
    pending: map<TabId, Pending>,
    opening: map<nat, string>,
    answers: seq<Answer>,
    nextId: nat,
    usernames: seq<string>,
    admitted: seq<nat>)

  const Initial := State([], 0, map[], map[], [], 0, [], [])

  // ---------------------------------------------------------------------------
  // The invariant

  /** Some open tab is looking up request `id`. */
  ghost predicate Tracked(s: State, id: nat) {
    exists t :: t in s.pending && s.pending[t].id == id
  }

  /** Request `id` has been answered. */
  ghost predicate Answered(s: State, id: nat) {
    exists i :: 0 <= i < |s.answers| && s.answers[i].id == id
  }

  /** First in, first out: ids 0, 1, 2, ... were admitted in that order and
      the queue holds the ids that follow, with their usernames. */
  ghost predicate Fifo(s: State) {
    InArrivalOrder(s.queue, s.admitted, s.usernames, s.nextId)
  }

  ghost predicate InArrivalOrder(queue: seq<Request>, admitted: seq<nat>, usernames: seq<string>, nextId: nat) {
    && |usernames| == nextId
    && |admitted| + |queue| == nextId
    && (forall i :: 0 <= i < |admitted| ==> admitted[i] == i)
    && (forall i :: 0 <= i < |queue| ==> queue[i] == Request(|admitted| + i, usernames[|admitted| + i]))
  }

  /** Requests waiting for their tab were admitted and look up their own user. */
  ghost predicate OpeningPlaced(s: State) {
    && |s.admitted| <= |s.usernames|
    && (forall id :: id in s.opening ==> id < |s.admitted| && s.opening[id] == s.usernames[id])
  }

  /** Requests tracked in a tab were admitted, are not also waiting for a
      tab, look up their own user, and have one tab each. */
  ghost predicate PendingPlaced(s: State) {
    && |s.admitted| <= |s.usernames|
    && (forall t :: t in s.pending ==>
          && s.pending[t].id < |s.admitted|
          && s.pending[t].id !in s.opening
          && s.pending[t].username == s.usernames[s.pending[t].id])
    && (forall t, u :: t in s.pending && u in s.pending && t != u ==> s.pending[t].id != s.pending[u].id)
  }

  /** Answered requests were admitted, are no longer in flight, and were
      answered once. */
  ghost predicate AnswersPlaced(s: State) {
    && (forall i :: 0 <= i < |s.answers| ==>
          s.answers[i].id < |s.admitted| && s.answers[i].id !in s.opening && !Tracked(s, s.answers[i].id))
    && (forall i, j :: 0 <= i < j < |s.answers| ==> s.answers[i].id != s.answers[j].id)
  }

  /** No admitted request is lost: each waits for its tab, is tracked in a
      tab, or has been answered. */
  ghost predicate Covered(s: State) {
    forall id :: 0 <= id < |s.admitted| ==> id in s.opening || Tracked(s, id) || Answered(s, id)
  }

  /** What holds at every point, also in the middle of admission. */
  ghost predicate Inv(s: State) {
    && 0 <= s.active <= MAX_CONCURRENT
    && s.active == |s.opening| + |s.pending|
    && Fifo(s)
    && OpeningPlaced(s)
    && PendingPlaced(s)
    && AnswersPlaced(s)
    && Covered(s)
  }

  /** What holds between callbacks: also, the queue has been served as far as
      the free slots allow. */
  ghost predicate ValidState(s: State) {
    Inv(s) && (s.queue != [] ==> s.active == MAX_CONCURRENT)
  }

  lemma InitialIsValid()
    ensures ValidState(Initial)
  {
  }

  // ---------------------------------------------------------------------------
  // Admission

  function Min(a: int, b: int): int {
    if a <= b then a else b
  }

  /** How many queued requests one run of `processQueue` admits. */
  function Admissions(queued: nat, active: int): (k: nat)
    requires active <= MAX_CONCURRENT
    ensures k <= queued && active + k <= MAX_CONCURRENT
    ensures k == queued || active + k == MAX_CONCURRENT
  {
    Min(queued, MAX_CONCURRENT - active)
  }

  /** The callback ids of a run of requests, in order. */
  function Ids(rs: seq<Request>): (ids: seq<nat>)
    ensures |ids| == |rs|
    ensures forall i :: 0 <= i < |rs| ==> ids[i] == rs[i].id
  {
    seq(|rs|, i requires 0 <= i < |rs| => rs[i].id)
  }

  lemma IdsCons(rs: seq<Request>)
    requires rs != []
    ensures Ids(rs) == [rs[0].id] + Ids(rs[1..])
  {
  }

  /** `m` after a tab has been requested for each of `rs`, in order. */
  function Opened(m: map<nat, string>, rs: seq<Request>): map<nat, string>
    decreases |rs|
  {
    if rs == [] then m else Opened(m[rs[0].id := rs[0].username], rs[1..])
  }

  /** One pass of the `processQueue` loop: take the head of the queue, count
      it as active and call `openAboutTab` for it. */
  function AdmitHead(s: State): (r: State)
    requires s.queue != []
    ensures r.queue == s.queue[1..] && r.active == s.active + 1
  {
    var r := s.queue[0];
    s.(queue := s.queue[1..], active := s.active + 1,
       opening := s.opening[r.id := r.username], admitted := s.admitted + [r.id])
  }

  /** `processQueue`: admit from the head of the queue while a slot is free.
      Exactly as many requests as there are free slots (or queued requests)
      are admitted, so afterwards the queue is empty or all slots are taken,
      and nothing is admitted when all slots are taken already. */
  function QueueProcessed(s: State): (r: State)
    requires s.active <= MAX_CONCURRENT
    ensures var k := Admissions(|s.queue|, s.active);
      r.queue == s.queue[k..] && r.active == s.active + k
    ensures r.queue == [] || r.active == MAX_CONCURRENT
    ensures s.active == MAX_CONCURRENT ==> r == s
    ensures r.pending == s.pending && r.answers == s.answers
    ensures r.nextId == s.nextId && r.usernames == s.usernames
    decreases |s.queue|
  {
    if s.queue != [] && s.active < MAX_CONCURRENT then QueueProcessed(AdmitHead(s)) else s
  }

  /** Admitting the head leaves one admission fewer to make, and the
      head's tab is the first of the run to be requested. */
  lemma AdmitHeadStep(s: State)
    requires s.queue != [] && s.active < MAX_CONCURRENT
    ensures var k := Admissions(|s.queue|, s.active);
      var h := AdmitHead(s);
      && Admissions(|h.queue|, h.active) == k - 1
      && Opened(s.opening, s.queue[..k]) == Opened(h.opening, h.queue[..k - 1])
      && s.admitted + Ids(s.queue[..k]) == h.admitted + Ids(h.queue[..k - 1])
  {
    var k := Admissions(|s.queue|, s.active);
    assert Admissions(|AdmitHead(s).queue|, AdmitHead(s).active) == k - 1;
    AdmitHeadRun(s, k);
  }

  /** A run of `k` admissions from the queue is the head's admission
      followed by a run of `k - 1` from what is left. */
  lemma AdmitHeadRun(s: State, k: nat)
    requires 0 < k <= |s.queue|
    ensures var h := AdmitHead(s);
      && Opened(s.opening, s.queue[..k]) == Opened(h.opening, h.queue[..k - 1])
      && s.admitted + Ids(s.queue[..k]) == h.admitted + Ids(h.queue[..k - 1])
  {
    var run := s.queue[..k];
    assert run[1..] == AdmitHead(s).queue[..k - 1];
    RunOpens(s.opening, run);
    RunIds(s.admitted, run);
  }

  lemma RunOpens(m: map<nat, string>, run: seq<Request>)
    requires run != []
    ensures Opened(m, run) == Opened(m[run[0].id := run[0].username], run[1..])
  {
  }

  lemma RunIds(admitted: seq<nat>, run: seq<Request>)
    requires run != []
    ensures admitted + Ids(run) == (admitted + [run[0].id]) + Ids(run[1..])
  {
    IdsCons(run);
  }

  /** Each request `processQueue` admits gets a tab requested for its own
      user, in queue order. */
  lemma {:induction false} QueueProcessedOpens(s: State)
    requires s.active <= MAX_CONCURRENT
    ensures QueueProcessed(s).opening == Opened(s.opening, s.queue[..Admissions(|s.queue|, s.active)])
    decreases |s.queue|
  {
    if s.queue != [] && s.active < MAX_CONCURRENT {
      QueueProcessedOpens(AdmitHead(s));
      AdmitHeadStep(s);
    } else {
      assert s.queue[..Admissions(|s.queue|, s.active)] == [];
    }
  }

  /** The requests `processQueue` admits are the head of the queue, in
      order. */
  lemma {:induction false} QueueProcessedAdmitsHead(s: State)
    requires s.active <= MAX_CONCURRENT
    ensures QueueProcessed(s).admitted == s.admitted + Ids(s.queue[..Admissions(|s.queue|, s.active)])
    decreases |s.queue|
  {
    if s.queue != [] && s.active < MAX_CONCURRENT {
      QueueProcessedAdmitsHead(AdmitHead(s));
      AdmitHeadStep(s);
    } else {
      assert Ids(s.queue[..Admissions(|s.queue|, s.active)]) == [];
    }
  }

  lemma AdmitHeadKeepsOrder(s: State)
    requires Fifo(s) && s.queue != []
    ensures Fifo(AdmitHead(s)) && s.queue[0].id == |s.admitted|
  {
    var s' := AdmitHead(s);
    forall i | 0 <= i < |s'.queue|
      ensures s'.queue[i] == Request(|s'.admitted| + i, s'.usernames[|s'.admitted| + i])
    {
      assert s'.queue[i] == s.queue[i + 1];
    }
  }

  lemma AdmitHeadKeepsCovered(s: State)
    requires Inv(s) && s.queue != []
    ensures Covered(AdmitHead(s))
  {
    var s' := AdmitHead(s);
    forall id | 0 <= id < |s'.admitted|
      ensures id in s'.opening || Tracked(s', id) || Answered(s', id)
    {
      if id < |s.admitted| && !(id in s.opening) {
        if Tracked(s, id) {
          var t :| t in s.pending && s.pending[t].id == id;
          assert t in s'.pending;
        } else {
          var i :| 0 <= i < |s.answers| && s.answers[i].id == id;
          assert s'.answers[i].id == id;
        }
      }
    }
  }

  lemma AdmitHeadKeepsInv(s: State)
    requires Inv(s) && s.queue != [] && s.active < MAX_CONCURRENT
    ensures Inv(AdmitHead(s))
  {
    var r := s.queue[0];
    var s' := AdmitHead(s);
    AdmitHeadKeepsOrder(s);
    assert r.id !in s.opening && !Tracked(s, r.id);
    AdmitHeadKeepsCovered(s);
    forall i | 0 <= i < |s'.answers|
      ensures !Tracked(s', s'.answers[i].id)
    {
      assert !Tracked(s, s.answers[i].id);
    }
  }

  lemma {:induction false} ProcessQueueKeepsInv(s: State)
    requires Inv(s)
    ensures ValidState(QueueProcessed(s))
    decreases |s.queue|
  {
    if s.queue != [] && s.active < MAX_CONCURRENT {
      AdmitHeadKeepsInv(s);
      ProcessQueueKeepsInv(AdmitHead(s));
    }
  }

  /** Releasing a slot and running admission admits the head of the queue,
      if there is one, and nothing else. */
  lemma ReleaseAdmitsAtMostOne(s: State)
    requires 0 < s.active <= MAX_CONCURRENT && (s.queue != [] ==> s.active == MAX_CONCURRENT)
    ensures var r := QueueProcessed(s.(active := s.active - 1));
      && (s.queue == [] ==> r.queue == [] && r.active == s.active - 1 && r.opening == s.opening)
      && (s.queue != [] ==>
            && r.queue == s.queue[1..] && r.active == s.active
            && r.opening == s.opening[s.queue[0].id := s.queue[0].username])
  {
    var s' := s.(active := s.active - 1);
    QueueProcessedOpens(s');
    if s.queue != [] {
      assert Admissions(|s.queue|, s'.active) == 1;
      assert s.queue[..1] == [s.queue[0]];
      assert s.queue[..1][1..] == [];
    } else {
      assert s.queue[..0] == [];
    }
  }

  // ---------------------------------------------------------------------------
  // The callbacks, as transitions

  /** A new request at the tail of the queue. */
  function Enqueued(s: State, username: string): State {
    s.(queue := s.queue + [Request(s.nextId, username)],
       nextId := s.nextId + 1, usernames := s.usernames + [username])
  }

  /** The `getCountryForUser` handler: append the request at the tail of the
      queue and run admission. */
  function Submitted(s: State, username: string): (r: State)
    requires s.active <= MAX_CONCURRENT
    ensures r.nextId == s.nextId + 1 && r.usernames == s.usernames + [username]
    ensures var q := s.queue + [Request(s.nextId, username)];
      var k := Admissions(|q|, s.active);
      r.queue == q[k..] && r.active == s.active + k
    ensures r.pending == s.pending && r.answers == s.answers
  {
    QueueProcessed(Enqueued(s, username))
  }

  /** Request `id` answered with a `tab_error` and its slot released. */
  function TabReleased(s: State, id: nat): State {
    s.(opening := s.opening - {id}, active := s.active - 1,
       answers := s.answers + [Answer(id, Reply(None, Some(TabError)))])
  }

  /** The `chrome.tabs.create` callback with `lastError` set: release the
      slot, answer `{country: null, error: 'tab_error'}` and run admission.
      No `pendingRequests` entry is made. */
  function TabCreateFailed(s: State, id: nat): (r: State)
    requires 0 < s.active <= MAX_CONCURRENT
    ensures r.answers == s.answers + [Answer(id, Reply(None, Some(TabError)))]
    ensures r.pending == s.pending
    ensures var k := Admissions(|s.queue|, s.active - 1);
      r.queue == s.queue[k..] && r.active == s.active - 1 + k
  {
    QueueProcessed(TabReleased(s, id))
  }

  /** The `chrome.tabs.create` callback with the new tab: track the request
      under the tab's id (and arm its timer). */
  function TabCreated(s: State, id: nat, tab: TabId): (r: State)
    requires id in s.opening
    ensures tab in r.pending && r.pending[tab] == Pending(id, s.opening[id])
    ensures id !in r.opening
    ensures r.queue == s.queue && r.active == s.active && r.answers == s.answers
  {
    s.(pending := s.pending[tab := Pending(id, s.opening[id])], opening := s.opening - {id})
  }

  /** The lookup in `tab` answered with `reply`, its entry dropped and its
      slot released. */
  function Dropped(s: State, tab: TabId, reply: Reply): State
    requires tab in s.pending
  {
    s.(pending := s.pending - {tab}, active := s.active - 1,
       answers := s.answers + [Answer(s.pending[tab].id, reply)])
  }

  /** Completion of the lookup in `tab` with `reply`: the answer goes to the
      request tracked there, the entry is dropped, the slot released and
      admission re-run. */
  function Complete(s: State, tab: TabId, reply: Reply): (r: State)
    requires tab in s.pending && 0 < s.active <= MAX_CONCURRENT
    ensures r.answers == s.answers + [Answer(s.pending[tab].id, reply)]
    ensures r.pending == s.pending - {tab}
    ensures var k := Admissions(|s.queue|, s.active - 1);
      r.queue == s.queue[k..] && r.active == s.active - 1 + k
  {
    QueueProcessed(Dropped(s, tab, reply))
  }

  /** The 15 s timer of `tab` fires: answer `{country: null, error:
      'timeout'}`. A timer whose entry is gone was cleared and never fires,
      which the model expresses as a firing that changes nothing. */
  function TimedOut(s: State, tab: TabId): (r: State)
    requires 0 <= s.active <= MAX_CONCURRENT
    requires tab in s.pending ==> s.active > 0
    ensures tab !in r.pending
    ensures tab !in s.pending ==> r == s
    ensures tab in s.pending ==> r.answers == s.answers + [Answer(s.pending[tab].id, Reply(None, Some(Timeout)))]
  {
    if tab in s.pending then Complete(s, tab, Reply(None, Some(Timeout))) else s
  }

  /** The `countryDataExtracted` handler for a message from `tab`: for a
      tracked tab answer `{country}`; a message from any other tab changes
      nothing (the tab is only closed). */
  function DataExtracted(s: State, tab: TabId, country: Option<string>): (r: State)
    requires 0 <= s.active <= MAX_CONCURRENT
    requires tab in s.pending ==> s.active > 0
    ensures tab !in r.pending
    ensures tab !in s.pending ==> r == s
    ensures tab in s.pending ==> r.answers == s.answers + [Answer(s.pending[tab].id, Reply(country, None))]
  {
    if tab in s.pending then Complete(s, tab, Reply(country, None)) else s
  }

  // ---------------------------------------------------------------------------
  // Every transition keeps the invariant

  lemma MapRemoveCard<K, V>(m: map<K, V>, k: K)
    requires k in m
    ensures |m - {k}| == |m| - 1
  {
    assert (m - {k}).Keys == m.Keys - {k};
    assert |m.Keys - {k}| == |m.Keys| - 1;
  }

  lemma EnqueuedKeepsInv(s: State, username: string)
    requires Inv(s)
    ensures Inv(Enqueued(s, username))
  {
    var s' := Enqueued(s, username);
    forall i | 0 <= i < |s'.queue|
      ensures s'.queue[i] == Request(|s'.admitted| + i, s'.usernames[|s'.admitted| + i])
    {
      if i < |s.queue| {
        assert s'.queue[i] == s.queue[i];
      }
    }
    forall id | id in s'.opening ensures s'.opening[id] == s'.usernames[id] {
      assert s'.usernames[id] == s.usernames[id];
    }
    forall t | t in s'.pending ensures s'.pending[t].username == s'.usernames[s'.pending[t].id] {
      assert s'.usernames[s.pending[t].id] == s.usernames[s.pending[t].id];
    }
    forall id | 0 <= id < |s'.admitted| ensures id in s'.opening || Tracked(s', id) || Answered(s', id) {
      assert id in s.opening || Tracked(s, id) || Answered(s, id);
    }
    forall i | 0 <= i < |s'.answers| ensures !Tracked(s', s'.answers[i].id) {
      assert !Tracked(s, s.answers[i].id);
    }
  }

  lemma TabReleasedKeepsInv(s: State, id: nat)
    requires Inv(s) && id in s.opening
    ensures s.active > 0 && Inv(TabReleased(s, id))
  {
    var s' := TabReleased(s, id);
    MapRemoveCard(s.opening, id);
    assert !Tracked(s, id);
    assert AnswersPlaced(s') by {
      forall i | 0 <= i < |s'.answers| ensures !Tracked(s', s'.answers[i].id) {
        if i < |s.answers| { assert !Tracked(s, s.answers[i].id); }
      }
    }
    assert Covered(s') by {
      forall id' | 0 <= id' < |s'.admitted| ensures id' in s'.opening || Tracked(s', id') || Answered(s', id') {
        if id' == id {
          assert s'.answers[|s.answers|].id == id;
        } else if Answered(s, id') {
          var i :| 0 <= i < |s.answers| && s.answers[i].id == id';
          assert s'.answers[i].id == id';
        } else if Tracked(s, id') {
          var t :| t in s.pending && s.pending[t].id == id';
          assert t in s'.pending;
        }
      }
    }
  }

  lemma TabCreatedKeepsPendingPlaced(s: State, id: nat, tab: TabId)
    requires Inv(s) && id in s.opening && tab !in s.pending
    ensures PendingPlaced(TabCreated(s, id, tab))
  {
    var s' := TabCreated(s, id, tab);
    forall t, u | t in s'.pending && u in s'.pending && t != u
      ensures s'.pending[t].id != s'.pending[u].id
    {
      if t != tab && u != tab {
        assert s'.pending[t] == s.pending[t] && s'.pending[u] == s.pending[u];
      }
    }
  }

  lemma TabCreatedKeepsAnswersPlaced(s: State, id: nat, tab: TabId)
    requires Inv(s) && id in s.opening && tab !in s.pending
    ensures AnswersPlaced(TabCreated(s, id, tab))
  {
    var s' := TabCreated(s, id, tab);
    forall i | 0 <= i < |s'.answers| ensures !Tracked(s', s'.answers[i].id) {
      assert !Tracked(s, s.answers[i].id);
      assert s.answers[i].id != id;
    }
  }

  lemma TabCreatedKeepsCovered(s: State, id: nat, tab: TabId)
    requires Inv(s) && id in s.opening && tab !in s.pending
    ensures Covered(TabCreated(s, id, tab))
  {
    var s' := TabCreated(s, id, tab);
    forall id' | 0 <= id' < |s'.admitted| ensures id' in s'.opening || Tracked(s', id') || Answered(s', id') {
      if id' == id {
        assert s'.pending[tab].id == id;
      } else if Tracked(s, id') {
        var t :| t in s.pending && s.pending[t].id == id';
        assert t in s'.pending && s'.pending[t].id == id';
      }
    }
  }

  lemma TabCreatedKeepsValid(s: State, id: nat, tab: TabId)
    requires ValidState(s) && id in s.opening && tab !in s.pending
    ensures ValidState(TabCreated(s, id, tab))
  {
    var s' := TabCreated(s, id, tab);
    assert s'.active == |s'.opening| + |s'.pending| by {
      MapRemoveCard(s.opening, id);
      assert s'.pending.Keys == s.pending.Keys + {tab};
    }
    TabCreatedKeepsPendingPlaced(s, id, tab);
    TabCreatedKeepsAnswersPlaced(s, id, tab);
    TabCreatedKeepsCovered(s, id, tab);
  }

  lemma DroppedKeepsAnswersPlaced(s: State, tab: TabId, reply: Reply)
    requires Inv(s) && tab in s.pending
    ensures AnswersPlaced(Dropped(s, tab, reply))
  {
    var id := s.pending[tab].id;
    var s' := Dropped(s, tab, reply);
    assert Tracked(s, id);
    assert !Tracked(s', id) by {
      forall t | t in s'.pending ensures s'.pending[t].id != id {
        assert t != tab;
      }
    }
    forall i | 0 <= i < |s'.answers| ensures !Tracked(s', s'.answers[i].id) {
      if i < |s.answers| { assert !Tracked(s, s.answers[i].id); }
    }
  }

  lemma DroppedKeepsCovered(s: State, tab: TabId, reply: Reply)
    requires Inv(s) && tab in s.pending
    ensures Covered(Dropped(s, tab, reply))
  {
    var id := s.pending[tab].id;
    var s' := Dropped(s, tab, reply);
    forall id' | 0 <= id' < |s'.admitted| ensures id' in s'.opening || Tracked(s', id') || Answered(s', id') {
      if id' == id {
        assert s'.answers[|s.answers|].id == id;
      } else if Answered(s, id') {
        var i :| 0 <= i < |s.answers| && s.answers[i].id == id';
        assert s'.answers[i].id == id';
      } else if Tracked(s, id') {
        var t :| t in s.pending && s.pending[t].id == id';
        assert t != tab;
        assert t in s'.pending;
      }
    }
  }

  lemma DroppedKeepsInv(s: State, tab: TabId, reply: Reply)
    requires Inv(s) && tab in s.pending
    ensures s.active > 0 && Inv(Dropped(s, tab, reply))
  {
    MapRemoveCard(s.pending, tab);
    DroppedKeepsAnswersPlaced(s, tab, reply);
    DroppedKeepsCovered(s, tab, reply);
  }

  lemma SubmittedKeepsValid(s: State, username: string)
    requires ValidState(s)
    ensures ValidState(Submitted(s, username))
  {
    EnqueuedKeepsInv(s, username);
    ProcessQueueKeepsInv(Enqueued(s, username));
  }

  lemma TabCreateFailedKeepsValid(s: State, id: nat)
    requires ValidState(s) && id in s.opening
    ensures s.active > 0 && ValidState(TabCreateFailed(s, id))
  {
    TabReleasedKeepsInv(s, id);
    ProcessQueueKeepsInv(TabReleased(s, id));
  }

  lemma TimedOutKeepsValid(s: State, tab: TabId)
    requires ValidState(s)
    ensures (tab in s.pending ==> s.active > 0) && ValidState(TimedOut(s, tab))
  {
    if tab in s.pending {
      DroppedKeepsInv(s, tab, Reply(None, Some(Timeout)));
      ProcessQueueKeepsInv(Dropped(s, tab, Reply(None, Some(Timeout))));
    }
  }

  lemma DataExtractedKeepsValid(s: State, tab: TabId, country: Option<string>)
    requires ValidState(s)
    ensures (tab in s.pending ==> s.active > 0) && ValidState(DataExtracted(s, tab, country))
  {
    if tab in s.pending {
      DroppedKeepsInv(s, tab, Reply(country, None));
      ProcessQueueKeepsInv(Dropped(s, tab, Reply(country, None)));
    }
  }

  // ---------------------------------------------------------------------------
  // Properties of the scheduler

  /** How often request `id` has been answered. */
  function AnswerCount(answers: seq<Answer>, id: nat): nat {
    if answers == [] then 0
    else AnswerCount(answers[..|answers| - 1], id) + (if answers[|answers| - 1].id == id then 1 else 0)
  }

  lemma {:induction false} AnswerCountDistinct(answers: seq<Answer>, id: nat)
    requires forall i, j :: 0 <= i < j < |answers| ==> answers[i].id != answers[j].id
    ensures AnswerCount(answers, id) <= 1
    ensures AnswerCount(answers, id) == 1 <==> exists i :: 0 <= i < |answers| && answers[i].id == id
  {
    if answers != [] {
      var init := answers[..|answers| - 1];
      AnswerCountDistinct(init, id);
      if answers[|answers| - 1].id == id {
        assert forall i :: 0 <= i < |init| ==> init[i].id != id;
      }
    }
  }

  /** Exactly one answer per request: a request that is still queued, waiting
      for its tab, or tracked in a tab has not been answered, and every
      other submitted request has been answered exactly once. */
  lemma AnsweredExactlyOnce(s: State, id: nat)
    requires ValidState(s) && id < s.nextId
    ensures AnswerCount(s.answers, id) <= 1
    ensures AnswerCount(s.answers, id) == 0 <==>
      (id >= |s.admitted| || id in s.opening || Tracked(s, id))
  {
    AnswerCountDistinct(s.answers, id);
    forall i | 0 <= i < |s.answers| && s.answers[i].id == id
      ensures id < |s.admitted| && id !in s.opening && !Tracked(s, id)
    {
    }
  }

  /** Admission is first in, first out: the request that arrived `i`-th is
      the `i`-th admitted, so no request is admitted before an earlier one. */
  lemma AdmissionIsFifo(s: State, i: nat, j: nat)
    requires ValidState(s) && i < j < s.nextId
    ensures j in s.admitted ==> i in s.admitted
    ensures i < |s.admitted| ==> s.admitted[i] == i
  {
    if j in s.admitted {
      var k :| 0 <= k < |s.admitted| && s.admitted[k] == j;
      assert s.admitted[i] == i;
    }
  }

  /** A timeout or signal that arrives for a lookup that has already
      completed has no effect. */
  lemma LateCompletionHasNoEffect(s: State, tab: TabId, country: Option<string>, late: Option<string>)
    requires ValidState(s) && tab in s.pending
    ensures var done := DataExtracted(s, tab, country);
      ValidState(done) && TimedOut(done, tab) == done && DataExtracted(done, tab, late) == done
    ensures var done := TimedOut(s, tab);
      ValidState(done) && TimedOut(done, tab) == done && DataExtracted(done, tab, late) == done
  {
    DataExtractedKeepsValid(s, tab, country);
    TimedOutKeepsValid(s, tab);
  }

  /** Three requests, two slots: the first two are admitted at once and the
      third waits; completing the first admits the third; completing the
      second then leaves one active lookup and an empty queue. */
  lemma ThreeRequestsScenario()
    ensures var s1 := Submitted(Submitted(Submitted(Initial, "a"), "b"), "c");
      && s1.active == 2 && s1.queue == [Request(2, "c")] && s1.opening.Keys == {0, 1}
      && var s2 := TabCreated(TabCreated(s1, 0, 10), 1, 11);
      && var s3 := DataExtracted(s2, 10, Some("Germany"));
      && s3.answers == [Answer(0, Reply(Some("Germany"), None))]
      && s3.queue == [] && s3.active == 2 && s3.opening.Keys == {2}
      && var s4 := TimedOut(s3, 11);
      && s4.answers == [Answer(0, Reply(Some("Germany"), None)), Answer(1, Reply(None, Some(Timeout)))]
      && s4.queue == [] && s4.active == 1
  {
    var s0 := Submitted(Submitted(Initial, "a"), "b");
    assert s0.opening == map[0 := "a", 1 := "b"];
    var s1 := Submitted(s0, "c");
    assert s1.queue == [Request(2, "c")];
    var s2 := TabCreated(TabCreated(s1, 0, 10), 1, 11);
    assert s2.pending == map[10 := Pending(0, "a"), 11 := Pending(1, "b")];
    assert s2.pending - {10} == map[11 := Pending(1, "b")];
    var s3 := DataExtracted(s2, 10, Some("Germany"));
    assert s3.queue == [] && s3.pending == map[11 := Pending(1, "b")];
    assert s3.opening == map[2 := "c"];
    assert s3.pending - {11} == map[];
  }

  // ---------------------------------------------------------------------------
  // The blocked-item counter

  /** The `incrementBlockedCount` handler: the count it stores, given the one
      it read. A missing count reads as 0, so the first message stores 1;
      otherwise the stored count goes up by exactly one. */
  function IncrementedBlockedCount(stored: Option<int>): (count: int)
    ensures stored.None? ==> count == 1
    ensures stored.Some? ==> count == stored.value + 1 && count > stored.value
  {
    (if stored.Some? then stored.value else 0) + 1
  }

  // ---------------------------------------------------------------------------
  // The service worker's state and callbacks

  class Scheduler {
    var requestQueue: seq<Request>
    var activeRequests: int
    var pendingRequests: map<TabId, Pending>
    /** Admitted requests whose `chrome.tabs.create` callback has not run
        yet, keyed by request id (the environment of that callback). */
    var opening: map<nat, string>
    /** Every `sendResponse` call made so far, in order. */
    var answers: seq<Answer>
    /** The id the next request gets. */
    var nextId: nat

    ghost var usernames: seq<string>
    ghost var admitted: seq<nat>

    ghost function Current(): State
      reads this
    {
      State(requestQueue, activeRequests, pendingRequests, opening, answers, nextId, usernames, admitted)
    }

    ghost predicate Valid()
      reads this
    {
      ValidState(Current())
    }

    constructor ()
      ensures Valid() && Current() == Initial
    {
      requestQueue := [];
      activeRequests := 0;
      pendingRequests := map[];
      opening := map[];
      answers := [];
      nextId := 0;
      usernames := [];
      admitted := [];
    }

    /** `processQueue`, the admission loop. */
    method ProcessQueue()
      requires Inv(Current())
      modifies this
      ensures Valid() && Current() == QueueProcessed(old(Current()))
    {
      while requestQueue != [] && activeRequests < MAX_CONCURRENT
        invariant Inv(Current())
        invariant QueueProcessed(Current()) == QueueProcessed(old(Current()))
        decreases |requestQueue|
      {
        ghost var before := Current();
        AdmitHeadKeepsInv(before);
        AdmitNext();
      }
      ProcessQueueKeepsInv(Current());
    }

    /** One pass of the `processQueue` loop: take the head of the queue,
        count it as active and call `openAboutTab` for it. */
    method AdmitNext()
      requires requestQueue != []
      modifies this
      ensures Current() == AdmitHead(old(Current()))
    {
      var r := requestQueue[0];
      requestQueue := requestQueue[1..];
      activeRequests := activeRequests + 1;
      // openAboutTab: chrome.tabs.create is called; its callback arrives
      // later as OpenAboutTabFailed or OpenAboutTabSucceeded
      opening := opening[r.id := r.username];
      admitted := admitted + [r.id];
    }

    /** The `getCountryForUser` message handler; `id` identifies the
        request's `sendResponse` callback. */
    method GetCountryForUser(username: string) returns (id: nat)
      requires Valid()
      modifies this
      ensures Valid() && Current() == Submitted(old(Current()), username)
      ensures id == old(nextId)
    {
      ghost var s := Current();
      EnqueuedKeepsInv(s, username);
      id := nextId;
      requestQueue := requestQueue + [Request(id, username)];
      nextId := nextId + 1;
      usernames := usernames + [username];
      assert Current() == Enqueued(s, username);
      ProcessQueue();
    }

    /** The `chrome.tabs.create` callback for request `id`, with `lastError`. */
    method OpenAboutTabFailed(id: nat)
      requires Valid() && id in opening
      modifies this
      ensures Valid() && Current() == TabCreateFailed(old(Current()), id)
    {
      ghost var s := Current();
      TabReleasedKeepsInv(s, id);
      opening := opening - {id};
      activeRequests := activeRequests - 1;
      answers := answers + [Answer(id, Reply(None, Some(TabError)))];
      assert Current() == TabReleased(s, id);
      ProcessQueue();
    }

    /** The `chrome.tabs.create` callback for request `id`, with the new tab.
        Chrome never hands out the id of a tab that is still open. */
    method OpenAboutTabSucceeded(id: nat, tab: TabId)
      requires Valid() && id in opening && tab !in pendingRequests
      modifies this
      ensures Valid() && Current() == TabCreated(old(Current()), id, tab)
    {
      TabCreatedKeepsValid(Current(), id, tab);
      pendingRequests := pendingRequests[tab := Pending(id, opening[id])];
      opening := opening - {id};
    }

    /** The timer armed for `tab` fires. */
    method TimeoutFired(tab: TabId)
      requires Valid()
      modifies this
      ensures Valid() && Current() == TimedOut(old(Current()), tab)
    {
      ghost var s := Current();
      TimedOutKeepsValid(s, tab);
      if tab in pendingRequests {
        DroppedKeepsInv(s, tab, Reply(None, Some(Timeout)));
        var pending := pendingRequests[tab];
        // chrome.tabs.remove(tab); a failure to close is ignored
        pendingRequests := pendingRequests - {tab};
        activeRequests := activeRequests - 1;
        answers := answers + [Answer(pending.id, Reply(None, Some(Timeout)))];
        assert Current() == Dropped(s, tab, Reply(None, Some(Timeout)));
        ProcessQueue();
      }
    }

    /** The `countryDataExtracted` message handler, for a message sent from
        `tab`. */
    method CountryDataExtracted(tab: TabId, country: Option<string>)
      requires Valid()
      modifies this
      ensures Valid() && Current() == DataExtracted(old(Current()), tab, country)
    {
      ghost var s := Current();
      DataExtractedKeepsValid(s, tab, country);
      if tab in pendingRequests {
        DroppedKeepsInv(s, tab, Reply(country, None));
        var pending := pendingRequests[tab];
        // clearTimeout(pending.timeoutId): the timer goes with the entry
        answers := answers + [Answer(pending.id, Reply(country, None))];
        pendingRequests := pendingRequests - {tab};
        // chrome.tabs.remove(tab); a failure to close is ignored
        activeRequests := activeRequests - 1;
        assert Current() == Dropped(s, tab, Reply(country, None));
        ProcessQueue();
      }
    }
  }
}
