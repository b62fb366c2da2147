/** Every interleaving of the requests that reach one device of RAMDisk/osprd.c:
    acquiring, trying to acquire, being interrupted, releasing, closing.  Each
    event is one region of `osprd_ioctl` that holds the mutex, or one evaluation
    of the condition a sleeping request waits for. */
module OsprdRuns {
  import opened OsprdLock

  /** A file is used by the process that opened it, for reading or for writing. */
  datatype Opened = Opened(pid: nat, writable: bool)

  /** How far a process has come in `osprd_ioctl`. */
  datatype Request =
    | Ticketed(file: nat, ticket: nat, blocks: bool) // between the first region and the second
    | Checked(file: nat, ticket: nat)                // about to ask under the mutex
    | Waiting(file: nat, ticket: nat)                // in wait_event_interruptible
    | Signalled(file: nat, ticket: nat)              // woken by a signal, ticket still alive

  /** `granted` is history: the tickets in the order in which they got the lock. */
  datatype State = State(
    dev: Device, files: map<nat, Opened>, locked: set<nat>, requests: map<nat, Request>, granted: seq<nat>)

  datatype Event =
    | Take(pid: nat, file: nat, blocks: bool)
    | Check(pid: nat)
    | Turn(pid: nat)
    | Poll(pid: nat, signal: bool)
    | Abandon(pid: nat)
    | Try(pid: nat)
    | Release(pid: nat, file: nat)
    | Close(pid: nat, file: nat)

  datatype Outcome = Pending | Returned(answer: Answer)

  predicate Uses(s: State, pid: nat, file: nat) { file in s.files && s.files[file].pid == pid }

  predicate Enabled(s: State, e: Event) {
    match e
    case Take(p, f, _) => p !in s.requests && Uses(s, p, f)
    case Check(p) => p in s.requests && s.requests[p].Ticketed? && s.requests[p].blocks
    case Turn(p) => p in s.requests && s.requests[p].Checked?
    case Poll(p, _) => p in s.requests && s.requests[p].Waiting?
    case Abandon(p) => p in s.requests && s.requests[p].Signalled?
    case Try(p) => p in s.requests && s.requests[p].Ticketed? && !s.requests[p].blocks
    case Release(p, f) => p !in s.requests && Uses(s, p, f)
    case Close(p, f) => p !in s.requests && Uses(s, p, f)
  }

  // ------------------------------------------------------------ what each region does

  function GivenUp(s: State, p: nat, ticket: nat): State {
    s.(dev := Terminated(s.dev, ticket), requests := s.requests - {p})
  }

  function WithLock(s: State, p: nat, r: Request): State
    requires r.file in s.files
  {
    s.(dev := Granted(s.dev, p, s.files[r.file].writable), locked := s.locked + {r.file},
       requests := s.requests - {p}, granted := s.granted + [r.ticket])
  }

  function Unlocked(s: State, p: nat, file: nat): State
    requires file in s.files
  {
    s.(dev := Released(s.dev, p, s.files[file].writable), locked := s.locked - {file})
  }

  function AfterAsking(s: State, r: Request): (State, bool)
    requires r.file in s.files
  {
    var asked := Asked(s.dev, r.ticket, s.files[r.file].writable);
    (s.(dev := asked.0), asked.1)
  }

  function Step(s: State, e: Event): (State, Outcome)
    requires Enabled(s, e) && FilesKnown(s)
  {
    match e
    case Take(p, f, blocks) =>
      var t := s.dev.head;
      var s' := s.(dev := s.dev.(head := t + 1));
      if s.dev.writer == p then (GivenUp(s', p, t), Returned(if blocks then Deadlock else Busy))
      else (s'.(requests := s.requests[p := Ticketed(f, t, blocks)]), Pending)
    case Check(p) =>
      var r := s.requests[p];
      if p in s.dev.readers then (GivenUp(s, p, r.ticket), Returned(Deadlock))
      else (s.(requests := s.requests[p := Checked(r.file, r.ticket)]), Pending)
    case Turn(p) =>
      var r := s.requests[p];
      var (s', ready) := AfterAsking(s, r);
      if ready then (WithLock(s', p, r), Returned(Success))
      else (s'.(requests := s.requests[p := Waiting(r.file, r.ticket)]), Pending)
    case Poll(p, signal) =>
      var r := s.requests[p];
      var (s', ready) := AfterAsking(s, r);
      (s'.(requests := s.requests[p :=
        if ready then Checked(r.file, r.ticket) else if signal then Signalled(r.file, r.ticket) else r]), Pending)
    case Abandon(p) =>
      (GivenUp(s, p, s.requests[p].ticket), Returned(Interrupted))
    case Try(p) =>
      var r := s.requests[p];
      if p in s.dev.readers then (GivenUp(s, p, r.ticket), Returned(Busy)) else
      var (s', ready) := AfterAsking(s, r);
      if ready then (WithLock(s', p, r), Returned(Success)) else (GivenUp(s', p, r.ticket), Returned(Busy))
    case Release(p, f) =>
      if f in s.locked then (Unlocked(s, p, f), Returned(Success)) else (s, Returned(Invalid))
    case Close(p, f) =>
      (if f in s.locked then Unlocked(s, p, f) else s, Returned(Success))
  }

  // ------------------------------------------------------------ what every run keeps

  predicate Holds(d: Device, p: nat) { d.writer == p || p in d.readers }

  predicate Settled(s: State, k: nat) { k in s.granted || k in s.dev.dead }

  ghost predicate FilesKnown(s: State) {
    forall p :: p in s.requests ==> Uses(s, p, s.requests[p].file)
  }

  ghost predicate HasTicket(s: State, k: nat) {
    exists p :: p in s.requests && s.requests[p].ticket == k
  }

  /** Every ticket handed out was granted, died, or belongs to one live request;
      the tail is behind no settled gap and in front of no live ticket. */
  ghost predicate TicketsInOrder(s: State) {
    && s.dev.tail <= s.dev.head
    && Ascending(s.granted) && Ascending(s.dev.dead)
    && (forall k :: k in s.granted ==> k < s.dev.tail && k !in s.dev.dead)
    && (forall k :: k in s.dev.dead ==> k < s.dev.head)
    && (forall k: nat :: k < s.dev.tail ==> Settled(s, k))
    && (forall k: nat :: s.dev.tail <= k < s.dev.head && k !in s.dev.dead ==> HasTicket(s, k))
    && (forall p :: p in s.requests ==>
          s.dev.tail <= s.requests[p].ticket < s.dev.head && s.requests[p].ticket !in s.dev.dead)
    && (forall p, q :: p in s.requests && q in s.requests && s.requests[p].ticket == s.requests[q].ticket ==> p == q)
  }

  /** Never a writer with a reader, the count is right, and each holder has
      exactly one file that says so, opened for what it holds. */
  ghost predicate HoldersFlagged(s: State) {
    && s.dev.numReaders == |s.dev.readers| && Distinct(s.dev.readers)
    && (s.dev.writer >= 0 ==> s.dev.readers == [])
    && (forall f :: f in s.locked ==>
          && f in s.files
          && if s.files[f].writable then s.dev.writer == s.files[f].pid else s.files[f].pid in s.dev.readers)
    && (forall f, g :: f in s.locked && g in s.locked && s.files[f].pid == s.files[g].pid ==> f == g)
    && (forall p: nat :: Holds(s.dev, p) ==> exists f :: f in s.locked && s.files[f].pid == p)
  }

  /** A request that waits for the lock comes from a process that does not hold it. */
  ghost predicate WaitersHoldNothing(s: State) {
    forall p :: p in s.requests ==> s.dev.writer != p && (s.requests[p].Ticketed? || p !in s.dev.readers)
  }

  ghost predicate Safe(s: State) {
    FilesKnown(s) && TicketsInOrder(s) && HoldersFlagged(s) && WaitersHoldNothing(s)
  }

  lemma InitiallySafe(files: map<nat, Opened>)
    ensures Safe(State(Device(0, 0, 0, [], -1, []), files, {}, map[], []))
  {
  }

  // ------------------------------------------------------------ tickets

  /** `can_run_ticket` says yes exactly when every smaller ticket was granted or died. */
  lemma CanRunExact(s: State, p: nat)
    requires TicketsInOrder(s) && p in s.requests
    ensures var t := s.requests[p].ticket;
      Advanced(s.dev, t).tail == t <==> forall k: nat :: k < t ==> Settled(s, k)
  {
    var t := s.requests[p].ticket;
    RunsIffAllBelowAreDead(s.dev.dead, s.dev.tail, t);
    if forall k: nat :: k < t ==> Settled(s, k) {
      forall k: nat | s.dev.tail <= k < t ensures k in s.dev.dead {
        assert Settled(s, k);
      }
    }
  }

  /** ... which is exactly when no live request is in front. */
  lemma SettledIffNobodyInFront(s: State, t: nat)
    requires TicketsInOrder(s) && t <= s.dev.head
    ensures (forall k: nat :: k < t ==> Settled(s, k)) <==> (forall q :: q in s.requests ==> t <= s.requests[q].ticket)
  {
    if forall q :: q in s.requests ==> t <= s.requests[q].ticket {
      forall k: nat | k < t ensures Settled(s, k) {
        assert s.dev.tail <= k && k !in s.dev.dead ==> HasTicket(s, k);
      }
    }
    if forall k: nat :: k < t ==> Settled(s, k) {
      forall q | q in s.requests ensures t <= s.requests[q].ticket {
        assert s.requests[q].ticket < t ==> Settled(s, s.requests[q].ticket);
      }
    }
  }

  lemma AskingKeepsOrder(s: State, p: nat)
    requires TicketsInOrder(s) && FilesKnown(s) && p in s.requests
    ensures TicketsInOrder(AfterAsking(s, s.requests[p]).0)
    ensures AfterAsking(s, s.requests[p]).1 ==> AfterAsking(s, s.requests[p]).0.dev.tail == s.requests[p].ticket
  {
    var t := s.requests[p].ticket;
    var s' := AfterAsking(s, s.requests[p]).0;
    CarriedExact(s.dev.dead, s.dev.tail, t);
    if s'.dev != s.dev {
      forall k: nat | k < s'.dev.tail ensures Settled(s', k) {
        if k < s.dev.tail { assert Settled(s, k); }
      }
      forall q | q in s.requests ensures s'.dev.tail <= s.requests[q].ticket {
        var tq := s.requests[q].ticket;
        assert tq < s'.dev.tail ==> tq in s.dev.dead;
      }
      forall k: nat | s'.dev.tail <= k < s'.dev.head && k !in s'.dev.dead ensures HasTicket(s', k) {
        assert HasTicket(s, k);
      }
    }
  }

  lemma OwnerStays(s: State, s': State, p: nat, k: nat)
    requires HasTicket(s, k) && p in s.requests && s.requests[p].ticket != k && s'.requests == s.requests - {p}
    ensures HasTicket(s', k)
  {
    var q :| q in s.requests && s.requests[q].ticket == k;
    assert q in s'.requests && s'.requests[q].ticket == k;
  }

  lemma GivingUpKeepsOrder(s: State, p: nat)
    requires TicketsInOrder(s) && p in s.requests
    ensures TicketsInOrder(GivenUp(s, p, s.requests[p].ticket))
  {
    var t := s.requests[p].ticket;
    var s' := GivenUp(s, p, t);
    InsertKeepsOrder(s.dev.dead, t);
    forall k: nat | k < s'.dev.tail ensures Settled(s', k) { assert Settled(s, k); }
    forall k: nat | s'.dev.tail <= k < s'.dev.head && k !in s'.dev.dead ensures HasTicket(s', k) {
      OwnerStays(s, s', p, k);
    }
  }

  lemma AscendingAppend(g: seq<nat>, t: nat)
    requires Ascending(g) && forall k :: k in g ==> k < t
    ensures Ascending(g + [t])
  {
    forall i, j | 0 <= i < j < |g + [t]| ensures (g + [t])[i] < (g + [t])[j] {
      assert g[i] in g;
    }
  }

  lemma GrantingKeepsOrder(s: State, p: nat)
    requires TicketsInOrder(s) && FilesKnown(s) && p in s.requests && s.dev.tail == s.requests[p].ticket
    ensures TicketsInOrder(WithLock(s, p, s.requests[p]))
  {
    hide Ascending;
    var r := s.requests[p];
    var s' := WithLock(s, p, r);
    AscendingAppend(s.granted, r.ticket);
    forall k: nat | k < s'.dev.tail ensures Settled(s', k) {
      if k < s.dev.tail { assert Settled(s, k); }
    }
    forall k: nat | s'.dev.tail <= k < s'.dev.head && k !in s'.dev.dead ensures HasTicket(s', k) {
      OwnerStays(s, s', p, k);
    }
  }

  lemma TakingKeepsOrder(s: State, p: nat, f: nat, blocks: bool)
    requires TicketsInOrder(s) && p !in s.requests
    ensures TicketsInOrder(s.(dev := s.dev.(head := s.dev.head + 1),
        requests := s.requests[p := Ticketed(f, s.dev.head, blocks)]))
  {
    hide Ascending;
    var s' := s.(dev := s.dev.(head := s.dev.head + 1), requests := s.requests[p := Ticketed(f, s.dev.head, blocks)]);
    forall k: nat | k < s'.dev.tail ensures Settled(s', k) { assert Settled(s, k); }
    forall k: nat | s'.dev.tail <= k < s'.dev.head && k !in s'.dev.dead ensures HasTicket(s', k) {
      if k < s.dev.head {
        assert HasTicket(s, k);
        var q :| q in s.requests && s.requests[q].ticket == k;
        assert q in s'.requests && s'.requests[q].ticket == k;
      } else {
        assert p in s'.requests && s'.requests[p].ticket == k;
      }
    }
  }

  /** Moving on inside the request, or changing who holds the lock, moves no ticket. */
  lemma OrderDependsOnTickets(s: State, s': State)
    requires TicketsInOrder(s)
    requires s'.dev.head == s.dev.head && s'.dev.tail == s.dev.tail
    requires s'.dev.dead == s.dev.dead && s'.granted == s.granted
    requires s'.requests.Keys == s.requests.Keys
    requires forall p :: p in s.requests ==> s'.requests[p].ticket == s.requests[p].ticket
    ensures TicketsInOrder(s')
  {
    forall k: nat | k < s'.dev.tail ensures Settled(s', k) { assert Settled(s, k); }
    forall k: nat | s'.dev.tail <= k < s'.dev.head && k !in s'.dev.dead ensures HasTicket(s', k) {
      assert HasTicket(s, k);
      var q :| q in s.requests && s.requests[q].ticket == k;
      assert q in s'.requests && s'.requests[q].ticket == k;
    }
  }

  lemma FirstRegionKeepsOrder(s: State, p: nat, f: nat, blocks: bool)
    requires TicketsInOrder(s) && FilesKnown(s) && Enabled(s, Take(p, f, blocks))
    ensures TicketsInOrder(Step(s, Take(p, f, blocks)).0)
  {
    hide TicketsInOrder, Insert;
    TakingKeepsOrder(s, p, f, blocks);
    if s.dev.writer == p {
      var s1 := s.(dev := s.dev.(head := s.dev.head + 1), requests := s.requests[p := Ticketed(f, s.dev.head, blocks)]);
      GivingUpKeepsOrder(s1, p);
      assert s1.requests - {p} == s.requests - {p};
    }
  }

  lemma AskedKeepsOrder(s: State, p: nat, e: Event)
    requires TicketsInOrder(s) && FilesKnown(s) && Enabled(s, e)
    requires (e == Turn(p) || (e == Try(p) && p !in s.dev.readers))
    ensures TicketsInOrder(Step(s, e).0)
  {
    hide TicketsInOrder, Insert, Carried;
    AskingKeepsOrder(s, p);
    var (s', ready) := AfterAsking(s, s.requests[p]);
    if ready {
      GrantingKeepsOrder(s', p);
    } else if e.Turn? {
      OrderDependsOnTickets(s', Step(s, e).0);
    } else {
      GivingUpKeepsOrder(s', p);
    }
  }

  lemma StepKeepsOrder(s: State, e: Event)
    requires Safe(s) && Enabled(s, e)
    ensures TicketsInOrder(Step(s, e).0)
  {
    hide TicketsInOrder, HoldersFlagged, WaitersHoldNothing, Carried, Insert;
    match e
    case Take(p, f, blocks) => FirstRegionKeepsOrder(s, p, f, blocks);
    case Check(p) =>
      if p in s.dev.readers { GivingUpKeepsOrder(s, p); } else { OrderDependsOnTickets(s, Step(s, e).0); }
    case Turn(p) => AskedKeepsOrder(s, p, e);
    case Poll(p, _) =>
      AskingKeepsOrder(s, p);
      OrderDependsOnTickets(AfterAsking(s, s.requests[p]).0, Step(s, e).0);
    case Abandon(p) => GivingUpKeepsOrder(s, p);
    case Try(p) =>
      if p in s.dev.readers { GivingUpKeepsOrder(s, p); } else { AskedKeepsOrder(s, p, e); }
    case Release(_, _) => OrderDependsOnTickets(s, Step(s, e).0);
    case Close(_, _) => OrderDependsOnTickets(s, Step(s, e).0);
  }

  // ------------------------------------------------------------ holders

  lemma GrantingFlags(s: State, p: nat)
    requires HoldersFlagged(s) && FilesKnown(s) && p in s.requests && !Holds(s.dev, p)
    requires Admits(s.dev, s.files[s.requests[p].file].writable)
    ensures HoldersFlagged(WithLock(s, p, s.requests[p]))
  {
    var r := s.requests[p];
    var s' := WithLock(s, p, r);
    forall q: nat | Holds(s'.dev, q) ensures exists f :: f in s'.locked && s'.files[f].pid == q {
      if q == p {
        assert r.file in s'.locked;
      } else {
        assert Holds(s.dev, q);
        var f :| f in s.locked && s.files[f].pid == q;
        assert f in s'.locked;
      }
    }
  }

  lemma UnlockingClears(s: State, p: nat, file: nat)
    requires HoldersFlagged(s) && file in s.locked && s.files[file].pid == p
    ensures HoldersFlagged(Unlocked(s, p, file))
    ensures !Holds(Unlocked(s, p, file).dev, p)
  {
    var s' := Unlocked(s, p, file);
    WithoutOne(s.dev.readers, p);
    forall q: nat | Holds(s'.dev, q) ensures exists f :: f in s'.locked && s'.files[f].pid == q {
      assert Holds(s.dev, q);
      var f :| f in s.locked && s.files[f].pid == q;
      assert f in s'.locked;
    }
  }

  lemma FlagsDependOnHolders(s: State, s': State)
    requires HoldersFlagged(s)
    requires s'.dev.writer == s.dev.writer && s'.dev.readers == s.dev.readers && s'.dev.numReaders == s.dev.numReaders
    requires s'.locked == s.locked && s'.files == s.files
    ensures HoldersFlagged(s')
  {
    forall q: nat | Holds(s'.dev, q) ensures exists f :: f in s'.locked && s'.files[f].pid == q {
      assert Holds(s.dev, q);
    }
  }

  lemma StepKeepsFlags(s: State, e: Event)
    requires Safe(s) && Enabled(s, e)
    ensures HoldersFlagged(Step(s, e).0)
  {
    hide HoldersFlagged, TicketsInOrder;
    match e
    case Turn(p) =>
      var (s', ready) := AfterAsking(s, s.requests[p]);
      FlagsDependOnHolders(s, s');
      if ready { GrantingFlags(s', p); } else { FlagsDependOnHolders(s', Step(s, e).0); }
    case Try(p) =>
      if p in s.dev.readers { FlagsDependOnHolders(s, Step(s, e).0); } else {
        var (s', ready) := AfterAsking(s, s.requests[p]);
        FlagsDependOnHolders(s, s');
        if ready { GrantingFlags(s', p); } else { FlagsDependOnHolders(s', Step(s, e).0); }
      }
    case Release(p, f) =>
      if f in s.locked { UnlockingClears(s, p, f); }
    case Close(p, f) =>
      if f in s.locked { UnlockingClears(s, p, f); }
    case Take(_, _, _) => FlagsDependOnHolders(s, Step(s, e).0);
    case Check(_) => FlagsDependOnHolders(s, Step(s, e).0);
    case Poll(_, _) => FlagsDependOnHolders(s, Step(s, e).0);
    case Abandon(_) => FlagsDependOnHolders(s, Step(s, e).0);
  }

  /** A process gets or loses the lock in its own events only. */
  lemma OthersLeaveHoldingAlone(s: State, e: Event, q: nat)
    requires Safe(s) && Enabled(s, e) && e.pid != q
    ensures Holds(Step(s, e).0.dev, q) == Holds(s.dev, q)
    ensures q in Step(s, e).0.requests <==> q in s.requests
    ensures q in s.requests ==> Step(s, e).0.requests[q] == s.requests[q]
  {
    hide TicketsInOrder, Carried, Insert;
    WithoutOne(s.dev.readers, e.pid);
  }

  lemma StepKeepsWaiters(s: State, e: Event)
    requires Safe(s) && Enabled(s, e)
    ensures WaitersHoldNothing(Step(s, e).0) && FilesKnown(Step(s, e).0)
  {
    hide TicketsInOrder, HoldersFlagged;
    var s' := Step(s, e).0;
    forall q | q in s'.requests
      ensures s'.dev.writer != q && (s'.requests[q].Ticketed? || q !in s'.dev.readers)
      ensures Uses(s', q, s'.requests[q].file)
    {
      if q != e.pid { assert q in s.requests; OthersLeaveHoldingAlone(s, e, q); }
    }
  }

  // ------------------------------------------------------------ runs

  lemma StepIsSafe(s: State, e: Event)
    requires Safe(s) && Enabled(s, e)
    ensures Safe(Step(s, e).0)
    ensures s.granted <= Step(s, e).0.granted
  {
    StepKeepsOrder(s, e);
    StepKeepsFlags(s, e);
    StepKeepsWaiters(s, e);
  }

  ghost predicate Follows(s: State, run: seq<Event>, s': State)
    decreases |run|
  {
    if run == [] then s' == s
    else Enabled(s, run[0]) && FilesKnown(s) && Follows(Step(s, run[0]).0, run[1..], s')
  }

  /** In every interleaving: readers and writers exclude each other, the count of
      readers and the flags on files say who holds the lock, no waiter holds it,
      and the lock is granted in the order of the tickets. */
  lemma {:induction false} RunsAreSafe(s: State, run: seq<Event>, s': State)
    requires Safe(s) && Follows(s, run, s')
    ensures Safe(s') && s.granted <= s'.granted
    decreases |run|
  {
    if run != [] {
      StepIsSafe(s, run[0]);
      RunsAreSafe(Step(s, run[0]).0, run[1..], s');
    }
  }

  /** Nobody gets the lock while a request with a smaller ticket still waits for it. */
  lemma NobodyOvertakes(s: State, e: Event, q: nat)
    requires Safe(s) && Enabled(s, e)
    requires Step(s, e).1 == Returned(Success) && e.pid in s.requests
    requires q in s.requests && q != e.pid
    ensures s.requests[e.pid].ticket < s.requests[q].ticket
    ensures Step(s, e).0.granted == s.granted + [s.requests[e.pid].ticket]
  {
    CanRunExact(s, e.pid);
    SettledIffNobodyInFront(s, s.requests[e.pid].ticket);
  }

  /** `p` is the oldest request and the lock is free for what it asks. */
  ghost predicate Due(s: State, p: nat) {
    && Safe(s) && p in s.requests && Admits(s.dev, s.files[s.requests[p].file].writable)
    && forall q :: q in s.requests ==> s.requests[p].ticket <= s.requests[q].ticket
  }

  lemma DueIsReady(s: State, p: nat)
    requires Due(s, p)
    ensures AfterAsking(s, s.requests[p]).1
  {
    SettledIffNobodyInFront(s, s.requests[p].ticket);
    CanRunExact(s, p);
  }

  lemma DueTurn(s: State, p: nat)
    requires Due(s, p) && s.requests[p].Checked?
    ensures Step(s, Turn(p)).1 == Returned(Success) && Holds(Step(s, Turn(p)).0.dev, p)
  {
    DueIsReady(s, p);
    hide Safe, Carried;
  }

  lemma DuePoll(s: State, p: nat, signal: bool)
    requires Due(s, p) && s.requests[p].Waiting?
    ensures Step(s, Poll(p, signal)).0.requests[p].Checked? && Due(Step(s, Poll(p, signal)).0, p)
  {
    DueIsReady(s, p);
    StepIsSafe(s, Poll(p, signal));
    hide Safe, Carried;
  }

  /** When the lock is free for it, the oldest request gets it at its next turns,
      signal or not: the poll sends it back to ask, and asking succeeds. */
  lemma OldestIsServed(s: State, p: nat, signal: bool)
    requires Due(s, p) && (s.requests[p].Waiting? || s.requests[p].Checked?)
    ensures var s1 := if s.requests[p].Waiting? then Step(s, Poll(p, signal)).0 else s;
      Due(s1, p) && Enabled(s1, Turn(p)) && Step(s1, Turn(p)).1 == Returned(Success)
      && Holds(Step(s1, Turn(p)).0.dev, p)
  {
    hide Step, TicketsInOrder, HoldersFlagged;
    if s.requests[p].Waiting? {
      DuePoll(s, p, signal);
      DueTurn(Step(s, Poll(p, signal)).0, p);
    } else {
      DueTurn(s, p);
    }
  }

  /** Trying succeeds exactly when the lock admits the request, its process does
      not read already, and every earlier ticket is settled; it never waits. */
  lemma TryExact(s: State, p: nat)
    requires Safe(s) && Enabled(s, Try(p))
    ensures Step(s, Try(p)).1 == Returned(
      if p !in s.dev.readers && Admits(s.dev, s.files[s.requests[p].file].writable)
         && forall k: nat :: k < s.requests[p].ticket ==> Settled(s, k)
      then Success else Busy)
    ensures p !in Step(s, Try(p)).0.requests
  {
    CanRunExact(s, p);
  }

  lemma {:induction false} OthersRun(s: State, run: seq<Event>, s': State, p: nat)
    requires Safe(s) && Follows(s, run, s')
    requires forall e :: e in run ==> e.pid != p
    ensures Safe(s') && Holds(s'.dev, p) == Holds(s.dev, p)
    ensures p in s'.requests <==> p in s.requests
    ensures p in s.requests ==> s'.requests[p] == s.requests[p]
    ensures s'.files == s.files
    decreases |run|
  {
    hide Safe, Step;
    if run != [] {
      assert run[0] in run;
      OneStepOfOthers(s, run[0], p);
      OthersRun(Step(s, run[0]).0, run[1..], s', p);
    }
  }

  lemma FilesStay(s: State, e: Event)
    requires FilesKnown(s) && Enabled(s, e)
    ensures Step(s, e).0.files == s.files
  {
    hide Carried, Insert, Without;
  }

  lemma OneStepOfOthers(s: State, e: Event, p: nat)
    requires Safe(s) && Enabled(s, e) && e.pid != p
    ensures FilesKnown(s) && Safe(Step(s, e).0) && Holds(Step(s, e).0.dev, p) == Holds(s.dev, p)
    ensures p in Step(s, e).0.requests <==> p in s.requests
    ensures p in s.requests ==> Step(s, e).0.requests[p] == s.requests[p]
    ensures Step(s, e).0.files == s.files
  {
    hide TicketsInOrder, HoldersFlagged, WaitersHoldNothing, Carried, Insert, Without;
    StepIsSafe(s, e);
    OthersLeaveHoldingAlone(s, e, p);
    FilesStay(s, e);
  }

  /** A blocking request answers "deadlock" exactly when its process held the
      lock as it came in: a writer at once, a reader at the second region,
      whatever the others do in between. */
  lemma DeadlockExact(s: State, p: nat, f: nat, run: seq<Event>, s': State)
    requires Safe(s) && Enabled(s, Take(p, f, true))
    requires Follows(Step(s, Take(p, f, true)).0, run, s')
    requires forall e :: e in run ==> e.pid != p
    ensures s.dev.writer == p <==> Step(s, Take(p, f, true)).1 == Returned(Deadlock)
    ensures s.dev.writer != p ==>
      Safe(s') && Enabled(s', Check(p)) && (Step(s', Check(p)).1 == Returned(Deadlock) <==> Holds(s.dev, p))
    ensures s.dev.writer != p && !Holds(s.dev, p) ==>
      Step(s', Check(p)) == (s'.(requests := s'.requests[p := Checked(f, s.dev.head)]), Pending)
  {
    StepIsSafe(s, Take(p, f, true));
    OthersRun(Step(s, Take(p, f, true)).0, run, s', p);
  }

  /** A whole request that does not block, from its arrival, whatever the others do
      in between: busy at once for the writer; otherwise success exactly when its
      process did not hold the lock as it came in and the lock admits the request
      with every earlier ticket settled.  It never waits. */
  lemma TryFromArrival(s: State, p: nat, f: nat, run: seq<Event>, s': State)
    requires Safe(s) && Enabled(s, Take(p, f, false))
    requires Follows(Step(s, Take(p, f, false)).0, run, s')
    requires forall e :: e in run ==> e.pid != p
    ensures Step(s, Take(p, f, false)).1 == if s.dev.writer == p then Returned(Busy) else Pending
    ensures s.dev.writer != p ==>
      && Safe(s') && Enabled(s', Try(p)) && p !in Step(s', Try(p)).0.requests
      && Step(s', Try(p)).1 == Returned(
           if !Holds(s.dev, p) && Admits(s'.dev, s.files[f].writable)
              && forall k: nat :: k < s.dev.head ==> Settled(s', k)
           then Success else Busy)
  {
    StepIsSafe(s, Take(p, f, false));
    OthersRun(Step(s, Take(p, f, false)).0, run, s', p);
    if s.dev.writer != p {
      hide Safe;
      TryExact(s', p);
    }
  }

  /** The same request, had it been allowed to block. */
  function Blocking(s: State, p: nat): State
    requires p in s.requests && s.requests[p].Ticketed?
  {
    s.(requests := s.requests[p := s.requests[p].(blocks := true)])
  }

  /** Trying is acquiring without the wait: where acquiring gets the lock at once,
      trying gets it and leaves the same state; where acquiring would wait or
      answer "deadlock", trying is busy. */
  lemma TryIsAcquire(s: State, p: nat)
    requires Safe(s) && Enabled(s, Try(p))
    ensures var b := Blocking(s, p);
            && FilesKnown(b) && Enabled(b, Check(p))
            && var (c, checked) := Step(b, Check(p));
               if checked.Pending? && FilesKnown(c) && Enabled(c, Turn(p)) && Step(c, Turn(p)).1 == Returned(Success)
               then Step(s, Try(p)).1 == Returned(Success) && Step(s, Try(p)).0 == Step(c, Turn(p)).0
               else Step(s, Try(p)).1 == Returned(Busy)
  {
    hide TicketsInOrder, HoldersFlagged, Carried, Insert;
    var b := Blocking(s, p);
    var (c, checked) := Step(b, Check(p));
    if checked.Pending? {
      assert c.requests - {p} == s.requests - {p};
    }
  }

  predicate Unlocks(e: Event) { e.Release? || e.Close? }

  /** What an answer stands for.  A request is answered with success if and only if
      its ticket was granted; then its file has the lock and its process holds it,
      for writing or for reading as the file was opened.  No other event grants
      anything, and only releasing and closing take the flag off a file. */
  lemma AnswersMean(s: State, e: Event)
    requires Safe(s) && Enabled(s, e)
    ensures var (s', out) := Step(s, e);
            if !Unlocks(e) && out == Returned(Success) then
              && e.pid in s.requests
              && var r := s.requests[e.pid];
                 && s'.granted == s.granted + [r.ticket] && s'.locked == s.locked + {r.file} && r.file !in s.locked
                 && (if s.files[r.file].writable then s'.dev.writer == e.pid else e.pid in s'.dev.readers)
            else
              s'.granted == s.granted && s'.locked == (if Unlocks(e) then s.locked - {e.file} else s.locked)
  {
    hide TicketsInOrder, Carried, Insert;
    var (s', out) := Step(s, e);
    if !Unlocks(e) && out == Returned(Success) {
      assert !Holds(s.dev, e.pid);
    }
  }

  /** Every answer to a request ends it and settles its ticket, so that it stands in
      nobody's way; without success the process holds what it held. */
  lemma AnswersSettle(s: State, e: Event)
    requires Safe(s) && Enabled(s, e) && !Unlocks(e) && Step(s, e).1.Returned?
    ensures var (s', out) := Step(s, e);
            && e.pid !in s'.requests
            && Settled(s', if e.Take? then s.dev.head else s.requests[e.pid].ticket)
            && (out != Returned(Success) ==> Holds(s'.dev, e.pid) == Holds(s.dev, e.pid))
  {
    hide HoldersFlagged, Carried, Insert;
    if e.Take? {
      InsertKeepsOrder(s.dev.dead, s.dev.head);
    } else {
      var t := s.requests[e.pid].ticket;
      InsertKeepsOrder(s.dev.dead, t);
    }
  }

  /** Asking under the mutex grants the lock exactly when it admits the request and
      every earlier ticket is settled; otherwise the request goes to sleep. */
  lemma TurnExact(s: State, p: nat)
    requires Safe(s) && Enabled(s, Turn(p))
    ensures var r := s.requests[p];
            var could := Admits(s.dev, s.files[r.file].writable) && forall k: nat :: k < r.ticket ==> Settled(s, k);
            && Step(s, Turn(p)).1 == (if could then Returned(Success) else Pending)
            && Step(s, Turn(p)).0.requests
               == if could then s.requests - {p} else s.requests[p := Waiting(r.file, r.ticket)]
  {
    CanRunExact(s, p);
  }

  /** A sleeping request goes back to ask exactly when it could be granted, signal
      or not; otherwise a signal wakes it to give up, and without one it sleeps on. */
  lemma PollExact(s: State, p: nat, signal: bool)
    requires Safe(s) && Enabled(s, Poll(p, signal))
    ensures var r := s.requests[p];
            var could := Admits(s.dev, s.files[r.file].writable) && forall k: nat :: k < r.ticket ==> Settled(s, k);
            && Step(s, Poll(p, signal)).1 == Pending
            && Step(s, Poll(p, signal)).0.requests == s.requests[p :=
                 if could then Checked(r.file, r.ticket)
                 else if signal then Signalled(r.file, r.ticket) else Waiting(r.file, r.ticket)]
  {
    CanRunExact(s, p);
  }

  /** A request that gives up after a signal: interrupted, its ticket dead, and the
      lock as it was. */
  lemma AbandonExact(s: State, p: nat)
    requires Safe(s) && Enabled(s, Abandon(p))
    ensures var (s', out) := Step(s, Abandon(p));
            && out == Returned(Interrupted) && s'.requests == s.requests - {p}
            && s.requests[p].ticket in s'.dev.dead
            && s'.locked == s.locked && forall q: nat :: Holds(s'.dev, q) == Holds(s.dev, q)
  {
    InsertKeepsOrder(s.dev.dead, s.requests[p].ticket);
  }

  /** Closing a file that has the lock gives it back; closing another changes
      nothing. */
  lemma CloseExact(s: State, p: nat, f: nat)
    requires Safe(s) && Enabled(s, Close(p, f))
    ensures var (s', out) := Step(s, Close(p, f));
            && out == Returned(Success) && f !in s'.locked
            && (if f in s.locked then Holds(s.dev, p) && !Holds(s'.dev, p) else s' == s)
  {
    if f in s.locked { UnlockingClears(s, p, f); }
  }

  /** Releasing succeeds exactly for the file through which its process holds the lock. */
  lemma ReleaseExact(s: State, p: nat, f: nat)
    requires Safe(s) && Enabled(s, Release(p, f))
    ensures Step(s, Release(p, f)).1 == Returned(if f in s.locked then Success else Invalid)
    ensures f in s.locked ==> Holds(s.dev, p) && !Holds(Step(s, Release(p, f)).0.dev, p)
    ensures (exists g :: g in s.locked && s.files[g].pid == p) <==> Holds(s.dev, p)
  {
    if f in s.locked { UnlockingClears(s, p, f); }
  }

  /** When no request is under way every ticket is settled, so a new request runs. */
  lemma NothingIsLost(s: State)
    requires Safe(s) && s.requests == map[]
    ensures forall k: nat :: k < s.dev.head ==> Settled(s, k)
  {
    SettledIffNobodyInFront(s, s.dev.head);
  }
}
