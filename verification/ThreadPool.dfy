/**
 The prethreaded server of serv08.c and pthread08.c: the main thread puts accepted descriptors into
 a ring of 32 slots, and any number of worker threads take them out under a mutex and a condition.

 Every step below is one stretch of code between two points where another thread may run.  The
 condition variable has the semantics of POSIX: a signal wakes at least one sleeper if there is one,
 and a sleeper may also wake by itself.
 */
module ThreadPool {
  import opened Ring

  const MAXNCLI: nat := 32

  // ----- the critical sections, as the two threads run them -----

  class Shared {
    var clifd: array<int>
    var iget: nat
    var iput: nat

    ghost predicate Valid() reads this, clifd { clifd.Length == MAXNCLI && iget < MAXNCLI && iput < MAXNCLI }

    ghost function State(): Ring<int>
      reads this, clifd
      requires Valid()
    {
      Ring(clifd[..], iget, iput)
    }

    constructor ()
      ensures Valid() && fresh(clifd) && Queued(State(), [])
    {
      clifd := new int[MAXNCLI](_ => 0);
      iget, iput := 0, 0;
    }

    /** The main thread's section: full tells that it quits. */
    method PutConnection(connfd: int) returns (full: bool)
      requires Valid()
      modifies this`iput, clifd
      ensures Valid() && clifd == old(clifd)
      ensures State() == Put(old(State()), connfd) && full == (State().put == State().get)
    {
      clifd[iput] := connfd;
      iput := iput + 1;
      if iput == MAXNCLI { iput := 0; }
      full := iput == iget;
    }

    /** A worker's section, after the test that the ring is not empty. */
    method TakeConnection() returns (connfd: int)
      requires Valid()
      modifies this`iget
      ensures Valid() && clifd == old(clifd)
      ensures connfd == old(State()).slots[old(iget)] && State() == Take(old(State()))
    {
      connfd := clifd[iget];
      iget := iget + 1;
      if iget == MAXNCLI { iget := 0; }
    }
  }

  // ----- the threads -----

  /** Where a worker is: before the lock, at the loop test, past it, asleep, before the unlock, or serving. */
  datatype Worker = WantLock | Testing | Taking | Sleeping | Leaving(fd: int) | Serving(fd: int)

  datatype Main = Accepting | Ready(fd: int) | Storing(fd: int) | Checking | Signalling | Unlocking | Quit

  datatype Holder = Free | ByMain | ByWorker(i: nat)

  /**
   stored and taken record, in order, every descriptor put into the ring and every one taken from it;
   takers[k] is the worker that took taken[k], and counts[i] is worker i's thread_count.
   */
  datatype State = State(
    ring: Ring<int>, workers: seq<Worker>, main: Main, lock: Holder,
    accepted: seq<int>, stored: seq<int>, taken: seq<int>, takers: seq<nat>, counts: seq<nat>)

  function Init(n: nat): State {
    State(Ring(seq(MAXNCLI, _ => 0), 0, 0), seq(n, _ => WantLock), Accepting, Free, [], [], [], [], seq(n, _ => 0))
  }

  datatype Event =
    | Accept(fd: int) | MainLock | Store | Check | Signal(woken: set<nat>) | MainUnlock
    | Lock(i: nat) | Test(i: nat) | TakeOne(i: nat) | Unlock(i: nat) | Served(i: nat) | Spurious(i: nat)

  predicate IsAt(s: State, i: nat, w: Worker) { i < |s.workers| && s.workers[i] == w }

  predicate Asleep(s: State, i: nat) { IsAt(s, i, Sleeping) }

  /** POSIX: at least one sleeper is woken if there is any. */
  ghost predicate Wakes(s: State, woken: set<nat>) {
    && (forall i | i in woken :: Asleep(s, i))
    && ((exists i :: Asleep(s, i)) ==> woken != {})
  }

  ghost predicate Enabled(s: State, e: Event) {
    match e
    case Accept(_) => s.main == Accepting
    case MainLock => s.main.Ready? && s.lock == Free
    case Store => s.main.Storing? && Shape(s.ring)
    case Check => s.main == Checking
    case Signal(woken) => s.main == Signalling && Wakes(s, woken)
    case MainUnlock => s.main == Unlocking
    case Lock(i) => IsAt(s, i, WantLock) && s.lock == Free
    case Test(i) => IsAt(s, i, Testing)
    case TakeOne(i) => IsAt(s, i, Taking) && Shape(s.ring)
    case Unlock(i) => i < |s.workers| && s.workers[i].Leaving? && i < |s.counts|
    case Served(i) => i < |s.workers| && s.workers[i].Serving?
    case Spurious(i) => Asleep(s, i)
  }

  function Woken(ws: seq<Worker>, woken: set<nat>): (r: seq<Worker>)
    ensures |r| == |ws|
  {
    seq(|ws|, i requires 0 <= i < |ws| => if i in woken then WantLock else ws[i])
  }

  ghost function Step(s: State, e: Event): State
    requires Enabled(s, e)
  {
    match e
    case Accept(fd) => s.(main := Ready(fd), accepted := s.accepted + [fd])
    case MainLock => s.(main := Storing(s.main.fd), lock := ByMain)
    case Store => s.(main := Checking, ring := Put(s.ring, s.main.fd), stored := s.stored + [s.main.fd])
    case Check => s.(main := if s.ring.put == s.ring.get then Quit else Signalling)
    case Signal(woken) => s.(main := Unlocking, workers := Woken(s.workers, woken))
    case MainUnlock => s.(main := Accepting, lock := Free)
    case Lock(i) => s.(workers := s.workers[i := Testing], lock := ByWorker(i))
    case Test(i) =>
      if s.ring.get == s.ring.put then s.(workers := s.workers[i := Sleeping], lock := Free)
      else s.(workers := s.workers[i := Taking])
    case TakeOne(i) =>
      var fd := s.ring.slots[s.ring.get];
      s.(workers := s.workers[i := Leaving(fd)], ring := Take(s.ring), taken := s.taken + [fd],
        takers := s.takers + [i])
    case Unlock(i) =>
      s.(workers := s.workers[i := Serving(s.workers[i].fd)], lock := Free, counts := s.counts[i := s.counts[i] + 1])
    case Served(i) => s.(workers := s.workers[i := WantLock])
    case Spurious(i) => s.(workers := s.workers[i := WantLock])
  }

  ghost predicate Runs(s: State, es: seq<Event>)
    decreases |es|
  {
    es == [] || (Enabled(s, es[0]) && Runs(Step(s, es[0]), es[1..]))
  }

  ghost function After(s: State, es: seq<Event>): State
    requires Runs(s, es)
    decreases |es|
  {
    if es == [] then s else After(Step(s, es[0]), es[1..])
  }

  // ----- the invariant -----

  predicate IsHeading(w: Worker) { w == WantLock || w == Testing || w == Taking }

  /** The workers that are awake and on their way to the ring. */
  function Heading(ws: seq<Worker>): nat {
    if ws == [] then 0 else Heading(ws[..|ws| - 1]) + (if IsHeading(ws[|ws| - 1]) then 1 else 0)
  }

  function CountOf(takers: seq<nat>, i: nat): nat {
    if takers == [] then 0 else CountOf(takers[..|takers| - 1], i) + (if takers[|takers| - 1] == i then 1 else 0)
  }

  /** What is in the ring. */
  function Queue(s: State): seq<int>
    requires |s.taken| <= |s.stored|
  {
    s.stored[|s.taken|..]
  }

  /** 1 between the store and the signal that announces it. */
  function Announced(s: State): nat { if s.main == Checking || s.main == Signalling || s.main == Quit then 1 else 0 }

  ghost predicate Locked(s: State) {
    && (s.main.Storing? || s.main == Checking || s.main == Signalling || s.main == Unlocking || s.main == Quit
        <==> s.lock == ByMain)
    && (forall i | 0 <= i < |s.workers| ::
          (s.workers[i] == Testing || s.workers[i] == Taking || s.workers[i].Leaving?) <==> s.lock == ByWorker(i))
    && (s.lock.ByWorker? ==> s.lock.i < |s.workers|)
  }

  ghost predicate Fifo(s: State) {
    && s.taken <= s.stored && |s.takers| == |s.taken|
    && s.accepted == s.stored + (if s.main.Ready? || s.main.Storing? then [s.main.fd] else [])
  }

  ghost predicate Bounded(s: State)
    requires |s.taken| <= |s.stored|
  {
    if s.main == Checking then 1 <= |Queue(s)| <= MAXNCLI
    else if s.main == Quit then |Queue(s)| == MAXNCLI
    else |Queue(s)| < MAXNCLI
  }

  /** While a worker sleeps, there are no more descriptors queued than workers on their way, signals due included. */
  ghost predicate NoLostWakeup(s: State)
    requires |s.taken| <= |s.stored|
  {
    (exists i :: Asleep(s, i)) ==> |Queue(s)| <= Heading(s.workers) + Announced(s)
  }

  ghost predicate Counted(s: State) {
    && |s.counts| == |s.workers|
    && (forall k | 0 <= k < |s.takers| :: s.takers[k] < |s.workers|)
    && (forall i | 0 <= i < |s.workers| ::
          s.counts[i] + (if s.workers[i].Leaving? then 1 else 0) == CountOf(s.takers, i))
  }

  ghost predicate Inv(s: State) {
    && |s.ring.slots| == MAXNCLI && Locked(s) && Fifo(s) && Queued(s.ring, Queue(s)) && Bounded(s)
    && (forall i | IsAt(s, i, Taking) :: Queue(s) != [])
    && NoLostWakeup(s) && Counted(s)
  }

  lemma {:induction false} HeadingUpdate(ws: seq<Worker>, i: nat, w: Worker)
    requires i < |ws|
    ensures Heading(ws[i := w]) + (if IsHeading(ws[i]) then 1 else 0) == Heading(ws) + (if IsHeading(w) then 1 else 0)
  {
    var n := |ws| - 1;
    if i == n {
      assert ws[i := w][..n] == ws[..n];
    } else {
      HeadingUpdate(ws[..n], i, w);
      assert ws[i := w][..n] == ws[..n][i := w];
    }
  }

  /** Waking sleepers adds as many heading workers, at least one if any was woken. */
  lemma {:induction false} HeadingWoken(ws: seq<Worker>, woken: set<nat>)
    requires forall i | i in woken && i < |ws| :: ws[i] == Sleeping
    ensures Heading(Woken(ws, woken)) >= Heading(ws)
    ensures (exists i :: i in woken && i < |ws|) ==> Heading(Woken(ws, woken)) > Heading(ws)
  {
    if ws != [] {
      var n := |ws| - 1;
      HeadingWoken(ws[..n], woken);
      assert Woken(ws, woken)[..n] == Woken(ws[..n], woken);
    }
  }

  lemma {:induction false} SomeoneHeads(ws: seq<Worker>, i: nat)
    requires i < |ws| && IsHeading(ws[i])
    ensures Heading(ws) >= 1
  {
    if i < |ws| - 1 { SomeoneHeads(ws[..|ws| - 1], i); }
  }

  lemma {:induction false} NoOneHeads(ws: seq<Worker>)
    requires forall i | 0 <= i < |ws| :: !IsHeading(ws[i])
    ensures Heading(ws) == 0
  {
    if ws != [] { NoOneHeads(ws[..|ws| - 1]); }
  }

  lemma InitInv(n: nat)
    ensures Inv(Init(n))
  {
  }

  lemma StoreInv(s: State)
    requires Inv(s) && s.main.Storing?
    ensures Inv(Step(s, Store))
  {
    var t := Step(s, Store);
    PutQueued(s.ring, Queue(s), s.main.fd);
    assert Queue(t) == Queue(s) + [s.main.fd];
    assert forall i :: Asleep(t, i) ==> Asleep(s, i);
  }

  lemma CheckInv(s: State)
    requires Inv(s) && s.main == Checking
    ensures Inv(Step(s, Check)) && (Step(s, Check).main == Quit <==> |Queue(s)| == MAXNCLI)
  {
    Meet(s.ring, Queue(s));
    var t := Step(s, Check);
    assert Queue(t) == Queue(s) && Queue(s) != [];
    assert forall i :: Asleep(t, i) ==> Asleep(s, i);
  }

  lemma SignalInv(s: State, woken: set<nat>)
    requires Inv(s) && s.main == Signalling && Wakes(s, woken)
    ensures Inv(Step(s, Signal(woken)))
  {
    var t := Step(s, Signal(woken));
    assert forall i | i in woken :: Asleep(s, i);
    HeadingWoken(s.workers, woken);
    assert Queue(t) == Queue(s);
    if i :| Asleep(t, i) {
      assert Asleep(s, i);
      var j :| j in woken;
      assert Asleep(s, j);
    }
    assert forall i | IsAt(t, i, Taking) :: IsAt(s, i, Taking);
  }

  /** A worker's step that changes only that worker, its queue-free bookkeeping and the lock. */
  lemma WorkerMoves(s: State, t: State, i: nat)
    requires Inv(s) && i < |s.workers| == |t.workers| && t.workers == s.workers[i := t.workers[i]]
    requires t == s.(workers := t.workers, lock := t.lock, counts := t.counts)
    requires IsHeading(t.workers[i]) || (!IsHeading(s.workers[i]) && t.workers[i] != Sleeping)
    ensures Queue(t) == Queue(s) && NoLostWakeup(t)
  {
    HeadingUpdate(s.workers, i, t.workers[i]);
    if j :| Asleep(t, j) { assert Asleep(s, j); }
  }

  lemma TestInv(s: State, i: nat)
    requires Inv(s) && IsAt(s, i, Testing)
    ensures Inv(Step(s, Test(i)))
  {
    var t := Step(s, Test(i));
    Meet(s.ring, Queue(s));
    assert s.lock == ByWorker(i) && Queue(t) == Queue(s);
    if t.workers[i] == Taking {
      WorkerMoves(s, t, i);
    }
    assert forall j | IsAt(t, j, Taking) :: j == i || IsAt(s, j, Taking);
  }

  lemma TakeInv(s: State, i: nat)
    requires Inv(s) && IsAt(s, i, Taking)
    ensures Inv(Step(s, TakeOne(i)))
  {
    var t := Step(s, TakeOne(i));
    var q := Queue(s);
    assert q != [];
    TakeQueued(s.ring, q);
    assert s.stored == s.taken + q && q == [q[0]] + q[1..];
    assert t.taken == s.stored[..|t.taken|] && Queue(t) == q[1..];
    HeadingUpdate(s.workers, i, t.workers[i]);
    if j :| Asleep(t, j) { assert Asleep(s, j); }
    assert s.lock == ByWorker(i);
    assert forall j | IsAt(t, j, Taking) :: IsAt(s, j, Taking) && s.lock == ByWorker(j);
    assert t.takers[..|s.takers|] == s.takers;
  }

  lemma LockInv(s: State, i: nat)
    requires Inv(s) && IsAt(s, i, WantLock) && s.lock == Free
    ensures Inv(Step(s, Lock(i)))
  {
    var t := Step(s, Lock(i));
    WorkerMoves(s, t, i);
    assert forall j | IsAt(t, j, Taking) :: IsAt(s, j, Taking);
  }

  lemma UnlockInv(s: State, i: nat)
    requires Inv(s) && Enabled(s, Unlock(i))
    ensures Inv(Step(s, Unlock(i)))
  {
    var t := Step(s, Unlock(i));
    assert s.lock == ByWorker(i);
    WorkerMoves(s, t, i);
    assert forall j | IsAt(t, j, Taking) :: IsAt(s, j, Taking);
  }

  lemma BackInv(s: State, i: nat, e: Event)
    requires Inv(s) && Enabled(s, e) && (e == Served(i) || e == Spurious(i))
    ensures Inv(Step(s, e))
  {
    var t := Step(s, e);
    WorkerMoves(s, t, i);
    assert forall j | IsAt(t, j, Taking) :: IsAt(s, j, Taking);
  }

  /** The main thread's steps that leave the ring and the workers alone. */
  lemma MainInv(s: State, e: Event)
    requires Inv(s) && Enabled(s, e) && (e.Accept? || e == MainLock || e == MainUnlock)
    ensures Inv(Step(s, e))
  {
    var t := Step(s, e);
    assert Queue(t) == Queue(s);
    assert forall i :: Asleep(t, i) <==> Asleep(s, i);
    assert forall i | IsAt(t, i, Taking) :: IsAt(s, i, Taking);
  }

  /** Every step of every thread keeps the invariant. */
  lemma StepInv(s: State, e: Event)
    requires Inv(s) && Enabled(s, e)
    ensures Inv(Step(s, e))
  {
    match e {
      case Accept(_) => MainInv(s, e);
      case MainLock => MainInv(s, e);
      case MainUnlock => MainInv(s, e);
      case Store => StoreInv(s);
      case Check => CheckInv(s);
      case Signal(woken) => SignalInv(s, woken);
      case Lock(i) => LockInv(s, i);
      case Test(i) => TestInv(s, i);
      case TakeOne(i) => TakeInv(s, i);
      case Unlock(i) => UnlockInv(s, i);
      case Served(i) => BackInv(s, i, e);
      case Spurious(i) => BackInv(s, i, e);
    }
  }

  lemma {:induction false} RunInv(s: State, es: seq<Event>)
    requires Inv(s) && Runs(s, es)
    ensures Inv(After(s, es))
    decreases |es|
  {
    if es != [] {
      StepInv(s, es[0]);
      RunInv(Step(s, es[0]), es[1..]);
    }
  }

  // ----- what holds in every run of any number of workers -----

  /** Descriptors leave the ring in the order they came, each exactly once; at most 31 wait, or the server has quit. */
  lemma ExactlyOnceInOrder(n: nat, es: seq<Event>)
    requires Runs(Init(n), es)
    ensures var s := After(Init(n), es);
      && s.taken <= s.stored <= s.accepted && |s.accepted| <= |s.stored| + 1
      && |s.taken| == |s.takers| && (forall k | 0 <= k < |s.takers| :: s.takers[k] < n)
      && (s.main != Checking && s.main != Quit ==> |s.stored| - |s.taken| <= 31)
      && (s.main == Quit <==> s.main != Checking && |s.stored| - |s.taken| == 32)
  {
    InitInv(n);
    RunInv(Init(n), es);
    RunWorkers(Init(n), es);
    var s := After(Init(n), es);
    assert |Queue(s)| == |s.stored| - |s.taken|;
  }

  lemma {:induction false} RunWorkers(s: State, es: seq<Event>)
    requires Runs(s, es)
    ensures |After(s, es).workers| == |s.workers|
    decreases |es|
  {
    if es != [] { RunWorkers(Step(s, es[0]), es[1..]); }
  }

  /** fd is the last descriptor that worker i took. */
  ghost predicate LastTaken(s: State, i: nat, fd: int)
    requires |s.takers| == |s.taken|
  {
    exists k :: 0 <= k < |s.takers| && s.takers[k] == i && s.taken[k] == fd
      && forall j | k < j < |s.takers| :: s.takers[j] != i
  }

  ghost predicate InHand(s: State) {
    && |s.takers| == |s.taken|
    && forall i | 0 <= i < |s.workers| && (s.workers[i].Leaving? || s.workers[i].Serving?) ::
      LastTaken(s, i, s.workers[i].fd)
  }

  /** A descriptor taken is the taker's last, and the others' stay theirs. */
  lemma TakeInHand(s: State, i: nat)
    requires InHand(s) && Enabled(s, TakeOne(i))
    ensures InHand(Step(s, TakeOne(i)))
  {
    var t, n := Step(s, TakeOne(i)), |s.takers|;
    assert t.takers[n] == i && t.taken[n] == t.workers[i].fd;
    forall j | 0 <= j < |t.workers| && (t.workers[j].Leaving? || t.workers[j].Serving?)
      ensures LastTaken(t, j, t.workers[j].fd)
    {
      if j != i {
        assert LastTaken(s, j, s.workers[j].fd);
        var k :| 0 <= k < n && s.takers[k] == j && s.taken[k] == s.workers[j].fd
          && forall m | k < m < n :: s.takers[m] != j;
        assert t.takers[k] == j && t.taken[k] == t.workers[j].fd;
      }
    }
  }

  lemma StepInHand(s: State, e: Event)
    requires InHand(s) && Enabled(s, e)
    ensures InHand(Step(s, e))
  {
    if e.TakeOne? {
      TakeInHand(s, e.i);
    } else {
      var t := Step(s, e);
      forall i | 0 <= i < |t.workers| && (t.workers[i].Leaving? || t.workers[i].Serving?)
        ensures LastTaken(t, i, t.workers[i].fd)
      {
        assert LastTaken(s, i, s.workers[i].fd);
      }
    }
  }

  lemma {:induction false} RunInHand(s: State, es: seq<Event>)
    requires InHand(s) && Runs(s, es)
    ensures InHand(After(s, es))
    decreases |es|
  {
    if es != [] {
      StepInHand(s, es[0]);
      RunInHand(Step(s, es[0]), es[1..]);
    }
  }

  /** The descriptor a worker serves is the last it took from the ring. */
  lemma ServesWhatItTook(n: nat, es: seq<Event>, i: nat)
    requires Runs(Init(n), es) && i < |After(Init(n), es).workers| && After(Init(n), es).workers[i].Serving?
    ensures var s := After(Init(n), es); |s.takers| == |s.taken| && LastTaken(s, i, s.workers[i].fd)
  {
    RunInHand(Init(n), es);
  }

  /** No wakeup is lost, whatever the interleaving and whoever wakes by itself. */
  lemma WakeupsNotLost(n: nat, es: seq<Event>)
    requires Runs(Init(n), es)
    ensures var s := After(Init(n), es);
      (exists i :: Asleep(s, i)) ==> |s.stored| - |s.taken| <= Heading(s.workers) + Announced(s)
  {
    InitInv(n);
    RunInv(Init(n), es);
    var s := After(Init(n), es);
    assert |Queue(s)| == |s.stored| - |s.taken|;
  }

  /** With a descriptor waiting and the mutex free, a worker is on its way unless all of them are serving clients. */
  lemma NeverStalls(n: nat, es: seq<Event>)
    requires Runs(Init(n), es)
    requires var s := After(Init(n), es); s.lock == Free && |s.stored| > |s.taken|
    ensures var s := After(Init(n), es);
      (exists i :: IsAt(s, i, WantLock)) || (|s.workers| == n && forall i | 0 <= i < n :: s.workers[i].Serving?)
  {
    WakeupsNotLost(n, es);
    InitInv(n);
    RunInv(Init(n), es);
    RunWorkers(Init(n), es);
    var s := After(Init(n), es);
    if !(exists i :: IsAt(s, i, WantLock)) {
      forall i | 0 <= i < n ensures s.workers[i].Serving? {
        assert s.lock != ByWorker(i) && !IsAt(s, i, WantLock);
        if s.workers[i] == Sleeping {
          assert Asleep(s, i);
          forall j | 0 <= j < n ensures !IsHeading(s.workers[j]) {
            assert !IsAt(s, j, WantLock) && s.lock != ByWorker(j);
          }
          NoOneHeads(s.workers);
          assert false;
        }
      }
    }
  }

  lemma RunsOn(s: State, e: Event, es: seq<Event>)
    requires Enabled(s, e) && Runs(Step(s, e), es)
    ensures Runs(s, [e] + es) && After(s, [e] + es) == After(Step(s, e), es)
  {
    assert ([e] + es)[1..] == es;
  }

  /** A worker at the mutex takes it and finds a descriptor. */
  lemma WorkerFinds(s: State, i: nat) returns (t: State)
    requires Inv(s) && IsAt(s, i, WantLock) && s.lock == Free && s.main != Quit && |s.stored| > |s.taken|
    ensures Enabled(s, Lock(i)) && Enabled(Step(s, Lock(i)), Test(i)) && t == Step(Step(s, Lock(i)), Test(i))
    ensures Inv(t) && IsAt(t, i, Taking)
    ensures t.taken == s.taken && t.stored == s.stored && t.main == s.main && t.accepted == s.accepted
  {
    var u := Step(s, Lock(i));
    LockInv(s, i);
    TestInv(u, i);
    assert Queue(u) == Queue(s);
    Meet(u.ring, Queue(u));
    t := Step(u, Test(i));
  }

  /** It takes the oldest descriptor and goes to serve it. */
  lemma WorkerTakes(s: State, i: nat) returns (t: State)
    requires Inv(s) && IsAt(s, i, Taking)
    ensures Enabled(s, TakeOne(i)) && Enabled(Step(s, TakeOne(i)), Unlock(i))
    ensures t == Step(Step(s, TakeOne(i)), Unlock(i)) && Inv(t) && t.lock == Free && |s.taken| < |s.stored|
    ensures IsAt(t, i, Serving(s.stored[|s.taken|])) && t.taken == s.taken + [s.stored[|s.taken|]]
    ensures t.stored == s.stored && t.main == s.main
  {
    var u := Step(s, TakeOne(i));
    assert Queue(s) != [];
    TakeQueued(s.ring, Queue(s));
    TakeInv(s, i);
    UnlockInv(u, i);
    t := Step(u, Unlock(i));
  }

  /** Four steps of a worker, with the mutex free and a descriptor waiting, have it serve the oldest. */
  lemma WorkerTurn(s: State, i: nat)
    requires Inv(s) && IsAt(s, i, WantLock) && s.lock == Free && s.main != Quit && |s.stored| > |s.taken|
    ensures Runs(s, [Lock(i), Test(i), TakeOne(i), Unlock(i)])
    ensures var t := After(s, [Lock(i), Test(i), TakeOne(i), Unlock(i)]);
      && Inv(t) && t.lock == Free && IsAt(t, i, Serving(s.stored[|s.taken|]))
      && t.taken == s.taken + [s.stored[|s.taken|]] && t.stored == s.stored
  {
    var u := WorkerFinds(s, i);
    var t := WorkerTakes(u, i);
    RunsOn(Step(u, TakeOne(i)), Unlock(i), []);
    RunsOn(u, TakeOne(i), [Unlock(i)]);
    RunsOn(Step(s, Lock(i)), Test(i), [TakeOne(i), Unlock(i)]);
    RunsOn(s, Lock(i), [Test(i), TakeOne(i), Unlock(i)]);
    assert [Lock(i)] + [Test(i), TakeOne(i), Unlock(i)] == [Lock(i), Test(i), TakeOne(i), Unlock(i)]
      && [Test(i)] + [TakeOne(i), Unlock(i)] == [Test(i), TakeOne(i), Unlock(i)]
      && [TakeOne(i)] + [Unlock(i)] == [TakeOne(i), Unlock(i)] && [Unlock(i)] + [] == [Unlock(i)];
  }

  /** A connection is accepted and stored, and the ring is found to have room. */
  lemma AcceptorStores(s: State, fd: int) returns (t: State)
    requires Inv(s) && s.main == Accepting && s.lock == Free && |s.stored| - |s.taken| < 31
    ensures Enabled(s, Accept(fd)) && Enabled(Step(s, Accept(fd)), MainLock)
    ensures var u := Step(Step(s, Accept(fd)), MainLock);
      Enabled(u, Store) && Enabled(Step(u, Store), Check) && t == Step(Step(u, Store), Check)
    ensures Inv(t) && t.main == Signalling && t.stored == s.stored + [fd] && t.taken == s.taken
  {
    var u := Step(s, Accept(fd));
    MainInv(s, Accept(fd));
    MainInv(u, MainLock);
    var v := Step(u, MainLock);
    StoreInv(v);
    var w := Step(v, Store);
    CheckInv(w);
    assert |Queue(w)| == |s.stored| + 1 - |s.taken|;
    t := Step(w, Check);
  }

  /** Six steps of the acceptor, with the mutex free and room in the ring, put the connection into it and wake. */
  lemma AcceptorTurn(s: State, fd: int, woken: set<nat>)
    requires Inv(s) && s.main == Accepting && s.lock == Free && |s.stored| - |s.taken| < 31 && Wakes(s, woken)
    ensures Runs(s, [Accept(fd), MainLock, Store, Check, Signal(woken), MainUnlock])
    ensures var t := After(s, [Accept(fd), MainLock, Store, Check, Signal(woken), MainUnlock]);
      && Inv(t) && t.main == Accepting && t.lock == Free && t.stored == s.stored + [fd] && t.taken == s.taken
      && ((exists i :: Asleep(s, i)) ==> exists i :: Asleep(s, i) && IsAt(t, i, WantLock))
  {
    var t := AcceptorStores(s, fd);
    assert t.workers == s.workers;
    assert forall i :: Asleep(t, i) <==> Asleep(s, i);
    SignalInv(t, woken);
    var u := Step(t, Signal(woken));
    MainInv(u, MainUnlock);
    if exists i :: Asleep(s, i) {
      var i :| i in woken;
      assert Asleep(s, i) && IsAt(Step(u, MainUnlock), i, WantLock);
    }
    AcceptorRuns(s, fd, woken, t);
  }

  lemma AcceptorRuns(s: State, fd: int, woken: set<nat>, t: State)
    requires Enabled(s, Accept(fd)) && Enabled(Step(s, Accept(fd)), MainLock)
    requires Enabled(Step(Step(s, Accept(fd)), MainLock), Store)
    requires Enabled(Step(Step(Step(s, Accept(fd)), MainLock), Store), Check)
    requires t == Step(Step(Step(Step(s, Accept(fd)), MainLock), Store), Check)
    requires Enabled(t, Signal(woken)) && Enabled(Step(t, Signal(woken)), MainUnlock)
    ensures Runs(s, [Accept(fd), MainLock, Store, Check, Signal(woken), MainUnlock])
    ensures After(s, [Accept(fd), MainLock, Store, Check, Signal(woken), MainUnlock])
      == Step(Step(t, Signal(woken)), MainUnlock)
  {
    var a := Step(s, Accept(fd));
    var b := Step(a, MainLock);
    var c := Step(b, Store);
    RunsOn(Step(t, Signal(woken)), MainUnlock, []);
    RunsOn(t, Signal(woken), [MainUnlock]);
    RunsOn(c, Check, [Signal(woken), MainUnlock]);
    RunsOn(b, Store, [Check, Signal(woken), MainUnlock]);
    RunsOn(a, MainLock, [Store, Check, Signal(woken), MainUnlock]);
    RunsOn(s, Accept(fd), [MainLock, Store, Check, Signal(woken), MainUnlock]);
    assert [MainUnlock] + [] == [MainUnlock] && [Signal(woken)] + [MainUnlock] == [Signal(woken), MainUnlock]
      && [Check] + [Signal(woken), MainUnlock] == [Check, Signal(woken), MainUnlock]
      && [Store] + [Check, Signal(woken), MainUnlock] == [Store, Check, Signal(woken), MainUnlock]
      && [MainLock] + [Store, Check, Signal(woken), MainUnlock] == [MainLock, Store, Check, Signal(woken), MainUnlock]
      && [Accept(fd)] + [MainLock, Store, Check, Signal(woken), MainUnlock]
        == [Accept(fd), MainLock, Store, Check, Signal(woken), MainUnlock];
  }

  /** thread_count of each worker is the number of descriptors it took, but for one it has yet to unlock with. */
  lemma CountsAreRight(n: nat, es: seq<Event>, i: nat)
    requires Runs(Init(n), es) && i < n
    ensures var s := After(Init(n), es);
      |s.counts| == n == |s.workers| && s.counts[i] + (if s.workers[i].Leaving? then 1 else 0) == CountOf(s.takers, i)
  {
    InitInv(n);
    RunInv(Init(n), es);
    RunWorkers(Init(n), es);
  }
}
