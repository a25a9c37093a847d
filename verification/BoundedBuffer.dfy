/**
 produce and consume of example03.c: a ring of ten items, one mutex and two condition variables,
 with any number of threads that call either function any number of times.

 The two functions mirror each other, so the threads' steps are written once, for a role.
 */
module BoundedBuffer {
  import opened Basics
  import opened Ring

  const BUFFSIZE: nat := 10

  // ----- the two updates of the buffer, under the mutex -----

  class Buffer {
    var slots: array<int>
    var nitems: int
    var nextGet: nat
    var nextPut: nat

    ghost predicate Valid()
      reads this, slots
    {
      slots.Length == BUFFSIZE && nextGet < BUFFSIZE && nextPut < BUFFSIZE
    }

    ghost function State(): Ring<int>
      reads this, slots
      requires Valid()
    {
      Ring(slots[..], nextGet, nextPut)
    }

    constructor ()
      ensures Valid() && fresh(slots) && Queued(State(), []) && nitems == 0
    {
      slots := new int[BUFFSIZE](_ => 0);
      nitems, nextGet, nextPut := 0, 0, 0;
    }

    method Store(val: int)
      requires Valid()
      modifies this`nitems, this`nextPut, slots
      ensures Valid() && slots == old(slots)
      ensures State() == Put(old(State()), val) && nitems == old(nitems) + 1
    {
      slots[nextPut] := val;
      nextPut := nextPut + 1;
      if nextPut >= BUFFSIZE { nextPut := 0; }
      nitems := nitems + 1;
    }

    method Fetch() returns (val: int)
      requires Valid()
      modifies this`nitems, this`nextGet
      ensures Valid() && slots == old(slots)
      ensures val == old(State()).slots[old(nextGet)]
      ensures State() == Take(old(State())) && nitems == old(nitems) - 1
    {
      val := slots[nextGet];
      nextGet := nextGet + 1;
      if nextGet >= BUFFSIZE { nextGet := 0; }
      nitems := nitems - 1;
    }
  }

  // ----- the threads -----

  datatype Role = Producer | Consumer

  function Other(r: Role): Role { if r == Producer then Consumer else Producer }

  /**
   Where a thread is in a call: before the lock, at the loop test, past it, before the signal to the
   other role, before the unlock, or asleep on its role's condition.  val is what a producer brings.
   */
  datatype Thread =
    | Idle
    | Lock(role: Role, val: int)
    | Test(role: Role, val: int)
    | Move(role: Role, val: int)
    | Signal(role: Role)
    | Unlock(role: Role)
    | Sleep(role: Role, val: int)

  datatype State = State(
    ring: Ring<int>, nitems: int, threads: seq<Thread>, lock: Option<nat>, produced: seq<int>, consumed: seq<int>)

  function Init(n: nat): State {
    State(Ring(seq(BUFFSIZE, _ => 0), 0, 0), 0, seq(n, _ => Idle), None, [], [])
  }

  datatype Event =
    | Call(i: nat, role: Role, val: int) | Acquire(i: nat) | Decide(i: nat) | Transfer(i: nat)
    | Announce(i: nat, woken: set<nat>) | Release(i: nat) | Spurious(i: nat)

  predicate Asleep(s: State, r: Role, i: nat) { i < |s.threads| && s.threads[i].Sleep? && s.threads[i].role == r }

  ghost predicate Wakes(s: State, r: Role, woken: set<nat>) {
    && (forall i | i in woken :: Asleep(s, r, i))
    && ((exists i :: Asleep(s, r, i)) ==> woken != {})
  }

  /** The loop condition of the role: the buffer is full, or empty. */
  predicate MustWait(s: State, r: Role) { if r == Producer then s.nitems >= BUFFSIZE else s.nitems <= 0 }

  ghost predicate Enabled(s: State, e: Event) {
    && e.i < |s.threads|
    && var t := s.threads[e.i];
       match e
       case Call(_, _, _) => t == Idle
       case Acquire(_) => t.Lock? && s.lock == None
       case Decide(_) => t.Test?
       case Transfer(_) => t.Move? && Shape(s.ring)
       case Announce(_, woken) => t.Signal? && Wakes(s, Other(t.role), woken)
       case Release(_) => t.Unlock?
       case Spurious(_) => t.Sleep?
  }

  function Woken(ts: seq<Thread>, woken: set<nat>): (r: seq<Thread>)
    ensures |r| == |ts|
  {
    seq(|ts|, i requires 0 <= i < |ts| => if i in woken && ts[i].Sleep? then Lock(ts[i].role, ts[i].val) else ts[i])
  }

  ghost function Step(s: State, e: Event): State
    requires Enabled(s, e)
  {
    var i := e.i;
    var t := s.threads[i];
    match e
    case Call(_, role, val) => s.(threads := s.threads[i := Lock(role, val)])
    case Acquire(_) => s.(threads := s.threads[i := Test(t.role, t.val)], lock := Some(i))
    case Decide(_) =>
      if MustWait(s, t.role) then s.(threads := s.threads[i := Sleep(t.role, t.val)], lock := None)
      else s.(threads := s.threads[i := Move(t.role, t.val)])
    case Transfer(_) =>
      if t.role == Producer then
        s.(threads := s.threads[i := Signal(Producer)], ring := Put(s.ring, t.val), nitems := s.nitems + 1,
           produced := s.produced + [t.val])
      else
        s.(threads := s.threads[i := Signal(Consumer)], ring := Take(s.ring), nitems := s.nitems - 1,
           consumed := s.consumed + [s.ring.slots[s.ring.get]])
    case Announce(_, woken) => s.(threads := Woken(s.threads, woken)[i := Unlock(t.role)])
    case Release(_) => s.(threads := s.threads[i := Idle], lock := None)
    case Spurious(_) => s.(threads := s.threads[i := Lock(t.role, t.val)])
  }

  ghost predicate Runs(s: State, es: seq<Event>)
    decreases |es|
  {
    es == [] || (Enabled(s, es[0]) && Runs(Step(s, es[0]), es[1..]))
  }

  ghost function After(s: State, es: seq<Event>): State
    requires Runs(s, es)
    decreases |es|
  {
    if es == [] then s else After(Step(s, es[0]), es[1..])
  }

  // ----- the invariant -----

  function Queue(s: State): seq<int>
    requires |s.consumed| <= |s.produced|
  {
    s.produced[|s.consumed|..]
  }

  /** What a role waits for: free slots, or items. */
  function Available(s: State, r: Role): int { if r == Producer then BUFFSIZE - s.nitems else s.nitems }

  /** Awake in the role and on its way to the buffer, or about to wake a sleeper of the role. */
  predicate Counts(t: Thread, r: Role) {
    ((t.Lock? || t.Test? || t.Move?) && t.role == r) || (t.Signal? && t.role == Other(r))
  }

  function Heading(ts: seq<Thread>, r: Role): nat {
    if ts == [] then 0 else Heading(ts[..|ts| - 1], r) + (if Counts(ts[|ts| - 1], r) then 1 else 0)
  }

  predicate InSection(t: Thread) { t.Test? || t.Move? || t.Signal? || t.Unlock? }

  ghost predicate Locked(s: State) {
    && (forall i | 0 <= i < |s.threads| :: InSection(s.threads[i]) <==> s.lock == Some(i))
    && (s.lock.Some? ==> s.lock.value < |s.threads|)
  }

  ghost predicate NoLostWakeup(s: State, r: Role) {
    (exists i :: Asleep(s, r, i)) ==> Available(s, r) <= Heading(s.threads, r)
  }

  ghost predicate Inv(s: State) {
    && |s.ring.slots| == BUFFSIZE && Locked(s)
    && s.consumed <= s.produced && Queued(s.ring, Queue(s)) && s.nitems == |Queue(s)|
    && (forall i | 0 <= i < |s.threads| && s.threads[i].Move? :: !MustWait(s, s.threads[i].role))
    && NoLostWakeup(s, Producer) && NoLostWakeup(s, Consumer)
  }

  lemma {:induction false} HeadingUpdate(ts: seq<Thread>, i: nat, t: Thread, r: Role)
    requires i < |ts|
    ensures Heading(ts[i := t], r) + (if Counts(ts[i], r) then 1 else 0)
         == Heading(ts, r) + (if Counts(t, r) then 1 else 0)
  {
    var n := |ts| - 1;
    if i == n {
      assert ts[i := t][..n] == ts[..n];
    } else {
      HeadingUpdate(ts[..n], i, t, r);
      assert ts[i := t][..n] == ts[..n][i := t];
    }
  }

  lemma {:induction false} HeadingWoken(ts: seq<Thread>, woken: set<nat>, r: Role)
    ensures Heading(Woken(ts, woken), r) >= Heading(ts, r)
    ensures (exists i :: i in woken && i < |ts| && ts[i].Sleep? && ts[i].role == r)
        ==> Heading(Woken(ts, woken), r) > Heading(ts, r)
  {
    if ts != [] {
      var n := |ts| - 1;
      HeadingWoken(ts[..n], woken, r);
      assert Woken(ts, woken)[..n] == Woken(ts[..n], woken);
    }
  }

  lemma {:induction false} NoneHeading(ts: seq<Thread>, r: Role)
    requires forall i | 0 <= i < |ts| :: !Counts(ts[i], r)
    ensures Heading(ts, r) == 0
  {
    if ts != [] { NoneHeading(ts[..|ts| - 1], r); }
  }

  /** A step that changes one thread and leaves the buffer alone. */
  lemma ThreadMoves(s: State, u: State, i: nat, r: Role)
    requires Inv(s) && i < |s.threads| == |u.threads| && u.threads == s.threads[i := u.threads[i]]
    requires u == s.(threads := u.threads, lock := u.lock)
    requires u.threads[i].Sleep? && u.threads[i].role == r ==> Available(s, r) <= 0
    requires Counts(s.threads[i], r) ==> Counts(u.threads[i], r) || (u.threads[i].Sleep? && Available(s, r) <= 0)
    ensures NoLostWakeup(u, r)
  {
    HeadingUpdate(s.threads, i, u.threads[i], r);
    if j :| Asleep(u, r, j) { assert Asleep(s, r, j) || j == i; }
  }

  lemma PlainInv(s: State, e: Event)
    requires Inv(s) && Enabled(s, e) && !e.Transfer? && !e.Announce?
    ensures Inv(Step(s, e))
  {
    var u := Step(s, e);
    assert Queue(u) == Queue(s);
    ThreadMoves(s, u, e.i, Producer);
    ThreadMoves(s, u, e.i, Consumer);
  }

  lemma TransferWakeups(s: State, i: nat, r: Role)
    requires Inv(s) && Enabled(s, Transfer(i))
    ensures NoLostWakeup(Step(s, Transfer(i)), r)
  {
    var u := Step(s, Transfer(i));
    HeadingUpdate(s.threads, i, u.threads[i], r);
    if j :| Asleep(u, r, j) { assert Asleep(s, r, j); }
  }

  /** A value put in or taken out keeps the queue what the log says. */
  lemma TransferQueue(s: State, i: nat)
    requires Inv(s) && Enabled(s, Transfer(i))
    ensures var u := Step(s, Transfer(i));
      u.consumed <= u.produced && Queued(u.ring, Queue(u)) && u.nitems == |Queue(u)| && |u.ring.slots| == BUFFSIZE
  {
    var u, q, t := Step(s, Transfer(i)), Queue(s), s.threads[i];
    if t.role == Producer {
      PutQueued(s.ring, q, t.val);
      assert Queue(u) == q + [t.val];
    } else {
      TakeQueued(s.ring, q);
      assert s.produced == s.consumed + q && q == [q[0]] + q[1..];
      assert u.consumed == s.produced[..|u.consumed|] && Queue(u) == q[1..];
    }
  }

  lemma TransferInv(s: State, i: nat)
    requires Inv(s) && Enabled(s, Transfer(i))
    ensures Inv(Step(s, Transfer(i)))
  {
    TransferQueue(s, i);
    TransferWakeups(s, i, Producer);
    TransferWakeups(s, i, Consumer);
    assert s.lock == Some(i);
  }

  lemma AnnounceWakeups(s: State, i: nat, woken: set<nat>)
    requires Inv(s) && Enabled(s, Announce(i, woken))
    ensures var u := Step(s, Announce(i, woken)); NoLostWakeup(u, Producer) && NoLostWakeup(u, Consumer)
  {
    var u, t := Step(s, Announce(i, woken)), s.threads[i];
    var r := Other(t.role);
    var w := Woken(s.threads, woken);
    assert w[i] == t;
    HeadingWoken(s.threads, woken, r);
    HeadingWoken(s.threads, woken, t.role);
    HeadingUpdate(w, i, Unlock(t.role), r);
    HeadingUpdate(w, i, Unlock(t.role), t.role);
    if j :| Asleep(u, t.role, j) { assert Asleep(s, t.role, j); }
    if j :| Asleep(u, r, j) {
      assert Asleep(s, r, j);
      var k :| k in woken;
      assert Asleep(s, r, k);
    }
  }

  lemma AnnounceInv(s: State, i: nat, woken: set<nat>)
    requires Inv(s) && Enabled(s, Announce(i, woken))
    ensures Inv(Step(s, Announce(i, woken)))
  {
    var u, r := Step(s, Announce(i, woken)), Other(s.threads[i].role);
    AnnounceWakeups(s, i, woken);
    assert Queue(u) == Queue(s);
    assert forall k | k in woken :: Asleep(s, r, k);
  }

  /** Every step of every thread keeps the invariant. */
  lemma StepInv(s: State, e: Event)
    requires Inv(s) && Enabled(s, e)
    ensures Inv(Step(s, e))
  {
    match e {
      case Transfer(i) => TransferInv(s, i);
      case Announce(i, woken) => AnnounceInv(s, i, woken);
      case _ => PlainInv(s, e);
    }
  }

  lemma {:induction false} RunInv(s: State, es: seq<Event>)
    requires Inv(s) && Runs(s, es)
    ensures Inv(After(s, es)) && |After(s, es).threads| == |s.threads|
    decreases |es|
  {
    if es != [] {
      StepInv(s, es[0]);
      RunInv(Step(s, es[0]), es[1..]);
    }
  }

  lemma InitInv(n: nat)
    ensures Inv(Init(n))
  {
  }

  // ----- what holds in every run -----

  /** nitems is the distance between the two indices, and what was consumed is a prefix of what was produced. */
  lemma ConsumedIsPrefix(n: nat, es: seq<Event>)
    requires Runs(Init(n), es)
    ensures var s := After(Init(n), es);
      && s.consumed <= s.produced && s.nitems == |s.produced| - |s.consumed| && 0 <= s.nitems <= BUFFSIZE
      && Shape(s.ring) && |s.ring.slots| == BUFFSIZE && s.ring.put == At(BUFFSIZE, s.ring.get, s.nitems)
  {
    InitInv(n);
    RunInv(Init(n), es);
  }

  /** The last call of thread i in es, or the one before if there is none. */
  function LastCall(es: seq<Event>, i: nat, before: Option<Event>): Option<Event> {
    if es == [] then before else LastCall(es[1..], i, if es[0].Call? && es[0].i == i then Some(es[0]) else before)
  }

  /** A thread in a call has the role and the value it was called with. */
  predicate Keeps(t: Thread, call: Option<Event>) {
    t != Idle ==>
      && call.Some? && call.value.Call? && t.role == call.value.role
      && (t.Lock? || t.Test? || t.Move? || t.Sleep? ==> t.val == call.value.val)
  }

  lemma StepKeeps(s: State, e: Event, i: nat, call: Option<Event>)
    requires Enabled(s, e) && i < |s.threads| && Keeps(s.threads[i], call)
    ensures i < |Step(s, e).threads|
    ensures Keeps(Step(s, e).threads[i], if e.Call? && e.i == i then Some(e) else call)
  {
  }

  lemma {:induction false} RunKeeps(s: State, es: seq<Event>, i: nat, call: Option<Event>)
    requires Runs(s, es) && i < |s.threads| && Keeps(s.threads[i], call)
    ensures i < |After(s, es).threads| && Keeps(After(s, es).threads[i], LastCall(es, i, call))
    decreases |es|
  {
    if es != [] {
      StepKeeps(s, es[0], i, call);
      RunKeeps(Step(s, es[0]), es[1..], i, if es[0].Call? && es[0].i == i then Some(es[0]) else call);
    }
  }

  /**
   What goes into the buffer is the value its producer was called with, however often it slept and woke, and
   what comes out is the oldest value not yet consumed.
   */
  lemma MovesTheCallersValue(n: nat, es: seq<Event>, i: nat)
    requires Runs(Init(n), es) && Enabled(After(Init(n), es), Transfer(i))
    ensures var s, t, call := After(Init(n), es), Step(After(Init(n), es), Transfer(i)), LastCall(es, i, None);
      && call.Some? && call.value.Call?
      && t.produced == s.produced + (if call.value.role == Producer then [call.value.val] else [])
      && |s.consumed| < |s.produced| + (if call.value.role == Producer then 1 else 0)
      && t.consumed == s.consumed + (if call.value.role == Consumer then [s.produced[|s.consumed|]] else [])
  {
    InitInv(n);
    RunInv(Init(n), es);
    RunKeeps(Init(n), es, i, None);
    var s := After(Init(n), es);
    EmptyRight(s.produced);
    EmptyRight(s.consumed);
    if s.threads[i].role == Consumer { TakeQueued(s.ring, Queue(s)); }
  }

  lemma RunsOn(s: State, e: Event, es: seq<Event>)
    requires Enabled(s, e) && Runs(Step(s, e), es)
    ensures Runs(s, [e] + es) && After(s, [e] + es) == After(Step(s, e), es)
  {
    assert ([e] + es)[1..] == es;
  }

  /** A caller that finds the mutex free and need not wait moves its value. */
  lemma CallerMoves(s: State, i: nat, role: Role, val: int) returns (t: State)
    requires Inv(s) && i < |s.threads| && s.threads[i] == Idle && s.lock == None && !MustWait(s, role)
    ensures Enabled(s, Call(i, role, val)) && Enabled(Step(s, Call(i, role, val)), Acquire(i))
    ensures var u := Step(Step(s, Call(i, role, val)), Acquire(i));
      && Enabled(u, Decide(i)) && Enabled(Step(u, Decide(i)), Transfer(i))
      && t == Step(Step(u, Decide(i)), Transfer(i))
    ensures Inv(t) && t.threads == s.threads[i := Thread.Signal(role)] && |s.consumed| <= |s.produced|
    ensures role == Producer ==> t.produced == s.produced + [val] && t.consumed == s.consumed
    ensures role == Consumer ==>
      && |s.consumed| < |s.produced| && t.produced == s.produced
      && t.consumed == s.consumed + [s.produced[|s.consumed|]]
  {
    var a := Step(s, Call(i, role, val));
    PlainInv(s, Call(i, role, val));
    PlainInv(a, Acquire(i));
    var b := Step(a, Acquire(i));
    PlainInv(b, Decide(i));
    var c := Step(b, Decide(i));
    TransferInv(c, i);
    if role == Consumer {
      assert Queue(c) == Queue(s) != [];
      TakeQueued(c.ring, Queue(c));
    }
    t := Step(c, Transfer(i));
  }

  /**
   Six steps of a caller, with the mutex free and a slot or a value there, put its value into the buffer or take
   the oldest out, wake one that waits for that, and return.
   */
  lemma CallerTurn(s: State, i: nat, role: Role, val: int, woken: set<nat>)
    requires Inv(s) && i < |s.threads| && s.threads[i] == Idle && s.lock == None && !MustWait(s, role)
    requires Wakes(s, Other(role), woken)
    ensures var es := [Call(i, role, val), Acquire(i), Decide(i), Transfer(i), Announce(i, woken), Release(i)];
      && Runs(s, es) && Inv(After(s, es)) && After(s, es).lock == None && |s.consumed| <= |s.produced|
      && |After(s, es).threads| == |s.threads| && After(s, es).threads[i] == Idle
      && (role == Producer ==> After(s, es).produced == s.produced + [val] && After(s, es).consumed == s.consumed)
      && (role == Consumer ==>
            && |s.consumed| < |s.produced| && After(s, es).produced == s.produced
            && After(s, es).consumed == s.consumed + [s.produced[|s.consumed|]])
  {
    var t := CallerMoves(s, i, role, val);
    assert forall j, r :: Asleep(t, r, j) <==> Asleep(s, r, j);
    AnnounceInv(t, i, woken);
    var u := Step(t, Announce(i, woken));
    PlainInv(u, Release(i));
    CallerRuns(s, i, role, val, woken, t);
  }

  lemma CallerRuns(s: State, i: nat, role: Role, val: int, woken: set<nat>, t: State)
    requires Enabled(s, Call(i, role, val)) && Enabled(Step(s, Call(i, role, val)), Acquire(i))
    requires Enabled(Step(Step(s, Call(i, role, val)), Acquire(i)), Decide(i))
    requires Enabled(Step(Step(Step(s, Call(i, role, val)), Acquire(i)), Decide(i)), Transfer(i))
    requires t == Step(Step(Step(Step(s, Call(i, role, val)), Acquire(i)), Decide(i)), Transfer(i))
    requires Enabled(t, Announce(i, woken)) && Enabled(Step(t, Announce(i, woken)), Release(i))
    ensures var es := [Call(i, role, val), Acquire(i), Decide(i), Transfer(i), Announce(i, woken), Release(i)];
      Runs(s, es) && After(s, es) == Step(Step(t, Announce(i, woken)), Release(i))
  {
    var a := Step(s, Call(i, role, val));
    var b := Step(a, Acquire(i));
    var c := Step(b, Decide(i));
    RunsOn(Step(t, Announce(i, woken)), Release(i), []);
    RunsOn(t, Announce(i, woken), [Release(i)]);
    RunsOn(c, Transfer(i), [Announce(i, woken), Release(i)]);
    RunsOn(b, Decide(i), [Transfer(i), Announce(i, woken), Release(i)]);
    RunsOn(a, Acquire(i), [Decide(i), Transfer(i), Announce(i, woken), Release(i)]);
    RunsOn(s, Call(i, role, val), [Acquire(i), Decide(i), Transfer(i), Announce(i, woken), Release(i)]);
    assert [Release(i)] + [] == [Release(i)] && [Announce(i, woken)] + [Release(i)] == [Announce(i, woken), Release(i)]
      && [Transfer(i)] + [Announce(i, woken), Release(i)] == [Transfer(i), Announce(i, woken), Release(i)]
      && [Decide(i)] + [Transfer(i), Announce(i, woken), Release(i)]
        == [Decide(i), Transfer(i), Announce(i, woken), Release(i)]
      && [Acquire(i)] + [Decide(i), Transfer(i), Announce(i, woken), Release(i)]
        == [Acquire(i), Decide(i), Transfer(i), Announce(i, woken), Release(i)]
      && [Call(i, role, val)] + [Acquire(i), Decide(i), Transfer(i), Announce(i, woken), Release(i)]
        == [Call(i, role, val), Acquire(i), Decide(i), Transfer(i), Announce(i, woken), Release(i)];
  }

  ghost predicate AllAsleep(s: State) { forall i | 0 <= i < |s.threads| :: s.threads[i].Sleep? }

  /**
   The threads cannot all fall asleep while one of them could go on: if they are all asleep, they
   are all producers and the buffer is full, or all consumers and it is empty.
   */
  lemma NoDeadlock(n: nat, es: seq<Event>)
    requires Runs(Init(n), es) && AllAsleep(After(Init(n), es))
    ensures var s := After(Init(n), es);
      forall i, r | Asleep(s, r, i) :: Available(s, r) == 0 && forall j | 0 <= j < |s.threads| :: s.threads[j].role == r
  {
    InitInv(n);
    RunInv(Init(n), es);
    var s := After(Init(n), es);
    NoneHeading(s.threads, Producer);
    NoneHeading(s.threads, Consumer);
    forall i, r | Asleep(s, r, i)
      ensures Available(s, r) == 0 && forall j | 0 <= j < |s.threads| :: s.threads[j].role == r
    {
      forall j | 0 <= j < |s.threads| ensures s.threads[j].role == r {
        assert Asleep(s, s.threads[j].role, j);
      }
    }
  }

  /** Whatever a sleeper waits for is there only as long as a thread is on its way to it or to the wakeup. */
  lemma SleepersAreServed(n: nat, es: seq<Event>, r: Role, i: nat)
    requires Runs(Init(n), es) && Asleep(After(Init(n), es), r, i) && Available(After(Init(n), es), r) > 0
    ensures var s := After(Init(n), es); exists j :: 0 <= j < |s.threads| && Counts(s.threads[j], r)
  {
    InitInv(n);
    RunInv(Init(n), es);
    var s := After(Init(n), es);
    if !(exists j :: 0 <= j < |s.threads| && Counts(s.threads[j], r)) {
      NoneHeading(s.threads, r);
      assert false;
    }
  }
}
