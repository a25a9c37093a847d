/**
 The signal-driven UDP echo server of dgecho01.c.  The SIGIO handler reads every waiting datagram
 into a ring of eight slots; the main loop sends them back, with the signal unblocked from before
 the send until after it has advanced iget, and only then takes the slot off the count.
 */
module SigioEcho {
  import opened Basics
  import opened Ring

  const QSIZE: nat := 8
  const MAXDG: nat := 4096

  /** A slot of the ring: the data, the sender's address and the length of that address. */
  datatype Datagram = Datagram(data: seq<byte>, from: int, salen: nat)

  /** recvfrom keeps the first MAXDG bytes of a datagram. */
  function Cut(d: Datagram): Datagram { d.(data := d.data[..Min(|d.data|, MAXDG)]) }

  function CutAll(ds: seq<Datagram>): (r: seq<Datagram>)
    ensures |r| == |ds|
  {
    seq(|ds|, i requires 0 <= i < |ds| => Cut(ds[i]))
  }

  // ----- the handler and the main loop, as they run -----

  class Server {
    const clilen: nat
    var dg: array<Datagram>
    var cntread: array<nat>
    var iget: nat
    var iput: nat
    var nqueue: int

    ghost predicate Valid(head: nat, q: seq<Datagram>)
      reads this, dg, cntread
    {
      && dg.Length == QSIZE && cntread.Length == QSIZE + 1 && nqueue == |q|
      && Queued(Ring(dg[..], head, iput), q)
    }

    constructor (clilen: nat)
      ensures Valid(0, []) && iget == 0 && this.clilen == clilen && fresh(dg) && fresh(cntread)
    {
      this.clilen := clilen;
      dg := new Datagram[QSIZE](_ => Datagram([], 0, 0));
      cntread := new nat[QSIZE + 1](_ => 0);
      iget, iput, nqueue := 0, 0, 0;
    }

    /** One datagram into the free slot at iput. */
    method Receive(d: Datagram, ghost head: nat, ghost q: seq<Datagram>)
      requires Valid(head, q) && |q| < QSIZE
      modifies this`iput, this`nqueue, dg
      ensures Valid(head, q + [Cut(d)]) && dg == old(dg) && cntread[..] == old(cntread[..])
    {
      PutQueued(Ring(dg[..], head, iput), q, Cut(d));
      dg[iput] := Cut(d);
      nqueue := nqueue + 1;
      iput := iput + 1;
      if iput >= QSIZE { iput := 0; }
    }

    /** The length of the address in the free slot, set before recvfrom is called. */
    method SetSalen(ghost head: nat, ghost q: seq<Datagram>)
      requires Valid(head, q) && |q| < QSIZE
      modifies dg
      ensures Valid(head, q) && cntread[..] == old(cntread[..])
      ensures dg[..] == old(dg[..])[iput := old(dg[..])[iput].(salen := clilen)]
    {
      PutIsFree(Ring(dg[..], head, iput), q);
      dg[iput] := dg[iput].(salen := clilen);
    }

    /**
     One SIGIO, with the datagrams that wait: it returns exactly when all of them fit with a slot to
     spare, and then they are at the end of the queue; head is the slot the main loop works on.
     */
    method SigIo(waiting: seq<Datagram>, ghost head: nat, ghost q: seq<Datagram>) returns (ok: bool)
      requires Valid(head, q)
      modifies this`iput, this`nqueue, dg, cntread
      ensures ok <==> |q| + |waiting| < QSIZE
      ensures ok ==> Valid(head, q + CutAll(waiting)) && dg == old(dg) && cntread == old(cntread)
      ensures ok ==> cntread[..] == old(cntread[..])[|waiting| := old(cntread[..])[|waiting|] + 1]
    {
      var nread := 0;
      ghost var queue := q;
      while true
        invariant 0 <= nread <= |waiting| && Valid(head, queue) && queue == q + CutAll(waiting[..nread])
        invariant dg == old(dg) && cntread == old(cntread) && cntread[..] == old(cntread[..])
        decreases |waiting| - nread
      {
        if nqueue >= QSIZE { return false; }
        SetSalen(head, queue);
        if nread == |waiting| { break; }
        Receive(waiting[nread], head, queue);
        assert CutAll(waiting[..nread + 1]) == CutAll(waiting[..nread]) + [Cut(waiting[nread])];
        queue := queue + [Cut(waiting[nread])];
        nread := nread + 1;
      }
      assert waiting[..nread] == waiting;
      cntread[nread] := cntread[nread] + 1;
      ok := true;
    }

    /** The unblocked part up to the send; signals arrive before it and after it. */
    method Send(a: seq<Datagram>, b: seq<Datagram>, ghost q: seq<Datagram>) returns (ok: bool, sent: Datagram)
      requires q != [] && Valid(iget, q)
      modifies this`iput, this`nqueue, dg, cntread
      ensures ok <==> |q| + |a| + |b| < QSIZE
      ensures ok ==> sent == q[0] && dg == old(dg) && cntread == old(cntread)
      ensures ok ==> Valid(iget, q + CutAll(a) + CutAll(b))
    {
      sent := Datagram([], 0, 0);
      ok := SigIo(a, iget, q);
      if !ok { return; }
      TakeQueued(Ring(dg[..], iget, iput), q + CutAll(a));
      sent := dg[iget];
      ok := SigIo(b, iget, q + CutAll(a));
    }

    /** The advance of iget, with signals before and after the wrap, and the count taken down at the end. */
    method Advance(c: seq<Datagram>, d: seq<Datagram>, ghost q: seq<Datagram>) returns (ok: bool)
      requires q != [] && Valid(iget, q)
      modifies this, dg, cntread
      ensures ok <==> |q| + |c| + |d| < QSIZE
      ensures ok ==> dg == old(dg) && cntread == old(cntread) && Valid(iget, q[1..] + CutAll(c) + CutAll(d))
    {
      ghost var head := iget;
      iget := iget + 1;
      ok := SigIo(c, head, q);
      if !ok { return; }
      if iget >= QSIZE { iget := 0; }
      ok := SigIo(d, head, q + CutAll(c));
      if !ok { return; }
      TailGrows(q, CutAll(c));
      TailGrows(q + CutAll(c), CutAll(d));
      TakeQueued(Ring(dg[..], head, iput), q + CutAll(c) + CutAll(d));
      nqueue := nqueue - 1;
    }

    /**
     One turn of the main loop on a queue that is not empty, with a signal at each unblocked point.
     What is sent is the oldest datagram, and the others keep their order.
     */
    method EchoNext(a: seq<Datagram>, b: seq<Datagram>, c: seq<Datagram>, d: seq<Datagram>, ghost q: seq<Datagram>)
      returns (ok: bool, sent: Datagram)
      requires q != [] && Valid(iget, q)
      modifies this, dg, cntread
      ensures ok <==> |q| + |a| + |b| + |c| + |d| < QSIZE
      ensures ok ==> sent == q[0] && dg == old(dg) && cntread == old(cntread)
      ensures ok ==> Valid(iget, q[1..] + CutAll(a) + CutAll(b) + CutAll(c) + CutAll(d))
    {
      ok, sent := Send(a, b, q);
      if !ok { return; }
      ok := Advance(c, d, q + CutAll(a) + CutAll(b));
      TailGrows(q, CutAll(a));
      TailGrows(q + CutAll(a), CutAll(b));
    }
  }

  lemma TailGrows<T>(q: seq<T>, more: seq<T>)
    requires q != []
    ensures (q + more)[0] == q[0] && (q + more)[1..] == q[1..] + more
  {
  }

  // ----- every interleaving -----

  /** Where the main loop is; SIGIO is unblocked in Setup, Suspended and from BeforeSend to Wrapped. */
  datatype Main = Setup | AtTest | Suspended | BeforeSend | Sending(snapshot: Datagram) | Sent | Advanced
    | Wrapped | BeforeDecrement

  predicate Unblocked(m: Main) {
    m == Setup || m == Suspended || m == BeforeSend || m.Sending? || m == Sent || m == Advanced || m == Wrapped
  }

  /** head is the slot the main loop works on; handler is the nread of a handler that is running. */
  datatype State = State(
    clilen: nat, slots: seq<Datagram>, iget: nat, iput: nat, nqueue: int, cntread: seq<nat>,
    main: Main, handler: Option<nat>, quit: bool,
    head: nat, received: seq<Datagram>, sent: seq<Datagram>, counted: nat)

  function Init(clilen: nat): State {
    State(clilen, seq(QSIZE, _ => Datagram([], 0, 0)), 0, 0, 0, seq(QSIZE + 1, _ => 0), Setup, None, false,
          0, [], [], 0)
  }

  datatype Event =
    | Block | LoopTest | Hangup | StartSend | FinishSend | Advance | Wrap | BlockAgain | Decrement
    | SigIo | Receive(d: Datagram) | WouldBlock

  predicate Enabled(s: State, e: Event) {
    && !s.quit
    && match e
       case SigIo => s.handler == None && Unblocked(s.main)
       case Receive(_) => s.handler.Some? && s.iput < |s.slots|
       case WouldBlock => s.handler.Some? && s.iput < |s.slots|
       case _ => s.handler == None && (match e
         case Block => s.main == Setup
         case LoopTest => s.main == AtTest
         case Hangup => s.main == Suspended
         case StartSend => s.main == BeforeSend && s.iget < |s.slots|
         case FinishSend => s.main.Sending? && s.iget < |s.slots|
         case Advance => s.main == Sent
         case Wrap => s.main == Advanced
         case BlockAgain => s.main == Wrapped
         case _ => s.main == BeforeDecrement)
  }

  function Step(s: State, e: Event): State
    requires Enabled(s, e)
  {
    match e
    case Block => s.(main := AtTest)
    case LoopTest => s.(main := if s.nqueue == 0 then Suspended else BeforeSend)
    case Hangup => s.(main := AtTest)
    case StartSend => s.(main := Sending(s.slots[s.iget]))
    case FinishSend => s.(main := Sent, sent := s.sent + [s.slots[s.iget]])
    case Advance => s.(main := Advanced, iget := s.iget + 1)
    case Wrap => s.(main := Wrapped, iget := if s.iget >= QSIZE then 0 else s.iget)
    case BlockAgain => s.(main := BeforeDecrement)
    case Decrement => s.(main := AtTest, nqueue := s.nqueue - 1, head := Next(QSIZE, s.head), counted := s.counted + 1)
    case SigIo => s.(handler := Some(0))
    case Receive(d) =>
      if s.nqueue >= QSIZE then s.(quit := true)
      else s.(slots := s.slots[s.iput := Cut(d)], handler := Some(s.handler.value + 1), nqueue := s.nqueue + 1,
              iput := Next(QSIZE, s.iput), received := s.received + [Cut(d)])
    case WouldBlock =>
      if s.nqueue >= QSIZE then s.(quit := true)
      else s.(slots := s.slots[s.iput := s.slots[s.iput].(salen := s.clilen)],
              cntread := Tally(s.cntread, s.handler.value), handler := None,
              main := if s.main == Suspended then AtTest else s.main)
  }

  /** cntread[nread]++ where it is in range. */
  function Tally(c: seq<nat>, nread: nat): seq<nat> { if nread < |c| then c[nread := c[nread] + 1] else c }

  predicate Runs(s: State, es: seq<Event>)
    decreases |es|
  {
    es == [] || (Enabled(s, es[0]) && Runs(Step(s, es[0]), es[1..]))
  }

  function After(s: State, es: seq<Event>): State
    requires Runs(s, es)
    decreases |es|
  {
    if es == [] then s else After(Step(s, es[0]), es[1..])
  }

  /** The datagrams that nqueue counts, the one being sent included. */
  function Queue(s: State): seq<Datagram>
    requires s.counted <= |s.received|
  {
    s.received[s.counted..]
  }

  predicate Busy(m: Main) { !(m == Setup || m == AtTest || m == Suspended) }

  predicate SentYet(m: Main) { m == Sent || m == Advanced || m == Wrapped || m == BeforeDecrement }

  ghost predicate Inv(s: State) {
    && |s.slots| == QSIZE && |s.cntread| == QSIZE + 1
    && s.counted <= |s.received| && Queued(Ring(s.slots, s.head, s.iput), Queue(s)) && s.nqueue == |Queue(s)|
    && (Busy(s.main) ==> s.nqueue >= 1)
    && s.iget == (if s.main == Advanced then s.head + 1
                  else if s.main == Wrapped || s.main == BeforeDecrement then Next(QSIZE, s.head) else s.head)
    && s.sent <= s.received && |s.sent| == s.counted + (if SentYet(s.main) then 1 else 0)
    && (s.main.Sending? ==> s.main.snapshot == s.slots[s.head])
    && (s.handler.Some? ==> s.handler.value <= s.nqueue && Unblocked(s.main))
    && (s.handler == None ==> s.nqueue < QSIZE && (s.main == Suspended ==> s.nqueue == 0))
    && (s.quit ==> s.nqueue == QSIZE)
  }

  lemma ReceiveInv(s: State, d: Datagram)
    requires Inv(s) && Enabled(s, Receive(d)) && s.nqueue < QSIZE
    ensures Inv(Step(s, Receive(d)))
    ensures Busy(s.main) ==> s.iput != s.head
  {
    var t := Step(s, Receive(d));
    PutQueued(Ring(s.slots, s.head, s.iput), Queue(s), Cut(d));
    Meet(Ring(s.slots, s.head, s.iput), Queue(s));
    assert Queue(t) == Queue(s) + [Cut(d)];
  }

  /** A handler that has room writes no slot of the queue, not even the one the main loop has in hand. */
  lemma HandlerSpares(s: State)
    requires Inv(s) && s.nqueue < QSIZE
    ensures s.iput < QSIZE && (forall k | 0 <= k < |Queue(s)| :: At(QSIZE, s.head, k) != s.iput)
    ensures Busy(s.main) ==> s.iput != s.head
  {
    PutIsFree(Ring(s.slots, s.head, s.iput), Queue(s));
    Meet(Ring(s.slots, s.head, s.iput), Queue(s));
  }

  lemma WouldBlockInv(s: State)
    requires Inv(s) && Enabled(s, WouldBlock)
    ensures Inv(Step(s, WouldBlock))
  {
    assert Queue(Step(s, WouldBlock)) == Queue(s);
    if s.nqueue < QSIZE { HandlerSpares(s); }
  }

  lemma FinishSendInv(s: State)
    requires Inv(s) && Enabled(s, FinishSend)
    ensures Inv(Step(s, FinishSend)) && s.slots[s.iget] == s.main.snapshot == Queue(s)[0]
  {
    TakeQueued(Ring(s.slots, s.head, s.iput), Queue(s));
    assert Queue(s)[0] == s.received[s.counted];
    assert s.sent + [Queue(s)[0]] == s.received[..s.counted + 1];
    assert Queue(Step(s, FinishSend)) == Queue(s);
  }

  lemma DecrementInv(s: State)
    requires Inv(s) && Enabled(s, Decrement)
    ensures Inv(Step(s, Decrement))
  {
    TakeQueued(Ring(s.slots, s.head, s.iput), Queue(s));
    assert Queue(Step(s, Decrement)) == Queue(s)[1..];
  }

  lemma StepInv(s: State, e: Event)
    requires Inv(s) && Enabled(s, e)
    ensures Inv(Step(s, e))
  {
    match e {
      case Receive(d) => if s.nqueue < QSIZE { ReceiveInv(s, d); } else { assert Queue(Step(s, e)) == Queue(s); }
      case WouldBlock => WouldBlockInv(s);
      case FinishSend => FinishSendInv(s);
      case Decrement => DecrementInv(s);
      case _ => assert Queue(Step(s, e)) == Queue(s);
    }
  }

  lemma {:induction false} RunInv(s: State, es: seq<Event>)
    requires Inv(s) && Runs(s, es)
    ensures Inv(After(s, es))
    decreases |es|
  {
    if es != [] {
      StepInv(s, es[0]);
      RunInv(Step(s, es[0]), es[1..]);
    }
  }

  // ----- what holds in every run -----

  /** The datagrams that came in, as they were sent to the server. */
  function Arrived(es: seq<Event>): seq<Datagram> {
    if es == [] then [] else (if es[0].Receive? then [es[0].d] else []) + Arrived(es[1..])
  }

  /** got and the arrived ds, cut: all of them, or all but the last, on which the handler quit. */
  predicate TookAll(before: seq<Datagram>, after: seq<Datagram>, ds: seq<Datagram>, quit: bool) {
    var n := |after| - |before|;
    && before <= after && n <= |ds| <= n + (if quit then 1 else 0)
    && forall k | 0 <= k < n :: after[|before| + k] == Cut(ds[k])
  }

  lemma StepTakes(s: State, e: Event)
    requires Enabled(s, e)
    ensures Step(s, e).received == s.received + (if e.Receive? && !Step(s, e).quit then [Cut(e.d)] else [])
  {
    EmptyRight(s.received);
  }

  lemma TookFirst(before: seq<Datagram>, after: seq<Datagram>, d: Datagram, ds: seq<Datagram>, quit: bool)
    requires TookAll(before + [Cut(d)], after, ds, quit)
    ensures TookAll(before, after, [d] + ds, quit)
  {
    forall k | 0 <= k < |after| - |before| ensures after[|before| + k] == Cut(([d] + ds)[k]) {
      if k > 0 { assert after[|before + [Cut(d)]| + (k - 1)] == Cut(ds[k - 1]); }
    }
  }

  lemma {:induction false} TakesWhatArrives(s: State, es: seq<Event>)
    requires Runs(s, es)
    ensures TookAll(s.received, After(s, es).received, Arrived(es), After(s, es).quit)
    decreases |es|
  {
    if es != [] {
      var e, t, rest := es[0], Step(s, es[0]), es[1..];
      StepTakes(s, e);
      TakesWhatArrives(t, rest);
      if !e.Receive? {
        EmptyRight(s.received);
        EmptyLeft(Arrived(rest));
      } else if t.quit {
        assert rest == [];
      } else {
        TookFirst(s.received, After(s, es).received, e.d, Arrived(rest), After(s, es).quit);
      }
    }
  }

  /** The main loop once around, with no signal in between. */
  function Turn(): seq<Event> { [LoopTest, StartSend, FinishSend, Advance, Wrap, BlockAgain, Decrement] }

  lemma RunsOn(s: State, e: Event, es: seq<Event>)
    requires Enabled(s, e) && Runs(Step(s, e), es)
    ensures Runs(s, [e] + es) && After(s, [e] + es) == After(Step(s, e), es)
  {
    assert ([e] + es)[1..] == es;
  }

  lemma {:induction false} RunsConcat(s: State, es: seq<Event>, more: seq<Event>)
    requires Runs(s, es) && Runs(After(s, es), more)
    ensures Runs(s, es + more) && After(s, es + more) == After(After(s, es), more)
    decreases |es|
  {
    if es == [] {
      EmptyLeft(more);
    } else {
      RunsConcat(Step(s, es[0]), es[1..], more);
      assert es + more == [es[0]] + (es[1..] + more);
      RunsOn(s, es[0], es[1..] + more);
    }
  }

  /** The first half of a turn sends. */
  lemma TurnSends(s: State)
    requires Inv(s) && s.main == AtTest && s.handler == None && !s.quit && s.nqueue > 0
    ensures Runs(s, [LoopTest, StartSend, FinishSend])
    ensures var t := After(s, [LoopTest, StartSend, FinishSend]);
      Inv(t) && t == s.(main := Sent, sent := s.sent + [Queue(s)[0]])
  {
    var u := Step(Step(s, LoopTest), StartSend);
    StepInv(s, LoopTest);
    StepInv(Step(s, LoopTest), StartSend);
    FinishSendInv(u);
    RunsOn(u, FinishSend, []);
    RunsOn(Step(s, LoopTest), StartSend, [FinishSend]);
    RunsOn(s, LoopTest, [StartSend, FinishSend]);
    assert Queue(u) == Queue(s);
    assert [LoopTest] + [StartSend, FinishSend] == [LoopTest, StartSend, FinishSend]
      && [StartSend] + [FinishSend] == [StartSend, FinishSend] && [FinishSend] + [] == [FinishSend];
  }

  /** The second half takes the slot off the queue. */
  lemma TurnAdvances(s: State)
    requires Inv(s) && s.main == Sent && s.handler == None && !s.quit
    ensures Runs(s, [Event.Advance, Wrap, BlockAgain, Decrement])
    ensures var t := After(s, [Event.Advance, Wrap, BlockAgain, Decrement]);
      && Inv(t) && t.main == AtTest && t.handler == None && !t.quit
      && t.sent == s.sent && t.received == s.received && t.nqueue == s.nqueue - 1
  {
    var u := Step(s, Event.Advance);
    StepInv(s, Event.Advance);
    StepInv(u, Wrap);
    StepInv(Step(u, Wrap), BlockAgain);
    var v := Step(Step(u, Wrap), BlockAgain);
    DecrementInv(v);
    RunsOn(v, Decrement, []);
    RunsOn(Step(u, Wrap), BlockAgain, [Decrement]);
    RunsOn(u, Wrap, [BlockAgain, Decrement]);
    RunsOn(s, Event.Advance, [Wrap, BlockAgain, Decrement]);
    assert [Event.Advance] + [Wrap, BlockAgain, Decrement] == [Event.Advance, Wrap, BlockAgain, Decrement]
      && [Wrap] + [BlockAgain, Decrement] == [Wrap, BlockAgain, Decrement]
      && [BlockAgain] + [Decrement] == [BlockAgain, Decrement] && [Decrement] + [] == [Decrement];
  }

  /** Once around the loop sends the oldest datagram and takes it off the queue. */
  lemma TurnEchoes(s: State)
    requires Inv(s) && s.main == AtTest && s.handler == None && !s.quit && s.nqueue > 0
    ensures Runs(s, Turn())
    ensures var t := After(s, Turn());
      && Inv(t) && t.main == AtTest && t.handler == None && !t.quit
      && t.sent == s.sent + [Queue(s)[0]] && t.received == s.received && t.nqueue == s.nqueue - 1
  {
    var first, second := [LoopTest, StartSend, FinishSend], [Event.Advance, Wrap, BlockAgain, Decrement];
    TurnSends(s);
    TurnAdvances(After(s, first));
    RunsConcat(s, first, second);
    assert Turn() == first + second;
  }

  function Turns(n: nat): seq<Event> { if n == 0 then [] else Turn() + Turns(n - 1) }

  /** As many turns as there are datagrams in the queue, and no signal in between, send back all that was received. */
  lemma {:induction false} QueueIsDrained(s: State)
    requires Inv(s) && s.main == AtTest && s.handler == None && !s.quit && s.nqueue >= 0
    ensures Runs(s, Turns(s.nqueue)) && After(s, Turns(s.nqueue)).sent == s.received
    decreases s.nqueue
  {
    if s.nqueue > 0 {
      TurnEchoes(s);
      var t := After(s, Turn());
      QueueIsDrained(t);
      RunsConcat(s, Turn(), Turns(t.nqueue));
    }
  }

  /** The k-th datagram sent is the k-th that arrived, cut. */
  lemma SentAreCut(clilen: nat, es: seq<Event>, k: nat)
    requires Runs(Init(clilen), es) && k < |After(Init(clilen), es).sent|
    ensures k < |Arrived(es)| && After(Init(clilen), es).sent[k] == Cut(Arrived(es)[k])
  {
    TakesWhatArrives(Init(clilen), es);
    SentIsPrefix(clilen, es);
    var s := After(Init(clilen), es);
    assert s.sent[k] == s.received[|Init(clilen).received| + k];
  }

  /**
   What the server sends back, in order, is what has arrived: the sender is the datagram's own, and so are the
   data, up to 4096 bytes of them.
   */
  lemma EchoesWhatArrived(clilen: nat, es: seq<Event>, k: nat)
    requires Runs(Init(clilen), es) && k < |After(Init(clilen), es).sent|
    ensures k < |Arrived(es)|
    ensures var sent, d := After(Init(clilen), es).sent[k], Arrived(es)[k];
      && sent.from == d.from && sent.salen == d.salen
      && |sent.data| == Min(|d.data|, 4096) && sent.data <= d.data
  {
    SentAreCut(clilen, es, k);
  }

  /** When the main loop is suspended, and no handler runs or has quit, all of it has been sent back. */
  lemma AllIsEchoed(clilen: nat, es: seq<Event>)
    requires Runs(Init(clilen), es)
    requires var s := After(Init(clilen), es); s.main == Suspended && s.handler == None && !s.quit
    ensures |After(Init(clilen), es).sent| == |Arrived(es)|
  {
    TakesWhatArrives(Init(clilen), es);
    NeverSleepsOnWork(clilen, es);
  }

  /** The datagrams sent are the datagrams received, in order, up to some point. */
  lemma SentIsPrefix(clilen: nat, es: seq<Event>)
    requires Runs(Init(clilen), es)
    ensures After(Init(clilen), es).sent <= After(Init(clilen), es).received
  {
    RunInv(Init(clilen), es);
  }

  /**
   No turn of the handler writes a slot of the queue: neither a receive nor the turn that finds nothing
   more, which still writes dg_salen.  So the slot the main loop has in hand stays as it is, even after
   iget has moved on and before nqueue goes down.
   */
  lemma SlotInHandIsSafe(clilen: nat, es: seq<Event>, e: Event)
    requires Runs(Init(clilen), es) && Enabled(After(Init(clilen), es), e) && (e.Receive? || e == WouldBlock)
    ensures var s := After(Init(clilen), es);
      var t := Step(s, e);
      && s.iput < QSIZE == |s.slots| == |t.slots| && s.head < QSIZE && s.counted <= |s.received| && |Queue(s)| <= QSIZE
      && (s.nqueue < QSIZE && Busy(s.main) ==> s.iput != s.head)
      && (forall k | 0 <= k < |Queue(s)| :: t.slots[At(QSIZE, s.head, k)] == s.slots[At(QSIZE, s.head, k)])
      && (Busy(s.main) ==> t.slots[s.head] == s.slots[s.head])
      && (s.main.Sending? ==> s.iget == s.head && t.slots[s.head] == s.main.snapshot)
  {
    RunInv(Init(clilen), es);
    var s := After(Init(clilen), es);
    if s.nqueue < QSIZE { HandlerSpares(s); }
  }

  /** The main loop never sleeps on a datagram: when it is suspended and no handler runs, all are sent. */
  lemma NeverSleepsOnWork(clilen: nat, es: seq<Event>)
    requires Runs(Init(clilen), es) && After(Init(clilen), es).main == Suspended
      && After(Init(clilen), es).handler == None
    ensures var s := After(Init(clilen), es); s.nqueue == 0 && s.sent == s.received
  {
    RunInv(Init(clilen), es);
  }

  /** What the send puts on the wire is what the slot held when the send began. */
  lemma SendsTheSnapshot(clilen: nat, es: seq<Event>)
    requires Runs(Init(clilen), es) && Enabled(After(Init(clilen), es), FinishSend)
    ensures var s := After(Init(clilen), es);
      Step(s, FinishSend).sent == s.sent + [s.main.snapshot] && |s.sent| < |s.received|
        && s.received[|s.sent|] == s.main.snapshot
  {
    RunInv(Init(clilen), es);
    FinishSendInv(After(Init(clilen), es));
  }

  /**
   A handler that returns leaves a free slot and counts itself inside cntread; one that quits found all
   eight in use.
   */
  lemma HandlerBounds(clilen: nat, es: seq<Event>)
    requires Runs(Init(clilen), es) && Enabled(After(Init(clilen), es), WouldBlock)
    ensures var s := After(Init(clilen), es);
      var t := Step(s, WouldBlock);
      && s.handler.value < |s.cntread| && 0 <= s.nqueue <= QSIZE
      && (if s.nqueue == QSIZE then t.quit
          else
            && t.handler == None && t.nqueue < QSIZE
            && t.cntread == s.cntread[s.handler.value := s.cntread[s.handler.value] + 1])
  {
    RunInv(Init(clilen), es);
  }
}
