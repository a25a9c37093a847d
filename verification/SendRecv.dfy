/**
 One request and its reply over UDP (rtt/dg_send_recv.c): transmissions, retransmission timeouts that
 double, and the choice of the reply, on a network that loses, delays, doubles and reorders datagrams.
 */
module SendRecv {
  import opened Rtt

  const HDR_SIZE: nat := 8

  /** A transmission: the header it carries and the time it was sent, in microseconds. */
  datatype Sent = Sent(num: nat, ts: nat, at: nat)

  /**
   What wakes the client: the alarm, or a datagram of len bytes.  The server copies the header of the
   request into its reply, so a reply echoes one transmission ever made, of this call or an earlier one;
   an echo of none stands for no datagram.
   */
  datatype Event = Alarm(at: nat) | Packet(at: nat, len: nat, echo: nat)

  /** How a call stands.  A reply carries its size, the transmission it echoes and the measured time. */
  datatype Outcome = Waiting | GaveUp | Reply(at: nat, size: nat, of: nat, ms: nat)

  /** The static variables, every transmission so far, and the alarms set by the current call. */
  datatype State = State(est: Est, inited: bool, num: nat, sent: seq<Sent>, alarms: seq<int>, out: Outcome)

  function Transmit(c: State, at: nat): State {
    c.(sent := c.sent + [Sent(c.num, Stamp(c.est.base, at), at)], alarms := c.alarms + [Seconds(c.est.rto)])
  }

  /** A call that reaches rtt_init, if it does, at time init and sends at time at. */
  function Begin(c: State, init: nat, at: nat): State {
    var est := NewPacket(if c.inited then c.est else Fresh(init / 1000000));
    Transmit(State(est, true, (c.num + 1) % WRAP, c.sent, [], Waiting), at)
  }

  predicate Answers(c: State, e: Event) {
    e.Packet? && e.len >= HDR_SIZE && e.echo < |c.sent| && c.sent[e.echo].num == c.num
  }

  function OnEvent(c: State, e: Event): State {
    if e.Alarm? then
      var d := c.(est := TimedOut(c.est));
      if d.est.nrexmt > MAXNREXMT then d.(inited := false, out := GaveUp) else Transmit(d, e.at)
    else if Answers(c, e) then
      var ms := (Stamp(c.est.base, e.at) - c.sent[e.echo].ts) % WRAP;
      c.(est := Sampled(c.est, ms), out := Reply(e.at, e.len - HDR_SIZE, e.echo, ms))
    else c
  }

  /** The call on the events that come; it ends with the first that ends it. */
  function Run(c: State, events: seq<Event>): State
    decreases |events|
  {
    if events == [] || c.out != Waiting then c else Run(OnEvent(c, events[0]), events[1..])
  }

  lemma RunOn(c: State, events: seq<Event>)
    requires c.out == Waiting && events != []
    ensures Run(c, events) == Run(OnEvent(c, events[0]), events[1..])
  {
  }

  // ----- what holds throughout -----

  /** A timeout after k doublings. */
  function Doubled(rto: real, k: nat): real { if k == 0 then rto else 2.0 * Doubled(rto, k - 1) }

  /** The timeout follows from the estimators, within its limits: no doubling is left in it. */
  predicate Settled(e: Est) {
    0.0 <= e.srtt && 0.0 <= e.rttvar && e.rto == MinMax(e.srtt + 4.0 * e.rttvar)
  }

  /** Between calls, as long as the sequence number has not wrapped. */
  predicate Between(s: State) {
    && s.num < WRAP && (s.inited ==> Settled(s.est))
    && forall i | 0 <= i < |s.sent| :: s.sent[i].num <= s.num
  }

  /** The timeout a call starts with. */
  function FirstRto(s: State): real { if s.inited then s.est.rto else 3.0 }

  /** The transmissions of the call that began in s, and no others, carry its sequence number. */
  predicate OwnSends(s: State, c: State) {
    && |s.sent| < |c.sent| && c.sent[..|s.sent|] == s.sent && c.num == s.num + 1
    && (forall i | |s.sent| <= i < |c.sent| ::
          c.sent[i].num == c.num && c.sent[i].ts == Stamp(c.est.base, c.sent[i].at))
    && (forall i | 0 <= i < |s.sent| :: c.sent[i].num < c.num)
  }

  /** The alarms of the call: one for each transmission, each twice as long before rounding. */
  predicate Doubling(s: State, c: State) {
    && |c.alarms| == |c.sent| - |s.sent| <= MAXNREXMT + 1
    && forall i | 0 <= i < |c.alarms| :: c.alarms[i] == Seconds(Doubled(FirstRto(s), i))
  }

  predicate InCall(s: State, c: State) {
    && OwnSends(s, c) && Doubling(s, c)
    && match c.out
      case Waiting =>
        && c.inited && |c.alarms| == c.est.nrexmt + 1 && 0.0 <= c.est.srtt && 0.0 <= c.est.rttvar
        && c.est.rto == Doubled(FirstRto(s), c.est.nrexmt)
      case GaveUp => !c.inited && |c.alarms| == MAXNREXMT + 1
      case Reply(at, size, of, ms) =>
        && c.inited && |s.sent| <= of < |c.sent|
        && ms == (Stamp(c.est.base, at) - Stamp(c.est.base, c.sent[of].at)) % WRAP
        && c.est.rtt == ms as real / 1000.0 && Settled(c.est)
  }

  /** One more transmission of the call, with the next alarm. */
  lemma TransmitKeeps(s: State, c: State, at: nat)
    requires |s.sent| <= |c.sent| && c.sent[..|s.sent|] == s.sent
    requires OwnSends(s, c) || (c.sent == s.sent && c.num == s.num + 1 && Between(s))
    ensures OwnSends(s, Transmit(c, at))
  {
  }

  lemma AlarmKeeps(s: State, c: State, at: nat)
    requires |c.alarms| == |c.sent| - |s.sent| == c.est.nrexmt <= MAXNREXMT
      && c.est.rto == Doubled(FirstRto(s), c.est.nrexmt)
    requires forall i | 0 <= i < |c.alarms| :: c.alarms[i] == Seconds(Doubled(FirstRto(s), i))
    ensures Doubling(s, Transmit(c, at))
  {
  }

  lemma BeginsInCall(s: State, init: nat, at: nat)
    requires Between(s) && s.num + 1 < WRAP
    ensures InCall(s, Begin(s, init, at))
  {
    var est := NewPacket(if s.inited then s.est else Fresh(init / 1000000));
    var c := State(est, true, s.num + 1, s.sent, [], Waiting);
    TransmitKeeps(s, c, at);
    AlarmKeeps(s, c, at);
  }

  lemma EventInCall(s: State, c: State, e: Event)
    requires InCall(s, c) && c.out == Waiting
    ensures InCall(s, OnEvent(c, e))
  {
    if e.Alarm? && c.est.nrexmt < MAXNREXMT {
      var d := c.(est := TimedOut(c.est));
      assert d.est.rto == Doubled(FirstRto(s), d.est.nrexmt);
      TransmitKeeps(s, d, e.at);
      AlarmKeeps(s, d, e.at);
    }
  }

  lemma {:induction false} RunInCall(s: State, c: State, events: seq<Event>)
    requires InCall(s, c)
    ensures InCall(s, Run(c, events))
    decreases |events|
  {
    if events != [] && c.out == Waiting {
      EventInCall(s, c, events[0]);
      RunInCall(s, OnEvent(c, events[0]), events[1..]);
    }
  }

  // ----- the results -----

  function Total(alarms: seq<int>): int { if alarms == [] then 0 else alarms[0] + Total(alarms[1..]) }

  lemma WaitIsBounded(alarms: seq<int>, rto: real)
    requires |alarms| <= MAXNREXMT + 1 && RXTMIN <= rto
    requires forall i | 0 <= i < |alarms| :: alarms[i] == Seconds(Doubled(rto, i))
    ensures Total(alarms) as real <= 15.0 * rto + 2.0
    ensures |alarms| == MAXNREXMT + 1 ==> Total(alarms) as real > 15.0 * rto - 2.0
  {
    var n := |alarms|;
    assert Doubled(rto, 1) == 2.0 * rto && Doubled(rto, 2) == 4.0 * rto && Doubled(rto, 3) == 8.0 * rto;
    assert n > 0 ==> Total(alarms) == alarms[0] + Total(alarms[1..]);
    assert n > 1 ==> Total(alarms[1..]) == alarms[1] + Total(alarms[1..][1..]);
    assert n > 2 ==> Total(alarms[1..][1..]) == alarms[2] + Total(alarms[1..][1..][1..]);
    assert n > 3 ==> Total(alarms[1..][1..][1..]) == alarms[3] + Total(alarms[1..][1..][1..][1..]);
  }

  /**
   A call, whatever the network does: it sends once to four times; it waits at most 15 times its first
   timeout and the rounding of four alarms; it gives up only after four transmissions; and a reply it
   returns echoes one of its own transmissions, whose age in milliseconds is the sample.
   */
  lemma CallOutcome(s: State, init: nat, at: nat, events: seq<Event>)
    requires Between(s) && s.num + 1 < WRAP
    ensures var c := Run(Begin(s, init, at), events);
      && s.sent <= c.sent && 1 <= |c.sent| - |s.sent| == |c.alarms| <= 4
      && RXTMIN <= FirstRto(s) <= RXTMAX && Total(c.alarms) as real <= 15.0 * FirstRto(s) + 2.0
      && (c.out == GaveUp ==> |c.alarms| == 4 && !c.inited)
      && (c.out.Reply? ==>
          && |s.sent| <= c.out.of < |c.sent| && c.est.rtt == c.out.ms as real / 1000.0
          && c.out.ms == (c.out.at / 1000 - c.sent[c.out.of].at / 1000) % WRAP)
      && (c.out != Waiting ==> Between(c))
  {
    BeginsInCall(s, init, at);
    RunInCall(s, Begin(s, init, at), events);
    var c := Run(Begin(s, init, at), events);
    WaitIsBounded(c.alarms, FirstRto(s));
    if c.out.Reply? { StampDifference(c.est.base, c.sent[c.out.of].at, c.out.at); }
  }

  /** The estimators a call starts from. */
  function FirstSrtt(s: State): real { if s.inited then s.est.srtt else 0.0 }

  function FirstRttvar(s: State): real { if s.inited then s.est.rttvar else 0.75 }

  lemma {:induction false} RunSamples(c: State, events: seq<Event>)
    requires c.out == Waiting
    ensures var d := Run(c, events);
      if d.out.Reply? then d.est == Sampled(c.est, d.out.ms).(nrexmt := d.est.nrexmt, rto := d.est.rto)
      else d.est.srtt == c.est.srtt && d.est.rttvar == c.est.rttvar
    decreases |events|
  {
    if events != [] {
      var next := OnEvent(c, events[0]);
      if next.out == Waiting { RunSamples(next, events[1..]); }
    }
  }

  /**
   Timeouts leave the estimators alone, so that a reply moves them once, from where the call found them: by 1/8
   towards the sample and by 1/4 towards its distance.  The alarms are the first timeout, twice, four times and
   eight times that, each rounded.
   */
  lemma CallInPlainTerms(s: State, init: nat, at: nat, events: seq<Event>)
    requires Between(s) && s.num + 1 < WRAP
    ensures var c := Run(Begin(s, init, at), events); var first := FirstRto(s); var n := |c.alarms|;
      && 1 <= n <= 4 && c.alarms[0] == (first + 0.5).Floor && (n > 1 ==> c.alarms[1] == (2.0 * first + 0.5).Floor)
      && (n > 2 ==> c.alarms[2] == (4.0 * first + 0.5).Floor)
      && (n > 3 ==> c.alarms[3] == (8.0 * first + 0.5).Floor)
    ensures var c := Run(Begin(s, init, at), events); var srtt, rttvar := FirstSrtt(s), FirstRttvar(s);
      if c.out.Reply? then
        var rtt := c.out.ms as real / 1000.0;
        && c.est.srtt == 0.875 * srtt + 0.125 * rtt
        && c.est.rttvar == 0.75 * rttvar + 0.25 * (if rtt >= srtt then rtt - srtt else srtt - rtt)
      else
        c.est.srtt == srtt && c.est.rttvar == rttvar
  {
    BeginsInCall(s, init, at);
    RunInCall(s, Begin(s, init, at), events);
    RunSamples(Begin(s, init, at), events);
    var first := FirstRto(s);
    assert Doubled(first, 0) == first && Doubled(first, 1) == 2.0 * first && Doubled(first, 2) == 4.0 * first
      && Doubled(first, 3) == 8.0 * first;
  }

  /** The times at which alarms went off. */
  function AlarmTimes(events: seq<Event>): seq<nat> {
    if events == [] then [] else (if events[0].Alarm? then [events[0].at] else []) + AlarmTimes(events[1..])
  }

  /** The transmissions in more were made when the alarms went off, one at each. */
  predicate SentAt(more: seq<Sent>, times: seq<nat>) {
    |more| <= |times| && forall i | 0 <= i < |more| :: more[i].at == times[i]
  }

  lemma SentFirst(before: seq<Sent>, x: Sent, after: seq<Sent>, times: seq<nat>)
    requires before + [x] <= after && SentAt(after[|before| + 1..], times)
    ensures before <= after && SentAt(after[|before|..], [x.at] + times)
  {
    assert after[|before|] == (before + [x])[|before|] == x;
    assert after[|before|..] == [x] + after[|before| + 1..];
  }

  lemma {:induction false} RunSentAt(c: State, events: seq<Event>)
    ensures c.sent <= Run(c, events).sent && SentAt(Run(c, events).sent[|c.sent|..], AlarmTimes(events))
    decreases |events|
  {
    if events != [] && c.out == Waiting {
      var e, next, d := events[0], OnEvent(c, events[0]), Run(c, events);
      RunSentAt(next, events[1..]);
      if next.out != Waiting {
        assert d == next && d.sent == c.sent;
      } else if e.Alarm? {
        assert next.sent == c.sent + [next.sent[|c.sent|]] && next.sent[|c.sent|].at == e.at;
        SentFirst(c.sent, next.sent[|c.sent|], d.sent, AlarmTimes(events[1..]));
      } else {
        assert next == c && AlarmTimes(events) == AlarmTimes(events[1..]);
      }
    }
  }

  /** A call transmits when it is made, and then once at each alarm. */
  lemma SentAtTheAlarms(s: State, init: nat, at: nat, events: seq<Event>)
    ensures var c := Run(Begin(s, init, at), events);
      && |c.sent| > |s.sent| && c.sent[|s.sent|].at == at
      && SentAt(c.sent[|s.sent| + 1..], AlarmTimes(events))
  {
    RunSentAt(Begin(s, init, at), events);
  }

  function Alarms(events: seq<Event>): nat {
    if events == [] then 0 else Alarms(events[..|events| - 1]) + (if events[|events| - 1].Alarm? then 1 else 0)
  }

  lemma {:induction false} RunSnoc(c: State, events: seq<Event>, e: Event)
    ensures var d := Run(c, events); Run(c, events + [e]) == if d.out == Waiting then OnEvent(d, e) else d
    decreases |events|
  {
    if events == [] {
      assert ([] + [e])[1..] == [];
    } else if c.out == Waiting {
      assert (events + [e])[1..] == events[1..] + [e];
      RunSnoc(OnEvent(c, events[0]), events[1..], e);
    }
  }

  /** While a call waits, it has counted the alarms so far, and there were at most three. */
  lemma {:induction false} AlarmsCounted(s: State, init: nat, at: nat, events: seq<Event>)
    requires Run(Begin(s, init, at), events).out == Waiting
    ensures Run(Begin(s, init, at), events).est.nrexmt == Alarms(events) <= MAXNREXMT
    decreases |events|
  {
    if events != [] {
      var before, e := events[..|events| - 1], events[|events| - 1];
      assert events == before + [e];
      RunSnoc(Begin(s, init, at), before, e);
      AlarmsCounted(s, init, at, before);
    }
  }

  /**
   Exactly what ends a call that still waits: the fourth alarm, or a datagram that holds a header and
   echoes a transmission of this call.  Replies to earlier calls and short datagrams change nothing.
   */
  lemma EndsExactly(s: State, init: nat, at: nat, events: seq<Event>, e: Event)
    requires Between(s) && s.num + 1 < WRAP && Run(Begin(s, init, at), events).out == Waiting
    ensures var c := Run(Begin(s, init, at), events); var d := Run(Begin(s, init, at), events + [e]);
      && (d.out == GaveUp <==> e.Alarm? && Alarms(events) == 3)
      && (d.out.Reply? <==> e.Packet? && e.len >= HDR_SIZE && |s.sent| <= e.echo < |c.sent|)
      && (d.out.Reply? ==> d.out.size == e.len - HDR_SIZE && d.out.of == e.echo && d.out.at == e.at)
      && (e.Packet? && d.out == Waiting ==> d == c)
  {
    BeginsInCall(s, init, at);
    RunInCall(s, Begin(s, init, at), events);
    RunSnoc(Begin(s, init, at), events, e);
    AlarmsCounted(s, init, at, events);
  }

  // ----- any number of calls -----

  datatype Request = Request(init: nat, at: nat, events: seq<Event>)

  function Calls(s: State, requests: seq<Request>): State {
    if requests == [] then s
    else
      var r := requests[|requests| - 1];
      Run(Begin(Calls(s, requests[..|requests| - 1]), r.init, r.at), r.events)
  }

  function Started(): State { State(Est(0.0, 0.0, 0.0, 0.0, 0, 0), false, 0, [], [], Waiting) }

  /** Every one of these calls has come to an end. */
  predicate AllEnd(s: State, requests: seq<Request>) {
    requests == [] || (AllEnd(s, requests[..|requests| - 1]) && Calls(s, requests).out != Waiting)
  }

  /**
   Over any run of fewer than 2^32 calls the next call starts from a settled timeout, so CallOutcome
   applies to it.
   */
  lemma {:induction false} EveryCall(requests: seq<Request>)
    requires |requests| < WRAP && AllEnd(Started(), requests)
    ensures Between(Calls(Started(), requests)) && Calls(Started(), requests).num == |requests|
    decreases |requests|
  {
    if requests != [] {
      var before, r := requests[..|requests| - 1], requests[|requests| - 1];
      EveryCall(before);
      CallOutcome(Calls(Started(), before), r.init, r.at, r.events);
      BeginsInCall(Calls(Started(), before), r.init, r.at);
      RunInCall(Calls(Started(), before), Begin(Calls(Started(), before), r.init, r.at), r.events);
    }
  }

  // ----- the program -----

  class Client {
    const rttinfo: RttInfo
    var rttinit: bool
    var num: nat
    /** The network: what was sent, the alarms set, and what will come. */
    var sent: seq<Sent>
    var alarms: seq<int>
    var script: seq<Event>

    constructor ()
      ensures View(Waiting) == Started() && fresh(rttinfo)
    {
      rttinfo := new RttInfo();
      rttinit, num, sent, alarms, script := false, 0, [], [], [];
    }

    ghost function View(out: Outcome): State
      reads this, rttinfo
    {
      State(rttinfo.View(), rttinit, num, sent, alarms, out)
    }

    /** The header is stamped and sent, and the alarm set (dg_send_recv.c:60-63). */
    method SendAgain(at: nat)
      modifies `sent, `alarms
      ensures View(Waiting) == Transmit(old(View(Waiting)), at)
    {
      var ts := Stamp(rttinfo.base, at);
      sent := sent + [Sent(num, ts, at)];
      var seconds := rttinfo.Start();
      alarms := alarms + [seconds];
    }

    /** The alarm has gone off (dg_send_recv.c:68-79). */
    method Expire(now: nat) returns (gaveUp: bool)
      modifies this, rttinfo
      ensures View(if gaveUp then GaveUp else Waiting) == OnEvent(old(View(Waiting)), Alarm(now))
      ensures script == old(script)
    {
      var rc := rttinfo.Timeout();
      if rc < 0 {
        rttinit := false;
        return true;
      }
      SendAgain(now);
      return false;
    }

    /** One datagram (dg_send_recv.c:81-92): whether it is the reply, and its size. */
    method Receive(now: nat, len: nat, echo: nat) returns (done: bool, n: int, ghost out: Outcome)
      modifies rttinfo
      ensures View(out) == OnEvent(old(View(Waiting)), Packet(now, len, echo))
      ensures done == out.Reply? && (if done then n == out.size else out == Waiting)
    {
      if len < HDR_SIZE || echo >= |sent| || sent[echo].num != num { return false, -1, Waiting; }
      var ms := (Stamp(rttinfo.base, now) - sent[echo].ts) % WRAP;
      rttinfo.Stop(ms);
      return true, len - HDR_SIZE, Reply(now, len - HDR_SIZE, echo, ms);
    }

    /** The first transmission (dg_send_recv.c:26-63). */
    method Start(init: nat, at: nat)
      modifies this, rttinfo
      ensures View(Waiting) == Begin(old(View(Waiting)), init, at) && script == old(script)
    {
      if !rttinit {
        rttinfo.Init(init / 1000000);
        rttinit := true;
      }
      num := (num + 1) % WRAP;
      alarms := [];
      rttinfo.NewPack();
      SendAgain(at);
    }

    /** The call: -1, or the size of the reply.  The script has to end it, as the alarms do in the end. */
    method DgSendRecv(init: nat, at: nat) returns (n: int, ghost out: Outcome)
      requires Run(Begin(View(Waiting), init, at), script).out != Waiting
      modifies this, rttinfo
      ensures View(out) == Run(Begin(old(View(Waiting)), init, at), old(script))
      ensures n == (if out.Reply? then out.size else -1)
    {
      Start(init, at);
      ghost var end := Run(View(Waiting), script);
      while true
        invariant Run(View(Waiting), script) == end && end.out != Waiting
        decreases |script|
      {
        RunOn(View(Waiting), script);
        var e := script[0];
        script := script[1..];
        match e {
          case Alarm(now) =>
            var gaveUp := Expire(now);
            if gaveUp { return -1, GaveUp; }
          case Packet(now, len, echo) =>
            var done;
            done, n, out := Receive(now, len, echo);
            if done { return; }
        }
      }
    }
  }
}
