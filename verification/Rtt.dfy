/**
 The round-trip time estimators of lib/rtt.c, over the reals: smoothed RTT and mean deviation with gains
 1/8 and 1/4, and the retransmission timeout they give (section 2 of RFC 6298).
 */
module Rtt {

  const RXTMIN: real := 2.0
  const RXTMAX: real := 60.0
  const MAXNREXMT: nat := 3
  const WRAP: nat := 0x1_0000_0000

  /** struct rtt_info as a value. */
  datatype Est = Est(rtt: real, srtt: real, rttvar: real, rto: real, nrexmt: nat, base: int)

  function MinMax(rto: real): (r: real)
    ensures RXTMIN <= r <= RXTMAX && (RXTMIN <= rto <= RXTMAX ==> r == rto)
    ensures (rto < 2.0 ==> r == 2.0) && (rto > 60.0 ==> r == 60.0)
  {
    if rto < RXTMIN then RXTMIN else if rto > RXTMAX then RXTMAX else rto
  }

  function Fresh(base: int): Est { Est(0.0, 0.0, 0.75, MinMax(0.0 + 4.0 * 0.75), 0, base) }

  /** The timestamp of time at, which counts microseconds. */
  function Stamp(base: int, at: nat): (ts: nat)
    ensures ts < WRAP
  {
    ((at / 1000000 - base) * 1000 + at % 1000000 / 1000) % WRAP
  }

  function Abs(x: real): real { if x < 0.0 then -x else x }

  function Sampled(e: Est, ms: nat): Est {
    var rtt := ms as real / 1000.0;
    var srtt := e.srtt + (rtt - e.srtt) / 8.0;
    var rttvar := e.rttvar + (Abs(rtt - e.srtt) - e.rttvar) / 4.0;
    e.(rtt := rtt, srtt := srtt, rttvar := rttvar, rto := MinMax(srtt + 4.0 * rttvar))
  }

  function TimedOut(e: Est): Est { e.(rto := e.rto * 2.0, nrexmt := e.nrexmt + 1) }

  function NewPacket(e: Est): Est { e.(nrexmt := 0) }

  /** The seconds given to alarm. */
  function Seconds(rto: real): int { (rto + 0.5).Floor }

  class RttInfo {
    var rtt: real
    var srtt: real
    var rttvar: real
    var rto: real
    var nrexmt: nat
    var base: int

    /** A structure in static storage. */
    constructor ()
      ensures View() == Est(0.0, 0.0, 0.0, 0.0, 0, 0)
    {
      rtt, srtt, rttvar, rto, nrexmt, base := 0.0, 0.0, 0.0, 0.0, 0, 0;
    }

    ghost function View(): Est
      reads this
    {
      Est(rtt, srtt, rttvar, rto, nrexmt, base)
    }

    /** rtt_init at second sec; the retransmission count is left as it is. */
    method Init(sec: int)
      modifies this
      ensures View() == Fresh(sec).(nrexmt := old(nrexmt))
    {
      base := sec;
      rtt := 0.0;
      srtt := 0.0;
      rttvar := 0.75;
      rto := MinMax(srtt + 4.0 * rttvar);
    }

    method NewPack()
      modifies `nrexmt
      ensures View() == NewPacket(old(View()))
    {
      nrexmt := 0;
    }

    method Start() returns (seconds: int)
      ensures seconds == Seconds(View().rto)
    {
      seconds := (rto + 0.5).Floor;
    }

    method Stop(ms: nat)
      modifies this
      ensures View() == Sampled(old(View()), ms)
    {
      rtt := ms as real / 1000.0;
      var delta := rtt - srtt;
      srtt := srtt + delta / 8.0;
      if delta < 0.0 { delta := -delta; }
      rttvar := rttvar + (delta - rttvar) / 4.0;
      rto := MinMax(srtt + 4.0 * rttvar);
    }

    method Timeout() returns (rc: int)
      modifies `rto, `nrexmt
      ensures View() == TimedOut(old(View())) && (rc < 0 <==> View().nrexmt > MAXNREXMT)
    {
      rto := rto * 2.0;
      nrexmt := nrexmt + 1;
      if nrexmt > MAXNREXMT { return -1; }
      return 0;
    }
  }

  // ----- the estimators over any number of samples -----

  /** The estimators after some samples, in milliseconds. */
  function SampledAll(e: Est, samples: seq<nat>): Est {
    if samples == [] then e else Sampled(SampledAll(e, samples[..|samples| - 1]), samples[|samples| - 1])
  }

  function Largest(x: real, y: real): real { if x >= y then x else y }

  /** Samples of at most most seconds keep the estimators within the range of the samples. */
  lemma {:induction false} Bounds(base: int, samples: seq<nat>, most: real)
    requires most >= 0.0 && forall i | 0 <= i < |samples| :: samples[i] as real / 1000.0 <= most
    ensures var e := SampledAll(Fresh(base), samples);
      && 0.0 <= e.srtt <= most && 0.0 <= e.rttvar <= Largest(0.75, most)
      && RXTMIN <= e.rto <= RXTMAX && e.rto == MinMax(e.srtt + 4.0 * e.rttvar)
    decreases |samples|
  {
    if samples != [] {
      var k := |samples| - 1;
      Bounds(base, samples[..k], most);
      StaysWithin(SampledAll(Fresh(base), samples[..k]), samples[k], most);
    }
  }

  lemma StaysWithin(e: Est, ms: nat, most: real)
    requires 0.0 <= e.srtt <= most && 0.0 <= e.rttvar <= Largest(0.75, most) && ms as real / 1000.0 <= most
    ensures 0.0 <= Sampled(e, ms).srtt <= most && 0.0 <= Sampled(e, ms).rttvar <= Largest(0.75, most)
  {
    var m := ms as real / 1000.0;
    assert 0.0 <= Abs(m - e.srtt) <= most;
  }

  function Repeated(ms: nat, k: nat): (s: seq<nat>)
    ensures |s| == k
  {
    if k == 0 then [] else Repeated(ms, k - 1) + [ms]
  }

  function Power(x: real, k: nat): real { if k == 0 then 1.0 else x * Power(x, k - 1) }

  /** Where the estimators stand for powers p of 7/8 and q of 3/4, on their way from e to samples of m seconds. */
  predicate OnCourse(now: Est, e: Est, m: real, p: real, q: real) {
    var d := Abs(e.srtt - m);
    && now.srtt - m == p * (e.srtt - m) && Abs(now.srtt - m) == p * d
    && now.rttvar == q * (e.rttvar - 2.0 * d) + 2.0 * d * p
  }

  /**
   The exact course of the estimators while every sample is the same: the distance of srtt shrinks by
   7/8 each time.
   */
  lemma {:induction false} ClosedForm(e: Est, ms: nat, k: nat)
    ensures OnCourse(SampledAll(e, Repeated(ms, k)), e, ms as real / 1000.0, Power(0.875, k), Power(0.75, k))
  {
    if k == 0 {
      assert Repeated(ms, 0) == [];
    } else {
      var s, before := Repeated(ms, k), SampledAll(e, Repeated(ms, k - 1));
      assert s[..k - 1] == Repeated(ms, k - 1) && s[k - 1] == ms;
      ClosedForm(e, ms, k - 1);
      PowerPositive(0.875, k - 1);
      OneSample(before, e, ms, Power(0.875, k - 1), Power(0.75, k - 1));
    }
  }

  lemma OneSample(now: Est, e: Est, ms: nat, p: real, q: real)
    requires p > 0.0 && OnCourse(now, e, ms as real / 1000.0, p, q)
    ensures OnCourse(Sampled(now, ms), e, ms as real / 1000.0, 0.875 * p, 0.75 * q)
  {
    var m := ms as real / 1000.0;
    var x, d := e.srtt - m, Abs(e.srtt - m);
    AbsTimes(0.875 * p, x);
    Scale(0.875, p, x);
    Scale(0.875, p, d);
    Scale(0.75, q, e.rttvar - 2.0 * d);
  }

  lemma Scale(a: real, b: real, c: real)
    ensures (a * b) * c == a * (b * c)
    ensures 2.0 * c * (a * b) == 2.0 * (a * (b * c)) && 2.0 * c * b == 2.0 * (b * c)
  {
  }

  lemma {:induction false} PowerPositive(x: real, k: nat)
    requires x > 0.0
    ensures Power(x, k) > 0.0
  {
    if k > 0 { PowerPositive(x, k - 1); }
  }

  lemma AbsTimes(p: real, x: real)
    requires p > 0.0
    ensures Abs(p * x) == p * Abs(x)
  {
    if x < 0.0 { assert p * x < 0.0; } else { assert p * x >= 0.0; }
  }

  // ----- timestamps -----

  /** Timestamps of one base: their difference is the number of milliseconds in between, modulo 2^32. */
  lemma StampDifference(base: int, from: nat, to: nat)
    ensures (Stamp(base, to) - Stamp(base, from)) % WRAP == (to / 1000 - from / 1000) % WRAP
    ensures from <= to && to / 1000 - from / 1000 < WRAP ==>
      (Stamp(base, to) - Stamp(base, from)) % WRAP == to / 1000 - from / 1000
  {
    Millis(base, from);
    Millis(base, to);
    ModuloDifference(to / 1000 - base * 1000, from / 1000 - base * 1000);
  }

  lemma Millis(base: int, at: nat)
    ensures Stamp(base, at) == (at / 1000 - base * 1000) % WRAP
  {
    var s := at / 1000000;
    assert at == 1000000 * s + at % 1000000;
  }

  lemma ModuloDifference(a: int, b: int)
    ensures (a % WRAP - b % WRAP) % WRAP == (a - b) % WRAP
  {
    var i, j := a / WRAP, b / WRAP;
    assert a == WRAP * i + a % WRAP && b == WRAP * j + b % WRAP;
    assert a - b == (a % WRAP - b % WRAP) + WRAP * (i - j);
  }
}
