/**
 The select loop of tcpcliserv/tcpservselect01.c: a table of client descriptors, the set given to
 select, and two bounds, with a count of ready descriptors that lets a round stop early.
 */
module SelectServer {
  import opened Basics

  const FD_SETSIZE: nat := 1024

  datatype State = State(listenfd: nat, table: seq<int>, maxi: int, maxfd: int, allset: set<int>)

  /** One return of select: the ready set, the descriptor accept returns, and the clients at end of file. */
  datatype Ready = Ready(rset: set<int>, connfd: int, eof: set<int>)

  // ----- the table -----

  /** The descriptors in a table. */
  function Live(table: seq<int>): (fds: set<int>)
    ensures forall fd :: fd in fds <==> fd >= 0 && fd in table
  {
    set fd | fd in table && fd >= 0
  }

  predicate Distinct(table: seq<int>) {
    forall i, j | 0 <= i < j < |table| && table[i] >= 0 :: table[i] != table[j]
  }

  /** The first free entry, or the size of the table. */
  function FirstFree(table: seq<int>): (i: nat)
    ensures i <= |table| && (forall j | 0 <= j < i :: table[j] >= 0) && (i < |table| ==> table[i] < 0)
  {
    if table == [] || table[0] < 0 then 0 else 1 + FirstFree(table[1..])
  }

  /** The table when the clients in gone have left. */
  function Cleared(table: seq<int>, gone: set<int>): (t: seq<int>)
    ensures |t| == |table| && forall i | 0 <= i < |t| :: t[i] == (if table[i] in gone then -1 else table[i])
  {
    seq(|table|, i requires 0 <= i < |table| => if table[i] in gone then -1 else table[i])
  }

  /** The ready clients in the order of the whole table: what a scan without shortcuts would serve. */
  function FullScan(table: seq<int>, rset: set<int>): seq<int> {
    if table == [] then []
    else (if table[0] >= 0 && table[0] in rset then [table[0]] else []) + FullScan(table[1..], rset)
  }

  lemma Tail(table: seq<int>)
    requires table != []
    ensures Live(table) == Live(table[1..]) + (if table[0] >= 0 then {table[0]} else {})
    ensures Distinct(table) ==> Distinct(table[1..]) && table[0] !in Live(table[1..])
  {
    assert table == [table[0]] + table[1..];
  }

  lemma JoinReady(a: seq<int>, b: set<int>, x: int)
    requires multiset(a) == multiset(b) && x !in b
    ensures multiset([x] + a) == multiset({x} + b)
  {
    assert multiset([x] + a) == multiset{x} + multiset(a);
    assert multiset({x} + b) == multiset{x} + multiset(b);
  }

  /** That scan serves every ready client, and none twice. */
  lemma {:induction false} FullScanExact(table: seq<int>, rset: set<int>)
    requires Distinct(table)
    ensures multiset(FullScan(table, rset)) == multiset(Live(table) * rset)
  {
    if table == [] {
      assert Live(table) * rset == {};
    } else {
      Tail(table);
      FullScanExact(table[1..], rset);
      var ready, more := Live(table[1..]) * rset, FullScan(table[1..], rset);
      if table[0] >= 0 && table[0] in rset {
        JoinReady(more, ready, table[0]);
        assert Live(table) * rset == {table[0]} + ready;
      } else {
        assert Live(table) * rset == ready;
        EmptyLeft(more);
      }
    }
  }

  lemma {:induction false} NothingReady(table: seq<int>, rset: set<int>)
    requires Live(table) * rset == {}
    ensures FullScan(table, rset) == []
  {
    if table != [] {
      assert table[0] in Live(table) * rset || table[0] < 0 || table[0] !in rset;
      assert Live(table[1..]) * rset <= Live(table) * rset;
      NothingReady(table[1..], rset);
    }
  }

  // ----- one round and many -----

  predicate Inv(s: State) {
    && s.allset == {s.listenfd} + Live(s.table) && s.listenfd !in s.table && Distinct(s.table)
    && -1 <= s.maxi < |s.table| && (forall i | s.maxi < i < |s.table| :: s.table[i] < 0)
    && forall fd | fd in s.allset :: fd <= s.maxfd
  }

  /** What select and accept return: descriptors that are in the set, and one that is not open yet. */
  predicate Legal(s: State, r: Ready) {
    r.rset <= s.allset && (s.listenfd in r.rset ==> r.connfd >= 0 && r.connfd !in s.allset)
  }

  function Accepted(s: State, connfd: int): State
    requires FirstFree(s.table) < |s.table|
  {
    var i := FirstFree(s.table);
    s.(table := s.table[i := connfd], allset := s.allset + {connfd},
       maxfd := Max(connfd, s.maxfd), maxi := Max(i, s.maxi))
  }

  /** The clients that a round finds at end of file. */
  function Gone(s: State, r: Ready): set<int> { Live(s.table) * r.rset * r.eof }

  function AfterReads(s: State, r: Ready): State {
    s.(table := Cleared(s.table, Gone(s, r)), allset := s.allset - Gone(s, r))
  }

  datatype Round = Round(s: State, served: seq<int>, quit: bool)

  /** A round in plain terms: accept, then serve every ready client of the whole table. */
  function Step(s: State, r: Ready): Round {
    if s.listenfd !in r.rset then Round(AfterReads(s, r), FullScan(s.table, r.rset), false)
    else if FirstFree(s.table) == |s.table| then Round(s, [], true)
    else var t := Accepted(s, r.connfd); Round(AfterReads(t, r), FullScan(t.table, r.rset), false)
  }

  lemma LiveUpdate(table: seq<int>, i: nat, fd: int)
    requires i < |table| && table[i] < 0 && fd >= 0
    ensures Live(table[i := fd]) == Live(table) + {fd}
  {
    var t := table[i := fd];
    assert t[i] == fd && forall j | 0 <= j < |t| && j != i :: t[j] == table[j];
    forall x | x in Live(table) ensures x in t {
      var j :| 0 <= j < |table| && table[j] == x;
      assert t[j] == x;
    }
  }

  lemma AcceptInv(s: State, connfd: int)
    requires Inv(s) && connfd >= 0 && connfd !in s.allset && FirstFree(s.table) < |s.table|
    ensures Inv(Accepted(s, connfd))
  {
    LiveUpdate(s.table, FirstFree(s.table), connfd);
    assert connfd !in s.table;
  }

  lemma ReadsInv(s: State, r: Ready)
    requires Inv(s)
    ensures Inv(AfterReads(s, r))
  {
    var gone, t := Gone(s, r), AfterReads(s, r).table;
    forall x | x in Live(s.table) - gone ensures x in t {
      var j :| 0 <= j < |s.table| && s.table[j] == x;
      assert t[j] == x;
    }
    assert Live(t) == Live(s.table) - gone;
    assert forall i | 0 <= i < |t| && t[i] >= 0 :: t[i] == s.table[i];
  }

  lemma StepInv(s: State, r: Ready)
    requires Inv(s) && Legal(s, r)
    ensures Inv(Step(s, r).s)
  {
    if s.listenfd !in r.rset {
      ReadsInv(s, r);
    } else if FirstFree(s.table) < |s.table| {
      AcceptInv(s, r.connfd);
      ReadsInv(Accepted(s, r.connfd), r);
    }
  }

  /** Every ready client is served exactly once, and the one just accepted waits for the next round. */
  lemma RoundServesTheReady(s: State, r: Ready)
    requires Inv(s) && Legal(s, r)
    ensures Step(s, r).quit <==> s.listenfd in r.rset && forall i | 0 <= i < |s.table| :: s.table[i] >= 0
    ensures !Step(s, r).quit ==> multiset(Step(s, r).served) == multiset(r.rset - {s.listenfd})
    ensures var grown := if s.listenfd in r.rset then s.allset + {r.connfd} else s.allset;
      !Step(s, r).quit ==> Step(s, r).s.allset == grown - (r.rset * r.eof - {s.listenfd})
  {
    if !Step(s, r).quit {
      var t := if s.listenfd in r.rset then Accepted(s, r.connfd) else s;
      if s.listenfd in r.rset { AcceptInv(s, r.connfd); }
      FullScanExact(t.table, r.rset);
      OthersAreClients(s, r);
    }
  }

  /**
   The table after a round: the new connection stands in the first free entry, the entries of ready clients at
   end of file are free, and no other entry has changed.
   */
  lemma TableAfterRound(s: State, r: Ready)
    requires Inv(s) && Legal(s, r) && !Step(s, r).quit
    ensures var t, accepts := Step(s, r).s, s.listenfd in r.rset;
      && t.listenfd == s.listenfd && |t.table| == |s.table|
      && t.maxfd == (if accepts && r.connfd > s.maxfd then r.connfd else s.maxfd)
      && (!accepts ==> t.maxi == s.maxi)
      && forall i | 0 <= i < |s.table| ::
           if accepts && s.table[i] < 0 && (forall j | 0 <= j < i :: s.table[j] >= 0) then
             t.table[i] == r.connfd && t.maxi == Max(i, s.maxi)
           else
             t.table[i] == if s.table[i] >= 0 && s.table[i] in r.rset && s.table[i] in r.eof then -1 else s.table[i]
  {
    var t, first := Step(s, r).s, FirstFree(s.table);
    var u := if s.listenfd in r.rset then Accepted(s, r.connfd) else s;
    forall i | 0 <= i < |s.table| ensures t.table[i] == if u.table[i] in Gone(u, r) then -1 else u.table[i] { }
    forall i | 0 <= i < |s.table|
      ensures u.table[i] in Gone(u, r) <==> s.table[i] >= 0 && s.table[i] in r.rset && s.table[i] in r.eof
    {
      assert u.table[i] >= 0 ==> u.table[i] in Live(u.table);
      if s.listenfd in r.rset && i == first { assert r.connfd !in r.rset; }
    }
  }

  /** The ready descriptors other than the listening one are the ready clients, before and after accept. */
  lemma OthersAreClients(s: State, r: Ready)
    requires Inv(s) && Legal(s, r)
    ensures r.rset - {s.listenfd} == Live(s.table) * r.rset
    ensures s.listenfd in r.rset && FirstFree(s.table) < |s.table| ==>
      Live(Accepted(s, r.connfd).table) * r.rset == r.rset - {s.listenfd}
  {
    if s.listenfd in r.rset && FirstFree(s.table) < |s.table| {
      LiveUpdate(s.table, FirstFree(s.table), r.connfd);
    }
  }

  /** The server after some rounds. */
  function Run(s: State, rounds: seq<Ready>): State {
    if rounds == [] then s else Step(Run(s, rounds[..|rounds| - 1]), rounds[|rounds| - 1]).s
  }

  predicate LegalRun(s: State, rounds: seq<Ready>) {
    rounds == [] || (
      var before := rounds[..|rounds| - 1];
      LegalRun(s, before) && Legal(Run(s, before), rounds[|rounds| - 1]))
  }

  lemma {:induction false} RunInv(s: State, rounds: seq<Ready>)
    requires Inv(s) && LegalRun(s, rounds)
    ensures Inv(Run(s, rounds))
    decreases |rounds|
  {
    if rounds != [] {
      RunInv(s, rounds[..|rounds| - 1]);
      StepInv(Run(s, rounds[..|rounds| - 1]), rounds[|rounds| - 1]);
    }
  }

  // ----- the program -----

  /** The variables of the scan loop. */
  datatype Loop = Loop(i: nat, table: seq<int>, allset: set<int>, nready: int, served: seq<int>)

  /** One turn of it: an entry passed over, or a client served. */
  function Turn(l: Loop, r: Ready): Loop
    requires l.i < |l.table|
  {
    var fd := l.table[l.i];
    if fd < 0 || fd !in r.rset then l.(i := l.i + 1)
    else if fd in r.eof then
      Loop(l.i + 1, l.table[l.i := -1], l.allset - {fd}, l.nready - 1, l.served + [fd])
    else
      Loop(l.i + 1, l.table, l.allset, l.nready - 1, l.served + [fd])
  }

  /** The loop, with its two ways to stop: past maxi, or with nready counted down. */
  function Turns(l: Loop, r: Ready, maxi: int): Loop
    requires maxi < |l.table|
    decreases maxi - l.i
  {
    if l.i > maxi then l
    else
      var m := Turn(l, r);
      if m.nready < l.nready && m.nready <= 0 then m else Turns(m, r, maxi)
  }

  /** The table when the scan has come to entry i. */
  ghost predicate Swept(table: seq<int>, gone: set<int>, i: nat, now: seq<int>) {
    && |now| == |table|
    && forall j | 0 <= j < |now| :: now[j] == (if j < i && table[j] in gone then -1 else table[j])
  }

  /** What is served, counted and closed when rest is the part of the table still ahead. */
  ghost predicate Counted(t: State, r: Ready, rest: seq<int>, served: seq<int>, nready: int, allset: set<int>) {
    && served + FullScan(rest, r.rset) == FullScan(t.table, r.rset)
    && nready == |Live(rest) * r.rset|
    && allset == t.allset - (Gone(t, r) - Live(rest))
  }

  ghost predicate Scanned(t: State, r: Ready, l: Loop) {
    && l.i <= |t.table|
    && Swept(t.table, Gone(t, r), l.i, l.table) && Counted(t, r, t.table[l.i..], l.served, l.nready, l.allset)
  }

  lemma ScanBegins(t: State, r: Ready, nready: int)
    requires nready == |Live(t.table) * r.rset|
    ensures Scanned(t, r, Loop(0, t.table, t.allset, nready, []))
  {
    assert t.table[0..] == t.table;
    EmptyLeft(FullScan(t.table, r.rset));
    assert t.allset - (Gone(t, r) - Live(t.table)) == t.allset;
  }

  /** When no ready descriptor is ahead, the rest of the scan would do nothing. */
  lemma NoneAhead(t: State, r: Ready, rest: seq<int>, served: seq<int>, nready: int, allset: set<int>)
    requires Counted(t, r, rest, served, nready, allset) && (nready <= 0 || Live(rest) == {})
    ensures served == FullScan(t.table, r.rset) && allset == t.allset - Gone(t, r)
    ensures Live(rest) * Gone(t, r) == {}
  {
    assert Live(rest) * r.rset == {};
    NothingReady(rest, r.rset);
    EmptyRight(served);
    assert Gone(t, r) - Live(rest) == Gone(t, r);
  }

  /** No client in the table from entry i on. */
  predicate Unused(table: seq<int>, i: int) { forall j | 0 <= i <= j < |table| :: table[j] < 0 }

  /** The scan has done all that a scan of the whole table does. */
  predicate Complete(t: State, r: Ready, l: Loop) {
    l.served == FullScan(t.table, r.rset) && AfterReads(t, r) == t.(table := l.table, allset := l.allset)
  }

  /** When none of the rest is to go, the table is swept. */
  lemma SweepEnds(table: seq<int>, gone: set<int>, i: nat, now: seq<int>)
    requires i <= |table| && Swept(table, gone, i, now) && Live(table[i..]) * gone == {} && gone <= Live(table)
    ensures Cleared(table, gone) == now
  {
    forall j | i <= j < |table| ensures table[j] !in gone {
      assert table[j] == table[i..][j - i];
      assert table[j] !in Live(table[i..]) * gone;
    }
  }

  lemma UnusedIsEmpty(table: seq<int>, i: nat)
    requires i <= |table| && Unused(table, i)
    ensures Live(table[i..]) == {}
  {
  }

  /** The scan stops because nready is counted down, or because it is past maxi. */
  lemma ScanEnds(t: State, r: Ready, l: Loop)
    requires Scanned(t, r, l) && (l.nready <= 0 || Unused(t.table, l.i))
    ensures Complete(t, r, l)
  {
    if Unused(t.table, l.i) { UnusedIsEmpty(t.table, l.i); }
    NoneAhead(t, r, t.table[l.i..], l.served, l.nready, l.allset);
    SweepEnds(t.table, Gone(t, r), l.i, l.table);
  }

  lemma SweepTurns(table: seq<int>, gone: set<int>, i: nat, now: seq<int>)
    requires Swept(table, gone, i, now) && i < |table|
    ensures now[i] == table[i] && Swept(table, gone, i + 1, if table[i] in gone then now[i := -1] else now)
  {
  }

  lemma InGone(t: State, r: Ready, i: nat)
    requires i < |t.table|
    ensures t.table[i] in Gone(t, r) <==> t.table[i] >= 0 && t.table[i] in r.rset && t.table[i] in r.eof
  {
  }

  lemma CountTurns(t: State, r: Ready, l: Loop, rest: seq<int>)
    requires Counted(t, r, rest, l.served, l.nready, l.allset) && Distinct(rest) && rest != []
    requires rest[0] in t.table && l.i < |l.table| && l.table[l.i] == rest[0]
    ensures var m := Turn(l, r); Counted(t, r, rest[1..], m.served, m.nready, m.allset)
  {
    if rest[0] < 0 || rest[0] !in r.rset {
      CountPasses(t, r, rest, l.served, l.nready, l.allset);
    } else {
      CountServes(t, r, rest, l.served, l.nready, l.allset);
    }
  }

  lemma ScanTurns(t: State, r: Ready, l: Loop)
    requires Scanned(t, r, l) && Distinct(t.table) && l.i < |t.table|
    ensures Scanned(t, r, Turn(l, r))
  {
    var rest := t.table[l.i..];
    SweepTurns(t.table, Gone(t, r), l.i, l.table);
    InGone(t, r, l.i);
    DistinctDrop(t.table, l.i);
    CountTurns(t, r, l, rest);
    assert rest[1..] == t.table[l.i + 1..];
  }

  /** A free entry, or a client that is not ready. */
  lemma CountPasses(t: State, r: Ready, rest: seq<int>, served: seq<int>, nready: int, allset: set<int>)
    requires Counted(t, r, rest, served, nready, allset) && rest != [] && (rest[0] < 0 || rest[0] !in r.rset)
    ensures Counted(t, r, rest[1..], served, nready, allset)
  {
    Tail(rest);
    EmptyLeft(FullScan(rest[1..], r.rset));
    assert Live(rest) * r.rset == Live(rest[1..]) * r.rset;
    assert Gone(t, r) - Live(rest) == Gone(t, r) - Live(rest[1..]);
  }

  /** A ready client is served, and closed at end of file. */
  lemma CountServes(t: State, r: Ready, rest: seq<int>, served: seq<int>, nready: int, allset: set<int>)
    requires Counted(t, r, rest, served, nready, allset) && Distinct(rest) && rest != []
    requires rest[0] >= 0 && rest[0] in r.rset && rest[0] in t.table
    ensures Counted(t, r, rest[1..], served + [rest[0]], nready - 1,
      if rest[0] in r.eof then allset - {rest[0]} else allset)
  {
    var fd := rest[0];
    Tail(rest);
    Assoc(served, [fd], FullScan(rest[1..], r.rset));
    assert Live(rest) * r.rset == Live(rest[1..]) * r.rset + {fd};
    assert fd in Gone(t, r) <==> fd in r.eof;
  }

  lemma DistinctDrop(table: seq<int>, i: nat)
    requires Distinct(table) && i <= |table|
    ensures Distinct(table[i..])
  {
  }

  /** What every turn keeps holds when the loop stops. */
  lemma {:induction false} TurnsKeep(p: Loop -> bool, r: Ready, l: Loop, maxi: int)
    requires maxi < |l.table| && p(l)
    requires forall k: Loop :: k.i < |k.table| && p(k) ==> p(Turn(k, r))
    ensures var m := Turns(l, r, maxi); p(m) && (m.nready <= 0 || m.i > maxi)
    decreases maxi - l.i
  {
    if l.i <= maxi {
      var m := Turn(l, r);
      if m.nready == l.nready || m.nready > 0 { TurnsKeep(p, r, m, maxi); }
    }
  }

  /** The loop and its early exits do what a scan of the whole table does. */
  lemma TurnsIsFullScan(t: State, r: Ready, nready: int)
    requires Inv(t) && nready == |Live(t.table) * r.rset|
    ensures Complete(t, r, Turns(Loop(0, t.table, t.allset, nready, []), r, t.maxi))
    ensures nready <= 0 ==> Complete(t, r, Loop(0, t.table, t.allset, nready, []))
  {
    var l := Loop(0, t.table, t.allset, nready, []);
    ScanBegins(t, r, nready);
    if nready <= 0 { ScanEnds(t, r, l); }
    forall k: Loop | k.i < |k.table| && Scanned(t, r, k) ensures Scanned(t, r, Turn(k, r)) { ScanTurns(t, r, k); }
    TurnsKeep(k => Scanned(t, r, k), r, l, t.maxi);
    assert Unused(t.table, t.maxi + 1);
    ScanEnds(t, r, Turns(l, r, t.maxi));
  }

  /** A round that found room: once the connection is in the table, the loop, or nothing more, completes it. */
  lemma RoundCompletes(s: State, r: Ready, t: State, nready: int)
    requires Inv(s) && Legal(s, r)
    requires if s.listenfd in r.rset then FirstFree(s.table) < |s.table| && t == Accepted(s, r.connfd) else t == s
    requires nready == |r.rset| - (if s.listenfd in r.rset then 1 else 0)
    ensures -1 <= t.maxi < |t.table|
    ensures var m := Turns(Loop(0, t.table, t.allset, nready, []), r, t.maxi);
      Step(s, r) == Round(t.(table := m.table, allset := m.allset), m.served, false)
    ensures nready <= 0 ==> Step(s, r) == Round(t, [], false)
  {
    OthersAreClients(s, r);
    if s.listenfd in r.rset { AcceptInv(s, r.connfd); }
    TurnsIsFullScan(t, r, nready);
  }

  class Server {
    const listenfd: nat
    const client: array<int>
    var maxi: int
    var maxfd: int
    var allset: set<int>

    ghost function View(): State
      reads this, client
    {
      State(listenfd, client[..], maxi, maxfd, allset)
    }

    constructor (listenfd: nat)
      ensures Inv(View()) && View().allset == {listenfd} && |View().table| == FD_SETSIZE && fresh(client)
    {
      this.listenfd, maxfd, maxi := listenfd, listenfd, -1;
      client := new int[FD_SETSIZE](_ => -1);
      allset := {listenfd};
    }

    /** The accepted connection enters the table (tcpservselect01.c:48-60); false when the table is full. */
    method Enter(connfd: int) returns (ok: bool)
      requires connfd >= 0
      modifies this, client
      ensures ok == (FirstFree(old(View()).table) < |old(View()).table|)
      ensures View() == if ok then Accepted(old(View()), connfd) else old(View())
    {
      var i := 0;
      while i < client.Length && client[i] >= 0
        invariant 0 <= i <= client.Length && FirstFree(client[i..]) + i == FirstFree(client[..])
      {
        assert client[i..][1..] == client[i + 1..];
        i := i + 1;
      }
      if i == client.Length { return false; }
      client[i] := connfd;
      allset := allset + {connfd};
      if connfd > maxfd { maxfd := connfd; }
      if i > maxi { maxi := i; }
      return true;
    }

    /** The scan of the table (tcpservselect01.c:66-81), with some descriptors left to serve. */
    method Scan(ready: int, r: Ready) returns (served: seq<int>, ghost end: Loop)
      requires -1 <= maxi < client.Length
      modifies `allset, client
      ensures end == Turns(Loop(0, old(client[..]), old(allset), ready, []), r, maxi)
      ensures client[..] == end.table && allset == end.allset && served == end.served
    {
      served := [];
      var nready, i := ready, 0;
      while i <= maxi
        invariant 0 <= i <= maxi + 1
        invariant Turns(Loop(i, client[..], allset, nready, served), r, maxi)
          == Turns(Loop(0, old(client[..]), old(allset), ready, []), r, maxi)
      {
        ghost var m := Turn(Loop(i, client[..], allset, nready, served), r);
        var sockfd := client[i];
        if sockfd < 0 || sockfd !in r.rset {
          i := i + 1;
          continue;
        }
        served := served + [sockfd];
        if sockfd in r.eof {
          allset := allset - {sockfd};
          client[i] := -1;
        }
        nready := nready - 1;
        i := i + 1;
        assert m == Loop(i, client[..], allset, nready, served);
        if nready <= 0 { return served, m; }
      }
      end := Loop(i, client[..], allset, nready, served);
    }

    /** One round of the server (tcpservselect01.c:36-81). */
    method Serve(r: Ready) returns (served: seq<int>, quit: bool)
      requires Inv(View()) && Legal(View(), r)
      modifies this, client
      ensures Round(View(), served, quit) == Step(old(View()), r) && Inv(View())
    {
      ghost var s := View();
      StepInv(s, r);
      served, quit := [], false;
      var nready := |r.rset|;
      if listenfd in r.rset {
        var ok := Enter(r.connfd);
        if !ok { return [], true; }
        nready := nready - 1;
        if nready <= 0 {
          RoundCompletes(s, r, View(), nready);
          return;
        }
      }
      RoundCompletes(s, r, View(), nready);
      ghost var t, end := View(), Loop(0, [], {}, 0, []);
      served, end := Scan(nready, r);
      assert View() == t.(table := end.table, allset := end.allset);
    }
  }
}
