/**
 The fetch scheduler of nonblock/web.c, with start_connect and write_get_cmd: files are fetched over at
 most maxnconn nonblocking connections at a time.
 */
module WebFetch {
  import opened Basics

  const MAXFILES: nat := 20

  /** The values f_flags takes. */
  datatype Flags = Unstarted | Connecting | Reading | Done

  datatype File = File(flags: Flags, fd: nat)

  /** Where the program is: in the loop that starts connections, at file i after select, or at an exit. */
  datatype Place = Filling | AtFile(i: nat) | NothingFound

  datatype State = State(
    files: seq<File>, maxnconn: int, nconn: int, nlefttoconn: int, nlefttoread: int,
    rset: set<nat>, wset: set<nat>, maxfd: int, rs: set<nat>, ws: set<nat>, place: Place)

  /** A connection is started on a new socket, and may be there at once; select returns; a file is looked at. */
  datatype Step = Connect(fd: nat, atOnce: bool) | Select(rs: set<nat>, ws: set<nat>) | Look(eof: bool)

  function FirstUnstarted(files: seq<File>): (i: nat)
    ensures i <= |files| && forall j | 0 <= j < i :: files[j].flags != Unstarted
    ensures i < |files| ==> files[i].flags == Unstarted
  {
    if files == [] || files[0].flags == Unstarted then 0 else 1 + FirstUnstarted(files[1..])
  }

  function Started(n: nat, maxnconn: int): State {
    State(seq(n, _ => File(Unstarted, 0)), maxnconn, 0, n, n, {}, {}, -1, {}, {}, Filling)
  }

  predicate MayConnect(s: State) { s.nconn < s.maxnconn && s.nlefttoconn > 0 }

  predicate Enabled(s: State, step: Step) {
    match step
    case Connect(fd, _) => s.place == Filling && s.nlefttoread > 0 && MayConnect(s) && fd !in s.rset
    case Select(rs, ws) => s.place == Filling && s.nlefttoread > 0 && !MayConnect(s) && rs <= s.rset && ws <= s.wset
    case Look(_) => s.place.AtFile? && s.place.i < |s.files|
  }

  function SetFile(s: State, i: nat, f: File): State
    requires i < |s.files|
  {
    s.(files := s.files[i := f])
  }

  /** write_get_cmd. */
  function GetSent(s: State, i: nat): State
    requires i < |s.files|
  {
    var fd := s.files[i].fd;
    SetFile(s, i, File(Reading, fd)).(rset := s.rset + {fd}, maxfd := Max(fd, s.maxfd))
  }

  /** start_connect, and the counters after it. */
  function ConnectStarted(s: State, i: nat, fd: nat, atOnce: bool): State
    requires i < |s.files|
  {
    var t := if atOnce then GetSent(SetFile(s, i, File(s.files[i].flags, fd)), i)
             else SetFile(s, i, File(Connecting, fd))
                  .(rset := s.rset + {fd}, wset := s.wset + {fd}, maxfd := Max(fd, s.maxfd));
    t.(nconn := s.nconn + 1, nlefttoconn := s.nlefttoconn - 1)
  }

  /** What the loop after select does for file i. */
  function Looked(s: State, i: nat, eof: bool): State
    requires i < |s.files|
  {
    var f := s.files[i];
    if f.flags == Connecting && (f.fd in s.rs || f.fd in s.ws) then GetSent(s.(wset := s.wset - {f.fd}), i)
    else if f.flags == Reading && f.fd in s.rs && eof then
      SetFile(s, i, File(Done, f.fd)).(rset := s.rset - {f.fd}, nconn := s.nconn - 1, nlefttoread := s.nlefttoread - 1)
    else s
  }

  function GoOn(s: State, i: nat): State { s.(place := if i < |s.files| then AtFile(i) else Filling) }

  function Next(s: State, step: Step): State
    requires Enabled(s, step)
  {
    match step
    case Connect(fd, atOnce) =>
      var i := FirstUnstarted(s.files);
      if i == |s.files| then s.(place := NothingFound) else ConnectStarted(s, i, fd, atOnce)
    case Select(rs, ws) => GoOn(s.(rs := rs, ws := ws), 0)
    case Look(eof) => GoOn(Looked(s, s.place.i, eof), s.place.i + 1)
  }

  // ----- the invariant -----

  predicate Active(f: File) { f.flags == Connecting || f.flags == Reading }

  /** The files that are in a given set of states. */
  function With(files: seq<File>, flags: set<Flags>): set<nat> { set i: nat | i < |files| && files[i].flags in flags }

  function Fds(files: seq<File>, flags: set<Flags>): set<nat> { set i: nat | i in With(files, flags) :: files[i].fd }

  predicate DistinctFds(files: seq<File>) {
    forall i, j | 0 <= i < j < |files| && Active(files[i]) && Active(files[j]) :: files[i].fd != files[j].fd
  }

  predicate Counters(s: State) {
    && s.nlefttoconn == |With(s.files, {Unstarted})|
    && s.nconn == |With(s.files, {Connecting, Reading})| <= Max(s.maxnconn, 0)
    && s.nlefttoread == |With(s.files, {Unstarted, Connecting, Reading})|
  }

  predicate Sets(s: State) {
    && s.rset == Fds(s.files, {Connecting, Reading}) && s.wset == Fds(s.files, {Connecting})
    && DistinctFds(s.files) && forall fd | fd in s.rset :: fd <= s.maxfd
  }

  /** The files not yet started are the last nlefttoconn, so files are started in their order. */
  predicate InOrder(s: State) {
    && 0 <= s.nlefttoconn <= |s.files|
    && forall i | 0 <= i < |s.files| :: s.files[i].flags == Unstarted <==> i >= |s.files| - s.nlefttoconn
  }

  predicate Inv(s: State) {
    && Counters(s) && Sets(s) && s.place != NothingFound
    && (s.place.AtFile? ==> s.place.i < |s.files|)
    && InOrder(s)
  }

  lemma WithUpdate(files: seq<File>, i: nat, f: File, flags: set<Flags>)
    requires i < |files|
    ensures With(files[i := f], flags) == if f.flags in flags then With(files, flags) + {i}
      else With(files, flags) - {i}
    ensures i in With(files, flags) <==> files[i].flags in flags
  {
  }

  lemma FdsUpdate(files: seq<File>, i: nat, f: File, flags: set<Flags>)
    requires i < |files| && flags <= {Connecting, Reading} && DistinctFds(files)
    ensures var g := files[i]; var was, now := Fds(files, flags), Fds(files[i := f], flags);
      && (g.flags !in flags && f.flags in flags ==> now == was + {f.fd})
      && (g.flags !in flags && f.flags !in flags ==> now == was)
      && (g.flags in flags && f.flags in flags && g.fd == f.fd ==> now == was)
      && (g.flags in flags && f.flags !in flags ==> now == was - {g.fd})
  {
    var g, now := files[i], files[i := f];
    forall j: nat | j < |files| && j != i
      ensures now[j] == files[j] && (files[j].flags in flags ==> files[j].fd in Fds(now, flags))
    {
      if files[j].flags in flags { assert j in With(now, flags); }
    }
    if f.flags in flags { assert i in With(now, flags); }
    if g.flags in flags { assert i in With(files, flags); }
    forall j: nat | j < |files| && j != i && files[j].flags in flags ensures files[j].fd in Fds(files, flags) {
      assert j in With(files, flags);
    }
  }

  lemma {:induction false} AllWith(files: seq<File>, flags: set<Flags>)
    requires forall i | 0 <= i < |files| :: files[i].flags in flags
    ensures |With(files, flags)| == |files|
  {
    if files != [] {
      var k := |files| - 1;
      AllWith(files[..k], flags);
      assert With(files, flags) == With(files[..k], flags) + {k};
    }
  }

  lemma StartedInv(n: nat, maxnconn: int)
    ensures Inv(Started(n, maxnconn))
  {
    var files := Started(n, maxnconn).files;
    AllWith(files, {Unstarted});
    AllWith(files, {Unstarted, Connecting, Reading});
    assert With(files, {Connecting, Reading}) == {} && With(files, {Connecting}) == {};
  }

  /** The counters after file i has got flags of its own. */
  lemma CountersUpdate(s: State, i: nat, f: File)
    requires Counters(s) && i < |s.files|
    ensures var files := s.files[i := f]; var g := s.files[i];
      && |With(files, {Unstarted})| == s.nlefttoconn + In(f.flags, {Unstarted}) - In(g.flags, {Unstarted})
      && |With(files, {Connecting, Reading})| == s.nconn
        + In(f.flags, {Connecting, Reading}) - In(g.flags, {Connecting, Reading})
      && |With(files, {Unstarted, Connecting, Reading})| == s.nlefttoread
        + In(f.flags, {Unstarted, Connecting, Reading}) - In(g.flags, {Unstarted, Connecting, Reading})
  {
    WithUpdate(s.files, i, f, {Unstarted});
    WithUpdate(s.files, i, f, {Connecting, Reading});
    WithUpdate(s.files, i, f, {Unstarted, Connecting, Reading});
  }

  function In(f: Flags, flags: set<Flags>): int { if f in flags then 1 else 0 }

  lemma DistinctUpdate(files: seq<File>, i: nat, f: File)
    requires DistinctFds(files) && i < |files|
    requires Active(f) ==> f.fd !in Fds(files, {Connecting, Reading}) || (Active(files[i]) && f.fd == files[i].fd)
    ensures DistinctFds(files[i := f])
  {
    if Active(f) && f.fd !in Fds(files, {Connecting, Reading}) {
      forall j: nat | j < |files| && Active(files[j]) ensures files[j].fd != f.fd {
        assert j in With(files, {Connecting, Reading});
      }
    }
  }

  /** Starting the next file keeps counters and sets; a file to start is always found. */
  lemma ConnectInv(s: State, fd: nat, atOnce: bool)
    requires Inv(s) && Enabled(s, Connect(fd, atOnce))
    ensures FirstUnstarted(s.files) == |s.files| - s.nlefttoconn && Inv(Next(s, Connect(fd, atOnce)))
  {
    var i := |s.files| - s.nlefttoconn;
    assert s.files[i].flags == Unstarted && FirstUnstarted(s.files) == i;
    var f := File(if atOnce then Reading else Connecting, fd);
    assert Next(s, Connect(fd, atOnce)).files == s.files[i := f];
    CountersUpdate(s, i, f);
    FdsUpdate(s.files, i, f, {Connecting, Reading});
    FdsUpdate(s.files, i, f, {Connecting});
    DistinctUpdate(s.files, i, f);
  }

  lemma LookInv(s: State, eof: bool)
    requires Inv(s) && Enabled(s, Look(eof))
    ensures Inv(Next(s, Look(eof)))
  {
    var i := s.place.i;
    var f, g := Looked(s, i, eof).files[i], s.files[i];
    assert Active(g) ==> i in With(s.files, {Connecting, Reading});
    assert Looked(s, i, eof).files == s.files[i := f];
    CountersUpdate(s, i, f);
    FdsUpdate(s.files, i, f, {Connecting, Reading});
    FdsUpdate(s.files, i, f, {Connecting});
    DistinctUpdate(s.files, i, f);
  }

  lemma StepInv(s: State, step: Step)
    requires Inv(s) && Enabled(s, step)
    ensures Inv(Next(s, step))
  {
    match step
    case Connect(fd, atOnce) => ConnectInv(s, fd, atOnce);
    case Select(_, _) =>
    case Look(eof) => LookInv(s, eof);
  }

  // ----- runs and results -----

  /** These steps lead from s to t. */
  predicate Run(s: State, steps: seq<Step>, t: State)
    decreases |steps|
  {
    if steps == [] then s == t else Enabled(s, steps[0]) && Run(Next(s, steps[0]), steps[1..], t)
  }

  lemma {:induction false} RunInv(s: State, steps: seq<Step>, t: State)
    requires Inv(s) && Run(s, steps, t)
    ensures Inv(t) && t.maxnconn == s.maxnconn && |t.files| == |s.files|
    decreases |steps|
  {
    if steps != [] {
      StepInv(s, steps[0]);
      RunInv(Next(s, steps[0]), steps[1..], t);
    }
  }

  lemma Partition(files: seq<File>)
    ensures |With(files, {Unstarted, Connecting, Reading})|
      == |With(files, {Unstarted})| + |With(files, {Connecting, Reading})|
  {
    var idle, active := With(files, {Unstarted}), With(files, {Connecting, Reading});
    assert With(files, {Unstarted, Connecting, Reading}) == idle + active;
    assert With(files, {Unstarted}) !! With(files, {Connecting, Reading});
  }

  /**
   Any number of files, any limit and any order of events: the counters count what they are named for,
   the limit is kept, the sets given to select hold exactly the descriptors of the files being fetched,
   and a file to start is always found.
   */
  lemma EveryRun(n: nat, maxnconn: int, steps: seq<Step>, t: State)
    requires Run(Started(n, maxnconn), steps, t)
    ensures t.place != NothingFound && |t.files| == n && t.nlefttoread == t.nlefttoconn + t.nconn
    ensures t.nlefttoconn == |With(t.files, {Unstarted})|
    ensures t.nconn == |With(t.files, {Connecting, Reading})| && (maxnconn >= 0 ==> t.nconn <= maxnconn)
    ensures t.rset == Fds(t.files, {Connecting, Reading}) && t.wset == Fds(t.files, {Connecting})
    ensures forall fd | fd in t.rset + t.wset :: fd <= t.maxfd
    ensures t.nlefttoread == 0 <==> forall i | 0 <= i < n :: t.files[i].flags == Done
  {
    StartedInv(n, maxnconn);
    RunInv(Started(n, maxnconn), steps, t);
    Partition(t.files);
    ConnectingAreActive(t.files);
    NoneLeft(t.files);
  }

  lemma ConnectingAreActive(files: seq<File>)
    ensures Fds(files, {Connecting}) <= Fds(files, {Connecting, Reading})
  {
    forall fd | fd in Fds(files, {Connecting}) ensures fd in Fds(files, {Connecting, Reading}) {
      var i :| i in With(files, {Connecting}) && files[i].fd == fd;
      assert i in With(files, {Connecting, Reading});
    }
  }

  lemma NoneLeft(files: seq<File>)
    ensures |With(files, {Unstarted, Connecting, Reading})| == 0 <==>
      forall i | 0 <= i < |files| :: files[i].flags == Done
  {
    var left := With(files, {Unstarted, Connecting, Reading});
    assert forall i | 0 <= i < |files| :: i in left <==> files[i].flags != Done;
    assert |left| == 0 <==> left == {};
  }

  /** When select is entered, some file is being fetched, exactly if the limit is at least one. */
  lemma SelectHasWork(s: State, rs: set<nat>, ws: set<nat>)
    requires Inv(s) && Enabled(s, Select(rs, ws))
    ensures s.rset != {} <==> s.maxnconn >= 1
  {
    Partition(s.files);
    var active := With(s.files, {Connecting, Reading});
    if s.nconn > 0 {
      var i :| i in active;
      assert s.files[i].fd in s.rset;
    } else {
      assert active == {};
    }
  }

  /** With a limit of at least one and files left, a connection may be started or one is there to wait for. */
  lemma AlwaysSomethingToDo(s: State)
    requires Inv(s) && s.maxnconn >= 1 && s.nlefttoread > 0
    ensures MayConnect(s) || s.rset != {}
  {
    Partition(s.files);
    if s.nconn > 0 {
      var i :| i in With(s.files, {Connecting, Reading});
      assert s.files[i].fd in s.rset;
    }
  }

  /** A program that has started nothing and may start nothing. */
  predicate Idle(s: State) {
    && s.maxnconn < 1 && s.nconn == 0 && s.nlefttoread == |s.files| && s.rset == {} && s.wset == {}
    && (forall i | 0 <= i < |s.files| :: s.files[i] == File(Unstarted, 0))
    && (s.place == Filling || (s.place.AtFile? && s.place.i < |s.files|))
  }

  lemma {:induction false} IdleForEver(s: State, steps: seq<Step>, t: State)
    requires Idle(s) && Run(s, steps, t)
    ensures Idle(t) && t.files == s.files
    decreases |steps|
  {
    if steps != [] {
      assert Idle(Next(s, steps[0])) && Next(s, steps[0]).files == s.files;
      IdleForEver(Next(s, steps[0]), steps[1..], t);
    }
  }

  /**
   A limit of zero or less, and what it leads to: the program enters select with empty sets, and in
   every run it starts no file, finishes none, and never ends, for there is always a next step.
   */
  lemma ZeroLimitWaitsForEver(n: nat, maxnconn: int, steps: seq<Step>, t: State)
    requires n >= 1 && maxnconn < 1 && Run(Started(n, maxnconn), steps, t)
    ensures Enabled(Started(n, maxnconn), Select({}, {}))
    ensures t.files == Started(n, maxnconn).files && t.rset == {} && t.wset == {} && t.nlefttoread == n
    ensures Enabled(t, Select({}, {})) || Enabled(t, Look(false))
  {
    IdleForEver(Started(n, maxnconn), steps, t);
  }

  function Rank(f: Flags): nat {
    match f
    case Unstarted => 0
    case Connecting => 1
    case Reading => 2
    case Done => 3
  }

  predicate Forward(f: File, g: File) { Rank(f.flags) <= Rank(g.flags) && (f.flags != Unstarted ==> f.fd == g.fd) }

  predicate AllForward(fs: seq<File>, gs: seq<File>) {
    |fs| == |gs| && forall i | 0 <= i < |fs| :: Forward(fs[i], gs[i])
  }

  lemma StepForward(s: State, step: Step)
    requires Enabled(s, step)
    ensures AllForward(s.files, Next(s, step).files)
  {
  }

  lemma ForwardOn(fs: seq<File>, gs: seq<File>, hs: seq<File>)
    requires AllForward(fs, gs) && AllForward(gs, hs)
    ensures AllForward(fs, hs)
  {
    forall i | 0 <= i < |fs| ensures Forward(fs[i], hs[i]) { assert Forward(fs[i], gs[i]) && Forward(gs[i], hs[i]); }
  }

  /** A file only moves on, and once it has a connection it never gets another. */
  lemma {:induction false} OneConnectionEach(s: State, steps: seq<Step>, t: State)
    requires Run(s, steps, t)
    ensures AllForward(s.files, t.files)
    decreases |steps|
  {
    if steps != [] {
      var u := Next(s, steps[0]);
      StepForward(s, steps[0]);
      OneConnectionEach(u, steps[1..], t);
      ForwardOn(s.files, u.files, t.files);
    }
  }

  // ----- the program -----

  /** The loop that starts connections (web.c:33-43), on sockets as socket and connect return them. */
  function FillAll(s: State, sockets: seq<Step>): State
    decreases |sockets|
  {
    if sockets == [] || !sockets[0].Connect? || !Enabled(s, sockets[0]) then s
    else FillAll(Next(s, sockets[0]), sockets[1..])
  }

  /** The loop over the files after select (web.c:49-79); eofs names the files whose reads return 0. */
  function LookAll(s: State, eofs: set<nat>): State
    decreases if s.place.AtFile? then |s.files| + 1 - s.place.i else 0
  {
    if s.place.AtFile? && s.place.i < |s.files| then LookAll(Next(s, Look(s.place.i in eofs)), eofs) else s
  }

  // ----- those loops in plain terms -----

  /** What a look does to a file: connected, read to its end, or as it was. */
  predicate LookedAt(f: File, g: File, rs: set<nat>, ws: set<nat>, eof: bool) {
    && g.fd == f.fd
    && g.flags ==
      if f.flags == Connecting && (f.fd in rs || f.fd in ws) then Reading
      else if f.flags == Reading && f.fd in rs && eof then Done
      else f.flags
  }

  lemma {:induction false} LooksOn(s: State, eofs: set<nat>)
    requires s.place.AtFile? && s.place.i < |s.files|
    ensures var t := LookAll(s, eofs);
      && t.place == Filling && |t.files| == |s.files|
      && (forall j | 0 <= j < s.place.i :: t.files[j] == s.files[j])
      && forall j | s.place.i <= j < |s.files| :: LookedAt(s.files[j], t.files[j], s.rs, s.ws, j in eofs)
    decreases |s.files| - s.place.i
  {
    var i, u := s.place.i, Next(s, Look(s.place.i in eofs));
    assert LookedAt(s.files[i], u.files[i], s.rs, s.ws, i in eofs);
    if u.place.AtFile? { LooksOn(u, eofs); }
  }

  /** After select every file is looked at once: it is connected, or read to its end, or stays as it was. */
  lemma ScanInPlainTerms(s: State, rs: set<nat>, ws: set<nat>, eofs: set<nat>)
    requires s.files != [] && Enabled(s, Select(rs, ws))
    ensures var t := LookAll(Next(s, Select(rs, ws)), eofs);
      && t.place == Filling && |t.files| == |s.files|
      && forall j | 0 <= j < |s.files| :: LookedAt(s.files[j], t.files[j], rs, ws, j in eofs)
  {
    LooksOn(Next(s, Select(rs, ws)), eofs);
  }

  /** Sockets as socket returns them while none is closed. */
  predicate FreshSockets(sockets: seq<Step>, rset: set<nat>) {
    && (forall k | 0 <= k < |sockets| :: sockets[k].Connect? && sockets[k].fd !in rset)
    && forall k, l | 0 <= k < l < |sockets| :: sockets[k].fd != sockets[l].fd
  }

  /** How many connections are started: as many as the limit, the files and the sockets allow. */
  function StartedNow(s: State, sockets: seq<Step>): nat {
    Min(|sockets|, Max(0, Min(s.maxnconn - s.nconn, s.nlefttoconn)))
  }

  /** A file with a socket: reading if its connection is there at once, connecting if not. */
  function OnSocket(socket: Step): File
    requires socket.Connect?
  {
    File(if socket.atOnce then Reading else Connecting, socket.fd)
  }

  /** The next k files have the sockets in their order, and the others are as they were. */
  predicate StartedFiles(fs: seq<File>, gs: seq<File>, first: nat, k: nat, sockets: seq<Step>)
    requires k <= |sockets| && forall j | 0 <= j < |sockets| :: sockets[j].Connect?
  {
    && |gs| == |fs| && first + k <= |fs|
    && (forall j | 0 <= j < first :: gs[j] == fs[j])
    && (forall j | first <= j < first + k :: gs[j] == OnSocket(sockets[j - first]))
    && (forall j | first + k <= j < |fs| :: gs[j] == fs[j])
  }

  lemma StartedFirst(fs: seq<File>, gs: seq<File>, first: nat, k: nat, sockets: seq<Step>)
    requires first < |fs| && k < |sockets| && forall j | 0 <= j < |sockets| :: sockets[j].Connect?
    requires StartedFiles(fs[first := OnSocket(sockets[0])], gs, first + 1, k, sockets[1..])
    ensures StartedFiles(fs, gs, first, k + 1, sockets)
  {
    forall j | first <= j < first + k + 1 ensures gs[j] == OnSocket(sockets[j - first]) {
      if j > first { assert sockets[1..][j - first - 1] == sockets[j - first]; }
    }
  }

  lemma StartOne(s: State, socket: Step)
    requires socket.Connect? && Inv(s) && Enabled(s, socket)
    ensures var t := Next(s, socket);
      && Inv(t) && t.place == Filling && t.rset == s.rset + {socket.fd} && t.nlefttoread == s.nlefttoread
      && t.maxnconn == s.maxnconn && t.nconn == s.nconn + 1 && t.nlefttoconn == s.nlefttoconn - 1
      && t.files == s.files[|s.files| - s.nlefttoconn := OnSocket(socket)]
  {
    ConnectInv(s, socket.fd, socket.atOnce);
  }

  lemma StillFresh(sockets: seq<Step>, rset: set<nat>)
    requires sockets != [] && FreshSockets(sockets, rset)
    ensures FreshSockets(sockets[1..], rset + {sockets[0].fd})
  {
  }

  /** Connections are started up to the limit, for the files in their order, on the sockets in theirs. */
  predicate FilledUp(s: State, t: State, sockets: seq<Step>)
    requires 0 <= s.nlefttoconn <= |s.files| && forall j | 0 <= j < |sockets| :: sockets[j].Connect?
  {
    var k := StartedNow(s, sockets);
    && t.nconn == s.nconn + k && t.nlefttoconn == s.nlefttoconn - k
    && StartedFiles(s.files, t.files, |s.files| - s.nlefttoconn, k, sockets)
  }

  lemma NoneStarted(s: State, sockets: seq<Step>)
    requires 0 <= s.nlefttoconn <= |s.files| && FreshSockets(sockets, s.rset) && (sockets == [] || !MayConnect(s))
    ensures FillAll(s, sockets) == s && FilledUp(s, s, sockets)
  {
  }

  lemma OneStarted(s: State, u: State, t: State, sockets: seq<Step>)
    requires 0 < s.nlefttoconn <= |s.files| && sockets != [] && MayConnect(s)
    requires forall j | 0 <= j < |sockets| :: sockets[j].Connect?
    requires u.maxnconn == s.maxnconn && u.nconn == s.nconn + 1 && u.nlefttoconn == s.nlefttoconn - 1
    requires u.files == s.files[|s.files| - s.nlefttoconn := OnSocket(sockets[0])] && FilledUp(u, t, sockets[1..])
    ensures FilledUp(s, t, sockets)
  {
    assert StartedNow(s, sockets) == StartedNow(u, sockets[1..]) + 1;
    StartedFirst(s.files, t.files, |s.files| - s.nlefttoconn, StartedNow(u, sockets[1..]), sockets);
  }

  /** The loop starts so many connections. */
  lemma {:induction false} FillInPlainTerms(s: State, sockets: seq<Step>)
    requires Inv(s) && s.place == Filling && s.nlefttoread > 0 && FreshSockets(sockets, s.rset)
    ensures FilledUp(s, FillAll(s, sockets), sockets)
    decreases |sockets|
  {
    if sockets == [] || !MayConnect(s) {
      NoneStarted(s, sockets);
    } else {
      StartOne(s, sockets[0]);
      StillFresh(sockets, s.rset);
      FillInPlainTerms(Next(s, sockets[0]), sockets[1..]);
      OneStarted(s, Next(s, sockets[0]), FillAll(Next(s, sockets[0]), sockets[1..]), sockets);
    }
  }

  class Fetcher {
    const file: array<File>
    const maxnconn: int
    var nconn: int
    var nlefttoconn: int
    var nlefttoread: int
    var rset: set<nat>
    var wset: set<nat>
    var maxfd: int

    ghost function View(place: Place, rs: set<nat>, ws: set<nat>): State
      reads this, file
    {
      State(file[..], maxnconn, nconn, nlefttoconn, nlefttoread, rset, wset, maxfd, rs, ws, place)
    }

    constructor (names: nat, maxnconn: int)
      ensures View(Filling, {}, {}) == Started(Min(names, MAXFILES), maxnconn) && fresh(file)
    {
      var nfiles := Min(names, MAXFILES);
      file := new File[nfiles](_ => File(Unstarted, 0));
      this.maxnconn, rset, wset, maxfd := maxnconn, {}, {}, -1;
      nlefttoread, nlefttoconn, nconn := nfiles, nfiles, 0;
    }

    method WriteGetCmd(i: nat, ghost rs: set<nat>, ghost ws: set<nat>)
      requires i < file.Length
      modifies `rset, `maxfd, file
      ensures View(Filling, rs, ws) == GetSent(old(View(Filling, rs, ws)), i)
    {
      var fd := file[i].fd;
      file[i] := File(Reading, fd);
      rset := rset + {fd};
      if fd > maxfd { maxfd := fd; }
    }

    method StartConnect(i: nat, fd: nat, atOnce: bool)
      requires i < file.Length
      modifies `rset, `wset, `maxfd, file
      ensures View(Filling, {}, {}).(nconn := nconn + 1, nlefttoconn := nlefttoconn - 1)
        == ConnectStarted(old(View(Filling, {}, {})), i, fd, atOnce)
    {
      file[i] := file[i].(fd := fd);
      if !atOnce {
        file[i] := file[i].(flags := Connecting);
        rset := rset + {fd};
        wset := wset + {fd};
        if fd > maxfd { maxfd := fd; }
      } else {
        WriteGetCmd(i, {}, {});
      }
    }

    /** One more connection, when it may be started (web.c:34-42). */
    method ConnectNext(next: Step) returns (nothingFound: bool)
      requires next.Connect? && Enabled(View(Filling, {}, {}), next)
      modifies `nconn, `nlefttoconn, `rset, `wset, `maxfd, file
      ensures View(if nothingFound then NothingFound else Filling, {}, {}) == Next(old(View(Filling, {}, {})), next)
    {
      var i := 0;
      while i < file.Length && file[i].flags != Unstarted
        invariant 0 <= i <= file.Length && FirstUnstarted(file[i..]) + i == FirstUnstarted(file[..])
      {
        assert file[i..][1..] == file[i + 1..];
        i := i + 1;
      }
      if i == file.Length { return true; }
      StartConnect(i, next.fd, next.atOnce);
      nconn := nconn + 1;
      nlefttoconn := nlefttoconn - 1;
      return false;
    }

    /** Connections are started as long as the limit and the sockets allow (web.c:33-43). */
    method Fill(sockets: seq<Step>) returns (nothingFound: bool)
      requires forall k | 0 <= k < |sockets| :: sockets[k].Connect?
      requires Inv(View(Filling, {}, {})) && nlefttoread > 0
      modifies `nconn, `nlefttoconn, `rset, `wset, `maxfd, file
      ensures !nothingFound && View(Filling, {}, {}) == FillAll(old(View(Filling, {}, {})), sockets)
    {
      var used := 0;
      ghost var s := View(Filling, {}, {});
      while nconn < maxnconn && nlefttoconn > 0 && used < |sockets| && sockets[used].fd !in rset
        invariant used <= |sockets| && s == View(Filling, {}, {}) && Inv(s) && nlefttoread > 0
        invariant FillAll(s, sockets[used..]) == FillAll(old(View(Filling, {}, {})), sockets)
        decreases |sockets| - used
      {
        var next := sockets[used];
        ConnectInv(s, next.fd, next.atOnce);
        assert sockets[used..][0] == next && sockets[used..][1..] == sockets[used + 1..];
        s := Next(s, next);
        nothingFound := ConnectNext(next);
        if nothingFound { return; }
        used := used + 1;
      }
      return false;
    }

    /** What select found out about one file (web.c:50-78). */
    method LookAt(i: nat, rs: set<nat>, ws: set<nat>, eof: bool)
      requires i < file.Length
      modifies `nconn, `nlefttoread, `rset, `wset, `maxfd, file
      ensures View(Filling, rs, ws) == Looked(old(View(Filling, rs, ws)), i, eof)
    {
      var flags := file[i].flags;
      if flags == Unstarted || flags == Done { return; }
      var fd := file[i].fd;
      if flags == Connecting && (fd in rs || fd in ws) {
        wset := wset - {fd};
        WriteGetCmd(i, rs, ws);
      } else if flags == Reading && fd in rs {
        if eof {
          file[i] := file[i].(flags := Done);
          rset := rset - {fd};
          nconn := nconn - 1;
          nlefttoread := nlefttoread - 1;
        }
      }
    }

    /** All files, after select has returned rs and ws (web.c:49-79). */
    method Scan(rs: set<nat>, ws: set<nat>, eofs: set<nat>)
      requires Enabled(View(Filling, {}, {}), Select(rs, ws))
      modifies `nconn, `nlefttoread, `rset, `wset, `maxfd, file
      ensures View(Filling, rs, ws) == LookAll(Next(old(View(Filling, {}, {})), Select(rs, ws)), eofs)
    {
      var i := 0;
      ghost var s := GoOn(View(Filling, rs, ws), 0);
      while i < file.Length
        invariant 0 <= i <= file.Length && s == GoOn(View(Filling, rs, ws), i)
        invariant LookAll(s, eofs) == LookAll(Next(old(View(Filling, {}, {})), Select(rs, ws)), eofs)
      {
        LookAt(i, rs, ws, i in eofs);
        s := Next(s, Look(i in eofs));
        i := i + 1;
      }
    }
  }
}
