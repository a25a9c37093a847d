/**
 str_cli of strclinonb.c: one loop copies standard input to the socket and the socket to standard
 output through two buffers, with every descriptor nonblocking.

 What select, read and write return is an argument of each round, so a list of rounds is a schedule.
 */
module Copier {
  import opened Basics

  const MAXLINE: nat := 4096

  /** The four ways bytes move. */
  datatype Way = FromStdin | ToSocket | FromSocket | ToStdout

  /** The system calls that had an effect, in order. */
  datatype Call = Moved(way: Way, bytes: seq<byte>) | StdinEof | SocketEof | ShutWr

  /** A buffer with its two pointers: filled up to i, emptied up to o. */
  datatype Buffer = Buffer(cells: seq<byte>, i: nat, o: nat)

  datatype Status = Running | Returned | ServerGone | Failed

  datatype Copier = Copier(to: Buffer, fr: Buffer, stdineof: bool, status: Status, log: seq<Call>)

  /** A read or write may move bytes, find the end of the file, block, or fail. */
  datatype ReadResult = Got(bytes: seq<byte>) | Eof | ReadBlocks | ReadFails

  datatype WriteResult = Wrote(n: nat) | WriteBlocks | WriteFails

  /** What one round meets: the descriptors select reports, among those asked for, and the call results. */
  datatype Round = Round(
    stdinReady: bool, socketReadable: bool, socketWritable: bool, stdoutWritable: bool,
    stdin: ReadResult, socket: ReadResult, stdout: WriteResult, toSocket: WriteResult)

  // ----- what the kernel makes of a call -----

  /** A read gives at least one byte and at most room; with no room it returns 0, as it does at end of file. */
  function Read(r: ReadResult, room: nat): (x: ReadResult)
    ensures x.Got? ==> 1 <= |x.bytes| <= room
  {
    if r.Got? then (if r.bytes == [] || room == 0 then Eof else Got(r.bytes[..Min(|r.bytes|, room)])) else r
  }

  /** A write takes no more than it is given. */
  function Write(r: WriteResult, n: nat): (x: WriteResult)
    ensures x.Wrote? ==> x.n <= n
  {
    if r.Wrote? then Wrote(Min(r.n, n)) else r
  }

  predicate Shape(b: Buffer) { |b.cells| == MAXLINE && b.o <= b.i <= MAXLINE }

  function Room(b: Buffer): nat
    requires Shape(b)
  {
    MAXLINE - b.i
  }

  function Live(b: Buffer): seq<byte>
    requires Shape(b)
  {
    b.cells[b.o..b.i]
  }

  function Filled(b: Buffer, bytes: seq<byte>): (c: Buffer)
    requires Shape(b) && |bytes| <= Room(b)
    ensures Shape(c)
  {
    Buffer(b.cells[..b.i] + bytes + b.cells[b.i + |bytes|..], b.i + |bytes|, b.o)
  }

  /** Both pointers go back to the start when the last byte has gone. */
  function Drained(b: Buffer, n: nat): (c: Buffer)
    requires Shape(b) && n <= b.i - b.o
    ensures Shape(c)
  {
    if b.o + n == b.i then b.(i := 0, o := 0) else b.(o := b.o + n)
  }

  predicate Sound(s: Copier) { Shape(s.to) && Shape(s.fr) }

  // ----- the four parts of a round -----

  function ReadStdin(s: Copier, r: ReadResult): (t: Copier)
    requires Sound(s)
    ensures Sound(t)
  {
    match Read(r, Room(s.to))
    case Got(bytes) => s.(to := Filled(s.to, bytes), log := s.log + [Moved(FromStdin, bytes)])
    case Eof => s.(stdineof := true, log := s.log + [StdinEof] + (if s.to.o == s.to.i then [ShutWr] else []))
    case ReadBlocks => s
    case ReadFails => s.(status := Failed)
  }

  function ReadSocket(s: Copier, r: ReadResult): (t: Copier)
    requires Sound(s)
    ensures Sound(t)
  {
    match Read(r, Room(s.fr))
    case Got(bytes) => s.(fr := Filled(s.fr, bytes), log := s.log + [Moved(FromSocket, bytes)])
    case Eof => s.(status := if s.stdineof then Returned else ServerGone, log := s.log + [SocketEof])
    case ReadBlocks => s
    case ReadFails => s.(status := Failed)
  }

  function WriteStdout(s: Copier, r: WriteResult): (t: Copier)
    requires Sound(s)
    ensures Sound(t)
  {
    match Write(r, s.fr.i - s.fr.o)
    case Wrote(n) => s.(fr := Drained(s.fr, n), log := s.log + [Moved(ToStdout, Live(s.fr)[..n])])
    case WriteBlocks => s
    case WriteFails => s.(status := Failed)
  }

  /** n bytes have gone to the socket. */
  function WroteToSocket(s: Copier, n: nat): (t: Copier)
    requires Sound(s) && n <= s.to.i - s.to.o
    ensures Sound(t)
  {
    s.(to := Drained(s.to, n),
       log := s.log + [Moved(ToSocket, Live(s.to)[..n])]
            + (if s.to.o + n == s.to.i && s.stdineof then [ShutWr] else []))
  }

  function WriteSocket(s: Copier, r: WriteResult): (t: Copier)
    requires Sound(s)
    ensures Sound(t)
  {
    match Write(r, s.to.i - s.to.o)
    case Wrote(n) => WroteToSocket(s, n)
    case WriteBlocks => s
    case WriteFails => s.(status := Failed)
  }

  // ----- a round -----

  predicate AskStdin(s: Copier) { !s.stdineof && s.to.i < MAXLINE }

  predicate AskSocketRead(s: Copier) { s.fr.i < MAXLINE }

  predicate AskSocketWrite(s: Copier) { s.to.o != s.to.i }

  predicate AskStdout(s: Copier) { s.fr.o != s.fr.i }

  /** The sets as select leaves them; a successful read turns the write on the other side on as well. */
  predicate StdinSet(s: Copier, r: Round) { AskStdin(s) && r.stdinReady }

  predicate SocketReadSet(s: Copier, r: Round) { AskSocketRead(s) && r.socketReadable }

  predicate StdoutSet(s: Copier, r: Round)
    requires Sound(s)
  {
    (AskStdout(s) && r.stdoutWritable) || (SocketReadSet(s, r) && Read(r.socket, Room(s.fr)).Got?)
  }

  predicate SocketWriteSet(s: Copier, r: Round)
    requires Sound(s)
  {
    (AskSocketWrite(s) && r.socketWritable) || (StdinSet(s, r) && Read(r.stdin, Room(s.to)).Got?)
  }

  function Reads(s: Copier, r: Round): (t: Copier)
    requires Sound(s)
    ensures Sound(t)
  {
    var a := if StdinSet(s, r) then ReadStdin(s, r.stdin) else s;
    if a.status == Running && SocketReadSet(s, r) then ReadSocket(a, r.socket) else a
  }

  function Writes(s: Copier, stdout: bool, socket: bool, r: Round): (t: Copier)
    requires Sound(s)
    ensures Sound(t)
  {
    var a := if s.status == Running && stdout && s.fr.i > s.fr.o then WriteStdout(s, r.stdout) else s;
    if a.status == Running && socket && a.to.i > a.to.o then WriteSocket(a, r.toSocket) else a
  }

  /** One turn of the loop: the two reads, then the two writes, each if its descriptor is set. */
  function OneRound(s: Copier, r: Round): (t: Copier)
    requires Sound(s)
    ensures Sound(t)
  {
    if s.status != Running then s else Writes(Reads(s, r), StdoutSet(s, r), SocketWriteSet(s, r), r)
  }

  function Rounds(s: Copier, rs: seq<Round>): (t: Copier)
    requires Sound(s)
    ensures Sound(t)
    decreases |rs|
  {
    if rs == [] then s else Rounds(OneRound(s, rs[0]), rs[1..])
  }

  function Start(): Copier {
    Copier(Buffer(Zeros(MAXLINE), 0, 0), Buffer(Zeros(MAXLINE), 0, 0), false, Running, [])
  }

  // ----- the invariant -----

  /** The bytes a log moved one way. */
  function Bytes(log: seq<Call>, w: Way): seq<byte> {
    if log == [] then []
    else
      var before, c := Bytes(log[..|log| - 1], w), log[|log| - 1];
      if c.Moved? && c.way == w then before + c.bytes else before
  }

  /** Whether call c may come after the calls in log. */
  ghost predicate Admissible(log: seq<Call>, c: Call) {
    match c
    case Moved(way, bytes) =>
      && (way == FromStdin ==> StdinEof !in log && bytes != [])
      && (way == FromSocket ==> SocketEof !in log && bytes != [])
      && (way == ToSocket ==> ShutWr !in log)
      && SocketEof !in log
    case StdinEof => StdinEof !in log && SocketEof !in log
    case SocketEof => SocketEof !in log
    case ShutWr => ShutWr !in log && StdinEof in log && Bytes(log, ToSocket) == Bytes(log, FromStdin)
  }

  ghost predicate Orderly(log: seq<Call>) {
    log == [] || (Orderly(log[..|log| - 1]) && Admissible(log[..|log| - 1], log[|log| - 1]))
  }

  lemma {:induction false} OrderlyAt(log: seq<Call>, k: nat)
    requires Orderly(log) && k < |log|
    ensures Admissible(log[..k], log[k]) && Orderly(log[..k])
  {
    var n := |log| - 1;
    if k < n {
      OrderlyAt(log[..n], k);
      assert log[..n][..k] == log[..k];
    }
  }

  ghost predicate Core(s: Copier) {
    && Sound(s)
    && (s.to.o == s.to.i ==> s.to.i == 0) && (s.fr.o == s.fr.i ==> s.fr.i == 0)
    && Bytes(s.log, FromStdin) == Bytes(s.log, ToSocket) + Live(s.to)
    && Bytes(s.log, FromSocket) == Bytes(s.log, ToStdout) + Live(s.fr)
    && (StdinEof in s.log <==> s.stdineof)
    && (SocketEof in s.log <==> s.status == Returned || s.status == ServerGone)
    && (s.status == Returned ==> s.stdineof) && (s.status == ServerGone ==> !s.stdineof)
    && Orderly(s.log)
  }

  ghost predicate Inv(s: Copier) { Core(s) && (ShutWr in s.log <==> s.stdineof && s.to.i == 0) }

  /** Appending the shutdown, once all of standard input has been written. */
  lemma ShutdownInv(s: Copier)
    requires Core(s) && s.status == Running && ShutWr !in s.log && s.stdineof && s.to.i == s.to.o
    ensures Inv(s.(log := s.log + [ShutWr]))
  {
    assert Live(s.to) == [];
    EmptyRight(Bytes(s.log, ToSocket));
    Appended(s.log, ShutWr);
  }

  lemma Appended(log: seq<Call>, c: Call)
    ensures forall w :: Bytes(log + [c], w) == if c.Moved? && c.way == w then Bytes(log, w) + c.bytes else Bytes(log, w)
    ensures forall d :: d in log + [c] <==> d in log || d == c
    ensures Orderly(log) && Admissible(log, c) ==> Orderly(log + [c])
  {
    assert (log + [c])[..|log|] == log;
  }

  lemma FilledLive(b: Buffer, bytes: seq<byte>)
    requires Shape(b) && |bytes| <= Room(b)
    ensures Live(Filled(b, bytes)) == Live(b) + bytes
  {
  }

  lemma DrainedLive(b: Buffer, n: nat)
    requires Shape(b) && n <= b.i - b.o
    ensures Live(b) == Live(b)[..n] + Live(Drained(b, n))
  {
  }

  lemma StdinEofInv(s: Copier)
    requires Inv(s) && s.status == Running && !s.stdineof
    ensures Inv(s.(stdineof := true, log := s.log + [StdinEof] + (if s.to.o == s.to.i then [ShutWr] else [])))
  {
    Appended(s.log, StdinEof);
    var t := s.(stdineof := true, log := s.log + [StdinEof]);
    assert Core(t);
    if s.to.o == s.to.i { ShutdownInv(t); } else { EmptyRight(t.log); }
  }

  lemma FailedInv(s: Copier)
    requires Inv(s) && s.status == Running
    ensures Inv(s.(status := Failed))
  {
  }

  lemma ReadStdinInv(s: Copier, r: ReadResult)
    requires Inv(s) && s.status == Running && AskStdin(s)
    ensures Inv(ReadStdin(s, r)) && Room(s.to) > 0
    ensures Read(r, Room(s.to)) == Eof <==> r == Eof || r == Got([])
  {
    match Read(r, Room(s.to)) {
      case Got(bytes) =>
        Appended(s.log, Moved(FromStdin, bytes));
        FilledLive(s.to, bytes);
        Assoc(Bytes(s.log, ToSocket), Live(s.to), bytes);
      case Eof => StdinEofInv(s);
      case ReadBlocks =>
      case ReadFails =>
    }
  }

  lemma ReadSocketInv(s: Copier, r: ReadResult)
    requires Inv(s) && s.status == Running && AskSocketRead(s)
    ensures Inv(ReadSocket(s, r)) && Room(s.fr) > 0
    ensures Read(r, Room(s.fr)) == Eof <==> r == Eof || r == Got([])
  {
    match Read(r, Room(s.fr)) {
      case Got(bytes) =>
        Appended(s.log, Moved(FromSocket, bytes));
        FilledLive(s.fr, bytes);
        Assoc(Bytes(s.log, ToStdout), Live(s.fr), bytes);
      case Eof =>
        Appended(s.log, SocketEof);
      case ReadBlocks => assert ReadSocket(s, r) == s;
      case ReadFails =>
        FailedInv(s);
        assert ReadSocket(s, r) == s.(status := Failed);
    }
  }

  lemma WriteStdoutInv(s: Copier, r: WriteResult)
    requires Inv(s) && s.status == Running && s.fr.i > s.fr.o
    ensures Inv(WriteStdout(s, r))
  {
    match Write(r, s.fr.i - s.fr.o) {
      case Wrote(n) =>
        var bytes := Live(s.fr)[..n];
        Appended(s.log, Moved(ToStdout, bytes));
        DrainedLive(s.fr, n);
        Assoc(Bytes(s.log, ToStdout), bytes, Live(Drained(s.fr, n)));
      case WriteBlocks =>
      case WriteFails =>
    }
  }

  lemma WrittenToSocket(s: Copier, n: nat) returns (t: Copier)
    requires Inv(s) && s.status == Running && s.to.i > s.to.o && n <= s.to.i - s.to.o
    ensures t == s.(to := Drained(s.to, n), log := s.log + [Moved(ToSocket, Live(s.to)[..n])])
    ensures Core(t) && ShutWr !in t.log
  {
    var bytes := Live(s.to)[..n];
    t := s.(to := Drained(s.to, n), log := s.log + [Moved(ToSocket, bytes)]);
    Appended(s.log, Moved(ToSocket, bytes));
    DrainedLive(s.to, n);
    Assoc(Bytes(s.log, ToSocket), bytes, Live(t.to));
  }

  lemma WroteInv(s: Copier, n: nat)
    requires Inv(s) && s.status == Running && s.to.i > s.to.o && n <= s.to.i - s.to.o
    ensures Inv(WroteToSocket(s, n))
  {
    var t := WrittenToSocket(s, n);
    if s.to.o + n == s.to.i && s.stdineof { ShutdownInv(t); } else { EmptyRight(t.log); }
  }

  lemma WriteSocketInv(s: Copier, r: WriteResult)
    requires Inv(s) && s.status == Running && s.to.i > s.to.o
    ensures Inv(WriteSocket(s, r))
  {
    match Write(r, s.to.i - s.to.o) {
      case Wrote(n) =>
        WroteInv(s, n);
        assert WriteSocket(s, r) == WroteToSocket(s, n);
      case WriteBlocks => assert WriteSocket(s, r) == s;
      case WriteFails =>
        FailedInv(s);
        assert WriteSocket(s, r) == s.(status := Failed);
    }
  }

  lemma ReadsInv(s: Copier, r: Round)
    requires Inv(s) && s.status == Running
    ensures Inv(Reads(s, r))
  {
    var a := if StdinSet(s, r) then ReadStdin(s, r.stdin) else s;
    if StdinSet(s, r) { ReadStdinInv(s, r.stdin); }
    assert Inv(a) && a.fr == s.fr;
    if a.status == Running && SocketReadSet(s, r) { ReadSocketInv(a, r.socket); }
  }

  lemma WritesInv(s: Copier, stdout: bool, socket: bool, r: Round)
    requires Inv(s)
    ensures Inv(Writes(s, stdout, socket, r))
  {
    var a := if s.status == Running && stdout && s.fr.i > s.fr.o then WriteStdout(s, r.stdout) else s;
    if s.status == Running && stdout && s.fr.i > s.fr.o { WriteStdoutInv(s, r.stdout); }
    assert Inv(a);
    if a.status == Running && socket && a.to.i > a.to.o { WriteSocketInv(a, r.toSocket); }
  }

  lemma RoundInv(s: Copier, r: Round)
    requires Inv(s)
    ensures Inv(OneRound(s, r))
  {
    if s.status == Running {
      ReadsInv(s, r);
      WritesInv(Reads(s, r), StdoutSet(s, r), SocketWriteSet(s, r), r);
    }
  }

  lemma {:induction false} RoundsInv(s: Copier, rs: seq<Round>)
    requires Inv(s)
    ensures Inv(Rounds(s, rs))
    decreases |rs|
  {
    if rs != [] {
      RoundInv(s, rs[0]);
      RoundsInv(OneRound(s, rs[0]), rs[1..]);
    }
  }

  lemma StartInv()
    ensures Inv(Start())
  {
  }

  // ----- what holds under every schedule -----

  /**
   Nothing is lost, made up or reordered: what was written one way, and then what the buffer holds, is
   what was read.
   */
  lemma Conserved(rs: seq<Round>)
    ensures var s := Rounds(Start(), rs);
      && Bytes(s.log, ToSocket) + Live(s.to) == Bytes(s.log, FromStdin)
      && Bytes(s.log, ToStdout) + Live(s.fr) == Bytes(s.log, FromSocket)
  {
    StartInv();
    RoundsInv(Start(), rs);
  }

  lemma AfterShutdown(log: seq<Call>, k: nat, j: nat)
    requires Orderly(log) && k < j < |log| && log[k] == ShutWr
    ensures log[j] != ShutWr && !(log[j].Moved? && log[j].way == ToSocket)
  {
    OrderlyAt(log, j);
    assert log[..j][k] == ShutWr;
  }

  lemma {:induction false} NoMoreInput(log: seq<Call>, e: nat, k: nat)
    requires Orderly(log) && e < k <= |log| && log[e] == StdinEof
    ensures Bytes(log, FromStdin) == Bytes(log[..k], FromStdin)
    decreases |log|
  {
    var n := |log| - 1;
    if k == |log| {
      assert log[..k] == log;
    } else {
      NoMoreInput(log[..n], e, k);
      assert log[..n][..k] == log[..k];
      OrderlyAt(log, n);
      assert log[..n][e] == StdinEof;
    }
  }

  lemma ShutdownInLog(log: seq<Call>, k: nat)
    requires Orderly(log) && k < |log| && log[k] == ShutWr
    ensures StdinEof in log[..k] && Bytes(log[..k], ToSocket) == Bytes(log[..k], FromStdin) == Bytes(log, FromStdin)
    ensures forall j | k < j < |log| :: log[j] != ShutWr && !(log[j].Moved? && log[j].way == ToSocket)
  {
    OrderlyAt(log, k);
    var e :| 0 <= e < k && log[..k][e] == StdinEof;
    NoMoreInput(log, e, k);
    forall j | k < j < |log| ensures log[j] != ShutWr && !(log[j].Moved? && log[j].way == ToSocket) {
      AfterShutdown(log, k, j);
    }
  }

  /**
   SHUT_WR comes at most once, after the end of standard input with all of it written, and no socket
   write follows.
   */
  lemma ShutdownOnceAtTheEnd(rs: seq<Round>, k: nat)
    requires var log := Rounds(Start(), rs).log; k < |log| && log[k] == ShutWr
    ensures var log := Rounds(Start(), rs).log;
      && StdinEof in log[..k] && Bytes(log[..k], ToSocket) == Bytes(log[..k], FromStdin) == Bytes(log, FromStdin)
      && forall j | k < j < |log| :: log[j] != ShutWr && !(log[j].Moved? && log[j].way == ToSocket)
  {
    StartInv();
    RoundsInv(Start(), rs);
    ShutdownInLog(Rounds(Start(), rs).log, k);
  }

  /** Whenever a read is made the buffer has room, so a return of 0 means the end of the file. */
  lemma ReadsHaveRoom(rs: seq<Round>, r: Round)
    requires Rounds(Start(), rs).status == Running
    ensures var s := Rounds(Start(), rs);
      && (StdinSet(s, r) ==> Room(s.to) > 0 && (Read(r.stdin, Room(s.to)) == Eof <==> AtEnd(r.stdin)))
      && (SocketReadSet(s, r) ==> Room(s.fr) > 0 && (Read(r.socket, Room(s.fr)) == Eof <==> AtEnd(r.socket)))
  {
    StartInv();
    RoundsInv(Start(), rs);
    var s := Rounds(Start(), rs);
    if StdinSet(s, r) { ReadStdinInv(s, r.stdin); }
    if SocketReadSet(s, r) { ReadSocketInv(s, r.socket); }
  }

  /** What the kernel has for a read at the end of the file. */
  predicate AtEnd(r: ReadResult) { r == Eof || r == Got([]) }

  /** The ends of file in the log after some rounds were there before, or a read of those rounds was at the end. */
  predicate EndsExplained(before: seq<Call>, after: seq<Call>, rs: seq<Round>) {
    && (StdinEof in after ==> StdinEof in before || exists r | r in rs :: AtEnd(r.stdin))
    && (SocketEof in after ==> SocketEof in before || exists r | r in rs :: AtEnd(r.socket))
  }

  lemma ReadEnds(s: Copier, r: Round)
    requires Sound(s)
    ensures EndsExplained(s.log, Reads(s, r).log, [r])
  {
    assert r in [r];
  }

  lemma WritesEndNothing(s: Copier, stdout: bool, socket: bool, r: Round)
    requires Sound(s)
    ensures forall e | e in {StdinEof, SocketEof} :: e in Writes(s, stdout, socket, r).log ==> e in s.log
  {
  }

  lemma {:induction false} RoundsEnd(s: Copier, rs: seq<Round>)
    requires Sound(s)
    ensures EndsExplained(s.log, Rounds(s, rs).log, rs)
    decreases |rs|
  {
    if rs != [] {
      var r, t := rs[0], OneRound(s, rs[0]);
      if s.status == Running {
        ReadEnds(s, r);
        WritesEndNothing(Reads(s, r), StdoutSet(s, r), SocketWriteSet(s, r), r);
      }
      RoundsEnd(t, rs[1..]);
      assert r in rs && forall x | x in rs[1..] :: x in rs;
    }
  }

  /** No full buffer is taken for the end of a file: each of the two ends comes from a read that was at the end. */
  lemma EndsAreReal(rs: seq<Round>)
    ensures StdinEof in Rounds(Start(), rs).log ==> exists r | r in rs :: AtEnd(r.stdin)
    ensures SocketEof in Rounds(Start(), rs).log ==> exists r | r in rs :: AtEnd(r.socket)
  {
    RoundsEnd(Start(), rs);
  }

  /** select always has something to wait for on the way from the socket. */
  lemma NeverWaitsForNothing(rs: seq<Round>)
    ensures var s := Rounds(Start(), rs); AskSocketRead(s) || AskStdout(s)
  {
    StartInv();
    RoundsInv(Start(), rs);
  }

  /** Ending: the function returns at the socket's end of file if standard input had ended, and complains otherwise. */
  lemma Endings(rs: seq<Round>)
    ensures var s := Rounds(Start(), rs);
      && (s.status == Returned <==> SocketEof in s.log && StdinEof in s.log)
      && (s.status == ServerGone <==> SocketEof in s.log && StdinEof !in s.log)
  {
    StartInv();
    RoundsInv(Start(), rs);
  }

  // ----- a round in plain terms -----

  /** What the reads of a round come to: the bytes, whether standard input has ended, and the end of the function. */
  datatype Reading = Reading(fromStdin: seq<byte>, fromSocket: seq<byte>, stdineof: bool, status: Status)

  /** What the two writes come to. */
  datatype Writing = Writing(toStdout: seq<byte>, toSocket: seq<byte>, status: Status)

  /** A read brings what there is, as far as it fits; a call that blocks, fails or is not made brings nothing. */
  function Brought(made: bool, r: ReadResult, room: nat): seq<byte> {
    if made && r.Got? then r.bytes[..Min(|r.bytes|, room)] else []
  }

  /** A write takes the first n bytes. */
  function Accepted(made: bool, r: WriteResult, data: seq<byte>): seq<byte> {
    if made && r.Wrote? then data[..Min(r.n, |data|)] else []
  }

  /**
   Standard input is read while it has not ended and there is room, the socket while there is room.  The first
   failure, or the end of the socket, is the end of the function.
   */
  function ReadingOf(s: Copier, r: Round): Reading
    requires Sound(s)
  {
    var stdin := !s.stdineof && s.to.i < MAXLINE && r.stdinReady;
    var stdinFails := stdin && r.stdin == ReadFails;
    var socket := s.fr.i < MAXLINE && r.socketReadable && !stdinFails;
    var ended := s.stdineof || (stdin && AtEnd(r.stdin));
    Reading(
      Brought(stdin, r.stdin, MAXLINE - s.to.i), Brought(socket, r.socket, MAXLINE - s.fr.i), ended,
      if stdinFails || (socket && r.socket == ReadFails) then Failed
      else if socket && AtEnd(r.socket) then (if ended then Returned else ServerGone)
      else Running)
  }

  /** What a buffer holds is written if its descriptor is writable or if new bytes, already among them, have come. */
  function WritingOf(s: Copier, r: Round): Writing
    requires Sound(s)
  {
    var a := ReadingOf(s, r);
    var stdout := a.status == Running && (a.fromSocket != [] || (Live(s.fr) != [] && r.stdoutWritable));
    var stdoutFails := stdout && r.stdout == WriteFails;
    var socket := a.status == Running && !stdoutFails
      && (a.fromStdin != [] || (Live(s.to) != [] && r.socketWritable));
    Writing(
      Accepted(stdout, r.stdout, Live(s.fr) + a.fromSocket), Accepted(socket, r.toSocket, Live(s.to) + a.fromStdin),
      if a.status != Running then a.status
      else if stdoutFails || (socket && r.toSocket == WriteFails) then Failed
      else Running)
  }

  /** Some bytes more went one way, and none another. */
  ghost predicate Gained(before: seq<Call>, after: seq<Call>, way: Way, bytes: seq<byte>) {
    forall w: Way :: Bytes(after, w) == if w == way then Bytes(before, w) + bytes else Bytes(before, w)
  }

  lemma GainedNothing(log: seq<Call>, way: Way)
    ensures Gained(log, log, way, [])
  {
    EmptyRight(Bytes(log, way));
  }

  lemma ReadStdinGains(s: Copier, r: ReadResult)
    requires Sound(s) && Room(s.to) > 0
    ensures var t, bytes := ReadStdin(s, r), Brought(true, r, MAXLINE - s.to.i);
      && Gained(s.log, t.log, FromStdin, bytes) && Live(t.to) == Live(s.to) + bytes && t.fr == s.fr
      && t.stdineof == (s.stdineof || AtEnd(r)) && t.status == (if r == ReadFails then Failed else s.status)
  {
    GainedNothing(s.log, FromStdin);
    match Read(r, Room(s.to)) {
      case Got(bytes) =>
        Appended(s.log, Moved(FromStdin, bytes));
        FilledLive(s.to, bytes);
      case Eof =>
        Appended(s.log, StdinEof);
        Appended(s.log + [StdinEof], ShutWr);
        EmptyRight(s.log + [StdinEof]);
      case ReadBlocks =>
      case ReadFails =>
    }
  }

  lemma ReadSocketGains(s: Copier, r: ReadResult)
    requires Sound(s) && Room(s.fr) > 0
    ensures var t, bytes := ReadSocket(s, r), Brought(true, r, MAXLINE - s.fr.i);
      && Gained(s.log, t.log, FromSocket, bytes) && Live(t.fr) == Live(s.fr) + bytes && t.to == s.to
      && t.stdineof == s.stdineof
      && t.status == (if r == ReadFails then Failed
                      else if AtEnd(r) then (if s.stdineof then Returned else ServerGone) else s.status)
  {
    GainedNothing(s.log, FromSocket);
    match Read(r, Room(s.fr)) {
      case Got(bytes) =>
        Appended(s.log, Moved(FromSocket, bytes));
        FilledLive(s.fr, bytes);
      case Eof => Appended(s.log, SocketEof);
      case ReadBlocks =>
      case ReadFails =>
    }
  }

  lemma WriteStdoutGains(s: Copier, r: WriteResult)
    requires Sound(s)
    ensures var t := WriteStdout(s, r);
      && Gained(s.log, t.log, ToStdout, Accepted(true, r, Live(s.fr)))
      && t.to == s.to && t.stdineof == s.stdineof && t.status == (if r == WriteFails then Failed else s.status)
  {
    GainedNothing(s.log, ToStdout);
    if r.Wrote? { Appended(s.log, Moved(ToStdout, Live(s.fr)[..Min(r.n, s.fr.i - s.fr.o)])); }
  }

  lemma WriteSocketGains(s: Copier, r: WriteResult)
    requires Sound(s)
    ensures var t := WriteSocket(s, r);
      && Gained(s.log, t.log, ToSocket, Accepted(true, r, Live(s.to)))
      && t.stdineof == s.stdineof && t.status == (if r == WriteFails then Failed else s.status)
  {
    GainedNothing(s.log, ToSocket);
    if r.Wrote? {
      var moved := Moved(ToSocket, Live(s.to)[..Min(r.n, s.to.i - s.to.o)]);
      Appended(s.log, moved);
      Appended(s.log + [moved], ShutWr);
      EmptyRight(s.log + [moved]);
    }
  }

  /** Standard input's part, made or not. */
  lemma StdinGain(s: Copier, r: Round, a: Copier)
    requires Sound(s) && s.status == Running && a == if StdinSet(s, r) then ReadStdin(s, r.stdin) else s
    ensures var stdin := !s.stdineof && s.to.i < MAXLINE && r.stdinReady;
      var bytes := Brought(stdin, r.stdin, MAXLINE - s.to.i);
      && Gained(s.log, a.log, FromStdin, bytes) && Live(a.to) == Live(s.to) + bytes && a.fr == s.fr
      && a.stdineof == (s.stdineof || (stdin && AtEnd(r.stdin)))
      && a.status == (if stdin && r.stdin == ReadFails then Failed else Running)
  {
    if StdinSet(s, r) {
      ReadStdinGains(s, r.stdin);
    } else {
      GainedNothing(s.log, FromStdin);
      EmptyRight(Live(s.to));
    }
  }

  /** The socket's part, made or not. */
  lemma SocketReadGain(s: Copier, made: bool, r: ReadResult, a: Copier)
    requires Sound(s) && (made ==> s.fr.i < MAXLINE)
    requires a == if s.status == Running && made then ReadSocket(s, r) else s
    ensures var asked := s.status == Running && made;
      var bytes := Brought(asked, r, MAXLINE - s.fr.i);
      && Gained(s.log, a.log, FromSocket, bytes) && Live(a.fr) == Live(s.fr) + bytes && a.to == s.to
      && a.stdineof == s.stdineof
      && a.status == (if asked && r == ReadFails then Failed
                      else if asked && AtEnd(r) then (if s.stdineof then Returned else ServerGone) else s.status)
  {
    if s.status == Running && made {
      ReadSocketGains(s, r);
    } else {
      GainedNothing(s.log, FromSocket);
      EmptyRight(Live(s.fr));
    }
  }

  lemma ReadsGain(s: Copier, r: Round)
    requires Sound(s) && s.status == Running
    ensures var t, a := Reads(s, r), ReadingOf(s, r);
      && Bytes(t.log, FromStdin) == Bytes(s.log, FromStdin) + a.fromStdin
      && Bytes(t.log, FromSocket) == Bytes(s.log, FromSocket) + a.fromSocket
      && Bytes(t.log, ToStdout) == Bytes(s.log, ToStdout) && Bytes(t.log, ToSocket) == Bytes(s.log, ToSocket)
      && Live(t.to) == Live(s.to) + a.fromStdin && Live(t.fr) == Live(s.fr) + a.fromSocket
      && t.stdineof == a.stdineof && t.status == a.status
  {
    var a := if StdinSet(s, r) then ReadStdin(s, r.stdin) else s;
    StdinGain(s, r, a);
    SocketReadGain(a, s.fr.i < MAXLINE && r.socketReadable, r.socket, Reads(s, r));
  }

  /** The sets as select and the reads leave them ask for the writes. */
  lemma WritesAsked(s: Copier, r: Round)
    requires Sound(s) && s.status == Running && Reads(s, r).status == Running
    requires Live(Reads(s, r).to) == Live(s.to) + ReadingOf(s, r).fromStdin
    requires Live(Reads(s, r).fr) == Live(s.fr) + ReadingOf(s, r).fromSocket
    ensures var t, a := Reads(s, r), ReadingOf(s, r);
      && (StdoutSet(s, r) && Live(t.fr) != [] <==> a.fromSocket != [] || (Live(s.fr) != [] && r.stdoutWritable))
      && (SocketWriteSet(s, r) && Live(t.to) != [] <==> a.fromStdin != [] || (Live(s.to) != [] && r.socketWritable))
  {
  }

  /** Standard output's part, made or not. */
  lemma StdoutGain(s: Copier, made: bool, r: WriteResult, a: Copier)
    requires Sound(s) && s.status == Running
    requires a == if made && s.fr.i > s.fr.o then WriteStdout(s, r) else s
    ensures var writes := made && Live(s.fr) != [];
      && Gained(s.log, a.log, ToStdout, Accepted(writes, r, Live(s.fr)))
      && a.to == s.to && a.stdineof == s.stdineof && a.status == (if writes && r == WriteFails then Failed else Running)
  {
    if made && s.fr.i > s.fr.o { WriteStdoutGains(s, r); } else { GainedNothing(s.log, ToStdout); }
  }

  /** The socket's part, made or not. */
  lemma SocketGain(s: Copier, made: bool, r: WriteResult, a: Copier)
    requires Sound(s)
    requires a == if s.status == Running && made && s.to.i > s.to.o then WriteSocket(s, r) else s
    ensures var writes := s.status == Running && made && Live(s.to) != [];
      && Gained(s.log, a.log, ToSocket, Accepted(writes, r, Live(s.to)))
      && a.stdineof == s.stdineof && a.status == (if writes && r == WriteFails then Failed else s.status)
  {
    if s.status == Running && made && s.to.i > s.to.o {
      WriteSocketGains(s, r);
    } else {
      GainedNothing(s.log, ToSocket);
    }
  }

  lemma WritesGain(s: Copier, stdout: bool, socket: bool, r: Round)
    requires Sound(s) && s.status == Running
    ensures var t := Writes(s, stdout, socket, r);
      var writesStdout := stdout && Live(s.fr) != [];
      var stdoutFails := writesStdout && r.stdout == WriteFails;
      var writesSocket := socket && Live(s.to) != [] && !stdoutFails;
      && Bytes(t.log, ToStdout) == Bytes(s.log, ToStdout) + Accepted(writesStdout, r.stdout, Live(s.fr))
      && Bytes(t.log, ToSocket) == Bytes(s.log, ToSocket) + Accepted(writesSocket, r.toSocket, Live(s.to))
      && Bytes(t.log, FromStdin) == Bytes(s.log, FromStdin) && Bytes(t.log, FromSocket) == Bytes(s.log, FromSocket)
      && t.stdineof == s.stdineof
      && t.status == if stdoutFails || (writesSocket && r.toSocket == WriteFails) then Failed else Running
  {
    var a := if stdout && s.fr.i > s.fr.o then WriteStdout(s, r.stdout) else s;
    StdoutGain(s, stdout, r.stdout, a);
    SocketGain(a, socket, r.toSocket, Writes(s, stdout, socket, r));
  }

  /** A round moves exactly those bytes, and ends the function exactly so. */
  lemma RoundInPlainTerms(s: Copier, r: Round)
    requires Inv(s) && s.status == Running
    ensures var t, a, b := OneRound(s, r), ReadingOf(s, r), WritingOf(s, r);
      && Bytes(t.log, FromStdin) == Bytes(s.log, FromStdin) + a.fromStdin
      && Bytes(t.log, FromSocket) == Bytes(s.log, FromSocket) + a.fromSocket
      && Bytes(t.log, ToStdout) == Bytes(s.log, ToStdout) + b.toStdout
      && Bytes(t.log, ToSocket) == Bytes(s.log, ToSocket) + b.toSocket
      && t.stdineof == a.stdineof && t.status == b.status
  {
    var t, a := Reads(s, r), ReadingOf(s, r);
    ReadsGain(s, r);
    EmptyRight(Bytes(s.log, ToStdout));
    EmptyRight(Bytes(s.log, ToSocket));
    if a.status == Running {
      WritesAsked(s, r);
      WritesGain(t, StdoutSet(s, r), SocketWriteSet(s, r), r);
    }
  }

  /** Calls that would block change nothing. */
  lemma BlockedRound(s: Copier, r: Round)
    requires Sound(s) && s.status == Running
    requires r.stdin == ReadBlocks && r.socket == ReadBlocks && r.stdout == WriteBlocks && r.toSocket == WriteBlocks
    ensures OneRound(s, r) == s
  {
  }

  // ----- delivery -----

  lemma {:induction false} Stopped(s: Copier, rs: seq<Round>)
    requires Sound(s) && (s.status != Running || rs == [])
    ensures Rounds(s, rs) == s
    decreases |rs|
  {
    if rs != [] { Stopped(s, rs[1..]); }
  }

  /** Before a function that still runs there are only rounds after which it ran. */
  lemma StillRunning(s: Copier, rs: seq<Round>)
    requires Sound(s) && rs != [] && Rounds(s, rs).status == Running
    ensures s.status == Running && OneRound(s, rs[0]).status == Running
    ensures Rounds(s, rs) == Rounds(OneRound(s, rs[0]), rs[1..])
  {
    if s.status != Running { Stopped(s, rs); }
    if OneRound(s, rs[0]).status != Running { Stopped(OneRound(s, rs[0]), rs[1..]); }
  }

  /** The socket takes at least one byte whenever it is asked. */
  predicate SocketTakes(rs: seq<Round>) {
    forall i | 0 <= i < |rs| :: rs[i].socketWritable && rs[i].toSocket.Wrote? && rs[i].toSocket.n >= 1
  }

  /** After the end of standard input such a round leaves less to write. */
  lemma SocketProgress(s: Copier, r: Round)
    requires Inv(s) && s.status == Running && OneRound(s, r).status == Running && s.stdineof && SocketTakes([r])
    ensures var t := OneRound(s, r);
      && t.stdineof && Bytes(t.log, FromStdin) == Bytes(s.log, FromStdin)
      && |Live(t.to)| <= Max(0, |Live(s.to)| - 1)
  {
    assert [r][0] == r;
    RoundInv(s, r);
    RoundInPlainTerms(s, r);
    EmptyRight(Bytes(s.log, FromStdin));
    EmptyRight(Live(s.to));
  }

  /**
   After the end of standard input, as many such rounds as there are bytes to write send them all, and then
   the shutdown.
   */
  lemma {:induction false} InputIsDelivered(s: Copier, rs: seq<Round>)
    requires Inv(s) && s.stdineof && Rounds(s, rs).status == Running
    requires SocketTakes(rs) && |rs| >= |Live(s.to)|
    ensures var t := Rounds(s, rs);
      ShutWr in t.log && Bytes(t.log, ToSocket) == Bytes(t.log, FromStdin) == Bytes(s.log, FromStdin)
    decreases |rs|
  {
    if rs == [] {
      EmptyRight(Bytes(s.log, ToSocket));
    } else {
      StillRunning(s, rs);
      RoundInv(s, rs[0]);
      assert SocketTakes([rs[0]]);
      SocketProgress(s, rs[0]);
      InputIsDelivered(OneRound(s, rs[0]), rs[1..]);
    }
  }

  /** Standard output takes at least one byte whenever it is asked, and nothing comes from the socket. */
  predicate StdoutTakes(rs: seq<Round>) {
    forall i | 0 <= i < |rs| ::
      && rs[i].stdoutWritable && rs[i].stdout.Wrote? && rs[i].stdout.n >= 1
      && (!rs[i].socketReadable || rs[i].socket == ReadBlocks)
  }

  lemma StdoutProgress(s: Copier, r: Round)
    requires Inv(s) && s.status == Running && OneRound(s, r).status == Running && StdoutTakes([r])
    ensures var t := OneRound(s, r);
      Bytes(t.log, FromSocket) == Bytes(s.log, FromSocket) && |Live(t.fr)| <= Max(0, |Live(s.fr)| - 1)
  {
    assert [r][0] == r;
    RoundInv(s, r);
    RoundInPlainTerms(s, r);
    EmptyRight(Bytes(s.log, FromSocket));
    EmptyRight(Live(s.fr));
  }

  /** As many such rounds as there are bytes in the buffer write to standard output all that the socket has sent. */
  lemma {:induction false} RepliesAreDelivered(s: Copier, rs: seq<Round>)
    requires Inv(s) && Rounds(s, rs).status == Running
    requires StdoutTakes(rs) && |rs| >= |Live(s.fr)|
    ensures var t := Rounds(s, rs);
      Bytes(t.log, ToStdout) == Bytes(t.log, FromSocket) == Bytes(s.log, FromSocket)
    decreases |rs|
  {
    if rs == [] {
      EmptyRight(Bytes(s.log, ToStdout));
    } else {
      StillRunning(s, rs);
      RoundInv(s, rs[0]);
      assert StdoutTakes([rs[0]]);
      StdoutProgress(s, rs[0]);
      RepliesAreDelivered(OneRound(s, rs[0]), rs[1..]);
    }
  }

  // ----- the function as it runs -----

  class StrCli {
    const to: array<byte>
    const fr: array<byte>
    var toiptr: nat
    var tooptr: nat
    var friptr: nat
    var froptr: nat
    var stdineof: bool
    var status: Status
    ghost var log: seq<Call>

    ghost predicate Valid()
      reads this
    {
      && to.Length == MAXLINE && fr.Length == MAXLINE && to != fr
      && tooptr <= toiptr <= MAXLINE && froptr <= friptr <= MAXLINE
    }

    ghost function State(): (s: Copier)
      reads this, to, fr
      requires Valid()
      ensures Sound(s)
    {
      Copier(Buffer(to[..], toiptr, tooptr), Buffer(fr[..], friptr, froptr), stdineof, status, log)
    }

    constructor ()
      ensures Valid() && fresh(to) && fresh(fr) && State() == Start()
    {
      to := new byte[MAXLINE](_ => 0);
      fr := new byte[MAXLINE](_ => 0);
      toiptr, tooptr, friptr, froptr := 0, 0, 0, 0;
      stdineof, status, log := false, Running, [];
      new;
      assert to[..] == Zeros(MAXLINE) && fr[..] == Zeros(MAXLINE);
    }

    /** What read leaves in the caller's buffer. */
    static method Store(a: array<byte>, at: nat, bytes: seq<byte>)
      requires at + |bytes| <= a.Length
      modifies a
      ensures a[..] == old(a[..])[..at] + bytes + old(a[..])[at + |bytes|..]
    {
      forall k | 0 <= k < |bytes| { a[at + k] := bytes[k]; }
    }

    method StdinPart(r: ReadResult) returns (got: bool)
      requires Valid() && status == Running
      modifies this`toiptr, this`stdineof, this`status, this`log, to
      ensures Valid() && State() == ReadStdin(old(State()), r)
      ensures got == Read(r, Room(old(State()).to)).Got?
    {
      got := false;
      match Read(r, MAXLINE - toiptr) {
        case ReadFails => status := Failed;
        case ReadBlocks =>
        case Eof =>
          stdineof, log := true, log + [StdinEof];
          if tooptr == toiptr { log := log + [ShutWr]; } else { EmptyRight(log); }
        case Got(bytes) =>
          Store(to, toiptr, bytes);
          toiptr, log, got := toiptr + |bytes|, log + [Moved(FromStdin, bytes)], true;
      }
    }

    method SocketReadPart(r: ReadResult) returns (got: bool)
      requires Valid() && status == Running
      modifies this`friptr, this`status, this`log, fr
      ensures Valid() && State() == ReadSocket(old(State()), r)
      ensures got == Read(r, Room(old(State()).fr)).Got?
    {
      got := false;
      match Read(r, MAXLINE - friptr) {
        case ReadFails => status := Failed;
        case ReadBlocks =>
        case Eof => status, log := if stdineof then Returned else ServerGone, log + [SocketEof];
        case Got(bytes) =>
          Store(fr, friptr, bytes);
          friptr, log, got := friptr + |bytes|, log + [Moved(FromSocket, bytes)], true;
      }
    }

    method StdoutPart(r: WriteResult)
      requires Valid() && status == Running
      modifies this`friptr, this`froptr, this`status, this`log
      ensures Valid() && State() == WriteStdout(old(State()), r)
    {
      match Write(r, friptr - froptr) {
        case WriteFails => status := Failed;
        case WriteBlocks =>
        case Wrote(n) =>
          log := log + [Moved(ToStdout, fr[froptr..friptr][..n])];
          froptr := froptr + n;
          if froptr == friptr { froptr, friptr := 0, 0; }
      }
    }

    method SocketWritePart(r: WriteResult)
      requires Valid() && status == Running
      modifies this`toiptr, this`tooptr, this`status, this`log
      ensures Valid() && State() == WriteSocket(old(State()), r)
    {
      match Write(r, toiptr - tooptr) {
        case WriteFails => status := Failed;
        case WriteBlocks =>
        case Wrote(n) =>
          log := log + [Moved(ToSocket, to[tooptr..toiptr][..n])];
          tooptr := tooptr + n;
          ghost var moved := log;
          if tooptr == toiptr {
            toiptr, tooptr := 0, 0;
            if stdineof { log := log + [ShutWr]; }
          }
          EmptyRight(moved);
      }
    }

    method ReadHalf(stdinSet: bool, socketSet: bool, r: Round) returns (gotStdin: bool, gotSocket: bool)
      requires Valid() && status == Running
      requires stdinSet == StdinSet(State(), r) && socketSet == SocketReadSet(State(), r)
      modifies this, to, fr
      ensures Valid() && State() == Reads(old(State()), r)
      ensures gotStdin == (stdinSet && Read(r.stdin, Room(old(State()).to)).Got?)
      ensures status == Running ==> gotSocket == (socketSet && Read(r.socket, Room(old(State()).fr)).Got?)
    {
      gotStdin, gotSocket := false, false;
      if stdinSet { gotStdin := StdinPart(r.stdin); }
      if status == Running && socketSet { gotSocket := SocketReadPart(r.socket); }
    }

    method WriteHalf(stdout: bool, socket: bool, r: Round)
      requires Valid()
      modifies this
      ensures Valid() && State() == Writes(old(State()), stdout, socket, r)
    {
      if status == Running && stdout && friptr > froptr { StdoutPart(r.stdout); }
      if status == Running && socket && toiptr > tooptr { SocketWritePart(r.toSocket); }
    }

    /** One turn of the loop. */
    method Turn(r: Round)
      requires Valid() && status == Running
      modifies this, to, fr
      ensures Valid() && State() == OneRound(old(State()), r)
    {
      var stdinSet := !stdineof && toiptr < MAXLINE && r.stdinReady;
      var socketSet := friptr < MAXLINE && r.socketReadable;
      var writeSocket := tooptr != toiptr && r.socketWritable;
      var writeStdout := froptr != friptr && r.stdoutWritable;
      var gotStdin, gotSocket := ReadHalf(stdinSet, socketSet, r);
      if status == Running { WriteHalf(writeStdout || gotSocket, writeSocket || gotStdin, r); }
    }

    /** The whole loop, for as many rounds as the schedule has or until the function ends. */
    method Run(rs: seq<Round>)
      requires Valid() && status == Running
      modifies this, to, fr
      ensures Valid() && State() == Rounds(old(State()), rs)
    {
      var k := 0;
      assert rs[0..] == rs;
      while k < |rs| && status == Running
        invariant 0 <= k <= |rs| && Valid()
        invariant Rounds(State(), rs[k..]) == Rounds(old(State()), rs)
      {
        ghost var before := State();
        Turn(rs[k]);
        assert rs[k..][1..] == rs[k + 1..];
        k := k + 1;
      }
      Stopped(State(), rs[k..]);
    }
  }
}
