/**
 The buffered readline of lib/readline.c (and, one object per thread, of threads/readline.c) against
 the version of test/readline1.c that reads one byte at a time.

 A descriptor is the list of what its reads have yet to deliver.  How many bytes a read returns is
 left open, so the contracts hold for every way the stream may be cut into reads.
 */
module Readline {
  import opened Basics

  const MAXLINE: nat := 4096
  const NEWLINE: byte := 10

  /** What a descriptor delivers next: a byte, an interrupted call, an end of file, or another error. */
  datatype Event = Data(b: byte) | Eintr | Eof | Error

  datatype ReadReturn = Bytes(data: seq<byte>) | Interrupted | AtEof | Failed

  function Events(bytes: seq<byte>): (es: seq<Event>)
    ensures |es| == |bytes|
  {
    seq(|bytes|, i requires 0 <= i < |bytes| => Data(bytes[i]))
  }

  /** The bytes of the first k events. */
  function Front(p: seq<Event>, k: nat): (bytes: seq<byte>)
    requires k <= |p| && forall i | 0 <= i < k :: p[i].Data?
    ensures |bytes| == k && p == Events(bytes) + p[k..]
  {
    seq(k, i requires 0 <= i < k => p[i].b)
  }

  class Descriptor {
    var pending: seq<Event>

    constructor (stream: seq<Event>)
      ensures pending == stream
    {
      pending := stream;
    }

    /** read(fd, buf, n): any number of bytes from one to n, as far as they are the next events. */
    method Read(n: nat) returns (r: ReadReturn)
      requires n >= 1
      modifies this
      ensures r.Bytes? ==> 1 <= |r.data| <= n && old(pending) == Events(r.data) + pending
      ensures r == Interrupted ==> old(pending) == [Eintr] + pending
      ensures r == AtEof ==> old(pending) == [Eof] + pending || (old(pending) == [] && pending == [])
      ensures r == Failed ==> old(pending) == [Error] + pending
    {
      if pending == [] { return AtEof; }
      match pending[0] {
        case Eintr => r := Interrupted;
        case Eof => r := AtEof;
        case Error => r := Failed;
        case Data(_) =>
          var most := 1;
          while most < n && most < |pending| && pending[most].Data?
            invariant 1 <= most <= n && most <= |pending| && forall i | 0 <= i < most :: pending[i].Data?
          {
            most := most + 1;
          }
          var k: nat :| 1 <= k <= most;
          r := Bytes(Front(pending, k));
          pending := pending[k..];
          return;
      }
      pending := pending[1..];
    }
  }

  // ----- what a call of readline means -----

  /** The return value, the bytes stored, whether a null was stored after them, and what is left to read. */
  datatype Outcome = Outcome(ret: int, stored: seq<byte>, terminated: bool, rest: seq<Event>)

  /** readline on the events p, with the bytes in got already stored. */
  function Line(p: seq<Event>, got: seq<byte>, maxlen: nat): Outcome
    decreases |p|
  {
    if |got| + 1 >= maxlen then Outcome(|got| + 1, got, true, p)
    else if p == [] then Outcome(|got|, got, true, [])
    else match p[0]
      case Eintr => Line(p[1..], got, maxlen)
      case Eof => Outcome(|got|, got, true, p[1..])
      case Error => Outcome(-1, got, false, p[1..])
      case Data(b) =>
        if b == NEWLINE then Outcome(|got| + 1, got + [b], true, p[1..]) else Line(p[1..], got + [b], maxlen)
  }

  /** The bytes among some events. */
  function Payload(p: seq<Event>): seq<byte> {
    if p == [] then [] else PayloadOf(p[0]) + Payload(p[1..])
  }

  function PayloadOf(e: Event): seq<byte> { if e.Data? then [e.b] else [] }

  lemma PayloadFirst(p: seq<Event>, k: nat)
    requires 1 <= k <= |p|
    ensures Payload(p[..k]) == PayloadOf(p[0]) + Payload(p[1..][..k - 1])
  {
    assert p[..k][1..] == p[1..][..k - 1];
  }

  lemma {:induction false} LineLeavesARest(p: seq<Event>, got: seq<byte>, maxlen: nat)
    ensures var o := Line(p, got, maxlen); |o.rest| <= |p| && o.rest == p[|p| - |o.rest|..]
    decreases |p|
  {
    if |got| + 1 < maxlen && p != [] && (p[0] == Eintr || (p[0].Data? && p[0].b != NEWLINE)) {
      var more := if p[0] == Eintr then got else got + [p[0].b];
      var q, o := p[1..], Line(p, got, maxlen);
      assert o == Line(q, more, maxlen);
      LineLeavesARest(q, more, maxlen);
      assert q[|q| - |o.rest|..] == p[|p| - |o.rest|..];
    }
  }

  /** Bytes delivered and events left over make up the stream again, in every call, failed or not. */
  lemma {:induction false} LineConserves(p: seq<Event>, got: seq<byte>, maxlen: nat)
    ensures var o := Line(p, got, maxlen);
      |o.rest| <= |p| && o.rest == p[|p| - |o.rest|..] && o.stored == got + Payload(p[..|p| - |o.rest|])
    decreases |p|
  {
    LineLeavesARest(p, got, maxlen);
    EmptyRight(got);
    var o := Line(p, got, maxlen);
    var k := |p| - |o.rest|;
    if |got| + 1 >= maxlen || p == [] {
      assert p[..0] == [];
    } else {
      if k > 0 { PayloadFirst(p, k); }
      if p[0] == Eintr || (p[0].Data? && p[0].b != NEWLINE) {
        LineLeavesARest(p[1..], got + PayloadOf(p[0]), maxlen);
        LineConserves(p[1..], got + PayloadOf(p[0]), maxlen);
        Assoc(got, PayloadOf(p[0]), Payload(p[1..][..k - 1]));
      } else {
        EmptyRight(PayloadOf(p[0]));
      }
    }
  }

  predicate NoNewline(s: seq<byte>) { forall i | 0 <= i < |s| :: s[i] != NEWLINE }

  /** Bytes that are no newline and still fit are stored and passed over. */
  lemma {:induction false} LineSkips(s: seq<byte>, q: seq<Event>, got: seq<byte>, maxlen: nat)
    requires NoNewline(s) && |got| + |s| + 1 <= maxlen
    ensures Line(Events(s) + q, got, maxlen) == Line(q, got + s, maxlen)
    decreases |s|
  {
    if s == [] {
      EmptyLeft(q);
      EmptyRight(got);
      assert Events(s) == [];
    } else {
      assert (Events(s) + q)[1..] == Events(s[1..]) + q;
      LineSkips(s[1..], q, got + [s[0]], maxlen);
      MoveFirst(got, s);
    }
  }

  /** A stream without its interrupts. */
  function Quiet(p: seq<Event>): seq<Event> {
    if p == [] then [] else (if p[0] == Eintr then [] else [p[0]]) + Quiet(p[1..])
  }

  /** Interrupted reads leave no trace in what a call returns and stores. */
  lemma {:induction false} InterruptsDontMatter(p: seq<Event>, got: seq<byte>, maxlen: nat)
    ensures var o := Line(p, got, maxlen); Line(Quiet(p), got, maxlen) == o.(rest := Quiet(o.rest))
    decreases |p|
  {
    if p != [] {
      var q := Quiet(p[1..]);
      if p[0] == Eintr {
        EmptyLeft(q);
        InterruptsDontMatter(p[1..], got, maxlen);
      } else {
        assert ([p[0]] + q)[0] == p[0] && ([p[0]] + q)[1..] == q;
        if p[0].Data? && p[0].b != NEWLINE { InterruptsDontMatter(p[1..], got + [p[0].b], maxlen); }
      }
    }
  }

  /** What may follow the text of a line: nothing, its newline, an end of file or an error. */
  predicate EndsText(q: seq<Event>) { q == [] || q[0] in {Data(NEWLINE), Eof, Error} }

  /** Every stream is, but for interrupts, a text without newlines and what ends it. */
  lemma {:induction false} TextAndEnd(p: seq<Event>) returns (s: seq<byte>, q: seq<Event>)
    ensures Quiet(p) == Events(s) + q && NoNewline(s) && EndsText(q)
    decreases |p|
  {
    if p == [] || EndsText(p) {
      s, q := [], Quiet(p);
      EmptyLeft(q);
      assert Events(s) == [];
    } else {
      s, q := TextAndEnd(p[1..]);
      if p[0] == Eintr {
        EmptyLeft(Quiet(p[1..]));
      } else {
        var t := [p[0].b] + s;
        assert Events(t) == [p[0]] + Events(s);
        Assoc([p[0]], Events(s), q);
        s := t;
      }
    }
  }

  lemma LineCuts(s: seq<byte>, q: seq<Event>, maxlen: nat)
    requires NoNewline(s) && 1 <= maxlen <= |s| + 1
    ensures Line(Events(s) + q, [], maxlen) == Outcome(maxlen, s[..maxlen - 1], true, Events(s[maxlen - 1..]) + q)
  {
    var t, u := s[..maxlen - 1], s[maxlen - 1..];
    assert Events(s) + q == Events(t) + (Events(u) + q);
    LineSkips(t, Events(u) + q, [], maxlen);
    EmptyLeft(t);
  }

  /** A text that fills the buffer is cut at maxlen - 1 bytes, and maxlen is returned. */
  lemma FullInPlainTerms(p: seq<Event>, s: seq<byte>, q: seq<Event>, maxlen: nat)
    requires Quiet(p) == Events(s) + q && NoNewline(s) && 1 <= maxlen <= |s| + 1
    ensures var o := Line(p, [], maxlen);
      o.(rest := Quiet(o.rest)) == Outcome(maxlen, s[..maxlen - 1], true, Events(s[maxlen - 1..]) + q)
  {
    InterruptsDontMatter(p, [], maxlen);
    LineCuts(s, q, maxlen);
  }

  /**
   A text that fits, by what follows it: a newline is stored with it; at the end of the file its bytes
   are returned; an error returns -1.
   */
  lemma LineInPlainTerms(p: seq<Event>, s: seq<byte>, q: seq<Event>, maxlen: nat)
    requires Quiet(p) == Events(s) + q && NoNewline(s) && EndsText(q) && |s| + 1 < maxlen
    ensures var o := Line(p, [], maxlen);
      o.(rest := Quiet(o.rest)) ==
      if q == [] then Outcome(|s|, s, true, [])
      else match q[0]
        case Eof => Outcome(|s|, s, true, q[1..])
        case Error => Outcome(-1, s, false, q[1..])
        case _ => Outcome(|s| + 1, s + [NEWLINE], true, q[1..])
  {
    InterruptsDontMatter(p, [], maxlen);
    LineSkips(s, q, [], maxlen);
    EmptyLeft(s);
  }

  /** n bytes come before an end of file or an error, and none of them is a newline; interrupts do not count. */
  predicate Fills(p: seq<Event>, n: nat) {
    n == 0 || (p != [] && match p[0]
      case Eintr => Fills(p[1..], n)
      case Data(b) => b != NEWLINE && Fills(p[1..], n - 1)
      case _ => false)
  }

  /** An error comes before a newline, an end of file or n bytes. */
  predicate FailsWithin(p: seq<Event>, n: nat) {
    n != 0 && p != [] && match p[0]
      case Eintr => FailsWithin(p[1..], n)
      case Data(b) => b != NEWLINE && FailsWithin(p[1..], n - 1)
      case Eof => false
      case Error => true
  }

  /** The return value of a call with the bytes in got stored and room for n more. */
  lemma {:induction false} ReturnFrom(p: seq<Event>, got: seq<byte>, n: nat)
    ensures var o := Line(p, got, |got| + n + 1);
      && (o.ret == |o.stored| <==> !Fills(p, n) && !FailsWithin(p, n))
      && (Fills(p, n) <==> o.ret == |got| + n + 1) && (Fills(p, n) ==> |o.stored| == |got| + n)
      && (FailsWithin(p, n) <==> o.ret == -1)
    decreases |p|
  {
    if n > 0 && p != [] {
      match p[0]
      case Eintr => ReturnFrom(p[1..], got, n);
      case Data(b) => if b != NEWLINE { ReturnFrom(p[1..], got + [b], n - 1); }
      case _ =>
    }
  }

  /**
   What readline returns, for every stream and every maxlen.  It is the number of bytes stored exactly
   if they do not fill the buffer and no error comes; it is maxlen, one more than the bytes stored,
   exactly if they do; and it is -1 exactly if an error comes first.
   */
  lemma ReturnExactly(p: seq<Event>, maxlen: nat)
    requires maxlen >= 1
    ensures var o := Line(p, [], maxlen); var n := maxlen - 1;
      && (o.ret == |o.stored| <==> !Fills(p, n) && !FailsWithin(p, n))
      && (o.ret == maxlen <==> Fills(p, n)) && (Fills(p, n) ==> |o.stored| == n)
      && (o.ret == -1 <==> FailsWithin(p, n))
  {
    ReturnFrom(p, [], maxlen - 1);
  }

  // ----- one byte at a time -----

  /** What one attempt to get a byte comes to: 1 and the byte, 0 at the end of the file, -1 on an error. */
  datatype Taken = Taken(rc: int, c: byte, rest: seq<Event>)

  function Next(p: seq<Event>): (t: Taken)
    ensures -1 <= t.rc <= 1
  {
    if p == [] then Taken(0, 0, [])
    else match p[0]
      case Eintr => Next(p[1..])
      case Eof => Taken(0, 0, p[1..])
      case Error => Taken(-1, 0, p[1..])
      case Data(b) => Taken(1, b, p[1..])
  }

  /** A call gets its bytes one after the other. */
  lemma {:induction false} LineNext(p: seq<Event>, got: seq<byte>, maxlen: nat)
    requires |got| + 1 < maxlen
    ensures var t := Next(p);
      Line(p, got, maxlen) ==
      if t.rc == 0 then Outcome(|got|, got, true, t.rest)
      else if t.rc < 0 then Outcome(-1, got, false, t.rest)
      else if t.c == NEWLINE then Outcome(|got| + 1, got + [t.c], true, t.rest)
      else Line(t.rest, got + [t.c], maxlen)
    decreases |p|
  {
    if p != [] && p[0] == Eintr { LineNext(p[1..], got, maxlen); }
  }

  /** The caller's buffer, holding was before, when the bytes in got have been stored. */
  ghost function Storing(was: seq<byte>, got: seq<byte>): (now: seq<byte>)
    requires |got| <= |was|
  {
    got + was[|got|..]
  }

  /** The caller's buffer after a call that came to outcome o. */
  ghost function Filled(was: seq<byte>, o: Outcome): (now: seq<byte>)
    requires |o.stored| < |was|
  {
    Storing(was, if o.terminated then o.stored + [0] else o.stored)
  }

  /** A null is stored unless the read failed. */
  lemma {:induction false} NullUnlessFailed(p: seq<Event>, got: seq<byte>, maxlen: nat)
    ensures Line(p, got, maxlen).terminated <==> Line(p, got, maxlen).ret != -1
    decreases |p|
  {
    if |got| + 1 < maxlen && p != [] {
      if p[0].Data? && p[0].b != NEWLINE { NullUnlessFailed(p[1..], got + [p[0].b], maxlen); }
      if p[0] == Eintr { NullUnlessFailed(p[1..], got, maxlen); }
    }
  }

  /** Only the bytes stored and the one after them change: that one becomes null, unless the read failed. */
  lemma NullAfter(was: seq<byte>, p: seq<Event>, maxlen: nat)
    requires 1 <= maxlen <= |was|
    ensures var o := Line(p, [], maxlen);
      && |o.stored| < |was|
      && Filled(was, o) == o.stored + [if o.ret == -1 then was[|o.stored|] else 0] + was[|o.stored| + 1..]
  {
    LineFits(p, [], maxlen);
    NullUnlessFailed(p, [], maxlen);
    var o := Line(p, [], maxlen);
    assert was[|o.stored|..] == [was[|o.stored|]] + was[|o.stored| + 1..];
    Assoc(o.stored, [was[|o.stored|]], was[|o.stored| + 1..]);
  }

  lemma StoreOne(was: seq<byte>, got: seq<byte>, c: byte)
    requires |got| < |was|
    ensures |Storing(was, got)| == |was| && Storing(was, got)[|got| := c] == Storing(was, got + [c])
  {
  }

  /** One byte into the caller's buffer. */
  method StoreByte(vptr: array<byte>, ptr: nat, c: byte, ghost was: seq<byte>, ghost got: seq<byte>)
    requires ptr == |got| < |was| && vptr[..] == Storing(was, got)
    modifies vptr
    ensures vptr[..] == Storing(was, got + [c])
  {
    StoreOne(was, got, c);
    vptr[ptr] := c;
  }

  /** read(fd, &c, 1), again while it is interrupted (test/readline1.c:13-14, 21-23). */
  method ReadByte(fd: Descriptor) returns (rc: int, c: byte)
    modifies fd
    ensures var t := Next(old(fd.pending)); rc == t.rc && fd.pending == t.rest && (rc == 1 ==> c == t.c)
  {
    c := 0;
    while true
      invariant Next(fd.pending) == Next(old(fd.pending))
      decreases |fd.pending|
    {
      ghost var p := fd.pending;
      var r := fd.Read(1);
      assert p != [] ==> fd.pending == p[1..];
      match r {
        case Bytes(data) => return 1, data[0];
        case AtEof => return 0, c;
        case Failed => return -1, c;
        case Interrupted =>
      }
    }
  }

  method ReadlineSlow(fd: Descriptor, vptr: array<byte>, maxlen: nat) returns (ret: int)
    requires 1 <= maxlen <= vptr.Length
    modifies fd, vptr
    ensures var o := Line(old(fd.pending), [], maxlen);
      ret == o.ret && fd.pending == o.rest && |o.stored| < vptr.Length && vptr[..] == Filled(old(vptr[..]), o)
    ensures var o, was := Line(old(fd.pending), [], maxlen), old(vptr[..]);
      vptr[..] == o.stored + [if ret == -1 then was[|o.stored|] else 0] + was[|o.stored| + 1..]
  {
    ghost var was, got: seq<byte>, o := vptr[..], [], Line(fd.pending, [], maxlen);
    NullAfter(was, fd.pending, maxlen);
    var n := 1;
    var ptr := 0;
    while n < maxlen
      invariant 1 <= n <= maxlen && ptr == |got| == n - 1
      invariant vptr[..] == Storing(was, got)
      invariant Line(fd.pending, got, maxlen) == o
    {
      LineNext(fd.pending, got, maxlen);
      var rc, c := ReadByte(fd);
      if rc == 1 {
        StoreByte(vptr, ptr, c, was, got);
        ptr := ptr + 1;
        got := got + [c];
        if c == NEWLINE { break; }
      } else if rc == 0 {
        StoreByte(vptr, ptr, 0, was, got);
        return n - 1;
      } else {
        return -1;
      }
      n := n + 1;
    }
    StoreByte(vptr, ptr, 0, was, got);
    return n;
  }

  // ----- through a buffer -----

  /** The static variables of lib/readline.c, or one thread's Rline in threads/readline.c. */
  class LineReader {
    var readCnt: int
    var readPtr: nat
    const readBuf: array<byte>

    ghost predicate Valid() reads this {
      readBuf.Length == MAXLINE && readPtr + Max(readCnt, 0) <= MAXLINE
    }

    /** The bytes read from the descriptor and not yet handed out. */
    function Buffered(): (s: seq<byte>)
      requires Valid()
      reads this, readBuf
      ensures |s| == Max(readCnt, 0)
    {
      if readCnt > 0 then readBuf[readPtr..readPtr + readCnt] else []
    }

    /** What a caller of readline has yet to see of the descriptor. */
    ghost function Ahead(fd: Descriptor): (p: seq<Event>)
      requires Valid()
      reads this, readBuf, fd
      ensures readCnt <= 0 ==> p == fd.pending
    {
      if readCnt <= 0 then fd.pending else Events(Buffered()) + fd.pending
    }

    constructor ()
      ensures Valid() && fresh(readBuf) && readCnt == 0
    {
      readBuf := new byte[MAXLINE];
      readCnt, readPtr := 0, 0;
    }

    /** The refill of an empty buffer (lib/readline.c:12-21): 0 or -1 when that was all, 1 with bytes to hand out. */
    method Refill(fd: Descriptor) returns (rc: int)
      requires Valid() && readCnt <= 0
      modifies this, readBuf, fd
      ensures Valid() && -1 <= rc <= 1 && (rc == 1 <==> readCnt > 0)
      ensures rc == 1 ==> Next(Ahead(fd)) == Next(old(fd.pending))
      ensures rc <= 0 ==> Taken(rc, 0, fd.pending) == Next(old(fd.pending))
    {
      while true
        invariant Valid() && readCnt <= 0
        invariant Next(fd.pending) == Next(old(fd.pending))
        decreases |fd.pending|
      {
        ghost var p := fd.pending;
        var r := fd.Read(readBuf.Length);
        match r {
          case Bytes(data) =>
            forall i | 0 <= i < |data| { readBuf[i] := data[i]; }
            readCnt, readPtr := |data|, 0;
            assert Buffered() == data;
            return 1;
          case AtEof =>
            assert p != [] ==> fd.pending == p[1..];
            readCnt := 0;
            return 0;
          case Failed =>
            assert fd.pending == p[1..];
            readCnt := -1;
            return -1;
          case Interrupted =>
            assert fd.pending == p[1..];
            readCnt := -1;
        }
      }
    }

    /** The next byte of the buffer (lib/readline.c:23-24). */
    method HandOut(fd: Descriptor) returns (c: byte)
      requires Valid() && readCnt > 0
      modifies `readCnt, `readPtr
      ensures Valid() && old(Ahead(fd)) == [Data(c)] + Ahead(fd)
    {
      ghost var s := Buffered();
      readCnt := readCnt - 1;
      c := readBuf[readPtr];
      readPtr := readPtr + 1;
      assert Buffered() == s[1..];
    }

    method MyRead(fd: Descriptor) returns (rc: int, c: byte)
      requires Valid()
      modifies this, readBuf, fd
      ensures Valid()
      ensures var t := Next(old(Ahead(fd))); rc == t.rc && Ahead(fd) == t.rest && (rc == 1 ==> c == t.c)
    {
      c := 0;
      if readCnt <= 0 {
        rc := Refill(fd);
        if rc <= 0 { return; }
      }
      ghost var p := Ahead(fd);
      c := HandOut(fd);
      assert p[1..] == Ahead(fd);
      rc := 1;
    }

    /** The loop of readline over my_read (lib/readline.c:34-48, threads/readline.c:59-73). */
    method TakeLine(fd: Descriptor, vptr: array<byte>, maxlen: nat) returns (ret: int)
      requires Valid() && 1 <= maxlen <= vptr.Length && vptr != readBuf
      modifies this, readBuf, fd, vptr
      ensures Valid()
      ensures var o := Line(old(Ahead(fd)), [], maxlen);
        ret == o.ret && Ahead(fd) == o.rest && |o.stored| < vptr.Length && vptr[..] == Filled(old(vptr[..]), o)
    {
      ghost var was, got: seq<byte>, p := vptr[..], [], Ahead(fd);
      ghost var o := Line(p, [], maxlen);
      var n := 1;
      var ptr := 0;
      while n < maxlen
        invariant Valid() && p == Ahead(fd)
        invariant 1 <= n <= maxlen && ptr == |got| == n - 1
        invariant vptr[..] == Storing(was, got)
        invariant Line(p, got, maxlen) == o
      {
        LineNext(p, got, maxlen);
        p := Next(p).rest;
        var rc, c := MyRead(fd);
        if rc == 1 {
          StoreByte(vptr, ptr, c, was, got);
          ptr := ptr + 1;
          got := got + [c];
          if c == NEWLINE { break; }
        } else if rc == 0 {
          StoreByte(vptr, ptr, 0, was, got);
          return n - 1;
        } else {
          return -1;
        }
        n := n + 1;
      }
      StoreByte(vptr, ptr, 0, was, got);
      return n;
    }

    method ReadlineFast(fd: Descriptor, vptr: array<byte>, maxlen: nat) returns (ret: int)
      requires Valid() && 1 <= maxlen <= vptr.Length && vptr != readBuf
      modifies this, readBuf, fd, vptr
      ensures Valid()
      ensures var o := Line(old(Ahead(fd)), [], maxlen);
        ret == o.ret && Ahead(fd) == o.rest && |o.stored| < vptr.Length && vptr[..] == Filled(old(vptr[..]), o)
      ensures var o, was := Line(old(Ahead(fd)), [], maxlen), old(vptr[..]);
        vptr[..] == o.stored + [if ret == -1 then was[|o.stored|] else 0] + was[|o.stored| + 1..]
    {
      NullAfter(vptr[..], Ahead(fd), maxlen);
      ret := TakeLine(fd, vptr, maxlen);
    }

    /**
     readlinebuf: the bytes handed out, if any, stand in the stream right before what the descriptor
     has yet to deliver.  The return value is -1 after a read error.
     */
    method ReadlineBuf(fd: Descriptor) returns (cnt: int, bytes: Option<seq<byte>>)
      requires Valid()
      ensures cnt > 0 ==>
        bytes == Some(Buffered()) && |bytes.value| == cnt && Ahead(fd) == Events(bytes.value) + fd.pending
      ensures cnt <= 0 ==> Ahead(fd) == fd.pending
      ensures bytes == None <==> cnt == 0
    {
      bytes := if readCnt != 0 then Some(Buffered()) else None;
      cnt := readCnt;
    }
  }

  // ----- any number of calls -----

  predicate Fit(maxlens: seq<nat>, n: nat) { forall i | 0 <= i < |maxlens| :: 1 <= maxlens[i] <= n }

  lemma {:induction false} LineFits(p: seq<Event>, got: seq<byte>, maxlen: nat)
    requires |got| + 1 <= maxlen
    ensures |Line(p, got, maxlen).stored| < maxlen
    decreases |p|
  {
    if |got| + 1 < maxlen && p != [] {
      if p[0].Data? && p[0].b != NEWLINE { LineFits(p[1..], got + [p[0].b], maxlen); }
      if p[0] == Eintr { LineFits(p[1..], got, maxlen); }
    }
  }

  /** The return value and the caller's buffer after each of a number of calls into one buffer. */
  ghost function Calls(p: seq<Event>, was: seq<byte>, maxlens: seq<nat>): (log: seq<(int, seq<byte>)>)
    requires Fit(maxlens, |was|)
    ensures |log| == |maxlens|
    decreases |maxlens|
  {
    if maxlens == [] then []
    else
      var o := Line(p, [], maxlens[0]);
      LineFits(p, [], maxlens[0]);
      var now := Filled(was, o);
      [(o.ret, now)] + Calls(o.rest, now, maxlens[1..])
  }

  /** What is left of the descriptor after these calls. */
  ghost function Left(p: seq<Event>, maxlens: seq<nat>): seq<Event>
    decreases |maxlens|
  {
    if maxlens == [] then p else Left(Line(p, [], maxlens[0]).rest, maxlens[1..])
  }

  /** The bytes these calls store, one after the other. */
  function Delivered(p: seq<Event>, maxlens: seq<nat>): seq<byte>
    decreases |maxlens|
  {
    if maxlens == [] then []
    else var o := Line(p, [], maxlens[0]); o.stored + Delivered(o.rest, maxlens[1..])
  }

  /** No byte is lost, doubled or moved over any number of calls. */
  lemma {:induction false} CallsConserve(p: seq<Event>, maxlens: seq<nat>)
    ensures Payload(p) == Delivered(p, maxlens) + Payload(Left(p, maxlens))
    decreases |maxlens|
  {
    if maxlens == [] {
      EmptyLeft(Payload(p));
    } else {
      var o := Line(p, [], maxlens[0]);
      LineConserves(p, [], maxlens[0]);
      var k := |p| - |o.rest|;
      PayloadSplit(p, k);
      EmptyLeft(Payload(p[..k]));
      CallsConserve(o.rest, maxlens[1..]);
      Assoc(o.stored, Delivered(o.rest, maxlens[1..]), Payload(Left(p, maxlens)));
    }
  }

  lemma {:induction false} PayloadSplit(p: seq<Event>, k: nat)
    requires k <= |p|
    ensures Payload(p) == Payload(p[..k]) + Payload(p[k..])
  {
    if k == 0 {
      assert p[0..] == p;
      EmptyLeft(Payload(p));
    } else {
      PayloadSplit(p[1..], k - 1);
      assert p[..k][1..] == p[1..][..k - 1] && p[1..][k - 1..] == p[k..];
      Assoc(PayloadOf(p[0]), Payload(p[1..][..k - 1]), Payload(p[k..]));
    }
  }

  /** A log so far, and the calls still to come. */
  ghost predicate Halfway(log: seq<(int, seq<byte>)>, p: seq<Event>, buf: seq<byte>, maxlens: seq<nat>,
                          q: seq<Event>, was: seq<byte>, all: seq<nat>) {
    && Fit(maxlens, |buf|) && Fit(all, |was|)
    && log + Calls(p, buf, maxlens) == Calls(q, was, all)
    && Left(p, maxlens) == Left(q, all)
  }

  /** One call more in the log. */
  lemma OneCall(log: seq<(int, seq<byte>)>, p: seq<Event>, buf: seq<byte>, maxlens: seq<nat>,
                q: seq<Event>, was: seq<byte>, all: seq<nat>)
    requires Halfway(log, p, buf, maxlens, q, was, all) && maxlens != []
    ensures var o := Line(p, [], maxlens[0]);
      && |o.stored| < |buf|
      && Halfway(log + [(o.ret, Filled(buf, o))], o.rest, Filled(buf, o), maxlens[1..], q, was, all)
  {
    var o := Line(p, [], maxlens[0]);
    LineFits(p, [], maxlens[0]);
    var now := Filled(buf, o);
    assert |now| == |buf|;
    Assoc(log, [(o.ret, now)], Calls(o.rest, now, maxlens[1..]));
  }

  method SlowCalls(fd: Descriptor, vptr: array<byte>, maxlens: seq<nat>) returns (log: seq<(int, seq<byte>)>)
    requires Fit(maxlens, vptr.Length)
    modifies fd, vptr
    ensures log == Calls(old(fd.pending), old(vptr[..]), maxlens) && fd.pending == Left(old(fd.pending), maxlens)
  {
    log := [];
    ghost var q, was := fd.pending, vptr[..];
    EmptyLeft(Calls(q, was, maxlens));
    var i := 0;
    while i < |maxlens|
      invariant 0 <= i <= |maxlens|
      invariant Halfway(log, fd.pending, vptr[..], maxlens[i..], q, was, maxlens)
    {
      OneCall(log, fd.pending, vptr[..], maxlens[i..], q, was, maxlens);
      assert maxlens[i..][1..] == maxlens[i + 1..];
      var ret := ReadlineSlow(fd, vptr, maxlens[i]);
      log := log + [(ret, vptr[..])];
      i := i + 1;
    }
    EmptyRight(log);
  }

  method FastCalls(reader: LineReader, fd: Descriptor, vptr: array<byte>, maxlens: seq<nat>)
    returns (log: seq<(int, seq<byte>)>)
    requires reader.Valid() && vptr != reader.readBuf && Fit(maxlens, vptr.Length)
    modifies reader, reader.readBuf, fd, vptr
    ensures reader.Valid()
    ensures log == Calls(old(reader.Ahead(fd)), old(vptr[..]), maxlens)
    ensures reader.Ahead(fd) == Left(old(reader.Ahead(fd)), maxlens)
  {
    log := [];
    ghost var q, was := reader.Ahead(fd), vptr[..];
    EmptyLeft(Calls(q, was, maxlens));
    var i := 0;
    while i < |maxlens|
      invariant 0 <= i <= |maxlens| && reader.Valid()
      invariant Halfway(log, reader.Ahead(fd), vptr[..], maxlens[i..], q, was, maxlens)
    {
      OneCall(log, reader.Ahead(fd), vptr[..], maxlens[i..], q, was, maxlens);
      assert maxlens[i..][1..] == maxlens[i + 1..];
      var ret := reader.ReadlineFast(fd, vptr, maxlens[i]);
      log := log + [(ret, vptr[..])];
      i := i + 1;
    }
    EmptyRight(log);
  }

  /**
   Any sequence of calls gives the same return values and the same buffers in both versions, however
   either descriptor cuts the stream into reads, and both leave the same stream to read.
   */
  method SideBySide(stream: seq<Event>, size: nat, maxlens: seq<nat>)
    returns (slow: seq<(int, seq<byte>)>, fast: seq<(int, seq<byte>)>, unread: seq<Event>, ahead: seq<Event>)
    requires Fit(maxlens, size)
    ensures slow == fast && |slow| == |maxlens|
    ensures unread == ahead == Left(stream, maxlens)
  {
    var fd := new Descriptor(stream);
    var vptr := new byte[size](_ => 0);
    ghost var blank := vptr[..];
    slow := SlowCalls(fd, vptr, maxlens);
    unread := fd.pending;
    fd := new Descriptor(stream);
    vptr := new byte[size](_ => 0);
    assert vptr[..] == blank;
    var reader := new LineReader();
    fast := FastCalls(reader, fd, vptr, maxlens);
    var cnt, bytes := reader.ReadlineBuf(fd);
    ahead := (if cnt > 0 then Events(bytes.value) else []) + fd.pending;
    EmptyLeft(fd.pending);
  }
}
