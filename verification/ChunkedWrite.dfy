/** dowrite of sock/write.c: a buffer is cut into at most 16 chunks, which are written one by one or by writev. */
module ChunkedWrite {
  import opened Basics

  const UIO_MAXIOV: nat := 16
  const INT_LIMIT: nat := 0x8000_0000

  /** A size_t stored in an int. */
  function ToInt(n: nat): (i: int)
    ensures i < INT_LIMIT && (n < INT_LIMIT ==> i == n)
  {
    var r := n % (2 * INT_LIMIT);
    if r < INT_LIMIT then r else r - 2 * INT_LIMIT
  }

  function ChunkSize(nbytes: nat): int {
    var c := ToInt(nbytes / UIO_MAXIOV);
    if c <= 0 then 1 else if nbytes % UIO_MAXIOV != 0 then c + 1 else c
  }

  datatype Iov = Iov(base: int, len: int)

  function Cut(nleft: int, chunksize: int): int { if nleft >= chunksize then chunksize else nleft }

  /** The chunks the loop makes of nleft bytes at base, in at most room steps. */
  function Chop(base: int, nleft: int, chunksize: int, room: nat): (chunks: seq<Iov>)
    ensures |chunks| <= room
    decreases room
  {
    if room == 0 then []
    else
      var n := Cut(nleft, chunksize);
      [Iov(base, n)] + (if nleft - n == 0 then [] else Chop(base + n, nleft - n, chunksize, room - 1))
  }

  /** What the chunks leave over. */
  function LeftOver(nleft: int, chunksize: int, room: nat): int
    decreases room
  {
    if room == 0 then nleft
    else
      var n := Cut(nleft, chunksize);
      if nleft - n == 0 then 0 else LeftOver(nleft - n, chunksize, room - 1)
  }

  function Chunks(nbytes: nat): seq<Iov> { Chop(0, ToInt(nbytes), ChunkSize(nbytes), UIO_MAXIOV) }

  function TotalLength(chunks: seq<Iov>): int {
    if chunks == [] then 0 else chunks[0].len + TotalLength(chunks[1..])
  }

  /** Each chunk begins where the one before it ends. */
  predicate Adjacent(base: int, chunks: seq<Iov>)
    decreases |chunks|
  {
    chunks == [] || (chunks[0].base == base && Adjacent(base + chunks[0].len, chunks[1..]))
  }

  lemma {:induction false} ChopAdjacent(base: int, nleft: int, chunksize: int, room: nat)
    ensures Adjacent(base, Chop(base, nleft, chunksize, room))
    ensures TotalLength(Chop(base, nleft, chunksize, room)) == nleft - LeftOver(nleft, chunksize, room)
    decreases room
  {
    if room > 0 {
      var n := Cut(nleft, chunksize);
      if nleft - n != 0 { ChopAdjacent(base + n, nleft - n, chunksize, room - 1); }
    }
  }

  predicate AllWithin(chunks: seq<Iov>, size: int) { forall k | 0 <= k < |chunks| :: 0 <= chunks[k].len <= size }

  /** No chunk is longer than its size. */
  lemma {:induction false} ChopWithin(base: int, nleft: nat, chunksize: nat, room: nat)
    ensures AllWithin(Chop(base, nleft, chunksize, room), chunksize)
    decreases room
  {
    var n := Cut(nleft, chunksize);
    if room > 0 && nleft - n != 0 { ChopWithin(base + n, nleft - n, chunksize, room - 1); }
  }

  /** Chunks of a positive size use up as many bytes as fit into the room. */
  lemma {:induction false} ChopCovers(nleft: int, chunksize: int, room: nat)
    requires 0 <= nleft <= chunksize * room && chunksize > 0 && room > 0
    ensures LeftOver(nleft, chunksize, room) == 0
    decreases room
  {
    var n := Cut(nleft, chunksize);
    if nleft - n != 0 {
      assert chunksize * room == chunksize * (room - 1) + chunksize;
      assert room == 1 ==> chunksize * (room - 1) == 0;
      ChopCovers(nleft - n, chunksize, room - 1);
    }
  }

  lemma SixteenSuffice(nbytes: nat)
    requires nbytes < INT_LIMIT
    ensures 0 < ChunkSize(nbytes) && nbytes <= ChunkSize(nbytes) * UIO_MAXIOV
  {
  }

  /** The loop never runs out of its 16 entries, and its chunks make up the buffer. */
  predicate CutsWell(nbytes: nat) {
    && LeftOver(ToInt(nbytes), ChunkSize(nbytes), UIO_MAXIOV) == 0
    && 1 <= |Chunks(nbytes)| <= UIO_MAXIOV && TotalLength(Chunks(nbytes)) == nbytes
    && Adjacent(0, Chunks(nbytes)) && forall k | 0 <= k < |Chunks(nbytes)| :: Chunks(nbytes)[k].len >= 0
  }

  /** It does so for every size that fits the ints it counts with, and for no other. */
  lemma CutsWellExactly(nbytes: nat)
    ensures CutsWell(nbytes) <==> nbytes < INT_LIMIT
  {
    ChopAdjacent(0, ToInt(nbytes), ChunkSize(nbytes), UIO_MAXIOV);
    if nbytes < INT_LIMIT {
      SixteenSuffice(nbytes);
      ChopCovers(nbytes, ChunkSize(nbytes), UIO_MAXIOV);
      ChopWithin(0, nbytes, ChunkSize(nbytes), UIO_MAXIOV);
    }
  }

  /** Chunk k starts k sizes into the buffer; all are of that size but for the last, which has the rest. */
  lemma {:induction false} ChopAt(base: int, nleft: nat, chunksize: nat, room: nat, k: nat)
    requires chunksize > 0 && k < |Chop(base, nleft, chunksize, room)|
    ensures Chop(base, nleft, chunksize, room)[k] == Iov(base + k * chunksize, Min(chunksize, nleft - k * chunksize))
    ensures k < |Chop(base, nleft, chunksize, room)| - 1 ==> (k + 1) * chunksize < nleft
    decreases room
  {
    var n := Cut(nleft, chunksize);
    if k > 0 {
      OneMore(k - 1, chunksize);
      ChopAt(base + n, nleft - n, chunksize, room - 1, k - 1);
    }
    OneMore(k, chunksize);
  }

  lemma OneMore(k: nat, size: nat)
    ensures (k + 1) * size == k * size + size
  {
  }

  /** The size is a sixteenth of the buffer, rounded up, and at least one byte. */
  lemma SizeIsASixteenth(nbytes: nat)
    requires nbytes < INT_LIMIT
    ensures ChunkSize(nbytes) == Max(1, (nbytes + 15) / 16)
  {
  }

  lemma ShortOfFull(nleft: nat, size: nat, k: nat)
    requires (k + 1) * size < nleft
    ensures Min(size, nleft - k * size) == size
  {
    OneMore(k, size);
  }

  /** The chunks one by one. */
  lemma ChunksInPlainTerms(nbytes: nat, k: nat)
    requires nbytes < INT_LIMIT && k < |Chunks(nbytes)|
    ensures var size := ChunkSize(nbytes);
      && Chunks(nbytes)[k] == Iov(k * size, Min(size, nbytes - k * size))
      && (k < |Chunks(nbytes)| - 1 ==> Chunks(nbytes)[k].len == size)
  {
    SixteenSuffice(nbytes);
    ChopAt(0, nbytes, ChunkSize(nbytes), UIO_MAXIOV, k);
    if k < |Chunks(nbytes)| - 1 { ShortOfFull(nbytes, ChunkSize(nbytes), k); }
  }

  // ----- writing the chunks -----

  /** What dowrite returns, and how many bytes the writes took. */
  datatype Outcome = Outcome(ret: int, taken: int)

  /** The writes of some chunks, when write number k returns results[k]; the first partial one ends them. */
  function WriteAll(chunks: seq<Iov>, results: seq<int>, done: int): Outcome
    requires |results| >= |chunks|
  {
    if chunks == [] then Outcome(done, done)
    else if results[0] != chunks[0].len then Outcome(-1, done + Max(results[0], 0))
    else WriteAll(chunks[1..], results[1..], done + results[0])
  }

  /** A write returns an error or takes no more than it is given. */
  predicate Legal(chunks: seq<Iov>, results: seq<int>) {
    |results| >= |chunks| && forall k | 0 <= k < |chunks| :: -1 <= results[k] <= chunks[k].len
  }

  predicate AllComplete(chunks: seq<Iov>, results: seq<int>)
    requires |results| >= |chunks|
  {
    forall k | 0 <= k < |chunks| :: results[k] == chunks[k].len
  }

  /** The return value is the number of bytes taken when every write was complete, and -1 otherwise. */
  lemma {:induction false} WriteOutcome(chunks: seq<Iov>, results: seq<int>, done: nat)
    requires Legal(chunks, results) && forall k | 0 <= k < |chunks| :: chunks[k].len >= 0
    ensures var o := WriteAll(chunks, results, done);
      && done <= o.taken <= done + TotalLength(chunks)
      && o.ret == (if AllComplete(chunks, results) then done + TotalLength(chunks) else -1)
      && (o.ret != -1 ==> o.taken == o.ret)
    decreases |chunks|
  {
    if chunks != [] {
      LengthNotNegative(chunks[1..]);
      if results[0] == chunks[0].len {
        WriteOutcome(chunks[1..], results[1..], done + results[0]);
        assert AllComplete(chunks, results) <==> AllComplete(chunks[1..], results[1..]) by {
          assert forall k | 1 <= k < |chunks| :: chunks[k] == chunks[1..][k - 1] && results[k] == results[1..][k - 1];
        }
      }
    }
  }

  lemma {:induction false} LengthNotNegative(chunks: seq<Iov>)
    requires forall k | 0 <= k < |chunks| :: chunks[k].len >= 0
    ensures TotalLength(chunks) >= 0
  {
    if chunks != [] { LengthNotNegative(chunks[1..]); }
  }

  /** The bytes of some chunks of a buffer, one after the other. */
  function Bytes(buf: seq<byte>, chunks: seq<Iov>): seq<byte>
    requires forall k | 0 <= k < |chunks| :: 0 <= chunks[k].base <= chunks[k].base + chunks[k].len <= |buf|
  {
    if chunks == [] then []
    else buf[chunks[0].base..chunks[0].base + chunks[0].len] + Bytes(buf, chunks[1..])
  }

  lemma {:induction false} AdjacentBytes(buf: seq<byte>, base: nat, chunks: seq<Iov>)
    requires Adjacent(base, chunks) && base + TotalLength(chunks) == |buf|
    requires forall k | 0 <= k < |chunks| :: chunks[k].len >= 0
    ensures forall k | 0 <= k < |chunks| :: 0 <= chunks[k].base <= chunks[k].base + chunks[k].len <= |buf|
    ensures Bytes(buf, chunks) == buf[base..]
    decreases |chunks|
  {
    if chunks != [] {
      var next := base + chunks[0].len;
      LengthNotNegative(chunks[1..]);
      AdjacentBytes(buf, next, chunks[1..]);
      assert forall k | 1 <= k < |chunks| :: chunks[k] == chunks[1..][k - 1];
      assert buf[base..next] + buf[next..] == buf[base..];
    }
  }

  /** The chunks put together are the buffer. */
  lemma ChunksMakeTheBuffer(buf: seq<byte>)
    requires |buf| < INT_LIMIT
    ensures forall k | 0 <= k < |Chunks(|buf|)| ::
      0 <= Chunks(|buf|)[k].base <= Chunks(|buf|)[k].base + Chunks(|buf|)[k].len <= |buf|
    ensures Bytes(buf, Chunks(|buf|)) == buf
  {
    CutsWellExactly(|buf|);
    AdjacentBytes(buf, 0, Chunks(|buf|));
    assert buf[0..] == buf;
  }

  // ----- the program -----

  /** The loop that fills the entries, between two turns: those done, and what it makes of the rest. */
  ghost predicate Midway(done: seq<Iov>, ptr: int, nleft: int, chunksize: int, room: nat, all: seq<Iov>, over: int) {
    done + Chop(ptr, nleft, chunksize, room) == all && LeftOver(nleft, chunksize, room) == over
  }

  lemma LastTurn(done: seq<Iov>, ptr: int, nleft: int, chunksize: int, room: nat, all: seq<Iov>, over: int)
    requires Midway(done, ptr, nleft, chunksize, room, all, over) && room > 0 && nleft - Cut(nleft, chunksize) == 0
    ensures done + [Iov(ptr, Cut(nleft, chunksize))] == all && over == 0
  {
    EmptyRight([Iov(ptr, Cut(nleft, chunksize))]);
  }

  lemma NextTurn(done: seq<Iov>, ptr: int, nleft: int, chunksize: int, room: nat, all: seq<Iov>, over: int)
    requires Midway(done, ptr, nleft, chunksize, room, all, over) && room > 0 && nleft - Cut(nleft, chunksize) != 0
    ensures var n := Cut(nleft, chunksize);
      Midway(done + [Iov(ptr, n)], ptr + n, nleft - n, chunksize, room - 1, all, over)
  {
    var n := Cut(nleft, chunksize);
    Assoc(done, [Iov(ptr, n)], Chop(ptr + n, nleft - n, chunksize, room - 1));
  }

  /** One entry set (sock/write.c:41-43). */
  method SetEntry(iov: array<Iov>, i: nat, ptr: int, nleft: int, chunksize: int) returns (n: int)
    requires i < iov.Length
    modifies iov
    ensures n == Cut(nleft, chunksize) && iov[..i + 1] == old(iov[..i]) + [Iov(ptr, n)]
  {
    n := Cut(nleft, chunksize);
    iov[i] := Iov(ptr, n);
  }

  /** The loop that fills the entries (sock/write.c:38-50), and whether it ran out of them. */
  method Fill(iov: array<Iov>, nbytes: int, chunksize: int, ghost all: seq<Iov>, ghost over: int) returns (i: nat)
    requires iov.Length > 0 && Midway([], 0, nbytes, chunksize, iov.Length, all, over)
    modifies iov
    ensures i <= iov.Length && (if i == iov.Length then over != 0 else over == 0 && iov[..i + 1] == all)
  {
    var ptr, nleft := 0, nbytes;
    i := 0;
    ghost var done: seq<Iov> := [];
    while i < iov.Length
      invariant i <= iov.Length && (i > 0 ==> nleft != 0) && iov[..i] == done
      invariant Midway(done, ptr, nleft, chunksize, iov.Length - i, all, over)
    {
      ghost var room := iov.Length - i;
      var n := SetEntry(iov, i, ptr, nleft, chunksize);
      if nleft - n == 0 {
        LastTurn(done, ptr, nleft, chunksize, room, all, over);
        return;
      }
      NextTurn(done, ptr, nleft, chunksize, room, all, over);
      done := done + [Iov(ptr, n)];
      ptr := ptr + n;
      nleft := nleft - n;
      i := i + 1;
    }
  }

  /** The size of a chunk (sock/write.c:32-36). */
  method SizeOfChunks(nbytes: nat) returns (chunksize: int)
    ensures chunksize == ChunkSize(nbytes)
  {
    chunksize := ToInt(nbytes / UIO_MAXIOV);
    if chunksize <= 0 {
      chunksize := 1;
    } else if nbytes % UIO_MAXIOV != 0 {
      chunksize := chunksize + 1;
    }
  }

  /** The entries filled (sock/write.c:32-50). */
  method FillIov(nbytes: nat) returns (iov: array<Iov>, i: nat)
    ensures fresh(iov) && iov.Length == UIO_MAXIOV >= i
    ensures i == UIO_MAXIOV <==> LeftOver(ToInt(nbytes), ChunkSize(nbytes), UIO_MAXIOV) != 0
    ensures i < UIO_MAXIOV ==> iov[..i + 1] == Chunks(nbytes)
  {
    iov := new Iov[UIO_MAXIOV](_ => Iov(0, 0));
    var chunksize := SizeOfChunks(nbytes);
    EmptyLeft(Chunks(nbytes));
    i := Fill(iov, ToInt(nbytes), chunksize, Chunks(nbytes), LeftOver(ToInt(nbytes), chunksize, UIO_MAXIOV));
  }

  /** The chunks written in turn (sock/write.c:57-64); results[k] is what write number k returns. */
  method WriteChunks(iov: array<Iov>, i: nat, results: seq<int>) returns (ret: int, ghost taken: int)
    requires i < iov.Length && |results| >= i + 1
    ensures ret == WriteAll(iov[..i + 1], results, 0).ret && taken == WriteAll(iov[..i + 1], results, 0).taken
  {
    var n, ntotal := 0, 0;
    ghost var chunks := iov[..i + 1];
    while n <= i
      invariant 0 <= n <= i + 1
      invariant WriteAll(chunks[n..], results[n..], ntotal) == WriteAll(chunks, results, 0)
    {
      assert chunks[n..][1..] == chunks[n + 1..] && results[n..][1..] == results[n + 1..];
      var nwritten := results[n];
      if nwritten != iov[n].len { return -1, ntotal + Max(nwritten, 0); }
      ntotal := ntotal + nwritten;
      n := n + 1;
    }
    return ntotal, ntotal;
  }

  datatype Returned = Exit | Value(n: int)

  /**
   The whole of dowrite, for every size: whole is what the one write or writev of the other modes
   returns.  The exit is taken exactly when the 16 entries run out, which no size below 2^31 does; and
   the chunked writes of such a size return it if each of them was complete, and -1 otherwise.
   */
  method DoWrite(nbytes: nat, chunkwrite: bool, usewritev: bool, whole: int, results: seq<int>) returns (r: Returned)
    requires chunkwrite && !usewritev ==> |results| >= |Chunks(nbytes)|
    ensures r == if !chunkwrite && !usewritev then Value(whole)
                 else if LeftOver(ToInt(nbytes), ChunkSize(nbytes), UIO_MAXIOV) != 0 then Exit
                 else if usewritev then Value(whole) else Value(WriteAll(Chunks(nbytes), results, 0).ret)
    ensures nbytes < INT_LIMIT ==> r != Exit
    ensures nbytes < INT_LIMIT && chunkwrite && !usewritev && Legal(Chunks(nbytes), results) ==>
      r == Value(if AllComplete(Chunks(nbytes), results) then nbytes else -1)
  {
    if !chunkwrite && !usewritev { return Value(whole); }
    CutsWellExactly(nbytes);
    var iov, i := FillIov(nbytes);
    if i == UIO_MAXIOV { return Exit; }
    if usewritev { return Value(whole); }
    if nbytes < INT_LIMIT && Legal(Chunks(nbytes), results) { WriteOutcome(Chunks(nbytes), results, 0); }
    var n, taken := WriteChunks(iov, i, results);
    return Value(n);
  }
}
