/**
 in_cksum and its signed copy in ping: what they compute, on which lengths, and what storing the result
 in a field of the buffer does.

 Memory is a sequence of bytes; the host's byte order says how two bytes make a 16-bit word.
 */
module Checksum {
  import opened Basics
  import opened OnesComplement

  datatype Order = Little | Big

  function WordOf(o: Order, first: byte, second: byte): word {
    var a: int, b: int := first, second;
    if o == Big then a * 256 + b else b * 256 + a
  }

  /** The two bytes of a word as the host stores it. */
  function Stored(o: Order, w: word): (b: seq<byte>)
    ensures |b| == 2
  {
    if o == Big then [w / 256, w % 256] else [w % 256, w / 256]
  }

  /** The 16-bit words of a buffer; an odd last byte is followed by an imaginary zero. */
  function WordsOf(o: Order, data: seq<byte>): (ws: seq<word>)
    ensures |ws| == (|data| + 1) / 2
  {
    seq((|data| + 1) / 2, i requires 0 <= i < (|data| + 1) / 2 =>
      WordOf(o, data[2 * i], if 2 * i + 1 < |data| then data[2 * i + 1] else 0))
  }

  /** The Internet checksum of section 1 of RFC 1071. */
  function Cksum(o: Order, data: seq<byte>): word { Complement(OnesSum(WordsOf(o, data))) }

  // ----- the accumulator and the two folds -----

  const WIDTH: nat := 0x1_0000_0000

  /** The end of the routine: high half onto low half, the carry once more, complement, truncate. */
  function Folded(sum: nat): word {
    var s := sum / 65536 + sum % 65536;
    Complement((s + s / 65536) % 65536)
  }

  /** What an accumulator of 32 bits makes of the words: the sum modulo 2^32, reduced and complemented. */
  function CodeCksum(o: Order, data: seq<byte>): word { Complement(Norm(Wrapped(Sum(WordsOf(o, data))))) }

  function Wrapped(n: nat): nat { n % WIDTH }

  /** Two folds are enough for any 32-bit sum. */
  lemma TwoFolds(sum: nat)
    requires sum < WIDTH
    ensures Folded(sum) == Complement(Norm(sum))
  {
    var h, l := sum / 65536, sum % 65536;
    var s := h + l;
    assert sum == 65535 * h + s;
    if s == 0 {
    } else if s <= 65535 {
      assert s / 65536 == 0 && s % 65536 == s;
      NormUnique(sum, h, s);
    } else if s == 65536 + 65535 {
      assert false;
    } else {
      assert s / 65536 == 1 && (s + 1) % 65536 == s - 65535;
      NormUnique(sum, h + 1, s - 65535);
    }
  }

  lemma NextWord(o: Order, data: seq<byte>, k: nat)
    requires 2 * k < |data|
    ensures var v := WordOf(o, data[2 * k], if 2 * k + 1 < |data| then data[2 * k + 1] else 0);
      Sum(WordsOf(o, data)[..k + 1]) == Sum(WordsOf(o, data)[..k]) + v
  {
    var ws := WordsOf(o, data);
    assert ws[..k + 1] == ws[..k] + [ws[k]];
    SumSnoc(ws[..k], ws[k]);
  }

  /** The accumulator once k words are in it. */
  ghost predicate Accumulated(o: Order, data: seq<byte>, k: nat, sum: nat) {
    k <= |WordsOf(o, data)| && sum == Wrapped(Sum(WordsOf(o, data)[..k]))
  }

  lemma Accumulate(o: Order, data: seq<byte>, k: nat, sum: nat)
    requires 2 * k < |data| && Accumulated(o, data, k, sum)
    ensures var v := WordOf(o, data[2 * k], if 2 * k + 1 < |data| then data[2 * k + 1] else 0);
      Accumulated(o, data, k + 1, Wrapped(sum + v))
  {
    NextWord(o, data, k);
    WrapAdd(Sum(WordsOf(o, data)[..k]), WordOf(o, data[2 * k], if 2 * k + 1 < |data| then data[2 * k + 1] else 0));
  }

  /** The first part of the routine: the words of the buffer, and an odd last byte, into the accumulator. */
  method AddWords(o: Order, addr: array<byte>, len: nat) returns (sum: nat)
    requires len <= addr.Length
    ensures sum == Wrapped(Sum(WordsOf(o, addr[..len])))
  {
    ghost var data: seq<byte>, k: nat := addr[..len], 0;
    var nleft, w := len, 0;
    sum := 0;
    assert WordsOf(o, data)[..0] == [];
    while nleft > 1
      invariant 0 <= nleft && nleft == len - 2 * k && w == 2 * k
      invariant Accumulated(o, data, k, sum)
    {
      assert addr[w] == data[2 * k] && addr[w + 1] == data[2 * k + 1];
      Accumulate(o, data, k, sum);
      sum := Wrapped(sum + WordOf(o, addr[w], addr[w + 1]));
      k := k + 1;
      w := w + 2;
      nleft := nleft - 2;
    }
    if nleft == 1 {
      assert addr[w] == data[2 * k];
      Accumulate(o, data, k, sum);
      sum := Wrapped(sum + WordOf(o, addr[w], 0));
      k := k + 1;
    }
    assert WordsOf(o, data)[..k] == WordsOf(o, data);
  }

  /**
   The last lines of the routine, the same in both copies: two folds bring every carry of a 32-bit sum
   round, so that the answer is the complement of the sum in ones' complement arithmetic.
   */
  method FoldCarries(sum: nat) returns (answer: word)
    requires sum < WIDTH
    ensures answer == Complement(Norm(sum))
  {
    TwoFolds(sum);
    var s := sum / 65536 + sum % 65536;
    s := s + s / 65536;
    answer := Complement(s % 65536);
  }

  method InCksum(o: Order, addr: array<byte>, len: nat) returns (answer: word)
    requires len <= addr.Length
    ensures answer == CodeCksum(o, addr[..len])
  {
    var sum := AddWords(o, addr, len);
    answer := FoldCarries(sum);
  }

  lemma SumSnoc(ws: seq<word>, v: word)
    ensures Sum(ws + [v]) == Sum(ws) + v
  {
    SumConcat(ws, [v]);
    SumOne(v);
  }

  lemma WrapAdd(s: nat, v: word)
    ensures Wrapped(Wrapped(s) + v) == Wrapped(s + v)
  {
  }

  /** Up to 131074 bytes the accumulator does not wrap and the result is the Internet checksum. */
  lemma CodeIsCksum(o: Order, data: seq<byte>)
    requires |data| <= 131074
    ensures Sum(WordsOf(o, data)) < WIDTH
    ensures CodeCksum(o, data) == Cksum(o, data)
  {
    var ws := WordsOf(o, data);
    SumBound(ws);
    assert |ws| <= 65537;
    assert Sum(ws) < WIDTH && Wrapped(Sum(ws)) == Sum(ws);
    OnesSumIsNorm(ws);
  }

  function AllOnes(n: nat): (d: seq<byte>)
    ensures |d| == n
  {
    seq(n, _ => 255)
  }

  lemma {:induction false} AllOnesSum(ws: seq<word>)
    requires forall k | 0 <= k < |ws| :: ws[k] == 65535
    ensures Sum(ws) == 65535 * |ws|
  {
    if ws != [] { AllOnesSum(ws[..|ws| - 1]); }
  }

  /** A buffer of 0xff bytes longer than that wraps the accumulator and gets a wrong checksum. */
  lemma WrapsBeyond(o: Order, n: nat)
    requires 131074 < n < 0x8000_0000
    ensures CodeCksum(o, AllOnes(n)) != Cksum(o, AllOnes(n))
  {
    var ws := WordsOf(o, AllOnes(n));
    var full, odd := n / 2, n % 2;
    var last := if odd == 1 then WordOf(o, 255, 0) else 0;
    AllOnesSum(ws[..full]);
    if odd == 1 {
      assert ws == ws[..full] + [last];
      SumSnoc(ws[..full], last);
    } else {
      assert ws == ws[..full];
    }
    var s := Sum(ws);
    assert s == 65535 * full + last && (last == 0 ==> full >= 65538) && full >= 65537;
    var k, r := s / WIDTH, s % WIDTH;
    assert 1 <= k < 65535;
    OnesSumIsNorm(ws);
    Displaced(s, k, r);
  }

  /** Losing k times 2^32 shifts the residue modulo 65535 by k. */
  lemma Displaced(s: nat, k: nat, r: nat)
    requires s == k * WIDTH + r && 1 <= k < 65535
    ensures Norm(r) != Norm(s)
  {
    NormSplit(s);
    NormSplit(r);
    var q := Rounds(s) - Rounds(r) - 65537 * k;
    assert s - r == k * WIDTH == 65535 * (65537 * k) + k;
    assert Norm(s) - Norm(r) == k - 65535 * q;
  }

  /**
   The exact range: for a length that fits in an int, in_cksum is right on every buffer of that
   length if and only if the length is at most 131074.
   */
  lemma ExactRange(o: Order, n: nat)
    requires n < 0x8000_0000
    ensures (forall data: seq<byte> | |data| == n :: CodeCksum(o, data) == Cksum(o, data)) <==> n <= 131074
  {
    if n <= 131074 {
      forall data: seq<byte> | |data| == n ensures CodeCksum(o, data) == Cksum(o, data) { CodeIsCksum(o, data); }
    } else {
      WrapsBeyond(o, n);
      assert |AllOnes(n)| == n;
    }
  }

  /** The words of two parts, the first of them of even length, are those of the one and then those of the other. */
  lemma WordsConcat(o: Order, a: seq<byte>, b: seq<byte>)
    requires |a| % 2 == 0
    ensures WordsOf(o, a + b) == WordsOf(o, a) + WordsOf(o, b)
  {
    var n := |a| / 2;
    forall i | 0 <= i < (|a + b| + 1) / 2 ensures WordsOf(o, a + b)[i] == (WordsOf(o, a) + WordsOf(o, b))[i] {
      if i < n {
        assert (a + b)[2 * i] == a[2 * i] && (a + b)[2 * i + 1] == a[2 * i + 1];
      } else {
        assert (a + b)[2 * i] == b[2 * (i - n)];
        assert 2 * i + 1 < |a + b| ==> (a + b)[2 * i + 1] == b[2 * (i - n) + 1];
      }
    }
  }

  lemma SumWords(o: Order, a: seq<byte>, b: seq<byte>)
    requires |a| % 2 == 0
    ensures Sum(WordsOf(o, a + b)) == Sum(WordsOf(o, a)) + Sum(WordsOf(o, b))
  {
    WordsConcat(o, a, b);
    SumConcat(WordsOf(o, a), WordsOf(o, b));
  }

  /** An odd buffer is summed as if a zero byte followed it, and so the pad of RFC 1071 changes nothing. */
  lemma OddIsPadded(o: Order, data: seq<byte>)
    requires |data| % 2 == 1
    ensures Cksum(o, data) == Cksum(o, data + [0])
  {
    forall i | 0 <= i < (|data| + 1) / 2 ensures WordsOf(o, data)[i] == WordsOf(o, data + [0])[i] {
      assert (data + [0])[2 * i] == data[2 * i];
      assert (data + [0])[2 * i + 1] == if 2 * i + 1 < |data| then data[2 * i + 1] else 0;
    }
    assert WordsOf(o, data) == WordsOf(o, data + [0]);
  }

  // ----- byte order -----

  lemma SwappedWords(data: seq<byte>)
    ensures WordsOf(Little, data) == SwapAll(WordsOf(Big, data))
  {
    forall i | 0 <= i < (|data| + 1) / 2 ensures WordsOf(Little, data)[i] == Swap(WordsOf(Big, data)[i]) {
      var a, b := data[2 * i], if 2 * i + 1 < |data| then data[2 * i + 1] else 0;
      assert WordOf(Big, a, b) / 256 == a && WordOf(Big, a, b) % 256 == b;
    }
  }

  /** Hosts of either order store the same two checksum bytes for the same buffer. */
  lemma OrderIndependent(data: seq<byte>)
    ensures Cksum(Little, data) == Swap(Cksum(Big, data))
    ensures Stored(Little, Cksum(Little, data)) == Stored(Big, Cksum(Big, data))
  {
    var ws := WordsOf(Big, data);
    SwappedWords(data);
    OnesSumSwap(ws);
    SwapIsShift(OnesSum(ws));
    SwapIsShift(Cksum(Big, data));
    SwapHalves(Cksum(Big, data));
  }

  /** A big-endian host stores words in network order, and either host reads back what it stored. */
  lemma StoredBack(o: Order, w: word)
    ensures Stored(Big, w) == WordBytes(w) && Stored(Little, w) == [WordBytes(w)[1], WordBytes(w)[0]]
    ensures WordOf(o, Stored(o, w)[0], Stored(o, w)[1]) == w
  {
    assert w == (w / 256) * 256 + w % 256;
  }

  lemma SwapHalves(w: word)
    ensures Swap(w) / 256 == w % 256 && Swap(w) % 256 == w / 256
  {
  }

  // ----- storing and verifying -----

  /** data with the bytes of v at offset at. */
  function WithField(o: Order, data: seq<byte>, at: nat, v: word): (r: seq<byte>)
    requires at + 2 <= |data|
    ensures |r| == |data|
  {
    data[..at] + Stored(o, v) + data[at + 2..]
  }

  lemma FieldWords(o: Order, data: seq<byte>, at: nat, v: word)
    requires at + 2 <= |data| && at % 2 == 0
    ensures WordsOf(o, WithField(o, data, at, v)) == WordsOf(o, data)[at / 2 := v]
  {
    var d, k := WithField(o, data, at, v), at / 2;
    assert d[at] == Stored(o, v)[0] && d[at + 1] == Stored(o, v)[1];
    assert v == (v / 256) * 256 + v % 256;
    assert WordOf(o, d[at], d[at + 1]) == v;
    forall i | 0 <= i < (|data| + 1) / 2 && i != k
      ensures WordsOf(o, d)[i] == WordsOf(o, data)[i]
    {
      assert d[2 * i] == data[2 * i];
      assert 2 * i + 1 < |data| ==> d[2 * i + 1] == data[2 * i + 1];
    }
  }

  /** The value that goes into a checksum field: 0xffff in the place of 0 when zero is not allowed. */
  function FieldValue(c: word, avoidZero: bool): word { if avoidZero && c == 0 then 0xffff else c }

  /**
   The field values that make the whole buffer verify are exactly the checksum of the buffer with a
   zero field and, when that is 0, its other form 0xffff.
   */
  lemma VerifiesExactly(o: Order, data: seq<byte>, at: nat, v: word)
    requires at + 2 <= |data| && at % 2 == 0
    ensures var c := Cksum(o, WithField(o, data, at, 0));
      Cksum(o, WithField(o, data, at, v)) == 0 <==> v == c || (c == 0 && v == 0xffff)
  {
    var ws, k := WordsOf(o, data), at / 2;
    FieldWords(o, data, at, 0);
    FieldWords(o, data, at, v);
    UpdatedSum(ws, k, v);
  }

  lemma UpdatedSum(ws: seq<word>, k: nat, v: word)
    requires k < |ws|
    ensures OnesSum(ws[k := v]) == AddRound(OnesSum(ws[k := 0]), v)
  {
    SumUpdate(ws, k, 0);
    SumUpdate(ws, k, v);
    OnesSumIsNorm(ws[k := 0]);
    OnesSumIsNorm(ws[k := v]);
    NormAdd(Sum(ws[k := 0]), v);
  }

  /** Storing the checksum, or 0xffff in the place of 0, makes the whole buffer verify. */
  lemma StoredVerifies(o: Order, data: seq<byte>, at: nat, avoidZero: bool)
    requires at + 2 <= |data| && at % 2 == 0
    ensures var c := Cksum(o, WithField(o, data, at, 0));
      Cksum(o, WithField(o, data, at, FieldValue(c, avoidZero))) == 0
  {
    VerifiesExactly(o, data, at, FieldValue(Cksum(o, WithField(o, data, at, 0)), avoidZero));
  }

  // ----- the copy in ping, with a signed accumulator -----

  const INT_MAX: nat := 0x7fff_ffff

  /** The most that pinger passes: the ICMP header and MAXPACKET bytes of data. */
  const PING_MAX: nat := (65536 - 60 - 8) + 8

  /** No partial sum of such a buffer overflows an int. */
  lemma PartialSumFits(o: Order, data: seq<byte>, k: nat)
    requires |data| <= PING_MAX && k <= |WordsOf(o, data)|
    ensures Sum(WordsOf(o, data)[..k]) <= INT_MAX
  {
    SumBound(WordsOf(o, data)[..k]);
  }

  method AddWordsSigned(o: Order, addr: array<byte>, len: nat) returns (sum: nat)
    requires len <= addr.Length && len <= PING_MAX
    ensures sum == Sum(WordsOf(o, addr[..len])) <= INT_MAX
  {
    ghost var data: seq<byte>, k: nat := addr[..len], 0;
    var nleft, w := len, 0;
    sum := 0;
    assert WordsOf(o, data)[..0] == [];
    while nleft > 1
      invariant 0 <= nleft && nleft == len - 2 * k && w == 2 * k
      invariant sum == Sum(WordsOf(o, data)[..k]) <= INT_MAX
    {
      var v := WordOf(o, addr[w], addr[w + 1]);
      assert addr[w] == data[2 * k] && addr[w + 1] == data[2 * k + 1];
      NextWord(o, data, k);
      PartialSumFits(o, data, k + 1);
      sum, k := sum + v, k + 1;
      w := w + 2;
      nleft := nleft - 2;
    }
    if nleft == 1 {
      var v := WordOf(o, addr[w], 0);
      assert addr[w] == data[2 * k];
      NextWord(o, data, k);
      PartialSumFits(o, data, k + 1);
      sum, k := sum + v, k + 1;
    }
    assert WordsOf(o, data)[..k] == WordsOf(o, data);
  }

  lemma SumIsCksum(o: Order, data: seq<byte>, sum: nat)
    requires sum == Sum(WordsOf(o, data)) < WIDTH
    ensures Complement(Norm(sum)) == Cksum(o, data)
  {
    OnesSumIsNorm(WordsOf(o, data));
  }

  /** The int accumulator never exceeds INT_MAX, and the result is the Internet checksum. */
  method InCksumSigned(o: Order, addr: array<byte>, len: nat) returns (answer: word)
    requires len <= addr.Length && len <= PING_MAX
    ensures answer == Cksum(o, addr[..len])
  {
    var sum := AddWordsSigned(o, addr, len);
    answer := FoldCarries(sum);
    SumIsCksum(o, addr[..len], sum);
  }
}
