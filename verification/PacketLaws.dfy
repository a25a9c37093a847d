/**
 What the packets are, said of their bytes: ping's message, the pseudo-header of RFC 768, and the packet of
 udp_write as it arrives.
 */
module PacketLaws {
  import opened Basics
  import opened Checksum
  import opened OnesComplement
  import opened Packets

  /** ping's message byte by byte: type 8, code 0, identifier, sequence number, and the time over the pattern. */
  lemma EchoInPlainTerms(o: Order, id: word, count: word, datalen: nat, tv: seq<byte>, v: word)
    ensures var e := WithField(o, EchoRequest(o, id, count, datalen, tv), 2, v);
      && |e| == 8 + datalen && e[0] == 8 && e[1] == 0 && WordOf(o, e[2], e[3]) == v
      && WordOf(o, e[4], e[5]) == id && WordOf(o, e[6], e[7]) == count
      && forall k | 8 <= k < 8 + datalen :: e[k] == if k - 8 < |tv| then tv[k - 8] else 0xa5
  {
    EchoBytes(o, id, count, datalen, tv);
    StoredBack(o, v);
    StoredBack(o, id);
    StoredBack(o, count);
  }

  // ----- the pseudo-header -----

  function SumOf(o: Order, s: seq<byte>): nat { Sum(WordsOf(o, s)) }

  lemma SumPair(o: Order, a: seq<byte>, b: seq<byte>)
    requires |a| % 2 == 0
    ensures SumOf(o, a + b) == SumOf(o, a) + SumOf(o, b)
  {
    SumWords(o, a, b);
  }

  /** Two parts, and what follows them. */
  lemma SumTriple(o: Order, a: seq<byte>, b: seq<byte>, c: seq<byte>)
    requires |a| % 2 == 0 && |b| % 2 == 0
    ensures SumOf(o, a + (b + c)) == SumOf(o, a) + SumOf(o, b) + SumOf(o, c)
  {
    SumPair(o, a, b + c);
    SumPair(o, b, c);
  }

  function FiveParts(a: seq<byte>, b: seq<byte>, c: seq<byte>, d: seq<byte>, e: seq<byte>): seq<byte> {
    a + (b + (c + (d + e)))
  }

  lemma SumParts(o: Order, a: seq<byte>, b: seq<byte>, c: seq<byte>, d: seq<byte>, e: seq<byte>)
    requires |a| % 2 == 0 && |b| % 2 == 0 && |c| % 2 == 0 && |d| % 2 == 0
    ensures SumOf(o, FiveParts(a, b, c, d, e)) == SumOf(o, a) + SumOf(o, b) + SumOf(o, c) + SumOf(o, d) + SumOf(o, e)
  {
    SumTriple(o, a, b, c + (d + e));
    SumTriple(o, c, d, e);
  }

  lemma SumBlank(o: Order)
    ensures SumOf(o, Zeros(8)) == 0
  {
    assert WordsOf(o, Zeros(8)) == [0, 0] + [0, 0] && [0, 0] == [0] + [0];
    SumConcat([0, 0], [0, 0]);
    SumConcat([0], [0]);
    SumOne(0);
  }

  lemma SameSum(o: Order, s: seq<byte>, t: seq<byte>)
    requires SumOf(o, s) == SumOf(o, t)
    ensures Cksum(o, s) == Cksum(o, t)
  {
    OnesSumIsNorm(WordsOf(o, s));
    OnesSumIsNorm(WordsOf(o, t));
  }

  lemma BlankFirst(o: Order, s: seq<byte>)
    ensures Cksum(o, Zeros(8) + s) == Cksum(o, s)
  {
    SumBlank(o);
    SumPair(o, Zeros(8), s);
    SameSum(o, Zeros(8) + s, s);
  }

  /** The parts in the one order and in the other. */
  lemma Reordered(o: Order, src: seq<byte>, dst: seq<byte>, protocol: seq<byte>, length: seq<byte>, udp: seq<byte>)
    requires |src| % 2 == 0 && |dst| % 2 == 0 && |protocol| % 2 == 0 && |length| % 2 == 0
    ensures Cksum(o, FiveParts(protocol, length, src, dst, udp)) == Cksum(o, FiveParts(src, dst, protocol, length, udp))
  {
    SumParts(o, protocol, length, src, dst, udp);
    SumParts(o, src, dst, protocol, length, udp);
    SameSum(o, FiveParts(protocol, length, src, dst, udp), FiveParts(src, dst, protocol, length, udp));
  }

  lemma PseudoParts(p: seq<byte>)
    requires |p| >= 28
    ensures Pseudo(p) == Zeros(8) + FiveParts([0, 17], p[24..26], p[12..16], p[16..20], p[20..])
  {
  }

  /**
   The order of RFC 768: the two addresses, a zero byte and the protocol, the length, and then the datagram.
   The example lays it out in the place of the IP header instead, and the checksum is the same.
   */
  lemma PseudoIsStandard(o: Order, p: seq<byte>)
    requires |p| >= 28
    ensures Cksum(o, Pseudo(p)) == Cksum(o, FiveParts(p[12..16], p[16..20], [0, 17], p[24..26], p[20..]))
  {
    PseudoParts(p);
    BlankFirst(o, FiveParts([0, 17], p[24..26], p[12..16], p[16..20], p[20..]));
    Reordered(o, p[12..16], p[16..20], [0, 17], p[24..26], p[20..]);
  }

  // ----- the packet as it arrives -----

  /** The packet once the total length stands in it. */
  function Measured(p: seq<byte>): (q: seq<byte>)
    requires |p| >= 28
    ensures |q| == |p|
  {
    p[..2] + WordBytes(|p| % 65536) + p[4..]
  }

  /** What the kernel sends of a packet written with IP_HDRINCL: the total length and the header checksum are set. */
  function Completed(o: Order, p: seq<byte>): (q: seq<byte>)
    requires |p| >= 28
    ensures |q| == |p|
  {
    WithField(o, Measured(p), 10, Cksum(o, WithField(o, Measured(p)[..20], 10, 0)))
  }

  lemma MeasuredFits(o: Order, p: seq<byte>, networkOrder: bool)
    requires |p| >= 28 && p[..9] == IpHead(o, |p|, networkOrder)
    ensures var q := Measured(p);
      HeaderFits(q) && (q[0] % 16) * 4 == 20 && q[9..] == p[9..] && (networkOrder ==> q == p)
  {
    IpFields(o, p, |p|, networkOrder);
    assert Measured(p)[0] == 0x45;
    assert p == p[..2] + p[2..4] + p[4..];
  }

  lemma CompletedKeeps(o: Order, p: seq<byte>)
    requires |p| >= 28
    ensures Completed(o, p)[12..] == Measured(p)[12..]
  {
  }

  /** What udp_write writes is, when it arrives, a packet that udp_check accepts. */
  lemma WrittenIsAccepted(o: Order, p: seq<byte>, zerosum: bool, networkOrder: bool)
    requires Written(o, p, zerosum, networkOrder)
    ensures var q := Completed(o, p);
      HeaderFits(q) && (q[0] % 16) * 4 == 20 && Cksum(o, q[..20]) == 0 && q[9] == IPPROTO_UDP && q[12..] == p[12..]
  {
    var m := Measured(p);
    MeasuredFits(o, p, networkOrder);
    SentHeaderAccepted(o, m);
    CompletedKeeps(o, p);
    assert m[9..][0] == p[9..][0];
    assert m[12..] == m[9..][3..] && p[12..] == p[9..][3..];
  }
}
