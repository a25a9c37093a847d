/** The packet routines that store or test a checksum: ping's send_v4 and the UDP checksum example. */
module Packets {
  import opened Basics
  import opened Checksum

  const ICMP_ECHO: byte := 8
  const IPPROTO_UDP: byte := 17
  const TTL_OUT: byte := 64

  /** Stores a 16-bit field in host order. */
  method StoreField(o: Order, buf: array<byte>, at: nat, v: word)
    requires at + 2 <= buf.Length
    modifies buf
    ensures buf[at] == Stored(o, v)[0] && buf[at + 1] == Stored(o, v)[1]
    ensures forall k | 0 <= k < buf.Length && !(at <= k < at + 2) :: buf[k] == old(buf[k])
  {
    var b := Stored(o, v);
    buf[at] := b[0];
    buf[at + 1] := b[1];
  }

  lemma FieldPrefix(o: Order, data: seq<byte>, at: nat, v: word, len: nat)
    requires at + 2 <= len <= |data|
    ensures WithField(o, data, at, v)[..len] == WithField(o, data[..len], at, v)
  {
  }

  method StoreBytes(buf: array<byte>, at: nat, bytes: seq<byte>)
    requires at + |bytes| <= buf.Length
    modifies buf
    ensures forall k | at <= k < at + |bytes| :: buf[k] == bytes[k - at]
    ensures forall k | 0 <= k < buf.Length && !(at <= k < at + |bytes|) :: buf[k] == old(buf[k])
  {
    forall k | 0 <= k < |bytes| { buf[at + k] := bytes[k]; }
  }

  /** A buffer that holds v at the field and elsewhere what data holds. */
  lemma IsWithField(o: Order, now: seq<byte>, data: seq<byte>, at: nat, v: word)
    requires at + 2 <= |data| == |now|
    requires now[at] == Stored(o, v)[0] && now[at + 1] == Stored(o, v)[1]
    requires forall k | 0 <= k < |data| && !(at <= k < at + 2) :: now[k] == data[k]
    ensures now == WithField(o, data, at, v)
  {
  }

  /** Zeroes the field, computes the checksum of the first len bytes and stores it; up to 131074 bytes then verify. */
  method SetChecksum(o: Order, buf: array<byte>, at: nat, len: nat, avoidZero: bool)
    returns (v: word)
    requires at % 2 == 0 && at + 2 <= len <= buf.Length
    modifies buf
    ensures v == FieldValue(CodeCksum(o, WithField(o, old(buf[..len]), at, 0)), avoidZero)
    ensures len <= 131074 ==> Cksum(o, buf[..len]) == 0
    ensures buf[at] == Stored(o, v)[0] && buf[at + 1] == Stored(o, v)[1] && (avoidZero ==> v != 0)
    ensures forall k | 0 <= k < buf.Length && !(at <= k < at + 2) :: buf[k] == old(buf[k])
  {
    ghost var data: seq<byte> := buf[..len];
    StoreField(o, buf, at, 0);
    IsWithField(o, buf[..len], data, at, 0);
    if len <= 131074 { CodeIsCksum(o, buf[..len]); }
    var c := InCksum(o, buf, len);
    v := FieldValue(c, avoidZero);
    StoreField(o, buf, at, v);
    IsWithField(o, buf[..len], data, at, v);
    StoredVerifies(o, data, at, avoidZero);
  }

  /** The echo request before its checksum: header, pattern, and the time over the start of the data. */
  function EchoRequest(o: Order, id: word, count: word, datalen: nat, tv: seq<byte>): seq<byte> {
    [ICMP_ECHO, 0, 0, 0] + Stored(o, id) + Stored(o, count) +
    (if |tv| <= datalen then tv + seq(datalen - |tv|, _ => 0xa5) else tv[..datalen])
  }

  /** The message but for its checksum, laid out over the send buffer. */
  method FillEcho(o: Order, sendbuf: array<byte>, datalen: nat, id: word, count: word, tv: seq<byte>)
    requires 8 + datalen <= sendbuf.Length && 8 + |tv| <= sendbuf.Length
    modifies sendbuf
    ensures var e := EchoRequest(o, id, count, datalen, tv);
      |e| == 8 + datalen && forall k | 0 <= k < |e| && !(2 <= k < 4) :: sendbuf[k] == e[k]
  {
    sendbuf[0], sendbuf[1] := ICMP_ECHO, 0;
    StoreField(o, sendbuf, 4, id);
    StoreField(o, sendbuf, 6, count);
    forall k | 8 <= k < 8 + datalen { sendbuf[k] := 0xa5; }
    StoreBytes(sendbuf, 8, tv);
    EchoBytes(o, id, count, datalen, tv);
  }

  /** send_v4: the message that goes out is the echo request, and a receiver's check of it succeeds. */
  method SendV4(o: Order, sendbuf: array<byte>, datalen: nat, id: word, count: word, tv: seq<byte>)
    returns (len: nat, ghost v: word)
    requires sendbuf.Length == 1500 && 8 + datalen <= 1500 && 8 + |tv| <= 1500
    modifies sendbuf
    ensures len == 8 + datalen && Cksum(o, sendbuf[..len]) == 0
    ensures sendbuf[..len] == WithField(o, EchoRequest(o, id, count, datalen, tv), 2, v)
  {
    FillEcho(o, sendbuf, datalen, id, count, tv);
    len := 8 + datalen;
    var stored := SetChecksum(o, sendbuf, 2, len, false);
    v := stored;
    IsWithField(o, sendbuf[..len], EchoRequest(o, id, count, datalen, tv), 2, v);
  }

  lemma EchoBytes(o: Order, id: word, count: word, datalen: nat, tv: seq<byte>)
    ensures var e := EchoRequest(o, id, count, datalen, tv);
      && |e| == 8 + datalen && e[0] == ICMP_ECHO && e[1] == 0
      && e[4] == Stored(o, id)[0] && e[5] == Stored(o, id)[1]
      && e[6] == Stored(o, count)[0] && e[7] == Stored(o, count)[1]
      && (forall k | 8 <= k < 8 + datalen :: e[k] == if k - 8 < |tv| then tv[k - 8] else 0xa5)
  {
  }

  // ----- UDP over a raw socket -----

  /** What a receiver of the datagram sums (RFC 768): the pseudo-header rebuilt from the packet, then the UDP part. */
  function Pseudo(p: seq<byte>): seq<byte>
    requires |p| >= 28
  {
    Zeros(9) + [IPPROTO_UDP] + p[24..26] + p[12..20] + p[20..]
  }

  /** p holds the bytes b from offset at on. */
  ghost predicate Field(p: seq<byte>, at: nat, b: seq<byte>) {
    at + |b| <= |p| && forall k | at <= k < at + |b| :: p[k] == b[k - at]
  }

  /** The addressing fields of the packet and its user data are what the caller gave. */
  ghost predicate Addressed(p: seq<byte>, src: seq<byte>, dst: seq<byte>, sport: seq<byte>, dport: seq<byte>,
                            user: seq<byte>)
  {
    && |src| == 4 && |dst| == 4 && |sport| == 2 && |dport| == 2
    && |p| == 28 + |user| && Field(p, 28, user)
    && Field(p, 12, src) && Field(p, 16, dst) && Field(p, 20, sport) && Field(p, 22, dport)
    && Field(p, 24, WordBytes((8 + |user|) % 65536))
  }

  /** The first part of a packet while it still holds the pseudo-header. */
  ghost predicate PseudoHead(p: seq<byte>) {
    |p| >= 28 && (forall k | 0 <= k < 9 :: p[k] == 0) && p[9] == IPPROTO_UDP && p[10] == p[24] && p[11] == p[25]
  }

  /** The part of the header under the checksum, with zeros in the place of the rest. */
  method FillPseudo(buf: array<byte>, userlen: nat, src: seq<byte>, dst: seq<byte>, sport: seq<byte>, dport: seq<byte>)
    requires |src| == 4 && |dst| == 4 && |sport| == 2 && |dport| == 2 && 28 + userlen <= buf.Length
    modifies buf
    ensures Addressed(buf[..28 + userlen], src, dst, sport, dport, old(buf[28..28 + userlen]))
    ensures PseudoHead(buf[..28 + userlen]) && buf[26] == 0 && buf[27] == 0
  {
    forall k | 0 <= k < 28 { buf[k] := 0; }
    FillPorts(buf, 28 + userlen, src, dst, sport, dport);
    var ulen := WordBytes((8 + userlen) % 65536);
    buf[9], buf[10], buf[11] := IPPROTO_UDP, ulen[0], ulen[1];
    buf[24], buf[25] := ulen[0], ulen[1];
  }

  method FillPorts(buf: array<byte>, total: nat, src: seq<byte>, dst: seq<byte>, sport: seq<byte>, dport: seq<byte>)
    requires |src| == 4 && |dst| == 4 && |sport| == 2 && |dport| == 2 && 28 <= total <= buf.Length
    modifies buf
    ensures var p := buf[..total]; Field(p, 12, src) && Field(p, 16, dst) && Field(p, 20, sport) && Field(p, 22, dport)
    ensures forall k | 0 <= k < buf.Length && !(12 <= k < 24) :: buf[k] == old(buf[k])
  {
    StoreBytes(buf, 12, src);
    StoreBytes(buf, 16, dst);
    assert Field(buf[..total], 12, src);
    StoreBytes(buf, 20, sport);
    assert Field(buf[..total], 12, src) && Field(buf[..total], 16, dst);
    StoreBytes(buf, 22, dport);
  }

  /** Version and header length, type of service, total length, identification, fragment, time to live. */
  function IpHead(o: Order, total: nat, networkOrder: bool): (h: seq<byte>)
    ensures |h| == 9
  {
    [0x45, 0] + (if networkOrder then WordBytes(total % 65536) else Stored(o, total % 65536)) + [0, 0, 0, 0, TTL_OUT]
  }

  /** a and b are equal from offset at on. */
  ghost predicate SameFrom(a: seq<byte>, b: seq<byte>, at: nat) {
    |a| == |b| && forall k | at <= k < |a| :: b[k] == a[k]
  }

  /** The IP fields that overwrite the first nine bytes of the pseudo-header. */
  method FillIp(o: Order, buf: array<byte>, total: nat, networkOrder: bool)
    requires 28 <= total <= buf.Length
    modifies buf
    ensures buf[..total][..9] == IpHead(o, total, networkOrder)
    ensures SameFrom(old(buf[..total]), buf[..total], 9)
  {
    buf[0], buf[1] := 0x45, 0;
    var len := total % 65536;
    if networkOrder { StoreBytes(buf, 2, WordBytes(len)); } else { StoreField(o, buf, 2, len); }
    buf[4], buf[5], buf[6], buf[7], buf[8] := 0, 0, 0, 0, TTL_OUT;
  }

  lemma PseudoOfFilled(filled: seq<byte>, sent: seq<byte>)
    requires PseudoHead(filled) && SameFrom(filled, sent, 9)
    ensures Pseudo(sent) == filled
  {
  }

  /**
   The checksum field under the pseudo-header: 0 if none is to be sent; otherwise what in_cksum makes of
   the rest, with 0xffff for 0, so that the whole verifies as far as in_cksum reaches.
   */
  ghost predicate Checksummed(o: Order, p: seq<byte>, zerosum: bool)
    requires |p| >= 28
  {
    if zerosum then p[26] == 0 && p[27] == 0
    else
      var v := FieldValue(CodeCksum(o, WithField(o, p, 26, 0)), true);
      && p[26] == Stored(o, v)[0] && p[27] == Stored(o, v)[1]
      && (|p| <= 131074 ==> Cksum(o, p) == 0)
  }

  lemma StoredNotZero(o: Order, c: word)
    ensures var v := FieldValue(c, true); Stored(o, v)[0] != 0 || Stored(o, v)[1] != 0
  {
  }

  /** a and b are equal but for the field. */
  ghost predicate SameBut(a: seq<byte>, b: seq<byte>, at: nat) {
    at + 2 <= |a| == |b| && forall k | 0 <= k < |a| && !(at <= k < at + 2) :: b[k] == a[k]
  }

  lemma FieldOnly(o: Order, a: seq<byte>, b: seq<byte>, at: nat, v: word)
    requires SameBut(a, b, at)
    ensures WithField(o, a, at, v) == WithField(o, b, at, v)
  {
  }

  /** The checksum of the first total bytes, if one is to be sent, into a blank field. */
  method FillSum(o: Order, buf: array<byte>, total: nat, zerosum: bool)
    requires 28 <= total <= buf.Length && buf[26] == 0 && buf[27] == 0
    modifies buf
    ensures SameBut(old(buf[..total]), buf[..total], 26) && Checksummed(o, buf[..total], zerosum)
  {
    if !zerosum {
      ghost var blank: seq<byte> := buf[..total];
      var v := SetChecksum(o, buf, 26, total, true);
      assert SameBut(blank, buf[..total], 26);
      FieldOnly(o, blank, buf[..total], 26, 0);
    }
  }

  lemma KeepsPseudo(a: seq<byte>, b: seq<byte>, src: seq<byte>, dst: seq<byte>, sport: seq<byte>, dport: seq<byte>,
                    user: seq<byte>)
    requires Addressed(a, src, dst, sport, dport, user) && PseudoHead(a) && SameBut(a, b, 26)
    ensures Addressed(b, src, dst, sport, dport, user) && PseudoHead(b)
  {
    KeepsAddress(a, b, src, dst, sport, dport, user);
  }

  /** The datagram under its pseudo-header, checksum included (udpcksum/udpwrite.c:35-56). */
  method FillUdp(o: Order, buf: array<byte>, userlen: nat, src: seq<byte>, dst: seq<byte>,
                 sport: seq<byte>, dport: seq<byte>, zerosum: bool)
    requires |src| == 4 && |dst| == 4 && |sport| == 2 && |dport| == 2
    requires 28 + userlen <= buf.Length
    modifies buf
    ensures Addressed(buf[..28 + userlen], src, dst, sport, dport, old(buf[28..28 + userlen]))
    ensures PseudoHead(buf[..28 + userlen]) && Checksummed(o, buf[..28 + userlen], zerosum)
  {
    ghost var user: seq<byte> := buf[28..28 + userlen];
    FillPseudo(buf, userlen, src, dst, sport, dport);
    ghost var blank: seq<byte> := buf[..28 + userlen];
    FillSum(o, buf, 28 + userlen, zerosum);
    KeepsPseudo(blank, buf[..28 + userlen], src, dst, sport, dport, user);
  }

  /** The packet of udp_write: the IP fields, the length that the pseudo-header left, and the checksum. */
  ghost predicate Written(o: Order, p: seq<byte>, zerosum: bool, networkOrder: bool) {
    && |p| >= 28 && p[..9] == IpHead(o, |p|, networkOrder) && p[9] == IPPROTO_UDP && p[10] == p[24] && p[11] == p[25]
    && Checksummed(o, Pseudo(p), zerosum) && (zerosum <==> p[26] == 0 && p[27] == 0)
  }

  /** The IP fields leave of the datagram what its receiver looks at. */
  lemma IpOverUdp(o: Order, filled: seq<byte>, sent: seq<byte>, src: seq<byte>, dst: seq<byte>,
                  sport: seq<byte>, dport: seq<byte>, user: seq<byte>, zerosum: bool, networkOrder: bool)
    requires Addressed(filled, src, dst, sport, dport, user) && PseudoHead(filled) && SameFrom(filled, sent, 9)
    requires Checksummed(o, filled, zerosum) && sent[..9] == IpHead(o, |sent|, networkOrder)
    ensures Addressed(sent, src, dst, sport, dport, user) && Written(o, sent, zerosum, networkOrder)
  {
    PseudoOfFilled(filled, sent);
    KeepsAddress(filled, sent, src, dst, sport, dport, user);
    StoredNotZero(o, CodeCksum(o, WithField(o, filled, 26, 0)));
  }

  /**
   udp_write: the IP header is laid out, but for its checksum, which the kernel computes and whose
   place still holds the pseudo-header's length; the packet carries the caller's addresses and data,
   and a receiver that rebuilds the pseudo-header finds the checksum right.  With zerosum the checksum
   field is 0 (none was sent); without it the field is never 0 (section 4.1.3.4 of RFC 1122).  The
   16-bit lengths hold the sizes modulo 65536.
   */
  method UdpWrite(o: Order, buf: array<byte>, userlen: nat, src: seq<byte>, dst: seq<byte>,
                  sport: seq<byte>, dport: seq<byte>, zerosum: bool, networkOrder: bool) returns (total: nat)
    requires |src| == 4 && |dst| == 4 && |sport| == 2 && |dport| == 2
    requires 28 + userlen <= buf.Length
    modifies buf
    ensures total == 28 + userlen && Addressed(buf[..total], src, dst, sport, dport, old(buf[28..28 + userlen]))
    ensures Written(o, buf[..total], zerosum, networkOrder)
  {
    ghost var user: seq<byte> := buf[28..28 + userlen];
    FillUdp(o, buf, userlen, src, dst, sport, dport, zerosum);
    total := 28 + userlen;
    ghost var filled: seq<byte> := buf[..total];
    FillIp(o, buf, total, networkOrder);
    IpOverUdp(o, filled, buf[..total], src, dst, sport, dport, user, zerosum, networkOrder);
  }

  lemma KeepsAddress(a: seq<byte>, b: seq<byte>, src: seq<byte>, dst: seq<byte>, sport: seq<byte>, dport: seq<byte>,
                     user: seq<byte>)
    requires Addressed(a, src, dst, sport, dport, user) && |b| == |a|
    requires forall k | 9 <= k < |a| && !(26 <= k < 28) :: b[k] == a[k]
    ensures Addressed(b, src, dst, sport, dport, user)
  {
  }

  /** The IP fields one by one; the total length is as the socket layer wants it. */
  lemma IpFields(o: Order, p: seq<byte>, total: nat, networkOrder: bool)
    requires |p| >= 28 && p[..9] == IpHead(o, total, networkOrder)
    ensures p[0] == 0x45 && p[1] == 0 && p[4..8] == Zeros(4) && p[8] == 64
    ensures p[2..4] == if networkOrder || o == Big then WordBytes(total % 65536)
                       else [WordBytes(total % 65536)[1], WordBytes(total % 65536)[0]]
  {
    var h := IpHead(o, total, networkOrder);
    StoredBack(o, total % 65536);
    forall k | 0 <= k < 9 ensures p[k] == h[k] { assert p[..9][k] == h[k]; }
  }

  /** The exits of udp_check: the quits, one by one, and the packet it returns. */
  datatype Checked = TooShort | BadVersion | BadHeaderLength | HeaderTooLong | BadChecksum | NotUdp | Good

  predicate HeaderFits(p: seq<byte>) {
    |p| >= 28 && p[0] / 16 == 4 && (p[0] % 16) * 4 >= 20 && |p| >= (p[0] % 16) * 4 + 8
  }

  /** udp_check accepts exactly the UDP packets whose IP header is whole and sums to zero. */
  method UdpCheck(o: Order, pkt: array<byte>) returns (r: Checked)
    modifies pkt
    ensures var p: seq<byte> := old(pkt[..]);
      r == Good <==> HeaderFits(p) && Cksum(o, p[..(p[0] % 16) * 4]) == 0 && p[9] == IPPROTO_UDP
    ensures var p: seq<byte> := old(pkt[..]);
      && (r == TooShort <==> |p| < 28)
      && (r == BadVersion <==> |p| >= 28 && p[0] / 16 != 4)
      && (r == BadHeaderLength <==> |p| >= 28 && p[0] / 16 == 4 && p[0] % 16 < 5)
      && (r == HeaderTooLong <==> |p| >= 28 && p[0] / 16 == 4 && p[0] % 16 >= 5 && |p| < (p[0] % 16) * 4 + 8)
      && (r == BadChecksum <==> HeaderFits(p) && Cksum(o, p[..(p[0] % 16) * 4]) != 0)
    ensures pkt[..] == if HeaderFits(old(pkt[..]))
      then WithField(o, old(pkt[..]), 10, Cksum(o, old(pkt[..(pkt[0] % 16) * 4]))) else old(pkt[..])
  {
    if pkt.Length < 28 { return TooShort; }
    if pkt[0] / 16 != 4 { return BadVersion; }
    var hlen: nat := (pkt[0] % 16) * 4;
    if hlen < 20 { return BadHeaderLength; }
    if pkt.Length < hlen + 8 { return HeaderTooLong; }
    assert pkt[..][..hlen] == pkt[..hlen];
    CodeIsCksum(o, pkt[..hlen]);
    var sum := InCksum(o, pkt, hlen);
    ghost var p: seq<byte> := pkt[..];
    StoreField(o, pkt, 10, sum);
    IsWithField(o, pkt[..], p, 10, sum);
    if sum != 0 { return BadChecksum; }
    r := if pkt[9] == IPPROTO_UDP then Good else NotUdp;
  }

  /** A sender that fills the header's checksum field by the rule gets its UDP packets accepted. */
  lemma SentHeaderAccepted(o: Order, p: seq<byte>)
    requires HeaderFits(p)
    ensures var h: nat := (p[0] % 16) * 4;
      var v := Cksum(o, WithField(o, p[..h], 10, 0));
      var sent := WithField(o, p, 10, v);
      HeaderFits(sent) && (sent[0] % 16) * 4 == h && Cksum(o, sent[..h]) == 0 && sent[9] == p[9]
  {
    var h: nat := (p[0] % 16) * 4;
    var v := Cksum(o, WithField(o, p[..h], 10, 0));
    StoredVerifies(o, p[..h], 10, false);
    FieldPrefix(o, p, 10, v, h);
  }
}
