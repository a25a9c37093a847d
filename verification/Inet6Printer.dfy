/**
 inet_ntop6: the canonical text of an address, why reading it back gives the address, and the loops
 that produce it (sections 4.2.1 to 4.2.3 of RFC 5952 for the choice of "::").
 */
module Inet6Printer {
  import opened Basics
  import opened Inet6Grammar
  import DottedQuad

  // ----- numbers -----

  function HexChar(d: nat): char
    requires d < 16
  {
    "0123456789abcdef"[d]
  }

  /** printf's "%x". */
  function HexText(n: nat): string {
    if n < 16 then [HexChar(n)] else HexText(n / 16) + [HexChar(n % 16)]
  }

  lemma HexCharBack(d: nat)
    requires d < 16
    ensures IsHex(HexChar(d)) && HexDigit(HexChar(d)) == d && !('A' <= HexChar(d) <= 'F')
    ensures d < 10 ==> DottedQuad.IsDigit(HexChar(d)) && DottedQuad.DigitValue(HexChar(d)) == d
  {
  }

  /** The value is read back. */
  lemma {:induction false} HexTextBack(n: nat)
    ensures HexString(HexText(n)) && HexValue(HexText(n)) == n && |HexText(n)| >= 1
  {
    if n < 16 {
      HexCharBack(n);
      HexSnoc("", HexChar(n));
      EmptyLeft([HexChar(n)]);
    } else {
      var q, d := n / 16, n % 16;
      HexCharBack(d);
      HexTextBack(q);
      assert HexText(n) == HexText(q) + [HexChar(d)];
      HexSnoc(HexText(q), HexChar(d));
    }
  }

  /** No more than four digits for a word. */
  lemma HexTextShort(n: nat)
    ensures (n < 16 ==> |HexText(n)| == 1) && (n < 256 ==> |HexText(n)| <= 2)
    ensures (n < 4096 ==> |HexText(n)| <= 3) && (n < 65536 ==> |HexText(n)| <= 4)
  {
    if n < 65536 {
      assert n / 16 < 4096 && n / 16 / 16 < 256 && n / 16 / 16 / 16 < 16;
    }
  }

  /** Lower case and no leading zeros (sections 4.1 and 4.3 of RFC 5952). */
  lemma {:induction false} HexTextCanonical(n: nat)
    ensures forall i | 0 <= i < |HexText(n)| :: !('A' <= HexText(n)[i] <= 'F')
    ensures |HexText(n)| >= 1 && (n > 0 ==> HexText(n)[0] != '0') && HexText(0) == "0"
  {
    HexCharBack(n % 16);
    if n >= 16 { HexTextCanonical(n / 16); }
  }

  /** printf's "%u". */
  function DecText(n: nat): string {
    if n < 10 then [HexChar(n)] else DecText(n / 10) + [HexChar(n % 10)]
  }

  lemma {:induction false} DecTextBack(n: nat)
    ensures DottedQuad.Digits(DecText(n)) && DottedQuad.Decimal(DecText(n)) == n && |DecText(n)| >= 1
    ensures (n < 10 ==> |DecText(n)| == 1) && (n < 100 ==> |DecText(n)| <= 2) && (n < 1000 ==> |DecText(n)| <= 3)
  {
    HexCharBack(n % 10);
    if n < 10 {
      DottedQuad.DecimalSnoc("", HexChar(n));
      assert "" + [HexChar(n)] == [HexChar(n)];
    } else {
      DecTextBack(n / 10);
      DottedQuad.DecimalSnoc(DecText(n / 10), HexChar(n % 10));
    }
  }

  /** inet_ntop4's text. */
  function QuadText(b: seq<byte>): string
    requires |b| == 4
  {
    DecText(b[0]) + ("." + (DecText(b[1]) + ("." + (DecText(b[2]) + ("." + DecText(b[3]))))))
  }

  /** inet_pton4 reads back what inet_ntop4 prints. */
  lemma QuadTextBack(b: seq<byte>)
    requires |b| == 4
    ensures DottedQuad.Quad(QuadText(b)) == Some(b) && |QuadText(b)| <= 15
  {
    var ds := [DecText(b[0]), DecText(b[1]), DecText(b[2]), DecText(b[3])];
    forall i | 0 <= i < 4 ensures DottedQuad.IsOctet(ds[i]) && DottedQuad.Decimal(ds[i]) == b[i] && |ds[i]| <= 3 {
      DecTextBack(b[i]);
    }
    assert DottedQuad.AllOctets(ds) && DottedQuad.Octets(ds) == b;
    JoinFour(ds);
    assert DottedQuad.QuadDenotes(ds, QuadText(b), b);
    DottedQuad.QuadExact(QuadText(b), b);
  }

  lemma JoinFour(ds: seq<string>)
    requires |ds| == 4
    ensures DottedQuad.Join(ds) == ds[0] + ("." + (ds[1] + ("." + (ds[2] + ("." + ds[3])))))
  {
    assert ds[1..][1..] == ds[2..] && ds[2..][1..] == ds[3..];
    assert DottedQuad.Join(ds[2..]) == ds[2] + ("." + ds[3]);
  }

  // ----- the choice of the run to shorten -----

  type Words = w: seq<word> | |w| == 8 witness [0, 0, 0, 0, 0, 0, 0, 0]

  type Address = b: seq<byte> | |b| == 16 witness Zeros(16)

  function WordAt(b: Address, i: nat): word
    requires i < 8
  {
    var hi: int, lo: int := b[2 * i], b[2 * i + 1];
    hi * 256 + lo
  }

  lemma WordSplit(b: Address, i: nat)
    requires i < 8
    ensures WordAt(b, i) / 256 == b[2 * i] && WordAt(b, i) % 256 == b[2 * i + 1]
  {
  }

  function WordsOf(b: Address): Words { seq(8, i requires 0 <= i < 8 => WordAt(b, i)) }

  function ByteAt(w: seq<word>, k: nat): byte
    requires k < 2 * |w|
  {
    if k % 2 == 0 then w[k / 2] / 256 else w[k / 2] % 256
  }

  function BytesOf(w: seq<word>): seq<byte> { seq(2 * |w|, k requires 0 <= k < 2 * |w| => ByteAt(w, k)) }

  lemma BytesOfSlice(b: Address, i: nat, j: nat)
    requires i <= j <= 8
    ensures BytesOf(WordsOf(b)[i..j]) == b[2 * i..2 * j]
  {
    forall k | 0 <= k < 2 * (j - i) ensures ByteAt(WordsOf(b)[i..j], k) == b[2 * i + k] {
      assert WordsOf(b)[i..j][k / 2] == WordAt(b, i + k / 2);
      WordSplit(b, i + k / 2);
    }
  }

  /** Words a to z-1 are zero. */
  ghost predicate ZeroRun(w: Words, a: int, z: int) {
    0 <= a < z <= 8 && forall k | a <= k < z :: w[k] == 0
  }

  /** The longest run of zero words; the first one among equals. */
  ghost predicate Longest(w: Words, a: int, z: int) {
    ZeroRun(w, a, z) && forall c, e | ZeroRun(w, c, e) :: e - c <= z - a && (e - c == z - a ==> a <= c)
  }

  datatype Shortened = Shortened(base: int, end: int)

  /** The run that "::" stands for: the longest one, provided it has two words at least. */
  ghost predicate Chosen(w: Words, best: Option<Shortened>) {
    match best
    case Some(r) => Longest(w, r.base, r.end) && r.end - r.base >= 2
    case None => forall c, e | ZeroRun(w, c, e) :: e - c < 2
  }

  lemma ChosenUnique(w: Words, x: Option<Shortened>, y: Option<Shortened>)
    requires Chosen(w, x) && Chosen(w, y)
    ensures x == y
  {
    if x.Some? { assert ZeroRun(w, x.value.base, x.value.end); }
    if y.Some? { assert ZeroRun(w, y.value.base, y.value.end); }
  }

  // ----- the canonical text -----

  function Hexes(w: seq<word>): seq<string> { seq(|w|, i requires 0 <= i < |w| => HexText(w[i])) }

  /** Whether the last four bytes are printed as a dotted quad. */
  predicate Embedded(w: Words, best: Option<Shortened>) {
    best.Some? && best.value.base == 0 && (best.value.end == 6 || (best.value.end == 5 && w[5] == 0xffff))
  }

  function Canonical(b: Address, best: Option<Shortened>): Pres
    requires best.Some? ==> 0 <= best.value.base < best.value.end <= 8
  {
    var w := WordsOf(b);
    match best
    case None => Pres(Hexes(w[..7]), false, [], Group(HexText(w[7])))
    case Some(r) =>
      if r.end == 8 then Pres(Hexes(w[..r.base]), true, [], End)
      else if Embedded(w, best) then Pres([], true, Hexes(w[r.end..6]), Dotted(QuadText(b[12..])))
      else Pres(Hexes(w[..r.base]), true, Hexes(w[r.end..7]), Group(HexText(w[7])))
  }

  /** t is the text inet_ntop6 gives for b. */
  ghost predicate Prints(b: Address, t: string) {
    exists best :: Chosen(WordsOf(b), best) && t == Text(Canonical(b, best))
  }

  lemma HexesStandard(w: seq<word>)
    ensures StandardGroups(Hexes(w)) && |Hexes(w)| == |w|
  {
    forall i | 0 <= i < |w| ensures 1 <= |Hexes(w)[i]| <= 4 && HexString(Hexes(w)[i]) {
      HexTextBack(w[i]);
      HexTextShort(w[i]);
    }
  }

  lemma {:induction false} HexesBytes(w: seq<word>)
    ensures AllGroups(Hexes(w)) && GroupBytes(Hexes(w)) == BytesOf(w)
    decreases |w|
  {
    HexesStandard(w);
    ShortGroups(Hexes(w));
    if w != [] {
      HexesBytes(w[1..]);
      HexTextBack(w[0]);
      assert Hexes(w)[1..] == Hexes(w[1..]) && Hexes(w)[0] == HexText(w[0]);
      BytesOfCons(w);
    }
  }

  lemma BytesOfCons(w: seq<word>)
    requires w != []
    ensures BytesOf(w) == WordBytes(w[0]) + BytesOf(w[1..])
  {
    forall k | 2 <= k < 2 * |w| ensures ByteAt(w, k) == ByteAt(w[1..], k - 2) {
      assert w[k / 2] == w[1..][(k - 2) / 2];
    }
  }

  /** The groups printed for words i to j-1 stand for the bytes of those words. */
  lemma SliceBytes(b: Address, i: nat, j: nat)
    requires i <= j <= 8
    ensures var h := Hexes(WordsOf(b)[i..j]);
      StandardGroups(h) && |h| == j - i && AllGroups(h) && GroupBytes(h) == b[2 * i..2 * j]
  {
    HexesBytes(WordsOf(b)[i..j]);
    HexesStandard(WordsOf(b)[i..j]);
    BytesOfSlice(b, i, j);
  }

  lemma ZeroRunBytes(b: Address, a: int, z: int)
    requires ZeroRun(WordsOf(b), a, z)
    ensures b[2 * a..2 * z] == Zeros(2 * (z - a))
  {
    forall k | 2 * a <= k < 2 * z ensures b[k] == 0 {
      assert WordsOf(b)[k / 2] == WordAt(b, k / 2);
    }
  }

  /** A word prints as a group that is read back as it. */
  lemma GroupOfWord(n: word)
    ensures 1 <= |HexText(n)| <= 4 && IsGroup(HexText(n)) && WordBytes(HexValue(HexText(n))) == [n / 256, n % 256]
  {
    HexTextBack(n);
    HexTextShort(n);
  }

  lemma LastGroup(b: Address)
    ensures var g := HexText(WordsOf(b)[7]); 1 <= |g| <= 4 && IsGroup(g) && WordBytes(HexValue(g)) == b[14..16]
  {
    GroupOfWord(WordsOf(b)[7]);
    WordSplit(b, 7);
    assert b[14..16] == [b[14], b[15]];
  }

  lemma Rejoin(b: seq<byte>, i: nat, j: nat)
    requires i <= j <= |b|
    ensures b[i..j] + b[j..] == b[i..]
  {
  }

  /** The bytes of words i to j-1 followed by those of the rest. */
  lemma EndingBytes(b: Address, i: nat, j: nat, l: Last)
    requires i <= j <= 8 && LastOk(l) && LastBytes(l) == b[2 * j..]
    ensures AllGroups(Hexes(WordsOf(b)[i..j]))
    ensures GroupBytes(Hexes(WordsOf(b)[i..j])) + LastBytes(l) == b[2 * i..]
  {
    SliceBytes(b, i, j);
    Rejoin(b, 2 * i, 2 * j);
  }

  /** A text whose head is words 0 to h-1 and whose rest is words t on denotes b, if words h to t-1 are zero. */
  lemma PartsDenote(p: Pres, b: Address, h: nat, t: nat)
    requires Shaped(p) && h <= t <= 8 && b[2 * h..2 * t] == Zeros(2 * (t - h))
    requires GroupBytes(p.head) == b[..2 * h] && BytesAfterHead(p) == b[2 * t..]
    ensures |Written(p)| == 16 - 2 * (t - h) && Denotes(p) == b
  {
    assert b == b[..2 * h] + b[2 * h..2 * t] + b[2 * t..];
  }

  /** The parts of a text without a gap, seven groups and the last. */
  lemma PlainParts(b: Address)
    ensures var h, g := Hexes(WordsOf(b)[..7]), HexText(WordsOf(b)[7]);
      && StandardGroups(h) && |h| == 7 && AllGroups(h) && GroupBytes(h) == b[..14]
      && 1 <= |g| <= 4 && IsGroup(g) && WordBytes(HexValue(g)) == b[14..]
  {
    SliceBytes(b, 0, 7);
    assert WordsOf(b)[0..7] == WordsOf(b)[..7] && b[0..14] == b[..14];
    LastGroup(b);
    assert b[14..16] == b[14..];
  }

  lemma PlainDenotes(b: Address)
    ensures var p := Canonical(b, None); Standard(p) && Shaped(p) && |Written(p)| <= 16 && Denotes(p) == b
  {
    var p := Canonical(b, None);
    PlainParts(b);
    assert GroupBytes(p.tail) == [];
    EmptyLeft(LastBytes(p.last));
    assert b[14..14] == Zeros(0);
    PartsDenote(p, b, 7, 7);
  }

  lemma GapDenotes(b: Address, best: Option<Shortened>)
    requires Chosen(WordsOf(b), best) && best.Some?
    ensures var p := Canonical(b, best); Standard(p) && Shaped(p) && |Written(p)| <= 16 && Denotes(p) == b
  {
    var w, p, r := WordsOf(b), Canonical(b, best), best.value;
    SliceBytes(b, 0, r.base);
    assert w[0..r.base] == w[..r.base] && b[0..2 * r.base] == b[..2 * r.base];
    ZeroRunBytes(b, r.base, r.end);
    if r.end == 8 {
      assert BytesAfterHead(p) == b[16..];
    } else if Embedded(w, best) {
      QuadTextBack(b[12..]);
      EndingBytes(b, r.end, 6, p.last);
      SliceBytes(b, r.end, 6);
    } else {
      LastGroup(b);
      assert b[14..16] == b[14..];
      EndingBytes(b, r.end, 7, p.last);
      SliceBytes(b, r.end, 7);
    }
    PartsDenote(p, b, r.base, r.end);
  }

  /** The canonical text is a standard one and denotes the address. */
  lemma CanonicalDenotes(b: Address, best: Option<Shortened>)
    requires Chosen(WordsOf(b), best)
    ensures var p := Canonical(b, best); Standard(p) && Shaped(p) && |Written(p)| <= 16 && Denotes(p) == b
  {
    if best.Some? { GapDenotes(b, best); } else { PlainDenotes(b); }
  }

  /** For every address, inet_pton6 reads back exactly the bytes that inet_ntop6 printed. */
  lemma RoundTrip(b: Address, t: string)
    requires Prints(b, t)
    ensures Pton6(t) == Some(b)
  {
    var best :| Chosen(WordsOf(b), best) && t == Text(Canonical(b, best));
    CanonicalDenotes(b, best);
    StandardAccepted(Canonical(b, best));
  }

  /** Two addresses never print alike, and an address prints in one way only. */
  lemma PrintingInjective(b: Address, c: Address, t: string, u: string)
    requires Prints(b, t) && Prints(c, u)
    ensures t == u <==> b == c
  {
    RoundTrip(b, t);
    RoundTrip(c, u);
    if b == c {
      var x :| Chosen(WordsOf(b), x) && t == Text(Canonical(b, x));
      var y :| Chosen(WordsOf(c), y) && u == Text(Canonical(c, y));
      ChosenUnique(WordsOf(b), x, y);
    }
  }
}
