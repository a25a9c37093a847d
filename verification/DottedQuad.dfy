/**
 The two dotted-quad readers, inet_pton4 and inet_aton, and the exact language each one accepts.

 A C string is modelled by the characters before its terminator.  Each reader is a method whose
 result is a function of the text (Quad, Aton); lemmas then say, by a grammar, which texts the
 function accepts and what they denote.
 */
module DottedQuad {
  import opened Basics

  predicate IsDigit(c: char) { '0' <= c <= '9' }

  predicate Digits(s: string) { forall i | 0 <= i < |s| :: IsDigit(s[i]) }

  function DigitValue(c: char): nat { if IsDigit(c) then (c as int) - ('0' as int) else 0 }

  function Decimal(s: string): nat {
    if s == "" then 0 else Decimal(s[..|s| - 1]) * 10 + DigitValue(s[|s| - 1])
  }

  /** A decimal number from 0 to 255; leading zeros are allowed. */
  predicate IsOctet(s: string) { s != "" && Digits(s) && Decimal(s) <= 255 }

  function Join(ds: seq<string>): string {
    if ds == [] then "" else if |ds| == 1 then ds[0] else ds[0] + ("." + Join(ds[1..]))
  }

  predicate AllOctets(ds: seq<string>) { forall i | 0 <= i < |ds| :: IsOctet(ds[i]) }

  function Octets(ds: seq<string>): (r: seq<byte>)
    requires AllOctets(ds)
    ensures |r| == |ds|
  {
    seq(|ds|, i requires 0 <= i < |ds| => Decimal(ds[i]))
  }

  lemma JoinCons(d: string, rest: seq<string>)
    requires rest != []
    ensures Join([d] + rest) == d + ("." + Join(rest))
  {
    assert ([d] + rest)[1..] == rest;
  }

  // ----- inet_pton4 -----

  /** Reads s, with the octets in done complete and the digits in cur seen since the last dot. */
  function Scan(s: string, done: seq<byte>, cur: string): (r: Option<seq<byte>>)
    ensures r.Some? ==> |r.value| == 4
    decreases |s|
  {
    if s == "" then
      if |done| == 3 && cur != "" && Decimal(cur) <= 255 then Some(done + [Decimal(cur)]) else None
    else if IsDigit(s[0]) then
      if Decimal(cur + [s[0]]) > 255 || |done| >= 4 then None else Scan(s[1..], done, cur + [s[0]])
    else if s[0] == '.' && cur != "" && |done| < 3 && Decimal(cur) <= 255 then
      Scan(s[1..], done + [Decimal(cur)], "")
    else
      None
  }

  function Quad(s: string): Option<seq<byte>> { Scan(s, [], "") }

  /** The grammar: four octets separated by dots. */
  ghost predicate QuadDenotes(ds: seq<string>, s: string, b: seq<byte>) {
    |ds| == 4 && AllOctets(ds) && s == Join(ds) && b == Octets(ds)
  }

  predicate Partial(cur: string) { cur == "" || IsOctet(cur) }

  lemma DecimalSnoc(s: string, c: char)
    ensures Decimal(s + [c]) == Decimal(s) * 10 + DigitValue(c)
  {
    assert (s + [c])[..|s|] == s;
  }

  lemma {:induction false} DecimalPrefix(s: string, t: string)
    ensures Decimal(s) <= Decimal(s + t)
  {
    if t == "" {
      assert s + t == s;
    } else {
      DecimalPrefix(s, t[..|t| - 1]);
      assert s + t == (s + t[..|t| - 1]) + [t[|t| - 1]];
      DecimalSnoc(s + t[..|t| - 1], t[|t| - 1]);
    }
  }

  lemma {:induction false} ScanOctet(d: string, rest: string, done: seq<byte>, cur: string)
    requires Digits(d) && Decimal(cur + d) <= 255 && |done| < 4
    ensures Scan(d + rest, done, cur) == Scan(rest, done, cur + d)
    decreases |d|
  {
    if d == "" {
      assert d + rest == rest && cur + d == cur;
    } else {
      assert (d + rest)[1..] == d[1..] + rest;
      assert cur + d == (cur + [d[0]]) + d[1..];
      DecimalPrefix(cur + [d[0]], d[1..]);
      ScanOctet(d[1..], rest, done, cur + [d[0]]);
    }
  }

  lemma FirstOctet(cur: string, rest: seq<string>, text: string, done: seq<byte>)
    requires IsOctet(cur) && AllOctets(rest) && rest != [] && text == Join(rest)
    ensures cur + ("." + text) == Join([cur] + rest) && AllOctets([cur] + rest)
    ensures (done + [Decimal(cur)]) + Octets(rest) == done + Octets([cur] + rest)
  {
    JoinCons(cur, rest);
    assert Octets([cur] + rest) == [Decimal(cur)] + Octets(rest);
    Assoc(done, [Decimal(cur)], Octets(rest));
  }

  /** The octets that a successful scan went through. */
  lemma {:induction false} ScanDecompose(s: string, done: seq<byte>, cur: string) returns (ds: seq<string>)
    requires Partial(cur) && |done| <= 3 && Scan(s, done, cur).Some?
    ensures |ds| == 4 - |done| && cur + s == Join(ds)
    ensures AllOctets(ds)
    ensures Scan(s, done, cur).value == done + Octets(ds)
    decreases |s|
  {
    if s == "" {
      ds := [cur];
      assert cur + s == cur;
    } else if IsDigit(s[0]) {
      assert cur + s == (cur + [s[0]]) + s[1..];
      ds := ScanDecompose(s[1..], done, cur + [s[0]]);
    } else {
      var rest := ScanDecompose(s[1..], done + [Decimal(cur)], "");
      ds := [cur] + rest;
      EmptyLeft(s[1..]);
      Uncons(s);
      FirstOctet(cur, rest, s[1..], done);
    }
  }

  lemma {:induction false} ScanAccepts(ds: seq<string>, done: seq<byte>)
    requires 0 < |ds| == 4 - |done| && AllOctets(ds)
    ensures Scan(Join(ds), done, "") == Some(done + Octets(ds))
    decreases |ds|
  {
    var d := ds[0];
    assert "" + d == d;
    if |ds| == 1 {
      ScanOctet(d, "", done, "");
      assert d + "" == d && Octets(ds) == [Decimal(d)];
    } else {
      ScanOctet(d, "." + Join(ds[1..]), done, "");
      assert ("." + Join(ds[1..]))[1..] == Join(ds[1..]);
      assert |Join(ds)| > 0;
      ScanAccepts(ds[1..], done + [Decimal(d)]);
      Assoc(done, [Decimal(d)], Octets(ds[1..]));
      assert Octets(ds) == [Decimal(d)] + Octets(ds[1..]);
    }
  }

  /** inet_pton4 accepts exactly the texts made of four octets, and yields their values. */
  lemma QuadExact(s: string, b: seq<byte>)
    ensures Quad(s) == Some(b) <==> exists ds :: QuadDenotes(ds, s, b)
  {
    if Quad(s) == Some(b) {
      var ds := ScanDecompose(s, [], "");
      assert "" + s == s && [] + Octets(ds) == Octets(ds);
      assert QuadDenotes(ds, s, b);
    }
    if ds :| QuadDenotes(ds, s, b) {
      ScanAccepts(ds, []);
      assert [] + Octets(ds) == Octets(ds);
    }
  }

  method InetPton4(src: string, dst: array<byte>, off: nat) returns (rc: int)
    requires off + 4 <= dst.Length
    modifies dst
    ensures rc == if Quad(src).Some? then 1 else 0
    ensures rc == 0 ==> dst[..] == old(dst[..])
    ensures rc == 1 ==> dst[..] == old(dst[..off]) + Quad(src).value + old(dst[off + 4..])
  {
    var tmp := new byte[4];
    var sawDigit, octets, tp, i := false, 0, 0, 0;
    tmp[tp] := 0;
    ghost var cur := "";
    assert src[0..] == src && tmp[..0] == [];
    while i < |src|
      invariant 0 <= i <= |src| && 0 <= tp < 4
      invariant sawDigit == (cur != "") && octets == tp + (if sawDigit then 1 else 0)
      invariant tmp[tp] == Decimal(cur)
      invariant Scan(src[i..], tmp[..tp], cur) == Quad(src)
      invariant dst[..] == old(dst[..])
    {
      var ch := src[i];
      i := i + 1;
      assert src[i - 1..][1..] == src[i..];
      if IsDigit(ch) {
        var value := tmp[tp] * 10 + DigitValue(ch);
        DecimalSnoc(cur, ch);
        if value > 255 { return 0; }
        ghost var before := tmp[..tp];
        tmp[tp] := value;
        assert tmp[..tp] == before;
        cur := cur + [ch];
        if !sawDigit {
          octets := octets + 1;
          if octets > 4 { return 0; }
          sawDigit := true;
        }
      } else if ch == '.' && sawDigit {
        if octets == 4 { return 0; }
        ghost var before := tmp[..tp] + [tmp[tp]];
        tp := tp + 1;
        tmp[tp] := 0;
        assert tmp[..tp] == before;
        sawDigit := false;
        cur := "";
      } else {
        return 0;
      }
    }
    assert src[i..] == "";
    if octets < 4 { return 0; }
    assert tmp[..] == tmp[..3] + [tmp[3]];
    forall k | 0 <= k < 4 { dst[off + k] := tmp[k]; }
    return 1;
  }

  // ----- inet_aton -----

  /** The number of distinct values of a u_long: at least 32 bits. */
  predicate IsWidth(m: nat) { m >= 0x1_0000_0000 }

  /** The value of a run of digits as the accumulator computes it, reduced modulo m at every digit. */
  function Reduced(d: string, m: nat): (r: nat)
    requires m > 0
    ensures r < m
  {
    if d == "" then 0 else (Reduced(d[..|d| - 1], m) * 10 + DigitValue(d[|d| - 1])) % m
  }

  lemma ReducedSnoc(s: string, c: char, m: nat)
    requires m > 0
    ensures Reduced(s + [c], m) == (Reduced(s, m) * 10 + DigitValue(c)) % m
  {
    assert (s + [c])[..|s|] == s;
  }

  lemma SmallMod(x: nat, m: nat)
    requires x < m
    ensures x % m == x
  {
  }

  lemma {:induction false} ReducedIsDecimal(d: string, m: nat)
    requires Decimal(d) < m
    ensures Reduced(d, m) == Decimal(d)
  {
    if d != "" {
      ReducedIsDecimal(d[..|d| - 1], m);
      SmallMod(Decimal(d), m);
    }
  }

  /** Reads s with the components in parts complete and the digits in cur seen since the last dot. */
  function ScanAton(s: string, parts: seq<byte>, cur: string, m: nat): (r: Option<seq<byte>>)
    requires |parts| <= 3 && m > 0
    ensures r.Some? ==> |r.value| == 4
    decreases |s|
  {
    if s == "" then
      if Reduced(cur, m) > 255 then None else Some(parts + [Reduced(cur, m)] + Zeros(3 - |parts|))
    else if IsDigit(s[0]) then
      ScanAton(s[1..], parts, cur + [s[0]], m)
    else if s[0] == '.' && |parts| < 3 && Reduced(cur, m) <= 255 then
      ScanAton(s[1..], parts + [Reduced(cur, m)], "", m)
    else
      None
  }

  function Aton(s: string, m: nat): (r: Option<seq<byte>>)
    requires m > 0
    ensures r.Some? ==> |r.value| == 4
  {
    ScanAton(s, [], "", m)
  }

  /** What inet_aton takes for a component: digits, perhaps none, small once reduced modulo m. */
  predicate IsComponent(d: string, m: nat) { m > 0 && Digits(d) && Reduced(d, m) <= 255 }

  predicate AllComponents(ds: seq<string>, m: nat) { forall i | 0 <= i < |ds| :: IsComponent(ds[i], m) }

  function Components(ds: seq<string>, m: nat): (r: seq<byte>)
    requires AllComponents(ds, m)
    ensures |r| == |ds|
  {
    seq(|ds|, i requires 0 <= i < |ds| => Reduced(ds[i], m))
  }

  ghost predicate AtonDenotes(ds: seq<string>, s: string, m: nat, b: seq<byte>) {
    && 1 <= |ds| <= 4 && AllComponents(ds, m) && s == Join(ds)
    && b == Components(ds, m) + Zeros(4 - |ds|)
  }

  lemma {:induction false} AtonDecompose(s: string, parts: seq<byte>, cur: string, m: nat) returns (ds: seq<string>)
    requires |parts| <= 3 && m > 0 && Digits(cur) && ScanAton(s, parts, cur, m).Some?
    ensures 1 <= |ds| <= 4 - |parts| && cur + s == Join(ds) && AllComponents(ds, m)
    ensures ScanAton(s, parts, cur, m).value == parts + Components(ds, m) + Zeros(4 - |parts| - |ds|)
    decreases |s|
  {
    if s == "" {
      ds := [cur];
      assert cur + s == cur && Components(ds, m) == [Reduced(cur, m)];
    } else if IsDigit(s[0]) {
      assert cur + s == (cur + [s[0]]) + s[1..];
      ds := AtonDecompose(s[1..], parts, cur + [s[0]], m);
    } else {
      var acc := Reduced(cur, m);
      var rest := AtonDecompose(s[1..], parts + [acc], "", m);
      ds := [cur] + rest;
      JoinCons(cur, rest);
      assert "" + s[1..] == s[1..];
      assert s == "." + s[1..];
      assert Components(ds, m) == [acc] + Components(rest, m);
      Assoc(parts, [acc], Components(rest, m));
    }
  }

  lemma {:induction false} ScanComponent(d: string, rest: string, parts: seq<byte>, cur: string, m: nat)
    requires |parts| <= 3 && m > 0 && Digits(d)
    ensures ScanAton(d + rest, parts, cur, m) == ScanAton(rest, parts, cur + d, m)
    decreases |d|
  {
    if d == "" {
      assert d + rest == rest && cur + d == cur;
    } else {
      assert (d + rest)[1..] == d[1..] + rest;
      assert cur + d == (cur + [d[0]]) + d[1..];
      ScanComponent(d[1..], rest, parts, cur + [d[0]], m);
    }
  }

  lemma {:induction false} AtonAccepts(ds: seq<string>, parts: seq<byte>, m: nat)
    requires 1 <= |ds| <= 4 - |parts| && m > 0 && AllComponents(ds, m)
    ensures ScanAton(Join(ds), parts, "", m) == Some(parts + Components(ds, m) + Zeros(4 - |parts| - |ds|))
    decreases |ds|
  {
    var d := ds[0];
    assert "" + d == d;
    if |ds| == 1 {
      ScanComponent(d, "", parts, "", m);
      assert d + "" == d && Components(ds, m) == [Reduced(d, m)];
    } else {
      ScanComponent(d, "." + Join(ds[1..]), parts, "", m);
      assert ("." + Join(ds[1..]))[1..] == Join(ds[1..]);
      assert |Join(ds)| > 0;
      AtonAccepts(ds[1..], parts + [Reduced(d, m)], m);
      Assoc(parts, [Reduced(d, m)], Components(ds[1..], m));
      assert Components(ds, m) == [Reduced(d, m)] + Components(ds[1..], m);
    }
  }

  /** inet_aton accepts exactly one to four such components, and fills the missing ones with zeros. */
  lemma AtonExact(s: string, m: nat, b: seq<byte>)
    requires m > 0
    ensures Aton(s, m) == Some(b) <==> exists ds :: AtonDenotes(ds, s, m, b)
  {
    if Aton(s, m) == Some(b) {
      var ds := AtonDecompose(s, [], "", m);
      assert "" + s == s && [] + Components(ds, m) == Components(ds, m);
      assert AtonDenotes(ds, s, m, b);
    }
    if ds :| AtonDenotes(ds, s, m, b) {
      AtonAccepts(ds, [], m);
      assert [] + Components(ds, m) == Components(ds, m);
    }
  }

  /** Whatever inet_pton4 accepts, inet_aton accepts with the same address. */
  lemma AtonExtendsQuad(s: string, m: nat)
    requires IsWidth(m) && Quad(s).Some?
    ensures Aton(s, m) == Quad(s)
  {
    var b := Quad(s).value;
    QuadExact(s, b);
    var ds :| QuadDenotes(ds, s, b);
    forall i | 0 <= i < 4 ensures Reduced(ds[i], m) == Decimal(ds[i]) && IsComponent(ds[i], m) {
      assert IsOctet(ds[i]);
      ReducedIsDecimal(ds[i], m);
    }
    assert Components(ds, m) == Octets(ds) && Zeros(0) == [];
    assert AtonDenotes(ds, s, m, b);
    AtonExact(s, m, b);
  }

  function BigEndian(b: seq<byte>): nat {
    if b == [] then 0 else BigEndian(b[..|b| - 1]) * 256 + b[|b| - 1]
  }

  function Pow256(k: nat): nat { if k == 0 then 1 else 256 * Pow256(k - 1) }

  lemma {:induction false} BigEndianBound(b: seq<byte>)
    ensures BigEndian(b) < Pow256(|b|)
  {
    if b != [] { BigEndianBound(b[..|b| - 1]); }
  }

  lemma TimesOneMore(n: nat, k: nat)
    requires k > 0
    ensures n * Pow256(k) == (n * Pow256(k - 1)) * 256
  {
  }

  /** Appending zero bytes is a left shift. */
  lemma {:induction false} BigEndianZeros(b: seq<byte>, k: nat)
    ensures BigEndian(b + Zeros(k)) == BigEndian(b) * Pow256(k)
  {
    if k == 0 {
      assert b + Zeros(0) == b;
    } else {
      BigEndianZeros(b, k - 1);
      assert b + Zeros(k) == (b + Zeros(k - 1)) + [0];
      BigEndianSnoc(b + Zeros(k - 1), 0);
      TimesOneMore(BigEndian(b), k);
    }
  }

  /** The address of four bytes: the first is the highest. */
  lemma FourBytes(b: seq<byte>)
    requires |b| == 4
    ensures var b0: int, b1: int, b2: int, b3: int := b[0], b[1], b[2], b[3];
      BigEndian(b) == b0 * 0x1000000 + b1 * 0x10000 + b2 * 0x100 + b3
  {
    BigEndianSnoc(b[..3], b[3]);
    BigEndianSnoc(b[..2], b[2]);
    BigEndianSnoc(b[..1], b[1]);
    BigEndianSnoc([], b[0]);
    assert b[..3] + [b[3]] == b && b[..2] + [b[2]] == b[..3] && b[..1] + [b[1]] == b[..2] && [] + [b[0]] == b[..1];
  }

  lemma BigEndianSnoc(b: seq<byte>, x: byte)
    ensures BigEndian(b + [x]) == BigEndian(b) * 256 + x
  {
    assert (b + [x])[..|b|] == b;
  }

  lemma PartsBound(parts: seq<byte>, addr: nat, acc: nat)
    requires |parts| <= 3 && addr == BigEndian(parts) < Pow256(|parts|) && acc <= 255
    ensures addr * 256 + acc < Pow256(4) == 0x1_0000_0000
  {
    assert Pow256(4) == 256 * Pow256(3) && Pow256(3) == 256 * Pow256(2) && Pow256(2) == 256 * Pow256(1)
      && Pow256(1) == 256;
    assert Pow256(|parts|) <= Pow256(3);
  }

  method InetAton(cp: string, m: nat) returns (rc: int, addr: nat)
    requires IsWidth(m)
    ensures rc == if Aton(cp, m).Some? then 1 else 0
    ensures rc == 1 ==> addr == BigEndian(Aton(cp, m).value)
  {
    var dots: nat, acc: nat, i := 0, 0, 0;
    addr := 0;
    ghost var parts: seq<byte>, cur := [], "";
    assert cp[0..] == cp;
    var more := true;
    while more
      invariant 0 <= i <= |cp| + 1 && more == (i <= |cp|) && 0 <= dots <= 3
      invariant |parts| == dots + (if more then 0 else 1)
      invariant addr == BigEndian(parts)
      invariant more ==> acc == Reduced(cur, m) && ScanAton(cp[i..], parts, cur, m) == Aton(cp, m)
      invariant !more ==> Aton(cp, m) == Some(parts + Zeros(3 - dots))
      decreases |cp| + 1 - i
    {
      if i < |cp| && IsDigit(cp[i]) {
        ReducedSnoc(cur, cp[i], m);
        acc := (acc * 10 + DigitValue(cp[i])) % m;
        cur := cur + [cp[i]];
      } else if i == |cp| || cp[i] == '.' {
        if i < |cp| {
          dots := dots + 1;
          if dots > 3 { return 0, addr; }
        }
        if acc > 255 { return 0, addr; }
        BigEndianBound(parts);
        assert addr * 256 + acc < Pow256(4) by { PartsBound(parts, addr, acc); }
        SmallMod(addr * 256 + acc, m);
        addr := (addr * 256 + acc) % m;
        parts := parts + [acc];
        acc, cur := 0, "";
      } else {
        return 0, addr;
      }
      assert i < |cp| ==> cp[i..][1..] == cp[i + 1..];
      more := i < |cp|;
      i := i + 1;
    }
    BigEndianZeros(parts, 3 - dots);
    BigEndianBound(parts + Zeros(3 - dots));
    if dots < 3 {
      SmallMod(addr * Pow256(3 - dots), m);
      addr := (addr * Pow256(3 - dots)) % m;
    }
    rc := 1;
  }
}
