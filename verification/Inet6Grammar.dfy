/**
 inet_pton6: the text form of an IPv6 address, the exact language the reader accepts, and what each
 accepted text denotes (section 2.2 of RFC 4291).
 */
module Inet6Grammar {
  import opened Basics
  import DottedQuad

  predicate IsHex(c: char) { '0' <= c <= '9' || 'a' <= c <= 'f' || 'A' <= c <= 'F' }

  function HexDigit(c: char): (d: nat)
    ensures d < 16
  {
    if '0' <= c <= '9' then (c as int) - ('0' as int)
    else if 'a' <= c <= 'f' then (c as int) - ('a' as int) + 10
    else if 'A' <= c <= 'F' then (c as int) - ('A' as int) + 10
    else 0
  }

  const XDIGITS_L := "0123456789abcdef"

  const XDIGITS_U := "0123456789ABCDEF"

  /**
   The hexadecimal characters are those of the two tables (libfree/inet_pton.c:145-146), and a digit's value is
   its place there.
   */
  lemma HexTables(c: char)
    ensures IsHex(c) <==> c in XDIGITS_L || c in XDIGITS_U
    ensures forall i | 0 <= i < 16 && (XDIGITS_L[i] == c || XDIGITS_U[i] == c) :: HexDigit(c) == i
  {
    if IsHex(c) { assert XDIGITS_L[HexDigit(c)] == c || XDIGITS_U[HexDigit(c)] == c; }
  }

  predicate HexString(s: string) { forall i | 0 <= i < |s| :: IsHex(s[i]) }

  function HexValue(s: string): nat {
    if s == "" then 0 else HexValue(s[..|s| - 1]) * 16 + HexDigit(s[|s| - 1])
  }

  /** A 16-bit group as inet_pton6 takes it: any number of leading zeros. */
  predicate IsGroup(g: string) { g != "" && HexString(g) && HexValue(g) <= 0xffff }

  /** What may follow the last colon. */
  datatype Last = End | Group(g: string) | Dotted(q: string)

  /**
   The parts of an address text.  Each group of head and of tail stands before a colon of its own;
   gap is the second colon of "::"; last follows the last colon.
   "1:2::3:4" is Pres(["1", "2"], true, ["3"], Group("4")).
   */
  datatype Pres = Pres(head: seq<string>, gap: bool, tail: seq<string>, last: Last)

  function LastText(l: Last): string { match l case End => "" case Group(g) => g case Dotted(q) => q }

  /** The groups gs, each with its colon, and then rest. */
  function Then(gs: seq<string>, rest: string): string {
    if gs == [] then rest else gs[0] + (":" + Then(gs[1..], rest))
  }

  function AfterHead(p: Pres): string {
    if p.gap then ":" + Then(p.tail, LastText(p.last)) else Then(p.tail, LastText(p.last))
  }

  function Body(p: Pres): string { Then(p.head, AfterHead(p)) }

  function Text(p: Pres): string { if p.gap && p.head == [] then ":" + Body(p) else Body(p) }

  predicate AllGroups(gs: seq<string>) { forall i | 0 <= i < |gs| :: IsGroup(gs[i]) }

  predicate LastOk(l: Last) {
    match l case End => true case Group(g) => IsGroup(g) case Dotted(q) => DottedQuad.Quad(q).Some?
  }

  /** The shape of a text, leaving aside how many bytes it stands for. */
  predicate Shaped(p: Pres) {
    AllGroups(p.head) && AllGroups(p.tail) && LastOk(p.last) && (!p.gap ==> p.tail == [])
  }

  function GroupBytes(gs: seq<string>): (r: seq<byte>)
    requires AllGroups(gs)
    ensures |r| == 2 * |gs|
  {
    if gs == [] then [] else WordBytes(HexValue(gs[0])) + GroupBytes(gs[1..])
  }

  function LastBytes(l: Last): seq<byte>
    requires LastOk(l)
  {
    match l case End => [] case Group(g) => WordBytes(HexValue(g)) case Dotted(q) => DottedQuad.Quad(q).value
  }

  function BytesAfterHead(p: Pres): seq<byte>
    requires Shaped(p)
  {
    GroupBytes(p.tail) + LastBytes(p.last)
  }

  /** The bytes written out in the text, before any gap is filled. */
  function Written(p: Pres): seq<byte>
    requires Shaped(p)
  {
    GroupBytes(p.head) + BytesAfterHead(p)
  }

  // ----- the reader as a function of the text -----

  /** The bytes stored so far and the place of the gap, if one was seen. */
  datatype Raw = Raw(out: seq<byte>, colon: Option<nat>)

  /** Where a scan stands: the current token so far, and what has been stored before it. */
  datatype At = At(cur: string, out: seq<byte>, colon: Option<nat>)

  predicate Sound(a: At) {
    |a.out| <= 16 && HexValue(a.cur) <= 0xffff && (a.colon.Some? ==> a.colon.value <= |a.out|)
  }

  datatype Move = More(next: At) | Stop(r: Option<Raw>)

  /** What the first character of s does. */
  function Step(s: string, a: At): (m: Move)
    requires s != "" && Sound(a)
    ensures m.More? ==> Sound(m.next)
    ensures m.Stop? && m.r.Some? ==> RawSound(m.r.value)
  {
    if IsHex(s[0]) then
      if HexValue(a.cur + [s[0]]) > 0xffff then Stop(None) else More(a.(cur := a.cur + [s[0]]))
    else if s[0] == ':' && a.cur == "" then
      if a.colon.Some? then Stop(None) else More(a.(colon := Some(|a.out|)))
    else if s[0] == ':' then
      if |a.out| + 2 > 16 then Stop(None) else More(At("", a.out + WordBytes(HexValue(a.cur)), a.colon))
    else if s[0] == '.' && |a.out| + 4 <= 16 && DottedQuad.Quad(a.cur + s).Some? then
      Stop(Some(Raw(a.out + DottedQuad.Quad(a.cur + s).value, a.colon)))
    else
      Stop(None)
  }

  predicate RawSound(r: Raw) { |r.out| <= 16 && (r.colon.Some? ==> r.colon.value <= |r.out|) }

  /** The end of the text stores the group in progress. */
  function AtEnd(a: At): (r: Option<Raw>)
    requires Sound(a)
    ensures r.Some? ==> RawSound(r.value)
  {
    if a.cur == "" then Some(Raw(a.out, a.colon))
    else if |a.out| + 2 > 16 then None
    else Some(Raw(a.out + WordBytes(HexValue(a.cur)), a.colon))
  }

  function Run(s: string, a: At): (r: Option<Raw>)
    requires Sound(a)
    ensures r.Some? ==> RawSound(r.value)
    decreases |s|
  {
    if s == "" then AtEnd(a) else match Step(s, a) case More(b) => Run(s[1..], b) case Stop(r) => r
  }

  /** Reads s; cur is the part of the current token already seen. */
  function Scan(s: string, cur: string, out: seq<byte>, colon: Option<nat>): (r: Option<Raw>)
    requires Sound(At(cur, out, colon))
    ensures r.Some? ==> RawSound(r.value)
  {
    Run(s, At(cur, out, colon))
  }

  /** Fills the gap.  With all sixteen bytes written out, what follows the gap is lost. */
  function Filled(out: seq<byte>, c: nat): (r: seq<byte>)
    requires c <= |out| <= 16
    ensures |r| == 16
  {
    if |out| < 16 then out[..c] + Zeros(16 - |out|) + out[c..] else out[..c] + Zeros(16 - c)
  }

  function Finish(r: Raw): Option<seq<byte>>
    requires RawSound(r)
  {
    if r.colon.Some? then Some(Filled(r.out, r.colon.value))
    else if |r.out| == 16 then Some(r.out)
    else None
  }

  function ScanAll(s: string): (r: Option<Raw>)
    ensures r.Some? ==> RawSound(r.value)
  {
    if s != "" && s[0] == ':' then
      if |s| >= 2 && s[1] == ':' then Scan(s[1..], "", [], None) else None
    else
      Scan(s, "", [], None)
  }

  function Pton6(s: string): Option<seq<byte>> {
    if ScanAll(s).Some? then Finish(ScanAll(s).value) else None
  }

  // ----- the exact language -----

  /** The texts inet_pton6 accepts: those whose bytes fill the address, or leave room next to a gap. */
  predicate Accepted(p: Pres) {
    Shaped(p) && (if p.gap then |Written(p)| <= 16 else |Written(p)| == 16)
  }

  /** What inet_pton6 takes an accepted text to mean. */
  function CodeMeaning(p: Pres): seq<byte>
    requires Accepted(p)
  {
    if p.gap then Filled(Written(p), 2 * |p.head|) else Written(p)
  }

  lemma HexSnoc(s: string, c: char)
    ensures HexValue(s + [c]) == HexValue(s) * 16 + HexDigit(c)
  {
    assert (s + [c])[..|s|] == s;
  }

  lemma {:induction false} HexPrefix(s: string, t: string)
    ensures HexValue(s) <= HexValue(s + t)
  {
    if t == "" {
      assert s + t == s;
    } else {
      HexPrefix(s, t[..|t| - 1]);
      assert s + t == (s + t[..|t| - 1]) + [t[|t| - 1]];
      HexSnoc(s + t[..|t| - 1], t[|t| - 1]);
    }
  }

  lemma RunStep(s: string, a: At, b: At)
    requires s != "" && Sound(a) && Step(s, a) == More(b)
    ensures Run(s, a) == Run(s[1..], b)
  {
  }

  lemma {:induction false} ScanDigits(g: string, rest: string, cur: string, out: seq<byte>, colon: Option<nat>)
    requires |out| <= 16 && (colon.Some? ==> colon.value <= |out|)
    requires HexString(g) && HexValue(cur + g) <= 0xffff && HexValue(cur) <= 0xffff
    ensures Scan(g + rest, cur, out, colon) == Scan(rest, cur + g, out, colon)
    decreases |g|
  {
    if g == "" {
      assert g + rest == rest && cur + g == cur;
    } else {
      var c := cur + [g[0]];
      assert cur + g == c + g[1..];
      HexPrefix(c, g[1..]);
      assert (g + rest)[0] == g[0] && (g + rest)[1..] == g[1..] + rest;
      RunStep(g + rest, At(cur, out, colon), At(c, out, colon));
      ScanDigits(g[1..], rest, c, out, colon);
    }
  }

  /** Small decimal numbers stay small when their digits are read as hexadecimal. */
  lemma {:induction false} DecimalAsHex(s: string)
    requires DottedQuad.Digits(s)
    ensures HexString(s)
    ensures DottedQuad.Decimal(s) < 10 ==> HexValue(s) < 0x10
    ensures DottedQuad.Decimal(s) < 100 ==> HexValue(s) < 0x100
    ensures DottedQuad.Decimal(s) < 1000 ==> HexValue(s) < 0x1000
    ensures DottedQuad.Decimal(s) == 0 ==> HexValue(s) == 0
  {
    assert forall i | 0 <= i < |s| :: DottedQuad.IsDigit(s[i]);
    if s != "" {
      var t, c := s[..|s| - 1], s[|s| - 1];
      DecimalAsHex(t);
      assert DottedQuad.IsDigit(c) && HexDigit(c) == DottedQuad.DigitValue(c) < 10;
    }
  }

  /** A dotted quad starts with a decimal octet and a dot. */
  lemma DottedStart(q: string) returns (d: string, rest: string)
    requires DottedQuad.Quad(q).Some?
    ensures q == d + rest && d != "" && rest != "" && rest[0] == '.'
    ensures HexString(d) && HexValue(d) <= 0xffff
  {
    var b := DottedQuad.Quad(q).value;
    DottedQuad.QuadExact(q, b);
    var ds :| DottedQuad.QuadDenotes(ds, q, b);
    d, rest := ds[0], "." + DottedQuad.Join(ds[1..]);
    assert DottedQuad.IsOctet(d);
    DecimalAsHex(d);
  }

  lemma ScanDot(rest: string, d: string, out: seq<byte>, colon: Option<nat>)
    requires rest != "" && rest[0] == '.' && HexValue(d) <= 0xffff
    requires DottedQuad.Quad(d + rest).Some? && |out| + 4 <= 16 && (colon.Some? ==> colon.value <= |out|)
    ensures Scan(rest, d, out, colon) == Some(Raw(out + DottedQuad.Quad(d + rest).value, colon))
  {
  }

  lemma ScanDotted(q: string, out: seq<byte>, colon: Option<nat>)
    requires DottedQuad.Quad(q).Some? && |out| + 4 <= 16 && (colon.Some? ==> colon.value <= |out|)
    ensures Scan(q, "", out, colon) == Some(Raw(out + DottedQuad.Quad(q).value, colon))
  {
    var d, rest := DottedStart(q);
    assert "" + d == d;
    ScanDigits(d, rest, "", out, colon);
    ScanDot(rest, d, out, colon);
  }

  lemma ScanGroup(g: string, rest: string, out: seq<byte>, colon: Option<nat>)
    requires IsGroup(g) && |out| + 2 <= 16 && (colon.Some? ==> colon.value <= |out|)
    ensures Scan(g + (":" + rest), "", out, colon) == Scan(rest, "", out + WordBytes(HexValue(g)), colon)
  {
    assert "" + g == g;
    ScanDigits(g, ":" + rest, "", out, colon);
    assert (":" + rest)[1..] == rest;
  }

  lemma ScanGap(rest: string, out: seq<byte>)
    requires |out| <= 16
    ensures Scan(":" + rest, "", out, None) == Scan(rest, "", out, Some(|out|))
  {
    assert (":" + rest)[1..] == rest;
  }

  lemma ScanLast(l: Last, out: seq<byte>, colon: Option<nat>)
    requires LastOk(l) && |out| + |LastBytes(l)| <= 16 && (colon.Some? ==> colon.value <= |out|)
    ensures Scan(LastText(l), "", out, colon) == Some(Raw(out + LastBytes(l), colon))
  {
    match l {
      case End => assert out + [] == out;
      case Group(g) =>
        assert g + "" == g && "" + g == g;
        ScanDigits(g, "", "", out, colon);
      case Dotted(q) => ScanDotted(q, out, colon);
    }
  }

  lemma GroupFirst(g: string, q: Pres)
    requires IsGroup(g) && Shaped(q)
    ensures var p := q.(head := [g] + q.head);
      && Shaped(p)
      && Body(p) == g + (":" + Body(q)) && Written(p) == WordBytes(HexValue(g)) + Written(q)
  {
    var p := q.(head := [g] + q.head);
    assert p.head[1..] == q.head && p.head[0] == g;
    Assoc(WordBytes(HexValue(g)), GroupBytes(q.head), BytesAfterHead(q));
  }

  lemma GapFirst(q: Pres)
    requires Shaped(q) && !q.gap
    ensures var p := Pres([], true, q.head, q.last);
      && Shaped(p) && Body(p) == ":" + Body(q) && Written(p) == Written(q)
  {
  }

  function Scanned(p: Pres, out: seq<byte>, colon: Option<nat>): Raw
    requires Shaped(p)
  {
    Raw(out + Written(p), if p.gap then Some(|out| + 2 * |p.head|) else colon)
  }

  lemma ScannedGroup(g: string, q: Pres, out: seq<byte>, colon: Option<nat>)
    requires IsGroup(g) && Shaped(q)
    ensures var p := q.(head := [g] + q.head); var more := out + WordBytes(HexValue(g));
      Shaped(p) && out + Written(p) == more + Written(q) && Scanned(p, out, colon) == Scanned(q, more, colon)
  {
    GroupFirst(g, q);
    Assoc(out, WordBytes(HexValue(g)), Written(q));
  }

  lemma ScanFirstGroup(g: string, q: Pres, out: seq<byte>, colon: Option<nat>)
    requires IsGroup(g) && Shaped(q) && |out| + 2 <= 16 && (colon.Some? ==> colon.value <= |out|)
    ensures var p := q.(head := [g] + q.head);
      Shaped(p) && Scan(Body(p), "", out, colon) == Scan(Body(q), "", out + WordBytes(HexValue(g)), colon)
  {
    GroupFirst(g, q);
    ScanGroup(g, Body(q), out, colon);
  }

  lemma ScanAfterGap(q: Pres, out: seq<byte>)
    requires Shaped(q) && !q.gap && |out| <= 16
    ensures var p := Pres([], true, q.head, q.last);
      && Shaped(p) && Scan(Body(p), "", out, None) == Scan(Body(q), "", out, Some(|out|))
      && Scanned(p, out, None) == Scanned(q, out, Some(|out|))
  {
    GapFirst(q);
    ScanGap(Body(q), out);
  }

  /** The scan of a well-shaped text stores exactly the bytes written out in it. */
  lemma {:induction false} ScanBody(p: Pres, out: seq<byte>, colon: Option<nat>)
    requires Shaped(p) && |out| + |Written(p)| <= 16
    requires colon.Some? ==> colon.value <= |out| && !p.gap
    ensures Scan(Body(p), "", out, colon) == Some(Scanned(p, out, colon))
    decreases p.gap, |p.head|
  {
    if p.head != [] {
      var g, q := p.head[0], p.(head := p.head[1..]);
      assert q.(head := [g] + q.head) == p;
      ScannedGroup(g, q, out, colon);
      ScanFirstGroup(g, q, out, colon);
      ScanBody(q, out + WordBytes(HexValue(g)), colon);
    } else if p.gap {
      var q := Pres(p.tail, false, [], p.last);
      ScanAfterGap(q, out);
      GapFirst(q);
      ScanBody(q, out, Some(|out|));
    } else {
      assert Body(p) == LastText(p.last) && Written(p) == LastBytes(p.last);
      ScanLast(p.last, out, colon);
    }
  }

  /** p explains how the scan of s, entered with these arguments, came to its result. */
  ghost predicate Explains(p: Pres, s: string, cur: string, out: seq<byte>, colon: Option<nat>)
    requires |out| <= 16 && HexValue(cur) <= 0xffff && (colon.Some? ==> colon.value <= |out|)
  {
    && Shaped(p) && cur + s == Body(p) && (colon.Some? ==> !p.gap)
    && Scan(s, cur, out, colon) == Some(Scanned(p, out, colon))
  }

  lemma ExplainEnd(cur: string, out: seq<byte>, colon: Option<nat>) returns (p: Pres)
    requires |out| <= 16 && HexString(cur) && HexValue(cur) <= 0xffff && (colon.Some? ==> colon.value <= |out|)
    requires Scan("", cur, out, colon).Some?
    ensures Explains(p, "", cur, out, colon)
  {
    p := Pres([], false, [], if cur == "" then End else Group(cur));
    assert cur + "" == cur && out + [] == out;
    assert Written(p) == LastBytes(p.last) && Body(p) == cur;
  }

  lemma ExplainDot(s: string, cur: string, out: seq<byte>, colon: Option<nat>) returns (p: Pres)
    requires |out| <= 16 && HexValue(cur) <= 0xffff && (colon.Some? ==> colon.value <= |out|)
    requires s != "" && !IsHex(s[0]) && s[0] != ':' && Scan(s, cur, out, colon).Some?
    ensures Explains(p, s, cur, out, colon)
  {
    p := Pres([], false, [], Dotted(cur + s));
    assert Written(p) == LastBytes(p.last) && Body(p) == cur + s;
  }

  lemma ExplainDigit(p: Pres, s: string, cur: string, out: seq<byte>, colon: Option<nat>)
    requires |out| <= 16 && HexValue(cur) <= 0xffff && (colon.Some? ==> colon.value <= |out|)
    requires s != "" && IsHex(s[0]) && HexValue(cur + [s[0]]) <= 0xffff
    requires Explains(p, s[1..], cur + [s[0]], out, colon)
    ensures Explains(p, s, cur, out, colon)
  {
    MoveFirst(cur, s);
    RunStep(s, At(cur, out, colon), At(cur + [s[0]], out, colon));
  }

  lemma ScanColon(s: string, cur: string, out: seq<byte>, colon: Option<nat>)
    requires IsGroup(cur) && |out| + 2 <= 16 && (colon.Some? ==> colon.value <= |out|) && s != "" && s[0] == ':'
    ensures Scan(s, cur, out, colon) == Scan(s[1..], "", out + WordBytes(HexValue(cur)), colon)
  {
    RunStep(s, At(cur, out, colon), At("", out + WordBytes(HexValue(cur)), colon));
  }

  lemma ExplainGroup(q: Pres, s: string, cur: string, out: seq<byte>, colon: Option<nat>) returns (p: Pres)
    requires IsGroup(cur) && |out| + 2 <= 16 && (colon.Some? ==> colon.value <= |out|)
    requires s != "" && s[0] == ':' && Explains(q, s[1..], "", out + WordBytes(HexValue(cur)), colon)
    ensures Explains(p, s, cur, out, colon)
  {
    p := q.(head := [cur] + q.head);
    GroupFirst(cur, q);
    ScannedGroup(cur, q, out, colon);
    ScanColon(s, cur, out, colon);
    EmptyLeft(s[1..]);
    Uncons(s);
  }

  lemma ScanTwoColons(s: string, out: seq<byte>)
    requires |out| <= 16 && s != "" && s[0] == ':'
    ensures Scan(s, "", out, None) == Scan(s[1..], "", out, Some(|out|))
  {
    RunStep(s, At("", out, None), At("", out, Some(|out|)));
  }

  lemma TextAfterGap(q: Pres, s: string)
    requires Shaped(q) && !q.gap && s != "" && s[0] == ':' && "" + s[1..] == Body(q)
    ensures var p := Pres([], true, q.head, q.last); Shaped(p) && "" + s == Body(p)
  {
    GapFirst(q);
    EmptyLeft(s);
    EmptyLeft(s[1..]);
    Uncons(s);
  }

  lemma ScannedAfterGap(q: Pres, out: seq<byte>)
    requires Shaped(q) && !q.gap
    ensures var p := Pres([], true, q.head, q.last);
      Shaped(p) && Scanned(p, out, None) == Scanned(q, out, Some(|out|))
  {
    GapFirst(q);
  }

  lemma ExplainGap(q: Pres, s: string, out: seq<byte>) returns (p: Pres)
    requires |out| <= 16 && s != "" && s[0] == ':' && Explains(q, s[1..], "", out, Some(|out|))
    ensures Explains(p, s, "", out, None)
  {
    p := Pres([], true, q.head, q.last);
    TextAfterGap(q, s);
    ScannedAfterGap(q, out);
    ScanTwoColons(s, out);
  }

  /** What the first character has come to in a scan that gets through. */
  lemma ThroughDigit(s: string, cur: string, out: seq<byte>, colon: Option<nat>)
    requires |out| <= 16 && (colon.Some? ==> colon.value <= |out|) && HexString(cur) && HexValue(cur) <= 0xffff
    requires s != "" && IsHex(s[0]) && Scan(s, cur, out, colon).Some?
    ensures HexString(cur + [s[0]]) && HexValue(cur + [s[0]]) <= 0xffff
    ensures Scan(s[1..], cur + [s[0]], out, colon).Some?
  {
  }

  lemma ThroughColon(s: string, cur: string, out: seq<byte>, colon: Option<nat>)
    requires |out| <= 16 && (colon.Some? ==> colon.value <= |out|) && HexString(cur) && HexValue(cur) <= 0xffff
    requires s != "" && s[0] == ':' && Scan(s, cur, out, colon).Some?
    ensures cur == "" ==> colon == None && Scan(s[1..], "", out, Some(|out|)).Some?
    ensures cur != "" ==> |out| + 2 <= 16 && Scan(s[1..], "", out + WordBytes(HexValue(cur)), colon).Some?
  {
  }

  /** Every text the scan gets through has the shape of an address text. */
  lemma {:induction false} ScanDecompose(s: string, cur: string, out: seq<byte>, colon: Option<nat>) returns (p: Pres)
    requires |out| <= 16 && (colon.Some? ==> colon.value <= |out|)
    requires HexString(cur) && HexValue(cur) <= 0xffff && Scan(s, cur, out, colon).Some?
    ensures Explains(p, s, cur, out, colon)
    decreases |s|
  {
    if s == "" {
      p := ExplainEnd(cur, out, colon);
    } else if IsHex(s[0]) {
      ThroughDigit(s, cur, out, colon);
      p := ScanDecompose(s[1..], cur + [s[0]], out, colon);
      ExplainDigit(p, s, cur, out, colon);
    } else if s[0] == ':' {
      ThroughColon(s, cur, out, colon);
      if cur == "" {
        var q := ScanDecompose(s[1..], "", out, Some(|out|));
        p := ExplainGap(q, s, out);
      } else {
        var q := ScanDecompose(s[1..], "", out + WordBytes(HexValue(cur)), colon);
        p := ExplainGroup(q, s, cur, out, colon);
      }
    } else {
      p := ExplainDot(s, cur, out, colon);
    }
  }

  lemma TextStart(p: Pres)
    requires Shaped(p)
    ensures Body(p) != "" && Body(p)[0] == ':' <==> p.gap && p.head == []
    ensures ScanAll(Text(p)) == Scan(Body(p), "", [], None)
  {
    if p.head != [] {
      assert IsGroup(p.head[0]);
      assert Body(p)[0] == p.head[0][0];
      assert IsHex(p.head[0][0]);
    } else if p.gap {
      assert Body(p)[0] == ':';
      assert Text(p)[1..] == Body(p);
    } else {
      assert Body(p) == LastText(p.last);
      match p.last {
        case End =>
        case Group(g) => assert IsHex(g[0]);
        case Dotted(q) => assert q != "" && q[0] != ':';
      }
    }
  }

  /** An accepted text is read, with the meaning the grammar gives it. */
  lemma Accepts(p: Pres)
    requires Accepted(p)
    ensures Pton6(Text(p)) == Some(CodeMeaning(p))
  {
    TextStart(p);
    ScanBody(p, [], None);
    assert [] + Written(p) == Written(p);
  }

  /** inet_pton6 accepts exactly the texts of the grammar: no more and no fewer. */
  lemma Exact(s: string, b: seq<byte>)
    ensures Pton6(s) == Some(b) <==> exists p :: Accepted(p) && Text(p) == s && CodeMeaning(p) == b
  {
    if Pton6(s) == Some(b) {
      var doubled := s[0] == ':';
      var t := if doubled then s[1..] else s;
      var p := ScanDecompose(t, "", [], None);
      assert "" + t == t && [] + Written(p) == Written(p);
      TextStart(p);
      assert s == Text(p);
      assert Accepted(p) && CodeMeaning(p) == b;
    }
    if p :| Accepted(p) && Text(p) == s && CodeMeaning(p) == b {
      Accepts(p);
    }
  }

  // ----- the standard's texts -----

  predicate StandardGroups(gs: seq<string>) { forall i | 0 <= i < |gs| :: 1 <= |gs[i]| <= 4 && HexString(gs[i]) }

  /**
   The three forms of section 2.2 of RFC 4291: groups of one to four digits, "::" standing for at
   least one group of zeros, and a dotted quad in the place of the last two groups.
   */
  predicate Standard(p: Pres) {
    && StandardGroups(p.head) && StandardGroups(p.tail) && (!p.gap ==> p.tail == [])
    && (match p.last
        case End => p.gap && p.tail == []
        case Group(g) => 1 <= |g| <= 4 && HexString(g)
        case Dotted(q) => DottedQuad.Quad(q).Some?)
    && (var n := |p.head| + |p.tail| + (match p.last case End => 0 case Group(_) => 1 case Dotted(_) => 2);
        if p.gap then n <= 7 else n == 8)
  }

  lemma {:induction false} ShortGroup(g: string)
    requires |g| <= 4
    ensures HexValue(g) <= 0xffff
    ensures |g| == 1 ==> HexValue(g) < 16
    ensures |g| == 2 ==> HexValue(g) < 256
    ensures |g| == 3 ==> HexValue(g) < 4096
  {
    if g != "" { ShortGroup(g[..|g| - 1]); }
  }

  lemma ShortGroups(gs: seq<string>)
    requires StandardGroups(gs)
    ensures AllGroups(gs)
  {
    forall i | 0 <= i < |gs| ensures IsGroup(gs[i]) { ShortGroup(gs[i]); }
  }

  lemma StandardShaped(p: Pres)
    requires Standard(p)
    ensures Accepted(p) && (p.gap ==> |Written(p)| <= 14)
  {
    ShortGroups(p.head);
    ShortGroups(p.tail);
    if p.last.Group? { ShortGroup(p.last.g); }
    assert p.last.Dotted? ==> |LastBytes(p.last)| == 4;
  }

  /** The bytes a standard text denotes: the written groups with zeros in the place of "::". */
  function Denotes(p: Pres): seq<byte>
    requires Shaped(p) && |Written(p)| <= 16
  {
    GroupBytes(p.head) + Zeros(16 - |Written(p)|) + BytesAfterHead(p)
  }

  lemma FilledParts(h: seq<byte>, r: seq<byte>)
    requires |h| + |r| <= 16
    ensures |h| + |r| < 16 ==> Filled(h + r, |h|) == h + Zeros(16 - |h + r|) + r
    ensures |h| + |r| == 16 ==> Filled(h + r, |h|) == h + Zeros(16 - |h|)
    ensures h + Zeros(0) + r == h + r
  {
    assert (h + r)[..|h|] == h && (h + r)[|h|..] == r;
    assert h + Zeros(0) == h;
  }

  /** Every standard text is accepted with exactly the bytes it denotes. */
  lemma StandardAccepted(p: Pres)
    requires Standard(p)
    ensures Accepted(p) && |Denotes(p)| == 16 && Pton6(Text(p)) == Some(Denotes(p))
  {
    StandardShaped(p);
    Accepts(p);
    FilledParts(GroupBytes(p.head), BytesAfterHead(p));
  }

  /**
   The header comment of inet_pton6 says that "::" in a full address is ignored.  The shift instead
   clears everything after it, so the comment holds exactly when those bytes are zero already.
   */
  lemma GapInFullAddress(p: Pres)
    requires Accepted(p) && p.gap && |Written(p)| == 16
    ensures Pton6(Text(p)) == Some(GroupBytes(p.head) + Zeros(16 - 2 * |p.head|))
    ensures Pton6(Text(p)) == Some(Written(p)) <==> BytesAfterHead(p) == Zeros(16 - 2 * |p.head|)
  {
    Accepts(p);
    FilledParts(GroupBytes(p.head), BytesAfterHead(p));
    SameTail(GroupBytes(p.head), BytesAfterHead(p), Zeros(16 - 2 * |p.head|));
  }

  lemma SameTail<T>(h: seq<T>, a: seq<T>, b: seq<T>)
    ensures h + a == h + b <==> a == b
  {
    assert (h + a)[|h|..] == a && (h + b)[|h|..] == b;
  }

  /** Eight groups and a gap: 1:1:1:1:1:1:1::8. */
  function Crowded(): Pres { Pres(seq(7, _ => "1"), true, [], Group("8")) }

  lemma CrowdedText()
    ensures Text(Crowded()) == "1:1:1:1:1:1:1::8"
  {
    var p := Crowded();
    Ones(7, AfterHead(p));
    assert AfterHead(p) == ":8";
  }

  lemma CrowdedBytes()
    ensures Accepted(Crowded()) && |Written(Crowded())| == 16
    ensures GroupBytes(Crowded().head) == seq(14, i => i % 2)
  {
    OnesBytes(7);
    assert HexString("8") && "8"[..0] == "" && HexValue("8") == 8;
  }

  /** A text on which the comment fails: the last group comes out as zero. */
  lemma GapInFullAddressExample()
    ensures Text(Crowded()) == "1:1:1:1:1:1:1::8"
    ensures Pton6(Text(Crowded())) == Some(seq(14, i => i % 2) + Zeros(2))
  {
    CrowdedText();
    CrowdedBytes();
    GapInFullAddress(Crowded());
  }

  lemma {:induction false} OnesBytes(n: nat)
    ensures AllGroups(seq(n, _ => "1")) && GroupBytes(seq(n, _ => "1")) == seq(2 * n, i => i % 2)
  {
    var h := seq(n, _ => "1");
    assert "1"[..0] == "" && HexValue("1") == 1;
    if n > 0 {
      OnesBytes(n - 1);
      assert h[1..] == seq(n - 1, _ => "1") && h[0] == "1";
      assert GroupBytes(h) == [0, 1] + GroupBytes(h[1..]);
    }
  }

  lemma {:induction false} Ones(n: nat, rest: string)
    ensures Then(seq(n, _ => "1"), rest) == seq(2 * n, i => if i % 2 == 0 then '1' else ':') + rest
  {
    var h := seq(n, _ => "1");
    if n > 0 {
      Ones(n - 1, rest);
      assert h[1..] == seq(n - 1, _ => "1") && h[0] == "1";
      assert Then(h, rest) == "1" + (":" + Then(h[1..], rest));
    }
  }
}
