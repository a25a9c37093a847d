/** inet_ntop4 and inet_ntop6 as they run, into a scratch array of 46 characters. */
module Inet6Writer {
  import opened Basics
  import opened Inet6Grammar
  import opened Inet6Printer

  // ----- the search for the longest run -----

  /** Where the search stands at word i: best is the longest run that ended before from. */
  ghost predicate BestUpTo(w: Words, base: int, len: int, from: int) {
    if base == -1 then
      forall c, e | ZeroRun(w, c, e) :: e > from
    else
      && ZeroRun(w, base, base + len) && base + len <= from
      && forall c, e | ZeroRun(w, c, e) && e <= from :: e - c <= len && (e - c == len ==> base <= c)
  }

  /** No run crosses the boundary before word i. */
  ghost predicate Boundary(w: Words, i: int) {
    0 <= i <= 8 && (i == 0 || w[i - 1] != 0)
  }

  ghost predicate Searching(w: Words, bestBase: int, bestLen: int, curBase: int, curLen: int, i: int) {
    && 0 <= i <= 8
    && if curBase == -1 then
         Boundary(w, i) && BestUpTo(w, bestBase, bestLen, i)
       else
         && 0 <= curBase < i && curLen == i - curBase && ZeroRun(w, curBase, i)
         && Boundary(w, curBase) && BestUpTo(w, bestBase, bestLen, curBase)
  }

  /** Closing the current run keeps the longer of the two, the earlier one when they are equal. */
  lemma CloseRun(w: Words, bestBase: int, bestLen: int, curBase: int, curLen: int, i: int)
    requires Searching(w, bestBase, bestLen, curBase, curLen, i) && curBase != -1
    ensures if bestBase == -1 || curLen > bestLen then BestUpTo(w, curBase, curLen, i)
      else BestUpTo(w, bestBase, bestLen, i)
  {
    forall c, e | ZeroRun(w, c, e) && e <= i && e > curBase ensures curBase <= c {
      assert forall k | c <= k < e :: w[k] == 0;
    }
  }

  lemma StepOverNonzero(w: Words, base: int, len: int, i: int)
    requires 0 <= i < 8 && w[i] != 0 && BestUpTo(w, base, len, i)
    ensures BestUpTo(w, base, len, i + 1)
  {
    forall c, e | ZeroRun(w, c, e) && e <= i + 1 ensures e <= i {
      assert forall k | c <= k < e :: w[k] == 0;
    }
  }

  ghost function Best(base: int, len: int): Option<Shortened> {
    if base == -1 then None else Some(Shortened(base, base + len))
  }

  method FindBest(words: array<word>) returns (base: int, len: int)
    requires words.Length == 8
    ensures Chosen(words[..], Best(base, len))
  {
    ghost var w: Words := words[..];
    base, len := -1, 0;
    var curBase, curLen, i := -1, 0, 0;
    while i < 8
      invariant Searching(w, base, len, curBase, curLen, i)
    {
      if words[i] == 0 {
        if curBase == -1 { curBase, curLen := i, 1; } else { curLen := curLen + 1; }
      } else {
        if curBase != -1 {
          CloseRun(w, base, len, curBase, curLen, i);
          if base == -1 || curLen > len { base, len := curBase, curLen; }
          curBase := -1;
        }
        StepOverNonzero(w, base, len, i);
      }
      i := i + 1;
    }
    if curBase != -1 {
      CloseRun(w, base, len, curBase, curLen, i);
      if base == -1 || curLen > len { base, len := curBase, curLen; }
    }
    if base != -1 && len < 2 { base := -1; }
  }

  // ----- the text, piece by piece -----

  predicate Inside(best: Option<Shortened>, i: nat) { best.Some? && best.value.base <= i < best.value.end }

  /** What the formatting loop still has to write at word i. */
  function Rest(b: Address, best: Option<Shortened>, i: nat): string
    requires i <= 8
    decreases 8 - i
  {
    var w := WordsOf(b);
    if i == 8 then
      if best.Some? && best.value.end == 8 then ":" else ""
    else if Inside(best, i) then
      (if i == best.value.base then ":" else "") + Rest(b, best, i + 1)
    else
      (if i != 0 then ":" else "") +
      (if i == 6 && Embedded(w, best) then QuadText(b[12..]) else HexText(w[i]) + Rest(b, best, i + 1))
  }

  predicate Fits(best: Option<Shortened>) { best.Some? ==> 0 <= best.value.base < best.value.end <= 8 }

  lemma ThenCons(w: seq<word>, i: nat, j: nat, rest: string)
    requires i < j <= |w|
    ensures Then(Hexes(w[i..j]), rest) == HexText(w[i]) + (":" + Then(Hexes(w[i + 1..j]), rest))
  {
    assert Hexes(w[i..j])[1..] == Hexes(w[i + 1..j]);
  }

  lemma RestPlain(b: Address, best: Option<Shortened>, i: nat)
    requires i < 8 && !Inside(best, i) && !(i == 6 && Embedded(WordsOf(b), best))
    ensures Rest(b, best, i) == (if i == 0 then "" else ":") + (HexText(WordsOf(b)[i]) + Rest(b, best, i + 1))
  {
  }

  /** From word i on, past the gap if there is one: each group with its colon before it. */
  lemma {:induction false} RestTail(b: Address, best: Option<Shortened>, i: nat)
    requires 1 <= i <= 7 && Fits(best) && (best.Some? ==> best.value.end <= i) && !Embedded(WordsOf(b), best)
    ensures Rest(b, best, i) == ":" + Then(Hexes(WordsOf(b)[i..7]), HexText(WordsOf(b)[7]))
    decreases 8 - i
  {
    var w := WordsOf(b);
    RestPlain(b, best, i);
    if i == 7 {
      assert w[7..7] == [] && Rest(b, best, 8) == "";
      assert HexText(w[7]) + "" == HexText(w[7]);
    } else {
      RestTail(b, best, i + 1);
      ThenCons(w, i, 7, HexText(w[7]));
    }
  }

  /** After the gap, the text is what the grammar puts there. */
  lemma RestAfterGap(b: Address, best: Option<Shortened>)
    requires Fits(best) && best.Some?
    ensures Rest(b, best, best.value.end) == AfterHead(Canonical(b, best))
  {
    var w, r := WordsOf(b), best.value;
    if r.end == 8 {
      assert Rest(b, best, 8) == ":" + "";
    } else if Embedded(w, best) {
      var q := QuadText(b[12..]);
      assert Rest(b, best, 6) == ":" + q;
      if r.end == 5 {
        RestPlain(b, best, 5);
        ThenCons(w, 5, 6, q);
      }
      assert w[6..6] == [];
    } else {
      RestTail(b, best, r.end);
    }
  }

  lemma {:induction false} RestInGap(b: Address, best: Option<Shortened>, i: nat)
    requires Fits(best) && best.Some? && best.value.base < i <= best.value.end
    ensures Rest(b, best, i) == Rest(b, best, best.value.end)
    decreases 8 - i
  {
    if i < best.value.end {
      RestInGap(b, best, i + 1);
      assert "" + Rest(b, best, i + 1) == Rest(b, best, i + 1);
    }
  }

  /** Up to the gap: the groups of the head, each but the first with its colon before it. */
  lemma {:induction false} RestHead(b: Address, best: Option<Shortened>, i: nat)
    requires Fits(best) && best.Some? && 1 <= i <= best.value.base
    ensures Rest(b, best, i)
         == ":" + Then(Hexes(WordsOf(b)[i..best.value.base]), Rest(b, best, best.value.end))
    decreases 8 - i
  {
    var w, r := WordsOf(b), best.value;
    var z := Rest(b, best, r.end);
    if i == r.base {
      RestInGap(b, best, i + 1);
      assert w[i..i] == [];
    } else {
      RestHead(b, best, i + 1);
      RestPlain(b, best, i);
      ThenCons(w, i, r.base, z);
    }
  }

  /** The first group goes without a colon before it. */
  lemma RestFirst(b: Address, best: Option<Shortened>, n: nat, z: string)
    requires 1 <= n <= 8 && !Inside(best, 0) && Rest(b, best, 1) == ":" + Then(Hexes(WordsOf(b)[1..n]), z)
    ensures Rest(b, best, 0) == Then(Hexes(WordsOf(b)[..n]), z)
  {
    var w := WordsOf(b);
    RestPlain(b, best, 0);
    EmptyLeft(HexText(w[0]) + Rest(b, best, 1));
    ThenCons(w, 0, n, z);
    assert w[0..n] == w[..n];
  }

  lemma RestWithoutGap(b: Address)
    ensures Rest(b, None, 0) == Text(Canonical(b, None))
  {
    RestTail(b, None, 1);
    RestFirst(b, None, 7, HexText(WordsOf(b)[7]));
    assert AfterHead(Canonical(b, None)) == HexText(WordsOf(b)[7]);
  }

  lemma RestWithHead(b: Address, best: Option<Shortened>)
    requires Fits(best) && best.Some? && best.value.base > 0
    ensures Rest(b, best, 0) == Text(Canonical(b, best))
  {
    var p, n := Canonical(b, best), best.value.base;
    RestAfterGap(b, best);
    RestHead(b, best, 1);
    RestFirst(b, best, n, AfterHead(p));
    assert p.head == Hexes(WordsOf(b)[..n]);
  }

  /** All that the loop writes is the canonical text. */
  lemma RestIsText(b: Address, best: Option<Shortened>)
    requires Fits(best)
    ensures Rest(b, best, 0) == Text(Canonical(b, best))
  {
    if best.None? {
      RestWithoutGap(b);
    } else if best.value.base > 0 {
      RestWithHead(b, best);
    } else {
      RestGapFirst(b, best);
    }
  }

  lemma RestGapFirst(b: Address, best: Option<Shortened>)
    requires Fits(best) && best.Some? && best.value.base == 0
    ensures Rest(b, best, 0) == Text(Canonical(b, best))
  {
    var p := Canonical(b, best);
    RestAfterGap(b, best);
    RestInGap(b, best, 1);
    assert p.head == [] && p.gap by { assert WordsOf(b)[..0] == []; }
    assert Body(p) == AfterHead(p);
    assert Rest(b, best, 0) == ":" + Rest(b, best, 1);
  }

  // ----- the routines -----

  /** sprintf or strcpy of s at position tp, with the terminator it writes. */
  method Put(buf: array<char>, tp: nat, s: string) returns (end: nat)
    requires tp + |s| < buf.Length
    modifies buf
    ensures end == tp + |s|
    ensures buf[..] == old(buf[..tp]) + s + [0 as char] + old(buf[end + 1..])
  {
    end := tp + |s|;
    forall k | 0 <= k < |s| { buf[tp + k] := s[k]; }
    buf[end] := 0 as char;
  }

  /** The size test lets through a text as long as the room, without its terminator. */
  method InetNtop4(src: seq<byte>, dst: array<char>, tp: nat, size: nat) returns (ok: bool)
    requires |src| == 4 && (|QuadText(src)| <= size ==> tp + |QuadText(src)| < dst.Length)
    modifies dst
    ensures ok == (|QuadText(src)| <= size)
    ensures !ok ==> dst[..] == old(dst[..])
    ensures ok ==> dst[..] == old(dst[..tp]) + QuadText(src) + [0 as char] + old(dst[tp + |QuadText(src)| + 1..])
  {
    var tmp := QuadText(src);
    if |tmp| > size { return false; }
    var end := Put(dst, tp, tmp);
    ok := true;
  }

  /** The copy of the bytes into words; the two halves of a word share no bit, so "|=" adds. */
  method LoadWords(src: array<byte>) returns (words: array<word>)
    requires src.Length == 16
    ensures fresh(words) && words.Length == 8 && words[..] == WordsOf(src[..])
  {
    words := new word[8](_ => 0);
    ghost var b: Address := src[..];
    var i := 0;
    while i < 16
      invariant 0 <= i <= 16 && src[..] == b
      invariant forall k | 0 <= k < 8 ::
        words[k] == if 2 * k + 2 <= i then WordAt(b, k) else if 2 * k + 1 == i then 256 * b[2 * k] as int else 0
    {
      var byteValue: int := src[i];
      words[i / 2] := words[i / 2] + (if i % 2 == 0 then byteValue * 256 else byteValue);
      i := i + 1;
    }
    assert words[..] == WordsOf(b);
  }

  /** The formatting state: out has been written, and the rest of the text is still to come. */
  ghost predicate Formatting(b: Address, best: Option<Shortened>, i: nat, out: string) {
    && i <= 8 && Fits(best) && out + Rest(b, best, i) == Text(Canonical(b, best))
    && (if i == 0 then out == "" else |out| <= 5 * i - 1)
  }

  lemma FormatGap(b: Address, best: Option<Shortened>, i: nat, out: string)
    requires Formatting(b, best, i, out) && i < 8 && Inside(best, i)
    ensures Formatting(b, best, i + 1, out + (if i == best.value.base then ":" else ""))
  {
    Assoc(out, if i == best.value.base then ":" else "", Rest(b, best, i + 1));
  }

  lemma FormatGroup(b: Address, best: Option<Shortened>, i: nat, out: string)
    requires Formatting(b, best, i, out) && i < 8 && !Inside(best, i) && !(i == 6 && Embedded(WordsOf(b), best))
    ensures |HexText(WordsOf(b)[i])| <= 4
    ensures Formatting(b, best, i + 1, (out + (if i != 0 then ":" else "")) + HexText(WordsOf(b)[i]))
  {
    var c, h, r := if i != 0 then ":" else "", HexText(WordsOf(b)[i]), Rest(b, best, i + 1);
    RestPlain(b, best, i);
    HexTextShort(WordsOf(b)[i]);
    Assoc(out, c, h + r);
    Assoc(out + c, h, r);
  }

  lemma FormatQuad(b: Address, best: Option<Shortened>, out: string)
    requires Formatting(b, best, 6, out) && Embedded(WordsOf(b), best)
    ensures |QuadText(b[12..])| <= 15 && (out + ":") + QuadText(b[12..]) == Text(Canonical(b, best))
  {
    QuadTextBack(b[12..]);
    Assoc(out, ":", QuadText(b[12..]));
  }

  ghost predicate Holds(buf: array<char>, tp: nat, out: string)
    reads buf
  {
    buf.Length == 46 && tp == |out| < 46 && buf[..tp] == out
  }

  method PutNext(buf: array<char>, tp: nat, s: string, ghost out: string) returns (end: nat)
    requires Holds(buf, tp, out) && tp + |s| < 46
    modifies buf
    ensures Holds(buf, end, out + s)
  {
    end := Put(buf, tp, s);
    assert buf[..end] == buf[..][..end];
  }

  method PutQuad(src: array<byte>, tmp: array<char>, tp: nat, ghost out: string) returns (end: nat)
    requires src.Length == 16 && Holds(tmp, tp, out) && tp <= 30 && |QuadText(src[12..])| <= 15
    modifies tmp
    ensures Holds(tmp, end, out + QuadText(src[12..]))
  {
    var ok := InetNtop4(src[12..], tmp, tp, 46 - tp);
    end := tp + |QuadText(src[12..])|;
    assert tmp[..end] == tmp[..][..end];
  }

  /** The loop's state: still formatting, or stopped after an embedded dotted quad. */
  ghost predicate Writing(b: Address, best: Option<Shortened>, i: nat, out: string, stopped: bool) {
    if stopped then
      Fits(best) && out == Text(Canonical(b, best)) && |out| < 46 && Embedded(WordsOf(b), best)
    else
      Formatting(b, best, i, out)
  }

  /** One word inside the run: its first one is written as a colon. */
  method FormatInRun(first: bool, tmp: array<char>, tp: nat,
                     ghost b: Address, ghost best: Option<Shortened>, ghost i: nat, ghost out: string)
    returns (end: nat, ghost after: string)
    requires Holds(tmp, tp, out) && i < 8 && Inside(best, i) && first == (i == best.value.base)
    requires Formatting(b, best, i, out)
    modifies tmp
    ensures Holds(tmp, end, after) && Formatting(b, best, i + 1, after)
  {
    FormatGap(b, best, i, out);
    end, after := tp, out + (if first then ":" else "");
    if first { end := PutNext(tmp, tp, ":", out); } else { assert out + "" == out; }
  }

  /** One word outside the run, or the dotted quad in the place of the last two. */
  method FormatWord(src: array<byte>, value: word, i: nat, embedded: bool, tmp: array<char>, tp: nat,
                    ghost b: Address, ghost best: Option<Shortened>, ghost out: string)
    returns (end: nat, ghost after: string)
    requires src.Length == 16 && src[..] == b && i < 8 && value == WordsOf(b)[i]
    requires embedded == (i == 6 && Embedded(WordsOf(b), best))
    requires Holds(tmp, tp, out) && Formatting(b, best, i, out) && !Inside(best, i)
    modifies tmp
    ensures Holds(tmp, end, after) && Writing(b, best, i + 1, after, embedded)
  {
    ghost var c := if i != 0 then ":" else "";
    end := tp;
    if i != 0 { end := PutNext(tmp, end, ":", out); } else { assert out + "" == out; }
    if embedded {
      FormatQuad(b, best, out);
      assert src[12..] == b[12..];
      end := PutQuad(src, tmp, end, out + ":");
      after := (out + ":") + QuadText(b[12..]);
    } else {
      FormatGroup(b, best, i, out);
      end := PutNext(tmp, end, HexText(value), out + c);
      after := (out + c) + HexText(value);
    }
  }

  /**
   The formatting loop: it stays inside the scratch array and leaves the canonical text there, but for a
   colon at the end.
   */
  method FormatWords(src: array<byte>, words: array<word>, base: int, len: int, tmp: array<char>,
                     ghost b: Address, ghost best: Option<Shortened>)
    returns (end: nat, stopped: bool, ghost out: string)
    requires src.Length == 16 && words.Length == 8 && tmp.Length == 46 && src[..] == b && words[..] == WordsOf(b)
    requires best == Best(base, len) && Fits(best) && -1 <= base
    modifies tmp
    ensures Holds(tmp, end, out)
    ensures if stopped then Writing(b, best, 7, out, true) else Formatting(b, best, 8, out)
  {
    out := "";
    RestIsText(b, best);
    EmptyLeft(Rest(b, best, 0));
    end, stopped := 0, false;
    var i := 0;
    while i < 8 && !stopped
      invariant src[..] == b
      invariant 0 <= i <= 8 && Holds(tmp, end, out) && Writing(b, best, i, out, stopped)
      decreases !stopped, 8 - i
    {
      if base != -1 && i >= base && i < base + len {
        end, out := FormatInRun(i == base, tmp, end, b, best, i, out);
      } else {
        var value := words[i];
        assert value == words[..][i] && words[5] == words[..][5];
        var embedded := i == 6 && base == 0 && (len == 6 || (len == 5 && words[5] == 0xffff));
        end, out := FormatWord(src, value, i, embedded, tmp, end, b, best, out);
        stopped := embedded;
      }
      i := i + 1;
    }
  }

  /** The words, and the colon that ends a run at the end. */
  method Format(src: array<byte>, words: array<word>, base: int, len: int, tmp: array<char>) returns (end: nat)
    requires src.Length == 16 && words.Length == 8 && tmp.Length == 46
    requires words[..] == WordsOf(src[..]) && Fits(Best(base, len)) && -1 <= base
    modifies tmp
    ensures end == |Text(Canonical(src[..], Best(base, len)))| < 46
    ensures tmp[..end] == Text(Canonical(src[..], Best(base, len)))
  {
    var stopped; ghost var out;
    end, stopped, out := FormatWords(src, words, base, len, tmp, src[..], Best(base, len));
    if base != -1 && base + len == 8 {
      end := PutNext(tmp, end, ":", out);
    } else if !stopped {
      assert out + "" == out;
    }
  }

  method CopyOut(t: string, dst: array<char>) returns (ok: bool)
    requires |t| < dst.Length
    modifies dst
    ensures ok && dst[..] == t + [0 as char] + old(dst[|t| + 1..])
  {
    var end := Put(dst, 0, t);
    EmptyLeft(t);
    ok := true;
  }

  /** The text, in the scratch array (libfree/inet_ntop.c:111-189). */
  method Print(src: array<byte>) returns (tmp: array<char>, end: nat)
    requires src.Length == 16
    ensures fresh(tmp) && end < 46 == tmp.Length && Prints(src[..], tmp[..end])
  {
    var words := LoadWords(src);
    var base, len := FindBest(words);
    tmp := new char[46];
    end := Format(src, words, base, len, tmp);
    assert Prints(src[..], Text(Canonical(src[..], Best(base, len))));
  }

  /** inet_ntop6 writes the canonical text and its terminator, or nothing when they do not fit. */
  method InetNtop6(src: array<byte>, dst: array<char>, size: nat) returns (ok: bool, ghost text: string)
    requires src.Length == 16 && size <= dst.Length
    modifies dst
    ensures Prints(src[..], text) && ok == (|text| + 1 <= size)
    ensures !ok ==> dst[..] == old(dst[..])
    ensures ok ==> dst[..] == text + [0 as char] + old(dst[|text| + 1..])
  {
    var tmp, end := Print(src);
    text := tmp[..end];
    if end + 1 > size { return false, text; }
    ok := CopyOut(tmp[..end], dst);
  }
}
