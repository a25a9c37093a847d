/**
 What the text of an address looks like, said of its bytes: when it has a dotted quad, when it has a "::",
 and which words the "::" stands for (libfree/inet_ntop.c:137-189; section 4.2 of RFC 5952).
 */
module Inet6Forms {
  import opened Basics
  import opened Inet6Grammar
  import opened Inet6Language
  import opened Inet6Printer

  // ----- the characters of a text -----

  lemma {:induction false} ThenChar(gs: seq<string>, rest: string)
    requires AllGroups(gs)
    ensures '.' in Then(gs, rest) <==> '.' in rest
  {
    if gs != [] {
      GroupChars(gs[0]);
      ThenChar(gs[1..], rest);
    }
  }

  lemma DottedLast(p: Pres)
    requires Shaped(p)
    ensures '.' in Text(p) <==> p.last.Dotted?
  {
    LastChars(p.last);
    ThenChar(p.tail, LastText(p.last));
    ThenChar(p.head, AfterHead(p));
  }

  lemma {:induction false} ThenEnd(gs: seq<string>, rest: string) returns (before: string)
    ensures Then(gs, rest) == before + rest
  {
    if gs == [] {
      before := "";
    } else {
      before := ThenEnd(gs[1..], rest);
      before := gs[0] + (":" + before);
    }
  }

  lemma TextEnd(p: Pres) returns (before: string)
    ensures Text(p) == before + LastText(p.last)
  {
    var l := LastText(p.last);
    var inner := ThenEnd(p.tail, l);
    var colon := if p.gap then ":" else "";
    assert AfterHead(p) == (colon + inner) + l by { if p.gap { Assoc(colon, inner, l); } else { EmptyLeft(inner); } }
    var outer := ThenEnd(p.head, AfterHead(p));
    Assoc(outer, colon + inner, l);
    before := outer + (colon + inner);
    if p.gap && p.head == [] {
      Assoc(":", before, l);
      before := ":" + before;
    }
  }

  /** Two colons side by side. */
  predicate Doubled(t: string) { exists i | 0 <= i < |t| - 1 :: t[i] == t[i + 1] == ':' }

  predicate StartsWithColon(t: string) { t != "" && t[0] == ':' }

  lemma DoubledAfter(g: string, t: string)
    requires ':' !in g
    ensures Doubled(g + (":" + t)) <==> Doubled(t) || StartsWithColon(t)
  {
    var s := g + (":" + t);
    assert forall k | 0 <= k < |g| :: s[k] == g[k] != ':';
    if Doubled(s) {
      var i :| 0 <= i < |s| - 1 && s[i] == s[i + 1] == ':';
      assert i >= |g|;
      if i > |g| { assert t[i - |g| - 1] == t[i - |g|] == ':'; }
    }
    if StartsWithColon(t) { assert s[|g|] == s[|g| + 1] == ':'; }
    if i :| 0 <= i < |t| - 1 && t[i] == t[i + 1] == ':' {
      assert s[|g| + 1 + i] == s[|g| + 1 + i + 1] == ':';
    }
  }

  lemma {:induction false} ThenDoubled(gs: seq<string>, rest: string)
    requires AllGroups(gs)
    ensures Doubled(Then(gs, rest)) <==> Doubled(rest) || (gs != [] && StartsWithColon(rest))
  {
    if gs != [] {
      GroupChars(gs[0]);
      DoubledAfter(gs[0], Then(gs[1..], rest));
      ThenDoubled(gs[1..], rest);
      if |gs| > 1 {
        assert IsGroup(gs[1]) && Then(gs[1..], rest)[0] == gs[1][0];
        GroupChars(gs[1]);
      }
    }
  }

  /** The "::" is the gap. */
  lemma DoubledIsGap(p: Pres)
    requires Shaped(p)
    ensures Doubled(Text(p)) <==> p.gap
  {
    LastChars(p.last);
    ThenDoubled(p.head, AfterHead(p));
    if p.gap {
      assert StartsWithColon(AfterHead(p));
      if p.head == [] { assert Text(p)[0] == Text(p)[1] == ':'; }
    }
  }

  // ----- the bytes behind them -----

  lemma WordIsZero(b: Address, i: nat)
    requires i < 8
    ensures WordsOf(b)[i] == 0 <==> b[2 * i] == b[2 * i + 1] == 0
  {
  }

  lemma BytesAreZero(b: Address, a: nat, z: nat)
    requires a < z <= 8
    ensures ZeroRun(WordsOf(b), a, z) <==> b[2 * a..2 * z] == Zeros(2 * (z - a))
  {
    if ZeroRun(WordsOf(b), a, z) { ZeroRunBytes(b, a, z); }
    if b[2 * a..2 * z] == Zeros(2 * (z - a)) {
      forall k | a <= k < z ensures WordsOf(b)[k] == 0 {
        WordIsZero(b, k);
        assert b[2 * k] == b[2 * a..2 * z][2 * (k - a)] == 0;
        assert b[2 * k + 1] == b[2 * a..2 * z][2 * (k - a) + 1] == 0;
      }
    }
  }

  /** An IPv4-mapped address, or an IPv4-compatible one other than those of the form ::h and ::. */
  predicate HoldsIpv4(b: Address) {
    && b[..10] == Zeros(10)
    && ((b[10] == 255 && b[11] == 255) || (b[10] == 0 && b[11] == 0 && (b[12] != 0 || b[13] != 0)))
  }

  lemma EmbeddedIsIpv4(b: Address, best: Option<Shortened>)
    requires Chosen(WordsOf(b), best)
    ensures best.Some? && best.value.end != 8 && Embedded(WordsOf(b), best) <==> HoldsIpv4(b)
  {
    var w := WordsOf(b);
    BytesAreZero(b, 0, 5);
    assert b[0..10] == b[..10];
    WordIsZero(b, 5);
    WordIsZero(b, 6);
    assert w[5] == 0xffff <==> b[10] == 255 && b[11] == 255;
    if HoldsIpv4(b) {
      assert ZeroRun(w, 0, 5);
      if w[5] == 0 { assert ZeroRun(w, 0, 6); }
      assert best.Some?;
      assert ZeroRun(w, best.value.base, best.value.end);
    }
    if best.Some? && best.value.base == 0 && best.value.end >= 5 {
      assert ZeroRun(w, 0, 5);
      assert w[6] == 0 && best.value.end == 6 ==> ZeroRun(w, 0, 7);
    }
  }

  /**
   inet_ntop6 writes a dotted quad exactly for ::a.b.c.d, where a or b is not zero, and ::ffff:a.b.c.d; and
   it is the text of the last four bytes, at the end.
   */
  lemma DottedExactly(b: Address, t: string)
    requires Prints(b, t)
    ensures '.' in t <==> HoldsIpv4(b)
    ensures '.' in t ==> exists before :: t == before + QuadText(b[12..])
  {
    var best :| Chosen(WordsOf(b), best) && t == Text(Canonical(b, best));
    var p := Canonical(b, best);
    CanonicalDenotes(b, best);
    DottedLast(p);
    EmbeddedIsIpv4(b, best);
    var before := TextEnd(p);
  }

  /** Words k and k+1 are zero. */
  predicate ZeroPair(b: Address, k: nat)
    requires k <= 6
  {
    b[2 * k] == 0 && b[2 * k + 1] == 0 && b[2 * k + 2] == 0 && b[2 * k + 3] == 0
  }

  lemma PairIsRun(b: Address, k: nat)
    requires k <= 6
    ensures ZeroPair(b, k) <==> ZeroRun(WordsOf(b), k, k + 2)
  {
    WordIsZero(b, k);
    WordIsZero(b, k + 1);
  }

  lemma GapIsPair(b: Address, best: Option<Shortened>)
    requires Chosen(WordsOf(b), best)
    ensures best.Some? <==> exists k | 0 <= k <= 6 :: ZeroPair(b, k)
  {
    if best.Some? {
      assert ZeroRun(WordsOf(b), best.value.base, best.value.base + 2);
      PairIsRun(b, best.value.base);
    }
    if k :| 0 <= k <= 6 && ZeroPair(b, k) { PairIsRun(b, k); }
  }

  /** inet_ntop6 writes "::" exactly if two words side by side are zero. */
  lemma ShortenedExactly(b: Address, t: string)
    requires Prints(b, t)
    ensures Doubled(t) <==> exists k | 0 <= k <= 6 :: ZeroPair(b, k)
  {
    var best :| Chosen(WordsOf(b), best) && t == Text(Canonical(b, best));
    CanonicalDenotes(b, best);
    DoubledIsGap(Canonical(b, best));
    GapIsPair(b, best);
  }

  /** Words a to z-1 are zero, two at least; no run of zero words is longer, and none as long stands before. */
  ghost predicate FirstLongest(b: Address, a: nat, z: nat) {
    && a + 2 <= z <= 8 && b[2 * a..2 * z] == Zeros(2 * (z - a))
    && forall c: nat, e: nat | c < e <= 8 && b[2 * c..2 * e] == Zeros(2 * (e - c)) ::
         e - c <= z - a && (e - c == z - a ==> a <= c)
  }

  lemma FirstLongestIsChosen(b: Address, a: nat, z: nat)
    requires FirstLongest(b, a, z)
    ensures Chosen(WordsOf(b), Some(Shortened(a, z)))
  {
    forall c, e | ZeroRun(WordsOf(b), c, e) ensures e - c <= z - a && (e - c == z - a ==> a <= c) {
      BytesAreZero(b, c, e);
    }
    BytesAreZero(b, a, z);
  }

  lemma AfterGap(p: Pres)
    requires Shaped(p)
    ensures !Doubled(":" + Then(p.tail, LastText(p.last)))
  {
    var rest := Then(p.tail, LastText(p.last));
    LastChars(p.last);
    ThenDoubled(p.tail, LastText(p.last));
    if p.tail != [] {
      assert IsGroup(p.tail[0]) && rest[0] == p.tail[0][0];
      GroupChars(p.tail[0]);
    }
    DoubledAfter("", rest);
    EmptyLeft(":" + rest);
  }

  /** t has the groups of w, then the colon of a "::", and no other "::" from there on. */
  ghost predicate GapAfter(t: string, w: seq<word>) {
    exists rest ::
      t == (if w == [] then ":" else "") + Then(Hexes(w), ":" + rest) && !Doubled(":" + rest)
  }

  lemma GapText(p: Pres, w: seq<word>)
    requires Shaped(p) && p.gap && p.head == Hexes(w)
    ensures GapAfter(Text(p), w)
  {
    AfterGap(p);
    EmptyLeft(Body(p));
  }

  lemma CanonicalGap(b: Address, r: Shortened)
    requires 0 <= r.base < r.end <= 8
    ensures var p := Canonical(b, Some(r)); p.gap && p.head == Hexes(WordsOf(b)[..r.base])
  {
  }

  /** The "::" stands for the first of the longest runs of zero words: the words before it are written before it. */
  lemma ShortensTheFirstLongest(b: Address, t: string, a: nat, z: nat)
    requires Prints(b, t) && FirstLongest(b, a, z)
    ensures GapAfter(t, WordsOf(b)[..a])
  {
    var best := Some(Shortened(a, z));
    var x :| Chosen(WordsOf(b), x) && t == Text(Canonical(b, x));
    FirstLongestIsChosen(b, a, z);
    ChosenUnique(WordsOf(b), x, best);
    CanonicalDenotes(b, best);
    CanonicalGap(b, Shortened(a, z));
    GapText(Canonical(b, best), WordsOf(b)[..a]);
  }
}
