/** Ones' complement sums of 16-bit words (sections 1 and 2 of RFC 1071), apart from any code. */
module OnesComplement {
  import opened Basics

  /** Addition with the carry brought round to the low end. */
  function AddRound(a: word, b: word): word { if a + b > 65535 then a + b - 65535 else a + b }

  function OnesSum(ws: seq<word>): word {
    if ws == [] then 0 else AddRound(OnesSum(ws[..|ws| - 1]), ws[|ws| - 1])
  }

  function Complement(w: word): word { 65535 - w }

  /** The ordinary sum. */
  function Sum(ws: seq<word>): nat {
    if ws == [] then 0 else Sum(ws[..|ws| - 1]) + ws[|ws| - 1]
  }

  /** The ones' complement value of a sum: its residue modulo 65535, taken from 1 to 65535 unless the sum is 0. */
  function Norm(n: nat): word { if n == 0 then 0 else (n - 1) % 65535 + 1 }

  function Rounds(n: nat): nat { if n == 0 then 0 else (n - 1) / 65535 }

  lemma NormSplit(n: nat)
    ensures n == 65535 * Rounds(n) + Norm(n) && (Norm(n) == 0 <==> n == 0)
  {
  }

  lemma NormUnique(n: nat, q: nat, r: word)
    requires n == 65535 * q + r && r > 0
    ensures Norm(n) == r
  {
    NormSplit(n);
  }

  lemma NormAdd(a: nat, b: word)
    ensures Norm(a + b) == AddRound(Norm(a), b)
  {
    NormSplit(a);
    var s := Norm(a) + b;
    if s == 0 {
    } else if s > 65535 {
      NormUnique(a + b, Rounds(a) + 1, s - 65535);
    } else {
      NormUnique(a + b, Rounds(a), s);
    }
  }

  /** Bringing each carry round at once gives the same as reducing the whole sum at the end. */
  lemma {:induction false} OnesSumIsNorm(ws: seq<word>)
    ensures OnesSum(ws) == Norm(Sum(ws))
  {
    if ws != [] {
      OnesSumIsNorm(ws[..|ws| - 1]);
      NormAdd(Sum(ws[..|ws| - 1]), ws[|ws| - 1]);
    }
  }

  lemma {:induction false} SumBound(ws: seq<word>)
    ensures Sum(ws) <= 65535 * |ws|
  {
    if ws != [] { SumBound(ws[..|ws| - 1]); }
  }

  lemma {:induction false} SumConcat(a: seq<word>, b: seq<word>)
    ensures Sum(a + b) == Sum(a) + Sum(b)
  {
    if b == [] {
      EmptyRight(a);
    } else {
      SumConcat(a, b[..|b| - 1]);
      assert (a + b)[..|a + b| - 1] == a + b[..|b| - 1];
    }
  }

  /** Changing one word changes the sum by the difference. */
  lemma SumUpdate(ws: seq<word>, k: nat, v: word)
    requires k < |ws|
    ensures Sum(ws[k := v]) == Sum(ws) - ws[k] + v
  {
    assert ws == ws[..k] + ([ws[k]] + ws[k + 1..]);
    assert ws[k := v] == ws[..k] + ([v] + ws[k + 1..]);
    SumConcat(ws[..k], [ws[k]] + ws[k + 1..]);
    SumConcat(ws[..k], [v] + ws[k + 1..]);
    SumConcat([ws[k]], ws[k + 1..]);
    SumConcat([v], ws[k + 1..]);
    SumOne(ws[k]);
    SumOne(v);
  }

  lemma SumOne(v: word)
    ensures Sum([v]) == v
  {
    assert [v][..0] == [];
  }

  lemma Remove(vs: seq<word>, k: nat) returns (rest: seq<word>)
    requires k < |vs|
    ensures multiset(vs) == multiset(rest) + multiset{vs[k]} && Sum(vs) == Sum(rest) + vs[k]
  {
    rest := vs[..k] + vs[k + 1..];
    assert vs == vs[..k] + ([vs[k]] + vs[k + 1..]);
    SumConcat(vs[..k], [vs[k]] + vs[k + 1..]);
    SumConcat([vs[k]], vs[k + 1..]);
    SumConcat(vs[..k], vs[k + 1..]);
    SumOne(vs[k]);
  }

  /** The words may be added in any order. */
  lemma {:induction false} SumOrder(ws: seq<word>, vs: seq<word>)
    requires multiset(ws) == multiset(vs)
    ensures Sum(ws) == Sum(vs)
    decreases |ws|
  {
    if ws == [] {
      assert |multiset(vs)| == 0;
    } else {
      var n := |ws| - 1;
      assert ws == ws[..n] + [ws[n]];
      assert ws[n] in multiset(vs);
      var k :| 0 <= k < |vs| && vs[k] == ws[n];
      var rest := Remove(vs, k);
      assert multiset(ws[..n]) == multiset(ws) - multiset{ws[n]} == multiset(rest);
      SumOrder(ws[..n], rest);
    }
  }

  /** Section 2 (A) of RFC 1071: the ones' complement sum does not depend on the order of the words. */
  lemma OnesSumOrder(ws: seq<word>, vs: seq<word>)
    requires multiset(ws) == multiset(vs)
    ensures OnesSum(ws) == OnesSum(vs)
  {
    SumOrder(ws, vs);
    OnesSumIsNorm(ws);
    OnesSumIsNorm(vs);
  }

  // ----- byte swapping -----

  function Swap(w: word): word { (w % 256) * 256 + w / 256 }

  function SwapAll(ws: seq<word>): (r: seq<word>)
    ensures |r| == |ws|
  {
    seq(|ws|, i requires 0 <= i < |ws| => Swap(ws[i]))
  }

  function HighBytes(ws: seq<word>): nat {
    if ws == [] then 0 else HighBytes(ws[..|ws| - 1]) + ws[|ws| - 1] / 256
  }

  /** Swapping a word multiplies it by 256 modulo 65535. */
  lemma SwapIsShift(w: word)
    ensures Swap(w) == 256 * w - 65535 * (w / 256) && Swap(Swap(w)) == w && (Swap(w) == 0 <==> w == 0)
    ensures Swap(Complement(w)) == Complement(Swap(w))
  {
    SwapBytes(w / 256, w % 256);
    SwapBytes(255 - w / 256, 255 - w % 256);
  }

  /** Swapping a word given by its bytes. */
  lemma SwapBytes(h: byte, l: byte)
    ensures var w: word := 256 * h + l;
      && w / 256 == h && w % 256 == l && Swap(w) == 256 * l + h
      && Swap(Swap(w)) == w && Complement(w) == 256 * (255 - h) + (255 - l)
  {
    var w, v := 256 * h + l, 256 * l + h;
    assert w / 256 == h && w % 256 == l && v / 256 == l && v % 256 == h;
  }

  lemma {:induction false} SwappedSum(ws: seq<word>)
    ensures Sum(SwapAll(ws)) == 256 * Sum(ws) - 65535 * HighBytes(ws)
    ensures HighBytes(ws) <= 256 * Sum(ws)
  {
    if ws != [] {
      var n := |ws| - 1;
      SwappedSum(ws[..n]);
      SwapIsShift(ws[n]);
      assert SwapAll(ws)[..n] == SwapAll(ws[..n]);
    }
  }

  lemma {:induction false} SwappedZero(ws: seq<word>)
    ensures Sum(SwapAll(ws)) == 0 <==> Sum(ws) == 0
  {
    if ws != [] {
      var n := |ws| - 1;
      SwappedZero(ws[..n]);
      SwapIsShift(ws[n]);
      assert SwapAll(ws)[..n] == SwapAll(ws[..n]);
    }
  }

  lemma SwapResidue(s: nat, t: nat, h: nat)
    requires t == 256 * s - 65535 * h && s > 0 && t > 0
    ensures Norm(t) == Swap(Norm(s))
  {
    NormSplit(s);
    var r := Norm(s);
    SwapIsShift(r);
    var q := 256 * Rounds(s) + r / 256 - h;
    assert t == 65535 * q + Swap(r);
    NormUnique(t, q, Swap(r));
  }

  /** Section 2 (B) of RFC 1071: summing swapped words gives the swapped sum. */
  lemma OnesSumSwap(ws: seq<word>)
    ensures OnesSum(SwapAll(ws)) == Swap(OnesSum(ws))
  {
    OnesSumIsNorm(ws);
    OnesSumIsNorm(SwapAll(ws));
    SwappedSum(ws);
    SwappedZero(ws);
    if Sum(ws) > 0 { SwapResidue(Sum(ws), Sum(SwapAll(ws)), HighBytes(ws)); }
  }
}
