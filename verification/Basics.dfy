/** The few value types every other module shares. */
module Basics {

  type byte = b: int | 0 <= b < 256

  /** A 16-bit quantity. */
  type word = w: int | 0 <= w < 65536

  datatype Option<+T> = None | Some(value: T)

  function Min(a: int, b: int): int { if a <= b then a else b }

  function Max(a: int, b: int): int { if a >= b then a else b }

  /** n zero bytes. */
  function Zeros(n: nat): (z: seq<byte>)
    ensures |z| == n
  {
    seq(n, _ => 0)
  }

  /** A word in network byte order. */
  function WordBytes(w: word): (b: seq<byte>)
    ensures |b| == 2
  {
    [w / 256, w % 256]
  }

  lemma Assoc<T>(a: seq<T>, b: seq<T>, c: seq<T>)
    ensures (a + b) + c == a + (b + c)
  {
  }

  lemma Uncons<T>(s: seq<T>)
    requires s != []
    ensures s == [s[0]] + s[1..]
  {
  }

  /** The first element of s may move to the end of what stands before it. */
  lemma MoveFirst<T>(a: seq<T>, s: seq<T>)
    requires s != []
    ensures (a + [s[0]]) + s[1..] == a + s
  {
  }

  lemma EmptyLeft<T>(s: seq<T>)
    ensures [] + s == s
  {
  }

  lemma EmptyRight<T>(s: seq<T>)
    ensures s + [] == s
  {
  }

  /** A separator that is in neither part tells where the first part ends. */
  lemma SplitOnce<T>(a: seq<T>, b: seq<T>, x: T, u: seq<T>, v: seq<T>)
    requires x !in a && x !in b && a + ([x] + u) == b + ([x] + v)
    ensures a == b && u == v
  {
    var s, t := a + ([x] + u), b + ([x] + v);
    assert s[|a|] == x && t[|b|] == x;
    assert forall k | 0 <= k < |a| :: s[k] == a[k] != x;
    assert forall k | 0 <= k < |b| :: t[k] == b[k] != x;
    assert |a| == |b|;
    assert s[..|a|] == a && t[..|b|] == b && s[|a| + 1..] == u && t[|b| + 1..] == v;
  }
}
