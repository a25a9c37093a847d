/** A ring of slots with a put and a get index, and the queue it stands for. */
module Ring {
  datatype Ring<T> = Ring(slots: seq<T>, get: nat, put: nat)

  /** ++i, back to 0 at the end. */
  function Next(n: nat, i: nat): nat { if i + 1 >= n then 0 else i + 1 }

  /** The slot k places after i. */
  function At(n: nat, i: nat, k: nat): int { if i + k < n then i + k else i + k - n }

  predicate Shape<T>(r: Ring<T>) { r.get < |r.slots| && r.put < |r.slots| }

  /** The slots from get up to put hold q. */
  ghost predicate Queued<T>(r: Ring<T>, q: seq<T>) {
    && Shape(r) && |q| <= |r.slots| && r.put == At(|r.slots|, r.get, |q|)
    && forall k | 0 <= k < |q| :: r.slots[At(|r.slots|, r.get, k)] == q[k]
  }

  function Put<T>(r: Ring<T>, x: T): (s: Ring<T>)
    requires Shape(r)
    ensures Shape(s)
  {
    Ring(r.slots[r.put := x], r.get, Next(|r.slots|, r.put))
  }

  function Take<T>(r: Ring<T>): (s: Ring<T>)
    requires Shape(r)
    ensures Shape(s)
  {
    r.(get := Next(|r.slots|, r.get))
  }

  lemma PutQueued<T>(r: Ring<T>, q: seq<T>, x: T)
    requires Queued(r, q) && |q| < |r.slots|
    ensures Queued(Put(r, x), q + [x])
  {
  }

  lemma TakeQueued<T>(r: Ring<T>, q: seq<T>)
    requires Queued(r, q) && q != []
    ensures r.slots[r.get] == q[0] && Queued(Take(r), q[1..])
  {
    var n := |r.slots|;
    assert r.slots[At(n, r.get, 0)] == q[0];
    forall k | 0 <= k < |q| - 1 ensures Take(r).slots[At(n, Next(n, r.get), k)] == q[1..][k] {
      assert At(n, Next(n, r.get), k) == At(n, r.get, k + 1);
    }
  }

  /** The slot at the put index is none of the queue's while there is room. */
  lemma PutIsFree<T>(r: Ring<T>, q: seq<T>)
    requires Queued(r, q) && |q| < |r.slots|
    ensures forall k | 0 <= k < |q| :: At(|r.slots|, r.get, k) != r.put
  {
  }

  /** The two indices meet exactly when the queue is empty or fills every slot. */
  lemma Meet<T>(r: Ring<T>, q: seq<T>)
    requires Queued(r, q)
    ensures r.get == r.put <==> |q| == 0 || |q| == |r.slots|
  {
  }
}
