/**
 The preforked server whose parent accepts every connection and passes the descriptor to an idle child
 (server/serv05.c, server/child05.c).  Parent and children run interleaved; a stream pipe to each child
 carries descriptors one way and ready bytes the other.
 */
module Prefork {
  import opened Basics

  /**
   A child: what the parent keeps about it (status, count), the pipe in both directions, the connection
   it serves, and every connection it has received.  Connections are numbered in the order of accept.
   */
  datatype Child = Child(status: int, count: nat, toChild: seq<nat>, serving: Option<nat>, got: seq<nat>, toParent: nat)

  /** Where the parent is: before select, at accept, or at child i of the scan for ready bytes. */
  datatype Place = AtSelect | AtAccept | AtChild(i: nat) | NoChildLeft

  /** rset holds the children whose pipes select found ready; to holds the child of each connection accepted. */
  datatype State = State(children: seq<Child>, navail: int, place: Place, nsel: int, rset: set<nat>, to: seq<nat>)

  datatype Step =
    | Select(connection: bool, ready: set<nat>)
    | Accept
    | Scan
    | Receive(i: nat)
    | Finish(i: nat)

  function FirstIdle(cs: seq<Child>): (i: nat)
    ensures i <= |cs| && (forall j | 0 <= j < i :: cs[j].status != 0) && (i < |cs| ==> cs[i].status == 0)
  {
    if cs == [] || cs[0].status == 0 then 0 else 1 + FirstIdle(cs[1..])
  }

  predicate Enabled(s: State, step: Step) {
    match step
    case Select(connection, ready) =>
      && s.place == AtSelect && (connection || ready != {})
      && (connection ==> s.navail > 0)
      && forall i | i in ready :: i < |s.children| && s.children[i].toParent > 0
    case Accept => s.place == AtAccept
    case Scan =>
      s.place.AtChild? && (s.place.i in s.rset && s.place.i < |s.children| ==> s.children[s.place.i].toParent > 0)
    case Receive(i) => i < |s.children| && s.children[i].toChild != [] && s.children[i].serving == None
    case Finish(i) => i < |s.children| && s.children[i].serving.Some?
  }

  /** The parent at its next child, or back at select when nsel is used up or the children are. */
  function GoOn(s: State, i: nat): State {
    s.(place := if s.nsel == 0 || i == |s.children| then AtSelect else AtChild(i))
  }

  function Dispatched(s: State, i: nat): State
    requires i < |s.children|
  {
    var c := s.children[i];
    s.(children := s.children[i := c.(status := 1, count := c.count + 1, toChild := c.toChild + [|s.to|])],
       navail := s.navail - 1, to := s.to + [i], nsel := s.nsel - 1)
  }

  function Collected(s: State, i: nat): State
    requires i < |s.children| && s.children[i].toParent > 0
  {
    var c := s.children[i];
    s.(children := s.children[i := c.(status := 0, toParent := c.toParent - 1)],
       navail := s.navail + 1, nsel := s.nsel - 1)
  }

  function Next(s: State, step: Step): State
    requires Enabled(s, step)
  {
    match step
    case Select(connection, ready) =>
      var t := s.(rset := ready, nsel := |ready| + (if connection then 1 else 0));
      if connection then t.(place := AtAccept) else GoOn(t, 0)
    case Accept =>
      var i := FirstIdle(s.children);
      if i == |s.children| then s.(place := NoChildLeft)
      else GoOn(Dispatched(s, i), 0)
    case Scan =>
      var i := s.place.i;
      if i in s.rset && i < |s.children| then GoOn(Collected(s, i), i + 1) else GoOn(s, i + 1)
    case Receive(i) =>
      var c := s.children[i];
      var conn := c.toChild[0];
      s.(children := s.children[i := c.(toChild := c.toChild[1..], serving := Some(conn), got := c.got + [conn])])
    case Finish(i) =>
      var c := s.children[i];
      s.(children := s.children[i := c.(serving := None, toParent := c.toParent + 1)])
  }

  function Idle(cs: seq<Child>): set<nat> { set i: nat | i < |cs| && cs[i].status == 0 }

  /** The children of rset the scan has yet to come to, from child i on. */
  function Ahead(rset: set<nat>, i: nat): set<nat> { set j | j in rset && j >= i }

  /** The connections given to a child. */
  function Given(to: seq<nat>, i: nat): seq<nat> {
    if to == [] then []
    else Given(to[..|to| - 1], i) + (if to[|to| - 1] == i then [|to| - 1] else [])
  }

  // ----- the invariant -----

  /** An idle child has nothing on its way; a busy one has one descriptor, or one connection, or one ready byte. */
  predicate OneToken(c: Child) {
    || (c.status == 0 && c.toChild == [] && c.serving == None && c.toParent == 0)
    || (c.status == 1 && |c.toChild| + (if c.serving.Some? then 1 else 0) + c.toParent == 1)
  }

  /** The connection in hand is the last one received. */
  predicate ServesTheLast(c: Child) {
    c.serving.Some? ==> c.got != [] && c.serving.value == c.got[|c.got| - 1]
  }

  predicate ChildInv(c: Child, i: nat, to: seq<nat>) {
    OneToken(c) && ServesTheLast(c) && c.got + c.toChild == Given(to, i) && c.count == |Given(to, i)|
  }

  predicate ChildrenInv(s: State) {
    forall i | 0 <= i < |s.children| :: ChildInv(s.children[i], i, s.to)
  }

  /** The ready descriptors the scan has yet to come to hold a byte each, and nsel counts them. */
  predicate NselInv(s: State) {
    match s.place
    case AtSelect => true
    case AtAccept => s.navail > 0 && s.nsel == |s.rset| + 1 && Readable(s, s.rset)
    case AtChild(i) => s.nsel == |Ahead(s.rset, i)| > 0 && Readable(s, Ahead(s.rset, i))
    case NoChildLeft => false
  }

  predicate Readable(s: State, fds: set<nat>) {
    forall i | i in fds :: i < |s.children| && s.children[i].toParent > 0
  }

  predicate Inv(s: State) {
    && ChildrenInv(s) && s.navail == |Idle(s.children)| && NselInv(s)
    && forall k | 0 <= k < |s.to| :: s.to[k] < |s.children|
  }

  function Start(n: nat): State {
    State(seq(n, _ => Child(0, 0, [], None, [], 0)), n, AtSelect, 0, {}, [])
  }

  lemma {:induction false} AllIdle(cs: seq<Child>)
    requires forall i | 0 <= i < |cs| :: cs[i].status == 0
    ensures |Idle(cs)| == |cs|
  {
    if cs != [] {
      var k := |cs| - 1;
      AllIdle(cs[..k]);
      assert Idle(cs) == Idle(cs[..k]) + {k};
    }
  }

  lemma StartInv(n: nat)
    ensures Inv(Start(n))
  {
    AllIdle(Start(n).children);
  }

  lemma SelectInv(s: State, connection: bool, ready: set<nat>)
    requires Inv(s) && Enabled(s, Select(connection, ready))
    ensures Inv(Next(s, Select(connection, ready)))
  {
    assert Ahead(ready, 0) == ready;
    assert |s.children| == 0 ==> ready == {};
  }

  lemma AheadStep(rset: set<nat>, i: nat)
    ensures Ahead(rset, i) == Ahead(rset, i + 1) + (if i in rset then {i} else {})
    ensures |Ahead(rset, i)| == |Ahead(rset, i + 1)| + (if i in rset then 1 else 0)
  {
    assert Ahead(rset, i) == Ahead(rset, i + 1) + (if i in rset then {i} else {});
  }

  lemma GivenMore(to: seq<nat>, i: nat, j: nat)
    ensures Given(to + [i], j) == Given(to, j) + (if i == j then [|to|] else [])
  {
    assert (to + [i])[..|to|] == to;
  }

  lemma IdleUpdate(cs: seq<Child>, i: nat, c: Child)
    requires i < |cs|
    ensures Idle(cs[i := c]) == if c.status == 0 then Idle(cs) + {i} else Idle(cs) - {i}
  {
  }

  /** The connection just accepted goes to a child that is idle, and keeps the token of every child. */
  lemma DispatchKeeps(s: State, i: nat)
    requires ChildrenInv(s) && i < |s.children| && s.children[i].status == 0
    ensures ChildrenInv(Dispatched(s, i))
  {
    var t := Dispatched(s, i);
    forall j | 0 <= j < |t.children| ensures ChildInv(t.children[j], j, t.to) {
      GivenMore(s.to, i, j);
      EmptyRight(Given(s.to, j));
      assert ChildInv(s.children[j], j, s.to);
      if j == i { EmptyRight(s.children[i].got); }
    }
  }

  lemma SomeIdle(cs: seq<Child>)
    requires |Idle(cs)| > 0
    ensures FirstIdle(cs) in Idle(cs)
  {
    var i :| i in Idle(cs);
    assert FirstIdle(cs) <= i;
  }

  /** At accept an idle child exists, so the exit for none of them is never taken. */
  lemma AcceptInv(s: State)
    requires Inv(s) && s.place == AtAccept
    ensures FirstIdle(s.children) < |s.children| && Inv(Next(s, Accept))
  {
    var i := FirstIdle(s.children);
    SomeIdle(s.children);
    DispatchKeeps(s, i);
    var t := Dispatched(s, i);
    IdleUpdate(s.children, i, t.children[i]);
    assert ChildInv(s.children[i], i, s.to);
    assert Ahead(s.rset, 0) == s.rset;
  }

  lemma CollectKeeps(s: State, i: nat)
    requires Inv(s) && i < |s.children| && s.children[i].toParent > 0
    ensures ChildrenInv(Collected(s, i)) && Collected(s, i).navail == |Idle(Collected(s, i).children)|
  {
    assert ChildInv(s.children[i], i, s.to);
    IdleUpdate(s.children, i, Collected(s, i).children[i]);
  }

  lemma ScanReaches(s: State, i: nat)
    requires |Ahead(s.rset, i)| > 0 && Readable(s, Ahead(s.rset, i))
    ensures i < |s.children|
  {
    var j :| j in Ahead(s.rset, i);
  }

  lemma GoOnInv(t: State, i: nat)
    requires ChildrenInv(t) && t.navail == |Idle(t.children)| && forall k | 0 <= k < |t.to| :: t.to[k] < |t.children|
    requires t.nsel == |Ahead(t.rset, i)| && Readable(t, Ahead(t.rset, i))
    ensures Inv(GoOn(t, i)) && (GoOn(t, i).place == AtSelect ==> t.nsel == 0)
  {
    if t.nsel > 0 { ScanReaches(t, i); }
  }

  lemma AheadLess(rset: set<nat>, i: nat)
    ensures Ahead(rset, i + 1) <= Ahead(rset, i) && i !in Ahead(rset, i + 1)
  {
  }

  lemma ScanSkips(s: State, i: nat)
    requires Inv(s) && s.place == AtChild(i) && i !in s.rset
    ensures Inv(GoOn(s, i + 1)) && GoOn(s, i + 1).place != AtSelect
  {
    AheadStep(s.rset, i);
    AheadLess(s.rset, i);
    assert Readable(s, Ahead(s.rset, i + 1));
    GoOnInv(s, i + 1);
  }

  lemma ScanCollects(s: State, i: nat)
    requires Inv(s) && s.place == AtChild(i) && i in s.rset && i < |s.children| && s.children[i].toParent > 0
    ensures Inv(GoOn(Collected(s, i), i + 1))
    ensures GoOn(Collected(s, i), i + 1).place == AtSelect ==> Collected(s, i).nsel == 0
  {
    AheadStep(s.rset, i);
    AheadLess(s.rset, i);
    CollectKeeps(s, i);
    assert Readable(Collected(s, i), Ahead(s.rset, i + 1));
    GoOnInv(Collected(s, i), i + 1);
  }

  /** In the scan some ready child is always still ahead, so it always ends by counting nsel down. */
  lemma ScanInv(s: State)
    requires Inv(s) && s.place.AtChild? && Enabled(s, Scan)
    ensures s.place.i < |s.children| && Inv(Next(s, Scan))
    ensures Next(s, Scan).place == AtSelect ==> Next(s, Scan).nsel == 0
  {
    var i := s.place.i;
    ScanReaches(s, i);
    if i in s.rset { ScanCollects(s, i); } else { ScanSkips(s, i); }
  }

  lemma ChildKeeps(s: State, i: nat, c: Child)
    requires Inv(s) && i < |s.children| && ChildInv(c, i, s.to)
    requires c.status == s.children[i].status && c.toParent >= s.children[i].toParent
    ensures Inv(s.(children := s.children[i := c]))
  {
    IdleUpdate(s.children, i, c);
    assert Idle(s.children[i := c]) == Idle(s.children);
  }

  lemma ChildStepInv(s: State, step: Step)
    requires Inv(s) && (step.Receive? || step.Finish?) && Enabled(s, step)
    ensures Inv(Next(s, step))
  {
    var i := step.i;
    var c := s.children[i];
    assert ChildInv(c, i, s.to);
    if step.Receive? { MoveFirst(c.got, c.toChild); }
    ChildKeeps(s, i, Next(s, step).children[i]);
  }

  lemma StepInv(s: State, step: Step)
    requires Inv(s) && Enabled(s, step)
    ensures Inv(Next(s, step))
  {
    match step
    case Select(connection, ready) => SelectInv(s, connection, ready);
    case Accept => AcceptInv(s);
    case Scan => ScanInv(s);
    case Receive(_) => ChildStepInv(s, step);
    case Finish(_) => ChildStepInv(s, step);
  }

  // ----- runs -----

  /** These steps lead from s to t. */
  predicate Run(s: State, steps: seq<Step>, t: State)
    decreases |steps|
  {
    if steps == [] then s == t else Enabled(s, steps[0]) && Run(Next(s, steps[0]), steps[1..], t)
  }

  lemma {:induction false} RunInv(s: State, steps: seq<Step>, t: State)
    requires Inv(s) && Run(s, steps, t)
    ensures Inv(t)
    decreases |steps|
  {
    if steps != [] {
      StepInv(s, steps[0]);
      RunInv(Next(s, steps[0]), steps[1..], t);
    }
  }

  // ----- what the invariant means -----

  predicate Increasing(s: seq<nat>) { forall a, b | 0 <= a < b < |s| :: s[a] < s[b] }

  lemma IncreasingMore(s: seq<nat>, x: nat)
    requires Increasing(s) && forall a | 0 <= a < |s| :: s[a] < x
    ensures Increasing(s + [x])
  {
  }

  /** The connections given to a child are those accepted for it. */
  lemma {:induction false} GivenExact(to: seq<nat>, i: nat)
    ensures forall k: nat :: k in Given(to, i) <==> k < |to| && to[k] == i
  {
    if to != [] {
      var before := to[..|to| - 1];
      GivenExact(before, i);
      if to[|to| - 1] != i { EmptyRight(Given(before, i)); }
    }
  }

  /** They are given in the order of accept, so none of them twice. */
  lemma {:induction false} GivenInOrder(to: seq<nat>, i: nat)
    ensures Increasing(Given(to, i))
  {
    if to != [] {
      var k := |to| - 1;
      var before := to[..k];
      GivenInOrder(before, i);
      if to[k] == i {
        GivenExact(before, i);
        forall a | 0 <= a < |Given(before, i)| ensures Given(before, i)[a] < k {
          assert Given(before, i)[a] in Given(before, i);
        }
        IncreasingMore(Given(before, i), k);
      } else {
        EmptyRight(Given(before, i));
      }
    }
  }

  /** The number of connections over all children. */
  function Total(cs: seq<Child>): nat {
    if cs == [] then 0 else Total(cs[..|cs| - 1]) + cs[|cs| - 1].count
  }

  /** The connections given to the first n children. */
  function GivenTo(to: seq<nat>, n: nat): nat {
    if n == 0 then 0 else GivenTo(to, n - 1) + |Given(to, n - 1)|
  }

  lemma {:induction false} AllGiven(to: seq<nat>, n: nat)
    ensures GivenTo(to, n) <= |to| && ((forall k | 0 <= k < |to| :: to[k] < n) ==> GivenTo(to, n) == |to|)
  {
    if to == [] {
      NoneGiven(n);
    } else {
      var before := to[..|to| - 1];
      assert before + [to[|to| - 1]] == to;
      AllGiven(before, n);
      OneMoreGiven(before, to[|to| - 1], n);
    }
  }

  lemma {:induction false} NoneGiven(n: nat)
    ensures GivenTo([], n) == 0
  {
    if n > 0 { NoneGiven(n - 1); }
  }

  lemma {:induction false} OneMoreGiven(to: seq<nat>, i: nat, n: nat)
    ensures GivenTo(to + [i], n) == GivenTo(to, n) + (if i < n then 1 else 0)
  {
    if n > 0 {
      OneMoreGiven(to, i, n - 1);
      GivenMore(to, i, n - 1);
    }
  }

  lemma {:induction false} CountsAre(cs: seq<Child>, to: seq<nat>)
    requires forall i | 0 <= i < |cs| :: ChildInv(cs[i], i, to)
    ensures Total(cs) == GivenTo(to, |cs|)
  {
    if cs != [] {
      CountsAre(cs[..|cs| - 1], to);
      assert ChildInv(cs[|cs| - 1], |cs| - 1, to);
    }
  }

  /**
   Any number of children and any interleaving: navail counts the idle children, the exit for no
   available child is not taken, a child is idle exactly when nothing is on its way to it, with it or back,
   connection k goes to child to[k] once, in the order of accept, and to no other, the one a child serves is
   the last it received, and the counts printed at the end add up.
   */
  lemma EveryRun(n: nat, steps: seq<Step>, t: State)
    requires Run(Start(n), steps, t)
    ensures t.place != NoChildLeft && t.navail == |Idle(t.children)| && Total(t.children) == |t.to|
    ensures forall i | 0 <= i < |t.children| :: var c := t.children[i];
      && (c.status == 0 <==> c.toChild == [] && c.serving == None && c.toParent == 0)
      && |c.toChild| + (if c.serving.Some? then 1 else 0) + c.toParent <= 1
      && (c.serving.Some? ==> c.got != [] && c.serving.value == c.got[|c.got| - 1])
      && Increasing(c.got + c.toChild)
      && forall k: nat :: k in c.got + c.toChild <==> k < |t.to| && t.to[k] == i
  {
    StartInv(n);
    RunInv(Start(n), steps, t);
    forall i | 0 <= i < |t.children| ensures ChildInv(t.children[i], i, t.to) { }
    forall i | 0 <= i < |t.children|
      ensures var c := t.children[i];
        Increasing(c.got + c.toChild) && forall k: nat :: k in c.got + c.toChild <==> k < |t.to| && t.to[k] == i
    {
      GivenExact(t.to, i);
      GivenInOrder(t.to, i);
    }
    CountsAre(t.children, t.to);
    AllGiven(t.to, |t.children|);
  }

  /** With at least one child the server is never stuck: some step can be taken, if a client is waiting to connect. */
  lemma NeverStuck(s: State)
    requires Inv(s) && s.children != []
    ensures exists step :: Enabled(s, step)
  {
    match s.place
    case AtAccept => assert Enabled(s, Accept);
    case AtChild(i) =>
      assert i in s.rset ==> i in Ahead(s.rset, i);
      assert Enabled(s, Scan);
    case AtSelect =>
      if s.navail > 0 {
        assert Enabled(s, Select(true, {}));
      } else {
        var c := s.children[0];
        assert ChildInv(c, 0, s.to);
        assert c.status == 0 <==> 0 in Idle(s.children);
        if c.toChild != [] {
          assert Enabled(s, Receive(0));
        } else if c.serving.Some? {
          assert Enabled(s, Finish(0));
        } else {
          assert Enabled(s, Select(false, {0}));
        }
      }
  }

  /** A child that has been passed a connection receives it, serves it, and then has a byte for the parent. */
  lemma ChildTurn(s: State, i: nat)
    requires Inv(s) && i < |s.children| && s.children[i].toChild != []
    ensures Enabled(s, Receive(i)) && Enabled(Next(s, Receive(i)), Finish(i))
    ensures var c, u, t := s.children[i], Next(s, Receive(i)), Next(Next(s, Receive(i)), Finish(i));
      && Inv(u) && Inv(t) && u.children[i].serving == Some(c.toChild[0])
      && t.children[i] == c.(toChild := [], got := c.got + [c.toChild[0]], toParent := 1)
      && t == s.(children := s.children[i := t.children[i]])
  {
    assert ChildInv(s.children[i], i, s.to);
    ChildStepInv(s, Receive(i));
    ChildStepInv(Next(s, Receive(i)), Finish(i));
    assert s.children[i].toChild[1..] == [];
  }

  // ----- the parent's program -----

  lemma ScanEnabled(s: State)
    requires Inv(s) && s.place.AtChild?
    ensures Enabled(s, Scan)
  {
    assert s.place.i in s.rset ==> s.place.i in Ahead(s.rset, s.place.i);
  }

  /** The parent up to its next select, while the children pause. */
  function ToSelect(s: State): State
    requires Inv(s)
    decreases if s.place == AtAccept then |s.children| + 2
      else if s.place.AtChild? then |s.children| + 1 - s.place.i else 0
  {
    match s.place
    case AtAccept => AcceptInv(s); ToSelect(Next(s, Accept))
    case AtChild(i) => ScanEnabled(s); ScanInv(s); ToSelect(Next(s, Scan))
    case _ => s
  }

  function CollectedChild(c: Child): Child { c.(status := 0, toParent := 0) }

  /** t is s at select again, with the children in fds idle. */
  predicate AllCollected(s: State, t: State, fds: set<nat>) {
    && t.place == AtSelect && t.to == s.to && t.navail == s.navail + |fds| && |t.children| == |s.children|
    && forall j | 0 <= j < |s.children| ::
      t.children[j] == if j in fds then CollectedChild(s.children[j]) else s.children[j]
  }

  lemma CollectedFirst(s: State, i: nat, u: State, t: State)
    requires i < |s.children| && AllCollected(u, t, Ahead(s.rset, i + 1))
    requires if i in s.rset then s.children[i].toParent == 1 && u == GoOn(Collected(s, i), i + 1)
      else u == GoOn(s, i + 1)
    ensures AllCollected(s, t, Ahead(s.rset, i))
  {
    AheadStep(s.rset, i);
    AheadLess(s.rset, i);
  }

  /** The scan collects from every child still ahead of it, whatever nsel and its early exit. */
  lemma {:induction false} ScanCollectsAll(s: State)
    requires Inv(s) && s.place.AtChild?
    ensures AllCollected(s, ToSelect(s), Ahead(s.rset, s.place.i))
    decreases |s.children| - s.place.i
  {
    ScanEnabled(s);
    ScanInv(s);
    var i, u := s.place.i, Next(s, Scan);
    ScanReaches(s, i);
    if i in s.rset { assert ChildInv(s.children[i], i, s.to); }
    if u.place.AtChild? {
      ScanCollectsAll(u);
    } else {
      AheadStep(s.rset, i);
      assert Ahead(s.rset, i + 1) == {};
    }
    CollectedFirst(s, i, u, ToSelect(s));
  }

  function DispatchedChild(c: Child, k: nat): Child {
    c.(status := 1, count := c.count + 1, toChild := c.toChild + [k])
  }

  /**
   A round of the parent in plain terms: the connection goes to the first idle child, every ready child
   becomes idle.
   */
  lemma RoundInPlainTerms(s: State, connection: bool, ready: set<nat>)
    requires Inv(s) && Enabled(s, Select(connection, ready))
    ensures Inv(Next(s, Select(connection, ready)))
    ensures var t := ToSelect(Next(s, Select(connection, ready))); var first := FirstIdle(s.children);
      && t.place == AtSelect && |t.children| == |s.children| && (connection ==> first < |s.children|)
      && t.to == s.to + (if connection then [first] else [])
      && t.navail == s.navail + |ready| - (if connection then 1 else 0)
      && forall j | 0 <= j < |s.children| :: t.children[j] ==
          if j in ready then CollectedChild(s.children[j])
          else if connection && j == first then DispatchedChild(s.children[j], |s.to|)
          else s.children[j]
  {
    SelectInv(s, connection, ready);
    var u := Next(s, Select(connection, ready));
    assert Ahead(ready, 0) == ready;
    if connection {
      var first := FirstIdle(s.children);
      AcceptInv(u);
      assert ChildInv(s.children[first], first, s.to);
      var v := Next(u, Accept);
      if v.place.AtChild? { ScanCollectsAll(v); }
    } else {
      EmptyRight(s.to);
      ScanCollectsAll(u);
    }
  }

  /** The state when select has returned. */
  function Selected(s: State, connection: bool, ready: set<nat>): (t: State)
    requires Inv(s) && Enabled(s, Select(connection, ready))
    ensures Inv(t)
  {
    SelectInv(s, connection, ready);
    Next(s, Select(connection, ready))
  }

  /** The parent's cptr, with what is in the pipes and in the children beside it, and its counters. */
  class Server {
    const cptr: array<Child>
    var navail: int
    var to: seq<nat>

    ghost function View(place: Place, nsel: int, rset: set<nat>): State
      reads this, cptr
    {
      State(cptr[..], navail, place, nsel, rset, to)
    }

    constructor (nchildren: nat)
      ensures View(AtSelect, 0, {}) == Start(nchildren) && fresh(cptr)
    {
      navail, to := nchildren, [];
      cptr := new Child[nchildren](_ => Child(0, 0, [], None, [], 0));
    }

    /** server/serv05.c:54-65: an idle child is looked for, marked and given the descriptor. */
    method Dispatch(ghost nsel: int, ghost rset: set<nat>) returns (found: bool)
      modifies this, cptr
      ensures found == (FirstIdle(old(cptr[..])) < cptr.Length)
      ensures found ==>
        View(AtAccept, nsel - 1, rset) == Dispatched(old(View(AtAccept, nsel, rset)), FirstIdle(old(cptr[..])))
      ensures !found ==> View(AtAccept, nsel, rset) == old(View(AtAccept, nsel, rset))
    {
      var i := 0;
      while i < cptr.Length && cptr[i].status != 0
        invariant 0 <= i <= cptr.Length && FirstIdle(cptr[i..]) + i == FirstIdle(cptr[..])
      {
        assert cptr[i..][1..] == cptr[i + 1..];
        i := i + 1;
      }
      if i == cptr.Length { return false; }
      var connfd := |to|;
      cptr[i] := cptr[i].(status := 1, count := cptr[i].count + 1);
      navail := navail - 1;
      cptr[i] := cptr[i].(toChild := cptr[i].toChild + [connfd]);
      to := to + [i];
      return true;
    }

    /** server/serv05.c:73-76: the byte is read, and the child is idle again. */
    method Collect(i: nat, ghost nsel: int, ghost rset: set<nat>)
      requires i < cptr.Length && cptr[i].toParent > 0
      modifies `navail, cptr
      ensures View(AtChild(i), nsel - 1, rset) == Collected(old(View(AtChild(i), nsel, rset)), i)
    {
      cptr[i] := cptr[i].(toParent := cptr[i].toParent - 1);
      cptr[i] := cptr[i].(status := 0);
      navail := navail + 1;
    }

    /** A child takes the descriptor from its pipe (server/child05.c:41). */
    method Receive(i: nat, ghost place: Place, ghost nsel: int, ghost rset: set<nat>)
      requires Enabled(View(place, nsel, rset), Step.Receive(i))
      modifies cptr
      ensures View(place, nsel, rset) == Next(old(View(place, nsel, rset)), Step.Receive(i))
    {
      var connfd := cptr[i].toChild[0];
      cptr[i] := cptr[i].(toChild := cptr[i].toChild[1..]);
      cptr[i] := cptr[i].(serving := Some(connfd), got := cptr[i].got + [connfd]);
    }

    /** A child has served its connection, closes it and tells the parent (server/child05.c:46-49). */
    method Finish(i: nat, ghost place: Place, ghost nsel: int, ghost rset: set<nat>)
      requires Enabled(View(place, nsel, rset), Step.Finish(i))
      modifies cptr
      ensures View(place, nsel, rset) == Next(old(View(place, nsel, rset)), Step.Finish(i))
    {
      cptr[i] := cptr[i].(serving := None);
      cptr[i] := cptr[i].(toParent := cptr[i].toParent + 1);
    }

    /** server/serv05.c:71-80: the scan for ready bytes, which ends when nsel is used up. */
    method ScanChildren(ready: set<nat>, n: int, ghost from: State)
      requires from == View(AtChild(0), n, ready) && Inv(from)
      modifies `navail, cptr
      ensures View(AtSelect, 0, ready) == ToSelect(from)
    {
      var nsel, i := n, 0;
      ghost var s := from;
      while i < cptr.Length
        invariant s == View(AtChild(i), nsel, ready) && Inv(s) && ToSelect(s) == ToSelect(from)
      {
        ScanEnabled(s);
        ScanInv(s);
        s := Next(s, Scan);
        if i in ready {
          Collect(i, nsel, ready);
          nsel := nsel - 1;
          if nsel == 0 { return; }
        }
        i := i + 1;
      }
    }

    /** A round (server/serv05.c:44-80), for what select returned; quit is the exit for no available child. */
    method Round(connection: bool, ready: set<nat>) returns (quit: bool)
      requires Inv(View(AtSelect, 0, {})) && Enabled(View(AtSelect, 0, {}), Select(connection, ready))
      modifies this, cptr
      ensures !quit && View(AtSelect, 0, ready) == ToSelect(Selected(old(View(AtSelect, 0, {})), connection, ready))
    {
      ghost var s := Selected(View(AtSelect, 0, {}), connection, ready);
      var nsel := |ready| + (if connection then 1 else 0);
      if connection {
        AcceptInv(s);
        var found := Dispatch(nsel, ready);
        if !found { return true; }
        nsel := nsel - 1;
        s := Next(s, Accept);
        if nsel == 0 { return false; }
      }
      ScanChildren(ready, nsel, s);
      return false;
    }
  }
}
