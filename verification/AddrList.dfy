/**
 The service half of getaddrinfo (libgai/ga_port.c, ga_clone.c, ga_serv.c): a linked list with one
 entry per address is walked, and grows on the way, so that every address ends up with one entry per
 socket type.
 */
module AddrList {
  import opened Basics
  import DottedQuad

  const SOCK_STREAM: nat := 1
  const SOCK_DGRAM: nat := 2

  datatype Family = Inet | Inet6 | Local

  class SockAddr {
    const host: seq<byte>
    var port: word

    constructor (host: seq<byte>, port: word)
      ensures this.host == host && this.port == port
    {
      this.host, this.port := host, port;
    }
  }

  /** struct addrinfo; clone is the AI_CLONE bit, the one bit of ai_flags these functions use. */
  class AddrInfo {
    var next: AddrInfo?
    var clone: bool
    var family: Family
    var socktype: nat
    var protocol: nat
    var canonname: Option<string>
    const addr: SockAddr

    constructor (next: AddrInfo?, family: Family, socktype: nat, protocol: nat, addr: SockAddr)
      ensures this.next == next && this.addr == addr
      ensures !clone && this.family == family && this.socktype == socktype && this.protocol == protocol
        && canonname == None
    {
      this.next, this.clone, this.family, this.socktype := next, false, family, socktype;
      this.protocol, this.canonname, this.addr := protocol, None, addr;
    }

    ghost function View(): Entry
      reads this, addr
    {
      Entry(clone, family, socktype, protocol, canonname, addr.host, addr.port)
    }
  }

  // ----- the list as a value -----

  datatype Entry = Entry(clone: bool, family: Family, socktype: nat, protocol: nat, canonname: Option<string>,
                         host: seq<byte>, port: word)

  /** A service as ga_port gets it: the socket type and the port. */
  datatype Service = Service(socktype: nat, port: word)

  function Serving(e: Entry, s: Service): Entry {
    e.(socktype := s.socktype, port := if e.family == Local then e.port else s.port)
  }

  function Cloned(e: Entry): Entry { e.(clone := false, canonname := None) }

  /** What becomes of one entry. */
  function PassOne(e: Entry, s: Service): seq<Entry> {
    if e.clone && e.socktype != 0 then [e, Serving(Cloned(e), s)]
    else if e.clone || e.socktype == s.socktype then [Serving(e, s)]
    else [e]
  }

  function FoundOne(e: Entry, s: Service): nat {
    if (e.clone || e.socktype == s.socktype) && e.family != Local then 1 else 0
  }

  function Pass(l: seq<Entry>, s: Service): seq<Entry> {
    if l == [] then [] else PassOne(l[0], s) + Pass(l[1..], s)
  }

  function Found(l: seq<Entry>, s: Service): nat {
    if l == [] then 0 else FoundOne(l[0], s) + Found(l[1..], s)
  }

  lemma {:induction false} PassConcat(a: seq<Entry>, b: seq<Entry>, s: Service)
    ensures Pass(a + b, s) == Pass(a, s) + Pass(b, s) && Found(a + b, s) == Found(a, s) + Found(b, s)
    decreases |a|
  {
    if a == [] {
      EmptyLeft(b);
      EmptyLeft(Pass(b, s));
    } else {
      assert (a + b)[1..] == a[1..] + b;
      PassConcat(a[1..], b, s);
      Assoc(PassOne(a[0], s), Pass(a[1..], s), Pass(b, s));
    }
  }

  // ----- what several passes come to -----

  /** The passes of services, the first of them first. */
  function Passes(l: seq<Entry>, services: seq<Service>): seq<Entry> {
    if services == [] then l
    else Pass(Passes(l, services[..|services| - 1]), services[|services| - 1])
  }

  predicate DistinctTypes(services: seq<Service>) {
    && (forall i | 0 <= i < |services| :: services[i].socktype != 0)
    && (forall i, j | 0 <= i < j < |services| :: services[i].socktype != services[j].socktype)
  }

  /** The entries of one address beyond its first: one for each service, the latest in front. */
  function Clones(e: Entry, services: seq<Service>): (l: seq<Entry>)
    ensures |l| == |services|
  {
    if services == [] then []
    else [Serving(Cloned(e), services[|services| - 1])] + Clones(e, services[..|services| - 1])
  }

  /** All entries of one address. */
  function Group(e: Entry, services: seq<Service>): (l: seq<Entry>)
    ensures |l| == |services|
  {
    if services == [] then [] else [Serving(e, services[0])] + Clones(e, services[1..])
  }

  /** The groups of all addresses, in their order. */
  function Expand(l: seq<Entry>, services: seq<Service>): seq<Entry> {
    if l == [] then [] else Group(l[0], services) + Expand(l[1..], services)
  }

  /** An entry as ga_aistruct makes it for a caller that named no socket type. */
  predicate Unspecified(e: Entry) { e.clone && e.socktype == 0 }

  /** A pass for another type leaves clones as they are, with the ports of their own passes. */
  lemma {:induction false} ClonesKept(e: Entry, services: seq<Service>, s: Service)
    requires forall i | 0 <= i < |services| :: services[i].socktype != s.socktype
    ensures Pass(Clones(e, services), s) == Clones(e, services) && Found(Clones(e, services), s) == 0
  {
    if services != [] { ClonesKept(e, services[..|services| - 1], s); }
  }

  lemma RestOfMore(services: seq<Service>, s: Service)
    requires services != []
    ensures (services + [s])[1..] == services[1..] + [s] && (services[1..] + [s])[..|services| - 1] == services[1..]
    ensures DistinctTypes(services + [s]) ==>
      forall i | 0 <= i < |services| - 1 :: services[1..][i].socktype != s.socktype
  {
    var all := services + [s];
    assert forall i | 0 <= i < |services| - 1 :: services[1..][i] == all[i + 1];
    assert all[|services|] == s;
  }

  /** A pass adds one entry to the group of an address, right behind its first. */
  lemma GroupGrows(e: Entry, services: seq<Service>, s: Service)
    requires Unspecified(e) && services != [] && DistinctTypes(services + [s])
    ensures Pass(Group(e, services), s) == Group(e, services + [s])
    ensures Found(Group(e, services), s) == (if e.family == Local then 0 else 1)
  {
    RestOfMore(services, s);
    assert (services + [s])[0] == services[0];
    ClonesKept(e, services[1..], s);
    PassOnGroup(Serving(e, services[0]), Clones(e, services[1..]), s);
  }

  lemma PassOnGroup(first: Entry, copies: seq<Entry>, s: Service)
    requires first.clone && first.socktype != 0 && Pass(copies, s) == copies && Found(copies, s) == 0
    ensures Pass([first] + copies, s) == [first] + ([Serving(Cloned(first), s)] + copies)
    ensures Found([first] + copies, s) == FoundOne(first, s)
  {
    assert ([first] + copies)[0] == first && ([first] + copies)[1..] == copies;
    Assoc([first], [Serving(Cloned(first), s)], copies);
  }

  lemma {:induction false} ExpansionGrows(l: seq<Entry>, services: seq<Service>, s: Service)
    requires forall i | 0 <= i < |l| :: Unspecified(l[i])
    requires services != [] && DistinctTypes(services + [s])
    ensures Pass(Expand(l, services), s) == Expand(l, services + [s])
    ensures (forall i | 0 <= i < |l| :: l[i].family != Local) ==> Found(Expand(l, services), s) == |l|
  {
    if l != [] {
      GroupGrows(l[0], services, s);
      PassConcat(Group(l[0], services), Expand(l[1..], services), s);
      ExpansionGrows(l[1..], services, s);
    }
  }

  lemma {:induction false} FirstPass(l: seq<Entry>, s: Service)
    requires forall i | 0 <= i < |l| :: Unspecified(l[i])
    ensures Pass(l, s) == Expand(l, [s])
    ensures (forall i | 0 <= i < |l| :: l[i].family != Local) ==> Found(l, s) == |l|
  {
    if l != [] {
      FirstPass(l[1..], s);
      assert [s][1..] == [];
      assert Clones(l[0], []) == [];
      EmptyRight([Serving(l[0], s)]);
    }
  }

  /**
   Any number of passes for distinct socket types over a list of addresses: every address has exactly
   one entry for each type, next to each other and in the order of the addresses, with the port of that
   type's own pass.
   */
  lemma {:induction false} PassesExpand(l: seq<Entry>, services: seq<Service>)
    requires forall i | 0 <= i < |l| :: Unspecified(l[i])
    requires services != [] && DistinctTypes(services)
    ensures Passes(l, services) == Expand(l, services)
    decreases |services|
  {
    var k := |services| - 1;
    var before, s := services[..k], services[k];
    assert before + [s] == services;
    if k == 0 {
      assert before == [] && services == [s];
      FirstPass(l, s);
    } else {
      PassesExpand(l, before);
      ExpansionGrows(l, before, s);
    }
  }

  lemma {:induction false} ExpandLength(l: seq<Entry>, services: seq<Service>)
    ensures |Expand(l, services)| == |l| * |services|
  {
    if l != [] {
      ExpandLength(l[1..], services);
      OneMore(|l[1..]|, |services|);
    }
  }

  lemma OneMore(n: nat, k: nat)
    ensures (n + 1) * k == n * k + k
  {
  }

  /** The group of address g stands behind the groups of the addresses before it. */
  lemma {:induction false} ExpandAt(l: seq<Entry>, services: seq<Service>, g: nat)
    requires g < |l|
    ensures Expand(l, services) == Expand(l[..g], services) + (Group(l[g], services) + Expand(l[g + 1..], services))
    decreases g
  {
    if g == 0 {
      EmptyLeft(Group(l[0], services) + Expand(l[1..], services));
    } else {
      assert l[..g][1..] == l[1..][..g - 1] && l[1..][g..] == l[g + 1..];
      ExpandAt(l[1..], services, g - 1);
      var between, rest := Expand(l[1..][..g - 1], services), Expand(l[g + 1..], services);
      Assoc(Group(l[0], services), between, Group(l[g], services) + rest);
    }
  }

  /** In a group the first service comes first, and the others follow with the latest in front. */
  lemma {:induction false} GroupAt(e: Entry, services: seq<Service>, j: nat)
    requires j < |services|
    ensures Group(e, services)[j] ==
      if j == 0 then Serving(e, services[0]) else Serving(Cloned(e), services[|services| - j])
  {
    if j > 0 { ClonesAt(e, services[1..], j - 1); }
  }

  lemma {:induction false} ClonesAt(e: Entry, services: seq<Service>, j: nat)
    requires j < |services|
    ensures Clones(e, services)[j] == Serving(Cloned(e), services[|services| - 1 - j])
  {
    if j > 0 { ClonesAt(e, services[..|services| - 1], j - 1); }
  }

  // ----- the same, field by field -----

  /** What one pass does to a list of one entry, and whether the entry counts as found. */
  lemma EntryInPlainTerms(e: Entry, s: Service)
    ensures Found([e], s) == 1 <==> Pass([e], s)[|Pass([e], s)| - 1].socktype == s.socktype && e.family != Local
    ensures Found([e], s) <= 1
    ensures var r := Pass([e], s);
      && (!e.clone && e.socktype != s.socktype ==> r == [e])
      && (e.clone || e.socktype == s.socktype ==> r != [] && SetTo(r[|r| - 1], e, s))
      && (e.clone && e.socktype != 0 ==>
            && |r| == 2 && r[0] == e && !r[1].clone && r[1].canonname == None)
      && ((e.clone && e.socktype == 0) || (!e.clone && e.socktype == s.socktype) ==>
            |r| == 1 && r[0].clone == e.clone && r[0].canonname == e.canonname)
  {
    assert [e][1..] == [];
    EmptyRight(PassOne(e, s));
  }

  /** The type and the port of the service, on the address of was (libgai/ga_port.c:47-62). */
  predicate SetTo(e: Entry, was: Entry, s: Service) {
    && e.socktype == s.socktype && e.port == (if was.family == Local then was.port else s.port)
    && e.host == was.host && e.family == was.family && e.protocol == was.protocol
  }

  /** Entry j of address g: the first service in the address's own entry, the others behind it, the latest in front. */
  predicate EntryFor(r: seq<Entry>, l: seq<Entry>, services: seq<Service>, g: nat, j: nat)
    requires g < |l| && j < |services|
  {
    var i := g * |services| + j;
    && i < |r| && SetTo(r[i], l[g], services[if j == 0 then 0 else |services| - j])
    && r[i].clone == (j == 0) && r[i].canonname == (if j == 0 then l[g].canonname else None)
  }

  lemma GroupInPlainTerms(e: Entry, services: seq<Service>, j: nat)
    requires Unspecified(e) && j < |services|
    ensures var r := Group(e, services)[j];
      && SetTo(r, e, services[if j == 0 then 0 else |services| - j])
      && r.clone == (j == 0) && r.canonname == (if j == 0 then e.canonname else None)
  {
    GroupAt(e, services, j);
  }

  lemma ExpandIndex(l: seq<Entry>, services: seq<Service>, g: nat, j: nat)
    requires g < |l| && j < |services|
    ensures g * |services| + j < |Expand(l, services)|
    ensures Expand(l, services)[g * |services| + j] == Group(l[g], services)[j]
  {
    ExpandAt(l, services, g);
    ExpandLength(l[..g], services);
    AddressesBefore(Expand(l[..g], services), Group(l[g], services), Expand(l[g + 1..], services), j);
  }

  lemma AddressesBefore<T>(a: seq<T>, b: seq<T>, c: seq<T>, j: nat)
    requires j < |b|
    ensures |a| + j < |a + (b + c)| && (a + (b + c))[|a| + j] == b[j]
  {
  }

  /**
   After passes for distinct types there is one entry for every address and every service, with that service's
   type and port and that address's host and family.
   */
  lemma EveryAddressEveryService(l: seq<Entry>, services: seq<Service>)
    requires forall i | 0 <= i < |l| :: Unspecified(l[i])
    requires services != [] && DistinctTypes(services)
    ensures |Passes(l, services)| == |l| * |services|
    ensures forall g: nat, j: nat | g < |l| && j < |services| :: EntryFor(Passes(l, services), l, services, g, j)
  {
    PassesExpand(l, services);
    ExpandLength(l, services);
    forall g: nat, j: nat | g < |l| && j < |services| ensures EntryFor(Passes(l, services), l, services, g, j) {
      ExpandIndex(l, services, g, j);
      GroupInPlainTerms(l[g], services, j);
    }
  }

  // ----- the list on the heap -----

  /** No node twice, no address shared. */
  ghost predicate Distinct(ns: seq<AddrInfo>) {
    forall i, j | 0 <= i < j < |ns| :: ns[i] != ns[j] && ns[i].addr != ns[j].addr
  }

  ghost function Front(ns: seq<AddrInfo>, end: AddrInfo?): AddrInfo? { if ns == [] then end else ns[0] }

  /** These nodes follow each other, and then comes end. */
  ghost predicate Linked(ns: seq<AddrInfo>, end: AddrInfo?)
    reads ns
  {
    ns == [] || (ns[0].next == Front(ns[1..], end) && Linked(ns[1..], end))
  }

  ghost function Addrs(ns: seq<AddrInfo>): set<SockAddr> { set n | n in ns :: n.addr }

  ghost function List(ns: seq<AddrInfo>): (l: seq<Entry>)
    reads ns, Addrs(ns)
    ensures |l| == |ns|
  {
    if ns == [] then [] else [ns[0].View()] + List(ns[1..])
  }

  lemma {:induction false} Joined(a: seq<AddrInfo>, b: seq<AddrInfo>, end: AddrInfo?)
    ensures List(a + b) == List(a) + List(b)
    ensures Front(a + b, end) == Front(a, Front(b, end))
    ensures Linked(a, Front(b, end)) && Linked(b, end) ==> Linked(a + b, end)
    decreases |a|
  {
    if a == [] {
      EmptyLeft(b);
      EmptyLeft(List(b));
    } else {
      assert (a + b)[1..] == a[1..] + b;
      Joined(a[1..], b, end);
      Assoc([a[0].View()], List(a[1..]), List(b));
    }
  }

  method GaClone(ai: AddrInfo) returns (copy: AddrInfo)
    modifies ai`next
    ensures fresh(copy) && fresh(copy.addr)
    ensures copy.next == old(ai.next) && ai.next == copy
    ensures copy.View() == Cloned(ai.View())
  {
    var addr := new SockAddr(ai.addr.host, ai.addr.port);
    copy := new AddrInfo(ai.next, ai.family, ai.socktype, ai.protocol, addr);
    ai.next := copy;
  }

  /** The body of the loop in ga_port, on the entry at; it leaves at on the last node it made or changed. */
  method Visit(at: AddrInfo, port: word, socktype: nat) returns (ai: AddrInfo, nfound: nat, ghost seen: seq<AddrInfo>)
    modifies at, at.addr
    ensures nfound == FoundOne(old(at.View()), Service(socktype, port))
    ensures List(seen) == PassOne(old(at.View()), Service(socktype, port))
    ensures seen == [at] || (|seen| == 2 && seen[0] == at && fresh(seen[1]) && fresh(seen[1].addr))
    ensures Linked(seen, old(at.next)) && ai == seen[|seen| - 1] && ai.next == old(at.next)
    ensures old(at.clone) || old(at.socktype) == socktype ==>
      && ai.socktype == socktype && ai.family == old(at.family) && ai.addr.host == at.addr.host
      && ai.addr.port == (if old(at.family) == Local then old(at.addr.port) else port)
    ensures !old(at.clone) && old(at.socktype) != socktype ==> at.View() == old(at.View())
  {
    ai, nfound, seen := at, 0, [at];
    assert seen[1..] == [];
    if ai.clone {
      if ai.socktype != 0 {
        ai := GaClone(ai);
        seen := [at, ai];
        assert seen[1..] == [ai] && seen[1..][1..] == [];
      }
    } else if ai.socktype != socktype {
      return;
    }
    ai.socktype := socktype;
    match ai.family {
      case Inet => ai.addr.port := port; nfound := nfound + 1;
      case Inet6 => ai.addr.port := port; nfound := nfound + 1;
      case Local =>
    }
  }

  /** A node visited, with the clone that may follow it, takes its place between the others. */
  lemma KeepsDistinct(done: seq<AddrInfo>, ahead: seq<AddrInfo>, seen: seq<AddrInfo>)
    requires Distinct(done + ahead) && ahead != []
    requires seen == [ahead[0]] || (|seen| == 2 && seen[0] == ahead[0])
    requires |seen| == 2 ==> seen[0] != seen[1] && seen[0].addr != seen[1].addr
    requires |seen| == 2 ==> forall n | n in done + ahead :: n != seen[1] && n.addr != seen[1].addr
    ensures Distinct((done + seen) + ahead[1..])
  {
    if |seen| == 1 {
      MoveFirst(done, ahead);
    } else {
      var all, after := done + ahead, (done + seen) + ahead[1..];
      var k := |done|;
      assert forall i | 0 <= i < |after| && i != k + 1 :: after[i] == all[if i <= k then i else i - 1];
      assert after[k + 1] == seen[1];
    }
  }

  /** What the part of the list already walked and the part still ahead add up to. */
  ghost predicate Walked(done: seq<Entry>, ahead: seq<Entry>, n: nat, all: seq<Entry>, s: Service) {
    done + Pass(ahead, s) == Pass(all, s) && n + Found(ahead, s) == Found(all, s)
  }

  lemma WalkOn(done: seq<Entry>, ahead: seq<Entry>, n: nat, all: seq<Entry>, s: Service)
    requires Walked(done, ahead, n, all, s) && ahead != []
    ensures Walked(done + PassOne(ahead[0], s), ahead[1..], n + FoundOne(ahead[0], s), all, s)
  {
    Assoc(done, PassOne(ahead[0], s), Pass(ahead[1..], s));
  }

  /** The node at hand shares nothing with the others. */
  lemma Apart(done: seq<AddrInfo>, ahead: seq<AddrInfo>)
    requires Distinct(done + ahead) && ahead != []
    ensures ahead[0] !in done && ahead[0] !in ahead[1..]
    ensures ahead[0].addr !in Addrs(done) && ahead[0].addr !in Addrs(ahead[1..])
  {
    var all, k := done + ahead, |done|;
    assert all[k] == ahead[0];
    assert forall i | 0 <= i < k :: all[i] == done[i];
    assert forall i | 0 <= i < |ahead| - 1 :: all[k + 1 + i] == ahead[1..][i];
  }

  /** The loop of ga_port between two turns: the nodes behind it, those ahead of it, and what it has counted. */
  ghost predicate Midway(aihead: AddrInfo?, done: seq<AddrInfo>, ai: AddrInfo?, ahead: seq<AddrInfo>,
                         nfound: nat, all: seq<Entry>, s: Service)
    reads done, ahead, Addrs(done), Addrs(ahead)
  {
    && Distinct(done + ahead) && Linked(done, ai) && Linked(ahead, null)
    && ai == Front(ahead, null) && aihead == Front(done, ai)
    && Walked(List(done), List(ahead), nfound, all, s)
  }

  lemma Departure(nodes: seq<AddrInfo>, s: Service)
    requires Distinct(nodes) && Linked(nodes, null)
    ensures Midway(Front(nodes, null), [], Front(nodes, null), nodes, 0, List(nodes), s)
  {
    EmptyLeft(nodes);
    EmptyLeft(Pass(List(nodes), s));
  }

  lemma Arrival(aihead: AddrInfo?, done: seq<AddrInfo>, ahead: seq<AddrInfo>, nfound: nat, all: seq<Entry>, s: Service)
    requires Midway(aihead, done, null, ahead, nfound, all, s)
    ensures Distinct(done) && Linked(done, null) && aihead == Front(done, null)
    ensures List(done) == Pass(all, s) && nfound == Found(all, s)
  {
    EmptyRight(done);
    EmptyRight(List(done));
  }

  /** The nodes just seen join those behind the loop. */
  lemma Behind(aihead: AddrInfo?, done: seq<AddrInfo>, seen: seq<AddrInfo>, rest: seq<AddrInfo>,
               was: seq<Entry>, more: seq<Entry>, nfound: nat, all: seq<Entry>, s: Service)
    requires Distinct((done + seen) + rest) && seen != [] && aihead == Front(done, seen[0])
    requires Linked(done, seen[0]) && Linked(seen, Front(rest, null)) && Linked(rest, null)
    requires List(done) == was && List(rest) == more && Walked(was + List(seen), more, nfound, all, s)
    ensures Midway(aihead, done + seen, Front(rest, null), rest, nfound, all, s)
  {
    Joined(done, seen, Front(rest, null));
  }

  /** One turn of that loop. */
  method Turn(aihead: AddrInfo?, at: AddrInfo, port: word, socktype: nat,
              ghost done: seq<AddrInfo>, ghost ahead: seq<AddrInfo>, ghost nfound: nat, ghost all: seq<Entry>)
    returns (ai: AddrInfo?, n: nat, ghost seen: seq<AddrInfo>)
    requires ahead != [] && Midway(aihead, done, at, ahead, nfound, all, Service(socktype, port))
    modifies at, at.addr
    ensures Midway(aihead, done + seen, ai, ahead[1..], nfound + n, all, Service(socktype, port))
    ensures forall m | m in seen :: m == at || (fresh(m) && fresh(m.addr))
  {
    Apart(done, ahead);
    ghost var rest, was, more, e := ahead[1..], List(done), List(ahead[1..]), at.View();
    WalkOn(was, List(ahead), nfound, all, Service(socktype, port));
    var last;
    last, n, seen := Visit(at, port, socktype);
    ai := last.next;
    KeepsDistinct(done, ahead, seen);
    Behind(aihead, done, seen, rest, was, more, nfound + n, all, Service(socktype, port));
  }

  method GaPort(aihead: AddrInfo?, port: word, socktype: nat, ghost nodes: seq<AddrInfo>)
    returns (nfound: nat, ghost ns: seq<AddrInfo>)
    requires Distinct(nodes) && Linked(nodes, null) && aihead == Front(nodes, null)
    modifies nodes, Addrs(nodes)
    ensures Distinct(ns) && Linked(ns, null) && aihead == Front(ns, null)
    ensures forall n | n in ns :: n in nodes || (fresh(n) && fresh(n.addr))
    ensures List(ns) == Pass(old(List(nodes)), Service(socktype, port))
    ensures nfound == Found(old(List(nodes)), Service(socktype, port))
  {
    nfound := 0;
    ghost var all := List(nodes);
    ghost var done: seq<AddrInfo>, ahead := [], nodes;
    var ai := aihead;
    Departure(nodes, Service(socktype, port));
    while ai != null
      invariant Midway(aihead, done, ai, ahead, nfound, all, Service(socktype, port))
      invariant forall n | n in done :: n in nodes || (fresh(n) && fresh(n.addr))
      invariant forall n | n in ahead :: n in nodes
      decreases |ahead|
    {
      var n; ghost var seen;
      ai, n, seen := Turn(aihead, ai, port, socktype, done, ahead, nfound, all);
      done, ahead := done + seen, ahead[1..];
      nfound := nfound + n;
    }
    ns := done;
    Arrival(aihead, done, ahead, nfound, all, Service(socktype, port));
  }

  // ----- the service string -----

  datatype Status = Ok | NoName | NoService

  /** atoi of a string that starts with a digit. */
  function Atoi(serv: string, acc: nat): nat {
    if serv == [] || !DottedQuad.IsDigit(serv[0]) then acc
    else Atoi(serv[1..], 10 * acc + DottedQuad.DigitValue(serv[0]))
  }

  /** The number its leading digits stand for. */
  lemma {:induction false} AtoiIsDecimal(d: string, rest: string, before: string)
    requires DottedQuad.Digits(d) && (rest == "" || !DottedQuad.IsDigit(rest[0]))
    ensures Atoi(d + rest, DottedQuad.Decimal(before)) == DottedQuad.Decimal(before + d)
    decreases |d|
  {
    if d == "" {
      EmptyLeft(rest);
      EmptyRight(before);
    } else {
      assert (d + rest)[0] == d[0] && (d + rest)[1..] == d[1..] + rest;
      DottedQuad.DecimalSnoc(before, d[0]);
      AtoiIsDecimal(d[1..], rest, before + [d[0]]);
      MoveFirst(before, d);
    }
  }

  /** The services for a port number. */
  function ByNumber(hint: nat, port: word): seq<Service> {
    if hint != 0 then [Service(hint, port)] else [Service(SOCK_STREAM, port), Service(SOCK_DGRAM, port)]
  }

  /** The services for a name: tcp and udp are the answers of getservbyname. */
  function ByName(hint: nat, tcp: Option<word>, udp: Option<word>): seq<Service> {
    (if (hint == 0 || hint == SOCK_STREAM) && tcp.Some? then [Service(SOCK_STREAM, tcp.value)] else []) +
    (if (hint == 0 || hint == SOCK_DGRAM) && udp.Some? then [Service(SOCK_DGRAM, udp.value)] else [])
  }

  function Wanted(hint: nat, serv: string, tcp: Option<word>, udp: Option<word>): seq<Service> {
    if serv != [] && DottedQuad.IsDigit(serv[0]) then ByNumber(hint, Atoi(serv, 0) % 65536) else ByName(hint, tcp, udp)
  }

  /** For a number, the caller's type or both, with the number as a word for the port. */
  lemma WantedByNumber(hint: nat, d: string, rest: string, tcp: Option<word>, udp: Option<word>, s: Service)
    requires d != "" && DottedQuad.Digits(d) && (rest == "" || !DottedQuad.IsDigit(rest[0]))
    ensures s in Wanted(hint, d + rest, tcp, udp) <==>
      && s.port == DottedQuad.Decimal(d) % 65536
      && (if hint != 0 then s.socktype == hint else s.socktype == SOCK_STREAM || s.socktype == SOCK_DGRAM)
  {
    AtoiIsDecimal(d, rest, "");
    EmptyLeft(d);
    assert (d + rest)[0] == d[0];
  }

  /** For a name, what getservbyname knows of it under the types the caller allows, TCP before UDP. */
  lemma WantedByName(hint: nat, serv: string, tcp: Option<word>, udp: Option<word>, s: Service)
    requires serv == "" || !DottedQuad.IsDigit(serv[0])
    ensures s in Wanted(hint, serv, tcp, udp) <==>
      || (s.socktype == SOCK_STREAM && (hint == 0 || hint == SOCK_STREAM) && tcp == Some(s.port))
      || (s.socktype == SOCK_DGRAM && (hint == 0 || hint == SOCK_DGRAM) && udp == Some(s.port))
    ensures |Wanted(hint, serv, tcp, udp)| == 2 ==> Wanted(hint, serv, tcp, udp)[0].socktype == SOCK_STREAM
  {
  }

  /** The entries set by some passes. */
  function FoundAll(l: seq<Entry>, services: seq<Service>): nat {
    if services == [] then 0
    else
      var before, last := services[..|services| - 1], services[|services| - 1];
      FoundAll(l, before) + Found(Passes(l, before), last)
  }

  function StatusOf(hint: nat, nfound: nat): Status {
    if nfound != 0 then Ok else if hint == 0 then NoName else NoService
  }

  /** The list getaddrinfo has built when it turns to the service: ga_aistruct has set hint everywhere. */
  predicate Built(l: seq<Entry>, hint: nat) {
    && l != []
    && forall i | 0 <= i < |l| :: l[i].socktype == hint && l[i].clone == (hint == 0) && l[i].family != Local
  }

  /** Every entry with the one service of a caller that named its socket type. */
  function Each(l: seq<Entry>, s: Service): seq<Entry> {
    if l == [] then [] else [Serving(l[0], s)] + Each(l[1..], s)
  }

  lemma {:induction false} PassOnNamed(l: seq<Entry>, s: Service)
    requires forall i | 0 <= i < |l| :: l[i].socktype == s.socktype && !l[i].clone && l[i].family != Local
    ensures Pass(l, s) == Each(l, s) && Found(l, s) == |l|
  {
    if l != [] { PassOnNamed(l[1..], s); }
  }

  lemma {:induction false} FoundExpand(l: seq<Entry>, services: seq<Service>)
    requires forall i | 0 <= i < |l| :: Unspecified(l[i]) && l[i].family != Local
    requires DistinctTypes(services)
    ensures FoundAll(l, services) == |services| * |l|
    decreases |services|
  {
    if services != [] {
      var k := |services| - 1;
      var before, s := services[..k], services[k];
      assert before + [s] == services;
      FoundExpand(l, before);
      if k == 0 {
        FirstPass(l, s);
      } else {
        PassesExpand(l, before);
        ExpansionGrows(l, before, s);
      }
      OneMore(k, |l|);
    }
  }

  /** The socket types a caller may get: distinct ones, or the one it named. */
  predicate Suits(services: seq<Service>, hint: nat) {
    if hint == 0 then DistinctTypes(services)
    else services == [] || (|services| == 1 && services[0].socktype == hint)
  }

  lemma ServiceTypes(hint: nat, port: word, tcp: Option<word>, udp: Option<word>)
    ensures Suits(ByNumber(hint, port), hint) && Suits(ByName(hint, tcp, udp), hint)
  {
  }

  /**
   The list with some services: as it was if there is none; otherwise with the port in every entry for a
   caller that named a socket type, and with one entry per address and service for one that did not.
   */
  function Offered(l: seq<Entry>, hint: nat, services: seq<Service>): seq<Entry> {
    if services == [] then l else if hint == 0 then Expand(l, services) else Each(l, services[0])
  }

  lemma PassesOutcome(l: seq<Entry>, hint: nat, services: seq<Service>)
    requires Built(l, hint)
    requires Suits(services, hint)
    ensures FoundAll(l, services) == |services| * |l|
    ensures StatusOf(hint, FoundAll(l, services)) == Ok <==> services != []
    ensures Passes(l, services) == Offered(l, hint, services)
  {
    if services != [] {
      if hint == 0 {
        PassesExpand(l, services);
        FoundExpand(l, services);
        OneMore(|services| - 1, |l|);
        Positive(|services| - 1, |l|);
      } else {
        assert services[..0] == [];
        PassOnNamed(l, services[0]);
      }
    }
  }

  lemma Positive(a: nat, b: nat)
    ensures a * b >= 0
  {
  }

  /** What ga_serv comes to on a list getaddrinfo has built: it fails exactly when no service was found. */
  lemma ServiceOutcome(l: seq<Entry>, hint: nat, serv: string, tcp: Option<word>, udp: Option<word>)
    requires Built(l, hint)
    ensures var services := Wanted(hint, serv, tcp, udp); var nfound := FoundAll(l, services);
      && nfound == |services| * |l|
      && StatusOf(hint, nfound) == (if services != [] then Ok else if hint == 0 then NoName else NoService)
      && Passes(l, services) == Offered(l, hint, services)
  {
    ServiceTypes(hint, Atoi(serv, 0) % 65536, tcp, udp);
    PassesOutcome(l, hint, Wanted(hint, serv, tcp, udp));
  }

  /** What the caller gets, said of the fields: an entry for every address and service, or its port in every entry. */
  ghost predicate Delivered(r: seq<Entry>, l: seq<Entry>, hint: nat, services: seq<Service>) {
    if services == [] then r == l
    else if hint == 0 then
      && |r| == |l| * |services|
      && forall g: nat, j: nat | g < |l| && j < |services| :: EntryFor(r, l, services, g, j)
    else
      |r| == |l| && forall g | 0 <= g < |l| :: r[g] == l[g].(port := services[0].port)
  }

  lemma {:induction false} EachInPlainTerms(l: seq<Entry>, s: Service)
    requires forall i | 0 <= i < |l| :: l[i].socktype == s.socktype && l[i].family != Local
    ensures |Each(l, s)| == |l| && forall g | 0 <= g < |l| :: Each(l, s)[g] == l[g].(port := s.port)
  {
    if l != [] { EachInPlainTerms(l[1..], s); }
  }

  lemma ServiceDelivers(l: seq<Entry>, hint: nat, serv: string, tcp: Option<word>, udp: Option<word>)
    requires Built(l, hint)
    ensures Delivered(Passes(l, Wanted(hint, serv, tcp, udp)), l, hint, Wanted(hint, serv, tcp, udp))
  {
    var services := Wanted(hint, serv, tcp, udp);
    ServiceTypes(hint, Atoi(serv, 0) % 65536, tcp, udp);
    if services != [] {
      if hint == 0 {
        EveryAddressEveryService(l, services);
      } else {
        PassesOutcome(l, hint, services);
        EachInPlainTerms(l, services[0]);
      }
    }
  }

  /** The heap after some passes. */
  ghost predicate Served(aihead: AddrInfo?, ns: seq<AddrInfo>, all: seq<Entry>, services: seq<Service>, nfound: nat)
    reads ns, Addrs(ns)
  {
    && Distinct(ns) && Linked(ns, null) && aihead == Front(ns, null)
    && List(ns) == Passes(all, services) && nfound == FoundAll(all, services)
  }

  /** One call of ga_port and its count. */
  method ServeOne(aihead: AddrInfo?, port: word, socktype: nat, found: nat,
                  ghost nodes: seq<AddrInfo>, ghost all: seq<Entry>, ghost services: seq<Service>)
    returns (nfound: nat, ghost ns: seq<AddrInfo>)
    requires Served(aihead, nodes, all, services, found)
    modifies nodes, Addrs(nodes)
    ensures forall n | n in ns :: n in nodes || (fresh(n) && fresh(n.addr))
    ensures Served(aihead, ns, all, services + [Service(socktype, port)], nfound)
  {
    assert (services + [Service(socktype, port)])[..|services|] == services;
    var n;
    n, ns := GaPort(aihead, port, socktype, nodes);
    nfound := found + n;
  }

  method ServeNumber(aihead: AddrInfo?, hint: nat, port: word, ghost nodes: seq<AddrInfo>, ghost all: seq<Entry>)
    returns (nfound: nat, ghost ns: seq<AddrInfo>)
    requires Served(aihead, nodes, all, [], 0)
    modifies nodes, Addrs(nodes)
    ensures Served(aihead, ns, all, ByNumber(hint, port), nfound)
  {
    EmptyLeft([Service(if hint != 0 then hint else SOCK_STREAM, port)]);
    if hint != 0 {
      nfound, ns := ServeOne(aihead, port, hint, 0, nodes, all, []);
    } else {
      nfound, ns := ServeOne(aihead, port, SOCK_STREAM, 0, nodes, all, []);
      nfound, ns := ServeOne(aihead, port, SOCK_DGRAM, nfound, ns, all, [Service(SOCK_STREAM, port)]);
      assert ByNumber(hint, port) == [Service(SOCK_STREAM, port)] + [Service(SOCK_DGRAM, port)];
    }
  }

  method ServeName(aihead: AddrInfo?, hint: nat, tcp: Option<word>, udp: Option<word>,
                   ghost nodes: seq<AddrInfo>, ghost all: seq<Entry>)
    returns (nfound: nat, ghost ns: seq<AddrInfo>)
    requires Served(aihead, nodes, all, [], 0)
    modifies nodes, Addrs(nodes)
    ensures Served(aihead, ns, all, ByName(hint, tcp, udp), nfound)
  {
    nfound, ns := 0, nodes;
    ghost var services: seq<Service> := [];
    if hint == 0 || hint == SOCK_STREAM {
      if tcp.Some? {
        nfound, ns := ServeOne(aihead, tcp.value, SOCK_STREAM, nfound, ns, all, services);
        services := services + [Service(SOCK_STREAM, tcp.value)];
      }
    }
    if hint == 0 || hint == SOCK_DGRAM {
      if udp.Some? {
        nfound, ns := ServeOne(aihead, udp.value, SOCK_DGRAM, nfound, ns, all, services);
        services := services + [Service(SOCK_DGRAM, udp.value)];
      }
    }
    assert services == ByName(hint, tcp, udp);
  }

  /** ga_serv, on any list; and what that means for one that getaddrinfo has built. */
  method GaServ(aihead: AddrInfo?, hint: nat, serv: string, tcp: Option<word>, udp: Option<word>,
                ghost nodes: seq<AddrInfo>)
    returns (rc: Status, nfound: nat, ghost ns: seq<AddrInfo>)
    requires Distinct(nodes) && Linked(nodes, null) && aihead == Front(nodes, null)
    modifies nodes, Addrs(nodes)
    ensures Served(aihead, ns, old(List(nodes)), Wanted(hint, serv, tcp, udp), nfound) && rc == StatusOf(hint, nfound)
    ensures var all, services := old(List(nodes)), Wanted(hint, serv, tcp, udp);
      Built(all, hint) ==> Delivered(List(ns), all, hint, services) && (rc == Ok <==> services != [])
  {
    ghost var all := List(nodes);
    if Built(all, hint) {
      ServiceOutcome(all, hint, serv, tcp, udp);
      ServiceDelivers(all, hint, serv, tcp, udp);
    }
    if serv != [] && DottedQuad.IsDigit(serv[0]) {
      nfound, ns := ServeNumber(aihead, hint, Atoi(serv, 0) % 65536, nodes, List(nodes));
    } else {
      nfound, ns := ServeName(aihead, hint, tcp, udp, nodes, List(nodes));
    }
    if nfound == 0 {
      rc := if hint == 0 then NoName else NoService;
    } else {
      rc := Ok;
    }
  }
}
