/** When tables hold shortest paths. A node keeps one route per neighbour and prefix of an
    origin and overwrites it whenever the cost differs, so it may end with a detour. At
    quiescence it has a route through every neighbour on a shortest path; that route is
    shortest for certain exactly when no longer way leads through the same neighbour. */
module Shortest {
  import opened Base
  import opened Addr
  import opened Table
  import opened WireRoute
  import opened Propagation
  import opened Network
  import opened Flood
  import opened Tree
  import opened Cycle
  import Detours
  import Families

  /** No walk from v to o has fewer than len nodes. */
  ghost predicate Far(s: State, v: NodeID, o: NodeID, len: nat) {
    forall q :: Walk(s, q, v, o) ==> len <= |q|
  }

  ghost predicate Via(s: State, v: NodeID, u: NodeID, key: Key, o: NodeID) {
    RouteKey(key, o, u) in TableOf(s, v)
  }

  ghost predicate Underway(s: State, v: NodeID, u: NodeID, key: Key, o: NodeID, max: nat) {
    exists pk :: pk in s.inflight && pk.src == u && IsUpdateFor(pk, v, key, o, max)
  }

  /** What u announced with at most max hops v has heard, or is about to hear, from u. */
  ghost predicate Passing(s: State, v: NodeID, u: NodeID, key: Key, o: NodeID, max: nat) {
    Told(s, u, key, o, max) ==> Via(s, v, u, key, o) || Underway(s, v, u, key, o, max)
  }

  lemma WalkTail(s: State, w: seq<NodeID>, from: NodeID, to: NodeID, i: nat)
    requires Walk(s, w, from, to) && i < |w|
    ensures Walk(s, w[i..], w[i], to)
  {
    var t := w[i..];
    forall j, k | 0 <= j && k == j + 1 && k < |t| ensures t[k] in ConnsOf(s, t[j]) {
      assert w[i + k] in ConnsOf(s, w[i + j]);
    }
  }

  /** A node so far away is on no short walk. */
  lemma OffShortWalks(s: State, w: seq<NodeID>, from: NodeID, o: NodeID, v: NodeID, len: nat)
    requires Walk(s, w, from, o) && |w| < len && Far(s, v, o, len)
    ensures v !in w
  {
    if i :| 0 <= i < |w| && w[i] == v {
      WalkTail(s, w, from, o, i);
    }
  }

  lemma PathIsWalk(nets: Nets, s: State, pk: Packet)
    requires Inv(nets, s) && Static(s) && pk in s.inflight && !IsWithdrawal(pk.msg)
    ensures Walk(s, pk.msg.path, pk.src, pk.msg.origin)
  {
    var path := pk.msg.path;
    assert PacketOk(nets, s.links, pk);
    forall i, j | 0 <= i && j == i + 1 && j < |path| ensures path[j] in ConnsOf(s, path[i]) {
      assert Linked(s.links, path[i], path[j]);
    }
  }

  lemma Mutual(s: State, a: NodeID, b: NodeID)
    requires LinksCover(s) && Static(s) && b in ConnsOf(s, a)
    ensures a in ConnsOf(s, b)
  {
    assert Linked(s.links, b, a);
  }

  // ---- Every step passes the news on ----

  lemma PutKeepsKeys(self: NodeID, fib: Fib, r: Route, now: int)
    ensures fib.Keys <= Put(self, fib, r, now).0.Keys
    ensures self !in r.path ==> RK(r) in Put(self, fib, r, now).0
  {
  }

  lemma HandleKeepsKeys(n: NodeID, fib: Fib, from: NodeID, m: RouteMessage, now: int)
    requires !IsWithdrawal(m)
    ensures fib.Keys <= HandleMsg(n, fib, from, m, now).0.Keys
    ensures n !in m.path && |m.path| < MAX_HOPS ==>
              RouteKey(KeyOf(m.prefix), m.origin, from) in HandleMsg(n, fib, from, m, now).0
    ensures HandleMsg(n, fib, from, m, now).1.Some? ==>
              HandleMsg(n, fib, from, m, now).1.value == Advert(n, Learn(from, m))
  {
  }

  /** A step that only announces: tables lose nothing, and all connections are told. */
  lemma AnnouncementPasses(s: State, s0: State, n: NodeID, m: RouteMessage, targets: seq<NodeID>,
                           v: NodeID, u: NodeID, key: Key, o: NodeID, max: nat)
    requires Passing(s, v, u, key, o, max) && !IsWithdrawal(m)
    requires s0.inflight == s.inflight && s0.announced == s.announced
    requires Via(s, v, u, key, o) ==> Via(s0, v, u, key, o)
    requires n == u && KeyOf(m.prefix) == key && m.origin == o && |m.path| <= max ==> v in targets
    ensures Passing(Announce(s0, n, m, targets), v, u, key, o, max)
  {
    var s' := Announce(s0, n, m, targets);
    FanMembers(n, m, targets);
    assert TableOf(s', v) == TableOf(s0, v);
    if len: nat :| Notice(u, key, o, len) in s'.announced && len <= max {
      if Notice(u, key, o, len) in s.announced {
        assert Told(s, u, key, o, max);
        if pk :| pk in s.inflight && pk.src == u && IsUpdateFor(pk, v, key, o, max) {
          assert pk in s'.inflight;
        }
      } else {
        assert Packet(n, v, m) in s'.inflight && IsUpdateFor(Packet(n, v, m), v, key, o, max);
      }
    }
  }

  lemma OriginationPasses(nets: Nets, s: State, a: Action, v: NodeID, u: NodeID, key: Key, o: NodeID, max: nat)
    requires Passing(s, v, u, key, o, max) && v in ConnsOf(s, u) && a.Originate? && Enabled(nets, s, a)
    ensures Passing(Apply(s, a), v, u, key, o, max)
  {
    var r := LocalRoute(a.n, a.net);
    var s0 := s.(fibs := s.fibs[a.n := Put(a.n, TableOf(s, a.n), r, a.now).0]);
    PutKeepsKeys(a.n, TableOf(s, a.n), r, a.now);
    AnnouncementPasses(s, s0, a.n, Advert(a.n, r), a.targets, v, u, key, o, max);
  }

  lemma RebroadcastPasses(nets: Nets, s: State, a: Action, v: NodeID, u: NodeID, key: Key, o: NodeID, max: nat)
    requires Passing(s, v, u, key, o, max) && v in ConnsOf(s, u) && a.Rebroadcast? && Enabled(nets, s, a)
    ensures Passing(Apply(s, a), v, u, key, o, max)
  {
    AnnouncementPasses(s, s, a.n, Advert(a.n, TableOf(s, a.n)[a.rk]), a.targets, v, u, key, o, max);
  }

  /** Taking a packet out: if it was the one on its way from u to v, then v has the route now. */
  lemma TakingPasses(s: State, i: nat, s0: State, v: NodeID, u: NodeID, key: Key, o: NodeID, max: nat)
    requires Passing(s, v, u, key, o, max) && i < |s.inflight|
    requires s0.inflight == Without(s.inflight, i) && s0.announced == s.announced
    requires Via(s, v, u, key, o) ==> Via(s0, v, u, key, o)
    requires s.inflight[i].src == u && IsUpdateFor(s.inflight[i], v, key, o, max) ==> Via(s0, v, u, key, o)
    ensures Passing(s0, v, u, key, o, max)
  {
    if Told(s0, u, key, o, max) && !Via(s0, v, u, key, o) {
      assert Told(s, u, key, o, max);
      var pk :| pk in s.inflight && pk.src == u && IsUpdateFor(pk, v, key, o, max);
      var j :| 0 <= j < |s.inflight| && s.inflight[j] == pk;
      assert s0.inflight[if j < i then j else j - 1] == pk;
    }
  }

  lemma DeliveryPasses(nets: Nets, s: State, a: Action, v: NodeID, u: NodeID, key: Key, o: NodeID, max: nat)
    requires Inv(nets, s) && Static(s) && SentTrails(s) && a.Deliver? && Enabled(nets, s, a)
    requires Passing(s, v, u, key, o, max) && v in ConnsOf(s, u) && Far(s, v, o, max + 1) && max < MAX_HOPS
    ensures Passing(Apply(s, a), v, u, key, o, max)
  {
    var pk := s.inflight[a.i];
    assert pk in s.inflight && !IsWithdrawal(pk.msg);
    PathIsWalk(nets, s, pk);
    if pk.msg.origin == o && |pk.msg.path| <= max {
      OffShortWalks(s, pk.msg.path, pk.src, o, v, max + 1);
    }
    DeliveryCasesPass(s, a.i, a.targets, a.now, v, u, key, o, max);
  }

  lemma DeliveryCasesPass(s: State, i: nat, targets: seq<NodeID>, now: int, v: NodeID, u: NodeID, key: Key,
                          o: NodeID, max: nat)
    requires i < |s.inflight| && Orders(targets, PeersOf(s, s.inflight[i].dst) - {s.inflight[i].src})
    requires !IsWithdrawal(s.inflight[i].msg) && PeersOf(s, u) == ConnsOf(s, u) && s.inflight[i].msg.path != []
    requires s.inflight[i].msg.path[0] == s.inflight[i].src
    requires Passing(s, v, u, key, o, max) && v in ConnsOf(s, u) && max < MAX_HOPS
    requires s.inflight[i].msg.origin == o && |s.inflight[i].msg.path| <= max ==> v !in s.inflight[i].msg.path
    ensures Passing(Receive(s, i, targets, now), v, u, key, o, max)
  {
    var pk := s.inflight[i];
    var (fib, out) := HandleMsg(pk.dst, TableOf(s, pk.dst), pk.src, pk.msg, now);
    HandleKeepsKeys(pk.dst, TableOf(s, pk.dst), pk.src, pk.msg, now);
    var s0 := s.(fibs := s.fibs[pk.dst := fib], inflight := Without(s.inflight, i));
    TakingPasses(s, i, s0, v, u, key, o, max);
    if out.Some? {
      AnnouncementPasses(s0, s0, pk.dst, out.value, targets, v, u, key, o, max);
    }
  }

  lemma StepPasses(nets: Nets, s: State, a: Action, v: NodeID, u: NodeID, key: Key, o: NodeID, max: nat)
    requires Inv(nets, s) && Static(s) && SentTrails(s) && Enabled(nets, s, a) && StaticAction(a)
    requires Passing(s, v, u, key, o, max) && v in ConnsOf(s, u) && Far(s, v, o, max + 1) && max < MAX_HOPS
    ensures Passing(Apply(s, a), v, u, key, o, max)
  {
    match a {
      case Originate(_, _, _, _) => OriginationPasses(nets, s, a, v, u, key, o, max);
      case Rebroadcast(_, _, _) => RebroadcastPasses(nets, s, a, v, u, key, o, max);
      case Deliver(_, _, _) => DeliveryPasses(nets, s, a, v, u, key, o, max);
    }
  }

  lemma FarStays(s: State, s': State, v: NodeID, o: NodeID, len: nat)
    requires Far(s, v, o, len) && forall n :: ConnsOf(s', n) == ConnsOf(s, n)
    ensures Far(s', v, o, len)
  {
    WalksAgree(s, s', v, o);
  }

  lemma {:induction false} RunPasses(nets: Nets, s: State, acts: seq<Action>, v: NodeID, u: NodeID, key: Key,
                                     o: NodeID, max: nat)
    requires Inv(nets, s) && Static(s) && FloodInv(s) && StaticRun(nets, s, acts) && ValidRun(nets, s, acts)
    requires Passing(s, v, u, key, o, max) && v in ConnsOf(s, u) && Far(s, v, o, max + 1) && max < MAX_HOPS
    ensures Passing(Exec(nets, s, acts), v, u, key, o, max)
    decreases |acts|
  {
    if acts != [] {
      StepPasses(nets, s, acts[0], v, u, key, o, max);
      StaticStepKeeps(nets, s, acts[0]);
      FarStays(s, Apply(s, acts[0]), v, o, max + 1);
      RunPasses(nets, Apply(s, acts[0]), acts[1..], v, u, key, o, max);
    }
  }

  // ---- Routes through the neighbours on shortest paths ----

  /** A run over static links in which the origin advertised the network and after which
      nothing is in flight. */
  ghost predicate Settled(nets: Nets, s0: State, acts: seq<Action>, o: NodeID, net: IPNet) {
    && StaticRun(nets, s0, acts) && ValidRun(nets, s0, acts)
    && Originates(acts, o, net) && Exec(nets, s0, acts).inflight == []
  }

  /** At quiescence a node holds a route through every neighbour from which a shortest path
      to the origin goes on. */
  lemma HeardFromCloser(nets: Nets, s0: State, acts: seq<Action>, o: NodeID, net: IPNet, v: NodeID, w: seq<NodeID>)
    requires Init(s0) && Static(s0) && Settled(nets, s0, acts, o, net)
    requires Walk(s0, w, v, o) && 2 <= |w| <= MAX_HOPS && Far(s0, v, o, |w|)
    ensures Via(Exec(nets, s0, acts), v, w[1], KeyOf(net), o)
  {
    var s := EndOfRun(nets, s0, acts, o, net);
    var (u, rest) := (w[1], w[1..]);
    assert w[1] in ConnsOf(s0, w[0]);
    Mutual(s0, v, u);
    WalkTail(s0, w, v, o, 1);
    InitialInvariants(nets, s0);
    RunPasses(nets, s0, acts, v, u, KeyOf(net), o, |w| - 1);
    WalksAgree(s0, s, u, o);
    NewsTravels(s, rest, u, KeyOf(net), o);
  }

  ghost predicate KnowsShortest(s: State, v: NodeID, key: Key, o: NodeID, len: nat) {
    exists rk :: rk in TableOf(s, v) && rk.key == key && rk.origin == o && |TableOf(s, v)[rk].path| + 1 == len
  }

  /** All the ways to the origin that start at u and avoid v, and that the hop limit lets
      through, have this many nodes. */
  ghost predicate OneLength(s: State, v: NodeID, u: NodeID, o: NodeID, len: nat) {
    forall p :: Simple(s, p, u, o) && v !in p && |p| < MAX_HOPS ==> |p| == len
  }

  /** A stored route through a neighbour is one of the ways from that neighbour that avoid
      the node itself. */
  lemma RouteAvoids(nets: Nets, s: State, v: NodeID, rk: RouteKey)
    requires Inv(nets, s) && Static(s) && rk in TableOf(s, v) && rk.origin != v
    ensures var path := TableOf(s, v)[rk].path;
            Simple(s, path, rk.nextHop, rk.origin) && v !in path && |path| < MAX_HOPS && rk.nextHop in ConnsOf(s, v)
  {
    StoredWalk(nets, s, v, rk);
    assert FibOk(nets, s.links, v, TableOf(s, v)) && RouteOk(nets, s.links, v, TableOf(s, v)[rk]);
    var w := [v] + TableOf(s, v)[rk].path;
    SimpleTail(s, w, v, rk.origin);
    assert w[1..] == TableOf(s, v)[rk].path;
  }

  /** A node ends up with a shortest route, on any graph, in any order of delivery, with any
      rebroadcasts, if through one of its neighbours on a shortest path no longer way leads
      to the origin. */
  lemma ShortestKept(nets: Nets, s0: State, acts: seq<Action>, o: NodeID, net: IPNet, v: NodeID, w: seq<NodeID>)
    requires Init(s0) && Static(s0) && Settled(nets, s0, acts, o, net)
    requires Walk(s0, w, v, o) && 2 <= |w| <= MAX_HOPS && Far(s0, v, o, |w|)
    requires OneLength(s0, v, w[1], o, |w| - 1)
    ensures KnowsShortest(Exec(nets, s0, acts), v, KeyOf(net), o, |w|)
  {
    HeardFromCloser(nets, s0, acts, o, net, v, w);
    InitKeeps(nets, s0, acts);
    var s := Exec(nets, s0, acts);
    var rk := RouteKey(KeyOf(net), o, w[1]);
    NotTheOrigin(s0, v, o, w);
    RouteAvoids(nets, s, v, rk);
    SimpleAgree(s0, s, TableOf(s, v)[rk].path, w[1], o);
  }

  lemma NotTheOrigin(s: State, v: NodeID, o: NodeID, w: seq<NodeID>)
    requires |w| >= 2 && Far(s, v, o, |w|)
    ensures v != o
  {
    assert v == o ==> Walk(s, [v], v, o);
  }

  // ---- Trees and rings ----

  /** From the nodes of the component at most one simple walk avoids v. */
  ghost predicate ForestWithout(s: State, comp: set<NodeID>, v: NodeID) {
    forall a, b, p, q :: a in comp && Simple(s, p, a, b) && Simple(s, q, a, b) && v !in p && v !in q ==> p == q
  }

  lemma ForestHasOneLength(s: State, comp: set<NodeID>, v: NodeID, o: NodeID, w: seq<NodeID>)
    requires Component(s, comp) && v in comp && ForestWithout(s, comp, v)
    requires Walk(s, w, v, o) && |w| >= 2 && Far(s, v, o, |w|)
    ensures OneLength(s, v, w[1], o, |w| - 1)
  {
    assert w[1] in ConnsOf(s, w[0]);
    WalkTail(s, w, v, o, 1);
    var p := SimpleWalk(s, w[1..], w[1], o);
    OffShortWalks(s, p, w[1], o, v, |w|);
    Longer(s, v, p, w[1], o);
  }

  /** A line or a ring: nobody in the component has more than two links, and v is reached
      from everywhere. */
  ghost predicate LineOrRing(s: State, comp: set<NodeID>, v: NodeID) {
    && (forall x :: x in comp ==> |ConnsOf(s, x)| <= 2)
    && (forall x :: x in comp ==> exists w :: Walk(s, w, x, v))
  }

  lemma TwoOfTwo(conns: set<NodeID>, a: NodeID, b: NodeID)
    requires |conns| <= 2 && a in conns && b in conns && a != b
    ensures conns == {a, b}
  {
    assert conns == {a, b} + (conns - {a, b});
    assert |conns| == 2 + |conns - {a, b}|;
  }

  /** With two links per node, a ring of links has no way out. */
  lemma RingIsClosed(s: State, comp: set<NodeID>, c: seq<NodeID>, i: nat)
    requires Component(s, comp) && Ring(s, c) && i < |c| && c[i] in comp && |ConnsOf(s, c[i])| <= 2
    ensures forall y :: y in ConnsOf(s, c[i]) ==> y in c
  {
    var h := if i == 0 then |c| - 1 else i - 1;
    assert Next(c, h) == c[i] && Next(c, h) in ConnsOf(s, c[h]) && Next(c, i) in ConnsOf(s, c[i]);
    assert c[h] != Next(c, i);
    RingAround(s, comp, c, i, h);
    TwoOfTwo(ConnsOf(s, c[i]), c[h], Next(c, i));
  }

  /** Following the ring from one of its nodes to another one stays inside the component. */
  lemma {:induction false} RingAround(s: State, comp: set<NodeID>, c: seq<NodeID>, i: nat, j: nat)
    requires Component(s, comp) && Ring(s, c) && i < |c| && j < |c| && c[i] in comp
    ensures c[j] in comp
    decreases if i <= j then j - i else |c| - i + j
  {
    if i != j {
      assert Next(c, i) in ConnsOf(s, c[i]);
      RingAround(s, comp, c, if i + 1 < |c| then i + 1 else 0, j);
    }
  }

  lemma LinesAndRingsAreForests(s: State, comp: set<NodeID>, v: NodeID)
    requires Component(s, comp) && v in comp && LineOrRing(s, comp, v)
    ensures ForestWithout(s, comp, v)
  {
    forall a, b, p, q | a in comp && Simple(s, p, a, b) && Simple(s, q, a, b) && v !in p && v !in q ensures p == q {
      if p != q {
        var c := WalksCloseRing(s, comp, p, q, a, b);
        StaysInside(s, comp, p, a, b);
        StaysInside(s, comp, q, a, b);
        assert c[0] in c;
        var w :| Walk(s, w, c[0], v);
        forall i | 0 <= i < |c| ensures forall y :: y in ConnsOf(s, c[i]) ==> y in c {
          assert c[i] in c;
          RingIsClosed(s, comp, c, i);
        }
        VisitedIsClosed(s, w, c[0], v, SetOf(c));
        assert false;
      }
    }
  }

  /** So on trees, on lines and on rings every node within reach ends up with a shortest
      route. */
  lemma TreesAndRingsAreShortest(nets: Nets, s0: State, acts: seq<Action>, o: NodeID, net: IPNet, v: NodeID,
                                 w: seq<NodeID>, comp: set<NodeID>)
    requires Init(s0) && Static(s0) && Settled(nets, s0, acts, o, net)
    requires Component(s0, comp) && v in comp && (UniqueIn(s0, comp) || LineOrRing(s0, comp, v))
    requires Walk(s0, w, v, o) && 2 <= |w| <= MAX_HOPS && Far(s0, v, o, |w|)
    ensures KnowsShortest(Exec(nets, s0, acts), v, KeyOf(net), o, |w|)
  {
    if !UniqueIn(s0, comp) {
      LinesAndRingsAreForests(s0, comp, v);
    }
    ForestHasOneLength(s0, comp, v, o, w);
    ShortestKept(nets, s0, acts, o, net, v, w);
  }

  // ---- News that travels along chosen ways ----

  function NewsAt(net: IPNet, o: NodeID, p: seq<NodeID>): RouteMessage
    requires |p| < MAX_HOPS
  {
    RouteMessage(FLAG_UPDATE, net, |p|, o, LOCAL_PREF, p)
  }

  type Ways = Families.Ways

  /** Simple ways to the origin that start at neighbours of v and avoid v. */
  ghost predicate WaysFrom(s: State, ways: Ways, o: NodeID, v: NodeID) {
    forall p :: p in ways ==>
      0 < |p| < MAX_HOPS && Simple(s, p, p[0], o) && v !in p && p[0] in ConnsOf(s, v)
  }

  /** The news has travelled along these tails of ways and nowhere else: tables hold nothing
      else, and what a node has announced its neighbours have passed on or will yet hear. */
  ghost predicate Travelled(s: State, done: Ways, net: IPNet, o: NodeID, v: NodeID) {
    && (forall t :: t in done ==> 0 < |t| < MAX_HOPS && v !in t)
    && (forall n, rk :: rk in TableOf(s, n) ==> [n] + TableOf(s, n)[rk].path in done)
    && (forall t, n :: t in done && n in ConnsOf(s, t[0]) && n !in t && [n] + t !in done ==>
          Packet(t[0], n, NewsAt(net, o, t)) in s.inflight)
  }

  ghost predicate Journey(nets: Nets, s0: State, acts: seq<Action>, done: Ways, o: NodeID, net: IPNet, v: NodeID) {
    && StaticRun(nets, s0, acts) && ValidRun(nets, s0, acts) && Originates(acts, o, net)
    && Travelled(Exec(nets, s0, acts), done, net, o, v)
  }

  lemma StaticOneStep(nets: Nets, s: State, a: Action)
    requires Enabled(nets, s, a) && StaticAction(a)
    ensures StaticRun(nets, s, [a]) && ValidRun(nets, s, [a]) && Exec(nets, s, [a]) == Apply(s, a)
  {
    assert [a][1..] == [];
  }

  lemma JourneyStarts(nets: Nets, s0: State, o: NodeID, net: IPNet, v: NodeID) returns (acts: seq<Action>)
    requires Init(s0) && net in NetsOf(nets, o) && v != o
    ensures Journey(nets, s0, acts, {[o]}, o, net, v)
  {
    var targets := SomeOrder(ConnsOf(s0, o));
    var a := Originate(o, net, targets, 0);
    acts := [a];
    StaticOneStep(nets, s0, a);
    assert acts[0] == a;
    FanMembers(o, Advert(o, LocalRoute(o, net)), targets);
    assert Advert(o, LocalRoute(o, net)) == NewsAt(net, o, [o]);
    var s := Apply(s0, a);
    SameConns(s0, s);
    forall n, rk | rk in TableOf(s, n) ensures [n] + TableOf(s, n)[rk].path in {[o]} {
      assert n == o && TableOf(s, n)[rk].path == [];
    }
  }

  /** The node has nothing through that neighbour with as many nodes to go, so it takes the
      news and passes it on. */
  lemma NewsTaken(nets: Nets, s: State, pk: Packet, done: Ways, t: seq<NodeID>, net: IPNet, o: NodeID, v: NodeID)
    requires Inv(nets, s) && Travelled(s, done, net, o, v) && 0 < |t| < MAX_HOPS - 1 && pk.dst !in t
    requires pk == Packet(t[0], pk.dst, NewsAt(net, o, t)) && [pk.dst] + t !in done
    requires forall r :: r in done && |r| == |t| + 1 && r[0] == pk.dst && r[1] == t[0] ==> r == [pk.dst] + t
    ensures TakesNews(pk.dst, TableOf(s, pk.dst), t, net, o)
  {
    assert FibOk(nets, s.links, pk.dst, TableOf(s, pk.dst));
    NewsIsNew(nets, s.links, pk.dst, TableOf(s, pk.dst), done, t, net, o);
  }

  /** The node passes the news on; its table gains the way and no other. */
  ghost predicate TakesNews(n: NodeID, fib: Fib, t: seq<NodeID>, net: IPNet, o: NodeID)
    requires 0 < |t| < MAX_HOPS - 1
  {
    var (after, out) := HandleMsg(n, fib, t[0], NewsAt(net, o, t), 0);
    && out == Some(NewsAt(net, o, [n] + t))
    && forall rk :: rk in after ==> after[rk].path == t || (rk in fib && after[rk].path == fib[rk].path)
  }

  lemma NewsHandled(n: NodeID, fib: Fib, t: seq<NodeID>, net: IPNet, o: NodeID)
    requires 0 < |t| < MAX_HOPS - 1 && n !in t
    ensures var put := Put(n, fib, Learn(t[0], NewsAt(net, o, t)), 0);
            HandleMsg(n, fib, t[0], NewsAt(net, o, t), 0)
            == (put.0, if put.1 then Some(NewsAt(net, o, [n] + t)) else None)
  {
    var r := Learn(t[0], NewsAt(net, o, t));
    assert Advert(n, r) == NewsAt(net, o, [n] + t);
  }

  lemma NewsIsNew(nets: Nets, links: Links, n: NodeID, fib: Fib, done: Ways, t: seq<NodeID>, net: IPNet, o: NodeID)
    requires FibOk(nets, links, n, fib) && forall rk :: rk in fib ==> [n] + fib[rk].path in done
    requires 0 < |t| < MAX_HOPS - 1 && n !in t && [n] + t !in done
    requires forall r :: r in done && |r| == |t| + 1 && r[0] == n && r[1] == t[0] ==> r == [n] + t
    ensures TakesNews(n, fib, t, net, o)
  {
    var r := Learn(t[0], NewsAt(net, o, t));
    if RK(r) in fib {
      EntryDiffers(nets, links, n, fib, done, t, r);
    }
    NewsHandled(n, fib, t, net, o);
    PutOther(n, fib, r);
  }

  lemma EntryDiffers(nets: Nets, links: Links, n: NodeID, fib: Fib, done: Ways, t: seq<NodeID>, r: Route)
    requires FibOk(nets, links, n, fib) && RK(r) in fib && [n] + fib[RK(r)].path in done
    requires 0 < |t| && n !in t && [n] + t !in done && r.nextHop == t[0] && r.cost == |t| + 1
    requires forall w :: w in done && |w| == |t| + 1 && w[0] == n && w[1] == t[0] ==> w == [n] + t
    ensures fib[RK(r)].cost != r.cost
  {
    assert RouteOk(nets, links, n, fib[RK(r)]);
    OtherLength(done, t, n, fib[RK(r)].path);
  }

  lemma PutOther(n: NodeID, fib: Fib, r: Route)
    requires n !in r.path && (RK(r) in fib ==> fib[RK(r)].cost != r.cost)
    ensures Put(n, fib, r, 0) == (fib[RK(r) := r.(stamp := 0)], true)
  {
  }

  lemma OtherLength(done: Ways, t: seq<NodeID>, n: NodeID, path: seq<NodeID>)
    requires [n] + path in done && [n] + t !in done && path != [] && t != [] && path[0] == t[0]
    requires forall r :: r in done && |r| == |t| + 1 && r[0] == n && r[1] == t[0] ==> r == [n] + t
    ensures |path| != |t|
  {
    var q := [n] + path;
    assert q[0] == n && q[1] == t[0];
  }

  /** Delivering the news at the next node makes the tail longer by that node. */
  lemma TravelsOn(nets: Nets, s: State, i: nat, targets: seq<NodeID>, done: Ways, t: seq<NodeID>, net: IPNet,
                  o: NodeID, v: NodeID)
    requires Inv(nets, s) && Travelled(s, done, net, o, v) && t in done && |t| < MAX_HOPS - 1
    requires i < |s.inflight| && s.inflight[i] == Packet(t[0], s.inflight[i].dst, NewsAt(net, o, t))
    requires var n := s.inflight[i].dst;
             && n !in t && n != v && [n] + t !in done && Orders(targets, ConnsOf(s, n) - {t[0]})
             && forall r :: r in done && |r| == |t| + 1 && r[0] == n && r[1] == t[0] ==> r == [n] + t
    ensures Travelled(Receive(s, i, targets, 0), done + {[s.inflight[i].dst] + t}, net, o, v)
  {
    var (pk, s') := (s.inflight[i], Receive(s, i, targets, 0));
    var (n, more) := (pk.dst, [pk.dst] + t);
    NewsTaken(nets, s, pk, done, t, net, o, v);
    ReceiveEffect(s, i, targets, 0);
    ReceiveKeepsLinks(s, i, targets, 0);
    SameConns(s, s');
    FanMembers(n, NewsAt(net, o, more), targets);
    forall k, rk | rk in TableOf(s', k) ensures [k] + TableOf(s', k)[rk].path in done + {more} {
      assert TableOf(s', k) == if k == n then TableOf(s', n) else TableOf(s, k);
    }
    forall r, k | r in done + {more} && k in ConnsOf(s', r[0]) && k !in r && [k] + r !in done + {more}
      ensures Packet(r[0], k, NewsAt(net, o, r)) in s'.inflight
    {
      if r == more {
        assert t[0] in more by {
          assert more[1] == t[0];
        }
        assert k in targets;
      } else {
        OthersStay(s, i, targets, 0, Packet(r[0], k, NewsAt(net, o, r)));
      }
    }
  }

  lemma GoOn(nets: Nets, s0: State, acts: seq<Action>, done: Ways, t: seq<NodeID>, n: NodeID, o: NodeID, net: IPNet,
             v: NodeID) returns (longer: seq<Action>)
    requires Init(s0) && Static(s0) && Journey(nets, s0, acts, done, o, net, v)
    requires t in done && |t| < MAX_HOPS - 1 && n !in t && n != v && [n] + t !in done && n in ConnsOf(s0, t[0])
    requires forall r :: r in done && |r| == |t| + 1 && r[0] == n && r[1] == t[0] ==> r == [n] + t
    ensures Journey(nets, s0, longer, done + {[n] + t}, o, net, v)
  {
    InitKeeps(nets, s0, acts);
    var s := Exec(nets, s0, acts);
    var pk := Packet(t[0], n, NewsAt(net, o, t));
    assert pk in s.inflight;
    var i :| 0 <= i < |s.inflight| && s.inflight[i] == pk;
    assert PeersOf(s, n) == ConnsOf(s, n);
    var targets := SomeOrder(PeersOf(s, n) - {t[0]});
    var a := Deliver(i, targets, 0);
    TravelsOn(nets, s, i, targets, done, t, net, o, v);
    StaticOneStep(nets, s, a);
    StaticRunJoin(nets, s0, acts, [a]);
    OriginatesMore(acts, [a], o, net);
    longer := acts + [a];
  }

  lemma OriginatesMore(a: seq<Action>, b: seq<Action>, o: NodeID, net: IPNet)
    requires Originates(a, o, net)
    ensures Originates(a + b, o, net)
  {
    var i :| 0 <= i < |a| && a[i].Originate? && a[i].n == o && a[i].net == net;
    assert (a + b)[i] == a[i];
  }

  ghost predicate AllTails(done: Ways, ways: Ways) {
    forall t :: t in done ==> t in Families.Tails(ways)
  }

  lemma TailStep(s: State, p: seq<NodeID>, i: nat, o: NodeID)
    requires i + 1 < |p| && Simple(s, p, p[0], o)
    ensures p[i..] == [p[i]] + p[i + 1..] && p[i] !in p[i + 1..] && p[i + 1] in ConnsOf(s, p[i])
  {
    assert p[i + 1] in ConnsOf(s, p[i]);
    var t := p[i + 1..];
    forall j | 0 <= j < |t| ensures t[j] != p[i] {
      assert t[j] == p[i + 1 + j];
    }
  }

  /** The news can travel along one more way, from the origin backwards to a given node. */
  lemma {:induction false} Carry(nets: Nets, s0: State, acts: seq<Action>, done: Ways, ways: Ways, p: seq<NodeID>,
                                 i: nat, o: NodeID, net: IPNet, v: NodeID)
      returns (longer: seq<Action>, more: Ways)
    requires Init(s0) && Static(s0) && WaysFrom(s0, ways, o, v) && Families.Compatible(ways) && p in ways && i < |p|
    requires Journey(nets, s0, acts, done, o, net, v) && AllTails(done, ways) && [o] in done
    ensures Journey(nets, s0, longer, more, o, net, v) && AllTails(more, ways)
    ensures done <= more && p[i..] in more
    decreases |p| - i
  {
    if i == |p| - 1 {
      assert p[i..] == [o];
      longer, more := acts, done;
    } else {
      var before, there := Carry(nets, s0, acts, done, ways, p, i + 1, o, net, v);
      longer, more := CarryStep(nets, s0, before, there, ways, p, i, o, net, v);
    }
  }

  lemma CarryStep(nets: Nets, s0: State, acts: seq<Action>, done: Ways, ways: Ways, p: seq<NodeID>, i: nat,
                  o: NodeID, net: IPNet, v: NodeID) returns (longer: seq<Action>, more: Ways)
    requires Init(s0) && Static(s0) && WaysFrom(s0, ways, o, v) && Families.Compatible(ways) && p in ways && i + 1 < |p|
    requires Journey(nets, s0, acts, done, o, net, v) && AllTails(done, ways) && p[i + 1..] in done
    ensures Journey(nets, s0, longer, more, o, net, v) && AllTails(more, ways)
    ensures done <= more && p[i..] in more
  {
    if p[i..] in done {
      longer, more := acts, done;
    } else {
      TailsAgree(done, ways, p, i);
      more := done + {p[i..]};
      longer := CarryOn(nets, s0, acts, done, ways, p, i, o, net, v);
    }
  }

  lemma CarryOn(nets: Nets, s0: State, acts: seq<Action>, done: Ways, ways: Ways, p: seq<NodeID>, i: nat,
                o: NodeID, net: IPNet, v: NodeID) returns (longer: seq<Action>)
    requires Init(s0) && Static(s0) && WaysFrom(s0, ways, o, v) && p in ways && i + 1 < |p|
    requires Journey(nets, s0, acts, done, o, net, v) && p[i + 1..] in done && p[i..] !in done
    requires forall r :: r in done && |r| == |p[i..]| && r[0] == p[i] && r[1] == p[i + 1] ==> r == p[i..]
    ensures Journey(nets, s0, longer, done + {p[i..]}, o, net, v)
  {
    WayStep(s0, ways, p, i, o, v);
    longer := GoOn(nets, s0, acts, done, p[i + 1..], p[i], o, net, v);
  }

  lemma WayStep(s0: State, ways: Ways, p: seq<NodeID>, i: nat, o: NodeID, v: NodeID)
    requires Init(s0) && Static(s0) && WaysFrom(s0, ways, o, v) && p in ways && i + 1 < |p|
    ensures p[i..] == [p[i]] + p[i + 1..] && p[i] !in p[i + 1..] && p[i] != v
    ensures p[i + 1..][0] == p[i + 1] && |p[i + 1..]| < MAX_HOPS - 1
    ensures p[i] in ConnsOf(s0, p[i + 1])
  {
    TailStep(s0, p, i, o);
    Mutual(s0, p[i], p[i + 1]);
  }

  lemma TailsAgree(done: Ways, ways: Ways, p: seq<NodeID>, i: nat)
    requires AllTails(done, ways) && Families.Compatible(ways) && p in ways && i + 1 < |p|
    ensures forall r :: r in done && |r| == |p[i..]| && r[0] == p[i] && r[1] == p[i + 1] ==> r == p[i..]
    ensures AllTails(done + {p[i..]}, ways)
  {
    assert p[i..] in Families.Tails(ways);
  }

  lemma OriginIsTail(s0: State, ways: Ways, o: NodeID, v: NodeID)
    requires WaysFrom(s0, ways, o, v) && ways != {}
    ensures AllTails({[o]}, ways)
  {
    var p :| p in ways;
    assert p[|p| - 1..] == [o];
  }

  /** The news can travel along all the ways in one run. */
  lemma {:induction false} CarryAll(nets: Nets, s0: State, ways: Ways, left: Ways, o: NodeID, net: IPNet, v: NodeID)
      returns (acts: seq<Action>, done: Ways)
    requires Init(s0) && Static(s0) && net in NetsOf(nets, o) && v != o
    requires WaysFrom(s0, ways, o, v) && Families.Compatible(ways) && left <= ways && ways != {}
    ensures Journey(nets, s0, acts, done, o, net, v) && AllTails(done, ways) && left <= done && [o] in done
    decreases |left|
  {
    if left == {} {
      acts, done := CarryNone(nets, s0, ways, o, net, v);
    } else {
      var p :| p in left;
      var front, before := CarryAll(nets, s0, ways, left - {p}, o, net, v);
      acts, done := CarryWhole(nets, s0, front, before, ways, p, o, net, v);
    }
  }

  lemma CarryNone(nets: Nets, s0: State, ways: Ways, o: NodeID, net: IPNet, v: NodeID)
      returns (acts: seq<Action>, done: Ways)
    requires Init(s0) && net in NetsOf(nets, o) && v != o && WaysFrom(s0, ways, o, v) && ways != {}
    ensures Journey(nets, s0, acts, done, o, net, v) && AllTails(done, ways) && [o] in done
  {
    acts := JourneyStarts(nets, s0, o, net, v);
    done := {[o]};
    OriginIsTail(s0, ways, o, v);
  }

  lemma CarryWhole(nets: Nets, s0: State, acts: seq<Action>, done: Ways, ways: Ways, p: seq<NodeID>, o: NodeID,
                   net: IPNet, v: NodeID) returns (longer: seq<Action>, more: Ways)
    requires Init(s0) && Static(s0) && WaysFrom(s0, ways, o, v) && Families.Compatible(ways) && p in ways
    requires Journey(nets, s0, acts, done, o, net, v) && AllTails(done, ways) && [o] in done
    ensures Journey(nets, s0, longer, more, o, net, v) && AllTails(more, ways)
    ensures done <= more && p in more
  {
    longer, more := Carry(nets, s0, acts, done, ways, p, 0, o, net, v);
    assert p[0..] == p;
  }

  // ---- Late detours ----

  ghost function Held(ways: Ways, o: NodeID, net: IPNet, v: NodeID): set<Packet> {
    set p | p in ways && 0 < |p| < MAX_HOPS :: Packet(p[0], v, NewsAt(net, o, p))
  }

  lemma HeldInFlight(s: State, ways: Ways, done: Ways, o: NodeID, net: IPNet, v: NodeID)
    requires Travelled(s, done, net, o, v) && ways <= done
    requires forall p :: p in ways ==> p != [] && v !in p && v in ConnsOf(s, p[0])
    ensures forall pk :: pk in Held(ways, o, net, v) ==> pk in s.inflight
  {
    forall p | p in ways && 0 < |p| < MAX_HOPS ensures Packet(p[0], v, NewsAt(net, o, p)) in s.inflight {
      assert ([v] + p)[0] == v;
      assert [v] + p !in done;
    }
  }

  /** What v has through the neighbour is as long as the way. */
  ghost predicate AsLong(s: State, v: NodeID, p: seq<NodeID>, o: NodeID, net: IPNet)
    requires p != []
  {
    var rk := RouteKey(KeyOf(net), o, p[0]);
    rk in TableOf(s, v) && |TableOf(s, v)[rk].path| == |p|
  }

  /** Only the news held back is on its way to v, and messages that have passed v. */
  ghost predicate Late(s: State, ways: Ways, o: NodeID, net: IPNet, v: NodeID) {
    && (forall pk :: pk in s.inflight ==>
          !IsWithdrawal(pk.msg) && (pk in Held(ways, o, net, v) || v in pk.msg.path))
    && (forall p :: p in ways && 0 < |p| < MAX_HOPS ==>
          Packet(p[0], v, NewsAt(net, o, p)) in s.inflight || AsLong(s, v, p, o, net))
  }

  /** News held back arrives: the entry through that neighbour is as long as the way now, and
      no other entry changes. */
  lemma NewsArrives(nets: Nets, s: State, i: nat, targets: seq<NodeID>, now: int, v: NodeID, p: seq<NodeID>,
                    o: NodeID, net: IPNet)
    requires Inv(nets, s) && 0 < |p| < MAX_HOPS && v !in p
    requires i < |s.inflight| && s.inflight[i] == Packet(p[0], v, NewsAt(net, o, p))
    ensures var s' := Receive(s, i, targets, now);
            && AsLong(s', v, p, o, net)
            && forall q :: q != [] && q[0] != p[0] && AsLong(s, v, q, o, net) ==> AsLong(s', v, q, o, net)
  {
    ReceiveEffect(s, i, targets, now);
    assert FibOk(nets, s.links, v, TableOf(s, v));
    NewsTakesPlace(nets, s.links, TableOf(s, v), v, p, o, net, now);
  }

  lemma NewsTakesPlace(nets: Nets, links: Links, fib: Fib, v: NodeID, p: seq<NodeID>, o: NodeID, net: IPNet, now: int)
    requires FibOk(nets, links, v, fib) && 0 < |p| < MAX_HOPS && v !in p
    ensures var after := HandleMsg(v, fib, p[0], NewsAt(net, o, p), now).0;
            var rk := RouteKey(KeyOf(net), o, p[0]);
            && rk in after && |after[rk].path| == |p|
            && forall k :: k != rk ==> (k in after <==> k in fib) && (k in fib ==> after[k] == fib[k])
  {
    var r := Learn(p[0], NewsAt(net, o, p));
    if RK(r) in fib {
      assert RouteOk(nets, links, v, fib[RK(r)]);
    }
  }

  /** A message that has passed v changes nothing at v, and all that comes of it has too. */
  lemma ThroughStays(s: State, i: nat, targets: seq<NodeID>, now: int, v: NodeID)
    requires i < |s.inflight| && !IsWithdrawal(s.inflight[i].msg)
    requires v in s.inflight[i].msg.path || v == s.inflight[i].dst
    ensures v in s.inflight[i].msg.path ==> TableOf(Receive(s, i, targets, now), v) == TableOf(s, v)
    ensures forall pk :: pk in Receive(s, i, targets, now).inflight ==>
              pk in s.inflight || (v in pk.msg.path && !IsWithdrawal(pk.msg))
  {
    var pk := s.inflight[i];
    ReceiveEffect(s, i, targets, now);
    var out := HandleMsg(pk.dst, TableOf(s, pk.dst), pk.src, pk.msg, now).1;
    if out.Some? {
      assert out.value.path == [pk.dst] + pk.msg.path;
      FanMembers(pk.dst, out.value, targets);
    }
  }

  lemma LateStep(nets: Nets, s: State, i: nat, targets: seq<NodeID>, now: int, ways: Ways, o: NodeID, net: IPNet,
                 v: NodeID)
    requires Inv(nets, s) && Late(s, ways, o, net, v) && Families.OneEach(ways) && i < |s.inflight|
    requires forall p :: p in ways ==> v !in p
    ensures Late(Receive(s, i, targets, now), ways, o, net, v)
  {
    var (pk, s') := (s.inflight[i], Receive(s, i, targets, now));
    assert pk in s.inflight;
    ThroughStays(s, i, targets, now, v);
    forall p | p in ways && 0 < |p| < MAX_HOPS
      ensures Packet(p[0], v, NewsAt(net, o, p)) in s'.inflight || AsLong(s', v, p, o, net)
    {
      var own := Packet(p[0], v, NewsAt(net, o, p));
      if pk == own {
        NewsArrives(nets, s, i, targets, now, v, p, o, net);
      } else if own in s.inflight {
        OthersStay(s, i, targets, now, own);
      } else if v !in pk.msg.path {
        var q :| q in ways && 0 < |q| < MAX_HOPS && pk == Packet(q[0], v, NewsAt(net, o, q));
        NewsArrives(nets, s, i, targets, now, v, q, o, net);
      }
    }
  }

  lemma {:induction false} LateRun(nets: Nets, s: State, acts: seq<Action>, ways: Ways, o: NodeID, net: IPNet,
                                   v: NodeID)
    requires Inv(nets, s) && Late(s, ways, o, net, v) && Families.OneEach(ways) && forall p :: p in ways ==> v !in p
    requires DeliveryRun(nets, s, acts) && ValidRun(nets, s, acts)
    ensures Late(Exec(nets, s, acts), ways, o, net, v)
    decreases |acts|
  {
    if acts != [] {
      LateStep(nets, s, acts[0].i, acts[0].targets, acts[0].now, ways, o, net, v);
      StepKeepsInv(nets, s, acts[0]);
      LateRun(nets, Apply(s, acts[0]), acts[1..], ways, o, net, v);
    }
  }

  ghost predicate EndsLate(nets: Nets, s0: State, acts: seq<Action>, ways: Ways, o: NodeID, net: IPNet, v: NodeID) {
    Settled(nets, s0, acts, o, net)
    && forall p :: p in ways && p != [] ==> AsLong(Exec(nets, s0, acts), v, p, o, net)
  }

  /** Ways from different neighbours that are compatible can all come last: there is a run at
      whose end the node's route through each of these neighbours is as long as its way. */
  lemma LateDetours(nets: Nets, s0: State, o: NodeID, net: IPNet, v: NodeID, ways: Ways) returns (acts: seq<Action>)
    requires Init(s0) && Static(s0) && net in NetsOf(nets, o) && v != o
    requires WaysFrom(s0, ways, o, v) && Families.OneEach(ways) && Families.Compatible(ways) && ways != {}
    ensures EndsLate(nets, s0, acts, ways, o, net, v)
  {
    var front, done := CarryAll(nets, s0, ways, ways, o, net, v);
    JourneyHolds(nets, s0, front, done, ways, o, net, v);
    var rest := Settle(nets, Exec(nets, s0, front), Held(ways, o, net, v));
    StaticRunJoin(nets, s0, front, rest);
    OriginatesMore(front, rest, o, net);
    acts := ReleaseHeld(nets, s0, front + rest, ways, o, net, v);
  }

  lemma JourneyHolds(nets: Nets, s0: State, front: seq<Action>, done: Ways, ways: Ways, o: NodeID, net: IPNet,
                     v: NodeID)
    requires Init(s0) && Static(s0) && WaysFrom(s0, ways, o, v) && ways <= done
    requires Journey(nets, s0, front, done, o, net, v)
    ensures Settling(nets, Exec(nets, s0, front), Held(ways, o, net, v))
  {
    InitialInvariants(nets, s0);
    StaticRunKeeps(nets, s0, front);
    var s := Exec(nets, s0, front);
    forall p | p in ways ensures p != [] && v !in p && v in ConnsOf(s, p[0]) {
      Mutual(s0, v, p[0]);
    }
    HeldInFlight(s, ways, done, o, net, v);
  }

  lemma ReleaseHeld(nets: Nets, s0: State, front: seq<Action>, ways: Ways, o: NodeID, net: IPNet, v: NodeID)
      returns (acts: seq<Action>)
    requires Init(s0) && Static(s0) && StaticRun(nets, s0, front) && ValidRun(nets, s0, front)
    requires Originates(front, o, net) && WaysFrom(s0, ways, o, v) && Families.OneEach(ways)
    requires Settling(nets, Exec(nets, s0, front), Held(ways, o, net, v))
    requires NothingElse(Exec(nets, s0, front), Held(ways, o, net, v))
    ensures EndsLate(nets, s0, acts, ways, o, net, v)
  {
    var s := Exec(nets, s0, front);
    HeldIsLate(s, ways, o, net, v);
    var last := Settle(nets, s, {});
    NothingLeft(Exec(nets, s, last), {});
    LateRun(nets, s, last, ways, o, net, v);
    StaticRunJoin(nets, s0, front, last);
    OriginatesMore(front, last, o, net);
    acts := front + last;
  }

  lemma HeldIsLate(s: State, ways: Ways, o: NodeID, net: IPNet, v: NodeID)
    requires NothingElse(s, Held(ways, o, net, v))
    requires forall pk :: pk in Held(ways, o, net, v) ==> pk in s.inflight
    ensures Late(s, ways, o, net, v)
  {
    forall p | p in ways && 0 < |p| < MAX_HOPS ensures Packet(p[0], v, NewsAt(net, o, p)) in Held(ways, o, net, v) {}
  }

  // ---- When no route is short ----

  ghost predicate IsCloser(s: State, y: NodeID, o: NodeID, max: nat) {
    exists q :: Walk(s, q, y, o) && |q| <= max
  }

  /** Every neighbour of v that is closer to the origin starts a longer one of the ways. */
  ghost predicate Detoured(s: State, ways: Ways, v: NodeID, o: NodeID, max: nat) {
    forall y {:trigger IsCloser(s, y, o, max)} ::
      y in ConnsOf(s, v) && IsCloser(s, y, o, max) ==> LongFrom(ways, y, max)
  }

  ghost predicate LongFrom(ways: Ways, y: NodeID, max: nat) {
    exists p :: p in ways && p != [] && p[0] == y && |p| > max
  }

  /** Where the routes through all closer neighbours are too long, no other one is short. */
  lemma NoneIsShort(nets: Nets, s: State, v: NodeID, ways: Ways, o: NodeID, net: IPNet, len: nat)
    requires Inv(nets, s) && Static(s) && v != o && len >= 2 && Detoured(s, ways, v, o, len - 1)
    requires forall p :: p in ways && p != [] ==> AsLong(s, v, p, o, net)
    ensures !KnowsShortest(s, v, KeyOf(net), o, len)
  {
    forall rk | rk in TableOf(s, v) && rk.key == KeyOf(net) && rk.origin == o
      ensures |TableOf(s, v)[rk].path| + 1 != len
    {
      var path := TableOf(s, v)[rk].path;
      RouteAvoids(nets, s, v, rk);
      assert |path| <= len - 1 ==> IsCloser(s, rk.nextHop, o, len - 1);
      forall p | p in ways && p != [] && p[0] == rk.nextHop ensures |p| == |path| {
        assert AsLong(s, v, p, o, net);
        assert rk == RouteKey(KeyOf(net), o, p[0]);
      }
    }
  }

  lemma DetouredStays(s: State, s': State, ways: Ways, v: NodeID, o: NodeID, max: nat)
    requires Detoured(s, ways, v, o, max) && forall n :: ConnsOf(s', n) == ConnsOf(s, n)
    ensures Detoured(s', ways, v, o, max)
  {
    forall y | y in ConnsOf(s', v) && IsCloser(s', y, o, max) ensures LongFrom(ways, y, max) {
      WalksAgree(s, s', y, o);
      assert IsCloser(s, y, o, max);
    }
  }

  /** A node loses its shortest routes in some run if compatible longer ways lead through all
      of its neighbours that are closer to the origin. */
  lemma DetoursLoseShortest(nets: Nets, s0: State, o: NodeID, net: IPNet, v: NodeID, ways: Ways, len: nat)
      returns (acts: seq<Action>)
    requires Init(s0) && Static(s0) && net in NetsOf(nets, o) && v != o && len >= 2
    requires WaysFrom(s0, ways, o, v) && Families.OneEach(ways) && Families.Compatible(ways) && ways != {}
    requires Detoured(s0, ways, v, o, len - 1)
    ensures Settled(nets, s0, acts, o, net)
    ensures !KnowsShortest(Exec(nets, s0, acts), v, KeyOf(net), o, len)
  {
    acts := LateDetours(nets, s0, o, net, v, ways);
    LateIsNotShort(nets, s0, acts, ways, o, net, v, len);
  }

  lemma LateIsNotShort(nets: Nets, s0: State, acts: seq<Action>, ways: Ways, o: NodeID, net: IPNet, v: NodeID, len: nat)
    requires Init(s0) && Static(s0) && v != o && len >= 2
    requires EndsLate(nets, s0, acts, ways, o, net, v) && Detoured(s0, ways, v, o, len - 1)
    ensures !KnowsShortest(Exec(nets, s0, acts), v, KeyOf(net), o, len)
  {
    InitKeeps(nets, s0, acts);
    NotShortAtEnd(nets, s0, Exec(nets, s0, acts), ways, o, net, v, len);
  }

  lemma NotShortAtEnd(nets: Nets, s0: State, e: State, ways: Ways, o: NodeID, net: IPNet, v: NodeID, len: nat)
    requires Inv(nets, e) && Static(e) && v != o && len >= 2 && forall n :: ConnsOf(e, n) == ConnsOf(s0, n)
    requires Detoured(s0, ways, v, o, len - 1) && forall p :: p in ways && p != [] ==> AsLong(e, v, p, o, net)
    ensures !KnowsShortest(e, v, KeyOf(net), o, len)
  {
    DetouredStays(s0, e, ways, v, o, len - 1);
    NoneIsShort(nets, e, v, ways, o, net, len);
  }

  // ---- The exact condition ----

  /** The links of the others. */
  ghost function Around(s: State, v: NodeID): Detours.Edges {
    set a, b | a in s.conns && b in s.conns[a] && a != v && b != v :: (a, b)
  }

  lemma WayIsSimple(s: State, v: NodeID, p: seq<NodeID>, o: NodeID)
    requires v != o
    ensures Detours.IsWay(Around(s, v), p, o) <==> p != [] && Simple(s, p, p[0], o) && v !in p
  {
    var e := Around(s, v);
    if Detours.IsWay(e, p, o) {
      forall i, j | 0 <= i && j == i + 1 && j < |p| ensures p[j] in ConnsOf(s, p[i]) {
        assert (p[i], p[j]) in e;
      }
      forall i | 0 <= i < |p| ensures p[i] != v {
        assert i > 0 ==> (p[i - 1], p[i]) in e;
        assert i + 1 < |p| ==> (p[i], p[i + 1]) in e;
      }
    }
    if p != [] && Simple(s, p, p[0], o) && v !in p {
      forall i, j | 0 <= i && j == i + 1 && j < |p| ensures (p[i], p[j]) in e {
        assert p[j] in ConnsOf(s, p[i]);
      }
    }
  }

  lemma AroundIsSymmetric(s: State, v: NodeID)
    requires LinksCover(s) && Static(s)
    ensures Detours.Symmetric(Around(s, v))
  {
    forall x, y | (x, y) in Around(s, v) ensures (y, x) in Around(s, v) {
      assert y in ConnsOf(s, x);
      Mutual(s, x, y);
    }
  }

  /** Without v, its closer neighbours are as far from the origin as with it. */
  lemma CloserDistance(s: State, d: Detours.Dist, v: NodeID, o: NodeID, y: NodeID, len: nat)
    requires Detours.IsDist(Around(s, v), d, o) && v != o && len >= 2 && Far(s, v, o, len)
    requires y in ConnsOf(s, v) && IsCloser(s, y, o, len - 1)
    ensures y in d && d[y] == len - 1
  {
    var q :| Walk(s, q, y, o) && |q| <= len - 1;
    var p := SimpleWalk(s, q, y, o);
    OffShortWalks(s, p, y, o, v, len);
    WayIsSimple(s, v, p, o);
    assert p[0] in d;
    var r :| Detours.IsWay(Around(s, v), r, o) && r[0] == y && |r| == d[y];
    WayIsSimple(s, v, r, o);
    Longer(s, v, r, y, o);
  }

  /** The condition: through some neighbour closer to the origin all ways are equally long. */
  ghost predicate Secure(s: State, v: NodeID, o: NodeID, len: nat)
    requires len > 0
  {
    exists y :: y in ConnsOf(s, v) && IsCloser(s, y, o, len - 1) && OneLength(s, v, y, o, len - 1)
  }

  lemma LongerFromCloser(s: State, d: Detours.Dist, v: NodeID, o: NodeID, y: NodeID, len: nat)
    requires Detours.IsDist(Around(s, v), d, o) && v != o && len >= 2 && Far(s, v, o, len)
    requires y in ConnsOf(s, v) && IsCloser(s, y, o, len - 1) && !OneLength(s, v, y, o, len - 1)
    ensures Families.LongerFrom(Around(s, v), d, o, y, MAX_HOPS)
  {
    CloserDistance(s, d, v, o, y, len);
    var p :| Simple(s, p, y, o) && v !in p && |p| < MAX_HOPS && |p| != len - 1;
    WayIsSimple(s, v, p, o);
    Longer(s, v, p, y, o);
  }

  /** Compatible ways that are longer lead through all the closer neighbours, if a longer one
      leads through each of them. */
  lemma WaysAround(s: State, v: NodeID, o: NodeID, len: nat) returns (ways: Ways)
    requires LinksCover(s) && Static(s) && v != o && len >= 2 && Far(s, v, o, len) && !Secure(s, v, o, len)
    ensures WaysFrom(s, ways, o, v) && Families.OneEach(ways) && Families.Compatible(ways)
    ensures Detoured(s, ways, v, o, len - 1)
  {
    var e := Around(s, v);
    AroundIsSymmetric(s, v);
    var d := Families.SomeDist(e, o);
    var heads := set y | y in ConnsOf(s, v) && IsCloser(s, y, o, len - 1);
    forall y | y in heads ensures Families.LongerFrom(e, d, o, y, MAX_HOPS) {
      LongerFromCloser(s, d, v, o, y, len);
    }
    ways := Families.CompatibleDetours(e, d, o, heads, MAX_HOPS);
    DetoursAround(s, d, v, o, len, heads, ways);
  }

  lemma DetoursAround(s: State, d: Detours.Dist, v: NodeID, o: NodeID, len: nat, heads: set<NodeID>, ways: Ways)
    requires Detours.IsDist(Around(s, v), d, o) && v != o && len >= 2 && Far(s, v, o, len)
    requires heads == set y | y in ConnsOf(s, v) && IsCloser(s, y, o, len - 1)
    requires Families.AllDetours(Around(s, v), d, o, ways) && forall p :: p in ways ==> |p| < MAX_HOPS && p[0] in heads
    requires forall x :: x in heads ==> Families.HeadIn(ways, x)
    ensures WaysFrom(s, ways, o, v) && Detoured(s, ways, v, o, len - 1)
  {
    forall p | p in ways ensures 0 < |p| < MAX_HOPS && Simple(s, p, p[0], o) && v !in p && p[0] in ConnsOf(s, v) {
      WayIsSimple(s, v, p, o);
    }
    forall y | y in ConnsOf(s, v) && IsCloser(s, y, o, len - 1) ensures LongFrom(ways, y, len - 1) {
      CloserDistance(s, d, v, o, y, len);
      assert Families.HeadIn(ways, y);
    }
  }

  lemma SomeRunLoses(nets: Nets, s0: State, o: NodeID, net: IPNet, v: NodeID, w: seq<NodeID>)
      returns (acts: seq<Action>)
    requires Init(s0) && Static(s0) && net in NetsOf(nets, o)
    requires Walk(s0, w, v, o) && 2 <= |w| && Far(s0, v, o, |w|) && !Secure(s0, v, o, |w|)
    ensures Settled(nets, s0, acts, o, net) && !KnowsShortest(Exec(nets, s0, acts), v, KeyOf(net), o, |w|)
  {
    NotTheOrigin(s0, v, o, w);
    var ways := WaysAround(s0, v, o, |w|);
    WalkTail(s0, w, v, o, 1);
    assert w[1] in ConnsOf(s0, w[0]) && IsCloser(s0, w[1], o, |w| - 1);
    acts := DetoursLoseShortest(nets, s0, o, net, v, ways, |w|);
  }

  lemma SecureKeeps(nets: Nets, s0: State, acts: seq<Action>, o: NodeID, net: IPNet, v: NodeID, w: seq<NodeID>)
    requires Init(s0) && Static(s0) && Settled(nets, s0, acts, o, net)
    requires Walk(s0, w, v, o) && 2 <= |w| <= MAX_HOPS && Far(s0, v, o, |w|) && Secure(s0, v, o, |w|)
    ensures KnowsShortest(Exec(nets, s0, acts), v, KeyOf(net), o, |w|)
  {
    var u := SecureWalk(s0, v, o, |w|);
    ShortestKept(nets, s0, acts, o, net, v, u);
  }

  lemma SecureWalk(s: State, v: NodeID, o: NodeID, len: nat) returns (u: seq<NodeID>)
    requires len >= 2 && Far(s, v, o, len) && Secure(s, v, o, len)
    ensures Walk(s, u, v, o) && |u| == len && OneLength(s, v, u[1], o, len - 1)
  {
    var y :| y in ConnsOf(s, v) && IsCloser(s, y, o, len - 1) && OneLength(s, v, y, o, len - 1);
    var q :| Walk(s, q, y, o) && |q| <= len - 1;
    Longer(s, v, q, y, o);
    u := [v] + q;
  }

  /** A node is certain to end up with a shortest route if and only if through some neighbour
      closer to the origin all the ways that avoid the node have the same length. */
  lemma ShortestIff(nets: Nets, s0: State, o: NodeID, net: IPNet, v: NodeID, w: seq<NodeID>)
    requires Init(s0) && Static(s0) && net in NetsOf(nets, o)
    requires Walk(s0, w, v, o) && 2 <= |w| <= MAX_HOPS && Far(s0, v, o, |w|)
    ensures Secure(s0, v, o, |w|) <==>
              forall acts :: Settled(nets, s0, acts, o, net) ==>
                KnowsShortest(Exec(nets, s0, acts), v, KeyOf(net), o, |w|)
  {
    if Secure(s0, v, o, |w|) {
      forall acts | Settled(nets, s0, acts, o, net)
        ensures KnowsShortest(Exec(nets, s0, acts), v, KeyOf(net), o, |w|)
      {
        SecureKeeps(nets, s0, acts, o, net, v, w);
      }
    } else {
      var acts := SomeRunLoses(nets, s0, o, net, v, w);
    }
  }

  // ---- The smallest example ----

  type Neighbourhood = map<NodeID, set<NodeID>>

  /** A network with these links, before anything has happened. */
  ghost function StartOf(adj: Neighbourhood): State {
    State(map[], adj, adj, [], set a, b | a in adj && b in adj[a] :: (a, b), {})
  }

  lemma StartIsStatic(adj: Neighbourhood)
    requires forall a, b :: a in adj && b in adj[a] ==> b in adj && a in adj[b]
    ensures Init(StartOf(adj)) && Static(StartOf(adj))
  {
    var s := StartOf(adj);
    forall a, b | Linked(s.links, a, b) ensures b in ConnsOf(s, a) {}
  }

  /** A triangle o, u, x with a tail v at u. */
  ghost function Triangle(o: NodeID, u: NodeID, x: NodeID, v: NodeID): State {
    StartOf(map[o := {u, x}, u := {o, x, v}, x := {o, u}, v := {u}])
  }

  /** In the tail of a triangle the shortest route can be lost: v hears of o from u at a
      distance of two links, and then again from u by way of x, which overwrites it. */
  lemma TriangleWithTail(o: NodeID, u: NodeID, x: NodeID, v: NodeID, net: IPNet) returns (acts: seq<Action>)
    requires NoDup([o, u, x, v])
    ensures var (nets, s0) := (map[o := [net]], Triangle(o, u, x, v));
            && Init(s0) && Static(s0) && Settled(nets, s0, acts, o, net)
            && Walk(s0, [v, u, o], v, o) && !KnowsShortest(Exec(nets, s0, acts), v, KeyOf(net), o, 3)
  {
    var (nets, s0) := (map[o := [net]], Triangle(o, u, x, v));
    Distinct4(o, u, x, v);
    TriangleIsStatic(o, u, x, v);
    TailIsInsecure(o, u, x, v);
    NoWalkOfTwo(s0, v, o);
    acts := SomeRunLoses(nets, s0, o, net, v, [v, u, o]);
  }

  lemma TailIsInsecure(o: NodeID, u: NodeID, x: NodeID, v: NodeID)
    requires NoDup([o, u, x, v])
    ensures !OneLength(Triangle(o, u, x, v), v, u, o, 2)
    ensures Walk(Triangle(o, u, x, v), [v, u, o], v, o) && ConnsOf(Triangle(o, u, x, v), v) == {u}
  {
    Distinct4(o, u, x, v);
    assert Simple(Triangle(o, u, x, v), [u, x, o], u, o);
  }

  lemma NoWalkOfTwo(s: State, v: NodeID, o: NodeID)
    requires v != o && o !in ConnsOf(s, v)
    ensures Far(s, v, o, 3)
  {
    forall q | Walk(s, q, v, o) ensures 3 <= |q| {
      assert |q| >= 2 ==> q[1] in ConnsOf(s, q[0]);
    }
  }

  lemma Distinct4(a: NodeID, b: NodeID, c: NodeID, d: NodeID)
    requires NoDup([a, b, c, d])
    ensures a != b && a != c && a != d && b != c && b != d && c != d
  {
    var s := [a, b, c, d];
    assert s[0] != s[1] && s[0] != s[2] && s[0] != s[3] && s[1] != s[2] && s[1] != s[3] && s[2] != s[3];
  }

  lemma TriangleIsStatic(o: NodeID, u: NodeID, x: NodeID, v: NodeID)
    requires NoDup([o, u, x, v])
    ensures Init(Triangle(o, u, x, v)) && Static(Triangle(o, u, x, v))
  {
    Distinct4(o, u, x, v);
    StartIsStatic(map[o := {u, x}, u := {o, x, v}, x := {o, u}, v := {u}]);
  }

  // ---- Two closer neighbours ----

  /** A kite: o and v at its ends, u and x between them and linked with each other. */
  ghost function Kite(o: NodeID, u: NodeID, x: NodeID, v: NodeID): State {
    StartOf(map[o := {u, x}, u := {o, x, v}, x := {o, u, v}, v := {u, x}])
  }

  lemma KiteIsStatic(o: NodeID, u: NodeID, x: NodeID, v: NodeID)
    requires NoDup([o, u, x, v])
    ensures Init(Kite(o, u, x, v)) && Static(Kite(o, u, x, v))
  {
    Distinct4(o, u, x, v);
    StartIsStatic(map[o := {u, x}, u := {o, x, v}, x := {o, u, v}, v := {u, x}]);
  }

  lemma KiteIsInsecure(o: NodeID, u: NodeID, x: NodeID, v: NodeID)
    requires NoDup([o, u, x, v])
    ensures !OneLength(Kite(o, u, x, v), v, u, o, 2) && !OneLength(Kite(o, u, x, v), v, x, o, 2)
    ensures Walk(Kite(o, u, x, v), [v, u, o], v, o) && Walk(Kite(o, u, x, v), [v, x, o], v, o)
    ensures ConnsOf(Kite(o, u, x, v), v) == {u, x}
  {
    Distinct4(o, u, x, v);
    assert Simple(Kite(o, u, x, v), [u, x, o], u, o) && Simple(Kite(o, u, x, v), [x, u, o], x, o);
  }

  /** Also with two neighbours on shortest paths both routes can end as detours. */
  lemma KiteLosesBoth(o: NodeID, u: NodeID, x: NodeID, v: NodeID, net: IPNet) returns (acts: seq<Action>)
    requires NoDup([o, u, x, v])
    ensures var (nets, s0) := (map[o := [net]], Kite(o, u, x, v));
            && Init(s0) && Static(s0) && Settled(nets, s0, acts, o, net)
            && Walk(s0, [v, u, o], v, o) && Walk(s0, [v, x, o], v, o)
            && !KnowsShortest(Exec(nets, s0, acts), v, KeyOf(net), o, 3)
  {
    var (nets, s0) := (map[o := [net]], Kite(o, u, x, v));
    Distinct4(o, u, x, v);
    KiteIsStatic(o, u, x, v);
    KiteIsInsecure(o, u, x, v);
    NoWalkOfTwo(s0, v, o);
    acts := SomeRunLoses(nets, s0, o, net, v, [v, u, o]);
  }
}
