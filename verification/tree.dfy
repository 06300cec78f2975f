/** Networks without cycles: tables are exact whatever the delivery order, and the flood of
    a withdrawal visits every node once. */
module Tree {
  import opened Base
  import opened Addr
  import opened Table
  import opened WireRoute
  import opened Propagation
  import opened Network
  import opened Flood

  ghost predicate Simple(s: State, w: seq<NodeID>, from: NodeID, to: NodeID) {
    Walk(s, w, from, to) && NoDup(w)
  }

  /** Between any two nodes at most one simple walk. */
  ghost predicate UniqueWalks(s: State) {
    forall a, b, p, q :: Simple(s, p, a, b) && Simple(s, q, a, b) ==> p == q
  }

  // ---- Exact tables ----

  lemma StoredWalk(nets: Nets, s: State, v: NodeID, rk: RouteKey)
    requires Inv(nets, s) && Static(s) && rk in TableOf(s, v)
    ensures Simple(s, [v] + TableOf(s, v)[rk].path, v, rk.origin)
    ensures TableOf(s, v)[rk].cost == |TableOf(s, v)[rk].path| + 1
    ensures rk.nextHop == if TableOf(s, v)[rk].path == [] then v else TableOf(s, v)[rk].path[0]
  {
    assert FibOk(nets, s.links, v, TableOf(s, v));
    var r := TableOf(s, v)[rk];
    var w := [v] + r.path;
    assert RouteOk(nets, s.links, v, r);
    forall i, j | 0 <= i && j == i + 1 && j < |w| ensures w[j] in ConnsOf(s, w[i]) {
      if i > 0 {
        assert w[i] == r.path[i - 1] && w[j] == r.path[j - 1];
      } else {
        assert Linked(s.links, w[i], w[j]);
      }
    }
    forall i, j | 0 <= i < j < |w| ensures w[i] != w[j] {
      if i > 0 {
        assert w[i] == r.path[i - 1] && w[j] == r.path[j - 1];
      } else {
        assert w[j] == r.path[j - 1] && w[j] in r.path;
      }
    }
  }

  /** Without cycles a node never stores two routes for one prefix of one origin, in any
      reachable state. */
  lemma OneRoutePerOrigin(nets: Nets, s: State, v: NodeID, j: RouteKey, k: RouteKey)
    requires Inv(nets, s) && Static(s) && UniqueWalks(s)
    requires j in TableOf(s, v) && k in TableOf(s, v) && j.key == k.key && j.origin == k.origin
    ensures j == k
  {
    StoredWalk(nets, s, v, j);
    StoredWalk(nets, s, v, k);
    var p, q := [v] + TableOf(s, v)[j].path, [v] + TableOf(s, v)[k].path;
    assert p == q;
    assert p[1..] == TableOf(s, v)[j].path && q[1..] == TableOf(s, v)[k].path;
  }

  /** The next hop on a walk; a walk of one node stays where it is. */
  function FirstHop(p: seq<NodeID>): NodeID
    requires p != []
  {
    if |p| == 1 then p[0] else p[1]
  }

  lemma ExactAt(nets: Nets, s: State, v: NodeID, key: Key, o: NodeID, p: seq<NodeID>)
    requires p != []
    requires Inv(nets, s) && Static(s) && UniqueWalks(s) && Holds(s, v, key, o) && Simple(s, p, v, o)
    ensures var rk := RouteKey(key, o, FirstHop(p));
            && rk in TableOf(s, v) && TableOf(s, v)[rk].path == p[1..] && TableOf(s, v)[rk].cost == |p|
            && forall k :: k in TableOf(s, v) && k.key == key && k.origin == o ==> k == rk
  {
    var rk :| rk in TableOf(s, v) && rk.key == key && rk.origin == o;
    StoredWalk(nets, s, v, rk);
    assert p == [v] + TableOf(s, v)[rk].path;
    assert p[1..] == TableOf(s, v)[rk].path;
    forall k | k in TableOf(s, v) && k.key == key && k.origin == o ensures k == rk {
      OneRoutePerOrigin(nets, s, v, rk, k);
    }
  }

  lemma SimpleAgree(s: State, s': State, p: seq<NodeID>, from: NodeID, to: NodeID)
    requires forall n :: ConnsOf(s', n) == ConnsOf(s, n)
    ensures Simple(s', p, from, to) <==> Simple(s, p, from, to)
  {
  }

  /** When the flood over a tree has ended, a node within 31 links of the origin holds one
      route for the prefix and origin, its path is the tree path, and its cost is the
      distance plus one, whatever the delivery order and the rebroadcasts were. */
  lemma ExactTables(nets: Nets, s0: State, acts: seq<Action>, o: NodeID, net: IPNet, v: NodeID, p: seq<NodeID>)
    requires Init(s0) && Static(s0) && StaticRun(nets, s0, acts) && ValidRun(nets, s0, acts)
    requires Originates(acts, o, net) && Exec(nets, s0, acts).inflight == []
    requires UniqueWalks(s0) && Simple(s0, p, v, o) && |p| <= MAX_HOPS
    ensures var fib := TableOf(Exec(nets, s0, acts), v);
            var rk := RouteKey(KeyOf(net), o, FirstHop(p));
            && rk in fib && fib[rk].path == p[1..] && fib[rk].cost == |p|
            && forall k :: k in fib && k.key == KeyOf(net) && k.origin == o ==> k == rk
  {
    FloodReachesExactly(nets, s0, acts, o, net, v);
    assert Walk(s0, p, v, o);
    InitKeeps(nets, s0, acts);
    var s := Exec(nets, s0, acts);
    SameWalks(s0, s);
    SimpleAgree(s0, s, p, v, o);
    ExactAt(nets, s, v, KeyOf(net), o, p);
  }

  lemma InitKeeps(nets: Nets, s0: State, acts: seq<Action>)
    requires Init(s0) && Static(s0) && StaticRun(nets, s0, acts) && ValidRun(nets, s0, acts)
    ensures Inv(nets, Exec(nets, s0, acts)) && Static(Exec(nets, s0, acts))
    ensures forall n :: ConnsOf(Exec(nets, s0, acts), n) == ConnsOf(s0, n)
  {
    InitialInvariants(nets, s0);
    StaticRunKeeps(nets, s0, acts);
  }

  lemma SameWalks(s: State, s': State)
    requires UniqueWalks(s) && forall n :: ConnsOf(s', n) <= ConnsOf(s, n)
    ensures UniqueWalks(s')
  {
    forall a, b, p, q | Simple(s', p, a, b) && Simple(s', q, a, b) ensures p == q {
      assert Simple(s, p, a, b) && Simple(s, q, a, b);
    }
  }

  // ---- The withdrawal flood ----

  ghost predicate Concerns(m: RouteMessage, key: Key, o: NodeID) {
    KeyOf(m.prefix) == key && m.origin == o
  }

  ghost predicate Withdraws(pk: Packet, key: Key, o: NodeID) {
    IsWithdrawal(pk.msg) && Concerns(pk.msg, key, o)
  }

  /** The withdrawal of a prefix of an origin has just left its source: one copy towards
      each neighbour, and the source has forgotten the route. */
  ghost predicate Started(s: State, source: NodeID, key: Key, o: NodeID) {
    && !Holds(s, source, key, o)
    && (forall pk :: pk in s.inflight && Withdraws(pk, key, o) ==>
          pk.src == source && pk.dst in ConnsOf(s, source))
    && (forall v :: v in ConnsOf(s, source) ==> Pending(s.inflight, v, key, o))
    && OneCopyEach(s.inflight, key, o)
  }

  /** No copy of the withdrawal is in flight. */
  ghost predicate Quiet(s: State, key: Key, o: NodeID) {
    forall pk :: pk in s.inflight ==> !Withdraws(pk, key, o)
  }

  ghost predicate Updates(pk: Packet, key: Key, o: NodeID) {
    !IsWithdrawal(pk.msg) && Concerns(pk.msg, key, o)
  }

  /** No update about the route is on its way to one of the nodes that would accept it. */
  ghost predicate NoneAccepted(q: seq<Packet>, nodes: set<NodeID>, key: Key, o: NodeID) {
    forall pk :: pk in q && Updates(pk, key, o) && pk.dst in nodes ==> Rejected(pk)
  }

  /** The nodes include all that have a link into them. */
  ghost predicate Upstream(s: State, comp: set<NodeID>, up: set<NodeID>) {
    comp <= up && forall x, y :: y in ConnsOf(s, x) && y in up ==> x in up
  }

  ghost predicate Pending(q: seq<Packet>, v: NodeID, key: Key, o: NodeID) {
    exists pk :: pk in q && Withdraws(pk, key, o) && pk.dst == v
  }

  ghost predicate OneCopyEach(q: seq<Packet>, key: Key, o: NodeID) {
    forall i, j :: 0 <= i < j < |q| && Withdraws(q[i], key, o) && Withdraws(q[j], key, o) ==> q[i].dst != q[j].dst
  }

  /** A set of nodes that its links do not leave; inside it links work both ways. */
  ghost predicate Component(s: State, comp: set<NodeID>) {
    forall x, y :: x in comp && y in ConnsOf(s, x) ==> y in comp && x in ConnsOf(s, y)
  }

  /** From inside the component, at most one simple walk to any node. */
  ghost predicate UniqueIn(s: State, comp: set<NodeID>) {
    forall a, b, p, q :: a in comp && Simple(s, p, a, b) && Simple(s, q, a, b) ==> p == q
  }

  ghost predicate SteadyLinks(s: State, comp: set<NodeID>) {
    Component(s, comp) && forall n :: n !in ConnsOf(s, n) && PeersOf(s, n) == ConnsOf(s, n)
  }

  ghost predicate TreeLinks(s: State, comp: set<NodeID>) {
    UniqueIn(s, comp) && SteadyLinks(s, comp)
  }

  ghost predicate Reached(s: State, source: NodeID, visited: set<NodeID>, u: NodeID) {
    exists p :: Simple(s, p, source, u) && forall x :: x in p ==> x in visited
  }

  /** The flood under way: the visited nodes have forgotten the route, and every copy in
      flight crosses an edge from a visited to an unvisited node, one copy per node. */
  ghost predicate Flooding(s: State, source: NodeID, key: Key, o: NodeID, comp: set<NodeID>, up: set<NodeID>,
                           visited: set<NodeID>) {
    && source in visited && visited <= comp && Upstream(s, comp, up)
    && NoneAccepted(s.inflight, up, key, o)
    && OneCopyEach(s.inflight, key, o)
    && (forall pk :: pk in s.inflight && Withdraws(pk, key, o) ==>
          pk.src in visited && pk.dst !in visited && pk.dst in ConnsOf(s, pk.src))
    && (forall u, v :: u in visited && v in ConnsOf(s, u) ==> v in visited || Pending(s.inflight, v, key, o))
    && (forall u :: u in visited ==> Reached(s, source, visited, u))
    && (forall u :: u in visited ==> !Holds(s, u, key, o))
  }

  lemma FloodStarts(s: State, source: NodeID, key: Key, o: NodeID, comp: set<NodeID>, up: set<NodeID>)
    requires TreeLinks(s, comp) && source in comp && Started(s, source, key, o)
    requires Upstream(s, comp, up) && NoneAccepted(s.inflight, up, key, o)
    ensures Flooding(s, source, key, o, comp, up, {source})
  {
    assert Simple(s, [source], source, source);
  }

  /** Extending a simple walk inside the visited nodes by an edge out of them. */
  lemma StepOut(s: State, source: NodeID, visited: set<NodeID>, u: NodeID, v: NodeID) returns (p: seq<NodeID>)
    requires Reached(s, source, visited, u) && v !in visited && v in ConnsOf(s, u)
    ensures Simple(s, p, source, v) && |p| >= 2 && p[|p| - 2] == u
    ensures forall x :: x in p ==> x in visited + {v}
  {
    var q :| Simple(s, q, source, u) && forall x :: x in q ==> x in visited;
    p := q + [v];
    forall i, j | 0 <= i && j == i + 1 && j < |p| ensures p[j] in ConnsOf(s, p[i]) {
      if j < |q| {
        assert q[j] in ConnsOf(s, q[i]);
      }
    }
    forall i | 0 <= i < |q| ensures q[i] != v {
      assert q[i] in q;
    }
  }

  /** In a tree an unvisited node has one neighbour among the visited ones. */
  lemma OneWayIn(s: State, source: NodeID, comp: set<NodeID>, visited: set<NodeID>, u: NodeID, w: NodeID, v: NodeID)
    requires UniqueIn(s, comp) && source in comp && v !in visited && v in ConnsOf(s, u) && v in ConnsOf(s, w)
    requires Reached(s, source, visited, u) && Reached(s, source, visited, w)
    ensures u == w
  {
    var p := StepOut(s, source, visited, u, v);
    var q := StepOut(s, source, visited, w, v);
    assert p == q;
  }

  lemma SameConnsSameReach(s: State, s': State, source: NodeID, visited: set<NodeID>, u: NodeID)
    requires (forall n :: ConnsOf(s', n) == ConnsOf(s, n)) && Reached(s, source, visited, u)
    ensures Reached(s', source, visited, u)
  {
    var p :| Simple(s, p, source, u) && forall x :: x in p ==> x in visited;
    assert Simple(s', p, source, u);
  }

  lemma ReachedMore(s: State, source: NodeID, visited: set<NodeID>, more: set<NodeID>, u: NodeID)
    requires Reached(s, source, visited, u) && visited <= more
    ensures Reached(s, source, more, u)
  {
  }

  /** Packets that remain when one is taken out. */
  lemma WithoutMembers(q: seq<Packet>, i: nat, key: Key, o: NodeID)
    requires i < |q| && OneCopyEach(q, key, o)
    ensures OneCopyEach(Without(q, i), key, o)
    ensures forall pk :: pk in Without(q, i) ==> pk in q
    ensures forall pk :: pk in q && pk != q[i] ==> pk in Without(q, i)
    ensures Withdraws(q[i], key, o) ==>
              forall pk :: pk in Without(q, i) && Withdraws(pk, key, o) ==> pk.dst != q[i].dst
  {
    var r := Without(q, i);
    forall j | 0 <= j < |r| ensures r[j] == q[if j < i then j else j + 1] {}
    forall pk | pk in q && pk != q[i] ensures pk in r {
      var j :| 0 <= j < |q| && q[j] == pk;
      assert r[if j < i then j else j - 1] == pk;
    }
  }

  /** The neighbours that get a copy next were not visited and have no other copy coming. */
  lemma FreshTarget(s: State, source: NodeID, key: Key, o: NodeID, comp: set<NodeID>, up: set<NodeID>,
                    visited: set<NodeID>, i: nat, w: NodeID)
    requires Flooding(s, source, key, o, comp, up, visited) && TreeLinks(s, comp)
    requires i < |s.inflight| && Withdraws(s.inflight[i], key, o)
    requires w in ConnsOf(s, s.inflight[i].dst) && w != s.inflight[i].src
    ensures w !in visited + {s.inflight[i].dst} && !Pending(s.inflight, w, key, o)
  {
    var (u, v) := (s.inflight[i].src, s.inflight[i].dst);
    assert s.inflight[i] in s.inflight;
    assert v in comp && v in ConnsOf(s, w);
    if w in visited {
      OneWayIn(s, source, comp, visited, u, w, v);
    }
    if Pending(s.inflight, w, key, o) {
      var pk :| pk in s.inflight && Withdraws(pk, key, o) && pk.dst == w;
      var p := StepOut(s, source, visited, u, v);
      assert Reached(s, source, visited + {v}, v);
      ReachedMore(s, source, visited, visited + {v}, pk.src);
      OneWayIn(s, source, comp, visited + {v}, v, pk.src, w);
    }
  }

  /** The messages in flight after the copy is taken and its own copies are sent. */
  lemma CopiesAfter(q: seq<Packet>, i: nat, targets: seq<NodeID>, key: Key, o: NodeID)
    requires i < |q| && Withdraws(q[i], key, o) && OneCopyEach(q, key, o)
    requires NoDup(targets) && forall w :: w in targets ==> !Pending(q, w, key, o)
    ensures var q' := Without(q, i) + Fan(q[i].dst, q[i].msg, targets);
            && OneCopyEach(q', key, o)
            && (forall pk :: pk in q' && Updates(pk, key, o) ==> pk in q)
            && (forall pk :: pk in q' && Withdraws(pk, key, o) ==>
                  (pk in q && pk.dst != q[i].dst) || (pk.src == q[i].dst && pk.dst in targets))
            && (forall w :: Pending(q', w, key, o) <==> (w != q[i].dst && Pending(q, w, key, o)) || w in targets)
  {
    var rest, fan := Without(q, i), Fan(q[i].dst, q[i].msg, targets);
    WithoutMembers(q, i, key, o);
    FanMembers(q[i].dst, q[i].msg, targets);
    var q' := rest + fan;
    forall j, k | 0 <= j < k < |q'| && Withdraws(q'[j], key, o) && Withdraws(q'[k], key, o)
      ensures q'[j].dst != q'[k].dst
    {
      if j < |rest| && k >= |rest| {
        assert q'[j] in rest && q'[j] in q && q'[k].dst == targets[k - |rest|];
        assert targets[k - |rest|] in targets;
      }
    }
    forall w ensures Pending(q', w, key, o) <==> (w != q[i].dst && Pending(q, w, key, o)) || w in targets {
      if w in targets {
        assert Packet(q[i].dst, w, q[i].msg) in fan;
      } else if w != q[i].dst && Pending(q, w, key, o) {
        var pk :| pk in q && Withdraws(pk, key, o) && pk.dst == w;
        assert pk in q';
      }
    }
  }

  /** Delivering a copy: the receiver is new, its table drops the route, and copies go to
      all its neighbours but the sender. */
  lemma CopyDelivered(s: State, i: nat, targets: seq<NodeID>, now: int, source: NodeID, key: Key, o: NodeID,
                      comp: set<NodeID>, up: set<NodeID>, visited: set<NodeID>)
    requires Flooding(s, source, key, o, comp, up, visited) && TreeLinks(s, comp)
    requires i < |s.inflight| && Withdraws(s.inflight[i], key, o)
    requires Orders(targets, ConnsOf(s, s.inflight[i].dst) - {s.inflight[i].src})
    ensures s.inflight[i].dst !in visited && s.inflight[i].dst in comp
    ensures Flooding(Receive(s, i, targets, now), source, key, o, comp, up, visited + {s.inflight[i].dst})
  {
    var (u, v) := (s.inflight[i].src, s.inflight[i].dst);
    assert s.inflight[i] in s.inflight;
    var s' := Receive(s, i, targets, now);
    var visited' := visited + {v};
    forall n ensures ConnsOf(s', n) == ConnsOf(s, n) {}
    forall w | w in targets ensures w !in visited' && !Pending(s.inflight, w, key, o) {
      FreshTarget(s, source, key, o, comp, up, visited, i, w);
    }
    CopiesAfter(s.inflight, i, targets, key, o);
    var p := StepOut(s, source, visited, u, v);
    forall x | x in visited' ensures Reached(s', source, visited', x) && !Holds(s', x, key, o) {
      if x != v {
        ReachedMore(s, source, visited, visited', x);
        assert TableOf(s', x) == TableOf(s, x) && !Holds(s, x, key, o);
      }
      assert Reached(s, source, visited', x);
      SameConnsSameReach(s, s', source, visited', x);
    }
  }

  ghost predicate NothingGained(before: Fib, after: Fib, key: Key, o: NodeID) {
    forall rk :: rk in after && rk.key == key && rk.origin == o ==> rk in before
  }

  /** A message that is no copy of the withdrawal causes none. */
  lemma HandleOther(n: NodeID, fib: Fib, from: NodeID, m: RouteMessage, now: int, key: Key, o: NodeID)
    requires !IsWithdrawal(m) || !Concerns(m, key, o)
    ensures var (after, out) := HandleMsg(n, fib, from, m, now);
            && (!Concerns(m, key, o) || Rejected(Packet(from, n, m)) ==> NothingGained(fib, after, key, o))
            && (out.Some? && Concerns(out.value, key, o) ==>
                  Concerns(m, key, o) && !IsWithdrawal(out.value) && !Rejected(Packet(from, n, m)))
  {
  }

  lemma UnrelatedTraffic(q: seq<Packet>, i: nat, extra: seq<Packet>, key: Key, o: NodeID)
    requires i < |q| && !Withdraws(q[i], key, o) && OneCopyEach(q, key, o)
    requires forall pk :: pk in extra ==> !Withdraws(pk, key, o)
    ensures var q' := Without(q, i) + extra;
            && OneCopyEach(q', key, o)
            && (forall pk :: pk in q' ==> pk in q || pk in extra)
            && (forall pk :: pk in q' && Withdraws(pk, key, o) ==> pk in q)
            && (forall w :: Pending(q, w, key, o) ==> Pending(q', w, key, o))
  {
    WithoutMembers(q, i, key, o);
    var rest, q' := Without(q, i), Without(q, i) + extra;
    forall k | |rest| <= k < |q'| ensures !Withdraws(q'[k], key, o) {
      assert q'[k] == extra[k - |rest|] && q'[k] in extra;
    }
    forall w | Pending(q, w, key, o) ensures Pending(q', w, key, o) {
      var pk :| pk in q && Withdraws(pk, key, o) && pk.dst == w;
      assert pk in q';
    }
  }

  /** What a node passes on in other deliveries is nothing that the nodes would accept. */
  lemma OthersPassNothing(s: State, i: nat, targets: seq<NodeID>, now: int, key: Key, o: NodeID,
                          comp: set<NodeID>, up: set<NodeID>) returns (extra: seq<Packet>)
    requires Upstream(s, comp, up) && NoneAccepted(s.inflight, up, key, o)
    requires i < |s.inflight| && !Withdraws(s.inflight[i], key, o)
    requires Orders(targets, PeersOf(s, s.inflight[i].dst) - {s.inflight[i].src})
    ensures Receive(s, i, targets, now).inflight == Without(s.inflight, i) + extra
    ensures forall pk :: pk in extra ==> !Withdraws(pk, key, o)
    ensures NoneAccepted(extra, up, key, o)
    ensures var n := s.inflight[i].dst;
            n in up ==> NothingGained(TableOf(s, n), TableOf(Receive(s, i, targets, now), n), key, o)
  {
    var pk := s.inflight[i];
    assert pk in s.inflight && pk == Packet(pk.src, pk.dst, pk.msg);
    ReceiveEffect(s, i, targets, now);
    HandleOther(pk.dst, TableOf(s, pk.dst), pk.src, pk.msg, now, key, o);
    var out := HandleMsg(pk.dst, TableOf(s, pk.dst), pk.src, pk.msg, now).1;
    if out.None? {
      extra := [];
    } else {
      extra := Fan(pk.dst, out.value, targets);
      FanMembers(pk.dst, out.value, targets);
    }
  }

  /** Delivering anything else leaves the flood as it is. */
  lemma OtherDelivered(s: State, i: nat, targets: seq<NodeID>, now: int, source: NodeID, key: Key, o: NodeID,
                       comp: set<NodeID>, up: set<NodeID>, visited: set<NodeID>)
    requires Flooding(s, source, key, o, comp, up, visited)
    requires i < |s.inflight| && !Withdraws(s.inflight[i], key, o)
    requires Orders(targets, PeersOf(s, s.inflight[i].dst) - {s.inflight[i].src})
    ensures Flooding(Receive(s, i, targets, now), source, key, o, comp, up, visited)
  {
    var s' := Receive(s, i, targets, now);
    var extra := OthersPassNothing(s, i, targets, now, key, o, comp, up);
    UnrelatedTraffic(s.inflight, i, extra, key, o);
    ReceiveKeepsLinks(s, i, targets, now);
    SameConns(s, s');
    ReceiveEffect(s, i, targets, now);
    forall x | x in visited ensures Reached(s', source, visited, x) && !Holds(s', x, key, o) {
      SameConnsSameReach(s, s', source, visited, x);
      StillForgotten(s, s', s.inflight[i].dst, x, key, o);
    }
  }

  lemma StillForgotten(s: State, s': State, n: NodeID, x: NodeID, key: Key, o: NodeID)
    requires !Holds(s, x, key, o) && (x != n ==> TableOf(s', x) == TableOf(s, x))
    requires x == n ==> NothingGained(TableOf(s, n), TableOf(s', n), key, o)
    ensures !Holds(s', x, key, o)
  {
  }

  // ---- Whole floods ----

  ghost predicate AllDeliveries(nets: Nets, s: State, acts: seq<Action>)
    decreases |acts|
  {
    acts == [] || (acts[0].Deliver? && Enabled(nets, s, acts[0]) && AllDeliveries(nets, Apply(s, acts[0]), acts[1..]))
  }

  /** The nodes to which the run delivers the withdrawal, in order. */
  ghost function Receivers(nets: Nets, s: State, acts: seq<Action>, key: Key, o: NodeID): seq<NodeID>
    requires AllDeliveries(nets, s, acts)
    decreases |acts|
  {
    if acts == [] then []
    else
      var pk := s.inflight[acts[0].i];
      (if Withdraws(pk, key, o) then [pk.dst] else [])
      + Receivers(nets, Apply(s, acts[0]), acts[1..], key, o)
  }

  lemma LinksStay(nets: Nets, s: State, a: Action, comp: set<NodeID>)
    requires TreeLinks(s, comp) && Enabled(nets, s, a) && a.Deliver?
    ensures TreeLinks(Apply(s, a), comp) && forall n :: ConnsOf(Apply(s, a), n) == ConnsOf(s, n)
  {
    var s' := Apply(s, a);
    forall n ensures ConnsOf(s', n) == ConnsOf(s, n) && PeersOf(s', n) == PeersOf(s, n) {}
    forall a, b, p, q | a in comp && Simple(s', p, a, b) && Simple(s', q, a, b) ensures p == q {
      assert Simple(s, p, a, b) && Simple(s, q, a, b);
    }
  }

  lemma FloodStep(nets: Nets, s: State, a: Action, source: NodeID, key: Key, o: NodeID,
                  comp: set<NodeID>, up: set<NodeID>, visited: set<NodeID>)
    requires Flooding(s, source, key, o, comp, up, visited) && TreeLinks(s, comp)
    requires Enabled(nets, s, a) && a.Deliver?
    ensures var pk := s.inflight[a.i];
            if Withdraws(pk, key, o)
            then pk.dst !in visited && Flooding(Apply(s, a), source, key, o, comp, up, visited + {pk.dst})
            else Flooding(Apply(s, a), source, key, o, comp, up, visited)
  {
    if Withdraws(s.inflight[a.i], key, o) {
      CopyDelivered(s, a.i, a.targets, a.now, source, key, o, comp, up, visited);
    } else {
      OtherDelivered(s, a.i, a.targets, a.now, source, key, o, comp, up, visited);
    }
  }

  function SetOf(q: seq<NodeID>): set<NodeID> {
    set v | v in q
  }

  lemma {:induction false} FloodRun(nets: Nets, s: State, acts: seq<Action>, source: NodeID, key: Key, o: NodeID,
                                    comp: set<NodeID>, up: set<NodeID>, visited: set<NodeID>)
    requires Flooding(s, source, key, o, comp, up, visited) && TreeLinks(s, comp)
    requires AllDeliveries(nets, s, acts) && ValidRun(nets, s, acts)
    ensures var got := Receivers(nets, s, acts, key, o);
            && NoDup(got) && visited !! SetOf(got)
            && Flooding(Exec(nets, s, acts), source, key, o, comp, up, visited + SetOf(got))
            && (forall n :: ConnsOf(Exec(nets, s, acts), n) == ConnsOf(s, n))
    decreases |acts|
  {
    if acts == [] {
      assert visited + SetOf([]) == visited;
    } else {
      var a := acts[0];
      var pk, s' := s.inflight[a.i], Apply(s, a);
      LinksStay(nets, s, a, comp);
      FloodStep(nets, s, a, source, key, o, comp, up, visited);
      var got := Receivers(nets, s', acts[1..], key, o);
      if Withdraws(pk, key, o) {
        FloodRun(nets, s', acts[1..], source, key, o, comp, up, visited + {pk.dst});
        FrontOfList(pk.dst, got);
        assert visited + {pk.dst} + SetOf(got) == visited + SetOf([pk.dst] + got);
      } else {
        FloodRun(nets, s', acts[1..], source, key, o, comp, up, visited);
        assert [] + got == got;
      }
    }
  }

  lemma FrontOfList(v: NodeID, q: seq<NodeID>)
    ensures SetOf([v] + q) == {v} + SetOf(q)
    ensures NoDup(q) && v !in SetOf(q) ==> NoDup([v] + q)
  {
    forall x | x in {v} + SetOf(q) ensures x in [v] + q {
      assert x == v ==> ([v] + q)[0] == x;
    }
    assert forall i :: 0 <= i < |q| ==> q[i] in q;
  }

  lemma {:induction false} VisitedIsClosed(s: State, w: seq<NodeID>, from: NodeID, to: NodeID, visited: set<NodeID>)
    requires Walk(s, w, from, to) && from in visited
    requires forall u, v :: u in visited && v in ConnsOf(s, u) ==> v in visited
    ensures to in visited
  {
    if |w| > 1 {
      assert w[1] in ConnsOf(s, w[0]);
      forall i, j | 0 <= i && j == i + 1 && j < |w[1..]| ensures w[1..][j] in ConnsOf(s, w[1..][i]) {
        assert w[j + 1] in ConnsOf(s, w[i + 1]);
      }
      VisitedIsClosed(s, w[1..], w[1], to, visited);
    }
  }

  /** The flood of a withdrawal over a tree, interleaved with any other traffic: no node
      receives it twice and the source never does, so at most one delivery per other node
      happens. Once no copy is in flight every node that the source reaches received
      exactly one, and none of them stores a route for that prefix and origin. */
  lemma WithdrawalFlood(nets: Nets, s: State, acts: seq<Action>, source: NodeID, key: Key, o: NodeID,
                        comp: set<NodeID>, up: set<NodeID>)
    requires TreeLinks(s, comp) && source in comp && Started(s, source, key, o)
    requires Upstream(s, comp, up) && NoneAccepted(s.inflight, up, key, o)
    requires AllDeliveries(nets, s, acts) && ValidRun(nets, s, acts)
    ensures var (got, e) := (Receivers(nets, s, acts, key, o), Exec(nets, s, acts));
            && NoDup(got) && source !in got && |got| <= |comp| - 1
            && (Quiet(e, key, o) ==>
                  forall v, w :: Walk(s, w, source, v) ==> (v == source || v in got) && !Holds(e, v, key, o))
  {
    FloodStarts(s, source, key, o, comp, up);
    FloodRun(nets, s, acts, source, key, o, comp, up, {source});
    var (got, e) := (Receivers(nets, s, acts, key, o), Exec(nets, s, acts));
    NoDupBound(got, comp - {source});
    if Quiet(e, key, o) {
      forall v, w | Walk(s, w, source, v) ensures v in {source} + SetOf(got) && !Holds(e, v, key, o) {
        WalksAgree(s, e, source, v);
        FloodOver(e, source, key, o, comp, up, {source} + SetOf(got), v, w);
      }
    }
  }

  lemma FloodOver(e: State, source: NodeID, key: Key, o: NodeID, comp: set<NodeID>, up: set<NodeID>,
                  visited: set<NodeID>, v: NodeID, w: seq<NodeID>)
    requires Flooding(e, source, key, o, comp, up, visited) && Walk(e, w, source, v)
    requires Quiet(e, key, o)
    ensures v in visited && !Holds(e, v, key, o)
  {
    VisitedIsClosed(e, w, source, v, visited);
  }

  // ---- How a flood starts ----

  lemma {:induction false} OneMessageOneCopy(n: NodeID, msgs: seq<RouteMessage>, targets: seq<NodeID>,
                                             key: Key, o: NodeID)
    requires NoDup(targets)
    requires forall i, j :: 0 <= i < j < |msgs| ==> !Concerns(msgs[i], key, o) || !Concerns(msgs[j], key, o)
    ensures OneCopyEach(FanAll(n, msgs, targets), key, o)
  {
    if msgs != [] {
      OneMessageOneCopy(n, msgs[1..], targets, key, o);
      FanAllMembers(n, msgs[1..], targets);
      var fan, rest := Fan(n, msgs[0], targets), FanAll(n, msgs[1..], targets);
      forall j | 0 <= j < |rest| ensures rest[j].msg in msgs[1..] {
        assert rest[j] in rest;
      }
      forall m | m in msgs[1..] && Concerns(m, key, o) ensures !Concerns(msgs[0], key, o) {
        var i :| 0 < i < |msgs| && msgs[i] == m;
      }
    }
  }

  lemma OneLostRoute(nets: Nets, s: State, n: NodeID, peer: NodeID, lost: seq<Route>, rk: RouteKey)
    requires Inv(nets, s) && Static(s) && UniqueWalks(s) && Lists(lost, Lost(TableOf(s, n), peer))
    requires rk in TableOf(s, n) && (rk.nextHop == peer || rk.origin == peer)
    ensures forall i :: 0 <= i < |lost| && Concerns(Withdrawal(lost[i]), rk.key, rk.origin) ==> RK(lost[i]) == rk
    ensures Distinct(lost) && TableOf(s, n)[rk] in lost && RK(TableOf(s, n)[rk]) == rk
  {
    var fib := TableOf(s, n);
    assert FibOk(nets, s.links, n, fib);
    forall i | 0 <= i < |lost| && Concerns(Withdrawal(lost[i]), rk.key, rk.origin) ensures RK(lost[i]) == rk {
      assert lost[i] in lost;
      OneRoutePerOrigin(nets, s, n, RK(lost[i]), rk);
    }
  }

  /** On a tree exactly one of the withdrawals that a peer loss causes concerns a given
      prefix and origin. */
  lemma OneWithdrawal(lost: seq<Route>, rk: RouteKey, r: Route)
    requires Distinct(lost) && r in lost && RK(r) == rk
    requires forall i :: 0 <= i < |lost| && Concerns(Withdrawal(lost[i]), rk.key, rk.origin) ==> RK(lost[i]) == rk
    ensures var msgs := Withdrawals(lost);
            && (forall i, j :: 0 <= i < j < |msgs| ==>
                  !Concerns(msgs[i], rk.key, rk.origin) || !Concerns(msgs[j], rk.key, rk.origin))
            && (forall m :: m in msgs ==> IsWithdrawal(m))
            && Withdrawal(r) in msgs && Concerns(Withdrawal(r), rk.key, rk.origin)
  {
    var msgs := Withdrawals(lost);
    forall i | 0 <= i < |msgs| ensures msgs[i] == Withdrawal(lost[i]) {}
    var k :| 0 <= k < |lost| && lost[k] == r;
    assert msgs[k] == Withdrawal(r);
  }

  lemma LossPackets(q: seq<Packet>, n: NodeID, msgs: seq<RouteMessage>, targets: seq<NodeID>, key: Key, o: NodeID,
                    m: RouteMessage)
    requires forall pk :: pk in q ==> !Withdraws(pk, key, o)
    requires forall i, j :: 0 <= i < j < |msgs| ==> !Concerns(msgs[i], key, o) || !Concerns(msgs[j], key, o)
    requires NoDup(targets) && m in msgs && Concerns(m, key, o) && forall x :: x in msgs ==> IsWithdrawal(x)
    ensures var q' := q + FanAll(n, msgs, targets);
            && OneCopyEach(q', key, o)
            && (forall pk :: pk in q' && Updates(pk, key, o) ==> pk in q)
            && (forall pk :: pk in q' && Withdraws(pk, key, o) ==> pk.src == n && pk.dst in targets)
            && (forall v :: v in targets ==> Pending(q', v, key, o))
  {
    OneMessageOneCopy(n, msgs, targets, key, o);
    FanAllMembers(n, msgs, targets);
    assert forall i :: 0 <= i < |q| ==> q[i] in q;
    forall v | v in targets ensures Pending(q + FanAll(n, msgs, targets), v, key, o) {
      assert Packet(n, v, m) in q + FanAll(n, msgs, targets);
    }
  }

  lemma LossLinks(s: State, s': State, n: NodeID, peer: NodeID)
    requires UniqueWalks(s) && s'.alive == s.alive && s'.conns == s.conns[n := ConnsOf(s, n) - {peer}]
    requires forall k :: PeersOf(s, k) == ConnsOf(s, k)
    ensures UniqueWalks(s') && forall k :: PeersOf(s', k) == ConnsOf(s', k)
    ensures ConnsOf(s', n) == ConnsOf(s, n) - {peer}
  {
    forall k ensures ConnsOf(s', k) == if k == n then ConnsOf(s, k) - {peer} else ConnsOf(s, k) {}
    forall k ensures PeersOf(s', k) == ConnsOf(s', k) {
      assert PeersOf(s, k) == ConnsOf(s, k);
    }
    SameWalks(s, s');
  }

  lemma LossForgets(nets: Nets, s: State, n: NodeID, peer: NodeID, rk: RouteKey)
    requires Inv(nets, s) && Static(s) && UniqueWalks(s)
    requires rk in TableOf(s, n) && (rk.nextHop == peer || rk.origin == peer)
    ensures forall k :: k in WithoutPeer(TableOf(s, n), peer) ==> k.key != rk.key || k.origin != rk.origin
  {
    forall k | k in TableOf(s, n) && k.key == rk.key && k.origin == rk.origin ensures k == rk {
      OneRoutePerOrigin(nets, s, n, k, rk);
    }
  }

  /** When a node of a tree loses a peer, each route that goes away with it starts such a
      flood: the node has forgotten the route and one copy is on its way to each of the
      remaining neighbours. The updates in flight are the same as before. */
  lemma PeerLossStartsFlood(nets: Nets, s: State, n: NodeID, peer: NodeID, lost: seq<Route>,
                            targets: seq<NodeID>, rk: RouteKey)
    requires Inv(nets, s) && Static(s) && UniqueWalks(s)
    requires Enabled(nets, s, PeerDown(n, peer, lost, targets))
    requires rk in TableOf(s, n) && (rk.nextHop == peer || rk.origin == peer)
    requires Quiet(s, rk.key, rk.origin)
    ensures var s' := Apply(s, PeerDown(n, peer, lost, targets));
            && Started(s', n, rk.key, rk.origin) && UniqueWalks(s')
            && (forall pk :: pk in s'.inflight && Updates(pk, rk.key, rk.origin) ==> pk in s.inflight)
            && forall k :: PeersOf(s', k) == ConnsOf(s', k)
  {
    var r := TableOf(s, n)[rk];
    OneLostRoute(nets, s, n, peer, lost, rk);
    OneWithdrawal(lost, rk, r);
    LossForgets(nets, s, n, peer, rk);
    assert forall k :: PeersOf(s, k) == ConnsOf(s, k);
    StartAssembled(s, n, peer, Withdrawals(lost), targets, rk.key, rk.origin, Withdrawal(r));
  }

  lemma StartAssembled(s: State, n: NodeID, peer: NodeID, msgs: seq<RouteMessage>, targets: seq<NodeID>,
                       key: Key, o: NodeID, m: RouteMessage)
    requires UniqueWalks(s) && forall k :: PeersOf(s, k) == ConnsOf(s, k)
    requires Quiet(s, key, o)
    requires forall i, j :: 0 <= i < j < |msgs| ==> !Concerns(msgs[i], key, o) || !Concerns(msgs[j], key, o)
    requires Orders(targets, ConnsOf(s, n) - {peer})
    requires m in msgs && Concerns(m, key, o) && forall x :: x in msgs ==> IsWithdrawal(x)
    requires forall k :: k in WithoutPeer(TableOf(s, n), peer) ==> k.key != key || k.origin != o
    ensures var s' := s.(fibs := s.fibs[n := WithoutPeer(TableOf(s, n), peer)],
                         conns := s.conns[n := ConnsOf(s, n) - {peer}],
                         inflight := s.inflight + FanAll(n, msgs, targets));
            && Started(s', n, key, o) && UniqueWalks(s')
            && (forall pk :: pk in s'.inflight && Updates(pk, key, o) ==> pk in s.inflight)
            && forall k :: PeersOf(s', k) == ConnsOf(s', k)
  {
    var s' := s.(fibs := s.fibs[n := WithoutPeer(TableOf(s, n), peer)],
                 conns := s.conns[n := ConnsOf(s, n) - {peer}],
                 inflight := s.inflight + FanAll(n, msgs, targets));
    LossPackets(s.inflight, n, msgs, targets, key, o, m);
    LossLinks(s, s', n, peer);
    assert TableOf(s', n) == WithoutPeer(TableOf(s, n), peer);
  }

  // ---- From the loss of a peer to the end of the flood ----

  /** The nodes that a node reaches. */
  ghost function ReachOf(s: State, n: NodeID): set<NodeID> {
    set x | x in {n} + Neighbours(s) && exists w :: Walk(s, w, n, x)
  }

  lemma ReachIsAll(s: State, n: NodeID, w: seq<NodeID>, x: NodeID)
    requires Walk(s, w, n, x)
    ensures x in ReachOf(s, n)
  {
    if |w| > 1 {
      var (a, b) := (w[|w| - 2], w[|w| - 1]);
      assert b in ConnsOf(s, a) && a in s.conns;
    }
  }

  lemma WalkFurther(s: State, n: NodeID, w: seq<NodeID>, x: NodeID, y: NodeID)
    requires Walk(s, w, n, x) && y in ConnsOf(s, x)
    ensures Walk(s, w + [y], n, y)
  {
    var p := w + [y];
    forall i, j | 0 <= i && j == i + 1 && j < |p| ensures p[j] in ConnsOf(s, p[i]) {
      if j < |w| {
        assert w[j] in ConnsOf(s, w[i]);
      }
    }
  }

  /** Simple walks after the loss were simple walks before, but none of them is the link. */
  lemma SimpleBefore(s: State, s': State, n: NodeID, peer: NodeID, p: seq<NodeID>)
    requires Simple(s', p, n, peer)
    requires forall k :: ConnsOf(s', k) == if k == n then ConnsOf(s, n) - {peer} else ConnsOf(s, k)
    ensures Simple(s, p, n, peer) && p != [n, peer]
  {
    forall i, j | 0 <= i && j == i + 1 && j < |p| ensures p[j] in ConnsOf(s, p[i]) {
      assert p[j] in ConnsOf(s', p[i]);
    }
    assert |p| >= 2 ==> p[1] in ConnsOf(s', p[0]);
  }

  /** On a tree the lost peer is out of reach. */
  lemma PeerOutOfReach(s: State, s': State, n: NodeID, peer: NodeID, w: seq<NodeID>)
    requires UniqueWalks(s) && peer in ConnsOf(s, n) && n != peer
    requires forall k :: ConnsOf(s', k) == if k == n then ConnsOf(s, n) - {peer} else ConnsOf(s, k)
    ensures !Walk(s', w, n, peer)
  {
    assert Simple(s, [n, peer], n, peer);
    if Walk(s', w, n, peer) {
      var p := SimpleWalk(s', w, n, peer);
      SimpleBefore(s, s', n, peer, p);
    }
  }

  /** After the loss, the links within the reach of the node still work both ways. */
  lemma ReachIsComponent(s: State, s': State, n: NodeID, peer: NodeID)
    requires UniqueWalks(s) && forall x, y :: y in ConnsOf(s, x) ==> x in ConnsOf(s, y)
    requires n !in ConnsOf(s, n)
    requires forall k :: ConnsOf(s', k) == if k == n then ConnsOf(s, n) - {peer} else ConnsOf(s, k)
    ensures Component(s', ReachOf(s', n))
  {
    var comp := ReachOf(s', n);
    forall x, y | x in comp && y in ConnsOf(s', x) ensures y in comp && x in ConnsOf(s', y) {
      var w :| Walk(s', w, n, x);
      WalkFurther(s', n, w, x, y);
      ReachIsAll(s', n, w + [y], y);
      if y == n && x == peer && peer in ConnsOf(s, n) {
        PeerOutOfReach(s, s', n, peer, w);
      }
    }
  }

  lemma LossIsSteady(nets: Nets, s: State, s': State, n: NodeID, peer: NodeID)
    requires LinksCover(s) && Static(s) && UniqueWalks(s) && UniqueWalks(s')
    requires s'.conns == s.conns[n := ConnsOf(s, n) - {peer}]
    requires (forall k :: k !in ConnsOf(s, k)) && forall k :: PeersOf(s', k) == ConnsOf(s', k)
    ensures TreeLinks(s', ReachOf(s', n)) && n in ReachOf(s', n)
  {
    forall k ensures ConnsOf(s', k) == if k == n then ConnsOf(s, n) - {peer} else ConnsOf(s, k) {}
    forall x, y | y in ConnsOf(s, x) ensures x in ConnsOf(s, y) {
      assert Linked(s.links, y, x);
    }
    ReachIsComponent(s, s', n, peer);
    assert Walk(s', [n], n, n);
  }

  lemma EveryoneIsUpstream(s: State, comp: set<NodeID>)
    ensures Upstream(s, comp, comp + s.conns.Keys)
  {
  }

  /** A peer is lost on a tree and all copies of a withdrawal that this causes have been
      delivered, among any other traffic: then nobody whom the node still reaches stores a
      route for that prefix and origin, unless news of it was under way when the peer was
      lost. */
  lemma PeerLossIsForgotten(nets: Nets, s: State, n: NodeID, peer: NodeID, lost: seq<Route>, targets: seq<NodeID>,
                            rk: RouteKey, acts: seq<Action>, v: NodeID, w: seq<NodeID>)
    requires Inv(nets, s) && Static(s) && UniqueWalks(s) && forall k :: k !in ConnsOf(s, k)
    requires Enabled(nets, s, PeerDown(n, peer, lost, targets))
    requires rk in TableOf(s, n) && (rk.nextHop == peer || rk.origin == peer)
    requires Quiet(s, rk.key, rk.origin)
    requires forall pk :: pk in s.inflight && Updates(pk, rk.key, rk.origin) ==> Rejected(pk)
    requires var s' := Apply(s, PeerDown(n, peer, lost, targets));
             && AllDeliveries(nets, s', acts) && ValidRun(nets, s', acts) && Walk(s', w, n, v)
             && Quiet(Exec(nets, s', acts), rk.key, rk.origin)
    ensures !Holds(Exec(nets, Apply(s, PeerDown(n, peer, lost, targets)), acts), v, rk.key, rk.origin)
  {
    var s' := Apply(s, PeerDown(n, peer, lost, targets));
    PeerLossStartsFlood(nets, s, n, peer, lost, targets, rk);
    LossIsSteady(nets, s, s', n, peer);
    EveryoneIsUpstream(s', ReachOf(s', n));
    WithdrawalFlood(nets, s', acts, n, rk.key, rk.origin, ReachOf(s', n), ReachOf(s', n) + s'.conns.Keys);
  }
}
