/** What becomes of a withdrawal on links with a cycle: it never stops circling. Together
    with the flood over a tree this tells exactly on which networks withdrawals die out. */
module Cycle {
  import opened Base
  import opened Addr
  import opened Table
  import opened WireRoute
  import opened Propagation
  import opened Network
  import opened Flood
  import opened Tree

  type Edge = (NodeID, NodeID)

  /** Directed links, each with the node to go to next, without turning back. */
  type Round = map<Edge, NodeID>

  ghost predicate Endless(s: State, e: Round) {
    forall t {:trigger e[t]} :: t in e ==> (t.1, e[t]) in e && e[t] != t.0 && e[t] in PeersOf(s, t.1)
  }

  lemma PassedOn(s: State, i: nat, targets: seq<NodeID>, now: int, x: NodeID)
    requires i < |s.inflight| && IsWithdrawal(s.inflight[i].msg) && x in targets
    ensures Packet(s.inflight[i].dst, x, s.inflight[i].msg) in Receive(s, i, targets, now).inflight
  {
    FanMembers(s.inflight[i].dst, s.inflight[i].msg, targets);
  }

  lemma SamePeers(s: State, s': State, n: NodeID)
    requires s'.conns == s.conns && s'.alive == s.alive
    ensures PeersOf(s', n) == PeersOf(s, n)
  {
  }

  lemma EndlessStays(s: State, s': State, e: Round)
    requires Endless(s, e) && s'.conns == s.conns && s'.alive == s.alive
    ensures Endless(s', e)
  {
    forall t {:trigger e[t]} | t in e ensures (t.1, e[t]) in e && e[t] != t.0 && e[t] in PeersOf(s', t.1) {
      SamePeers(s, s', t.1);
    }
  }

  ghost predicate Rides(pk: Packet, e: Round, key: Key, o: NodeID) {
    Withdraws(pk, key, o) && (pk.src, pk.dst) in e
  }

  /** The next copy on the round is among the ones that a delivered copy turns into. */
  lemma CopyRides(s: State, pk: Packet, e: Round, key: Key, o: NodeID, targets: seq<NodeID>) returns (x: NodeID)
    requires Endless(s, e) && Rides(pk, e, key, o) && Orders(targets, PeersOf(s, pk.dst) - {pk.src})
    ensures x in targets && Rides(Packet(pk.dst, x, pk.msg), e, key, o)
  {
    x := e[(pk.src, pk.dst)];
  }

  /** A copy on an endless round is replaced by another one when it is delivered. */
  lemma CirclingStep(s: State, i: nat, targets: seq<NodeID>, now: int, e: Round, key: Key, o: NodeID, pk: Packet)
      returns (more: Packet)
    requires Endless(s, e) && i < |s.inflight| && pk in s.inflight && Rides(pk, e, key, o)
    requires Orders(targets, PeersOf(s, s.inflight[i].dst) - {s.inflight[i].src})
    ensures more in Receive(s, i, targets, now).inflight && Rides(more, e, key, o)
  {
    if s.inflight[i] == pk {
      var x := CopyRides(s, pk, e, key, o, targets);
      PassedOn(s, i, targets, now, x);
      more := Packet(pk.dst, x, pk.msg);
    } else {
      OthersStay(s, i, targets, now, pk);
      more := pk;
    }
  }

  lemma RoundGoesOn(nets: Nets, s: State, a: Action, e: Round, key: Key, o: NodeID, pk: Packet) returns (more: Packet)
    requires Endless(s, e) && pk in s.inflight && Rides(pk, e, key, o) && a.Deliver? && Enabled(nets, s, a)
    ensures Endless(Apply(s, a), e) && more in Apply(s, a).inflight && Rides(more, e, key, o)
  {
    more := CirclingStep(s, a.i, a.targets, a.now, e, key, o, pk);
    ReceiveKeepsLinks(s, a.i, a.targets, a.now);
    EndlessStays(s, Receive(s, a.i, a.targets, a.now), e);
  }

  /** What every delivery keeps holds after any number of them. */
  lemma {:induction false} DeliveriesKeep(nets: Nets, s: State, acts: seq<Action>, keeps: State -> bool)
    requires AllDeliveries(nets, s, acts) && ValidRun(nets, s, acts) && keeps(s)
    requires forall t: State, a: Action :: keeps(t) && a.Deliver? && Enabled(nets, t, a) ==> keeps(Apply(t, a))
    ensures keeps(Exec(nets, s, acts))
    decreases |acts|
  {
    if acts != [] {
      DeliveriesKeep(nets, Apply(s, acts[0]), acts[1..], keeps);
    }
  }

  ghost predicate Circling(s: State, e: Round, key: Key, o: NodeID) {
    Endless(s, e) && exists pk :: pk in s.inflight && Rides(pk, e, key, o)
  }

  lemma CirclingGoesOn(nets: Nets, s: State, a: Action, e: Round, key: Key, o: NodeID)
    requires Circling(s, e, key, o) && a.Deliver? && Enabled(nets, s, a)
    ensures Circling(Apply(s, a), e, key, o)
  {
    var pk :| pk in s.inflight && Rides(pk, e, key, o);
    var more := RoundGoesOn(nets, s, a, e, key, o, pk);
  }

  lemma CirclesForever(nets: Nets, s: State, acts: seq<Action>, e: Round, key: Key, o: NodeID)
    requires Circling(s, e, key, o) && AllDeliveries(nets, s, acts) && ValidRun(nets, s, acts)
    ensures !Quiet(Exec(nets, s, acts), key, o)
  {
    ghost var keeps := (t: State) => Circling(t, e, key, o);
    forall t: State, a: Action | keeps(t) && a.Deliver? && Enabled(nets, t, a) ensures keeps(Apply(t, a)) {
      CirclingGoesOn(nets, t, a, e, key, o);
    }
    DeliveriesKeep(nets, s, acts, keeps);
    NotQuiet(Exec(nets, s, acts), e, key, o);
  }

  lemma NotQuiet(s: State, e: Round, key: Key, o: NodeID)
    requires Circling(s, e, key, o)
    ensures !Quiet(s, key, o)
  {
  }

  // ---- Rings ----

  function Next(c: seq<NodeID>, i: nat): NodeID
    requires i < |c|
  {
    if i + 1 < |c| then c[i + 1] else c[0]
  }

  ghost predicate Ring(s: State, c: seq<NodeID>) {
    |c| >= 3 && NoDup(c) && forall i :: 0 <= i < |c| ==> Next(c, i) in ConnsOf(s, c[i])
  }

  /** Two different simple walks between the same nodes close a ring. */
  lemma {:induction false} WalksCloseRing(s: State, comp: set<NodeID>, p: seq<NodeID>, q: seq<NodeID>,
                                           a: NodeID, b: NodeID) returns (c: seq<NodeID>)
    requires Component(s, comp) && a in comp && Simple(s, p, a, b) && Simple(s, q, a, b) && p != q
    ensures Ring(s, c) && forall x :: x in c ==> x in p || x in q
    decreases |p| + |q|
  {
    if p[1] == q[1] {
      assert p == [p[0]] + p[1..] && q == [q[0]] + q[1..];
      SimpleTail(s, p, a, b);
      SimpleTail(s, q, a, b);
      c := WalksCloseRing(s, comp, p[1..], q[1..], p[1], b);
    } else if i, j :| 1 <= i < |p| && 1 <= j < |q| && p[i] == q[j] && i + j < |p| + |q| - 2 {
      SimpleFront(s, p, a, b, i);
      SimpleFront(s, q, a, b, j);
      assert p[..i + 1][1] == p[1] && q[..j + 1][1] == q[1];
      c := WalksCloseRing(s, comp, p[..i + 1], q[..j + 1], a, p[i]);
    } else {
      c := Join(s, comp, p, q, a, b);
    }
  }

  lemma SimpleTail(s: State, p: seq<NodeID>, a: NodeID, b: NodeID)
    requires Simple(s, p, a, b) && |p| >= 2
    ensures Simple(s, p[1..], p[1], b) && p[1] in ConnsOf(s, a)
  {
    var t := p[1..];
    forall i, j | 0 <= i && j == i + 1 && j < |t| ensures t[j] in ConnsOf(s, t[i]) {
      assert p[j + 1] in ConnsOf(s, p[i + 1]);
    }
    assert p[1] in ConnsOf(s, p[0]);
  }

  lemma SimpleFront(s: State, p: seq<NodeID>, a: NodeID, b: NodeID, i: nat)
    requires Simple(s, p, a, b) && i < |p|
    ensures Simple(s, p[..i + 1], a, p[i])
  {
    var t := p[..i + 1];
    forall k, l | 0 <= k && l == k + 1 && l < |t| ensures t[l] in ConnsOf(s, t[k]) {
      assert p[l] in ConnsOf(s, p[k]);
    }
  }

  function Reverse(q: seq<NodeID>): (r: seq<NodeID>)
    ensures |r| == |q| && forall i :: 0 <= i < |q| ==> r[i] == q[|q| - 1 - i]
  {
    seq(|q|, i requires 0 <= i < |q| => q[|q| - 1 - i])
  }

  /** There along one walk and back along the other. */
  lemma Join(s: State, comp: set<NodeID>, p: seq<NodeID>, q: seq<NodeID>, a: NodeID, b: NodeID) returns (c: seq<NodeID>)
    requires Component(s, comp) && a in comp && Simple(s, p, a, b) && Simple(s, q, a, b)
    requires |p| >= 2 && |q| >= 2 && p[1] != q[1]
    requires forall i, j :: 1 <= i < |p| && 1 <= j < |q| && p[i] == q[j] ==> i + j >= |p| + |q| - 2
    ensures Ring(s, c) && forall x :: x in c ==> x in p || x in q
  {
    var back := Reverse(q[1..|q| - 1]);
    c := p + back;
    StaysInside(s, comp, q, a, b);
    forall k | 0 <= k < |back| ensures back[k] == q[|q| - 2 - k] {}
    forall i, j | 0 <= i < |p| && 0 <= j < |back| ensures p[i] != back[j] {
      assert i == 0 ==> q[0] != q[|q| - 2 - j];
    }
    forall i | 0 <= i < |c| ensures Next(c, i) in ConnsOf(s, c[i]) {
      if i + 1 < |p| {
        assert p[i + 1] in ConnsOf(s, p[i]);
      } else {
        var j := |q| - 1 - (i + 1 - |p|);
        assert c[i] == q[j] && Next(c, i) == q[j - 1];
        assert q[j] in ConnsOf(s, q[j - 1]) && q[j - 1] in comp;
      }
    }
  }

  lemma {:induction false} StaysInside(s: State, comp: set<NodeID>, w: seq<NodeID>, a: NodeID, b: NodeID)
    requires Component(s, comp) && a in comp && Walk(s, w, a, b)
    ensures forall i :: 0 <= i < |w| ==> w[i] in comp
  {
    if |w| > 1 {
      assert w[1] in ConnsOf(s, w[0]);
      forall i, j | 0 <= i && j == i + 1 && j < |w[1..]| ensures w[1..][j] in ConnsOf(s, w[1..][i]) {
        assert w[j + 1] in ConnsOf(s, w[i + 1]);
      }
      StaysInside(s, comp, w[1..], w[1], b);
    }
  }

  // ---- From the source into the ring and round ----

  ghost function IndexOf(q: seq<NodeID>, x: NodeID): (i: nat)
    requires x in q
    ensures i < |q| && q[i] == x
  {
    var i :| 0 <= i < |q| && q[i] == x;
    i
  }

  ghost function RingEdges(c: seq<NodeID>): set<Edge> {
    set i | 0 <= i < |c| :: (c[i], Next(c, i))
  }

  function Hop(w: seq<NodeID>, i: nat): Edge
    requires i + 1 < |w|
  {
    (w[i], w[i + 1])
  }

  ghost function WalkEdges(w: seq<NodeID>): set<Edge> {
    set i | 0 <= i < |w| - 1 :: Hop(w, i)
  }

  /** A simple walk that meets the ring with its last node only. */
  ghost predicate LeadsInto(s: State, w: seq<NodeID>, c: seq<NodeID>) {
    && w != [] && Simple(s, w, w[0], w[|w| - 1]) && w[|w| - 1] in c
    && forall i :: 0 <= i < |w| - 1 ==> w[i] !in c
  }

  /** Where to go from a node: along the ring, or on towards it. */
  ghost function Onward(w: seq<NodeID>, c: seq<NodeID>, x: NodeID): NodeID {
    if x in c then Next(c, IndexOf(c, x))
    else if x in w && IndexOf(w, x) + 1 < |w| then w[IndexOf(w, x) + 1] else x
  }

  ghost function Lasso(w: seq<NodeID>, c: seq<NodeID>): Round {
    map t | t in RingEdges(c) + WalkEdges(w) :: Onward(w, c, t.1)
  }

  lemma RingGoesOn(s: State, w: seq<NodeID>, c: seq<NodeID>, i: nat)
    requires Ring(s, c) && i < |c|
    ensures var x := Next(c, i); var y := Onward(w, c, x);
            (x, y) in RingEdges(c) && y != c[i] && y in ConnsOf(s, x)
  {
    var j := if i + 1 < |c| then i + 1 else 0;
    assert IndexOf(c, c[j]) == j;
  }

  lemma WalkGoesOn(s: State, w: seq<NodeID>, c: seq<NodeID>, i: nat)
    requires Ring(s, c) && LeadsInto(s, w, c) && i < |w| - 1
    ensures var y := Onward(w, c, w[i + 1]);
            (w[i + 1], y) in RingEdges(c) + WalkEdges(w) && y != w[i] && y in ConnsOf(s, w[i + 1])
  {
    var x := w[i + 1];
    if i + 1 == |w| - 1 {
      var k := IndexOf(c, x);
      assert Next(c, k) in c && (c[k], Next(c, k)) in RingEdges(c);
    } else {
      assert IndexOf(w, x) == i + 1;
      assert Hop(w, i + 1) in WalkEdges(w);
    }
  }

  lemma LassoGoesOn(s: State, w: seq<NodeID>, c: seq<NodeID>, t: Edge)
    requires Ring(s, c) && LeadsInto(s, w, c) && t in RingEdges(c) + WalkEdges(w)
    ensures var y := Onward(w, c, t.1);
            (t.1, y) in RingEdges(c) + WalkEdges(w) && y != t.0 && y in ConnsOf(s, t.1)
  {
    if t in RingEdges(c) {
      var i :| 0 <= i < |c| && t == (c[i], Next(c, i));
      RingGoesOn(s, w, c, i);
    } else {
      var i :| 0 <= i < |w| - 1 && t == Hop(w, i);
      WalkGoesOn(s, w, c, i);
    }
  }

  lemma LassoIsEndless(s: State, w: seq<NodeID>, c: seq<NodeID>)
    requires Ring(s, c) && LeadsInto(s, w, c) && forall n :: PeersOf(s, n) == ConnsOf(s, n)
    ensures Endless(s, Lasso(w, c))
  {
    var e := Lasso(w, c);
    forall t {:trigger e[t]} | t in e ensures (t.1, e[t]) in e && e[t] != t.0 && e[t] in PeersOf(s, t.1) {
      LassoGoesOn(s, w, c, t);
    }
  }

  lemma LassoStarts(s: State, w: seq<NodeID>, c: seq<NodeID>) returns (v: NodeID)
    requires Ring(s, c) && LeadsInto(s, w, c)
    ensures (w[0], v) in Lasso(w, c) && v in ConnsOf(s, w[0])
  {
    if |w| == 1 {
      var k := IndexOf(c, w[0]);
      v := Next(c, k);
      assert (c[k], Next(c, k)) in RingEdges(c);
    } else {
      v := w[1];
      assert Hop(w, 0) in WalkEdges(w);
    }
  }

  lemma {:induction false} CutAtRing(s: State, w: seq<NodeID>, c: seq<NodeID>, from: NodeID, to: NodeID)
      returns (v: seq<NodeID>)
    requires Simple(s, w, from, to) && to in c
    ensures LeadsInto(s, v, c) && v[0] == from
    decreases |w|
  {
    if i :| 0 <= i < |w| - 1 && w[i] in c {
      SimpleFront(s, w, from, to, i);
      v := CutAtRing(s, w[..i + 1], c, from, w[i]);
    } else {
      v := w;
    }
  }

  ghost predicate Reaches(s: State, source: NodeID, comp: set<NodeID>) {
    forall x :: x in comp ==> exists w :: Walk(s, w, source, x)
  }

  /** The source has sent a copy to each of its neighbours; what else is in flight, and what
      the source still knows, does not matter. */
  ghost predicate Sends(s: State, source: NodeID, key: Key, o: NodeID) {
    forall v :: v in ConnsOf(s, source) ==> CopyTo(s, source, v, key, o)
  }

  ghost predicate CopyTo(s: State, source: NodeID, v: NodeID, key: Key, o: NodeID) {
    exists pk :: pk in s.inflight && Withdraws(pk, key, o) && pk.src == source && pk.dst == v
  }

  lemma StartedSends(s: State, source: NodeID, key: Key, o: NodeID)
    requires Started(s, source, key, o)
    ensures Sends(s, source, key, o) && CopiesInside(s, {source}, key, o)
  {
    forall v | v in ConnsOf(s, source) ensures CopyTo(s, source, v, key, o) {
      assert Pending(s.inflight, v, key, o);
    }
  }

  /** On links with a ring that the source reaches, no run of deliveries is the last: there
      is always a copy of the withdrawal on its way. */
  lemma RingsNeverQuiet(nets: Nets, s: State, acts: seq<Action>, source: NodeID, key: Key, o: NodeID,
                        c: seq<NodeID>, w: seq<NodeID>, to: NodeID)
    requires Sends(s, source, key, o) && forall n :: PeersOf(s, n) == ConnsOf(s, n)
    requires Ring(s, c) && Walk(s, w, source, to) && to in c
    requires AllDeliveries(nets, s, acts) && ValidRun(nets, s, acts)
    ensures !Quiet(Exec(nets, s, acts), key, o)
  {
    var simple := SimpleWalk(s, w, source, to);
    var v := CutAtRing(s, simple, c, source, to);
    LassoIsEndless(s, v, c);
    var x := LassoStarts(s, v, c);
    assert CopyTo(s, source, x, key, o);
    var pk :| pk in s.inflight && Withdraws(pk, key, o) && pk.src == source && pk.dst == x;
    assert Rides(pk, Lasso(v, c), key, o);
    CirclesForever(nets, s, acts, Lasso(v, c), key, o);
  }

  lemma LossSends(s: State, n: NodeID, peer: NodeID, lost: seq<Route>, targets: seq<NodeID>, rk: RouteKey)
    requires WfFib(TableOf(s, n)) && Lists(lost, Lost(TableOf(s, n), peer))
    requires Orders(targets, ConnsOf(s, n) - {peer})
    requires rk in TableOf(s, n) && (rk.nextHop == peer || rk.origin == peer)
    ensures Sends(Apply(s, PeerDown(n, peer, lost, targets)), n, rk.key, rk.origin)
  {
    var (s', r) := (Apply(s, PeerDown(n, peer, lost, targets)), TableOf(s, n)[rk]);
    assert r in lost by {
      assert Lost(TableOf(s, n), peer)[rk] == r && RK(r) == rk;
    }
    var k :| 0 <= k < |lost| && lost[k] == r;
    assert Withdrawals(lost)[k] == Withdrawal(r);
    FanAllMembers(n, Withdrawals(lost), targets);
    forall v | v in ConnsOf(s', n) ensures CopyTo(s', n, v, rk.key, rk.origin) {
      var pk := Packet(n, v, Withdrawal(r));
      assert pk in s'.inflight && Withdraws(pk, rk.key, rk.origin);
    }
  }

  /** Where redundant links are left after the loss of a peer, the withdrawals that it causes
      never die out, whatever other routes the node still has. */
  lemma PeerLossNeverQuiet(nets: Nets, s: State, n: NodeID, peer: NodeID, lost: seq<Route>, targets: seq<NodeID>,
                           rk: RouteKey, acts: seq<Action>, c: seq<NodeID>, w: seq<NodeID>, to: NodeID)
    requires WfFib(TableOf(s, n)) && (forall k :: PeersOf(s, k) == ConnsOf(s, k))
    requires Enabled(nets, s, PeerDown(n, peer, lost, targets))
    requires rk in TableOf(s, n) && (rk.nextHop == peer || rk.origin == peer)
    requires var s' := Apply(s, PeerDown(n, peer, lost, targets));
             && Ring(s', c) && Walk(s', w, n, to) && to in c
             && AllDeliveries(nets, s', acts) && ValidRun(nets, s', acts)
    ensures !Quiet(Exec(nets, Apply(s, PeerDown(n, peer, lost, targets)), acts), rk.key, rk.origin)
  {
    var s' := Apply(s, PeerDown(n, peer, lost, targets));
    LossSends(s, n, peer, lost, targets, rk);
    forall k ensures PeersOf(s', k) == ConnsOf(s', k) {
      assert PeersOf(s, k) == ConnsOf(s, k);
    }
    RingsNeverQuiet(nets, s', acts, n, rk.key, rk.origin, c, w, to);
  }

  // ---- On a tree every copy has a limited way to go ----

  /** A simple walk of n nodes whose first step is the link from u to v. */
  ghost predicate Onwards(s: State, u: NodeID, v: NodeID, n: nat) {
    exists p, x :: Simple(s, p, u, x) && |p| == n && n >= 2 && p[1] == v
  }

  /** The most nodes, up to max, of such a walk. */
  ghost function Depth(s: State, u: NodeID, v: NodeID, max: nat): (n: nat)
    ensures n <= max && (n > 0 ==> Onwards(s, u, v, n))
    ensures forall k: nat :: k <= max && Onwards(s, u, v, k) ==> k <= n
  {
    if max == 0 then 0
    else if Onwards(s, u, v, max) then max
    else Depth(s, u, v, max - 1)
  }

  lemma OnwardsBounded(s: State, comp: set<NodeID>, u: NodeID, v: NodeID, n: nat)
    requires Component(s, comp) && u in comp && Onwards(s, u, v, n)
    ensures n <= |comp|
  {
    var p, x :| Simple(s, p, u, x) && |p| == n && n >= 2 && p[1] == v;
    StaysInside(s, comp, p, u, x);
    NoDupBound(p, comp);
  }

  lemma LinkIsOnwards(s: State, u: NodeID, v: NodeID)
    requires v in ConnsOf(s, u) && u != v
    ensures Onwards(s, u, v, 2)
  {
    assert Simple(s, [u, v], u, v);
  }

  /** On a tree a simple walk that starts from v in another direction does not meet u. */
  lemma NotBack(s: State, comp: set<NodeID>, u: NodeID, v: NodeID, p: seq<NodeID>, y: NodeID)
    requires UniqueIn(s, comp) && v in comp && u in ConnsOf(s, v) && u != v
    requires Simple(s, p, v, y) && |p| >= 2 && p[1] != u
    ensures u !in p
  {
    assert Simple(s, [v, u], v, u);
    forall k | 0 <= k < |p| ensures p[k] != u {
      SimpleFront(s, p, v, y, k);
    }
  }

  /** On a tree the way on from v is shorter by a node than the way through v. */
  lemma OnwardsExtends(s: State, comp: set<NodeID>, u: NodeID, v: NodeID, x: NodeID, n: nat)
    requires TreeLinks(s, comp) && u in comp && v in ConnsOf(s, u) && x != u && Onwards(s, v, x, n)
    ensures Onwards(s, u, v, n + 1)
  {
    var p, y :| Simple(s, p, v, y) && |p| == n && n >= 2 && p[1] == x;
    NotBack(s, comp, u, v, p, y);
    var q := [u] + p;
    Longer(s, u, p, v, y);
    assert forall i :: 0 <= i < |p| ==> p[i] != u;
    assert Simple(s, q, u, y) && |q| == n + 1 && q[1] == v;
  }

  lemma DepthDrops(s: State, comp: set<NodeID>, u: NodeID, v: NodeID, x: NodeID)
    requires TreeLinks(s, comp) && u in comp && v in ConnsOf(s, u) && x in ConnsOf(s, v) && x != u
    ensures 2 <= Depth(s, v, x, |comp|) < Depth(s, u, v, |comp|)
  {
    var n := Depth(s, v, x, |comp|);
    LinkIsOnwards(s, v, x);
    OnwardsBounded(s, comp, v, x, 2);
    OnwardsExtends(s, comp, u, v, x, n);
    OnwardsBounded(s, comp, u, v, n + 1);
  }

  /** The most deliveries that the copies in flight can still cause, on the links of s. */
  ghost function CopyWeight(s: State, comp: set<NodeID>, pk: Packet, key: Key, o: NodeID): nat {
    if Withdraws(pk, key, o) then Pow(|Neighbours(s)| + 1, Depth(s, pk.src, pk.dst, |comp|)) else 0
  }

  ghost function Load(s: State, comp: set<NodeID>, q: seq<Packet>, key: Key, o: NodeID): nat {
    if q == [] then 0 else CopyWeight(s, comp, q[0], key, o) + Load(s, comp, q[1..], key, o)
  }

  lemma {:induction false} LoadSum(s: State, comp: set<NodeID>, p: seq<Packet>, q: seq<Packet>, key: Key, o: NodeID)
    ensures Load(s, comp, p + q, key, o) == Load(s, comp, p, key, o) + Load(s, comp, q, key, o)
  {
    if p == [] {
      assert p + q == q;
    } else {
      assert (p + q)[1..] == p[1..] + q;
      LoadSum(s, comp, p[1..], q, key, o);
    }
  }

  lemma LoadWithout(s: State, comp: set<NodeID>, q: seq<Packet>, i: nat, key: Key, o: NodeID)
    requires i < |q|
    ensures Load(s, comp, q, key, o) == Load(s, comp, Without(q, i), key, o) + CopyWeight(s, comp, q[i], key, o)
  {
    assert q == q[..i] + q[i..] && q[i..][1..] == q[i + 1..];
    LoadSum(s, comp, q[..i], q[i..], key, o);
    LoadSum(s, comp, q[..i], q[i + 1..], key, o);
  }

  lemma {:induction false} LoadBound(s: State, comp: set<NodeID>, q: seq<Packet>, w: nat, key: Key, o: NodeID)
    requires forall pk :: pk in q ==> CopyWeight(s, comp, pk, key, o) <= w
    ensures Load(s, comp, q, key, o) <= |q| * w
  {
    if q != [] {
      LoadBound(s, comp, q[1..], w, key, o);
      assert |q| * w == w + |q[1..]| * w;
    }
  }

  lemma {:induction false} PowMonotone(b: nat, j: nat, k: nat)
    requires j <= k && b > 0
    ensures Pow(b, j) <= Pow(b, k)
    decreases k
  {
    if j < k {
      PowMonotone(b, j, k - 1);
      MulMonotone(1, b, Pow(b, k - 1));
    }
  }

  lemma SameDepth(s: State, s': State, u: NodeID, v: NodeID, max: nat)
    requires s'.conns == s.conns
    ensures Depth(s', u, v, max) == Depth(s, u, v, max)
  {
    var (m, n) := (Depth(s, u, v, max), Depth(s', u, v, max));
    if m > 0 {
      SameOnwards(s, s', u, v, m);
    }
    if n > 0 {
      SameOnwards(s', s, u, v, n);
    }
  }

  lemma SameOnwards(s: State, s': State, u: NodeID, v: NodeID, n: nat)
    requires s'.conns == s.conns && Onwards(s, u, v, n)
    ensures Onwards(s', u, v, n)
  {
    var p, x :| Simple(s, p, u, x) && |p| == n && n >= 2 && p[1] == v;
    SameConns(s, s');
    SimpleAgree(s, s', p, u, x);
  }

  lemma {:induction false} SameLoad(s: State, s': State, comp: set<NodeID>, q: seq<Packet>, key: Key, o: NodeID)
    requires s'.conns == s.conns
    ensures Load(s', comp, q, key, o) == Load(s, comp, q, key, o)
  {
    if q != [] {
      SameDepth(s, s', q[0].src, q[0].dst, |comp|);
      SameLoad(s, s', comp, q[1..], key, o);
    }
  }

  /** Every copy in flight crosses a link of the component. */
  ghost predicate CopiesInside(s: State, comp: set<NodeID>, key: Key, o: NodeID) {
    forall pk :: pk in s.inflight && Withdraws(pk, key, o) ==> pk.src in comp && pk.dst in ConnsOf(s, pk.src)
  }

  lemma FanWeights(s: State, comp: set<NodeID>, pk: Packet, targets: seq<NodeID>, key: Key, o: NodeID, h: nat)
    requires TreeLinks(s, comp) && pk.src in comp && pk.dst in ConnsOf(s, pk.src)
    requires forall x :: x in targets ==> x in ConnsOf(s, pk.dst) && x != pk.src
    requires h + 1 == Depth(s, pk.src, pk.dst, |comp|)
    ensures forall c :: c in Fan(pk.dst, pk.msg, targets) ==>
              CopyWeight(s, comp, c, key, o) <= Pow(|Neighbours(s)| + 1, h)
  {
    FanMembers(pk.dst, pk.msg, targets);
    forall c | c in Fan(pk.dst, pk.msg, targets)
      ensures CopyWeight(s, comp, c, key, o) <= Pow(|Neighbours(s)| + 1, h)
    {
      DepthDrops(s, comp, pk.src, pk.dst, c.dst);
      PowMonotone(|Neighbours(s)| + 1, Depth(s, c.src, c.dst, |comp|), h);
    }
  }

  lemma FewTargets(s: State, n: NodeID, targets: seq<NodeID>)
    requires NoDup(targets) && forall x :: x in targets ==> x in ConnsOf(s, n)
    ensures |targets| <= |Neighbours(s)|
  {
    forall x | x in targets ensures x in Neighbours(s) {
      assert x in ConnsOf(s, n) && n in s.conns;
    }
    NoDupBound(targets, Neighbours(s));
  }

  lemma FanLoad(s: State, comp: set<NodeID>, pk: Packet, targets: seq<NodeID>, key: Key, o: NodeID)
    requires TreeLinks(s, comp) && Withdraws(pk, key, o) && pk.src in comp && pk.dst in ConnsOf(s, pk.src)
    requires NoDup(targets) && forall x :: x in targets ==> x in ConnsOf(s, pk.dst) && x != pk.src
    ensures Load(s, comp, Fan(pk.dst, pk.msg, targets), key, o) < CopyWeight(s, comp, pk, key, o)
  {
    var d := |Neighbours(s)|;
    DepthOfLink(s, comp, pk.src, pk.dst);
    var h := Depth(s, pk.src, pk.dst, |comp|) - 1;
    FanWeights(s, comp, pk, targets, key, o, h);
    FewTargets(s, pk.dst, targets);
    LoadBound(s, comp, Fan(pk.dst, pk.msg, targets), Pow(d + 1, h), key, o);
    LessThanOneMore(|targets|, d, h);
  }

  lemma DepthOfLink(s: State, comp: set<NodeID>, u: NodeID, v: NodeID)
    requires Component(s, comp) && u in comp && v in ConnsOf(s, u) && u != v
    ensures Depth(s, u, v, |comp|) >= 2
  {
    LinkIsOnwards(s, u, v);
    OnwardsBounded(s, comp, u, v, 2);
  }

  lemma LessThanOneMore(t: nat, d: nat, h: nat)
    requires t <= d
    ensures t * Pow(d + 1, h) < Pow(d + 1, h + 1)
  {
    MulMonotone(t, d, Pow(d + 1, h));
  }

  /** Delivering a copy lowers the load. */
  lemma CopyLowersLoad(s: State, i: nat, targets: seq<NodeID>, now: int, comp: set<NodeID>, key: Key, o: NodeID)
    requires TreeLinks(s, comp) && CopiesInside(s, comp, key, o) && i < |s.inflight|
    requires Withdraws(s.inflight[i], key, o)
    requires Orders(targets, PeersOf(s, s.inflight[i].dst) - {s.inflight[i].src})
    ensures Load(s, comp, Receive(s, i, targets, now).inflight, key, o) < Load(s, comp, s.inflight, key, o)
    ensures forall pk :: pk in Receive(s, i, targets, now).inflight && Withdraws(pk, key, o) ==>
              pk in s.inflight || (pk.src == s.inflight[i].dst && pk.dst in targets)
  {
    var pk := s.inflight[i];
    assert pk in s.inflight;
    ReceiveEffect(s, i, targets, now);
    FanLoad(s, comp, pk, targets, key, o);
    LoadWithout(s, comp, s.inflight, i, key, o);
    LoadSum(s, comp, Without(s.inflight, i), Fan(pk.dst, pk.msg, targets), key, o);
    FanMembers(pk.dst, pk.msg, targets);
  }

  /** Any other delivery leaves the load as it is. */
  lemma OtherKeepsLoad(s: State, i: nat, targets: seq<NodeID>, now: int, comp: set<NodeID>, key: Key, o: NodeID)
    requires i < |s.inflight| && !Withdraws(s.inflight[i], key, o)
    ensures Load(s, comp, Receive(s, i, targets, now).inflight, key, o) == Load(s, comp, s.inflight, key, o)
    ensures forall pk :: pk in Receive(s, i, targets, now).inflight && Withdraws(pk, key, o) ==> pk in s.inflight
  {
    var pk := s.inflight[i];
    ReceiveEffect(s, i, targets, now);
    HandleOther(pk.dst, TableOf(s, pk.dst), pk.src, pk.msg, now, key, o);
    LoadWithout(s, comp, s.inflight, i, key, o);
    var out := HandleMsg(pk.dst, TableOf(s, pk.dst), pk.src, pk.msg, now).1;
    if out.Some? {
      var fan := Fan(pk.dst, out.value, targets);
      FanMembers(pk.dst, out.value, targets);
      LoadBound(s, comp, fan, 0, key, o);
      LoadSum(s, comp, Without(s.inflight, i), fan, key, o);
    }
  }

  lemma CopiesStayInside(s: State, i: nat, targets: seq<NodeID>, now: int, comp: set<NodeID>, key: Key, o: NodeID)
    requires TreeLinks(s, comp) && CopiesInside(s, comp, key, o) && i < |s.inflight|
    requires Orders(targets, PeersOf(s, s.inflight[i].dst) - {s.inflight[i].src})
    ensures CopiesInside(Receive(s, i, targets, now), comp, key, o)
  {
    assert s.inflight[i] in s.inflight;
    ReceiveKeepsLinks(s, i, targets, now);
    SameConns(s, Receive(s, i, targets, now));
    if Withdraws(s.inflight[i], key, o) {
      CopyLowersLoad(s, i, targets, now, comp, key, o);
    } else {
      OtherKeepsLoad(s, i, targets, now, comp, key, o);
    }
  }

  lemma LoadStep(nets: Nets, s: State, a: Action, comp: set<NodeID>, key: Key, o: NodeID)
    requires TreeLinks(s, comp) && CopiesInside(s, comp, key, o) && a.Deliver? && Enabled(nets, s, a)
    ensures TreeLinks(Apply(s, a), comp) && CopiesInside(Apply(s, a), comp, key, o)
    ensures Load(Apply(s, a), comp, Apply(s, a).inflight, key, o)
            + (if Withdraws(s.inflight[a.i], key, o) then 1 else 0) <= Load(s, comp, s.inflight, key, o)
  {
    var s' := Receive(s, a.i, a.targets, a.now);
    LinksStay(nets, s, a, comp);
    CopiesStayInside(s, a.i, a.targets, a.now, comp, key, o);
    ReceiveKeepsLinks(s, a.i, a.targets, a.now);
    SameLoad(s, s', comp, s'.inflight, key, o);
    if Withdraws(s.inflight[a.i], key, o) {
      CopyLowersLoad(s, a.i, a.targets, a.now, comp, key, o);
    } else {
      OtherKeepsLoad(s, a.i, a.targets, a.now, comp, key, o);
    }
  }

  /** On a tree, whatever copies are in flight, every run delivers a bounded number of them. */
  lemma {:induction false} CopiesRunOut(nets: Nets, s: State, acts: seq<Action>, comp: set<NodeID>, key: Key, o: NodeID)
    requires TreeLinks(s, comp) && CopiesInside(s, comp, key, o) && AllDeliveries(nets, s, acts)
    ensures |Receivers(nets, s, acts, key, o)| <= Load(s, comp, s.inflight, key, o)
    decreases |acts|
  {
    if acts != [] {
      LoadStep(nets, s, acts[0], comp, key, o);
      CopiesRunOut(nets, Apply(s, acts[0]), acts[1..], comp, key, o);
    }
  }

  // ---- Delivering all copies on a tree ----

  lemma RunPrepend(nets: Nets, s: State, a: Action, rest: seq<Action>)
    requires a.Deliver? && Enabled(nets, s, a)
    requires AllDeliveries(nets, Apply(s, a), rest) && ValidRun(nets, Apply(s, a), rest)
    ensures AllDeliveries(nets, s, [a] + rest) && ValidRun(nets, s, [a] + rest)
    ensures Exec(nets, s, [a] + rest) == Exec(nets, Apply(s, a), rest)
  {
    assert ([a] + rest)[0] == a && ([a] + rest)[1..] == rest;
  }

  lemma CopyDelivery(nets: Nets, s: State, key: Key, o: NodeID) returns (a: Action)
    requires !Quiet(s, key, o)
    ensures a.Deliver? && Enabled(nets, s, a) && Withdraws(s.inflight[a.i], key, o)
    ensures forall pk :: pk in s.inflight && !Withdraws(pk, key, o) ==> pk in Apply(s, a).inflight
  {
    var i :| 0 <= i < |s.inflight| && Withdraws(s.inflight[i], key, o);
    var targets := SomeOrder(PeersOf(s, s.inflight[i].dst) - {s.inflight[i].src});
    forall pk | pk in s.inflight && !Withdraws(pk, key, o) ensures pk in Receive(s, i, targets, 0).inflight {
      OthersStay(s, i, targets, 0, pk);
    }
    a := Deliver(i, targets, 0);
  }

  /** Delivering the copies and nothing else comes to an end, with all the rest in flight. */
  lemma {:induction false} FinishCopies(nets: Nets, s: State, comp: set<NodeID>, key: Key, o: NodeID)
      returns (acts: seq<Action>)
    requires TreeLinks(s, comp) && CopiesInside(s, comp, key, o)
    ensures AllDeliveries(nets, s, acts) && ValidRun(nets, s, acts) && Quiet(Exec(nets, s, acts), key, o)
    ensures forall pk :: pk in s.inflight && !Withdraws(pk, key, o) ==> pk in Exec(nets, s, acts).inflight
    decreases Load(s, comp, s.inflight, key, o)
  {
    if Quiet(s, key, o) {
      acts := [];
    } else {
      var a := CopyDelivery(nets, s, key, o);
      LoadStep(nets, s, a, comp, key, o);
      var rest := FinishCopies(nets, Apply(s, a), comp, key, o);
      RunPrepend(nets, s, a, rest);
      acts := [a] + rest;
    }
  }

  ghost predicate CanEnd(nets: Nets, s: State, key: Key, o: NodeID) {
    exists acts :: AllDeliveries(nets, s, acts) && ValidRun(nets, s, acts) && Quiet(Exec(nets, s, acts), key, o)
  }

  /** The withdrawals of a route that a node sends to its neighbours die out if and only if
      the links around the node form a tree. On any other links every run of deliveries
      leaves a copy in flight. Neither what else is in flight nor what the node still knows
      matters, nor how many copies there are. */
  lemma DiesOutOnlyOnTrees(nets: Nets, s: State, source: NodeID, key: Key, o: NodeID, comp: set<NodeID>)
    requires SteadyLinks(s, comp) && source in comp && Reaches(s, source, comp)
    requires Sends(s, source, key, o) && CopiesInside(s, comp, key, o)
    ensures CanEnd(nets, s, key, o) <==> UniqueIn(s, comp)
  {
    if UniqueIn(s, comp) {
      var acts := FinishCopies(nets, s, comp, key, o);
    } else {
      var a, b, p, q :| a in comp && Simple(s, p, a, b) && Simple(s, q, a, b) && p != q;
      var c := WalksCloseRing(s, comp, p, q, a, b);
      StaysInside(s, comp, p, a, b);
      StaysInside(s, comp, q, a, b);
      assert c[0] in c;
      var w :| Walk(s, w, source, c[0]);
      forall acts | AllDeliveries(nets, s, acts) && ValidRun(nets, s, acts)
        ensures !Quiet(Exec(nets, s, acts), key, o)
      {
        RingsNeverQuiet(nets, s, acts, source, key, o, c, w, c[0]);
      }
    }
  }

  // ---- When a withdrawal is final ----

  ghost predicate Forgotten(s: State, comp: set<NodeID>, key: Key, o: NodeID) {
    forall v :: v in comp ==> !Holds(s, v, key, o)
  }

  ghost predicate EndsForgotten(nets: Nets, s: State, acts: seq<Action>, comp: set<NodeID>, key: Key, o: NodeID) {
    AllDeliveries(nets, s, acts) && ValidRun(nets, s, acts) && Quiet(Exec(nets, s, acts), key, o) ==>
      Forgotten(Exec(nets, s, acts), comp, key, o)
  }

  lemma AcceptedHolds(s: State, i: nat, targets: seq<NodeID>, now: int, key: Key, o: NodeID)
    requires i < |s.inflight| && Updates(s.inflight[i], key, o) && !Rejected(s.inflight[i]) && Quiet(s, key, o)
    ensures Holds(Receive(s, i, targets, now), s.inflight[i].dst, key, o)
    ensures Quiet(Receive(s, i, targets, now), key, o)
  {
    var pk := s.inflight[i];
    ReceiveEffect(s, i, targets, now);
    PutExtends(pk.dst, TableOf(s, pk.dst), Learn(pk.src, pk.msg), now);
    assert RouteKey(key, o, pk.src) in TableOf(Receive(s, i, targets, now), pk.dst);
    var out := HandleMsg(pk.dst, TableOf(s, pk.dst), pk.src, pk.msg, now).1;
    if out.Some? {
      FanMembers(pk.dst, out.value, targets);
    }
  }

  /** An update that somebody accepts can come after the last copy of the withdrawal. */
  lemma LateUpdate(nets: Nets, s: State, comp: set<NodeID>, key: Key, o: NodeID, pk: Packet) returns (acts: seq<Action>)
    requires TreeLinks(s, comp) && CopiesInside(s, comp, key, o)
    requires pk in s.inflight && Updates(pk, key, o) && pk.dst in comp && !Rejected(pk)
    ensures !EndsForgotten(nets, s, acts, comp, key, o)
  {
    var front := FinishCopies(nets, s, comp, key, o);
    var e := Exec(nets, s, front);
    assert pk in e.inflight;
    var i :| 0 <= i < |e.inflight| && e.inflight[i] == pk;
    var targets := SomeOrder(PeersOf(e, pk.dst) - {pk.src});
    AcceptedHolds(e, i, targets, 0, key, o);
    acts := DeliveryAppended(nets, s, front, Deliver(i, targets, 0));
  }

  lemma {:induction false} DeliveryAppended(nets: Nets, s: State, front: seq<Action>, a: Action)
      returns (acts: seq<Action>)
    requires AllDeliveries(nets, s, front) && ValidRun(nets, s, front)
    requires a.Deliver? && Enabled(nets, Exec(nets, s, front), a)
    ensures AllDeliveries(nets, s, acts) && ValidRun(nets, s, acts)
    ensures Exec(nets, s, acts) == Apply(Exec(nets, s, front), a)
    decreases |front|
  {
    if front == [] {
      acts := [a];
      OneStep(nets, s, a);
    } else {
      var rest := DeliveryAppended(nets, Apply(s, front[0]), front[1..], a);
      RunPrepend(nets, s, front[0], rest);
      acts := [front[0]] + rest;
    }
  }

  /** A withdrawal that has started on a tree is final, in the sense that nobody stores the
      route once all its copies are delivered, if and only if no update about the route that
      its receiver would accept was in flight when it started. */
  lemma FinalIff(nets: Nets, s: State, source: NodeID, key: Key, o: NodeID, comp: set<NodeID>)
    requires TreeLinks(s, comp) && source in comp && Reaches(s, source, comp) && Upstream(s, comp, comp)
    requires Started(s, source, key, o)
    ensures NoneAccepted(s.inflight, comp, key, o) <==>
              forall acts :: EndsForgotten(nets, s, acts, comp, key, o)
  {
    if NoneAccepted(s.inflight, comp, key, o) {
      forall acts ensures EndsForgotten(nets, s, acts, comp, key, o) {
        if AllDeliveries(nets, s, acts) && ValidRun(nets, s, acts) && Quiet(Exec(nets, s, acts), key, o) {
          WithdrawalFlood(nets, s, acts, source, key, o, comp, comp);
          forall v | v in comp ensures !Holds(Exec(nets, s, acts), v, key, o) {
            var w :| Walk(s, w, source, v);
          }
        }
      }
    } else {
      var pk :| pk in s.inflight && Updates(pk, key, o) && pk.dst in comp && !Rejected(pk);
      StartedSends(s, source, key, o);
      var acts := LateUpdate(nets, s, comp, key, o, pk);
    }
  }
}
