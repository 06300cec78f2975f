/** Route floods: every run of deliveries ends within an explicit bound, and when it has
    ended exactly the nodes within 31 links of an origin know its networks. */
module Flood {
  import opened Base
  import opened Addr
  import opened Table
  import opened WireRoute
  import opened Propagation
  import opened Network

  // ---- Termination ----

  function Pow(b: nat, e: nat): (r: nat)
    ensures b > 0 ==> r > 0
  {
    if e == 0 then 1 else b * Pow(b, e - 1)
  }

  /** The most deliveries that a message of len hops can still cause in a network whose
      nodes have at most d peers. */
  function Weight(d: nat, len: nat): nat {
    Pow(d + 1, if len >= MAX_HOPS then 0 else MAX_HOPS - len)
  }

  function PacketWeight(d: nat, pk: Packet): nat {
    if IsWithdrawal(pk.msg) then 0 else Weight(d, |pk.msg.path|)
  }

  function Measure(d: nat, q: seq<Packet>): nat {
    if q == [] then 0 else PacketWeight(d, q[0]) + Measure(d, q[1..])
  }

  lemma {:induction false} MeasureSum(d: nat, p: seq<Packet>, q: seq<Packet>)
    ensures Measure(d, p + q) == Measure(d, p) + Measure(d, q)
  {
    if p == [] {
      assert p + q == q;
    } else {
      assert (p + q)[1..] == p[1..] + q;
      MeasureSum(d, p[1..], q);
    }
  }

  lemma MeasureWithout(d: nat, q: seq<Packet>, i: nat)
    requires i < |q|
    ensures Measure(d, q) == Measure(d, Without(q, i)) + PacketWeight(d, q[i])
  {
    assert q == q[..i] + q[i..] && q[i..][1..] == q[i + 1..];
    MeasureSum(d, q[..i], q[i..]);
    MeasureSum(d, q[..i], q[i + 1..]);
  }

  lemma {:induction false} MeasureFan(d: nat, n: NodeID, m: RouteMessage, targets: seq<NodeID>)
    requires !IsWithdrawal(m)
    ensures Measure(d, Fan(n, m, targets)) == |targets| * Weight(d, |m.path|)
  {
    if targets != [] {
      MeasureFan(d, n, m, targets[1..]);
      assert Fan(n, m, targets)[1..] == Fan(n, m, targets[1..]);
      assert |targets| * Weight(d, |m.path|) == Weight(d, |m.path|) + |targets[1..]| * Weight(d, |m.path|);
    }
  }

  ghost predicate DegreeAtMost(s: State, d: nat) {
    forall n :: |PeersOf(s, n)| <= d
  }

  lemma TargetsBounded(nets: Nets, s: State, i: nat, targets: seq<NodeID>, now: int, d: nat)
    requires DegreeAtMost(s, d) && Enabled(nets, s, Deliver(i, targets, now))
    ensures |targets| <= d
  {
    NoDupBound(targets, PeersOf(s, s.inflight[i].dst));
  }

  /** Delivering an update strictly lowers the measure: it is replaced by at most d
      messages that are one hop longer, and nothing of 32 hops is passed on. */
  lemma DeliveryLowersMeasure(nets: Nets, s: State, i: nat, targets: seq<NodeID>, now: int, d: nat)
    requires DegreeAtMost(s, d) && Enabled(nets, s, Deliver(i, targets, now))
    requires !IsWithdrawal(s.inflight[i].msg)
    ensures Measure(d, Receive(s, i, targets, now).inflight) < Measure(d, s.inflight)
  {
    var pk := s.inflight[i];
    TargetsBounded(nets, s, i, targets, now, d);
    MeasureWithout(d, s.inflight, i);
    var out := HandleMsg(pk.dst, TableOf(s, pk.dst), pk.src, pk.msg, now).1;
    if out.Some? {
      var rest := Without(s.inflight, i);
      MeasureSum(d, rest, Fan(pk.dst, out.value, targets));
      MeasureFan(d, pk.dst, out.value, targets);
      var w := Weight(d, |out.value.path|);
      assert Weight(d, |pk.msg.path|) == (d + 1) * w;
      assert |targets| * w <= d * w by {
        MulMonotone(|targets|, d, w);
      }
    }
  }

  lemma MulMonotone(a: nat, b: nat, w: nat)
    requires a <= b
    ensures a * w <= b * w
  {
  }

  /** Only update deliveries happen: no origination, rebroadcast or withdrawal. */
  ghost predicate DeliveryRun(nets: Nets, s: State, acts: seq<Action>)
    decreases |acts|
  {
    acts == [] || (Enabled(nets, s, acts[0]) && acts[0].Deliver? && !IsWithdrawal(s.inflight[acts[0].i].msg)
                   && DeliveryRun(nets, Apply(s, acts[0]), acts[1..]))
  }

  lemma DegreeStays(nets: Nets, s: State, a: Action, d: nat)
    requires DegreeAtMost(s, d) && a.Deliver? && Enabled(nets, s, a)
    ensures DegreeAtMost(Apply(s, a), d)
  {
    ReceiveKeepsLinks(s, a.i, a.targets, a.now);
    forall n ensures |PeersOf(Apply(s, a), n)| <= d {
      assert PeersOf(Apply(s, a), n) == PeersOf(s, n);
    }
  }

  /** Every flood ends: from any state whatsoever, reachable or not, at most Measure
      deliveries follow one another, a bound computed from the messages in flight. */
  lemma {:induction false} FloodTerminates(nets: Nets, s: State, acts: seq<Action>, d: nat)
    requires DegreeAtMost(s, d) && DeliveryRun(nets, s, acts)
    ensures |acts| <= Measure(d, s.inflight)
    decreases |acts|
  {
    if acts != [] {
      var a := acts[0];
      DeliveryLowersMeasure(nets, s, a.i, a.targets, a.now, d);
      DegreeStays(nets, s, a, d);
      FloodTerminates(nets, Apply(s, a), acts[1..], d);
    }
  }

  // ---- Who is reached ----

  /** Static reliable links: every connection works both ways, every connected peer counts
      as alive, and no other link was ever there. */
  ghost predicate Static(s: State) {
    && (forall n :: PeersOf(s, n) == ConnsOf(s, n))
    && (forall a, b :: Linked(s.links, a, b) ==> b in ConnsOf(s, a))
  }

  predicate StaticAction(a: Action) {
    a.Originate? || a.Rebroadcast? || a.Deliver?
  }

  ghost predicate StaticRun(nets: Nets, s: State, acts: seq<Action>)
    decreases |acts|
  {
    acts == [] || (Enabled(nets, s, acts[0]) && StaticAction(acts[0])
                   && StaticRun(nets, Apply(s, acts[0]), acts[1..]))
  }

  ghost predicate Holds(s: State, n: NodeID, key: Key, origin: NodeID) {
    exists rk :: rk in TableOf(s, n) && rk.key == key && rk.origin == origin
  }

  /** The node announced the prefix with a path of at most max hops. */
  ghost predicate Told(s: State, n: NodeID, key: Key, origin: NodeID, max: nat) {
    exists len: nat :: Notice(n, key, origin, len) in s.announced && len <= max
  }

  ghost predicate IsUpdateFor(pk: Packet, n: NodeID, key: Key, origin: NodeID, max: nat) {
    pk.dst == n && KeyOf(pk.msg.prefix) == key && pk.msg.origin == origin && |pk.msg.path| <= max
  }

  ghost predicate Coming(s: State, n: NodeID, key: Key, origin: NodeID, max: nat) {
    exists pk :: pk in s.inflight && IsUpdateFor(pk, n, key, origin, max)
  }

  /** Every node of the path announced its own tail of it. */
  ghost predicate Trail(announced: set<Notice>, path: seq<NodeID>, key: Key, origin: NodeID) {
    forall i :: 0 <= i < |path| ==> Notice(path[i], key, origin, |path| - i) in announced
  }

  ghost predicate StillHeld(s: State) {
    forall t :: t in s.announced ==> Holds(s, t.node, t.key, t.origin)
  }

  ghost predicate StoredTrails(s: State) {
    forall n, rk :: rk in TableOf(s, n) ==> Trail(s.announced, [n] + TableOf(s, n)[rk].path, rk.key, rk.origin)
  }

  ghost predicate SentTrails(s: State) {
    forall pk :: pk in s.inflight ==>
      !IsWithdrawal(pk.msg) && Trail(s.announced, pk.msg.path, KeyOf(pk.msg.prefix), pk.msg.origin)
  }

  /** What a node announced, its neighbour announced no more than one hop longer, or is
      about to hear of. */
  ghost predicate Obliged(s: State, t: Notice, v: NodeID) {
    Told(s, v, t.key, t.origin, t.len + 1) || Coming(s, v, t.key, t.origin, t.len)
  }

  ghost predicate Spreading(s: State) {
    forall t, v :: t in s.announced && v in ConnsOf(s, t.node) && t.len < MAX_HOPS ==> Obliged(s, t, v)
  }

  ghost predicate FloodInv(s: State) {
    StillHeld(s) && StoredTrails(s) && SentTrails(s) && Spreading(s)
  }

  /** The table may have been refreshed or extended by the route r, but lost nothing. */
  ghost predicate Extends(fib: Fib, before: Fib, key: Key, origin: NodeID, path: seq<NodeID>) {
    && before.Keys <= fib.Keys
    && forall rk :: rk in fib ==>
         || (rk in before && fib[rk].path == before[rk].path)
         || (rk.key == key && rk.origin == origin && fib[rk].path == path)
  }

  /** Spreading with one packet missing: the one that node n just took, carrying path. */
  ghost predicate SpreadingBut(s: State, n: NodeID, key: Key, origin: NodeID, len: nat) {
    forall t, v :: t in s.announced && v in ConnsOf(s, t.node) && t.len < MAX_HOPS ==>
      Obliged(s, t, v) || (v == n && t.key == key && t.origin == origin && len <= t.len)
  }

  lemma TookPacket(s: State, i: nat)
    requires FloodInv(s) && i < |s.inflight|
    ensures var pk := s.inflight[i];
            SpreadingBut(s.(inflight := Without(s.inflight, i)), pk.dst, KeyOf(pk.msg.prefix),
                         pk.msg.origin, |pk.msg.path|)
  {
    var pk, s1 := s.inflight[i], s.(inflight := Without(s.inflight, i));
    forall t, v | t in s1.announced && v in ConnsOf(s1, t.node) && t.len < MAX_HOPS
      ensures Obliged(s1, t, v) || (v == pk.dst && t.key == KeyOf(pk.msg.prefix) && t.origin == pk.msg.origin
                                    && |pk.msg.path| <= t.len)
    {
      assert Obliged(s, t, v) && ConnsOf(s, t.node) == ConnsOf(s1, t.node);
      if Told(s, v, t.key, t.origin, t.len + 1) {
        assert Told(s1, v, t.key, t.origin, t.len + 1);
      } else {
        var p :| p in s.inflight && IsUpdateFor(p, v, t.key, t.origin, t.len);
        var j :| 0 <= j < |s.inflight| && s.inflight[j] == p;
        if j != i {
          assert p in s1.inflight by {
            assert j < i ==> s1.inflight[j] == p;
            assert j > i ==> s1.inflight[j - 1] == p;
          }
        }
      }
    }
  }

  /** A node puts a route in its table and announces it to all connections but those that
      already announced it themselves: this completes the spreading. */
  lemma AnnounceSpreads(s: State, n: NodeID, fib: Fib, r: Route, targets: seq<NodeID>)
    requires StillHeld(s) && StoredTrails(s) && SentTrails(s)
    requires SpreadingBut(s, n, KeyOf(r.dest), r.origin, |r.path|)
    requires Extends(fib, TableOf(s, n), KeyOf(r.dest), r.origin, r.path)
    requires exists rk :: rk in fib && rk.key == KeyOf(r.dest) && rk.origin == r.origin
    requires Trail(s.announced, r.path, KeyOf(r.dest), r.origin)
    requires forall v :: v in ConnsOf(s, n) && v !in targets ==> Told(s, v, KeyOf(r.dest), r.origin, |r.path| + 2)
    ensures FloodInv(Announce(s.(fibs := s.fibs[n := fib]), n, Advert(n, r), targets))
  {
    var s1 := s.(fibs := s.fibs[n := fib]);
    var s' := Announce(s1, n, Advert(n, r), targets);
    var (key, o) := (KeyOf(r.dest), r.origin);
    forall m ensures TableOf(s', m) == (if m == n then fib else TableOf(s, m)) {}
    FanMembers(n, Advert(n, r), targets);
    TrailLonger(s.announced, s'.announced, n, r.path, key, o);
    HoldsAfter(s, s', n, fib, key, o, r.path);
    TrailsAfter(s, s', n, fib, key, o, r.path);
    SameConns(s, s');
    forall t, v | t in s'.announced && v in ConnsOf(s', t.node) && t.len < MAX_HOPS ensures Obliged(s', t, v) {
      if t in s.announced {
        ObligedAfter(s, s', t, v, n, key, o, |r.path|);
      } else {
        FreshNoticeObliged(s, s', t, v, n, r, targets);
      }
    }
  }

  lemma TrailLonger(before: set<Notice>, after: set<Notice>, n: NodeID, path: seq<NodeID>, key: Key, o: NodeID)
    requires before <= after && Trail(before, path, key, o) && Notice(n, key, o, |path| + 1) in after
    ensures Trail(after, [n] + path, key, o)
  {
    var p := [n] + path;
    forall i | 0 <= i < |p| ensures Notice(p[i], key, o, |p| - i) in after {
      if i > 0 {
        assert p[i] == path[i - 1];
      }
    }
  }

  /** The newly announced notice: each neighbour is either addressed or told already. */
  lemma FreshNoticeObliged(s: State, s': State, t: Notice, v: NodeID, n: NodeID, r: Route, targets: seq<NodeID>)
    requires t == Notice(n, KeyOf(r.dest), r.origin, |r.path| + 1) && s.announced <= s'.announced
    requires v !in targets ==> Told(s, v, KeyOf(r.dest), r.origin, |r.path| + 2)
    requires v in targets ==> Packet(n, v, Advert(n, r)) in s'.inflight
    ensures Obliged(s', t, v)
  {
    if v in targets {
      assert IsUpdateFor(Packet(n, v, Advert(n, r)), v, t.key, t.origin, t.len);
    } else {
      var len: nat :| Notice(v, t.key, t.origin, len) in s.announced && len <= |r.path| + 2;
      assert Notice(v, t.key, t.origin, len) in s'.announced;
    }
  }

  lemma HoldsAfter(s: State, s': State, n: NodeID, fib: Fib, key: Key, o: NodeID, path: seq<NodeID>)
    requires StillHeld(s) && Extends(fib, TableOf(s, n), key, o, path)
    requires exists rk :: rk in fib && rk.key == key && rk.origin == o
    requires forall m :: TableOf(s', m) == if m == n then fib else TableOf(s, m)
    requires forall t :: t in s'.announced ==> t in s.announced || (t.node == n && t.key == key && t.origin == o)
    ensures StillHeld(s')
  {
    forall t | t in s'.announced ensures Holds(s', t.node, t.key, t.origin) {
      if t in s.announced {
        var rk :| rk in TableOf(s, t.node) && rk.key == t.key && rk.origin == t.origin;
        assert rk in TableOf(s', t.node);
      }
    }
  }

  lemma TrailsAfter(s: State, s': State, n: NodeID, fib: Fib, key: Key, o: NodeID, path: seq<NodeID>)
    requires StoredTrails(s) && s.announced <= s'.announced && Extends(fib, TableOf(s, n), key, o, path)
    requires Trail(s'.announced, [n] + path, key, o)
    requires forall m :: TableOf(s', m) == if m == n then fib else TableOf(s, m)
    ensures StoredTrails(s')
  {
    forall m, rk | rk in TableOf(s', m)
      ensures Trail(s'.announced, [m] + TableOf(s', m)[rk].path, rk.key, rk.origin)
    {
      if rk in TableOf(s, m) && TableOf(s', m)[rk].path == TableOf(s, m)[rk].path {
        assert Trail(s.announced, [m] + TableOf(s, m)[rk].path, rk.key, rk.origin);
      }
    }
  }

  lemma ObligedAfter(s: State, s': State, t: Notice, v: NodeID, n: NodeID, key: Key, o: NodeID, len: nat)
    requires s.announced <= s'.announced && forall pk :: pk in s.inflight ==> pk in s'.inflight
    requires Obliged(s, t, v) || (v == n && t.key == key && t.origin == o && len <= t.len)
    requires Notice(n, key, o, len + 1) in s'.announced
    ensures Obliged(s', t, v)
  {
    if Told(s, v, t.key, t.origin, t.len + 1) {
      var l: nat :| Notice(v, t.key, t.origin, l) in s.announced && l <= t.len + 1;
      assert Notice(v, t.key, t.origin, l) in s'.announced;
    } else if Coming(s, v, t.key, t.origin, t.len) {
      var p :| p in s.inflight && IsUpdateFor(p, v, t.key, t.origin, t.len);
      assert p in s'.inflight;
    }
  }

  /** A delivery that announces nothing is harmless when the node already announced the
      route no more than one hop longer, or when the path is at the hop limit. */
  lemma SilentDelivery(s: State, i: nat, fib: Fib)
    requires FloodInv(s) && i < |s.inflight|
    requires var pk := s.inflight[i];
             && fib.Keys == TableOf(s, pk.dst).Keys
             && (forall rk :: rk in fib ==> fib[rk].path == TableOf(s, pk.dst)[rk].path)
             && (|pk.msg.path| < MAX_HOPS ==>
                   Told(s, pk.dst, KeyOf(pk.msg.prefix), pk.msg.origin, |pk.msg.path| + 1))
    ensures FloodInv(s.(fibs := s.fibs[s.inflight[i].dst := fib], inflight := Without(s.inflight, i)))
  {
    var pk := s.inflight[i];
    var (n, key, o, len) := (pk.dst, KeyOf(pk.msg.prefix), pk.msg.origin, |pk.msg.path|);
    var s1 := s.(inflight := Without(s.inflight, i));
    var s' := s.(fibs := s.fibs[n := fib], inflight := Without(s.inflight, i));
    TookPacket(s, i);
    forall m ensures TableOf(s', m) == (if m == n then fib else TableOf(s, m)) && ConnsOf(s', m) == ConnsOf(s1, m) {}
    forall t | t in s'.announced ensures Holds(s', t.node, t.key, t.origin) {
      var rk :| rk in TableOf(s, t.node) && rk.key == t.key && rk.origin == t.origin;
      assert rk in TableOf(s', t.node);
    }
    forall t, v | t in s'.announced && v in ConnsOf(s', t.node) && t.len < MAX_HOPS ensures Obliged(s', t, v) {
      if v == n && t.key == key && t.origin == o && len <= t.len {
        var l: nat :| Notice(n, key, o, l) in s.announced && l <= len + 1;
        assert Notice(v, t.key, t.origin, l) in s'.announced;
      } else {
        assert Obliged(s1, t, v);
        assert Told(s1, v, t.key, t.origin, t.len + 1) ==> Told(s', v, t.key, t.origin, t.len + 1);
        assert Coming(s1, v, t.key, t.origin, t.len) ==> Coming(s', v, t.key, t.origin, t.len);
      }
    }
  }

  lemma LoopedDelivery(s: State, i: nat)
    requires FloodInv(s) && i < |s.inflight| && s.inflight[i].dst in s.inflight[i].msg.path
    ensures var pk := s.inflight[i];
            FloodInv(s.(fibs := s.fibs[pk.dst := TableOf(s, pk.dst)], inflight := Without(s.inflight, i)))
  {
    var pk := s.inflight[i];
    var path := pk.msg.path;
    assert pk in s.inflight && Trail(s.announced, path, KeyOf(pk.msg.prefix), pk.msg.origin);
    var j :| 0 <= j < |path| && path[j] == pk.dst;
    assert Notice(path[j], KeyOf(pk.msg.prefix), pk.msg.origin, |path| - j) in s.announced;
    SilentDelivery(s, i, TableOf(s, pk.dst));
  }

  lemma DuplicateDelivery(nets: Nets, s: State, i: nat, now: int)
    requires FloodInv(s) && i < |s.inflight|
    requires var pk := s.inflight[i]; var rk := RK(Learn(pk.src, pk.msg));
             && PacketOk(nets, s.links, pk) && rk in TableOf(s, pk.dst) && !IsWithdrawal(pk.msg)
             && RouteOk(nets, s.links, pk.dst, TableOf(s, pk.dst)[rk])
             && TableOf(s, pk.dst)[rk].cost == Learn(pk.src, pk.msg).cost && |pk.msg.path| < MAX_HOPS
    ensures var pk := s.inflight[i]; var rk := RK(Learn(pk.src, pk.msg)); var fib := TableOf(s, pk.dst);
            FloodInv(s.(fibs := s.fibs[pk.dst := fib[rk := fib[rk].(stamp := now)]],
                        inflight := Without(s.inflight, i)))
  {
    var pk := s.inflight[i];
    var rk, fib := RK(Learn(pk.src, pk.msg)), TableOf(s, pk.dst);
    var p := [pk.dst] + fib[rk].path;
    assert Trail(s.announced, p, rk.key, rk.origin);
    assert Notice(p[0], rk.key, rk.origin, |p| - 0) in s.announced;
    SilentDelivery(s, i, fib[rk := fib[rk].(stamp := now)]);
  }

  lemma AcceptedDelivery(nets: Nets, s: State, i: nat, fib: Fib, targets: seq<NodeID>)
    requires FloodInv(s) && i < |s.inflight|
    requires var pk := s.inflight[i]; var r := Learn(pk.src, pk.msg);
             && PacketOk(nets, s.links, pk) && RK(r) in fib && !IsWithdrawal(pk.msg)
             && Extends(fib, TableOf(s, pk.dst), KeyOf(r.dest), r.origin, r.path)
             && forall v :: v in ConnsOf(s, pk.dst) && v !in targets ==> v == pk.src
    ensures var pk := s.inflight[i];
            FloodInv(Announce(s.(fibs := s.fibs[pk.dst := fib], inflight := Without(s.inflight, i)),
                              pk.dst, Advert(pk.dst, Learn(pk.src, pk.msg)), targets))
  {
    var pk := s.inflight[i];
    var r, path := Learn(pk.src, pk.msg), pk.msg.path;
    TookPacket(s, i);
    assert pk in s.inflight && Trail(s.announced, path, KeyOf(r.dest), r.origin);
    assert Notice(path[0], KeyOf(r.dest), r.origin, |path| - 0) in s.announced;
    var s0 := s.(inflight := Without(s.inflight, i));
    SameFields(s, s0);
    assert SentTrails(s0);
    forall v | v in ConnsOf(s0, pk.dst) && v !in targets
      ensures Told(s0, v, KeyOf(r.dest), r.origin, |r.path| + 2)
    {
      assert v == pk.src == path[0];
    }
    AnnounceSpreads(s0, pk.dst, fib, r, targets);
  }

  lemma PutExtends(self: NodeID, fib: Fib, r: Route, now: int)
    requires self !in r.path
    ensures Extends(Put(self, fib, r, now).0, fib, KeyOf(r.dest), r.origin, r.path)
    ensures RK(r) in Put(self, fib, r, now).0
  {
  }

  lemma InvAt(nets: Nets, s: State, pk: Packet)
    requires Inv(nets, s) && pk in s.inflight
    ensures PacketOk(nets, s.links, pk)
    ensures WfFib(TableOf(s, pk.dst))
    ensures forall rk :: rk in TableOf(s, pk.dst) ==> RouteOk(nets, s.links, pk.dst, TableOf(s, pk.dst)[rk])
  {
    assert FibOk(nets, s.links, pk.dst, TableOf(s, pk.dst));
  }

  lemma DeliveryKeepsFlood(nets: Nets, s: State, i: nat, targets: seq<NodeID>, now: int)
    requires Inv(nets, s) && Static(s) && FloodInv(s) && Enabled(nets, s, Deliver(i, targets, now))
    ensures FloodInv(Receive(s, i, targets, now))
  {
    var pk := s.inflight[i];
    InvAt(nets, s, pk);
    assert pk in s.inflight && PeersOf(s, pk.dst) == ConnsOf(s, pk.dst);
    DeliveryCases(nets, s, i, targets, now);
  }

  lemma DeliveryCases(nets: Nets, s: State, i: nat, targets: seq<NodeID>, now: int)
    requires FloodInv(s) && i < |s.inflight|
    requires var pk := s.inflight[i];
             && PacketOk(nets, s.links, pk) && !IsWithdrawal(pk.msg) && WfFib(TableOf(s, pk.dst))
             && (forall rk :: rk in TableOf(s, pk.dst) ==> RouteOk(nets, s.links, pk.dst, TableOf(s, pk.dst)[rk]))
             && Orders(targets, ConnsOf(s, pk.dst) - {pk.src})
    ensures FloodInv(Receive(s, i, targets, now))
  {
    var pk := s.inflight[i];
    var (n, fib, r) := (pk.dst, TableOf(s, pk.dst), Learn(pk.src, pk.msg));
    if n in pk.msg.path {
      LoopedDelivery(s, i);
    } else if |pk.msg.path| >= MAX_HOPS {
      SilentDelivery(s, i, fib);
    } else if Put(n, fib, r, now).1 {
      PutExtends(n, fib, r, now);
      AcceptedDelivery(nets, s, i, Put(n, fib, r, now).0, targets);
    } else {
      DuplicateDelivery(nets, s, i, now);
    }
  }

  /** Predicates about tables and announcements do not see the messages in flight. */
  lemma SameFields(s: State, s': State)
    requires s'.fibs == s.fibs && s'.announced == s.announced && s'.conns == s.conns && s'.alive == s.alive
    ensures StillHeld(s) ==> StillHeld(s')
    ensures StoredTrails(s) ==> StoredTrails(s')
    ensures forall n :: TableOf(s', n) == TableOf(s, n) && ConnsOf(s', n) == ConnsOf(s, n)
                        && PeersOf(s', n) == PeersOf(s, n)
  {
    forall n ensures TableOf(s', n) == TableOf(s, n) {}
    if StillHeld(s) {
      forall t | t in s'.announced ensures Holds(s', t.node, t.key, t.origin) {
        assert Holds(s, t.node, t.key, t.origin);
      }
    }
  }

  lemma OriginationKeepsFlood(nets: Nets, s: State, n: NodeID, net: IPNet, targets: seq<NodeID>, now: int)
    requires FloodInv(s) && Enabled(nets, s, Originate(n, net, targets, now))
    ensures FloodInv(Apply(s, Originate(n, net, targets, now)))
    ensures Notice(n, KeyOf(net), n, 1) in Apply(s, Originate(n, net, targets, now)).announced
  {
    var r := LocalRoute(n, net);
    var fib := Put(n, TableOf(s, n), r, now).0;
    assert RK(r) in fib;
    AnnounceSpreads(s, n, fib, r, targets);
  }

  lemma RebroadcastKeepsFlood(s: State, n: NodeID, rk: RouteKey, targets: seq<NodeID>)
    requires FloodInv(s) && rk in TableOf(s, n) && RK(TableOf(s, n)[rk]) == rk
    requires forall v :: v in ConnsOf(s, n) ==> v in targets
    ensures FloodInv(Announce(s, n, Advert(n, TableOf(s, n)[rk]), targets))
  {
    var fib := TableOf(s, n);
    var r := fib[rk];
    var p := [n] + r.path;
    assert Trail(s.announced, p, rk.key, rk.origin);
    forall i | 0 <= i < |r.path| ensures Notice(r.path[i], rk.key, rk.origin, |r.path| - i) in s.announced {
      assert r.path[i] == p[i + 1];
    }
    AnnounceSpreads(s, n, fib, r, targets);
    assert s.fibs[n := fib] == s.fibs;
  }

  lemma StaticStays(nets: Nets, s: State, a: Action)
    requires Static(s) && Enabled(nets, s, a) && StaticAction(a)
    ensures Static(Apply(s, a)) && s.announced <= Apply(s, a).announced
    ensures forall n :: ConnsOf(Apply(s, a), n) == ConnsOf(s, n)
  {
    var s' := Apply(s, a);
    forall n ensures PeersOf(s', n) == PeersOf(s, n) && ConnsOf(s', n) == ConnsOf(s, n) {}
  }

  lemma StaticStep(nets: Nets, s: State, a: Action)
    requires Inv(nets, s) && Static(s) && FloodInv(s) && Enabled(nets, s, a) && StaticAction(a)
    ensures FloodInv(Apply(s, a))
  {
    match a {
      case Originate(n, net, targets, now) => OriginationKeepsFlood(nets, s, n, net, targets, now);
      case Rebroadcast(n, rk, targets) =>
        assert FibOk(nets, s.links, n, TableOf(s, n));
        RebroadcastKeepsFlood(s, n, rk, targets);
      case Deliver(i, targets, now) => DeliveryKeepsFlood(nets, s, i, targets, now);
    }
  }

  ghost predicate Originates(acts: seq<Action>, o: NodeID, net: IPNet)
    ensures Originates(acts, o, net) ==> acts != []
  {
    exists i :: 0 <= i < |acts| && acts[i].Originate? && acts[i].n == o && acts[i].net == net
  }

  lemma StaticStepKeeps(nets: Nets, s: State, a: Action)
    requires Inv(nets, s) && Static(s) && FloodInv(s) && Enabled(nets, s, a) && StaticAction(a)
    ensures var s' := Apply(s, a);
            && Inv(nets, s') && Static(s') && FloodInv(s') && s.announced <= s'.announced
            && (forall n :: ConnsOf(s', n) == ConnsOf(s, n))
  {
    StepKeepsInv(nets, s, a);
    StaticStep(nets, s, a);
    StaticStays(nets, s, a);
  }

  lemma {:induction false} StaticRunKeeps(nets: Nets, s: State, acts: seq<Action>)
    requires Inv(nets, s) && Static(s) && FloodInv(s)
    requires StaticRun(nets, s, acts) && ValidRun(nets, s, acts)
    ensures var e := Exec(nets, s, acts);
            && Inv(nets, e) && Static(e) && FloodInv(e) && s.announced <= e.announced
            && (forall n :: ConnsOf(e, n) == ConnsOf(s, n))
    decreases |acts|
  {
    if acts != [] {
      StaticStepKeeps(nets, s, acts[0]);
      StaticRunKeeps(nets, Apply(s, acts[0]), acts[1..]);
    }
  }

  lemma OriginFirst(nets: Nets, s: State, acts: seq<Action>)
    requires Inv(nets, s) && Static(s) && FloodInv(s) && acts != [] && acts[0].Originate?
    requires StaticRun(nets, s, acts) && ValidRun(nets, s, acts)
    ensures Notice(acts[0].n, KeyOf(acts[0].net), acts[0].n, 1) in Exec(nets, s, acts).announced
  {
    var a := acts[0];
    StaticStepKeeps(nets, s, a);
    OriginationKeepsFlood(nets, s, a.n, a.net, a.targets, a.now);
    StaticRunKeeps(nets, Apply(s, a), acts[1..]);
  }

  lemma OriginatesLater(acts: seq<Action>, o: NodeID, net: IPNet)
    requires Originates(acts, o, net) && !(acts[0].Originate? && acts[0].n == o && acts[0].net == net)
    ensures Originates(acts[1..], o, net)
  {
    var i :| 0 <= i < |acts| && acts[i].Originate? && acts[i].n == o && acts[i].net == net;
    assert acts[1..][i - 1] == acts[i];
  }

  lemma {:induction false} OriginsAnnounced(nets: Nets, s: State, acts: seq<Action>, o: NodeID, net: IPNet)
    requires Inv(nets, s) && Static(s) && FloodInv(s)
    requires StaticRun(nets, s, acts) && ValidRun(nets, s, acts) && Originates(acts, o, net)
    ensures Notice(o, KeyOf(net), o, 1) in Exec(nets, s, acts).announced
    decreases |acts|
  {
    if acts[0].Originate? && acts[0].n == o && acts[0].net == net {
      OriginFirst(nets, s, acts);
    } else {
      StaticStepKeeps(nets, s, acts[0]);
      OriginatesLater(acts, o, net);
      OriginsAnnounced(nets, Apply(s, acts[0]), acts[1..], o, net);
    }
  }

  ghost predicate Walk(s: State, w: seq<NodeID>, from: NodeID, to: NodeID) {
    && w != [] && w[0] == from && w[|w| - 1] == to
    && forall i, j :: 0 <= i && j == i + 1 && j < |w| ==> w[j] in ConnsOf(s, w[i])
  }

  lemma Longer(s: State, v: NodeID, p: seq<NodeID>, u: NodeID, o: NodeID)
    requires Walk(s, p, u, o)
    ensures u in ConnsOf(s, v) ==> Walk(s, [v] + p, v, o)
  {
    var w := [v] + p;
    if u in ConnsOf(s, v) {
      forall i, j | 0 <= i && j == i + 1 && j < |w| ensures w[j] in ConnsOf(s, w[i]) {
        if i > 0 {
          assert p[j - 1] in ConnsOf(s, p[i - 1]);
        }
      }
    }
  }

  /** With nothing left in flight, the news has travelled the whole walk. */
  lemma {:induction false} NewsTravels(s: State, w: seq<NodeID>, from: NodeID, key: Key, o: NodeID)
    requires Static(s) && LinksCover(s) && FloodInv(s) && s.inflight == [] && Notice(o, key, o, 1) in s.announced
    requires Walk(s, w, from, o) && |w| <= MAX_HOPS
    ensures Told(s, from, key, o, |w|)
  {
    if |w| == 1 {
      assert Told(s, o, key, o, 1);
    } else {
      assert w[1] in ConnsOf(s, w[0]);
      assert Linked(s.links, w[1], w[0]);
      forall i, j | 0 <= i && j == i + 1 && j < |w[1..]| ensures w[1..][j] in ConnsOf(s, w[1..][i]) {
        assert w[j + 1] in ConnsOf(s, w[i + 1]);
      }
      NewsTravels(s, w[1..], w[1], key, o);
      var len: nat :| Notice(w[1], key, o, len) in s.announced && len <= |w| - 1;
      assert Obliged(s, Notice(w[1], key, o, len), w[0]);
      var l: nat :| Notice(w[0], key, o, l) in s.announced && l <= len + 1;
      assert Told(s, from, key, o, |w|);
    }
  }

  /** A stored route is evidence of a walk of at most 31 links to its origin. */
  lemma HeldImpliesWalk(nets: Nets, s: State, v: NodeID, key: Key, o: NodeID) returns (w: seq<NodeID>)
    requires Inv(nets, s) && Static(s) && Holds(s, v, key, o)
    ensures Walk(s, w, v, o) && |w| <= MAX_HOPS
  {
    var rk :| rk in TableOf(s, v) && rk.key == key && rk.origin == o;
    assert FibOk(nets, s.links, v, TableOf(s, v));
    var r := TableOf(s, v)[rk];
    w := [v] + r.path;
    forall i, j | 0 <= i && j == i + 1 && j < |w| ensures w[j] in ConnsOf(s, w[i]) {
      if i > 0 {
        assert w[i] == r.path[i - 1] && w[j] == r.path[j - 1];
      } else {
        assert Linked(s.links, w[i], w[j]);
      }
    }
  }

  lemma QuietStateIsExact(nets: Nets, s: State, v: NodeID, key: Key, o: NodeID)
    requires Inv(nets, s) && Static(s) && FloodInv(s) && s.inflight == [] && Notice(o, key, o, 1) in s.announced
    ensures Holds(s, v, key, o) <==> exists w :: Walk(s, w, v, o) && |w| <= MAX_HOPS
  {
    if Holds(s, v, key, o) {
      var w := HeldImpliesWalk(nets, s, v, key, o);
    }
    if w :| Walk(s, w, v, o) && |w| <= MAX_HOPS {
      NewsTravels(s, w, v, key, o);
      var len: nat :| Notice(v, key, o, len) in s.announced;
      assert Holds(s, Notice(v, key, o, len).node, key, o);
    }
  }

  lemma WalksAgree(s: State, s': State, from: NodeID, to: NodeID)
    requires forall n :: ConnsOf(s', n) == ConnsOf(s, n)
    ensures forall w :: Walk(s', w, from, to) <==> Walk(s, w, from, to)
  {
  }

  /** Once an origin has advertised a network over static links and no update is in
      flight, a node holds a route to it if and only if some walk of at most 31 links leads
      from the node to the origin. This holds on every graph, for every delivery order and
      any number of rebroadcasts: split horizon, loop rejection, suppressed duplicates and
      the hop limit starve no node that the limit itself does not exclude. */
  lemma FloodReachesExactly(nets: Nets, s0: State, acts: seq<Action>, o: NodeID, net: IPNet, v: NodeID)
    requires Init(s0) && Static(s0) && StaticRun(nets, s0, acts) && ValidRun(nets, s0, acts)
    requires Originates(acts, o, net) && Exec(nets, s0, acts).inflight == []
    ensures Holds(Exec(nets, s0, acts), v, KeyOf(net), o) <==>
              exists w :: Walk(s0, w, v, o) && |w| <= MAX_HOPS
  {
    var s := EndOfRun(nets, s0, acts, o, net);
    QuietStateIsExact(nets, s, v, KeyOf(net), o);
    WalksAgree(s0, s, v, o);
  }

  lemma EndOfRun(nets: Nets, s0: State, acts: seq<Action>, o: NodeID, net: IPNet) returns (s: State)
    requires Init(s0) && Static(s0) && StaticRun(nets, s0, acts) && ValidRun(nets, s0, acts)
    requires Originates(acts, o, net)
    ensures s == Exec(nets, s0, acts)
    ensures Inv(nets, s) && Static(s) && FloodInv(s) && Notice(o, KeyOf(net), o, 1) in s.announced
    ensures forall n :: ConnsOf(s, n) == ConnsOf(s0, n)
  {
    InitialInvariants(nets, s0);
    StaticRunKeeps(nets, s0, acts);
    OriginsAnnounced(nets, s0, acts, o, net);
    s := Exec(nets, s0, acts);
  }

  lemma InitialInvariants(nets: Nets, s: State)
    requires Init(s)
    ensures Inv(nets, s) && FloodInv(s)
  {
    forall n ensures TableOf(s, n) == map[] {}
  }

  /** Cutting out loops: nodes joined by a walk are joined by one without repetition. */
  lemma {:induction false} SimpleWalk(s: State, w: seq<NodeID>, from: NodeID, to: NodeID) returns (p: seq<NodeID>)
    requires Walk(s, w, from, to)
    ensures Walk(s, p, from, to) && NoDup(p) && |p| <= |w| && forall x :: x in p ==> x in w
    decreases |w|
  {
    if NoDup(w) {
      p := w;
    } else {
      var i, j :| 0 <= i < j < |w| && w[i] == w[j];
      var cut := w[..i] + w[j..];
      forall a, b | 0 <= a && b == a + 1 && b < |cut| ensures cut[b] in ConnsOf(s, cut[a]) {
        if b < i {
          assert cut[a] == w[a] && cut[b] == w[b];
        } else if a >= i {
          assert cut[a] == w[a + (j - i)] && cut[b] == w[b + (j - i)];
        } else {
          assert cut[a] == w[i - 1] && cut[b] == w[j] == w[i];
        }
      }
      p := SimpleWalk(s, cut, from, to);
    }
  }

  /** In a connected component of at most 32 nodes nobody is left out. */
  lemma SmallComponentIsComplete(nets: Nets, s0: State, acts: seq<Action>, o: NodeID, net: IPNet,
                                 v: NodeID, w: seq<NodeID>, component: set<NodeID>)
    requires Init(s0) && Static(s0) && StaticRun(nets, s0, acts) && ValidRun(nets, s0, acts)
    requires Originates(acts, o, net) && Exec(nets, s0, acts).inflight == []
    requires Walk(s0, w, v, o) && (forall x :: x in w ==> x in component) && |component| <= 32
    ensures Holds(Exec(nets, s0, acts), v, KeyOf(net), o)
  {
    var p := SimpleWalk(s0, w, v, o);
    NoDupBound(p, component);
    FloodReachesExactly(nets, s0, acts, o, net, v);
  }

  // ---- Floods can be let run out ----

  ghost function Neighbours(s: State): set<NodeID> {
    set n, x | n in s.conns && x in s.conns[n] :: x
  }

  lemma SomeDegree(s: State)
    ensures DegreeAtMost(s, |Neighbours(s)|)
  {
    forall n ensures |PeersOf(s, n)| <= |Neighbours(s)| {
      assert PeersOf(s, n) <= Neighbours(s);
      SubsetSize(PeersOf(s, n), Neighbours(s));
    }
  }

  lemma {:induction false} SubsetSize(a: set<NodeID>, b: set<NodeID>)
    requires a <= b
    ensures |a| <= |b|
    decreases |a|
  {
    if x :| x in a {
      SubsetSize(a - {x}, b - {x});
    }
  }

  ghost predicate Settling(nets: Nets, s: State, keep: set<Packet>) {
    Inv(nets, s) && Static(s) && FloodInv(s) && forall pk :: pk in keep ==> pk in s.inflight
  }

  ghost predicate NothingElse(s: State, keep: set<Packet>) {
    forall pk :: pk in s.inflight ==> pk in keep
  }

  /** Delivering one packet after the other, in any order, comes to an end; some packets may
      be held back. */
  lemma {:induction false} Settle(nets: Nets, s: State, keep: set<Packet>) returns (acts: seq<Action>)
    requires Settling(nets, s, keep)
    ensures DeliveryRun(nets, s, acts) && StaticRun(nets, s, acts) && ValidRun(nets, s, acts)
    ensures Settling(nets, Exec(nets, s, acts), keep) && NothingElse(Exec(nets, s, acts), keep)
    decreases Measure(|Neighbours(s)|, s.inflight)
  {
    if NothingElse(s, keep) {
      acts := [];
    } else {
      var a := DeliverOne(nets, s, keep);
      var rest := Settle(nets, Apply(s, a), keep);
      DeliveryPrepend(nets, s, a, rest);
      acts := [a] + rest;
    }
  }

  lemma DeliverOne(nets: Nets, s: State, keep: set<Packet>) returns (a: Action)
    requires Settling(nets, s, keep) && !NothingElse(s, keep)
    ensures a.Deliver? && Enabled(nets, s, a) && !IsWithdrawal(s.inflight[a.i].msg)
    ensures Settling(nets, Apply(s, a), keep)
    ensures Measure(|Neighbours(Apply(s, a))|, Apply(s, a).inflight) < Measure(|Neighbours(s)|, s.inflight)
  {
    a := NextDelivery(nets, s, keep);
    SettleStep(nets, s, a);
  }

  lemma NextDelivery(nets: Nets, s: State, keep: set<Packet>) returns (a: Action)
    requires SentTrails(s) && !NothingElse(s, keep) && forall pk :: pk in keep ==> pk in s.inflight
    ensures a.Deliver? && Enabled(nets, s, a) && !IsWithdrawal(s.inflight[a.i].msg)
    ensures forall pk :: pk in keep ==> pk in Receive(s, a.i, a.targets, a.now).inflight
  {
    var i :| 0 <= i < |s.inflight| && s.inflight[i] !in keep;
    var pk := s.inflight[i];
    assert pk in s.inflight;
    var targets := SomeOrder(PeersOf(s, pk.dst) - {pk.src});
    forall k | k in keep ensures k in Receive(s, i, targets, 0).inflight {
      OthersStay(s, i, targets, 0, k);
    }
    a := Deliver(i, targets, 0);
  }

  lemma DeliveryPrepend(nets: Nets, s: State, a: Action, rest: seq<Action>)
    requires a.Deliver? && Enabled(nets, s, a) && !IsWithdrawal(s.inflight[a.i].msg)
    requires DeliveryRun(nets, Apply(s, a), rest) && StaticRun(nets, Apply(s, a), rest)
    requires ValidRun(nets, Apply(s, a), rest)
    ensures DeliveryRun(nets, s, [a] + rest) && StaticRun(nets, s, [a] + rest) && ValidRun(nets, s, [a] + rest)
    ensures Exec(nets, s, [a] + rest) == Exec(nets, Apply(s, a), rest)
  {
    assert ([a] + rest)[0] == a && ([a] + rest)[1..] == rest;
  }

  lemma NothingLeft(s: State, keep: set<Packet>)
    requires NothingElse(s, keep)
    ensures keep == {} ==> s.inflight == []
  {
    if s.inflight != [] {
      assert s.inflight[0] in s.inflight;
    }
  }

  lemma SettleStep(nets: Nets, s: State, a: Action)
    requires Inv(nets, s) && Static(s) && FloodInv(s) && a.Deliver? && Enabled(nets, s, a)
    requires !IsWithdrawal(s.inflight[a.i].msg)
    ensures Inv(nets, Apply(s, a)) && Static(Apply(s, a)) && FloodInv(Apply(s, a))
    ensures Neighbours(Apply(s, a)) == Neighbours(s)
    ensures Measure(|Neighbours(s)|, Apply(s, a).inflight) < Measure(|Neighbours(s)|, s.inflight)
  {
    StaticStepKeeps(nets, s, a);
    SomeDegree(s);
    DeliveryLowersMeasure(nets, s, a.i, a.targets, a.now, |Neighbours(s)|);
    ReceiveEffect(s, a.i, a.targets, a.now);
  }

  lemma {:induction false} StaticJoin(nets: Nets, s: State, a: seq<Action>, b: seq<Action>)
    requires StaticRun(nets, s, a) && ValidRun(nets, s, a) && StaticRun(nets, Exec(nets, s, a), b)
    ensures StaticRun(nets, s, a + b)
    decreases |a|
  {
    if a == [] {
      assert a + b == b;
    } else {
      assert (a + b)[0] == a[0] && (a + b)[1..] == a[1..] + b;
      StaticJoin(nets, Apply(s, a[0]), a[1..], b);
    }
  }

  lemma StaticRunJoin(nets: Nets, s: State, a: seq<Action>, b: seq<Action>)
    requires StaticRun(nets, s, a) && ValidRun(nets, s, a)
    requires StaticRun(nets, Exec(nets, s, a), b) && ValidRun(nets, Exec(nets, s, a), b)
    ensures StaticRun(nets, s, a + b) && ValidRun(nets, s, a + b)
    ensures Exec(nets, s, a + b) == Exec(nets, Exec(nets, s, a), b)
  {
    StaticJoin(nets, s, a, b);
    RunJoin(nets, s, a, b);
  }

  /** So from every point of every run over static links deliveries alone lead to a state
      with nothing in flight, in which FloodReachesExactly applies. */
  lemma EveryFloodSettles(nets: Nets, s0: State, acts: seq<Action>) returns (more: seq<Action>)
    requires Init(s0) && Static(s0) && StaticRun(nets, s0, acts) && ValidRun(nets, s0, acts)
    ensures DeliveryRun(nets, Exec(nets, s0, acts), more)
    ensures StaticRun(nets, s0, acts + more) && ValidRun(nets, s0, acts + more)
    ensures Exec(nets, s0, acts + more).inflight == []
  {
    InitialInvariants(nets, s0);
    StaticRunKeeps(nets, s0, acts);
    more := Settle(nets, Exec(nets, s0, acts), {});
    NothingLeft(Exec(nets, Exec(nets, s0, acts), more), {});
    StaticRunJoin(nets, s0, acts, more);
  }
}
