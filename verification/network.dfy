/** A network of nodes that exchange route messages over links. Every step is one event at
    one node; messages in flight form a bag, so any delivery order is covered. Each event
    takes the table lock once per node and is treated as atomic. */
module Network {
  import opened Base
  import opened Addr
  import opened Table
  import opened WireRoute
  import opened Propagation

  datatype Packet = Packet(src: NodeID, dst: NodeID, msg: RouteMessage)

  /** A node once told its peers about a prefix of an origin, with a path of len hops. */
  datatype Notice = Notice(node: NodeID, key: Key, origin: NodeID, len: nat)

  type Nets = map<NodeID, seq<IPNet>>
  type Links = set<(NodeID, NodeID)>

  /** conns are the open connections, alive what gossip calls alive. No step reads links
      and announced: they record which links ever existed and what was ever announced. */
  datatype State = State(fibs: map<NodeID, Fib>, conns: map<NodeID, set<NodeID>>,
                         alive: map<NodeID, set<NodeID>>, inflight: seq<Packet>,
                         links: Links, announced: set<Notice>)

  function TableOf(s: State, n: NodeID): Fib {
    if n in s.fibs then s.fibs[n] else map[]
  }

  function ConnsOf(s: State, n: NodeID): set<NodeID> {
    if n in s.conns then s.conns[n] else {}
  }

  function AliveOf(s: State, n: NodeID): set<NodeID> {
    if n in s.alive then s.alive[n] else {}
  }

  /** The peers that propagateExcept reaches: alive by gossip and connected. */
  function PeersOf(s: State, n: NodeID): set<NodeID> {
    AliveOf(s, n) * ConnsOf(s, n)
  }

  function NetsOf(nets: Nets, n: NodeID): seq<IPNet> {
    if n in nets then nets[n] else []
  }

  // ---- Steps ----

  /** targets lists the receivers of the step in whatever order the code met them. */
  datatype Action =
    | Originate(n: NodeID, net: IPNet, targets: seq<NodeID>, now: int)
    | Rebroadcast(n: NodeID, rk: RouteKey, targets: seq<NodeID>)
    | Deliver(i: nat, targets: seq<NodeID>, now: int)
    | Expire(n: NodeID, now: int, ttl: int)
    | PeerDown(n: NodeID, peer: NodeID, lost: seq<Route>, targets: seq<NodeID>)
    | Rewire(n: NodeID, conns: set<NodeID>, alive: set<NodeID>)
    | Drop(i: nat)

  ghost predicate Orders(q: seq<NodeID>, members: set<NodeID>) {
    NoDup(q) && forall x :: x in q <==> x in members
  }

  ghost predicate Enabled(nets: Nets, s: State, a: Action) {
    match a
    case Originate(n, net, targets, _) => net in NetsOf(nets, n) && Orders(targets, ConnsOf(s, n))
    case Rebroadcast(n, rk, targets) => rk in TableOf(s, n) && Orders(targets, ConnsOf(s, n))
    case Deliver(i, targets, _) =>
      i < |s.inflight| && Orders(targets, PeersOf(s, s.inflight[i].dst) - {s.inflight[i].src})
    case Expire(_, _, _) => true
    case PeerDown(n, peer, lost, targets) =>
      Lists(lost, Lost(TableOf(s, n), peer)) && Orders(targets, ConnsOf(s, n) - {peer})
    case Rewire(_, _, _) => true
    case Drop(i) => i < |s.inflight|
  }

  function Fan(n: NodeID, m: RouteMessage, targets: seq<NodeID>): seq<Packet> {
    seq(|targets|, i requires 0 <= i < |targets| => Packet(n, targets[i], m))
  }

  function FanAll(n: NodeID, msgs: seq<RouteMessage>, targets: seq<NodeID>): seq<Packet> {
    if msgs == [] then [] else Fan(n, msgs[0], targets) + FanAll(n, msgs[1..], targets)
  }

  function Without<T>(q: seq<T>, i: nat): seq<T>
    requires i < |q|
  {
    q[..i] + q[i + 1..]
  }

  function NoticeOf(n: NodeID, m: RouteMessage): Notice {
    Notice(n, KeyOf(m.prefix), m.origin, |m.path|)
  }

  /** A node sends one message to the targets and the announcement is recorded. */
  function Announce(s: State, n: NodeID, m: RouteMessage, targets: seq<NodeID>): State {
    s.(inflight := s.inflight + Fan(n, m, targets),
       announced := if IsWithdrawal(m) then s.announced else s.announced + {NoticeOf(n, m)})
  }

  function Receive(s: State, i: nat, targets: seq<NodeID>, now: int): State
    requires i < |s.inflight|
  {
    var pk := s.inflight[i];
    var (fib, out) := HandleMsg(pk.dst, TableOf(s, pk.dst), pk.src, pk.msg, now);
    var s1 := s.(fibs := s.fibs[pk.dst := fib], inflight := Without(s.inflight, i));
    if out.None? then s1 else Announce(s1, pk.dst, out.value, targets)
  }

  function Apply(s: State, a: Action): State
    requires a.Deliver? || a.Drop? ==> a.i < |s.inflight|
    requires a.Rebroadcast? ==> a.rk in TableOf(s, a.n)
  {
    match a
    case Originate(n, net, targets, now) =>
      var fib := Put(n, TableOf(s, n), LocalRoute(n, net), now).0;
      Announce(s.(fibs := s.fibs[n := fib]), n, Advert(n, LocalRoute(n, net)), targets)
    case Rebroadcast(n, rk, targets) =>
      Announce(s, n, Advert(n, TableOf(s, n)[rk]), targets)
    case Deliver(i, targets, now) => Receive(s, i, targets, now)
    case Expire(n, now, ttl) => s.(fibs := s.fibs[n := Unexpired(TableOf(s, n), now, ttl)])
    case PeerDown(n, peer, lost, targets) =>
      s.(fibs := s.fibs[n := WithoutPeer(TableOf(s, n), peer)],
         conns := s.conns[n := ConnsOf(s, n) - {peer}],
         inflight := s.inflight + FanAll(n, Withdrawals(lost), targets))
    case Rewire(n, conns, alive) =>
      s.(conns := s.conns[n := conns], alive := s.alive[n := alive],
         links := s.links + set p | p in conns :: (n, p))
    case Drop(i) => s.(inflight := Without(s.inflight, i))
  }

  ghost predicate ValidRun(nets: Nets, s: State, acts: seq<Action>)
    decreases |acts|
  {
    acts == [] || (Enabled(nets, s, acts[0]) && ValidRun(nets, Apply(s, acts[0]), acts[1..]))
  }

  ghost function Exec(nets: Nets, s: State, acts: seq<Action>): State
    requires ValidRun(nets, s, acts)
    decreases |acts|
  {
    if acts == [] then s else Exec(nets, Apply(s, acts[0]), acts[1..])
  }

  lemma OneStep(nets: Nets, s: State, a: Action)
    requires Enabled(nets, s, a)
    ensures ValidRun(nets, s, [a]) && Exec(nets, s, [a]) == Apply(s, a)
  {
    assert [a][1..] == [];
  }

  lemma {:induction false} RunJoin(nets: Nets, s: State, a: seq<Action>, b: seq<Action>)
    requires ValidRun(nets, s, a) && ValidRun(nets, Exec(nets, s, a), b)
    ensures ValidRun(nets, s, a + b) && Exec(nets, s, a + b) == Exec(nets, Exec(nets, s, a), b)
    decreases |a|
  {
    if a == [] {
      assert a + b == b;
    } else {
      assert (a + b)[0] == a[0] && (a + b)[1..] == a[1..] + b;
      RunJoin(nets, Apply(s, a[0]), a[1..], b);
    }
  }

  ghost predicate Init(s: State) {
    s.fibs == map[] && s.inflight == [] && s.announced == {} && LinksCover(s)
  }

  // ---- Steps taken apart ----

  ghost predicate SameTables(s: State, s': State, n: NodeID, fib: Fib) {
    forall k :: TableOf(s', k) == if k == n then fib else TableOf(s, k)
  }

  lemma ReceiveEffect(s: State, i: nat, targets: seq<NodeID>, now: int)
    requires i < |s.inflight|
    ensures var pk := s.inflight[i];
            var (fib, out) := HandleMsg(pk.dst, TableOf(s, pk.dst), pk.src, pk.msg, now);
            && SameTables(s, Receive(s, i, targets, now), pk.dst, fib)
            && Receive(s, i, targets, now).inflight
               == Without(s.inflight, i) + if out.None? then [] else Fan(pk.dst, out.value, targets)
  {
  }

  lemma ReceiveKeepsLinks(s: State, i: nat, targets: seq<NodeID>, now: int)
    requires i < |s.inflight|
    ensures Receive(s, i, targets, now).conns == s.conns && Receive(s, i, targets, now).alive == s.alive
  {
  }

  lemma OthersStay(s: State, i: nat, targets: seq<NodeID>, now: int, pk: Packet)
    requires i < |s.inflight| && pk in s.inflight && pk != s.inflight[i]
    ensures pk in Receive(s, i, targets, now).inflight
  {
    var j :| 0 <= j < |s.inflight| && s.inflight[j] == pk;
    var rest := Without(s.inflight, i);
    assert rest[if j < i then j else j - 1] == pk;
  }

  lemma {:induction false} SomeOrder(members: set<NodeID>) returns (q: seq<NodeID>)
    ensures Orders(q, members)
    decreases |members|
  {
    if members == {} {
      q := [];
    } else {
      var x :| x in members;
      var rest := SomeOrder(members - {x});
      q := [x] + rest;
      assert forall i :: 0 <= i < |rest| ==> rest[i] in rest;
    }
  }

  // ---- The path invariant ----

  ghost predicate LinksCover(s: State) {
    forall n, p :: p in ConnsOf(s, n) ==> (n, p) in s.links
  }

  ghost predicate Linked(links: Links, a: NodeID, b: NodeID) {
    (a, b) in links || (b, a) in links
  }

  ghost predicate Chain(links: Links, path: seq<NodeID>) {
    forall i, j :: 0 <= i && j == i + 1 && j < |path| ==> Linked(links, path[i], path[j])
  }

  /** A loop-free walk over links that existed, ending at an origin that owns the prefix. */
  ghost predicate HonestPath(nets: Nets, links: Links, path: seq<NodeID>, prefix: IPNet, origin: NodeID) {
    && path != [] && NoDup(path) && Chain(links, path)
    && path[|path| - 1] == origin && prefix in NetsOf(nets, origin)
  }

  ghost predicate PacketOk(nets: Nets, links: Links, pk: Packet) {
    var m := pk.msg;
    if IsWithdrawal(m) then
      m.flags == FLAG_WITHDRAW && |m.path| < MAX_HOPS && m.prefix in NetsOf(nets, m.origin)
    else
      && m.flags == FLAG_UPDATE && m.localPref == LOCAL_PREF
      && m.cost == |m.path| <= MAX_HOPS
      && HonestPath(nets, links, m.path, m.prefix, m.origin)
      && m.path[0] == pk.src && Linked(links, pk.src, pk.dst)
  }

  ghost predicate RouteOk(nets: Nets, links: Links, n: NodeID, r: Route) {
    && r.localPref == LOCAL_PREF && r.cost == |r.path| + 1 <= MAX_HOPS
    && n !in r.path && r.dest in NetsOf(nets, r.origin)
    && if r.path == [] then r.origin == n && r.nextHop == n
       else HonestPath(nets, links, r.path, r.dest, r.origin)
            && r.path[0] == r.nextHop && Linked(links, r.nextHop, n)
  }

  ghost predicate FibOk(nets: Nets, links: Links, n: NodeID, fib: Fib) {
    WfFib(fib) && forall rk :: rk in fib ==> RouteOk(nets, links, n, fib[rk])
  }

  ghost predicate Inv(nets: Nets, s: State) {
    && LinksCover(s)
    && (forall n :: FibOk(nets, s.links, n, TableOf(s, n)))
    && (forall pk :: pk in s.inflight ==> PacketOk(nets, s.links, pk))
  }

  /** What a node sends about a sound route is a sound update. */
  lemma AdvertOk(nets: Nets, links: Links, n: NodeID, r: Route, dst: NodeID)
    requires RouteOk(nets, links, n, r) && Linked(links, n, dst)
    ensures PacketOk(nets, links, Packet(n, dst, Advert(n, r)))
  {
    var path := [n] + r.path;
    assert NoDup(path);
    forall i, j | 0 <= i && j == i + 1 && j < |path| ensures Linked(links, path[i], path[j]) {
      if i > 0 {
        assert path[i] == r.path[i - 1] && path[j] == r.path[j - 1];
      }
    }
  }

  /** What a node learns from a sound update that it does not reject is a sound route. */
  lemma LearnOk(nets: Nets, links: Links, n: NodeID, pk: Packet)
    requires PacketOk(nets, links, pk) && pk.dst == n && !IsWithdrawal(pk.msg)
    requires n !in pk.msg.path && |pk.msg.path| < MAX_HOPS
    ensures RouteOk(nets, links, n, Learn(pk.src, pk.msg))
  {
  }

  lemma PutOk(nets: Nets, links: Links, n: NodeID, fib: Fib, r: Route, now: int)
    requires FibOk(nets, links, n, fib) && RouteOk(nets, links, n, r)
    ensures FibOk(nets, links, n, Put(n, fib, r, now).0)
  {
  }

  lemma MoreLinks(nets: Nets, s: State, links: Links)
    requires Inv(nets, s) && s.links <= links
    ensures forall n :: FibOk(nets, links, n, TableOf(s, n))
    ensures forall pk :: pk in s.inflight ==> PacketOk(nets, links, pk)
  {
    forall path | Chain(s.links, path) ensures Chain(links, path) {
      forall i, j | 0 <= i && j == i + 1 && j < |path| ensures Linked(links, path[i], path[j]) {
        assert Linked(s.links, path[i], path[j]);
      }
    }
  }

  lemma FanMembers(n: NodeID, m: RouteMessage, targets: seq<NodeID>)
    ensures forall pk :: pk in Fan(n, m, targets) <==> pk.src == n && pk.msg == m && pk.dst in targets
  {
    forall pk: Packet | pk.src == n && pk.msg == m && pk.dst in targets ensures pk in Fan(n, m, targets) {
      var i :| 0 <= i < |targets| && targets[i] == pk.dst;
      assert Fan(n, m, targets)[i] == pk;
    }
  }

  lemma {:induction false} FanAllMembers(n: NodeID, msgs: seq<RouteMessage>, targets: seq<NodeID>)
    ensures forall pk :: pk in FanAll(n, msgs, targets) <==>
                           pk.src == n && pk.msg in msgs && pk.dst in targets
  {
    if msgs != [] {
      FanMembers(n, msgs[0], targets);
      FanAllMembers(n, msgs[1..], targets);
    }
  }

  /** Changes other than to the tables, with sound packets and recorded links. */
  lemma SameTablesOk(nets: Nets, s: State, s': State)
    requires Inv(nets, s) && s'.fibs == s.fibs && s'.links == s.links && LinksCover(s')
    requires forall pk :: pk in s'.inflight ==> pk in s.inflight || PacketOk(nets, s.links, pk)
    ensures Inv(nets, s')
  {
    forall m ensures TableOf(s', m) == TableOf(s, m) {}
  }

  lemma SameConns(s: State, s': State)
    requires s'.conns == s.conns
    ensures forall n :: ConnsOf(s', n) == ConnsOf(s, n)
  {
  }

  /** Announcing a sound route to connections keeps the invariant. */
  lemma AnnounceOk(nets: Nets, s: State, n: NodeID, r: Route, targets: seq<NodeID>)
    requires Inv(nets, s) && RouteOk(nets, s.links, n, r)
    requires forall t :: t in targets ==> t in ConnsOf(s, n)
    ensures Inv(nets, Announce(s, n, Advert(n, r), targets))
  {
    var s' := Announce(s, n, Advert(n, r), targets);
    FanMembers(n, Advert(n, r), targets);
    forall pk | pk in s'.inflight ensures pk in s.inflight || PacketOk(nets, s.links, pk) {
      if pk in Fan(n, Advert(n, r), targets) {
        AdvertOk(nets, s.links, n, r, pk.dst);
      }
    }
    SameConns(s, s');
    SameTablesOk(nets, s, s');
  }

  lemma SetFibOk(nets: Nets, s: State, n: NodeID, fib: Fib)
    requires Inv(nets, s) && FibOk(nets, s.links, n, fib)
    ensures Inv(nets, s.(fibs := s.fibs[n := fib]))
  {
    var s' := s.(fibs := s.fibs[n := fib]);
    forall m ensures TableOf(s', m) == if m == n then fib else TableOf(s, m) {}
    forall m ensures ConnsOf(s', m) == ConnsOf(s, m) {}
  }

  lemma WithoutOk(nets: Nets, s: State, i: nat)
    requires Inv(nets, s) && i < |s.inflight|
    ensures Inv(nets, s.(inflight := Without(s.inflight, i)))
  {
    var s' := s.(inflight := Without(s.inflight, i));
    SameConns(s, s');
    SameTablesOk(nets, s, s');
  }

  /** One node's reaction to a sound packet leaves its table sound. */
  lemma HandleOk(nets: Nets, links: Links, fib: Fib, pk: Packet, now: int)
    requires FibOk(nets, links, pk.dst, fib) && PacketOk(nets, links, pk)
    ensures FibOk(nets, links, pk.dst, HandleMsg(pk.dst, fib, pk.src, pk.msg, now).0)
    ensures HandleMsg(pk.dst, fib, pk.src, pk.msg, now).1.Some? && !IsWithdrawal(pk.msg) ==>
              RouteOk(nets, links, pk.dst, Learn(pk.src, pk.msg))
  {
    if !IsWithdrawal(pk.msg) && pk.dst !in pk.msg.path && |pk.msg.path| < MAX_HOPS {
      LearnOk(nets, links, pk.dst, pk);
      PutOk(nets, links, pk.dst, fib, Learn(pk.src, pk.msg), now);
    }
  }

  lemma ForwardWithdrawalOk(nets: Nets, s: State, n: NodeID, m: RouteMessage, targets: seq<NodeID>)
    requires Inv(nets, s) && IsWithdrawal(m) && PacketOk(nets, s.links, Packet(n, n, m))
    ensures Inv(nets, Announce(s, n, m, targets))
  {
    FanMembers(n, m, targets);
    SameConns(s, Announce(s, n, m, targets));
    SameTablesOk(nets, s, Announce(s, n, m, targets));
  }

  lemma ReceiveOk(nets: Nets, s: State, i: nat, targets: seq<NodeID>, now: int)
    requires Inv(nets, s) && Enabled(nets, s, Deliver(i, targets, now))
    ensures Inv(nets, Receive(s, i, targets, now))
  {
    var pk := s.inflight[i];
    var (fib, out) := HandleMsg(pk.dst, TableOf(s, pk.dst), pk.src, pk.msg, now);
    HandleOk(nets, s.links, TableOf(s, pk.dst), pk, now);
    WithoutOk(nets, s, i);
    var s0 := s.(inflight := Without(s.inflight, i));
    SetFibOk(nets, s0, pk.dst, fib);
    var s1 := s0.(fibs := s0.fibs[pk.dst := fib]);
    if out.Some? {
      if IsWithdrawal(pk.msg) {
        ForwardWithdrawalOk(nets, s1, pk.dst, pk.msg, targets);
      } else {
        SameConns(s, s1);
        AnnounceOk(nets, s1, pk.dst, Learn(pk.src, pk.msg), targets);
      }
    }
  }

  lemma WithdrawalOf(rs: seq<Route>, m: RouteMessage) returns (r: Route)
    requires m in Withdrawals(rs)
    ensures r in rs && m == Withdrawal(r)
  {
    var i :| 0 <= i < |rs| && Withdrawals(rs)[i] == m;
    r := rs[i];
  }

  lemma WithdrawalOk(nets: Nets, links: Links, n: NodeID, r: Route, pk: Packet)
    requires RouteOk(nets, links, n, r) && pk.msg == Withdrawal(r)
    ensures PacketOk(nets, links, pk)
  {
  }

  lemma LostOk(nets: Nets, links: Links, n: NodeID, fib: Fib, peer: NodeID, lost: seq<Route>, pk: Packet)
    requires FibOk(nets, links, n, fib) && Lists(lost, Lost(fib, peer)) && pk.msg in Withdrawals(lost)
    ensures PacketOk(nets, links, pk)
  {
    var r := WithdrawalOf(lost, pk.msg);
    assert RK(r) in Lost(fib, peer) && Lost(fib, peer)[RK(r)] == r;
    WithdrawalOk(nets, links, n, r, pk);
  }

  lemma PeerDownOk(nets: Nets, s: State, n: NodeID, peer: NodeID, lost: seq<Route>, targets: seq<NodeID>)
    requires Inv(nets, s) && Enabled(nets, s, PeerDown(n, peer, lost, targets))
    ensures Inv(nets, Apply(s, PeerDown(n, peer, lost, targets)))
  {
    var fib := TableOf(s, n);
    SetFibOk(nets, s, n, WithoutPeer(fib, peer));
    var s1 := s.(fibs := s.fibs[n := WithoutPeer(fib, peer)]);
    var s' := Apply(s, PeerDown(n, peer, lost, targets));
    FanAllMembers(n, Withdrawals(lost), targets);
    forall pk | pk in s'.inflight ensures pk in s1.inflight || PacketOk(nets, s1.links, pk) {
      if pk !in s.inflight {
        LostOk(nets, s.links, n, fib, peer, lost, pk);
      }
    }
    forall m ensures ConnsOf(s', m) <= ConnsOf(s1, m) {}
    SameTablesOk(nets, s1, s');
  }

  lemma RewireOk(nets: Nets, s: State, a: Action)
    requires Inv(nets, s) && a.Rewire?
    ensures Inv(nets, Apply(s, a))
  {
    var s' := Apply(s, a);
    MoreLinks(nets, s, s'.links);
    forall m ensures TableOf(s', m) == TableOf(s, m) {}
    forall m ensures ConnsOf(s', m) == if m == a.n then a.conns else ConnsOf(s, m) {}
  }

  /** Every step of every node keeps the path invariant. */
  lemma StepKeepsInv(nets: Nets, s: State, a: Action)
    requires Inv(nets, s) && Enabled(nets, s, a)
    ensures Inv(nets, Apply(s, a))
  {
    match a {
      case Originate(n, net, targets, now) =>
        var r := LocalRoute(n, net);
        assert FibOk(nets, s.links, n, TableOf(s, n));
        PutOk(nets, s.links, n, TableOf(s, n), r, now);
        var fib := Put(n, TableOf(s, n), r, now).0;
        SetFibOk(nets, s, n, fib);
        AnnounceOk(nets, s.(fibs := s.fibs[n := fib]), n, r, targets);
      case Rebroadcast(n, rk, targets) =>
        assert FibOk(nets, s.links, n, TableOf(s, n));
        AnnounceOk(nets, s, n, TableOf(s, n)[rk], targets);
      case Deliver(i, targets, now) => ReceiveOk(nets, s, i, targets, now);
      case Expire(n, now, ttl) =>
        assert FibOk(nets, s.links, n, TableOf(s, n));
        SetFibOk(nets, s, n, Unexpired(TableOf(s, n), now, ttl));
      case PeerDown(n, peer, lost, targets) => PeerDownOk(nets, s, n, peer, lost, targets);
      case Rewire(_, _, _) => RewireOk(nets, s, a);
      case Drop(i) => WithoutOk(nets, s, i);
    }
  }

  lemma {:induction false} RunKeepsInv(nets: Nets, s: State, acts: seq<Action>)
    requires Inv(nets, s) && ValidRun(nets, s, acts)
    ensures Inv(nets, Exec(nets, s, acts))
    decreases |acts|
  {
    if acts != [] {
      StepKeepsInv(nets, s, acts[0]);
      RunKeepsInv(nets, Apply(s, acts[0]), acts[1..]);
    }
  }

  /** In every reachable state, whatever was lost, expired or rewired on the way: update
      paths are loop-free walks from their sender to an origin that owns the prefix, and
      learned routes start at their next hop and avoid the node that stores them. */
  lemma ReachableStatesAreSound(nets: Nets, s: State, acts: seq<Action>)
    requires Init(s) && ValidRun(nets, s, acts)
    ensures Inv(nets, Exec(nets, s, acts))
  {
    RunKeepsInv(nets, s, acts);
  }

  // ---- What the invariant buys ----

  /** The decoder never rejects an honest message: in a reachable state every message in
      flight comes out of its encoding unchanged, with or without trailing bytes. */
  lemma HonestMessagesDecode(nets: Nets, s: State, pk: Packet, suffix: Bytes)
    requires Inv(nets, s) && pk in s.inflight
    requires forall n, net :: net in NetsOf(nets, n) ==> Encodable(net)
    ensures DecodeRoute(EncodeRoute(pk.msg) + suffix) == Ok(pk.msg)
    ensures forall fib, now :: HandleBytes(pk.dst, fib, pk.src, EncodeRoute(pk.msg) + suffix, now).0
                               == HandleMsg(pk.dst, fib, pk.src, pk.msg, now).0
  {
    RouteRoundTrip(pk.msg, suffix);
  }

  /** A lookup never answers with the node itself as next hop. */
  lemma NeverViaSelf(nets: Nets, s: State, n: NodeID, x: IP, res: Found)
    requires Inv(nets, s) && IsAnswer(TableOf(s, n), NetsOf(nets, n), x, res)
    ensures res.Learned? ==> res.route.nextHop != n && res.route.origin != n && res.route.path != []
  {
    if res.Learned? {
      var r := res.route;
      assert FibOk(nets, s.links, n, TableOf(s, n)) && RouteOk(nets, s.links, n, r);
      if r.path != [] {
        assert r.path[0] in r.path && r.path[|r.path| - 1] in r.path;
      }
    }
  }

  /** Between routes that the network produced, preference is path length and then age. */
  lemma PreferenceIsLengthThenAge(nets: Nets, s: State, n: NodeID, j: RouteKey, k: RouteKey)
    requires Inv(nets, s) && j in TableOf(s, n) && k in TableOf(s, n)
    ensures var (a, b) := (TableOf(s, n)[j], TableOf(s, n)[k]);
            Better(a, b) <==> |a.path| < |b.path| || (|a.path| == |b.path| && a.stamp < b.stamp)
  {
    assert FibOk(nets, s.links, n, TableOf(s, n));
  }

  // ---- A peer that went down ----

  ghost predicate NoRouteVia(s: State, n: NodeID, p: NodeID) {
    forall rk :: rk in TableOf(s, n) ==> rk.nextHop != p && rk.origin != p
  }

  /** The node takes the update for a loop or finds its path too long. */
  predicate Rejected(pk: Packet) {
    pk.dst in pk.msg.path || |pk.msg.path| >= MAX_HOPS
  }

  /** In this step the node accepts no update from or about the peer. */
  predicate NothingNewFrom(s: State, a: Action, n: NodeID, p: NodeID)
    requires a.Deliver? ==> a.i < |s.inflight|
  {
    a.Deliver? && s.inflight[a.i].dst == n && !IsWithdrawal(s.inflight[a.i].msg) ==>
      Rejected(s.inflight[a.i]) || (s.inflight[a.i].src != p && s.inflight[a.i].msg.origin != p)
  }

  lemma PeerDownForgets(nets: Nets, s: State, n: NodeID, p: NodeID, lost: seq<Route>, targets: seq<NodeID>)
    requires Enabled(nets, s, PeerDown(n, p, lost, targets)) && n != p
    ensures NoRouteVia(Apply(s, PeerDown(n, p, lost, targets)), n, p)
    ensures forall rk :: rk in TableOf(s, n) && rk.origin == n && rk.nextHop == n ==>
              rk in TableOf(Apply(s, PeerDown(n, p, lost, targets)), n)
  {
  }

  lemma HandleKeepsOut(n: NodeID, fib: Fib, from: NodeID, m: RouteMessage, now: int, p: NodeID)
    requires forall rk :: rk in fib ==> rk.nextHop != p && rk.origin != p
    requires IsWithdrawal(m) || Rejected(Packet(from, n, m)) || (from != p && m.origin != p)
    ensures forall rk :: rk in HandleMsg(n, fib, from, m, now).0 ==> rk.nextHop != p && rk.origin != p
  {
  }

  lemma StaysForgotten(nets: Nets, s: State, a: Action, n: NodeID, p: NodeID)
    requires Enabled(nets, s, a) && n != p && NoRouteVia(s, n, p) && NothingNewFrom(s, a, n, p)
    ensures NoRouteVia(Apply(s, a), n, p)
  {
    if a.Deliver? {
      var pk := s.inflight[a.i];
      if n == pk.dst {
        HandleKeepsOut(n, TableOf(s, n), pk.src, pk.msg, a.now, p);
      }
    }
    TableAfter(s, a, n);
  }

  /** The table of a node after a step: what that step does at that node. */
  lemma TableAfter(s: State, a: Action, n: NodeID)
    requires a.Deliver? || a.Drop? ==> a.i < |s.inflight|
    requires a.Rebroadcast? ==> a.rk in TableOf(s, a.n)
    ensures TableOf(Apply(s, a), n) ==
            match a
            case Originate(k, net, _, now) =>
              if k == n then Put(n, TableOf(s, n), LocalRoute(n, net), now).0 else TableOf(s, n)
            case Deliver(i, _, now) =>
              if s.inflight[i].dst == n
              then HandleMsg(n, TableOf(s, n), s.inflight[i].src, s.inflight[i].msg, now).0 else TableOf(s, n)
            case Expire(k, now, ttl) => if k == n then Unexpired(TableOf(s, n), now, ttl) else TableOf(s, n)
            case PeerDown(k, peer, _, _) => if k == n then WithoutPeer(TableOf(s, n), peer) else TableOf(s, n)
            case _ => TableOf(s, n)
  {
  }

  ghost predicate QuietRun(nets: Nets, s: State, acts: seq<Action>, n: NodeID, p: NodeID)
    decreases |acts|
  {
    acts == [] || (Enabled(nets, s, acts[0]) && NothingNewFrom(s, acts[0], n, p)
                   && QuietRun(nets, Apply(s, acts[0]), acts[1..], n, p))
  }

  /** After a peer went down no lookup uses it, neither as next hop nor as origin, for as
      long as the node accepts no update from it or about its networks. */
  lemma {:induction false} NeverViaDownPeer(nets: Nets, s: State, acts: seq<Action>, n: NodeID, p: NodeID,
                                            x: IP, res: Found)
    requires n != p && NoRouteVia(s, n, p) && QuietRun(nets, s, acts, n, p) && ValidRun(nets, s, acts)
    requires IsAnswer(TableOf(Exec(nets, s, acts), n), NetsOf(nets, n), x, res)
    ensures NoRouteVia(Exec(nets, s, acts), n, p)
    ensures res.Learned? ==> res.route.nextHop != p && res.route.origin != p
    decreases |acts|
  {
    if acts != [] {
      StaysForgotten(nets, s, acts[0], n, p);
      NeverViaDownPeer(nets, Apply(s, acts[0]), acts[1..], n, p, x, res);
    } else if res.Learned? {
      assert RK(res.route) in TableOf(s, n);
    }
  }
}
