/** The steps of the network are what the Propagator does: reading its outputs off the wire
    turns each of its methods into one step, or into a run of steps, of the model. */
module Refinement {
  import opened Base
  import opened Addr
  import opened Table
  import opened WireRoute
  import opened Propagation
  import opened Network

  /** The packets that an output becomes: a broadcast goes to every connection, a send to a
      peer without a connection fails, and each receiver decodes what it gets. */
  function WireOne(n: NodeID, out: Output, conns: seq<NodeID>): seq<Packet> {
    match DecodeRoute(out.msg)
    case Ok(m) =>
      if out.Broadcast? then Fan(n, m, conns)
      else if out.peer in conns then [Packet(n, out.peer, m)]
      else []
    case _ => []
  }

  function Wire(n: NodeID, outs: seq<Output>, conns: seq<NodeID>): seq<Packet> {
    if outs == [] then []
    else Wire(n, outs[..|outs| - 1], conns) + WireOne(n, outs[|outs| - 1], conns)
  }

  lemma WireMore(n: NodeID, outs: seq<Output>, out: Output, conns: seq<NodeID>)
    ensures Wire(n, outs + [out], conns) == Wire(n, outs, conns) + WireOne(n, out, conns)
  {
    assert (outs + [out])[..|outs|] == outs;
  }

  lemma {:induction false} WireSum(n: NodeID, a: seq<Output>, b: seq<Output>, conns: seq<NodeID>)
    ensures Wire(n, a + b, conns) == Wire(n, a, conns) + Wire(n, b, conns)
  {
    if b == [] {
      WireNone(n, a, conns);
    } else {
      var (front, last) := (b[..|b| - 1], b[|b| - 1]);
      assert b == front + [last];
      WireSum(n, a, front, conns);
      WireSumMore(n, a, front, last, conns);
    }
  }

  lemma WireNone(n: NodeID, a: seq<Output>, conns: seq<NodeID>)
    ensures Wire(n, a + [], conns) == Wire(n, a, conns) + Wire(n, [], conns)
  {
    assert a + [] == a;
  }

  lemma WireSumMore(n: NodeID, a: seq<Output>, b: seq<Output>, out: Output, conns: seq<NodeID>)
    requires Wire(n, a + b, conns) == Wire(n, a, conns) + Wire(n, b, conns)
    ensures Wire(n, a + (b + [out]), conns) == Wire(n, a, conns) + Wire(n, b + [out], conns)
  {
    WireMore(n, a + b, out, conns);
    WireMore(n, b, out, conns);
    Regroup(a, b, [out]);
    Regroup(Wire(n, a, conns), Wire(n, b, conns), WireOne(n, out, conns));
  }

  lemma Regroup<T>(a: seq<T>, b: seq<T>, c: seq<T>)
    ensures a + b + c == a + (b + c)
  {
  }

  /** A message that survives encoding. */
  predicate Sendable(m: RouteMessage) {
    Encodable(m.prefix) && |m.path| <= MAX_HOPS
  }

  lemma SendableDecodes(m: RouteMessage)
    requires Sendable(m)
    ensures DecodeRoute(EncodeRoute(m)) == Ok(m)
  {
    RouteRoundTrip(m, []);
    assert EncodeRoute(m) + [] == EncodeRoute(m);
  }

  lemma {:induction false} FanAllAppend(n: NodeID, msgs: seq<RouteMessage>, m: RouteMessage, targets: seq<NodeID>)
    ensures FanAll(n, msgs + [m], targets) == FanAll(n, msgs, targets) + Fan(n, m, targets)
  {
    if msgs == [] {
      assert msgs + [m] == [m];
    } else {
      assert (msgs + [m])[1..] == msgs[1..] + [m];
      FanAllAppend(n, msgs[1..], m, targets);
    }
  }

  lemma BroadcastOnWire(n: NodeID, outs: seq<Output>, m: RouteMessage, conns: seq<NodeID>)
    requires Sendable(m)
    ensures Wire(n, outs + [Broadcast(EncodeRoute(m))], conns) == Wire(n, outs, conns) + Fan(n, m, conns)
  {
    SendableDecodes(m);
    WireMore(n, outs, Broadcast(EncodeRoute(m)), conns);
  }

  lemma LastOf(msgs: seq<RouteMessage>)
    requires msgs != []
    ensures var (front, m) := (msgs[..|msgs| - 1], msgs[|msgs| - 1]);
            msgs == front + [m] && Broadcasts(msgs) == Broadcasts(front) + [Broadcast(EncodeRoute(m))]
  {
    BroadcastsStep(msgs, |msgs| - 1);
    assert msgs[..|msgs|] == msgs;
  }

  lemma {:induction false} BroadcastsAreFans(n: NodeID, msgs: seq<RouteMessage>, conns: seq<NodeID>)
    requires forall m :: m in msgs ==> Sendable(m)
    ensures Wire(n, Broadcasts(msgs), conns) == FanAll(n, msgs, conns)
  {
    if msgs != [] {
      var (front, m) := (msgs[..|msgs| - 1], msgs[|msgs| - 1]);
      LastOf(msgs);
      BroadcastsAreFans(n, front, conns);
      BroadcastOnWire(n, Broadcasts(front), m, conns);
      FanAllAppend(n, front, m, conns);
    }
  }

  /** The peers that propagateExcept reaches: all but one, if connected. */
  function Others(peers: seq<NodeID>, except: NodeID, conns: seq<NodeID>): seq<NodeID> {
    Filter(peers, p => p != except && p in conns)
  }

  lemma FanMore(n: NodeID, m: RouteMessage, q: seq<NodeID>, x: NodeID)
    ensures Fan(n, m, q + [x]) == Fan(n, m, q) + [Packet(n, x, m)]
  {
  }

  lemma OthersMore(peers: seq<NodeID>, last: NodeID, except: NodeID, conns: seq<NodeID>)
    ensures Others(peers + [last], except, conns)
            == Others(peers, except, conns) + if last != except && last in conns then [last] else []
  {
    FilterAppend(peers, last, p => p != except && p in conns);
  }

  lemma SendsMore(peers: seq<NodeID>, last: NodeID, except: NodeID, data: Bytes)
    ensures SendsExcept(peers + [last], except, data)
            == SendsExcept(peers, except, data) + if last == except then [] else [SendTo(last, data)]
  {
    assert (peers + [last])[..|peers|] == peers;
  }

  lemma {:induction false} SendsAreFan(n: NodeID, peers: seq<NodeID>, except: NodeID, data: Bytes, m: RouteMessage,
                                       conns: seq<NodeID>)
    requires DecodeRoute(data) == Ok(m)
    ensures Wire(n, SendsExcept(peers, except, data), conns) == Fan(n, m, Others(peers, except, conns))
  {
    if peers != [] {
      var (rest, last) := (peers[..|peers| - 1], peers[|peers| - 1]);
      assert peers == rest + [last];
      SendsAreFan(n, rest, except, data, m, conns);
      OneSendMore(n, rest, last, except, data, m, conns);
    }
  }

  lemma OneSendMore(n: NodeID, rest: seq<NodeID>, last: NodeID, except: NodeID, data: Bytes, m: RouteMessage,
                    conns: seq<NodeID>)
    requires DecodeRoute(data) == Ok(m)
    requires Wire(n, SendsExcept(rest, except, data), conns) == Fan(n, m, Others(rest, except, conns))
    ensures Wire(n, SendsExcept(rest + [last], except, data), conns)
            == Fan(n, m, Others(rest + [last], except, conns))
  {
    var (outs, to) := (SendsExcept(rest, except, data), Others(rest, except, conns));
    OthersMore(rest, last, except, conns);
    SendsMore(rest, last, except, data);
    assert outs + [] == outs && to + [] == to && Fan(n, m, to) + [] == Fan(n, m, to);
    if last != except {
      WireMore(n, outs, SendTo(last, data), conns);
      FanMore(n, m, to, last);
    }
  }

  lemma {:induction false} OthersOrdered(peers: seq<NodeID>, except: NodeID, conns: seq<NodeID>)
    requires NoDup(peers)
    ensures NoDup(Others(peers, except, conns))
    ensures forall x :: x in Others(peers, except, conns) <==> x in peers && x != except && x in conns
  {
    FilterMembers(peers, p => p != except && p in conns);
    if peers != [] {
      var rest := peers[1..];
      OthersOrdered(rest, except, conns);
      assert forall i :: 0 <= i < |rest| ==> rest[i] == peers[i + 1] && rest[i] in rest;
      assert peers[0] !in rest;
    }
  }

  ghost predicate ProperNets(nets: Nets) {
    forall n, net :: net in NetsOf(nets, n) ==> Encodable(net)
  }

  lemma BytesOnWire(n: NodeID, fib: Fib, from: NodeID, m: RouteMessage, suffix: Bytes, now: int,
                    peers: seq<NodeID>, conns: seq<NodeID>)
    requires Sendable(m)
    ensures var (onBytes, onMsg) := (HandleBytes(n, fib, from, EncodeRoute(m) + suffix, now),
                                     HandleMsg(n, fib, from, m, now));
            && onBytes.0 == onMsg.0
            && (if onBytes.1.None? then [] else Wire(n, SendsExcept(peers, from, onBytes.1.value), conns))
               == (if onMsg.1.None? then [] else Fan(n, onMsg.1.value, Others(peers, from, conns)))
  {
    BytesCarryMessages(n, fib, from, m, suffix, now);
    var data, out := HandleBytes(n, fib, from, EncodeRoute(m) + suffix, now).1, HandleMsg(n, fib, from, m, now).1;
    if out.Some? {
      SendsAreFan(n, peers, from, data.value, out.value, conns);
    }
  }

  /** HandleRouteUpdate on the bytes of a packet in flight, possibly followed by others, is
      one delivery: the same table, and the same packets on the wire. It is told all peers
      that are alive, connected or not. */
  lemma HandlingIsDelivery(nets: Nets, s: State, i: nat, suffix: Bytes, peers: seq<NodeID>, now: int,
                           conns: seq<NodeID>)
    requires Inv(nets, s) && ProperNets(nets) && i < |s.inflight|
    requires Orders(peers, AliveOf(s, s.inflight[i].dst)) && Orders(conns, ConnsOf(s, s.inflight[i].dst))
    ensures var pk := s.inflight[i];
            var (fib, out) := HandleBytes(pk.dst, TableOf(s, pk.dst), pk.src, EncodeRoute(pk.msg) + suffix, now);
            var a := Deliver(i, Others(peers, pk.src, conns), now);
            && Enabled(nets, s, a) && SameTables(s, Apply(s, a), pk.dst, fib)
            && Apply(s, a).inflight == Without(s.inflight, i) +
                 if out.None? then [] else Wire(pk.dst, SendsExcept(peers, pk.src, out.value), conns)
  {
    var pk := s.inflight[i];
    SoundIsSendable(nets, s, pk);
    OthersOrdered(peers, pk.src, conns);
    BytesOnWire(pk.dst, TableOf(s, pk.dst), pk.src, pk.msg, suffix, now, peers, conns);
    ReceiveEffect(s, i, Others(peers, pk.src, conns), now);
  }

  lemma SoundIsSendable(nets: Nets, s: State, pk: Packet)
    requires Inv(nets, s) && ProperNets(nets) && pk in s.inflight
    ensures Sendable(pk.msg)
  {
    assert PacketOk(nets, s.links, pk);
  }

  /** WithdrawAllFromPeer, on a connection that is gone, is one peer-down step. */
  lemma WithdrawingIsPeerDown(nets: Nets, s: State, n: NodeID, peer: NodeID, lost: seq<Route>, conns: seq<NodeID>)
    requires Inv(nets, s) && ProperNets(nets)
    requires Lists(lost, Lost(TableOf(s, n), peer)) && Orders(conns, ConnsOf(s, n) - {peer})
    ensures var a := PeerDown(n, peer, lost, conns);
            && Enabled(nets, s, a) && SameTables(s, Apply(s, a), n, WithoutPeer(TableOf(s, n), peer))
            && Apply(s, a).inflight == s.inflight + Wire(n, Broadcasts(Withdrawals(lost)), conns)
  {
    WithdrawalsSendable(nets, s, n, peer, lost);
    BroadcastsAreFans(n, Withdrawals(lost), conns);
    PeerDownEffect(s, n, peer, lost, conns);
  }

  lemma PeerDownEffect(s: State, n: NodeID, peer: NodeID, lost: seq<Route>, conns: seq<NodeID>)
    ensures var s' := Apply(s, PeerDown(n, peer, lost, conns));
            && SameTables(s, s', n, WithoutPeer(TableOf(s, n), peer))
            && s'.inflight == s.inflight + FanAll(n, Withdrawals(lost), conns)
  {
  }

  lemma WithdrawalsSendable(nets: Nets, s: State, n: NodeID, peer: NodeID, lost: seq<Route>)
    requires Inv(nets, s) && ProperNets(nets) && Lists(lost, Lost(TableOf(s, n), peer))
    ensures forall m :: m in Withdrawals(lost) ==> Sendable(m)
  {
    assert FibOk(nets, s.links, n, TableOf(s, n));
    forall m | m in Withdrawals(lost) ensures Sendable(m) {
      var r := WithdrawalOf(lost, m);
      assert RouteOk(nets, s.links, n, r);
    }
  }

  // ---- A tick of the advertise loop is a run ----

  function Originations(n: NodeID, nets: seq<IPNet>, conns: seq<NodeID>, now: int): seq<Action> {
    seq(|nets|, i requires 0 <= i < |nets| => Originate(n, nets[i], conns, now))
  }

  function Rebroadcasts(n: NodeID, sent: seq<Route>, conns: seq<NodeID>): seq<Action> {
    seq(|sent|, i requires 0 <= i < |sent| => Rebroadcast(n, RK(sent[i]), conns))
  }

  /** The run has changed the table of one node and put messages in flight. */
  ghost predicate Effect(nets: Nets, s: State, acts: seq<Action>, n: NodeID, fib: Fib, packets: seq<Packet>) {
    ValidRun(nets, s, acts) && Changed(s, Exec(nets, s, acts), n, fib, packets)
  }

  ghost predicate Changed(s: State, e: State, n: NodeID, fib: Fib, packets: seq<Packet>) {
    SameTables(s, e, n, fib) && e.conns == s.conns && e.alive == s.alive && e.inflight == s.inflight + packets
  }

  lemma EffectStep(nets: Nets, s: State, acts: seq<Action>, n: NodeID, fib: Fib, packets: seq<Packet>,
                   a: Action, after: Fib, more: seq<Packet>)
    requires Effect(nets, s, acts, n, fib, packets) && Effect(nets, Exec(nets, s, acts), [a], n, after, more)
    ensures Effect(nets, s, acts + [a], n, after, packets + more)
  {
    EffectJoin(nets, s, acts, n, fib, packets, [a], after, more);
  }

  lemma EffectJoin(nets: Nets, s: State, a: seq<Action>, n: NodeID, fib: Fib, p: seq<Packet>,
                   b: seq<Action>, after: Fib, q: seq<Packet>)
    requires Effect(nets, s, a, n, fib, p) && Effect(nets, Exec(nets, s, a), b, n, after, q)
    ensures Effect(nets, s, a + b, n, after, p + q)
  {
    RunJoin(nets, s, a, b);
    ChangesJoin(s, Exec(nets, s, a), Exec(nets, s, a + b), n, fib, p, after, q);
  }

  lemma ChangesJoin(s: State, e: State, f: State, n: NodeID, fib: Fib, p: seq<Packet>, after: Fib, q: seq<Packet>)
    requires Changed(s, e, n, fib, p) && Changed(e, f, n, after, q)
    ensures Changed(s, f, n, after, p + q)
  {
    assert s.inflight + p + q == s.inflight + (p + q);
  }

  lemma NoEffect(nets: Nets, s: State, n: NodeID)
    ensures Effect(nets, s, [], n, TableOf(s, n), [])
  {
    assert s.inflight + [] == s.inflight;
  }

  lemma OriginationEffect(nets: Nets, s: State, n: NodeID, net: IPNet, conns: seq<NodeID>, now: int)
    requires Orders(conns, ConnsOf(s, n)) && net in NetsOf(nets, n)
    ensures Effect(nets, s, [Originate(n, net, conns, now)], n,
                   Put(n, TableOf(s, n), LocalRoute(n, net), now).0, Fan(n, Advert(n, LocalRoute(n, net)), conns))
  {
    OneStep(nets, s, Originate(n, net, conns, now));
  }

  lemma {:induction false} OriginationsRun(nets: Nets, s: State, n: NodeID, own: seq<IPNet>,
                                           conns: seq<NodeID>, now: int)
    requires Orders(conns, ConnsOf(s, n)) && forall net :: net in own ==> net in NetsOf(nets, n)
    ensures Effect(nets, s, Originations(n, own, conns, now), n, AdvertisedFib(n, TableOf(s, n), own, now),
                   FanAll(n, Adverts(n, LocalRoutes(n, own)), conns))
  {
    if own == [] {
      NoEffect(nets, s, n);
      assert Originations(n, own, conns, now) == [] && Adverts(n, LocalRoutes(n, own)) == [];
    } else {
      var last := |own| - 1;
      var (front, acts) := (own[..last], Originations(n, own[..last], conns, now));
      OriginationsRun(nets, s, n, front, conns, now);
      var e := Exec(nets, s, acts);
      ConnsKept(s, e, n);
      OriginationEffect(nets, e, n, own[last], conns, now);
      var (ms, m) := (Adverts(n, LocalRoutes(n, front)), Advert(n, LocalRoute(n, own[last])));
      EffectStep(nets, s, acts, n, TableOf(e, n), FanAll(n, ms, conns), Originate(n, own[last], conns, now),
                 Put(n, TableOf(e, n), LocalRoute(n, own[last]), now).0, Fan(n, m, conns));
      assert Originations(n, own, conns, now) == acts + [Originate(n, own[last], conns, now)];
      assert Adverts(n, LocalRoutes(n, own)) == ms + [m];
      FanAllAppend(n, ms, m, conns);
    }
  }

  lemma ConnsKept(s: State, e: State, n: NodeID)
    requires e.conns == s.conns
    ensures ConnsOf(e, n) == ConnsOf(s, n)
  {
  }

  lemma RebroadcastEffect(nets: Nets, s: State, n: NodeID, rk: RouteKey, conns: seq<NodeID>)
    requires Orders(conns, ConnsOf(s, n)) && rk in TableOf(s, n)
    ensures Effect(nets, s, [Rebroadcast(n, rk, conns)], n, TableOf(s, n), Fan(n, Advert(n, TableOf(s, n)[rk]), conns))
  {
    OneStep(nets, s, Rebroadcast(n, rk, conns));
  }

  lemma {:induction false} RebroadcastsRun(nets: Nets, s: State, n: NodeID, sent: seq<Route>, conns: seq<NodeID>)
    requires Orders(conns, ConnsOf(s, n))
    requires forall r :: r in sent ==> RK(r) in TableOf(s, n) && TableOf(s, n)[RK(r)] == r
    ensures Effect(nets, s, Rebroadcasts(n, sent, conns), n, TableOf(s, n), FanAll(n, Adverts(n, sent), conns))
  {
    if sent == [] {
      NoEffect(nets, s, n);
      assert Rebroadcasts(n, sent, conns) == [] && Adverts(n, sent) == [];
    } else {
      var last := |sent| - 1;
      var (front, acts, r) := (sent[..last], Rebroadcasts(n, sent[..last], conns), sent[last]);
      assert r in sent;
      RebroadcastsRun(nets, s, n, front, conns);
      var e := Exec(nets, s, acts);
      ConnsKept(s, e, n);
      RebroadcastEffect(nets, e, n, RK(r), conns);
      EffectStep(nets, s, acts, n, TableOf(s, n), FanAll(n, Adverts(n, front), conns),
                 Rebroadcast(n, RK(r), conns), TableOf(s, n), Fan(n, Advert(n, r), conns));
      assert Rebroadcasts(n, sent, conns) == acts + [Rebroadcast(n, RK(r), conns)];
      assert Adverts(n, sent) == Adverts(n, front) + [Advert(n, r)];
      FanAllAppend(n, Adverts(n, front), Advert(n, r), conns);
    }
  }

  /** A tick of the advertise loop is the run that originates every attached network and
      then rebroadcasts every route of the table, each to all connections. */
  lemma TickIsRun(nets: Nets, s: State, n: NodeID, sent: seq<Route>, conns: seq<NodeID>, now: int)
    requires Inv(nets, s) && ProperNets(nets) && Orders(conns, ConnsOf(s, n))
    requires Lists(sent, AdvertisedFib(n, TableOf(s, n), NetsOf(nets, n), now))
    ensures var own := NetsOf(nets, n);
            Effect(nets, s, Originations(n, own, conns, now) + Rebroadcasts(n, sent, conns), n,
                   AdvertisedFib(n, TableOf(s, n), own, now),
                   Wire(n, Broadcasts(Adverts(n, LocalRoutes(n, own))) + Broadcasts(Adverts(n, sent)), conns))
  {
    var own := NetsOf(nets, n);
    var a := Originations(n, own, conns, now);
    OriginationsRun(nets, s, n, own, conns, now);
    var e := Exec(nets, s, a);
    RunKeepsInv(nets, s, a);
    ConnsKept(s, e, n);
    RebroadcastsRun(nets, e, n, sent, conns);
    TickOnWire(nets, e, n, sent, conns);
    EffectJoin(nets, s, a, n, TableOf(e, n), FanAll(n, Adverts(n, LocalRoutes(n, own)), conns),
               Rebroadcasts(n, sent, conns), TableOf(e, n), FanAll(n, Adverts(n, sent), conns));
  }

  lemma TickOnWire(nets: Nets, e: State, n: NodeID, sent: seq<Route>, conns: seq<NodeID>)
    requires Inv(nets, e) && ProperNets(nets) && Lists(sent, TableOf(e, n))
    ensures var (ms, rs) := (Adverts(n, LocalRoutes(n, NetsOf(nets, n))), Adverts(n, sent));
            Wire(n, Broadcasts(ms) + Broadcasts(rs), conns) == FanAll(n, ms, conns) + FanAll(n, rs, conns)
  {
    var (ms, rs) := (Adverts(n, LocalRoutes(n, NetsOf(nets, n))), Adverts(n, sent));
    AdvertsSendable(nets, e, n, sent);
    OwnSendable(nets, n);
    BroadcastsAreFans(n, ms, conns);
    BroadcastsAreFans(n, rs, conns);
    WireSum(n, Broadcasts(ms), Broadcasts(rs), conns);
  }

  lemma OwnSendable(nets: Nets, n: NodeID)
    requires ProperNets(nets)
    ensures forall m :: m in Adverts(n, LocalRoutes(n, NetsOf(nets, n))) ==> Sendable(m)
  {
  }

  lemma AdvertsSendable(nets: Nets, e: State, n: NodeID, sent: seq<Route>)
    requires Inv(nets, e) && ProperNets(nets) && Lists(sent, TableOf(e, n))
    ensures forall m :: m in Adverts(n, sent) ==> Sendable(m)
  {
    assert FibOk(nets, e.links, n, TableOf(e, n));
    forall m | m in Adverts(n, sent) ensures Sendable(m) {
      var i :| 0 <= i < |sent| && Adverts(n, sent)[i] == m;
      assert sent[i] in sent && RouteOk(nets, e.links, n, sent[i]);
    }
  }
}
