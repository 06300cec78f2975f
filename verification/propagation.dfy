/** How one node reacts to routing events: the decisions as functions on the table seen
    as a finite map, and the Propagator that carries them out over encoded messages. */
module Propagation {
  import opened Base
  import opened Addr
  import opened Table
  import opened WireRoute

  const LOCAL_PREF: u32 := 100

  // ---- Decisions, on decoded messages ----

  /** encodeRouteWithSelf before encoding: this node goes in front of the path. */
  function Advert(self: NodeID, r: Route): RouteMessage {
    RouteMessage(FLAG_UPDATE, r.dest, r.cost, r.origin, r.localPref, [self] + r.path)
  }

  function Withdrawal(r: Route): RouteMessage {
    RouteMessage(FLAG_WITHDRAW, r.dest, r.cost, r.origin, r.localPref, r.path)
  }

  function LocalRoute(self: NodeID, net: IPNet): Route {
    Route(net, self, [], 1, self, LOCAL_PREF, 0)
  }

  function Learn(from: NodeID, m: RouteMessage): Route {
    Route(m.prefix, from, m.path, AddU32(m.cost, 1), m.origin, m.localPref, 0)
  }

  /** HandleRouteUpdate on a decoded message: the new table, and the message that goes to
      every peer other than the sender, if any. */
  function HandleMsg(self: NodeID, fib: Fib, from: NodeID, m: RouteMessage, now: int)
      : (Fib, Option<RouteMessage>)
  {
    if IsWithdrawal(m) then (Withdrawn(fib, KeyOf(m.prefix), m.origin), Some(m))
    else if self in m.path || |m.path| >= MAX_HOPS then (fib, None)
    else
      var (after, passOn) := Put(self, fib, Learn(from, m), now);
      (after, if passOn then Some(Advert(self, Learn(from, m))) else None)
  }

  /** The same on bytes. A withdrawal is passed on as received, trailing bytes included. */
  function HandleBytes(self: NodeID, fib: Fib, from: NodeID, data: Bytes, now: int)
      : (Fib, Option<Bytes>)
  {
    match DecodeRoute(data)
    case Err => (fib, None)
    case Crash => (fib, None)
    case Ok(m) =>
      var (after, out) := HandleMsg(self, fib, from, m, now);
      (after, if out.None? then None
              else Some(if IsWithdrawal(m) then data else EncodeRoute(out.value)))
  }

  /** For a message that fits the format, working on bytes is working on the message, and
      what is sent on decodes to what was meant, whatever bytes trail the input. */
  lemma BytesCarryMessages(self: NodeID, fib: Fib, from: NodeID, m: RouteMessage, suffix: Bytes, now: int)
    requires Encodable(m.prefix) && |m.path| <= MAX_HOPS
    ensures var (onBytes, onMsg) := (HandleBytes(self, fib, from, EncodeRoute(m) + suffix, now),
                                     HandleMsg(self, fib, from, m, now));
            && onBytes.0 == onMsg.0
            && (onBytes.1.Some? <==> onMsg.1.Some?)
            && (onMsg.1.Some? ==> DecodeRoute(onBytes.1.value) == Ok(onMsg.1.value))
  {
    RouteRoundTrip(m, suffix);
    var out := HandleMsg(self, fib, from, m, now).1;
    if out.Some? && !IsWithdrawal(m) {
      RouteRoundTrip(out.value, []);
      assert EncodeRoute(out.value) + [] == EncodeRoute(out.value);
    }
  }

  /** AdvertiseDirectNetworks on the table: every attached network is put in again. */
  function AdvertisedFib(self: NodeID, fib: Fib, nets: seq<IPNet>, now: int): Fib {
    if nets == [] then fib
    else
      var last := |nets| - 1;
      Put(self, AdvertisedFib(self, fib, nets[..last], now), LocalRoute(self, nets[last]), now).0
  }

  // ---- The Propagator ----

  /** What leaves the node: sendFunc to one peer, or broadcastFunc to all connections. */
  datatype Output = SendTo(peer: NodeID, msg: Bytes) | Broadcast(msg: Bytes)

  function SendsExcept(peers: seq<NodeID>, except: NodeID, msg: Bytes): seq<Output> {
    if peers == [] then []
    else
      var last := |peers| - 1;
      SendsExcept(peers[..last], except, msg) + if peers[last] == except then [] else [SendTo(peers[last], msg)]
  }

  function Broadcasts(msgs: seq<RouteMessage>): seq<Output> {
    seq(|msgs|, i requires 0 <= i < |msgs| => Broadcast(EncodeRoute(msgs[i])))
  }

  function Adverts(self: NodeID, rs: seq<Route>): seq<RouteMessage> {
    seq(|rs|, i requires 0 <= i < |rs| => Advert(self, rs[i]))
  }

  function Withdrawals(rs: seq<Route>): seq<RouteMessage> {
    seq(|rs|, i requires 0 <= i < |rs| => Withdrawal(rs[i]))
  }

  function LocalRoutes(self: NodeID, nets: seq<IPNet>): seq<Route> {
    seq(|nets|, i requires 0 <= i < |nets| => LocalRoute(self, nets[i]))
  }

  /** The routes that leave the table with a peer. */
  function Lost(fib: Fib, peer: NodeID): Fib {
    map rk | rk in fib && (rk.nextHop == peer || rk.origin == peer) :: fib[rk]
  }

  lemma LostAndKept(fib: Fib, peer: NodeID)
    ensures |fib| == |WithoutPeer(fib, peer)| + |Lost(fib, peer)|
  {
    var kept, lost := WithoutPeer(fib, peer), Lost(fib, peer);
    assert fib.Keys == kept.Keys + lost.Keys && kept.Keys !! lost.Keys;
  }

  lemma BroadcastsStep(msgs: seq<RouteMessage>, i: nat)
    requires i < |msgs|
    ensures Broadcasts(msgs[..i + 1]) == Broadcasts(msgs[..i]) + [Broadcast(EncodeRoute(msgs[i]))]
  {
  }

  lemma WithdrawalsStep(rs: seq<Route>, r: Route)
    ensures Broadcasts(Withdrawals(rs + [r]))
            == Broadcasts(Withdrawals(rs)) + [Broadcast(EncodeRoute(Withdrawal(r)))]
  {
  }

  /** What has been sent, and then the broadcasts of the attached networks. */
  ghost function OwnAdverts(self: NodeID, sent: seq<Output>, nets: seq<IPNet>): seq<Output> {
    if nets == [] then sent
    else
      var last := |nets| - 1;
      OwnAdverts(self, sent, nets[..last]) + [Broadcast(EncodeRoute(Advert(self, LocalRoute(self, nets[last]))))]
  }

  lemma AdvertisedStep(self: NodeID, fib: Fib, sent: seq<Output>, nets: seq<IPNet>, i: nat, now: int)
    requires i < |nets|
    ensures AdvertisedFib(self, fib, nets[..i + 1], now)
            == Put(self, AdvertisedFib(self, fib, nets[..i], now), LocalRoute(self, nets[i]), now).0
    ensures OwnAdverts(self, sent, nets[..i + 1])
            == OwnAdverts(self, sent, nets[..i]) + [Broadcast(EncodeRoute(Advert(self, LocalRoute(self, nets[i]))))]
  {
    assert nets[..i + 1][..i] == nets[..i];
  }

  lemma {:induction false} OwnAdvertsAre(self: NodeID, sent: seq<Output>, nets: seq<IPNet>)
    ensures OwnAdverts(self, sent, nets) == sent + Broadcasts(Adverts(self, LocalRoutes(self, nets)))
  {
    if nets != [] {
      var (front, last) := (nets[..|nets| - 1], nets[|nets| - 1]);
      OwnAdvertsAre(self, sent, front);
      var msgs := Adverts(self, LocalRoutes(self, nets));
      assert msgs[..|nets| - 1] == Adverts(self, LocalRoutes(self, front));
      BroadcastsStep(msgs, |nets| - 1);
      assert msgs[..|nets|] == msgs;
    }
  }

  class Propagator {
    const selfID: NodeID
    const table: RoutingTable
    var outbox: seq<Output>

    ghost predicate Valid()
      reads this, table
    {
      table.Valid() && table.selfID == selfID
    }

    constructor (table: RoutingTable, selfID: NodeID)
      requires table.Valid() && table.selfID == selfID
      ensures Valid() && this.table == table && this.selfID == selfID && outbox == []
    {
      this.table, this.selfID, outbox := table, selfID, [];
    }

    /** ASPath.Contains. */
    static method PathContains(hops: seq<NodeID>, id: NodeID) returns (found: bool)
      ensures found <==> id in hops
    {
      for i := 0 to |hops|
        invariant id !in hops[..i]
      {
        if hops[i] == id {
          return true;
        }
      }
      assert hops[..|hops|] == hops;
      return false;
    }

    method Emit(m: RouteMessage)
      modifies this`outbox
      ensures outbox == old(outbox) + [Broadcast(EncodeRoute(m))]
    {
      var encoded := EncodeRouteMessage(m);
      outbox := outbox + [Broadcast(encoded[..])];
    }

    method SendExcept(peers: seq<NodeID>, except: NodeID, msg: Bytes)
      modifies this`outbox
      ensures outbox == old(outbox) + SendsExcept(peers, except, msg)
    {
      for i := 0 to |peers|
        invariant outbox == old(outbox) + SendsExcept(peers[..i], except, msg)
      {
        assert peers[..i + 1][..i] == peers[..i];
        if peers[i] != except {
          outbox := outbox + [SendTo(peers[i], msg)];
        }
      }
      assert peers[..|peers|] == peers;
    }

    /** crashed reports that decoding indexed past its input, which ends the process. */
    method HandleRouteUpdate(from: NodeID, data: Bytes, peers: seq<NodeID>, now: int) returns (crashed: bool)
      requires Valid()
      modifies this`outbox, table`routes, table`fib
      ensures Valid()
      ensures crashed <==> DecodeRoute(data).Crash?
      ensures table.fib == HandleBytes(selfID, old(table.fib), from, data, now).0
      ensures outbox == old(outbox) +
                        match HandleBytes(selfID, old(table.fib), from, data, now).1
                        case None => []
                        case Some(msg) => SendsExcept(peers, from, msg)
    {
      var decoded := DecodeRouteMessage(data);
      if !decoded.Ok? {
        return decoded.Crash?;
      }
      crashed := false;
      var m := decoded.value;
      if IsWithdrawal(m) {
        table.RemoveRoute(m.prefix, m.origin);
        SendExcept(peers, from, data);
        return;
      }
      var looped := PathContains(m.path, selfID);
      if looped {
        return;
      }
      if |m.path| >= MAX_HOPS {
        return;
      }
      var route := Route(m.prefix, from, m.path, AddU32(m.cost, 1), m.origin, m.localPref, 0);
      var changed := table.AddRoute(route, now);
      if changed {
        var encoded := EncodeRouteMessage(Advert(selfID, route));
        SendExcept(peers, from, encoded[..]);
      }
    }

    /** One attached network: into the table, and out to every connection either way. */
    method AdvertiseOne(net: IPNet, now: int)
      requires Valid()
      modifies this`outbox, table`routes, table`fib
      ensures Valid()
      ensures table.fib == Put(selfID, old(table.fib), LocalRoute(selfID, net), now).0
      ensures outbox == old(outbox) + [Broadcast(EncodeRoute(Advert(selfID, LocalRoute(selfID, net))))]
    {
      var route := LocalRoute(selfID, net);
      var _ := table.AddRoute(route, now);
      Emit(Advert(selfID, route));
    }

    /** One round of the loop over the attached networks. */
    method AdvertiseNext(nets: seq<IPNet>, i: nat, now: int, ghost was: Fib, ghost sent: seq<Output>)
      requires Valid() && i < |nets|
      requires table.fib == AdvertisedFib(selfID, was, nets[..i], now)
      requires outbox == OwnAdverts(selfID, sent, nets[..i])
      modifies this`outbox, table`routes, table`fib
      ensures Valid()
      ensures table.fib == AdvertisedFib(selfID, was, nets[..i + 1], now)
      ensures outbox == OwnAdverts(selfID, sent, nets[..i + 1])
    {
      AdvertisedStep(selfID, was, sent, nets, i, now);
      AdvertiseOne(nets[i], now);
    }

    method AdvertiseAll(nets: seq<IPNet>, now: int)
      requires Valid()
      modifies this`outbox, table`routes, table`fib
      ensures Valid()
      ensures table.fib == AdvertisedFib(selfID, old(table.fib), nets, now)
      ensures outbox == OwnAdverts(selfID, old(outbox), nets)
    {
      ghost var (was, sent) := (table.fib, outbox);
      for i := 0 to |nets|
        invariant Valid()
        invariant table.fib == AdvertisedFib(selfID, was, nets[..i], now)
        invariant outbox == OwnAdverts(selfID, sent, nets[..i])
      {
        AdvertiseNext(nets, i, now, was, sent);
      }
      assert nets[..|nets|] == nets;
    }

    method AdvertiseDirectNetworks(now: int)
      requires Valid()
      modifies this`outbox, table`routes, table`fib
      ensures Valid()
      ensures table.fib == AdvertisedFib(selfID, old(table.fib), table.directNetworks, now)
      ensures outbox == old(outbox) + Broadcasts(Adverts(selfID, LocalRoutes(selfID, table.directNetworks)))
    {
      OwnAdvertsAre(selfID, outbox, table.directNetworks);
      AdvertiseAll(table.directNetworks, now);
    }

    method BroadcastAdverts(routes: seq<Route>)
      modifies this`outbox
      ensures outbox == old(outbox) + Broadcasts(Adverts(selfID, routes))
    {
      ghost var msgs := Adverts(selfID, routes);
      for i := 0 to |routes|
        invariant outbox == old(outbox) + Broadcasts(msgs[..i])
      {
        BroadcastsStep(msgs, i);
        Emit(Advert(selfID, routes[i]));
      }
      assert msgs[..|routes|] == msgs;
    }

    /** One tick of the advertise loop: attached networks, then every route of the table. */
    method AdvertiseTick(now: int) returns (ghost sent: seq<Route>)
      requires Valid()
      modifies this`outbox, table`routes, table`fib
      ensures Valid()
      ensures table.fib == AdvertisedFib(selfID, old(table.fib), table.directNetworks, now)
      ensures Lists(sent, table.fib)
      ensures outbox == old(outbox)
                        + Broadcasts(Adverts(selfID, LocalRoutes(selfID, table.directNetworks)))
                        + Broadcasts(Adverts(selfID, sent))
    {
      AdvertiseDirectNetworks(now);
      var routes := table.GetAllRoutes();
      BroadcastAdverts(routes);
      sent := routes;
    }

    method BroadcastWithdrawals(routes: seq<Route>, peer: NodeID, ghost hit: Route -> bool)
      requires forall r :: hit(r) <==> r.nextHop == peer || r.origin == peer
      modifies this`outbox
      ensures outbox == old(outbox) + Broadcasts(Withdrawals(Filter(routes, hit)))
    {
      ghost var lost: seq<Route> := [];
      for i := 0 to |routes|
        invariant lost == Filter(routes[..i], hit)
        invariant outbox == old(outbox) + Broadcasts(Withdrawals(lost))
      {
        var r := routes[i];
        FilterAppend(routes[..i], r, hit);
        assert routes[..i + 1] == routes[..i] + [r];
        if r.nextHop == peer || r.origin == peer {
          WithdrawalsStep(lost, r);
          Emit(Withdrawal(r));
          lost := lost + [r];
        }
      }
      assert routes[..|routes|] == routes;
    }

    /** Every route lost with the peer is withdrawn once, and nothing else is. */
    method WithdrawAllFromPeer(peer: NodeID) returns (ghost lost: seq<Route>)
      requires Valid()
      modifies this`outbox, table`routes, table`fib
      ensures Valid() && table.fib == WithoutPeer(old(table.fib), peer)
      ensures Lists(lost, Lost(old(table.fib), peer))
      ensures outbox == old(outbox) + Broadcasts(Withdrawals(lost))
      ensures |old(table.fib)| == |table.fib| + |lost|
    {
      var routes := table.GetAllRoutes();
      ghost var hit := (r: Route) => r.nextHop == peer || r.origin == peer;
      LostListed(routes, table.fib, peer, hit);
      table.RemoveAllFromOrigin(peer);
      BroadcastWithdrawals(routes, peer, hit);
      lost := Filter(routes, hit);
    }
  }

  lemma LostListed(routes: seq<Route>, fib: Fib, peer: NodeID, hit: Route -> bool)
    requires Lists(routes, fib) && WfFib(fib)
    requires forall r :: hit(r) <==> r.nextHop == peer || r.origin == peer
    ensures Lists(Filter(routes, hit), Lost(fib, peer))
    ensures |fib| == |WithoutPeer(fib, peer)| + |Filter(routes, hit)|
  {
    FilterDistinct(routes, hit);
    FilterMembers(routes, hit);
    LostAndKept(fib, peer);
    ListsCount(Filter(routes, hit), Lost(fib, peer));
  }

  lemma ListsCount(s: seq<Route>, fib: Fib)
    requires Lists(s, fib) && WfFib(fib)
    ensures |s| == |fib|
  {
    NamesCount(s);
    forall rk | rk in fib ensures rk in Names(s) {
      assert fib[rk] in s;
    }
    assert Names(s) == fib.Keys;
  }
}
