/** What a step does to single entries of the tables and what it puts on the wire, entry by
    entry and packet by packet, for every step of every node. */
module Effects {
  import opened Base
  import opened Addr
  import opened Table
  import opened WireRoute
  import opened Propagation
  import opened Network

  // ---- One message at one node ----

  /** The entry that a message is about, from this sender. */
  function EntryOf(from: NodeID, m: RouteMessage): RouteKey {
    RouteKey(KeyOf(m.prefix), m.origin, from)
  }

  /** The route that a node makes of an update. */
  function Heard(from: NodeID, m: RouteMessage, now: int): Route {
    Route(m.prefix, from, m.path, (m.cost + 1) % 0x1_0000_0000, m.origin, m.localPref, now)
  }

  /** The stored route says the same, up to its path and its age. */
  predicate Known(fib: Fib, r: Route) {
    RK(r) in fib && fib[RK(r)].cost == r.cost && fib[RK(r)].localPref == r.localPref
  }

  /** A withdrawal, any message whose lowest flag bit is set, takes out the routes of its
      origin for its prefix, whatever their next hop. All other routes stay as they are. */
  lemma WithdrawalEffect(self: NodeID, fib: Fib, from: NodeID, m: RouteMessage, now: int, rk: RouteKey)
    requires m.flags % 2 == 1
    ensures var after := HandleMsg(self, fib, from, m, now).0;
            && (rk in after <==> rk in fib && (rk.key != KeyOf(m.prefix) || rk.origin != m.origin))
            && (rk in after ==> after[rk] == fib[rk])
    ensures HandleMsg(self, fib, from, m, now).1 == Some(m)
  {
  }

  /** An update that names this node or has gone 32 hops changes nothing and goes nowhere. */
  lemma RejectedEffect(self: NodeID, fib: Fib, from: NodeID, m: RouteMessage, now: int)
    requires m.flags % 2 == 0 && (self in m.path || |m.path| >= 32)
    ensures HandleMsg(self, fib, from, m, now) == (fib, None)
  {
  }

  /** Any other update leaves all entries but its own alone. Its own keeps the stored path
      and becomes younger when cost and preference are those stored, and then nothing is
      passed on; otherwise it becomes the route that was heard, and is passed on with this
      node in front. */
  lemma UpdateEffect(self: NodeID, fib: Fib, from: NodeID, m: RouteMessage, now: int, rk: RouteKey)
    requires m.flags % 2 == 0 && self !in m.path && |m.path| < 32
    ensures var (after, out) := HandleMsg(self, fib, from, m, now);
            var (own, r) := (EntryOf(from, m), Heard(from, m, now));
            && (rk != own ==> (rk in after <==> rk in fib) && (rk in after ==> after[rk] == fib[rk]))
            && own in after
            && after[own] == (if Known(fib, r) then fib[own].(stamp := now) else r)
            && out == if Known(fib, r) then None
                      else Some(RouteMessage(0, m.prefix, r.cost, m.origin, m.localPref, [self] + m.path))
  {
  }

  /** The message that is passed on: a withdrawal as it came, an update if it was news, with
      this node in front of its path and one added to its cost. */
  function Passed(self: NodeID, fib: Fib, from: NodeID, m: RouteMessage): Option<RouteMessage> {
    if m.flags % 2 == 1 then Some(m)
    else if self in m.path || |m.path| >= 32 || Known(fib, Heard(from, m, 0)) then None
    else Some(RouteMessage(0, m.prefix, (m.cost + 1) % 0x1_0000_0000, m.origin, m.localPref, [self] + m.path))
  }

  lemma HandlingPasses(self: NodeID, fib: Fib, from: NodeID, m: RouteMessage, now: int)
    ensures HandleMsg(self, fib, from, m, now).1 == Passed(self, fib, from, m)
  {
    if m.flags % 2 == 1 {
      WithdrawalEffect(self, fib, from, m, now, EntryOf(from, m));
    } else if self in m.path || |m.path| >= 32 {
      RejectedEffect(self, fib, from, m, now);
    } else {
      UpdateEffect(self, fib, from, m, now, EntryOf(from, m));
    }
  }

  /** On bytes: what does not decode is ignored. A withdrawal goes on byte for byte, with
      whatever trails it, and an update that goes on is encoded anew. */
  lemma BytesEffect(self: NodeID, fib: Fib, from: NodeID, data: Bytes, now: int)
    ensures var (after, out) := HandleBytes(self, fib, from, data, now);
            match DecodeRoute(data)
            case Ok(m) =>
              && after == HandleMsg(self, fib, from, m, now).0
              && (out.Some? <==> Passed(self, fib, from, m).Some?)
              && (out.Some? ==>
                    out.value == if m.flags % 2 == 1 then data else EncodeRoute(Passed(self, fib, from, m).value))
            case _ => after == fib && out == None
  {
    if DecodeRoute(data).Ok? {
      HandlingPasses(self, fib, from, DecodeRoute(data).value, now);
    }
  }

  // ---- One step of the network ----

  /** The route that a step tells a node about, if any. */
  function News(s: State, a: Action, n: NodeID): Option<Route>
    requires a.Deliver? ==> a.i < |s.inflight|
  {
    match a
    case Originate(k, net, _, now) => if k == n then Some(Route(net, n, [], 1, n, 100, now)) else None
    case Deliver(i, _, now) =>
      var pk := s.inflight[i];
      if pk.dst == n && pk.msg.flags % 2 == 0 && n !in pk.msg.path && |pk.msg.path| < 32
      then Some(Heard(pk.src, pk.msg, now)) else None
    case _ => None
  }

  /** The step takes this entry out of the node's table. */
  predicate Removes(s: State, a: Action, n: NodeID, rk: RouteKey)
    requires a.Deliver? ==> a.i < |s.inflight|
    requires rk in TableOf(s, n)
  {
    match a
    case Deliver(i, _, _) =>
      var pk := s.inflight[i];
      pk.dst == n && pk.msg.flags % 2 == 1 && KeyOf(pk.msg.prefix) == rk.key && pk.msg.origin == rk.origin
    case Expire(k, now, ttl) => k == n && now - TableOf(s, n)[rk].stamp >= ttl
    case PeerDown(k, peer, _, _) => k == n && (rk.nextHop == peer || rk.origin == peer)
    case _ => false
  }

  lemma DeliverOnEntry(nets: Nets, s: State, a: Action, n: NodeID, rk: RouteKey)
    requires Enabled(nets, s, a) && a.Deliver?
    ensures EntryStep(s, a, n, rk)
  {
    var pk := s.inflight[a.i];
    TableAfter(s, a, n);
    if pk.dst == n {
      if pk.msg.flags % 2 == 1 {
        WithdrawalEffect(n, TableOf(s, n), pk.src, pk.msg, a.now, rk);
      } else if n in pk.msg.path || |pk.msg.path| >= 32 {
        RejectedEffect(n, TableOf(s, n), pk.src, pk.msg, a.now);
      } else {
        UpdateEffect(n, TableOf(s, n), pk.src, pk.msg, a.now, rk);
      }
    }
  }

  /** What a step does to one entry of one node. */
  ghost predicate EntryStep(s: State, a: Action, n: NodeID, rk: RouteKey)
    requires a.Deliver? || a.Drop? ==> a.i < |s.inflight|
    requires a.Rebroadcast? ==> a.rk in TableOf(s, a.n)
  {
    var (before, after, news) := (TableOf(s, n), TableOf(Apply(s, a), n), News(s, a, n));
    if news.Some? && RK(news.value) == rk then
      && rk in after
      && after[rk] == if Known(before, news.value) then before[rk].(stamp := news.value.stamp) else news.value
    else
      && (rk in after <==> rk in before && !Removes(s, a, n, rk))
      && (rk in after ==> after[rk] == before[rk])
  }

  /** Every step, at every node, on every entry: an entry leaves a table when it is
      withdrawn, expires or goes with a peer, and only then; one that the step brings news
      of is stored or refreshed; every other one stays as it is. */
  lemma StepOnEntry(nets: Nets, s: State, a: Action, n: NodeID, rk: RouteKey)
    requires Enabled(nets, s, a)
    ensures EntryStep(s, a, n, rk)
  {
    if a.Deliver? {
      DeliverOnEntry(nets, s, a, n, rk);
    } else {
      TableAfter(s, a, n);
    }
  }

  /** A withdrawal leaves every route of another prefix or another origin, at every node,
      where it is and as it is, whether or not its receiver stores the prefix. */
  lemma WithdrawalSparesOthers(nets: Nets, s: State, i: nat, targets: seq<NodeID>, now: int, n: NodeID, rk: RouteKey)
    requires Enabled(nets, s, Deliver(i, targets, now)) && IsWithdrawal(s.inflight[i].msg)
    requires var pk := s.inflight[i];
             n != pk.dst || rk.key != KeyOf(pk.msg.prefix) || rk.origin != pk.msg.origin
    ensures var after := TableOf(Apply(s, Deliver(i, targets, now)), n);
            && (rk in after <==> rk in TableOf(s, n))
            && (rk in after ==> after[rk] == TableOf(s, n)[rk])
  {
    StepOnEntry(nets, s, Deliver(i, targets, now), n, rk);
  }

  /** An entry changes its path only together with its cost or its preference. */
  lemma PathKept(nets: Nets, s: State, a: Action, n: NodeID, rk: RouteKey)
    requires Enabled(nets, s, a) && rk in TableOf(s, n) && rk in TableOf(Apply(s, a), n)
    ensures var (before, after) := (TableOf(s, n)[rk], TableOf(Apply(s, a), n)[rk]);
            after.cost == before.cost && after.localPref == before.localPref ==>
              after.path == before.path && after.dest == before.dest
  {
    StepOnEntry(nets, s, a, n, rk);
  }

  /** The entry is there all along the run, always with this cost and preference. */
  ghost predicate Steady(nets: Nets, s: State, acts: seq<Action>, n: NodeID, rk: RouteKey, cost: u32, pref: u32)
    requires ValidRun(nets, s, acts)
    decreases |acts|
  {
    && rk in TableOf(s, n) && TableOf(s, n)[rk].cost == cost && TableOf(s, n)[rk].localPref == pref
    && (acts == [] || Steady(nets, Apply(s, acts[0]), acts[1..], n, rk, cost, pref))
  }

  /** So the first path of a cost stays for as long as the entry does not change its cost or
      preference, whatever other paths are announced meanwhile. */
  lemma {:induction false} FirstPathStays(nets: Nets, s: State, acts: seq<Action>, n: NodeID, rk: RouteKey,
                                          cost: u32, pref: u32)
    requires ValidRun(nets, s, acts) && Steady(nets, s, acts, n, rk, cost, pref)
    ensures rk in TableOf(Exec(nets, s, acts), n)
    ensures TableOf(Exec(nets, s, acts), n)[rk].path == TableOf(s, n)[rk].path
    decreases |acts|
  {
    if acts != [] {
      PathKept(nets, s, acts[0], n, rk);
      FirstPathStays(nets, Apply(s, acts[0]), acts[1..], n, rk, cost, pref);
    }
  }

  /** A duplicate, with the cost and preference that are stored, makes its own entry younger.
      It changes nothing else at any node, and nothing is sent. */
  lemma DuplicateOnlyRefreshes(nets: Nets, s: State, i: nat, targets: seq<NodeID>, now: int, n: NodeID, rk: RouteKey)
    requires Enabled(nets, s, Deliver(i, targets, now))
    requires var (a, to) := (Deliver(i, targets, now), s.inflight[i].dst);
             News(s, a, to).Some? && Known(TableOf(s, to), News(s, a, to).value)
    ensures var (pk, s') := (s.inflight[i], Apply(s, Deliver(i, targets, now)));
            && s'.inflight == Without(s.inflight, i) && s'.conns == s.conns && s'.alive == s.alive
            && (rk in TableOf(s', n) <==> rk in TableOf(s, n))
            && (rk in TableOf(s', n) ==>
                  TableOf(s', n)[rk] == if n == pk.dst && rk == EntryOf(pk.src, pk.msg)
                                        then TableOf(s, n)[rk].(stamp := now) else TableOf(s, n)[rk])
  {
    var pk := s.inflight[i];
    StepOnEntry(nets, s, Deliver(i, targets, now), n, rk);
    UpdateEffect(pk.dst, TableOf(s, pk.dst), pk.src, pk.msg, now, rk);
    ReceiveEffect(s, i, targets, now);
    ReceiveKeepsLinks(s, i, targets, now);
    assert Without(s.inflight, i) + [] == Without(s.inflight, i);
  }

  // ---- What goes on the wire ----

  /** On the wire there is what was there before and then one message for each target. */
  ghost predicate Follows(before: seq<Packet>, after: seq<Packet>, src: NodeID, targets: seq<NodeID>, m: RouteMessage)
  {
    && |after| == |before| + |targets| && after[..|before|] == before
    && forall j :: 0 <= j < |targets| ==> after[|before| + j] == Packet(src, targets[j], m)
  }

  lemma FanFollows(before: seq<Packet>, src: NodeID, targets: seq<NodeID>, m: RouteMessage)
    ensures Follows(before, before + Fan(src, m, targets), src, targets, m)
  {
  }

  /** A delivery takes its message off the wire and puts the one that is passed on on it, if
      any, once for each target, and nothing else. */
  lemma DeliverySends(nets: Nets, s: State, i: nat, targets: seq<NodeID>, now: int)
    requires Enabled(nets, s, Deliver(i, targets, now))
    ensures var (pk, left) := (s.inflight[i], s.inflight[..i] + s.inflight[i + 1..]);
            var out := Passed(pk.dst, TableOf(s, pk.dst), pk.src, pk.msg);
            var after := Apply(s, Deliver(i, targets, now)).inflight;
            if out.None? then after == left else Follows(left, after, pk.dst, targets, out.value)
  {
    var pk := s.inflight[i];
    var out := Passed(pk.dst, TableOf(s, pk.dst), pk.src, pk.msg);
    ReceiveEffect(s, i, targets, now);
    HandlingPasses(pk.dst, TableOf(s, pk.dst), pk.src, pk.msg, now);
    if out.Some? {
      FanFollows(Without(s.inflight, i), pk.dst, targets, out.value);
    }
  }

  /** An origination and a rebroadcast put one update on the wire for each target: the path
      starts with this node, and a route of its own starts at cost 1 with preference 100. */
  lemma AnnouncementsSent(nets: Nets, s: State, a: Action)
    requires Enabled(nets, s, a) && (a.Originate? || a.Rebroadcast?)
    ensures Follows(s.inflight, Apply(s, a).inflight, a.n, a.targets,
                    if a.Originate? then RouteMessage(0, a.net, 1, a.n, 100, [a.n])
                    else var r := TableOf(s, a.n)[a.rk];
                         RouteMessage(0, r.dest, r.cost, r.origin, r.localPref, [a.n] + r.path))
  {
    var r := if a.Originate? then LocalRoute(a.n, a.net) else TableOf(s, a.n)[a.rk];
    FanFollows(s.inflight, a.n, a.targets, Advert(a.n, r));
    assert [a.n] + [] == [a.n];
  }

  /** A withdrawal of this prefix and origin from the node to a neighbour. */
  predicate Tells(pk: Packet, n: NodeID, to: NodeID, key: Key, origin: NodeID) {
    pk.src == n && pk.dst == to && pk.msg.flags % 2 == 1 && KeyOf(pk.msg.prefix) == key && pk.msg.origin == origin
  }

  /** A route for this prefix and origin that is via or from the peer. */
  ghost predicate HasVia(fib: Fib, peer: NodeID, key: Key, origin: NodeID) {
    exists rk :: rk in fib && rk.key == key && rk.origin == origin && (rk.nextHop == peer || rk.origin == peer)
  }

  lemma LostIsTold(fib: Fib, peer: NodeID, lost: seq<Route>, key: Key, origin: NodeID)
    requires WfFib(fib) && Lists(lost, Lost(fib, peer))
    ensures HasVia(fib, peer, key, origin) <==>
              exists m :: m in Withdrawals(lost) && KeyOf(m.prefix) == key && m.origin == origin
  {
    if rk :| rk in fib && rk.key == key && rk.origin == origin && (rk.nextHop == peer || rk.origin == peer) {
      assert fib[rk] in lost;
      var j :| 0 <= j < |lost| && lost[j] == fib[rk];
      assert Withdrawals(lost)[j] in Withdrawals(lost);
    }
    if m :| m in Withdrawals(lost) && KeyOf(m.prefix) == key && m.origin == origin {
      var r := WithdrawalOf(lost, m);
      assert RK(r) in Lost(fib, peer);
    }
  }

  /** After a peer loss a neighbour is sent a withdrawal of a prefix and origin exactly when
      some route for them was via or from the peer. */
  lemma PeerLossTells(nets: Nets, s: State, n: NodeID, peer: NodeID, lost: seq<Route>, targets: seq<NodeID>,
                      to: NodeID, key: Key, origin: NodeID)
    requires Enabled(nets, s, PeerDown(n, peer, lost, targets)) && to in ConnsOf(s, n) - {peer}
    requires WfFib(TableOf(s, n))
    ensures var (sent, before) := (Apply(s, PeerDown(n, peer, lost, targets)).inflight, |s.inflight|);
            && |sent| >= before && sent[..before] == s.inflight
            && ((exists pk :: pk in sent[before..] && Tells(pk, n, to, key, origin))
                <==> HasVia(TableOf(s, n), peer, key, origin))
  {
    var (msgs, sent) := (Withdrawals(lost), Apply(s, PeerDown(n, peer, lost, targets)).inflight);
    FanAllMembers(n, msgs, targets);
    LostIsTold(TableOf(s, n), peer, lost, key, origin);
    assert sent[|s.inflight|..] == FanAll(n, msgs, targets);
    if m :| m in msgs && KeyOf(m.prefix) == key && m.origin == origin {
      AllWithdraw(lost, m);
      assert Packet(n, to, m) in sent[|s.inflight|..];
    }
  }

  lemma AllWithdraw(lost: seq<Route>, m: RouteMessage)
    requires m in Withdrawals(lost)
    ensures m.flags % 2 == 1
  {
    var _ := WithdrawalOf(lost, m);
  }
}
