/** The gossip peer table: a versioned record per peer, merged from pushes. */
module Gossip {
  import opened Base

  /** States are a byte on the wire. Other values, like the one for a peer that left, are
      stored as they come. */
  const ALIVE: byte := 0
  const SUSPECT: byte := 1
  const DEAD: byte := 2

  datatype Peer = Peer(id: NodeID, pubKey: Bytes, addr: Bytes, state: byte, version: u64,
                       lastSeen: int, nets: seq<Bytes>)

  /** Records are ordered by version first, and an alive record beats others of its version. */
  datatype Rank = Rank(version: u64, alive: bool)

  function RankOf(p: Peer): Rank {
    Rank(p.version, p.state == ALIVE)
  }

  predicate Leq(a: Rank, b: Rank) {
    a.version < b.version || (a.version == b.version && (a.alive ==> b.alive))
  }

  function Join(a: Rank, b: Rank): (r: Rank)
    ensures Leq(a, r) && Leq(b, r)
    ensures forall u :: Leq(a, u) && Leq(b, u) ==> Leq(r, u)
  {
    if Leq(a, b) then b else a
  }

  type Peers = map<NodeID, Peer>

  const TWO_64_MINUS_1: u64 := 0xffff_ffff_ffff_ffff

  function Bump(v: u64): u64 {
    (v + 1) % TWO_64
  }

  // ---- The operations on the table as a map ----

  function Merged(self: NodeID, ps: Peers, p: Peer, now: int): (Peers, bool) {
    if p.id == self then (ps, false)
    else if p.id !in ps then (ps[p.id := p.(lastSeen := now, version := 1)], true)
    else
      var e := ps[p.id];
      if p.version > e.version || (p.version == e.version && p.state == ALIVE) then
        (ps[p.id := e.(state := p.state, version := p.version, addr := p.addr, lastSeen := now, nets := p.nets,
                       pubKey := if |p.pubKey| > 0 then p.pubKey else e.pubKey)], true)
      else (ps, false)
  }

  function Suspected(ps: Peers, id: NodeID): Peers {
    if id in ps && ps[id].state == ALIVE
    then ps[id := ps[id].(state := SUSPECT, version := Bump(ps[id].version))] else ps
  }

  function Died(ps: Peers, id: NodeID): Peers {
    if id in ps then ps[id := ps[id].(state := DEAD, version := Bump(ps[id].version))] else ps
  }

  function Revived(ps: Peers, id: NodeID, now: int): Peers {
    if id in ps then ps[id := ps[id].(state := ALIVE, lastSeen := now)] else ps
  }

  /** handlePush: one entry after the other; entries about the node itself are skipped. */
  function Pushed(self: NodeID, ps: Peers, entries: seq<Peer>, now: int): Peers {
    if entries == [] then ps
    else
      var last := |entries| - 1;
      Merged(self, Pushed(self, ps, entries[..last], now), entries[last], now).0
  }

  /** The entries that were new or newer, in order: onPeerDiscovered is told of these. */
  function Discovered(self: NodeID, ps: Peers, entries: seq<Peer>, now: int): seq<Peer> {
    if entries == [] then []
    else
      var last := |entries| - 1;
      Discovered(self, ps, entries[..last], now)
      + if Merged(self, Pushed(self, ps, entries[..last], now), entries[last], now).1 then [entries[last]] else []
  }

  /** The record with which AddDirectConnection registers a peer. */
  function Connected(id: NodeID, addr: Bytes): Peer {
    Peer(id, [], addr, ALIVE, 0, 0, [])
  }

  class PeerManager {
    const selfID: NodeID
    var peers: Peers

    /** A record is stored under its own identifier, and never for the node itself. */
    ghost predicate Valid()
      reads this
    {
      WfPeers(selfID, peers)
    }

    constructor (selfID: NodeID)
      ensures Valid() && peers == map[] && this.selfID == selfID
    {
      this.selfID, peers := selfID, map[];
    }

    method AddOrUpdate(p: Peer, now: int) returns (changed: bool)
      requires Valid()
      modifies this
      ensures Valid() && (peers, changed) == Merged(selfID, old(peers), p, now)
    {
      if p.id == selfID {
        return false;
      }
      if p.id !in peers {
        peers := peers[p.id := p.(lastSeen := now, version := 1)];
        return true;
      }
      var existing := peers[p.id];
      if p.version > existing.version || (p.version == existing.version && p.state == ALIVE) {
        var cp := existing.(state := p.state, version := p.version, addr := p.addr, lastSeen := now, nets := p.nets);
        if |p.pubKey| > 0 {
          cp := cp.(pubKey := p.pubKey);
        }
        peers := peers[p.id := cp];
        return true;
      }
      return false;
    }

    method Remove(id: NodeID)
      requires Valid()
      modifies this
      ensures Valid() && peers == old(peers) - {id}
    {
      peers := peers - {id};
    }

    method MarkSuspect(id: NodeID)
      requires Valid()
      modifies this
      ensures Valid() && peers == Suspected(old(peers), id)
    {
      if id !in peers {
        return;
      }
      if peers[id].state == ALIVE {
        peers := peers[id := peers[id].(state := SUSPECT, version := Bump(peers[id].version))];
      }
    }

    method MarkDead(id: NodeID)
      requires Valid()
      modifies this
      ensures Valid() && peers == Died(old(peers), id)
    {
      if id !in peers {
        return;
      }
      peers := peers[id := peers[id].(state := DEAD, version := Bump(peers[id].version))];
    }

    method MarkAlive(id: NodeID, now: int)
      requires Valid()
      modifies this
      ensures Valid() && peers == Revived(old(peers), id, now)
    {
      if id !in peers {
        return;
      }
      peers := peers[id := peers[id].(state := ALIVE, lastSeen := now)];
    }

    /** Engine.handlePush. */
    method HandlePush(entries: seq<Peer>, now: int) returns (discovered: seq<Peer>)
      requires Valid()
      modifies this
      ensures Valid() && peers == Pushed(selfID, old(peers), entries, now)
      ensures discovered == Discovered(selfID, old(peers), entries, now)
    {
      discovered := [];
      for i := 0 to |entries|
        invariant Valid() && peers == Pushed(selfID, old(peers), entries[..i], now)
        invariant discovered == Discovered(selfID, old(peers), entries[..i], now)
      {
        assert entries[..i + 1][..i] == entries[..i];
        if entries[i].id != selfID {
          var isNew := AddOrUpdate(entries[i], now);
          if isNew {
            discovered := discovered + [entries[i]];
          }
        }
      }
      assert entries[..|entries|] == entries;
    }
  }

  ghost predicate WfPeers(self: NodeID, ps: Peers) {
    self !in ps && forall id :: id in ps ==> ps[id].id == id
  }

  // ---- What one merge does ----

  /** A peer that was never seen enters as the record says, except that it was seen now and
      that its version is 1 whatever the record claims. */
  lemma FirstSight(self: NodeID, ps: Peers, p: Peer, now: int, id: NodeID)
    requires p.id != self && p.id !in ps
    ensures var (after, changed) := Merged(self, ps, p, now);
            && changed && p.id in after
            && after[p.id] == Peer(p.id, p.pubKey, p.addr, p.state, 1, now, p.nets)
            && (id != p.id ==> (id in after <==> id in ps) && (id in after ==> after[id] == ps[id]))
  {
  }

  /** The record is news about a peer that is known: a newer version, or an alive peer of
      the same version. */
  predicate Newer(p: Peer, e: Peer) {
    p.version > e.version || (p.version == e.version && p.state == ALIVE)
  }

  /** News about a known peer replaces state, version, address and networks together, marks
      it as seen now, and replaces the key unless the record has none. */
  lemma NewsTakesOver(self: NodeID, ps: Peers, p: Peer, now: int, id: NodeID)
    requires p.id != self && p.id in ps && ps[p.id].id == p.id && Newer(p, ps[p.id])
    ensures var (after, changed) := Merged(self, ps, p, now);
            && changed && p.id in after
            && after[p.id] == Peer(p.id, if p.pubKey == [] then ps[p.id].pubKey else p.pubKey, p.addr, p.state,
                                   p.version, now, p.nets)
            && (id != p.id ==> (id in after <==> id in ps) && (id in after ==> after[id] == ps[id]))
  {
  }

  /** A merge reports a change exactly when the record is about another node and is its first
      or is news, and otherwise nothing changes. */
  lemma ChangeReported(self: NodeID, ps: Peers, p: Peer, now: int)
    ensures Merged(self, ps, p, now).1 <==> p.id != self && (p.id !in ps || Newer(p, ps[p.id]))
    ensures !Merged(self, ps, p, now).1 ==> Merged(self, ps, p, now).0 == ps
  {
  }

  /** The callback hears of a peer exactly when some entry of the push is its first or is
      news about it; otherwise its record stays as it is. */
  lemma {:induction false} ReportedIff(self: NodeID, ps: Peers, entries: seq<Peer>, now: int, id: NodeID)
    ensures var heard := exists p :: p in Discovered(self, ps, entries, now) && p.id == id;
            && (heard <==> exists p :: p in entries && p.id == id != self && (id !in ps || Newer(p, ps[id])))
            && (!heard ==> var after := Pushed(self, ps, entries, now);
                           (id in after <==> id in ps) && (id in after ==> after[id] == ps[id]))
    ensures forall p :: p in Discovered(self, ps, entries, now) ==> p in entries
  {
    if entries != [] {
      var (front, last) := (entries[..|entries| - 1], entries[|entries| - 1]);
      ReportedIff(self, ps, front, now, id);
      ChangeReported(self, Pushed(self, ps, front, now), last, now);
      assert entries == front + [last];
    }
  }

  /** Marking a peer touches its state, its version and, for one that is alive, the time it
      was seen. Only an alive peer becomes suspect; every known peer can become dead. */
  lemma MarksTouchLittle(ps: Peers, id: NodeID, now: int, other: NodeID)
    requires id in ps
    ensures var (e, s, d, a) := (ps[id], Suspected(ps, id), Died(ps, id), Revived(ps, id, now));
            && s.Keys == d.Keys == a.Keys == ps.Keys
            && (other in ps && other != id ==> s[other] == d[other] == a[other] == ps[other])
            && s[id] == (if e.state == ALIVE
                         then Peer(e.id, e.pubKey, e.addr, SUSPECT, Bump(e.version), e.lastSeen, e.nets) else e)
            && d[id] == Peer(e.id, e.pubKey, e.addr, DEAD, Bump(e.version), e.lastSeen, e.nets)
            && a[id] == Peer(e.id, e.pubKey, e.addr, ALIVE, e.version, now, e.nets)
  {
  }

  /** Marking somebody whom the table does not know changes nothing. */
  lemma UnknownUnmarked(ps: Peers, id: NodeID, now: int)
    requires id !in ps
    ensures Suspected(ps, id) == ps && Died(ps, id) == ps && Revived(ps, id, now) == ps
  {
  }

  // ---- The merge is a join ----

  /** On a known peer a push moves the rank to the join of the old and the pushed rank. */
  lemma MergeIsJoin(self: NodeID, ps: Peers, p: Peer, now: int)
    requires WfPeers(self, ps) && p.id in ps
    ensures var after := Merged(self, ps, p, now).0;
            && after.Keys == ps.Keys
            && RankOf(after[p.id]) == Join(RankOf(ps[p.id]), RankOf(p))
            && (forall id :: id in ps && id != p.id ==> after[id] == ps[id])
  {
  }

  /** The join of a rank and the ranks of all entries about one peer. */
  function JoinAll(r: Rank, id: NodeID, entries: seq<Peer>): Rank {
    if entries == [] then r
    else
      var last := |entries| - 1;
      var before := JoinAll(r, id, entries[..last]);
      if entries[last].id == id then Join(before, RankOf(entries[last])) else before
  }

  lemma {:induction false} PushIsJoin(self: NodeID, ps: Peers, entries: seq<Peer>, now: int, id: NodeID)
    requires WfPeers(self, ps) && id in ps
    ensures var after := Pushed(self, ps, entries, now);
            WfPeers(self, after) && id in after && RankOf(after[id]) == JoinAll(RankOf(ps[id]), id, entries)
  {
    if entries != [] {
      var last := |entries| - 1;
      var before := Pushed(self, ps, entries[..last], now);
      PushIsJoin(self, ps, entries[..last], now, id);
      if entries[last].id in before {
        MergeIsJoin(self, before, entries[last], now);
      }
    }
  }

  lemma {:induction false} JoinAllIsLeast(r: Rank, id: NodeID, entries: seq<Peer>)
    ensures Leq(r, JoinAll(r, id, entries))
    ensures forall p :: p in entries && p.id == id ==> Leq(RankOf(p), JoinAll(r, id, entries))
    ensures forall u :: Leq(r, u) && (forall p :: p in entries && p.id == id ==> Leq(RankOf(p), u)) ==>
              Leq(JoinAll(r, id, entries), u)
  {
    if entries != [] {
      var last := |entries| - 1;
      JoinAllIsLeast(r, id, entries[..last]);
      assert entries == entries[..last] + [entries[last]];
      assert entries[last] in entries && forall p :: p in entries[..last] ==> p in entries;
    }
  }

  // ---- Sequences of pushes ----

  /** One record merged at one reading of the clock. */
  datatype Timed = Timed(p: Peer, at: int)

  function MergedAll(self: NodeID, ps: Peers, ms: seq<Timed>): Peers {
    if ms == [] then ps
    else
      var last := |ms| - 1;
      Merged(self, MergedAll(self, ps, ms[..last]), ms[last].p, ms[last].at).0
  }

  function Records(ms: seq<Timed>): (r: seq<Peer>)
    ensures |r| == |ms|
  {
    seq(|ms|, i requires 0 <= i < |ms| => ms[i].p)
  }

  function At(entries: seq<Peer>, now: int): seq<Timed> {
    seq(|entries|, i requires 0 <= i < |entries| => Timed(entries[i], now))
  }

  /** One push after the other is one sequence of merges. */
  lemma {:induction false} PushContinues(self: NodeID, ps: Peers, ms: seq<Timed>, entries: seq<Peer>, now: int)
    ensures MergedAll(self, ps, ms + At(entries, now)) == Pushed(self, MergedAll(self, ps, ms), entries, now)
  {
    var all := ms + At(entries, now);
    if entries == [] {
      assert all == ms;
    } else {
      var last := |entries| - 1;
      PushContinues(self, ps, ms, entries[..last], now);
      assert all[..|all| - 1] == ms + At(entries[..last], now);
      assert all[|all| - 1] == Timed(entries[last], now);
    }
  }

  lemma {:induction false} MergesContinue(self: NodeID, ps: Peers, a: seq<Timed>, b: seq<Timed>)
    ensures MergedAll(self, ps, a + b) == MergedAll(self, MergedAll(self, ps, a), b)
  {
    if b == [] {
      assert a + b == a;
    } else {
      assert (a + b)[..|a + b| - 1] == a + b[..|b| - 1];
      MergesContinue(self, ps, a, b[..|b| - 1]);
    }
  }

  lemma {:induction false} MergesJoin(self: NodeID, ps: Peers, ms: seq<Timed>, id: NodeID)
    requires WfPeers(self, ps) && id in ps
    ensures var after := MergedAll(self, ps, ms);
            && WfPeers(self, after) && id in after
            && RankOf(after[id]) == JoinAll(RankOf(ps[id]), id, Records(ms))
  {
    if ms != [] {
      var last := |ms| - 1;
      MergesJoin(self, ps, ms[..last], id);
      assert Records(ms)[..last] == Records(ms[..last]);
      var before := MergedAll(self, ps, ms[..last]);
      if ms[last].p.id in before {
        MergeIsJoin(self, before, ms[last].p, ms[last].at);
      }
    }
  }

  ghost predicate SameRecords(es: seq<Timed>, fs: seq<Timed>, id: NodeID) {
    forall p: Peer :: p.id == id ==> (p in Records(es) <==> p in Records(fs))
  }

  lemma SameJoin(r: Rank, es: seq<Timed>, fs: seq<Timed>, id: NodeID)
    requires SameRecords(es, fs, id)
    ensures JoinAll(r, id, Records(es)) == JoinAll(r, id, Records(fs))
  {
    var (x, y) := (JoinAll(r, id, Records(es)), JoinAll(r, id, Records(fs)));
    JoinAllIsLeast(r, id, Records(es));
    JoinAllIsLeast(r, id, Records(fs));
    assert Leq(x, y) && Leq(y, x);
  }

  /** Two sequences of pushes with the same records about a known peer, in any order, at any
      times and with any repetitions, leave it with the same version and liveness. */
  lemma OrderDoesNotMatter(self: NodeID, ps: Peers, es: seq<Timed>, fs: seq<Timed>, id: NodeID)
    requires WfPeers(self, ps) && id in ps && SameRecords(es, fs, id)
    ensures var (a, b) := (MergedAll(self, ps, es), MergedAll(self, ps, fs));
            id in a && id in b && RankOf(a[id]) == RankOf(b[id])
  {
    MergesJoin(self, ps, es, id);
    MergesJoin(self, ps, fs, id);
    SameJoin(RankOf(ps[id]), es, fs, id);
  }

  /** One record of the sequence, merged at its time, accounts for all that the table says
      of the peer but its key, and its version when that was its first sight. */
  predicate AccountsFor(m: Timed, e: Peer, first: bool) {
    && m.p.id == e.id && m.p.state == e.state && m.p.addr == e.addr && m.p.nets == e.nets && m.at == e.lastSeen
    && e.version == if first then 1 else m.p.version
  }

  /** Record i of the sequence accounts for the entry, and no later one was news. */
  ghost predicate LastNews(ps: Peers, ms: seq<Timed>, i: nat, e: Peer)
    requires i < |ms|
  {
    && (AccountsFor(ms[i], e, false) || (e.id !in ps && AccountsFor(ms[i], e, true)))
    && forall j :: i < j < |ms| && ms[j].p.id == e.id ==> !Newer(ms[j].p, e)
  }

  ghost predicate KeyFrom(ps: Peers, ms: seq<Timed>, e: Peer) {
    || e.pubKey == [] || (e.id in ps && e.pubKey == ps[e.id].pubKey)
    || exists p :: p in Records(ms) && p.id == e.id && p.pubKey == e.pubKey
  }

  /** The entry is the one the table had, or one record of the sequence accounts for it. */
  ghost predicate Unmixed(ps: Peers, ms: seq<Timed>, e: Peer) {
    && KeyFrom(ps, ms, e)
    && ((e.id in ps && e == ps[e.id]) || exists i :: 0 <= i < |ms| && LastNews(ps, ms, i, e))
  }

  lemma OldNews(ps: Peers, ms: seq<Timed>, m: Timed, e: Peer)
    requires Unmixed(ps, ms, e) && (m.p.id == e.id ==> !Newer(m.p, e))
    ensures Unmixed(ps, ms + [m], e)
  {
    assert Records(ms + [m]) == Records(ms) + [m.p];
    if i :| 0 <= i < |ms| && LastNews(ps, ms, i, e) {
      forall j | i < j < |ms + [m]| && (ms + [m])[j].p.id == e.id ensures !Newer((ms + [m])[j].p, e) {
        assert j < |ms| ==> (ms + [m])[j] == ms[j];
      }
      assert LastNews(ps, ms + [m], i, e);
    }
  }

  lemma FreshNews(self: NodeID, ps: Peers, ms: seq<Timed>, before: Peers, m: Timed)
    requires Merged(self, before, m.p, m.at).1 && (m.p.id in before ==> before[m.p.id].id == m.p.id)
    requires m.p.id in ps ==> m.p.id in before
    requires m.p.id in before ==> Unmixed(ps, ms, before[m.p.id])
    ensures Unmixed(ps, ms + [m], Merged(self, before, m.p, m.at).0[m.p.id])
  {
    var e := Merged(self, before, m.p, m.at).0[m.p.id];
    assert Records(ms + [m]) == Records(ms) + [m.p];
    assert m.p in Records(ms + [m]);
    assert AccountsFor((ms + [m])[|ms|], e, m.p.id !in before);
    assert LastNews(ps, ms + [m], |ms|, e);
  }

  /** Whatever was merged, the record of a peer is never a mixture: state, version, address,
      networks and time are those of the record it had or of a single record that came in,
      and none that came after that one was news. A key is the one it had or came in too. */
  lemma {:induction false} RecordIsWhole(self: NodeID, ps: Peers, ms: seq<Timed>, id: NodeID)
    requires WfPeers(self, ps)
    ensures var after := MergedAll(self, ps, ms);
            && WfPeers(self, after) && (id in ps ==> id in after)
            && (id in after ==> Unmixed(ps, ms, after[id]))
  {
    if ms != [] {
      var (front, m) := (ms[..|ms| - 1], ms[|ms| - 1]);
      var before := MergedAll(self, ps, front);
      assert ms == front + [m];
      RecordIsWhole(self, ps, front, id);
      ChangeReported(self, before, m.p, m.at);
      if m.p.id == id && Merged(self, before, m.p, m.at).1 {
        FreshNews(self, ps, front, before, m);
      } else if id in before {
        OldNews(ps, front, m, before[id]);
      }
    }
  }

  // ---- When the state converges ----

  /** A record about the peer that beats the stored one and that no other one beats. */
  ghost predicate OnTop(ps: Peers, ms: seq<Timed>, id: NodeID, p: Peer)
    requires id in ps
  {
    && p in Records(ms) && p.id == id && RankOf(p) != RankOf(ps[id])
    && RankOf(p) == JoinAll(RankOf(ps[id]), id, Records(ms))
  }

  ghost predicate TopsAgree(ps: Peers, ms: seq<Timed>, id: NodeID)
    requires id in ps
  {
    forall p, q :: OnTop(ps, ms, id, p) && OnTop(ps, ms, id, q) ==> p.state == q.state
  }

  /** What happens to the state in one merge. */
  lemma MergeState(self: NodeID, ps: Peers, p: Peer, now: int, id: NodeID)
    requires WfPeers(self, ps) && id in ps
    ensures var after := Merged(self, ps, p, now).0;
            && id in after
            && after[id].state == if p.id == id && !Leq(RankOf(p), RankOf(ps[id])) then p.state else ps[id].state
  {
  }

  /** Merged records either leave the state alone or leave that of one on top. */
  lemma {:induction false} StateIsFromTop(self: NodeID, ps: Peers, ms: seq<Timed>, id: NodeID)
    requires WfPeers(self, ps) && id in ps
    ensures var after := MergedAll(self, ps, ms);
            && id in after
            && if RankOf(after[id]) == RankOf(ps[id]) then after[id].state == ps[id].state
               else exists p :: OnTop(ps, ms, id, p) && after[id].state == p.state
  {
    if ms != [] {
      var last := |ms| - 1;
      var (front, m) := (ms[..last], ms[last]);
      StateIsFromTop(self, ps, front, id);
      MergesJoin(self, ps, front, id);
      MergesJoin(self, ps, ms, id);
      MergeState(self, MergedAll(self, ps, front), m.p, m.at, id);
      JoinAllIsLeast(RankOf(ps[id]), id, Records(front));
      assert Records(ms) == Records(front) + [m.p];
      assert Records(ms)[..last] == Records(front);
      assert m.p in Records(ms);
    }
  }

  /** Records that do not beat the stored one leave the state alone. */
  lemma LowRecordsIgnored(self: NodeID, ps: Peers, ms: seq<Timed>, id: NodeID)
    requires WfPeers(self, ps) && id in ps
    requires forall p :: p in Records(ms) && p.id == id ==> Leq(RankOf(p), RankOf(ps[id]))
    ensures id in MergedAll(self, ps, ms) && MergedAll(self, ps, ms)[id].state == ps[id].state
  {
    StateIsFromTop(self, ps, ms, id);
    MergesJoin(self, ps, ms, id);
    JoinAllIsLeast(RankOf(ps[id]), id, Records(ms));
  }

  /** Of the records on top the first one to arrive determines the state. */
  lemma FirstTopWins(self: NodeID, ps: Peers, ms: seq<Timed>, id: NodeID, first: Timed)
    requires WfPeers(self, ps) && id in ps && OnTop(ps, ms, id, first.p)
    ensures var after := MergedAll(self, ps, [first] + ms);
            id in after && after[id].state == first.p.state
  {
    var one := MergedAll(self, ps, [first]);
    assert [first][..0] == [];
    MergeState(self, ps, first.p, first.at, id);
    MergesJoin(self, ps, [first], id);
    JoinAllIsLeast(RankOf(ps[id]), id, Records(ms));
    MergesContinue(self, ps, [first], ms);
    assert RankOf(one[id]) == RankOf(first.p);
    LowRecordsIgnored(self, one, ms, id);
  }

  lemma Repeated(ms: seq<Timed>, id: NodeID, first: Timed)
    requires first.p in Records(ms)
    ensures SameRecords(ms, [first] + ms, id)
  {
    assert Records([first] + ms) == [first.p] + Records(ms);
  }

  /** The state of a known peer is independent of the order, the times and the repetitions
      of the pushes if and only if all records on top agree on it. */
  lemma StateConvergesIff(self: NodeID, ps: Peers, es: seq<Timed>, id: NodeID)
    requires WfPeers(self, ps) && id in ps
    ensures TopsAgree(ps, es, id) <==>
              forall fs :: SameRecords(es, fs, id) ==>
                id in MergedAll(self, ps, es) && id in MergedAll(self, ps, fs)
                && MergedAll(self, ps, fs)[id].state == MergedAll(self, ps, es)[id].state
  {
    if TopsAgree(ps, es, id) {
      forall fs | SameRecords(es, fs, id)
        ensures id in MergedAll(self, ps, es) && id in MergedAll(self, ps, fs)
                && MergedAll(self, ps, fs)[id].state == MergedAll(self, ps, es)[id].state
      {
        StateIsFromTop(self, ps, es, id);
        StateIsFromTop(self, ps, fs, id);
        OrderDoesNotMatter(self, ps, es, fs, id);
        SameJoin(RankOf(ps[id]), es, fs, id);
        assert forall p :: OnTop(ps, fs, id, p) ==> OnTop(ps, es, id, p);
      }
    } else {
      var p, q :| OnTop(ps, es, id, p) && OnTop(ps, es, id, q) && p.state != q.state;
      var (a, b) := ([Timed(p, 0)] + es, [Timed(q, 0)] + es);
      Repeated(es, id, Timed(p, 0));
      Repeated(es, id, Timed(q, 0));
      FirstTopWins(self, ps, es, id, Timed(p, 0));
      FirstTopWins(self, ps, es, id, Timed(q, 0));
      assert SameRecords(es, a, id) && SameRecords(es, b, id);
    }
  }

  /** So suspect and dead of one version, both newer than the record, depend on which of
      them came first. */
  lemma StateDependsOnOrder(self: NodeID, ps: Peers, a: Peer, b: Peer, now: int)
    requires WfPeers(self, ps) && a.id == b.id && a.id in ps && ps[a.id].version < a.version == b.version
    requires a.state == SUSPECT && b.state == DEAD
    ensures Merged(self, Merged(self, ps, a, now).0, b, now).0[a.id].state == SUSPECT
    ensures Merged(self, Merged(self, ps, b, now).0, a, now).0[a.id].state == DEAD
  {
  }

  // ---- Monotonicity ----

  datatype Op = Merge(p: Peer, now: int) | ToSuspect(id: NodeID) | ToDead(id: NodeID)
              | ToAlive(id: NodeID, now: int) | Forget(id: NodeID)

  function ApplyOp(self: NodeID, ps: Peers, op: Op): Peers {
    match op
    case Merge(p, now) => Merged(self, ps, p, now).0
    case ToSuspect(id) => Suspected(ps, id)
    case ToDead(id) => Died(ps, id)
    case ToAlive(id, now) => Revived(ps, id, now)
    case Forget(id) => ps - {id}
  }

  function ApplyAll(self: NodeID, ps: Peers, ops: seq<Op>): Peers
    decreases |ops|
  {
    if ops == [] then ps else ApplyAll(self, ApplyOp(self, ps, ops[0]), ops[1..])
  }

  /** An operation lowers the rank of a peer that it keeps exactly when it increments a
      version that is already the largest 64-bit value. */
  predicate Overflows(ps: Peers, op: Op, id: NodeID) {
    id in ps && ps[id].version == TWO_64_MINUS_1
    && ((op.ToDead? && op.id == id) || (op.ToSuspect? && op.id == id && ps[id].state == ALIVE))
  }

  lemma RankNeverDrops(self: NodeID, ps: Peers, op: Op, id: NodeID)
    requires WfPeers(self, ps) && id in ps && op != Forget(id)
    ensures WfPeers(self, ApplyOp(self, ps, op)) && id in ApplyOp(self, ps, op)
    ensures Leq(RankOf(ps[id]), RankOf(ApplyOp(self, ps, op)[id])) <==> !Overflows(ps, op, id)
    ensures |ps[id].pubKey| > 0 ==> |ApplyOp(self, ps, op)[id].pubKey| > 0
  {
  }

  /** Over any run of operations: the node itself is never stored, a peer that is not
      removed keeps a public key once it has one, and without an overflow on the way its
      rank only grows. */
  lemma {:induction false} RunIsMonotone(self: NodeID, ps: Peers, ops: seq<Op>, id: NodeID)
    requires WfPeers(self, ps) && id in ps && Forget(id) !in ops
    ensures var e := ApplyAll(self, ps, ops);
            && WfPeers(self, e) && id in e
            && (|ps[id].pubKey| > 0 ==> |e[id].pubKey| > 0)
            && (NoOverflow(self, ps, ops, id) ==> Leq(RankOf(ps[id]), RankOf(e[id])))
    decreases |ops|
  {
    if ops != [] {
      assert ops[0] in ops;
      RankNeverDrops(self, ps, ops[0], id);
      RunIsMonotone(self, ApplyOp(self, ps, ops[0]), ops[1..], id);
    }
  }

  ghost predicate NoOverflow(self: NodeID, ps: Peers, ops: seq<Op>, id: NodeID)
    decreases |ops|
  {
    ops == [] || (!Overflows(ps, ops[0], id) && NoOverflow(self, ApplyOp(self, ps, ops[0]), ops[1..], id))
  }

  // ---- A peer that came back ----

  /** What the peer itself can say: opening a connection, and its own entry in its pushes,
      which always carries version 1. */
  predicate SelfAnnouncement(p: Peer, id: NodeID) {
    p.id == id && p.state == ALIVE && p.version <= 1
  }

  lemma {:induction false} StaleEntriesAreIgnored(self: NodeID, ps: Peers, entries: seq<Peer>, now: int, id: NodeID)
    requires WfPeers(self, ps) && id in ps && ps[id].version >= 2
    requires forall p :: p in entries ==> SelfAnnouncement(p, id)
    ensures Pushed(self, ps, entries, now) == ps
  {
    if entries != [] {
      var last := |entries| - 1;
      StaleEntriesAreIgnored(self, ps, entries[..last], now, id);
      assert entries[last] in entries;
    }
  }

  /** Once a known peer was marked dead, no new connection to it and no number of its own
      announcements make it alive again for this node: its record does not change at all. */
  lemma DeadIgnoresSelfAnnouncements(self: NodeID, ps: Peers, entries: seq<Peer>, now: int, id: NodeID, addr: Bytes)
    requires WfPeers(self, ps) && id in ps && 1 <= ps[id].version < TWO_64_MINUS_1
    requires forall p :: p in entries ==> SelfAnnouncement(p, id)
    ensures var dead := Died(ps, id);
            && dead[id].state == DEAD
            && Pushed(self, dead, entries, now) == dead
            && Merged(self, dead, Connected(id, addr), now) == (dead, false)
  {
    StaleEntriesAreIgnored(self, Died(ps, id), entries, now, id);
  }

  /** What it takes: an alive record brings a peer that was marked dead back to life if and
      only if its version is at least the one that marking it dead produced. */
  lemma RevivesIff(self: NodeID, ps: Peers, p: Peer, now: int)
    requires WfPeers(self, ps) && p.id in ps && p.state == ALIVE
    ensures Merged(self, Died(ps, p.id), p, now).0[p.id].state == ALIVE <==> p.version >= Bump(ps[p.id].version)
  {
  }
}
