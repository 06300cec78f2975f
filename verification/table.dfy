/** The forwarding table of one node. Callers see a finite map from (prefix, origin,
    next hop) to a route; the code keeps a map from prefix text to a slice of routes. */
module Table {
  import opened Base
  import opened Addr

  datatype Route = Route(dest: IPNet, nextHop: NodeID, path: seq<NodeID>, cost: u32,
                         origin: NodeID, localPref: u32, stamp: int)

  datatype RouteKey = RouteKey(key: Key, origin: NodeID, nextHop: NodeID)

  function RK(r: Route): RouteKey {
    RouteKey(KeyOf(r.dest), r.origin, r.nextHop)
  }

  // ---- The table as a finite map ----

  type Fib = map<RouteKey, Route>

  ghost predicate WfFib(fib: Fib) {
    forall rk :: rk in fib ==> RK(fib[rk]) == rk
  }

  /** Inserting a route: a path through this node is refused; an entry of the same prefix,
      origin and next hop is replaced only when cost or preference differ, and otherwise
      only becomes younger. The flag says whether the route must be passed on. */
  function Put(self: NodeID, fib: Fib, r: Route, now: int): (Fib, bool) {
    if self in r.path then (fib, false)
    else if RK(r) in fib && fib[RK(r)].cost == r.cost && fib[RK(r)].localPref == r.localPref then
      (fib[RK(r) := fib[RK(r)].(stamp := now)], false)
    else (fib[RK(r) := r.(stamp := now)], true)
  }

  function Withdrawn(fib: Fib, key: Key, origin: NodeID): Fib {
    map rk | rk in fib && !(rk.key == key && rk.origin == origin) :: fib[rk]
  }

  function WithoutPeer(fib: Fib, peer: NodeID): Fib {
    map rk | rk in fib && rk.origin != peer && rk.nextHop != peer :: fib[rk]
  }

  function Unexpired(fib: Fib, now: int, ttl: int): Fib {
    map rk | rk in fib && now - fib[rk].stamp < ttl :: fib[rk]
  }

  // ---- Route selection ----

  /** Strict preference: higher local preference, then shorter path, then lower cost,
      then older. */
  predicate Better(a: Route, b: Route) {
    if a.localPref != b.localPref then a.localPref > b.localPref
    else if |a.path| != |b.path| then |a.path| < |b.path|
    else if a.cost != b.cost then a.cost < b.cost
    else a.stamp < b.stamp
  }

  /** bestPath, branch for branch. The second argument wins a complete tie. */
  function BestPath(a: Route, b: Route): (r: Route)
    ensures r == a || r == b
    ensures !Better(a, r) && !Better(b, r)
  {
    if a.localPref > b.localPref then a
    else if b.localPref > a.localPref then b
    else if |a.path| < |b.path| then a
    else if |b.path| < |a.path| then b
    else if a.cost < b.cost then a
    else if b.cost < a.cost then b
    else if a.stamp < b.stamp then a
    else b
  }

  /** Better is a strict weak order, so "no candidate beats the winner" fixes the rank. */
  lemma BetterIsWeakOrder(a: Route, b: Route, c: Route)
    ensures !Better(a, a)
    ensures Better(a, b) && Better(b, c) ==> Better(a, c)
    ensures !Better(a, b) && !Better(b, c) ==> !Better(a, c)
    ensures !Better(a, b) && !Better(b, a) <==>
              a.localPref == b.localPref && |a.path| == |b.path| && a.cost == b.cost && a.stamp == b.stamp
  {
  }

  /** A route that Lookup may consider for an address: the mask is at least one bit long. */
  ghost predicate Candidate(fib: Fib, x: IP, r: Route) {
    RK(r) in fib && fib[RK(r)] == r && Contains(r.dest, x) && MaskSize(r.dest) >= 1
  }

  /** The order in which Lookup ranks candidates: mask length first. */
  predicate Beats(a: Route, b: Route) {
    MaskSize(a.dest) > MaskSize(b.dest) || (MaskSize(a.dest) == MaskSize(b.dest) && Better(a, b))
  }

  datatype Found = Direct(net: IPNet) | Learned(route: Route) | NoRoute

  /** What a lookup may answer, whatever order the buckets are visited in. */
  ghost predicate IsAnswer(fib: Fib, direct: seq<IPNet>, x: IP, res: Found) {
    match res
    case Direct(n) =>
      exists i :: 0 <= i < |direct| && direct[i] == n && Contains(n, x)
        && forall j :: 0 <= j < i ==> !Contains(direct[j], x)
    case Learned(r) =>
      && (forall n :: n in direct ==> !Contains(n, x))
      && Candidate(fib, x, r)
      && forall q :: Candidate(fib, x, q) ==> !Beats(q, r)
    case NoRoute =>
      && (forall n :: n in direct ==> !Contains(n, x))
      && forall q :: !Candidate(fib, x, q)
  }

  // ---- The buckets ----

  type Buckets = map<Key, seq<Route>>

  ghost predicate BucketOk(k: Key, s: seq<Route>) {
    && s != []
    && (forall r :: r in s ==> KeyOf(r.dest) == k)
    && Distinct(s)
  }

  ghost predicate Distinct(s: seq<Route>) {
    forall i, j :: 0 <= i < j < |s| ==> RK(s[i]) != RK(s[j])
  }

  ghost predicate Represents(b: Buckets, fib: Fib) {
    && WfFib(fib)
    && (forall k :: k in b ==> BucketOk(k, b[k]))
    && (forall k, r :: k in b && r in b[k] ==> RK(r) in fib && fib[RK(r)] == r)
    && (forall rk :: rk in fib ==> rk.key in b && fib[rk] in b[rk.key])
  }

  ghost function Names(s: seq<Route>): set<RouteKey> {
    set r | r in s :: RK(r)
  }

  ghost function Region(fib: Fib, keys: set<Key>): set<RouteKey> {
    set rk | rk in fib && rk.key in keys
  }

  lemma {:induction false} NamesCount(s: seq<Route>)
    requires Distinct(s)
    ensures |Names(s)| == |s|
  {
    if s != [] {
      var last := |s| - 1;
      NamesCount(s[..last]);
      assert s == s[..last] + [s[last]];
      assert Names(s) == Names(s[..last]) + {RK(s[last])};
      forall r | r in s[..last] ensures RK(r) != RK(s[last]) {
        var i :| 0 <= i < last && s[i] == r;
      }
    }
  }

  lemma RegionGrows(fib: Fib, keys: set<Key>, k: Key, s: seq<Route>)
    requires k !in keys && Distinct(s)
    requires forall rk :: rk in fib && rk.key == k <==> rk in Names(s)
    ensures |Region(fib, keys + {k})| == |Region(fib, keys)| + |s|
  {
    NamesCount(s);
    assert Region(fib, keys + {k}) == Region(fib, keys) + Names(s);
    assert Region(fib, keys) !! Names(s);
  }

  lemma RegionAll(b: Buckets, fib: Fib)
    requires Represents(b, fib)
    ensures |Region(fib, b.Keys)| == |fib|
  {
    assert Region(fib, b.Keys) == fib.Keys;
  }

  lemma {:induction false} FilterDistinct(s: seq<Route>, keep: Route -> bool)
    requires Distinct(s)
    ensures Distinct(Filter(s, keep))
  {
    if s != [] {
      FilterDistinct(s[1..], keep);
      FilterMembers(s[1..], keep);
      forall r | r in s[1..] ensures RK(r) != RK(s[0]) {
        var i :| 0 < i < |s| && s[i] == r;
      }
    }
  }

  /** The filtering idiom of the table: kept elements move to the front of the same
      array, and the write position never overtakes the read position. */
  method CompactInPlace(a: array<Route>, keep: Route -> bool) returns (n: nat)
    modifies a
    ensures n <= a.Length && a[..n] == Filter(old(a[..]), keep)
  {
    n := 0;
    ghost var was := a[..];
    for i := 0 to a.Length
      invariant n <= i && a[..n] == Filter(was[..i], keep)
      invariant a[i..] == was[i..]
    {
      assert a[i] == was[i];
      FilterAppend(was[..i], was[i], keep);
      assert was[..i + 1] == was[..i] + [was[i]];
      if keep(a[i]) {
        a[n] := a[i];
        n := n + 1;
      }
    }
    assert was[..a.Length] == was;
  }

  /** Filters one bucket through the array behind its slice. */
  method FilterBucket(s: seq<Route>, keep: Route -> bool) returns (filtered: seq<Route>)
    ensures filtered == Filter(s, keep)
  {
    var backing := new Route[|s|](i requires 0 <= i < |s| => s[i]);
    assert backing[..] == s;
    var n := CompactInPlace(backing, keep);
    filtered := backing[..n];
  }

  class RoutingTable {
    const selfID: NodeID
    var routes: Buckets
    var directNetworks: seq<IPNet>
    /** What the buckets stand for. */
    ghost var fib: Fib

    ghost predicate Valid()
      reads this
    {
      Represents(routes, fib)
    }

    constructor (selfID: NodeID)
      ensures Valid() && fib == map[] && directNetworks == [] && this.selfID == selfID
    {
      this.selfID := selfID;
      routes, directNetworks, fib := map[], [], map[];
    }

    method SetDirectNetworks(nets: seq<IPNet>)
      requires Valid()
      modifies this
      ensures Valid() && fib == old(fib) && directNetworks == nets
    {
      directNetworks := nets;
    }

    method AddRoute(r: Route, now: int) returns (changed: bool)
      requires Valid()
      modifies this`routes, this`fib
      ensures Valid()
      ensures (fib, changed) == Put(selfID, old(fib), r, now)
    {
      var key := KeyOf(r.dest);
      if selfID in r.path {
        return false;
      }
      var stamped := r.(stamp := now);
      if key !in routes {
        NotStored(routes, fib, stamped);
        AppendedToBucket(routes, fib, key, stamped);
        routes := routes[key := [stamped]];
        fib := fib[RK(r) := stamped];
        return true;
      }
      var existing := routes[key];
      for i := 0 to |existing|
        invariant routes == old(routes) && fib == old(fib)
        invariant forall j :: 0 <= j < i ==> RK(existing[j]) != RK(r)
      {
        var er := existing[i];
        assert er in existing && RK(er).key == key;
        if er.origin == r.origin && er.nextHop == r.nextHop {
          changed := er.cost != r.cost || er.localPref != r.localPref;
          var updated := if changed then stamped else er.(stamp := now);
          ReplacedInBucket(routes, fib, key, i, updated);
          routes := routes[key := existing[i := updated]];
          fib := fib[RK(r) := updated];
          return;
        }
      }
      NotStored(routes, fib, stamped);
      AppendedToBucket(routes, fib, key, stamped);
      routes := routes[key := existing + [stamped]];
      fib := fib[RK(r) := stamped];
      changed := true;
    }

    /** RemoveRoute: every route of an origin for a prefix goes, whatever its next hop. */
    method RemoveRoute(dest: IPNet, origin: NodeID)
      requires Valid()
      modifies this`routes, this`fib
      ensures Valid() && fib == Withdrawn(old(fib), KeyOf(dest), origin)
    {
      var key := KeyOf(dest);
      if key !in routes {
        assert Withdrawn(fib, key, origin) == fib;
        return;
      }
      var keep := (r: Route) => r.origin != origin;
      var filtered := FilterBucket(routes[key], keep);
      FilteredBucket(routes, fib, key, origin, keep);
      if |filtered| == 0 {
        routes := routes - {key};
      } else {
        routes := routes[key := filtered];
      }
      fib := Withdrawn(fib, key, origin);
    }

    /** Filters one bucket in place; an emptied bucket leaves the map. */
    method SweepBucket(key: Key, keep: Route -> bool) returns (dropped: nat)
      requires key in routes
      modifies this`routes
      ensures dropped == |old(routes)[key]| - |Filter(old(routes)[key], keep)|
      ensures routes == if Filter(old(routes)[key], keep) == [] then old(routes) - {key}
                        else old(routes)[key := Filter(old(routes)[key], keep)]
    {
      var existing := routes[key];
      var filtered := FilterBucket(existing, keep);
      FilterMembers(existing, keep);
      dropped := |existing| - |filtered|;
      if |filtered| == 0 {
        routes := routes - {key};
      } else {
        routes := routes[key := filtered];
      }
    }

    /** One pass over all buckets in an arbitrary order, dropping what is not kept. */
    method SweepBuckets(keep: Route -> bool) returns (removed: nat)
      modifies this`routes
      ensures Swept(old(routes), routes, old(routes).Keys, keep)
      ensures removed == |Slots(old(routes), old(routes).Keys)| - |Slots(routes, routes.Keys)|
    {
      ghost var b0 := routes;
      removed := 0;
      var todo := routes.Keys;
      while todo != {}
        invariant todo <= b0.Keys
        invariant Swept(b0, routes, b0.Keys - todo, keep)
        invariant removed == |Slots(b0, b0.Keys - todo)| - |Slots(routes, b0.Keys - todo)|
        decreases |todo|
      {
        var key :| key in todo;
        SweptStep(b0, routes, b0.Keys - todo, key, keep);
        assert b0.Keys - todo + {key} == b0.Keys - (todo - {key});
        var dropped := SweepBucket(key, keep);
        removed := removed + dropped;
        todo := todo - {key};
      }
      assert b0.Keys - todo == b0.Keys;
      assert Slots(routes, b0.Keys) == Slots(routes, routes.Keys);
    }

    method Sweep(keep: Route -> bool) returns (removed: nat)
      requires Valid()
      modifies this`routes, this`fib
      ensures Valid()
      ensures fib == Kept(old(fib), keep)
      ensures removed == |old(fib)| - |fib|
    {
      removed := SweepBuckets(keep);
      fib := Kept(fib, keep);
      SweptRepresents(old(routes), old(fib), routes, keep);
      SlotsCount(old(routes), old(fib), old(routes).Keys);
      SlotsCount(routes, fib, routes.Keys);
      RegionAll(old(routes), old(fib));
      RegionAll(routes, fib);
    }

    /** RemoveAllFromOrigin: the peer neither originates nor carries any remaining route. */
    method RemoveAllFromOrigin(peer: NodeID)
      requires Valid()
      modifies this`routes, this`fib
      ensures Valid() && fib == WithoutPeer(old(fib), peer)
    {
      var keep := (r: Route) => r.origin != peer && r.nextHop != peer;
      KeptWithoutPeer(fib, peer, keep);
      var _ := Sweep(keep);
    }

    method GC(now: int, ttl: int) returns (removed: nat)
      requires Valid()
      modifies this`routes, this`fib
      ensures Valid() && fib == Unexpired(old(fib), now, ttl)
      ensures |old(fib)| == |fib| + removed
    {
      var keep := (r: Route) => now - r.stamp < ttl;
      assert Kept(fib, keep) == Unexpired(fib, now, ttl);
      removed := Sweep(keep);
    }

    /** The snapshot lists every route once. */
    method GetAllRoutes() returns (result: seq<Route>)
      requires Valid()
      ensures Lists(result, fib)
    {
      result := [];
      var todo := routes.Keys;
      while todo != {}
        invariant todo <= routes.Keys && Distinct(result)
        invariant forall r :: r in result <==> RK(r).key in routes.Keys - todo && r in routes[RK(r).key]
        decreases |todo|
      {
        var key :| key in todo;
        var b := routes[key];
        assert BucketOk(key, b);
        ghost var seen := result;
        for i := 0 to |b|
          invariant result == seen + b[..i]
        {
          result := result + [b[i]];
          assert b[..i + 1] == b[..i] + [b[i]];
        }
        assert b[..|b|] == b;
        assert forall i :: 0 <= i < |seen| ==> seen[i] in seen;
        assert forall i :: 0 <= i < |b| ==> b[i] in b;
        todo := todo - {key};
      }
      assert forall r :: r in result <==> RK(r) in fib && fib[RK(r)] == r;
    }

    method Size() returns (count: nat)
      requires Valid()
      ensures count == |fib|
    {
      count := 0;
      var todo := routes.Keys;
      while todo != {}
        invariant todo <= routes.Keys
        invariant count == |Slots(routes, routes.Keys - todo)|
        decreases |todo|
      {
        var key :| key in todo;
        SlotsGrow(routes, routes.Keys - todo, key);
        assert routes.Keys - todo + {key} == routes.Keys - (todo - {key});
        count := count + |routes[key]|;
        todo := todo - {key};
      }
      assert routes.Keys - todo == routes.Keys;
      SlotsCount(routes, fib, routes.Keys);
      RegionAll(routes, fib);
    }

    /** The inner loop of Lookup: one bucket, carrying the best match so far. */
    method ScanBucket(b: seq<Route>, x: IP, best0: Option<Route>, len0: nat, ghost seen: set<Route>)
        returns (bestMatch: Option<Route>, bestMaskLen: nat)
      requires BestOf(seen, x, best0, len0)
      ensures BestOf(seen + Members(b), x, bestMatch, bestMaskLen)
    {
      bestMatch, bestMaskLen := best0, len0;
      for i := 0 to |b|
        invariant BestOf(seen + Members(b[..i]), x, bestMatch, bestMaskLen)
      {
        var r := b[i];
        MembersAppend(b, i);
        BestOfStep(seen + Members(b[..i]), x, bestMatch, bestMaskLen, r);
        if Contains(r.dest, x) {
          var ones := MaskSize(r.dest);
          if ones > bestMaskLen {
            bestMatch, bestMaskLen := Some(r), ones;
          } else if ones == bestMaskLen && bestMatch.Some? {
            bestMatch := Some(BestPath(bestMatch.value, r));
          }
        }
      }
      assert b[..|b|] == b;
    }

    /** The outer loop: buckets in an arbitrary order. */
    method ScanBuckets(x: IP) returns (bestMatch: Option<Route>)
      ensures exists len: nat :: BestOf(RoutesIn(routes, routes.Keys), x, bestMatch, len)
    {
      bestMatch := None;
      var bestMaskLen := 0;
      var todo := routes.Keys;
      while todo != {}
        invariant todo <= routes.Keys
        invariant BestOf(RoutesIn(routes, routes.Keys - todo), x, bestMatch, bestMaskLen)
        decreases |todo|
      {
        var key :| key in todo;
        RoutesInStep(routes, routes.Keys - todo, key);
        assert routes.Keys - todo + {key} == routes.Keys - (todo - {key});
        bestMatch, bestMaskLen :=
          ScanBucket(routes[key], x, bestMatch, bestMaskLen, RoutesIn(routes, routes.Keys - todo));
        todo := todo - {key};
      }
      assert routes.Keys - todo == routes.Keys;
    }

    /** Lookup: attached networks first, then the best route of a longest prefix. */
    method Lookup(x: IP) returns (res: Found)
      requires Valid()
      ensures IsAnswer(fib, directNetworks, x, res)
    {
      for i := 0 to |directNetworks|
        invariant forall j :: 0 <= j < i ==> !Contains(directNetworks[j], x)
      {
        if Contains(directNetworks[i], x) {
          return Direct(directNetworks[i]);
        }
      }
      var bestMatch := ScanBuckets(x);
      AnswerFromBest(routes, fib, directNetworks, x, bestMatch);
      return if bestMatch.Some? then Learned(bestMatch.value) else NoRoute;
    }
  }

  ghost predicate Lists(s: seq<Route>, fib: Fib) {
    Distinct(s) && forall r :: r in s <==> RK(r) in fib && fib[RK(r)] == r
  }

  ghost function Members(s: seq<Route>): set<Route> {
    set r | r in s
  }

  /** Loop state of Lookup: the best of the routes seen so far. */
  ghost predicate BestOf(seen: set<Route>, x: IP, best: Option<Route>, len: nat) {
    && (best.Some? ==> (best.value in seen && Contains(best.value.dest, x)
                        && MaskSize(best.value.dest) == len && len >= 1))
    && (best.None? ==> len == 0)
    && forall r :: r in seen && Contains(r.dest, x) && MaskSize(r.dest) >= 1 ==>
         best.Some? && !Beats(r, best.value)
  }

  ghost function RoutesIn(b: Buckets, keys: set<Key>): set<Route> {
    set k, r | k in keys && k in b && r in b[k] :: r
  }

  lemma RoutesInStep(b: Buckets, keys: set<Key>, k: Key)
    requires k in b
    ensures RoutesIn(b, keys + {k}) == RoutesIn(b, keys) + Members(b[k])
  {
  }

  lemma AnswerFromBest(b: Buckets, fib: Fib, direct: seq<IPNet>, x: IP, best: Option<Route>)
    requires Represents(b, fib) && forall n :: n in direct ==> !Contains(n, x)
    requires exists len: nat :: BestOf(RoutesIn(b, b.Keys), x, best, len)
    ensures IsAnswer(fib, direct, x, if best.Some? then Learned(best.value) else NoRoute)
  {
    assert forall r :: r in RoutesIn(b, b.Keys) <==> RK(r) in fib && fib[RK(r)] == r;
  }

  lemma MembersAppend(b: seq<Route>, i: nat)
    requires i < |b|
    ensures Members(b[..i + 1]) == Members(b[..i]) + {b[i]}
  {
    assert b[..i + 1] == b[..i] + [b[i]];
  }

  lemma BestOfStep(seen: set<Route>, x: IP, best: Option<Route>, len: nat, r: Route)
    requires BestOf(seen, x, best, len)
    ensures !Contains(r.dest, x) ==> BestOf(seen + {r}, x, best, len)
    ensures Contains(r.dest, x) && MaskSize(r.dest) > len ==>
              BestOf(seen + {r}, x, Some(r), MaskSize(r.dest))
    ensures Contains(r.dest, x) && MaskSize(r.dest) == len && best.Some? ==>
              BestOf(seen + {r}, x, Some(BestPath(best.value, r)), len)
    ensures MaskSize(r.dest) < len || (best.None? && MaskSize(r.dest) == len) ==>
              BestOf(seen + {r}, x, best, len)
  {
  }

  lemma AppendedToBucket(b: Buckets, fib: Fib, key: Key, r: Route)
    requires Represents(b, fib) && KeyOf(r.dest) == key
    requires key in b ==> forall i :: 0 <= i < |b[key]| ==> RK(b[key][i]) != RK(r)
    ensures Represents(b[key := (if key in b then b[key] else []) + [r]], fib[RK(r) := r])
  {
  }

  lemma NotStored(b: Buckets, fib: Fib, r: Route)
    requires Represents(b, fib)
    requires RK(r).key in b ==> forall i :: 0 <= i < |b[RK(r).key]| ==> RK(b[RK(r).key][i]) != RK(r)
    ensures RK(r) !in fib
  {
    assert forall rk :: rk in fib ==> rk.key in b && fib[rk] in b[rk.key] && RK(fib[rk]) == rk;
  }

  lemma ReplacedInBucket(b: Buckets, fib: Fib, key: Key, i: nat, r: Route)
    requires Represents(b, fib) && key in b && i < |b[key]| && RK(b[key][i]) == RK(r)
    ensures Represents(b[key := b[key][i := r]], fib[RK(r) := r])
  {
    var s, s' := b[key], b[key][i := r];
    assert s[i] in s;
    forall q | q in s' ensures q == r || (q in s && RK(q) != RK(r)) {
      var j :| 0 <= j < |s'| && s'[j] == q;
      if j != i {
        assert s[j] == q;
      }
    }
    forall q | q in s && RK(q) != RK(r) ensures q in s' {
      var j :| 0 <= j < |s| && s[j] == q;
      assert s'[j] == q;
    }
    assert s'[i] == r;
  }

  lemma FilteredBucket(b: Buckets, fib: Fib, key: Key, origin: NodeID, keep: Route -> bool)
    requires Represents(b, fib) && key in b
    requires forall r :: keep(r) <==> r.origin != origin
    ensures Represents(if Filter(b[key], keep) == [] then b - {key} else b[key := Filter(b[key], keep)],
                       Withdrawn(fib, key, origin))
  {
    FilterMembers(b[key], keep);
    FilterDistinct(b[key], keep);
    assert BucketOk(key, b[key]);
  }

  /** Loop state of Sweep: buckets in done are filtered, empty ones dropped. */
  ghost predicate Swept(b0: Buckets, b: Buckets, done: set<Key>, keep: Route -> bool) {
    && b.Keys <= b0.Keys
    && (forall k :: k in b0 && k !in done ==> k in b && b[k] == b0[k])
    && (forall k :: k in b0 && k in done ==>
          if Filter(b0[k], keep) == [] then k !in b else k in b && b[k] == Filter(b0[k], keep))
  }

  lemma SweptStep(b0: Buckets, b: Buckets, done: set<Key>, k: Key, keep: Route -> bool)
    requires Swept(b0, b, done, keep) && k in b0 && k !in done
    ensures k in b && b[k] == b0[k]
    ensures var b' := if Filter(b0[k], keep) == [] then b - {k} else b[k := Filter(b0[k], keep)];
            && Swept(b0, b', done + {k}, keep)
            && |Slots(b0, done + {k})| == |Slots(b0, done)| + |b0[k]|
            && |Slots(b', done + {k})| == |Slots(b, done)| + |Filter(b0[k], keep)|
  {
    var f := Filter(b0[k], keep);
    var b' := if f == [] then b - {k} else b[k := f];
    SlotsGrow(b0, done, k);
    assert Slots(b', done) == Slots(b, done);
    if f == [] {
      assert Slots(b', done + {k}) == Slots(b', done);
    } else {
      SlotsGrow(b', done, k);
    }
  }

  /** The positions at which buckets hold a route, for a set of keys. */
  ghost function Slots(b: Buckets, keys: set<Key>): set<(Key, nat)> {
    set k, i | k in keys && k in b && 0 <= i < |b[k]| :: (k, i)
  }

  ghost function SlotsOf(k: Key, n: nat): set<(Key, nat)> {
    set i | 0 <= i < n :: (k, i)
  }

  lemma {:induction false} SlotsOfCount(k: Key, n: nat)
    ensures |SlotsOf(k, n)| == n
  {
    if n > 0 {
      SlotsOfCount(k, n - 1);
      assert SlotsOf(k, n) == SlotsOf(k, n - 1) + {(k, n - 1)};
    }
  }

  lemma SlotsGrow(b: Buckets, keys: set<Key>, k: Key)
    requires k in b && k !in keys
    ensures |Slots(b, keys + {k})| == |Slots(b, keys)| + |b[k]|
  {
    SlotsOfCount(k, |b[k]|);
    assert Slots(b, keys + {k}) == Slots(b, keys) + SlotsOf(k, |b[k]|);
    assert Slots(b, keys) !! SlotsOf(k, |b[k]|);
  }

  lemma {:induction false} SlotsCount(b: Buckets, fib: Fib, keys: set<Key>)
    requires Represents(b, fib) && keys <= b.Keys
    ensures |Slots(b, keys)| == |Region(fib, keys)|
  {
    if keys == {} {
      assert Slots(b, keys) == {} && Region(fib, keys) == {};
    } else {
      var k :| k in keys;
      SlotsCount(b, fib, keys - {k});
      BucketNames(b, fib, k);
      assert keys - {k} + {k} == keys;
      SlotsGrow(b, keys - {k}, k);
      RegionGrows(fib, keys - {k}, k, b[k]);
    }
  }

  lemma BucketNames(b: Buckets, fib: Fib, k: Key)
    requires Represents(b, fib) && k in b
    ensures Distinct(b[k])
    ensures forall rk :: rk in fib && rk.key == k <==> rk in Names(b[k])
  {
    assert BucketOk(k, b[k]);
    forall rk | rk in fib && rk.key == k ensures rk in Names(b[k]) {
      assert fib[rk] in b[k] && RK(fib[rk]) == rk;
    }
  }

  function Kept(fib: Fib, keep: Route -> bool): Fib {
    map rk | rk in fib && keep(fib[rk]) :: fib[rk]
  }

  lemma KeptWithoutPeer(fib: Fib, peer: NodeID, keep: Route -> bool)
    requires WfFib(fib)
    requires forall r :: keep(r) <==> r.origin != peer && r.nextHop != peer
    ensures Kept(fib, keep) == WithoutPeer(fib, peer)
  {
  }

  lemma SweptRepresents(b0: Buckets, f0: Fib, b: Buckets, keep: Route -> bool)
    requires Represents(b0, f0) && Swept(b0, b, b0.Keys, keep)
    ensures Represents(b, Kept(f0, keep))
  {
    forall k | k in b0
      ensures k in b ==> BucketOk(k, b[k]) && forall r :: r in b[k] ==> r in b0[k] && keep(r)
      ensures forall r :: r in b0[k] && keep(r) ==> k in b && r in b[k]
    {
      FilterDistinct(b0[k], keep);
      FilterMembers(b0[k], keep);
    }
  }
}
