/** What the answers of RoutingTable.Lookup mean: they do not depend on the order in which
    buckets are visited, a learned default route is invisible, and for canonical networks
    the full scan agrees with probing one key per prefix length. */
module Lookup {
  import opened Base
  import opened Addr
  import opened Table

  /** Two runs of Lookup on one table may pick different routes, but only among routes of
      the same mask length that tie in preference, path length, cost and age. */
  lemma AnswersTie(fib: Fib, direct: seq<IPNet>, x: IP, a: Found, b: Found)
    requires IsAnswer(fib, direct, x, a) && IsAnswer(fib, direct, x, b)
    ensures a.Learned? || b.Learned? ==>
              a.Learned? && b.Learned? && MaskSize(a.route.dest) == MaskSize(b.route.dest)
              && a.route.localPref == b.route.localPref && |a.route.path| == |b.route.path|
              && a.route.cost == b.route.cost && a.route.stamp == b.route.stamp
    ensures !a.Learned? || !b.Learned? ==> a == b
  {
  }

  /** What an answer is. An address in an attached network gets the first such network. A
      learned answer is a stored route whose network has at least one bit and contains the
      address. No other such route has a longer mask, and of those with the same mask none
      has a higher preference whatever its path; with the same preference none has a shorter
      path; with that too none is cheaper; and with all these none is older. */
  lemma AnswerIsBest(fib: Fib, direct: seq<IPNet>, x: IP, res: Found, q: Route)
    requires IsAnswer(fib, direct, x, res)
    ensures res.Direct? <==> exists n :: n in direct && Contains(n, x)
    ensures res.Direct? ==> exists i :: 0 <= i < |direct| && direct[i] == res.net && Contains(direct[i], x)
                                        && forall j :: 0 <= j < i ==> !Contains(direct[j], x)
    ensures res.Learned? ==>
              Stored(fib, res.route) && Contains(res.route.dest, x) && MaskSize(res.route.dest) > 0
    ensures Stored(fib, q) && Contains(q.dest, x) && MaskSize(q.dest) > 0 && !res.Direct? ==>
              && res.Learned?
              && (var r := res.route;
                  && MaskSize(q.dest) <= MaskSize(r.dest)
                  && (MaskSize(q.dest) == MaskSize(r.dest) ==> q.localPref <= r.localPref)
                  && (MaskSize(q.dest) == MaskSize(r.dest) && q.localPref == r.localPref ==>
                        |q.path| >= |r.path|
                        && (|q.path| == |r.path| ==> q.cost >= r.cost)
                        && (|q.path| == |r.path| && q.cost == r.cost ==> q.stamp >= r.stamp)))
  {
    if Stored(fib, q) && Contains(q.dest, x) && MaskSize(q.dest) > 0 {
      assert Candidate(fib, x, q);
    }
  }

  /** Outside the attached networks, a lookup succeeds exactly when some stored prefix of
      at least one bit contains the address. */
  lemma FoundIff(fib: Fib, direct: seq<IPNet>, x: IP, res: Found)
    requires WfFib(fib) && IsAnswer(fib, direct, x, res)
    requires forall n :: n in direct ==> !Contains(n, x)
    ensures res.Learned? <==>
              exists rk :: rk in fib && Contains(fib[rk].dest, x) && MaskSize(fib[rk].dest) >= 1
    ensures res.Learned? ==>
              forall rk :: rk in fib && Contains(fib[rk].dest, x) ==>
                MaskSize(fib[rk].dest) <= MaskSize(res.route.dest)
  {
    if rk :| rk in fib && Contains(fib[rk].dest, x) && MaskSize(fib[rk].dest) >= 1 {
      assert Candidate(fib, x, fib[rk]);
    }
    if res.Learned? {
      assert fib[RK(res.route)] == res.route;
      forall rk | rk in fib && Contains(fib[rk].dest, x)
        ensures MaskSize(fib[rk].dest) <= MaskSize(res.route.dest)
      {
        if MaskSize(fib[rk].dest) >= 1 {
          assert Candidate(fib, x, fib[rk]);
        }
      }
    }
  }

  const ANY_V4 := IPNet(V4([0, 0, 0, 0]), Mask(0, 32))

  /** The gap in practice: a table whose only route is 0.0.0.0/0 knows no way anywhere,
      although that network contains every IPv4 address. */
  lemma DefaultRouteIsInvisible(r: Route, x: IP, res: Found)
    requires r.dest == ANY_V4 && x.V4?
    requires IsAnswer(map[RK(r) := r], [], x, res)
    ensures Contains(r.dest, x) && res == NoRoute
  {
    var zero := MaskOctets([0, 0, 0, 0], 0);
    assert zero == MaskOctets(x.b4, 0);
  }

  // ---- One bucket decides ----

  ghost predicate AllCanonical(fib: Fib) {
    forall rk :: rk in fib ==> Canonical(fib[rk].dest)
  }

  function ProbeKey(x: IP, k: nat): Key {
    Cidr(NetworkOf(x, k), k)
  }

  ghost predicate HasKey(fib: Fib, key: Key) {
    exists rk :: rk in fib && rk.key == key
  }

  /** The longest length, from k down to 1, whose key around x is present. */
  ghost function ProbeFrom(fib: Fib, x: IP, k: nat): (r: Option<nat>)
    ensures r.Some? ==> 1 <= r.value <= k && HasKey(fib, ProbeKey(x, r.value))
    ensures forall j :: 1 <= j <= k && HasKey(fib, ProbeKey(x, j)) ==> r.Some? && j <= r.value
  {
    if k == 0 then None
    else if HasKey(fib, ProbeKey(x, k)) then Some(k)
    else ProbeFrom(fib, x, k - 1)
  }

  /** What probing would answer: a best route of the first key that is present. */
  ghost predicate IsProbeAnswer(fib: Fib, x: IP, res: Found) {
    match ProbeFrom(fib, x, Width(x))
    case None => res == NoRoute
    case Some(k) =>
      && res.Learned? && Stored(fib, res.route) && RK(res.route).key == ProbeKey(x, k)
      && forall q :: Stored(fib, q) && RK(q).key == ProbeKey(x, k) ==> !Better(q, res.route)
  }

  ghost predicate Stored(fib: Fib, r: Route) {
    RK(r) in fib && fib[RK(r)] == r
  }

  lemma CandidateIsKeyed(fib: Fib, x: IP, q: Route)
    requires AllCanonical(fib)
    ensures Candidate(fib, x, q) <==>
              Stored(fib, q) && 1 <= MaskSize(q.dest) <= Width(x)
              && RK(q).key == ProbeKey(x, MaskSize(q.dest))
  {
    if Stored(fib, q) {
      OneKeyPerLength(q.dest, x);
    }
  }

  /** The candidates are the routes under some probed key, up to the longest present. */
  lemma CandidatesProbed(fib: Fib, x: IP)
    requires WfFib(fib) && AllCanonical(fib)
    ensures var p := ProbeFrom(fib, x, Width(x));
            && (forall q :: Candidate(fib, x, q) ==> p.Some? && MaskSize(q.dest) <= p.value)
            && (p.Some? ==> exists q :: Candidate(fib, x, q) && MaskSize(q.dest) == p.value)
            && (p.Some? ==> forall q :: Stored(fib, q) && RK(q).key == ProbeKey(x, p.value) <==>
                              Candidate(fib, x, q) && MaskSize(q.dest) == p.value)
  {
    var p := ProbeFrom(fib, x, Width(x));
    forall q | Candidate(fib, x, q) ensures p.Some? && MaskSize(q.dest) <= p.value {
      CandidateIsKeyed(fib, x, q);
      assert HasKey(fib, ProbeKey(x, MaskSize(q.dest)));
    }
    if p.Some? {
      forall q ensures Stored(fib, q) && RK(q).key == ProbeKey(x, p.value) <==>
                         Candidate(fib, x, q) && MaskSize(q.dest) == p.value {
        CandidateIsKeyed(fib, x, q);
        assert Stored(fib, q) ==> Canonical(q.dest);
      }
      var rk :| rk in fib && rk.key == ProbeKey(x, p.value);
      assert Stored(fib, fib[rk]) && Candidate(fib, x, fib[rk]);
    }
  }

  /** For canonical networks the scan over all buckets and the probing of one key per
      length, longest first, allow exactly the same answers. In particular every pair of
      routes that competes in bestPath comes from one bucket. */
  lemma ScanIsProbe(fib: Fib, direct: seq<IPNet>, x: IP, res: Found)
    requires WfFib(fib) && AllCanonical(fib)
    requires forall n :: n in direct ==> !Contains(n, x)
    ensures IsAnswer(fib, direct, x, res) && !res.Direct? <==> IsProbeAnswer(fib, x, res)
  {
    CandidatesProbed(fib, x);
  }

  /** A route that is heard again outlives a collection within its lifetime even when
      nothing but its age changed; a different cost takes its path along, better or worse.
      All other routes live as long as they would have. */
  lemma RefreshOutlivesGC(self: NodeID, fib: Fib, r: Route, now: int, later: int, ttl: int)
    requires WfFib(fib) && self !in r.path && later - now < ttl
    ensures var kept := Unexpired(Put(self, fib, r, now).0, later, ttl);
            && RK(r) in kept && kept[RK(r)].stamp == now && kept[RK(r)].cost == r.cost
            && (kept[RK(r)].path == r.path
                || (RK(r) in fib && kept[RK(r)].path == fib[RK(r)].path && fib[RK(r)].cost == r.cost))
            && forall rk :: rk in fib && rk != RK(r) ==>
                 (rk in kept <==> later - fib[rk].stamp < ttl) && (rk in kept ==> kept[rk] == fib[rk])
  {
  }
}
