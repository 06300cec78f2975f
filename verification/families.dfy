/** Families of detours: one from each of any number of nodes can be chosen so that whenever
    two of them take the same link with the same number of nodes to go they go on together. */
module Families {
  import opened Base
  import opened Detours

  type Ways = set<Path>

  ghost function Tails(ways: Ways): set<Path> {
    set p, i | p in ways && 0 <= i < |p| :: p[i..]
  }

  ghost predicate SameLink(t: Path, r: Path) {
    |t| == |r| >= 2 && t[0] == r[0] && t[1] == r[1]
  }

  /** Two ways that take the same link with the same number of nodes to go go on together. */
  ghost predicate Compatible(ways: Ways) {
    forall t, r :: t in Tails(ways) && r in Tails(ways) && SameLink(t, r) ==> t == r
  }

  ghost predicate OneEach(ways: Ways) {
    forall p, q :: p in ways && q in ways && p != [] && q != [] && p[0] == q[0] ==> p == q
  }

  ghost predicate HeadIn(ways: Ways, x: NodeID) {
    exists p :: p in ways && p != [] && p[0] == x
  }

  ghost predicate AllDetours(e: Edges, d: Dist, o: NodeID, ways: Ways) {
    forall p :: p in ways ==> IsDetour(e, d, o, p)
  }

  /** Every one of the ways that ends with t can end with r instead. */
  ghost predicate CanMove(ways: Ways, t: Path, r: Path) {
    forall w, k :: w in ways && 0 <= k <= |w| && w[k..] == t ==> NoDup(w[..k] + r)
  }

  lemma OneMoves(e: Edges, d: Dist, o: NodeID, ways: Ways, t: Path, r: Path)
    requires World(e, d, o) && AllDetours(e, d, o, ways) && SameLink(t, r)
    ensures CanMove(ways, t, r) || CanMove(ways, r, t)
  {
    if !CanMove(ways, t, r) {
      var p, i :| p in ways && 0 <= i <= |p| && p[i..] == t && !NoDup(p[..i] + r);
      forall w, k | w in ways && 0 <= k <= |w| && w[k..] == r ensures NoDup(w[..k] + t) {
        assert p[i] == t[0] && p[i + 1] == t[1] && w[k] == r[0] && w[k + 1] == r[1];
        OneFits(e, d, o, p, i, w, k);
      }
    }
  }

  function Moved(w: Path, t: Path, r: Path): Path {
    if |t| <= |w| && w[|w| - |t|..] == t then w[..|w| - |t|] + r else w
  }

  ghost function AllMoved(ways: Ways, t: Path, r: Path): Ways {
    set w | w in ways :: Moved(w, t, r)
  }

  lemma MovedIsDetour(e: Edges, d: Dist, o: NodeID, w: Path, t: Path, r: Path)
    requires World(e, d, o) && IsDetour(e, d, o, w) && IsWay(e, r, o) && |t| == |r| && t[0] == r[0]
    requires |t| <= |w| && w[|w| - |t|..] == t ==> NoDup(w[..|w| - |t|] + r)
    ensures IsDetour(e, d, o, Moved(w, t, r)) && Moved(w, t, r)[0] == w[0] && |Moved(w, t, r)| == |w|
  {
    var m := Moved(w, t, r);
    if |t| <= |w| && w[|w| - |t|..] == t {
      var n := |w| - |t|;
      assert w[n] == t[0];
      forall i, j | 0 <= i && j == i + 1 && j < |m| ensures (m[i], m[j]) in e {
        if j <= n {
          assert (w[i], w[j]) in e;
        } else {
          assert (r[i - n], r[j - n]) in e;
        }
      }
      assert IsWay(e, m, o);
    }
  }

  lemma {:induction false} ImageSize(s: set<Path>, t: Path, r: Path)
    ensures |set x | x in s :: Moved(x, t, r)| <= |s|
    decreases |s|
  {
    if x :| x in s {
      ImageSize(s - {x}, t, r);
      var (rest, all) := (set y | y in s - {x} :: Moved(y, t, r), set y | y in s :: Moved(y, t, r));
      assert all == rest + {Moved(x, t, r)};
    }
  }

  /** Each tail after the move was a tail before, or such a tail moved; t itself is gone. */
  lemma TailMoved(ways: Ways, t: Path, r: Path, w: Path, i: nat) returns (x: Path)
    requires t in Tails(ways) && r in Tails(ways) && |t| == |r| && t != r && w in ways
    requires i < |Moved(w, t, r)|
    ensures x in Tails(ways) && x != t && Moved(x, t, r) == Moved(w, t, r)[i..]
  {
    if |t| <= |w| && w[|w| - |t|..] == t {
      var n := |w| - |t|;
      if i < n {
        x := w[i..];
        EndMoved(w, n, t, r, i);
      } else {
        x := r[i - n..];
        assert (w[..n] + r)[i..] == x;
        TailOfTail(ways, r, i - n);
        assert |x| == |r| ==> x == r;
      }
    } else {
      x := w[i..];
      assert |t| <= |x| ==> x[|x| - |t|..] == w[|w| - |t|..];
    }
  }

  lemma EndMoved(w: Path, n: nat, t: Path, r: Path, i: nat)
    requires i < n <= |w| && w[n..] == t && |r| == |t|
    ensures Moved(w[i..], t, r) == (w[..n] + r)[i..] && w[i..] != t
  {
    var x := w[i..];
    assert x[|x| - |t|..] == t && x[..|x| - |t|] == w[i..n];
    assert (w[..n] + r)[i..] == w[i..n] + r;
  }

  lemma TailOfTail(ways: Ways, r: Path, i: nat)
    requires r in Tails(ways) && i < |r|
    ensures r[i..] in Tails(ways)
  {
    var p, j :| p in ways && 0 <= j < |p| && p[j..] == r;
    assert p[j + i..] == r[i..];
  }

  lemma TailsShrink(ways: Ways, t: Path, r: Path)
    requires t in Tails(ways) && r in Tails(ways) && |t| == |r| && t != r
    ensures |Tails(AllMoved(ways, t, r))| < |Tails(ways)|
  {
    var (before, after) := (Tails(ways) - {t}, Tails(AllMoved(ways, t, r)));
    var image := set x | x in before :: Moved(x, t, r);
    forall y | y in after ensures y in image {
      var m, i :| m in AllMoved(ways, t, r) && 0 <= i < |m| && y == m[i..];
      var w :| w in ways && m == Moved(w, t, r);
      var x := TailMoved(ways, t, r, w, i);
    }
    ImageSize(before, t, r);
    SubsetSize(after, image);
  }

  lemma {:induction false} SubsetSize(a: set<Path>, b: set<Path>)
    requires a <= b
    ensures |a| <= |b|
    decreases |a|
  {
    if x :| x in a {
      SubsetSize(a - {x}, b - {x});
    }
  }

  lemma TailOfDetour(e: Edges, d: Dist, o: NodeID, ways: Ways, r: Path)
    requires AllDetours(e, d, o, ways) && r in Tails(ways)
    ensures IsWay(e, r, o)
  {
    var p, i :| p in ways && 0 <= i < |p| && p[i..] == r;
    TailIsWay(e, p, o, i);
  }

  lemma MoveKeeps(e: Edges, d: Dist, o: NodeID, ways: Ways, t: Path, r: Path)
    requires World(e, d, o) && AllDetours(e, d, o, ways) && OneEach(ways) && CanMove(ways, t, r)
    requires SameLink(t, r) && r in Tails(ways)
    ensures AllDetours(e, d, o, AllMoved(ways, t, r)) && OneEach(AllMoved(ways, t, r))
    ensures forall x :: HeadIn(ways, x) <==> HeadIn(AllMoved(ways, t, r), x)
  {
    TailOfDetour(e, d, o, ways, r);
    forall w | w in ways
      ensures IsDetour(e, d, o, Moved(w, t, r)) && Moved(w, t, r)[0] == w[0] && |Moved(w, t, r)| == |w|
    {
      MovedIsDetour(e, d, o, w, t, r);
    }
    forall x | HeadIn(ways, x) ensures HeadIn(AllMoved(ways, t, r), x) {
      var w :| w in ways && w != [] && w[0] == x;
      assert Moved(w, t, r) in AllMoved(ways, t, r);
    }
  }

  /** Any family of detours, one from each of some nodes, can be made compatible. */
  lemma {:induction false} Harmonise(e: Edges, d: Dist, o: NodeID, ways: Ways) returns (good: Ways)
    requires World(e, d, o) && AllDetours(e, d, o, ways) && OneEach(ways)
    ensures AllDetours(e, d, o, good) && OneEach(good) && Compatible(good)
    ensures forall x :: HeadIn(ways, x) <==> HeadIn(good, x)
    decreases |Tails(ways)|
  {
    if Compatible(ways) {
      good := ways;
    } else {
      var t, r :| t in Tails(ways) && r in Tails(ways) && SameLink(t, r) && t != r;
      OneMoves(e, d, o, ways, t, r);
      if !CanMove(ways, t, r) {
        t, r := r, t;
      }
      MoveKeeps(e, d, o, ways, t, r);
      TailsShrink(ways, t, r);
      good := Harmonise(e, d, o, AllMoved(ways, t, r));
    }
  }

  // ---- Detours and distances exist ----

  lemma {:induction false} SomeDetour(e: Edges, d: Dist, o: NodeID, p: Path) returns (q: Path)
    requires IsWay(e, p, o) && p[0] in d && d[p[0]] < |p| && IsDist(e, d, o)
    ensures IsDetour(e, d, o, q) && q[0] == p[0] && |q| <= |p|
    decreases |p|
  {
    if IsDetour(e, d, o, p) {
      q := p;
    } else {
      var r :| IsWay(e, r, o) && r[0] == p[0] && |r| != d[p[0]] && |r| < |p|;
      q := SomeDetour(e, d, o, r);
    }
  }

  ghost predicate LongerFrom(e: Edges, d: Dist, o: NodeID, x: NodeID, limit: nat) {
    x in d && exists p :: IsWay(e, p, o) && p[0] == x && d[x] < |p| < limit
  }

  ghost predicate StartsGood(x: NodeID, good: Path -> bool) {
    exists p :: good(p) && p != [] && p[0] == x
  }

  lemma {:induction false} OnePerHead(heads: set<NodeID>, good: Path -> bool) returns (ways: Ways)
    requires forall x :: x in heads ==> StartsGood(x, good)
    ensures OneEach(ways) && forall p :: p in ways ==> good(p) && p != [] && p[0] in heads
    ensures forall x :: x in heads ==> HeadIn(ways, x)
    decreases |heads|
  {
    if heads == {} {
      ways := {};
    } else {
      var x :| x in heads;
      var rest := OnePerHead(heads - {x}, good);
      var q :| good(q) && q != [] && q[0] == x;
      ways := rest + {q};
      HeadsAdded(rest, q, heads);
    }
  }

  lemma HeadsAdded(rest: Ways, q: Path, heads: set<NodeID>)
    requires q != [] && q[0] in heads && OneEach(rest)
    requires forall p :: p in rest ==> p != [] && p[0] in heads - {q[0]}
    requires forall x :: x in heads - {q[0]} ==> HeadIn(rest, x)
    ensures OneEach(rest + {q}) && forall x :: x in heads ==> HeadIn(rest + {q}, x)
  {
    forall y | y in heads ensures HeadIn(rest + {q}, y) {
      if y == q[0] {
        assert q in rest + {q};
      } else {
        assert HeadIn(rest, y);
        var w :| w in rest && w != [] && w[0] == y;
        assert w in rest + {q};
      }
    }
  }

  /** Wherever each of some nodes has a longer way within the limit, compatible detours
      within the limit lead from all of them. */
  lemma CompatibleDetours(e: Edges, d: Dist, o: NodeID, heads: set<NodeID>, limit: nat) returns (ways: Ways)
    requires World(e, d, o) && forall x :: x in heads ==> LongerFrom(e, d, o, x, limit)
    ensures AllDetours(e, d, o, ways) && OneEach(ways) && Compatible(ways)
    ensures forall p :: p in ways ==> |p| < limit && p[0] in heads
    ensures forall x :: x in heads ==> HeadIn(ways, x)
  {
    var good := (p: Path) => IsDetour(e, d, o, p) && |p| < limit;
    forall x | x in heads ensures StartsGood(x, good) {
      var p :| IsWay(e, p, o) && p[0] == x && d[x] < |p| < limit;
      var q := SomeDetour(e, d, o, p);
      assert good(q);
    }
    var some := OnePerHead(heads, good);
    ways := Harmonise(e, d, o, some);
    forall p | p in ways ensures |p| < limit && p[0] in heads {
      assert HeadIn(ways, p[0]);
      var q :| q in some && q != [] && q[0] == p[0];
      assert good(q);
    }
  }

  ghost predicate WayOf(e: Edges, o: NodeID, x: NodeID, n: nat) {
    exists p :: IsWay(e, p, o) && p[0] == x && |p| == n
  }

  lemma {:induction false} LeastWay(e: Edges, o: NodeID, x: NodeID, n: nat) returns (m: nat)
    requires WayOf(e, o, x, n)
    ensures m <= n && WayOf(e, o, x, m) && forall k: nat :: k < m ==> !WayOf(e, o, x, k)
    decreases n
  {
    if k: nat :| k < n && WayOf(e, o, x, k) {
      m := LeastWay(e, o, x, k);
    } else {
      m := n;
    }
  }

  ghost predicate IsLeast(e: Edges, o: NodeID, x: NodeID, m: nat) {
    WayOf(e, o, x, m) && forall k: nat :: k < m ==> !WayOf(e, o, x, k)
  }

  ghost function Nodes(e: Edges, o: NodeID): set<NodeID> {
    {o} + set t | t in e :: t.0
  }

  lemma {:induction false} DistOver(e: Edges, o: NodeID, nodes: set<NodeID>) returns (d: Dist)
    ensures forall x :: x in d <==> x in nodes && exists n: nat :: WayOf(e, o, x, n)
    ensures forall x :: x in d ==> IsLeast(e, o, x, d[x])
    decreases |nodes|
  {
    if nodes == {} {
      d := map[];
    } else {
      var x :| x in nodes;
      d := DistOver(e, o, nodes - {x});
      if n: nat :| WayOf(e, o, x, n) {
        var m := LeastWay(e, o, x, n);
        d := d[x := m];
      }
    }
  }

  lemma SomeDist(e: Edges, o: NodeID) returns (d: Dist)
    ensures IsDist(e, d, o)
  {
    d := DistOver(e, o, Nodes(e, o));
    forall p | IsWay(e, p, o) ensures p[0] in d && d[p[0]] <= |p| {
      assert |p| > 1 ==> (p[0], p[1]) in e;
      assert WayOf(e, o, p[0], |p|);
    }
  }
}
