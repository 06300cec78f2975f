/** Second-shortest ways in a graph. A way is a simple path to a fixed node o; a detour is a
    way that is longer than the shortest one, and as short as such a way can be. The result:
    of two detours that take the same link with the same number of nodes to go, one can go
    on like the other. */
module Detours {
  import opened Base

  type Edges = set<(NodeID, NodeID)>
  type Path = seq<NodeID>
  type Dist = map<NodeID, nat>

  ghost predicate IsPath(e: Edges, p: Path) {
    p != [] && NoDup(p)
    && forall i, j {:trigger (p[i], p[j]) in e} :: 0 <= i && j == i + 1 && j < |p| ==> (p[i], p[j]) in e
  }

  ghost predicate IsWay(e: Edges, p: Path, o: NodeID) {
    IsPath(e, p) && p[|p| - 1] == o
  }

  ghost predicate Symmetric(e: Edges) {
    forall x, y :: (x, y) in e ==> (y, x) in e
  }

  /** The distance of a node counts the nodes on a shortest way, and is known for all nodes
      that have a way. */
  ghost predicate IsDist(e: Edges, d: Dist, o: NodeID) {
    && (forall p :: IsWay(e, p, o) ==> p[0] in d && d[p[0]] <= |p|)
    && (forall x :: x in d ==> exists p :: IsWay(e, p, o) && p[0] == x && |p| == d[x])
  }

  ghost predicate World(e: Edges, d: Dist, o: NodeID) {
    Symmetric(e) && IsDist(e, d, o)
  }

  // ---- Ways ----

  lemma TailIsWay(e: Edges, p: Path, o: NodeID, i: nat)
    requires IsWay(e, p, o) && i < |p|
    ensures IsWay(e, p[i..], o)
  {
    var t := p[i..];
    forall j, k | 0 <= j && k == j + 1 && k < |t| ensures (t[j], t[k]) in e {
      assert (p[i + j], p[i + k]) in e;
    }
  }

  lemma OnWay(e: Edges, d: Dist, p: Path, o: NodeID, i: nat)
    requires IsDist(e, d, o) && IsWay(e, p, o) && i < |p|
    ensures p[i] in d && d[p[i]] <= |p| - i
  {
    TailIsWay(e, p, o, i);
  }

  lemma PrefixIsPath(e: Edges, p: Path, i: nat)
    requires IsPath(e, p) && 0 < i <= |p|
    ensures IsPath(e, p[..i])
  {
    var t := p[..i];
    forall j, k | 0 <= j && k == j + 1 && k < |t| ensures (t[j], t[k]) in e {
      assert (p[j], p[k]) in e;
    }
  }

  lemma SegmentIsPath(e: Edges, p: Path, i: nat, j: nat)
    requires IsPath(e, p) && i < j <= |p|
    ensures IsPath(e, p[i..j])
  {
    var t := p[i..j];
    forall k, l | 0 <= k && l == k + 1 && l < |t| ensures (t[k], t[l]) in e {
      assert (p[i + k], p[i + l]) in e;
    }
  }

  function Back(p: Path): (r: Path)
    ensures |r| == |p| && forall i :: 0 <= i < |p| ==> r[i] == p[|p| - 1 - i]
  {
    seq(|p|, i requires 0 <= i < |p| => p[|p| - 1 - i])
  }

  lemma BackIsPath(e: Edges, p: Path)
    requires Symmetric(e) && IsPath(e, p)
    ensures IsPath(e, Back(p))
  {
    var r := Back(p);
    forall i, j | 0 <= i && j == i + 1 && j < |r| ensures (r[i], r[j]) in e {
      assert (p[|p| - 1 - j], p[|p| - 1 - i]) in e;
    }
  }

  /** The distance changes by at most one along a link. */
  lemma OneStep(e: Edges, d: Dist, o: NodeID, x: NodeID, y: NodeID)
    requires World(e, d, o) && (x, y) in e && x in d && y in d
    ensures d[x] <= d[y] + 1
  {
    var p :| IsWay(e, p, o) && p[0] == y && |p| == d[y];
    if i :| 0 <= i < |p| && p[i] == x {
      TailIsWay(e, p, o, i);
    } else {
      var q := [x] + p;
      forall j, k | 0 <= j && k == j + 1 && k < |q| ensures (q[j], q[k]) in e {
        assert j > 0 ==> (p[j - 1], p[k - 1]) in e;
      }
      assert IsWay(e, q, o);
    }
  }

  /** Over a stretch of a way the distance changes by no more than the number of steps. */
  lemma {:induction false} Stretch(e: Edges, d: Dist, o: NodeID, p: Path, i: nat, j: nat)
    requires World(e, d, o) && IsWay(e, p, o) && i <= j < |p|
    ensures p[i] in d && p[j] in d && d[p[j]] <= d[p[i]] + (j - i) && d[p[i]] <= d[p[j]] + (j - i)
    decreases j - i
  {
    OnWay(e, d, p, o, i);
    OnWay(e, d, p, o, j);
    if i < j {
      Stretch(e, d, o, p, i, j - 1);
      assert (p[j - 1], p[j]) in e;
      OneStep(e, d, o, p[j - 1], p[j]);
      OneStep(e, d, o, p[j], p[j - 1]);
    }
  }

  /** A stretch with a step that does not go up rises by less. */
  lemma SlowStretch(e: Edges, d: Dist, o: NodeID, p: Path, i: nat, k: nat, j: nat)
    requires World(e, d, o) && IsWay(e, p, o) && i <= k < j < |p|
    requires p[k] in d && p[k + 1] in d && d[p[k + 1]] <= d[p[k]]
    ensures p[i] in d && p[j] in d && d[p[j]] < d[p[i]] + (j - i)
  {
    Stretch(e, d, o, p, i, k);
    Stretch(e, d, o, p, k + 1, j);
  }

  /** A shortest way goes down all the time. */
  lemma ShortestGoesDown(e: Edges, d: Dist, o: NodeID, p: Path)
    requires World(e, d, o) && IsWay(e, p, o) && p[0] in d && |p| == d[p[0]]
    ensures forall k :: 0 <= k < |p| ==> p[k] in d && d[p[k]] == |p| - k
  {
    forall k | 0 <= k < |p| ensures p[k] in d && d[p[k]] == |p| - k {
      OnWay(e, d, p, o, k);
      Stretch(e, d, o, p, 0, k);
    }
  }

  // ---- Splicing ----

  ghost predicate Apart(a: Path, t: Path) {
    forall x :: x in a ==> x !in t
  }

  /** Follow a until it first meets c, follow c until it first meets t, and then t. */
  datatype Splicing = Splicing(f: nat, i: nat, j: nat, g: nat, r: Path)

  ghost predicate Fitting(a: Path, c: Path, t: Path, x: Splicing) {
    x.f < |a| && x.i < x.j < |c| && x.g < |t| && a[x.f] == c[x.i] && c[x.j] == t[x.g]
  }

  /** The splicing step by step. */
  ghost predicate Pieced(a: Path, c: Path, t: Path, x: Splicing) {
    && Fitting(a, c, t, x) && |x.r| == x.f + (x.j - x.i) + |t| - x.g && x.r[0] == a[0]
    && (forall k :: 0 <= k < x.f ==> x.r[k] == a[k])
    && (forall k :: x.f <= k <= x.f + (x.j - x.i) ==> x.r[k] == c[x.i + (k - x.f)])
    && (forall k :: x.f + (x.j - x.i) <= k < |x.r| ==> x.r[k] == t[x.g + (k - x.f - (x.j - x.i))])
  }

  ghost predicate IsSplicing(e: Edges, o: NodeID, a: Path, c: Path, t: Path, x: Splicing) {
    Pieced(a, c, t, x) && IsWay(e, x.r, o) && forall k :: 0 <= k < x.f ==> a[k] !in c
  }

  lemma FirstIn(a: Path, c: Path) returns (f: nat)
    requires exists x :: x in a && x in c
    ensures f < |a| && a[f] in c && forall k :: 0 <= k < f ==> a[k] !in c
  {
    f := 0;
    while a[f] !in c
      invariant f < |a| && (forall k :: 0 <= k < f ==> a[k] !in c)
      invariant exists k :: f <= k < |a| && a[k] in c
      decreases |a| - f
    {
      f := f + 1;
    }
  }

  lemma Splice(e: Edges, o: NodeID, a: Path, c: Path, t: Path) returns (x: Splicing)
    requires IsPath(e, a) && IsPath(e, c) && IsWay(e, t, o) && Apart(a, t)
    requires c[0] in a && c[|c| - 1] in t
    ensures IsSplicing(e, o, a, c, t, x)
  {
    var f, i, j, g := Corners(a, c, t);
    Joined(e, o, a, c, t, f, i, j, g);
    x := Splicing(f, i, j, g, a[..f] + c[i..j] + t[g..]);
    Pieces(a, c, t, x);
  }

  lemma Corners(a: Path, c: Path, t: Path) returns (f: nat, i: nat, j: nat, g: nat)
    requires Apart(a, t) && c != [] && c[0] in a && c[|c| - 1] in t
    ensures f < |a| && i < j < |c| && g < |t| && a[f] == c[i] && c[j] == t[g]
    ensures (forall k :: 0 <= k < f ==> a[k] !in c) && forall k :: i <= k < j ==> c[k] !in t
  {
    assert c[0] in c;
    f := FirstIn(a, c);
    i :| 0 <= i < |c| && c[i] == a[f];
    j := FirstFrom(c, i, t);
    g :| 0 <= g < |t| && t[g] == c[j];
    assert a[f] in a && c[j] in t;
  }

  lemma FirstFrom(c: Path, i: nat, t: Path) returns (j: nat)
    requires i < |c| && c[|c| - 1] in t
    ensures i <= j < |c| && c[j] in t && forall k :: i <= k < j ==> c[k] !in t
  {
    j := i;
    while c[j] !in t
      invariant i <= j < |c| && forall k :: i <= k < j ==> c[k] !in t
      decreases |c| - j
    {
      j := j + 1;
    }
  }

  lemma Pieces(a: Path, c: Path, t: Path, x: Splicing)
    requires Fitting(a, c, t, x) && x.r == a[..x.f] + c[x.i..x.j] + t[x.g..]
    ensures Pieced(a, c, t, x)
  {
  }

  lemma Joined(e: Edges, o: NodeID, a: Path, c: Path, t: Path, f: nat, i: nat, j: nat, g: nat)
    requires IsPath(e, a) && IsPath(e, c) && IsWay(e, t, o) && Apart(a, t)
    requires f < |a| && i < j < |c| && g < |t| && a[f] == c[i] && c[j] == t[g]
    requires forall k :: 0 <= k < f ==> a[k] !in c
    requires forall k :: i <= k < j ==> c[k] !in t
    ensures IsWay(e, a[..f] + c[i..j] + t[g..], o)
  {
    var r := a[..f] + c[i..j] + t[g..];
    forall k, l | 0 <= k && l == k + 1 && l < |r| ensures (r[k], r[l]) in e {
      if l <= f {
        assert (a[k], a[l]) in e;
      } else if l <= f + (j - i) {
        assert (c[i + (k - f)], c[i + (l - f)]) in e;
      } else {
        assert (t[g + (k - f - (j - i))], t[g + (l - f - (j - i))]) in e;
      }
    }
    forall k, l | 0 <= k < l < |r| ensures r[k] != r[l] {
      if k < f {
        assert a[k] in a && a[k] !in c && a[k] !in t;
        assert l >= f ==> r[l] in c || r[l] in t;
      } else if k < f + (j - i) {
        assert r[k] == c[i + (k - f)];
        assert l >= f + (j - i) ==> r[l] in t;
      }
    }
  }

  // ---- Detours ----

  /** A way that is not shortest, and no other such way from its first node is shorter. */
  ghost predicate IsDetour(e: Edges, d: Dist, o: NodeID, p: Path) {
    && IsWay(e, p, o) && p[0] in d && d[p[0]] < |p|
    && forall r :: IsWay(e, r, o) && r[0] == p[0] ==> |r| == d[p[0]] || |p| <= |r|
  }

  /** So what is shorter goes down all the time. */
  lemma ShorterGoesDown(e: Edges, d: Dist, o: NodeID, p: Path, r: Path)
    requires World(e, d, o) && IsDetour(e, d, o, p) && IsWay(e, r, o) && r[0] == p[0] && |r| < |p|
    ensures |r| == d[p[0]] && forall k :: 0 <= k < |r| ==> r[k] in d && d[r[k]] == d[p[0]] - k
  {
    ShortestGoesDown(e, d, o, r);
  }

  /** A detour goes down to its valley p[s], up to p[t], perhaps over one level step, and down
      to the end. */
  ghost predicate HasShape(d: Dist, p: Path, s: nat, t: nat, fl: nat) {
    && s <= t && t + fl < |p| && fl <= 1 && (s < t || fl == 1)
    && (forall i :: 0 <= i < |p| ==> p[i] in d)
    && (forall i :: 0 <= i <= s ==> d[p[i]] == d[p[0]] - i)
    && (forall i :: s <= i <= t ==> d[p[i]] == d[p[s]] + (i - s))
    && (forall i :: t + fl <= i < |p| ==> d[p[i]] == |p| - i)
    && d[p[t + fl]] == d[p[t]]
  }

  lemma {:induction false} LastRise(e: Edges, d: Dist, o: NodeID, p: Path, k: nat) returns (t: nat)
    requires World(e, d, o) && IsWay(e, p, o) && k < |p| && p[k] in d && d[p[k]] < |p| - k
    ensures k <= t < |p| - 1 && p[t] in d && p[t + 1] in d && d[p[t]] <= d[p[t + 1]]
    ensures forall i :: t < i < |p| ==> p[i] in d && d[p[i]] == |p| - i
    decreases |p| - k
  {
    Stretch(e, d, o, p, k, |p| - 1);
    LastIsOne(e, d, o, p);
    OnWay(e, d, p, o, k + 1);
    if d[p[k + 1]] < |p| - (k + 1) {
      t := LastRise(e, d, o, p, k + 1);
    } else {
      t := k;
      TailIsWay(e, p, o, k + 1);
      ShortestGoesDown(e, d, o, p[k + 1..]);
      forall i | t < i < |p| ensures p[i] in d && d[p[i]] == |p| - i {
        assert p[i] == p[k + 1..][i - (k + 1)];
      }
    }
  }

  lemma LastIsOne(e: Edges, d: Dist, o: NodeID, p: Path)
    requires World(e, d, o) && IsWay(e, p, o)
    ensures o in d && d[o] == 1
  {
    OnWay(e, d, p, o, |p| - 1);
    var q :| IsWay(e, q, o) && q[0] == o && |q| == d[o];
  }

  lemma FirstRise(e: Edges, d: Dist, o: NodeID, p: Path) returns (s: nat)
    requires World(e, d, o) && IsWay(e, p, o) && p[0] in d && d[p[0]] < |p|
    ensures s < |p| - 1 && (forall i :: 0 <= i < |p| ==> p[i] in d)
    ensures (forall i :: 0 <= i <= s ==> d[p[i]] == d[p[0]] - i) && d[p[s]] <= d[p[s + 1]]
  {
    forall i | 0 <= i < |p| ensures p[i] in d {
      OnWay(e, d, p, o, i);
    }
    LastIsOne(e, d, o, p);
    s := 0;
    while d[p[s + 1]] < d[p[s]]
      invariant s < |p| - 1 && forall i :: 0 <= i <= s ==> d[p[i]] == d[p[0]] - i
      decreases |p| - s
    {
      Stretch(e, d, o, p, s, s + 1);
      s := s + 1;
    }
  }

  /** A splicing that is shorter than a detour goes down all the time. */
  lemma SplicingGoesDown(e: Edges, d: Dist, o: NodeID, p: Path, a: Path, c: Path, t: Path, x: Splicing)
    requires World(e, d, o) && IsDetour(e, d, o, p) && IsSplicing(e, o, a, c, t, x)
    requires a[0] == p[0] && |x.r| < |p|
    ensures forall k :: 0 <= k <= x.f ==> a[k] in d && d[a[k]] == d[p[0]] - k
    ensures forall k :: x.i <= k <= x.j ==> c[k] in d && d[c[k]] == d[p[0]] - x.f - (k - x.i)
    ensures t[x.g] in d && d[t[x.g]] == |t| - x.g
  {
    ShorterGoesDown(e, d, o, p, x.r);
    forall k | x.i <= k <= x.j ensures c[k] in d && d[c[k]] == d[p[0]] - x.f - (k - x.i) {
      assert x.r[x.f + (k - x.i)] == c[k];
    }
    forall k | 0 <= k <= x.f ensures a[k] in d && d[a[k]] == d[p[0]] - k {
      assert x.r[k] == a[k];
    }
  }

  /** Leaving a way where it first meets another one. */
  lemma Switch(e: Edges, o: NodeID, p: Path, k: nat, q: Path, l: nat)
    requires IsPath(e, p) && IsWay(e, q, o) && k < |p| && l < |q| && p[k] == q[l]
    requires forall i :: 0 <= i < k ==> p[i] !in q
    ensures IsWay(e, p[..k] + q[l..], o) && (p[..k] + q[l..])[0] == p[0]
  {
    var r := p[..k] + q[l..];
    forall i, j | 0 <= i && j == i + 1 && j < |r| ensures (r[i], r[j]) in e {
      if j <= k {
        assert (p[i], p[j]) in e;
      } else {
        assert (q[l + (i - k)], q[l + (j - k)]) in e;
      }
    }
    forall i, j | 0 <= i < j < |r| ensures r[i] != r[j] {
      if i < k && j >= k {
        assert r[j] in q;
      }
    }
  }

  lemma SwitchGoesDown(e: Edges, d: Dist, o: NodeID, p: Path, k: nat, q: Path, l: nat)
    requires World(e, d, o) && IsDetour(e, d, o, p) && IsWay(e, q, o) && k < |p| && l < |q| && p[k] == q[l]
    requires (forall i :: 0 <= i < k ==> p[i] !in q) && k + |q| - l < |p|
    ensures forall i :: 0 <= i <= k ==> p[i] in d && d[p[i]] == d[p[0]] - i
    ensures q[l] in d && d[q[l]] == |q| - l
  {
    var r := p[..k] + q[l..];
    Switch(e, o, p, k, q, l);
    ShorterGoesDown(e, d, o, p, r);
    forall i | 0 <= i <= k ensures p[i] in d && d[p[i]] == d[p[0]] - i {
      assert r[i] == p[i];
    }
  }

  /** The part of a way from position i back to position j. */
  function Reversed(p: Path, i: nat, j: nat): (r: Path)
    requires j <= i < |p|
    ensures |r| == i - j + 1 && forall k :: 0 <= k < |r| ==> r[k] == p[i - k]
  {
    Back(p[j..i + 1])
  }

  lemma ReversedIsPath(e: Edges, p: Path, i: nat, j: nat)
    requires Symmetric(e) && IsPath(e, p) && j <= i < |p|
    ensures IsPath(e, Reversed(p, i, j)) && Reversed(p, i, j)[0] == p[i] && Reversed(p, i, j)[i - j] == p[j]
  {
    SegmentIsPath(e, p, j, i + 1);
    BackIsPath(e, p[j..i + 1]);
  }

  lemma PrefixApart(p: Path, i: nat, j: nat)
    requires NoDup(p) && i <= j <= |p|
    ensures Apart(p[..i], p[j..])
  {
  }

  /** The by-way follows p up to position f, then c from i to j, and then p from g on. */
  datatype Byway = Byway(f: nat, i: nat, j: nat, g: nat)

  ghost predicate GoesDown(d: Dist, p: Path, c: Path, b: Byway)
    requires 0 < |p| && b.f < |p| && b.i < b.j < |c| && b.g < |p|
  {
    && (forall n :: 0 <= n <= b.f ==> p[n] in d && p[0] in d && d[p[n]] == d[p[0]] - n)
    && (forall x :: b.i <= x <= b.j ==> c[x] in d && p[0] in d && d[c[x]] == d[p[0]] - b.f - (x - b.i))
    && p[b.g] in d && d[p[b.g]] == |p| - b.g
  }

  /** Follow p until it first meets c, follow c until it meets the rest of p, and go on with
      p. If this is shorter than a detour p, it goes down all the time. */
  lemma TakeByway(e: Edges, d: Dist, o: NodeID, p: Path, m: nat, k: nat, c: Path, from: nat, to: nat)
      returns (b: Byway)
    requires World(e, d, o) && IsWay(e, p, o) && IsPath(e, c) && from < m <= k <= to < |p|
    requires c[0] == p[from] && c[|c| - 1] == p[to]
    ensures b.f < m && b.i < b.j < |c| && k <= b.g < |p| && p[b.f] == c[b.i] && p[b.g] == c[b.j]
    ensures forall n :: 0 <= n < b.f ==> p[n] !in c
    ensures IsDetour(e, d, o, p) && b.f + (b.j - b.i) < b.g ==> GoesDown(d, p, c, b)
  {
    var (a, t) := (p[..m], p[k..]);
    PrefixIsPath(e, p, m);
    TailIsWay(e, p, o, k);
    PrefixApart(p, m, k);
    assert a[from] == c[0] && t[to - k] == c[|c| - 1];
    var x := Splice(e, o, a, c, t);
    b := Byway(x.f, x.i, x.j, k + x.g);
    assert t[x.g] == p[b.g];
    forall n | 0 <= n < b.f ensures p[n] !in c {
      assert a[n] !in c;
    }
    if IsDetour(e, d, o, p) && b.f + (b.j - b.i) < b.g {
      SplicingGoesDown(e, d, o, p, a, c, t, x);
      forall n | 0 <= n <= b.f ensures p[n] in d && d[p[n]] == d[p[0]] - n {
        assert a[n] == p[n];
      }
    }
  }

  /** Along the first part of p and then along w from h back to l the distance falls. */
  ghost predicate FallsBack(d: Dist, p: Path, w: Path, f: nat, h: nat, l: nat, g: nat)
    requires f < |p| && l < h < |w| && g < |p|
  {
    && (forall n :: 0 <= n <= f ==> p[n] in d && p[0] in d && d[p[n]] == d[p[0]] - n)
    && (forall x :: l <= x <= h ==> w[x] in d && p[0] in d && d[w[x]] == d[p[0]] - f - (h - x))
    && p[g] in d && d[p[g]] == |p| - g
  }

  /** A by-way along a stretch of another way, in the opposite direction. */
  lemma Backwards(e: Edges, d: Dist, o: NodeID, p: Path, m: nat, k: nat, w: Path, hi: nat, lo: nat,
                  from: nat, to: nat) returns (f: nat, h: nat, l: nat, g: nat)
    requires World(e, d, o) && IsWay(e, p, o) && IsWay(e, w, o) && from < m <= k <= to < |p| && lo < hi < |w|
    requires w[hi] == p[from] && w[lo] == p[to]
    ensures f < m && lo <= l < h <= hi && k <= g < |p| && p[f] == w[h] && p[g] == w[l]
    ensures forall n, x :: 0 <= n < f && lo <= x <= hi ==> p[n] != w[x]
    ensures IsDetour(e, d, o, p) && f + (h - l) < g ==> FallsBack(d, p, w, f, h, l, g)
  {
    ReversedIsPath(e, w, hi, lo);
    var b := TakeByway(e, d, o, p, m, k, Reversed(w, hi, lo), from, to);
    f, h, l, g := b.f, hi - b.i, hi - b.j, b.g;
    NotOnStretch(p, f, w, hi, lo);
    if b.f + (b.j - b.i) < b.g && IsDetour(e, d, o, p) {
      TurnedRound(d, p, w, hi, lo, b);
    }
  }

  lemma TurnedRound(d: Dist, p: Path, w: Path, hi: nat, lo: nat, b: Byway)
    requires 0 < |p| && b.f < |p| && lo < hi < |w| && b.i < b.j <= hi - lo && b.g < |p|
    requires GoesDown(d, p, Reversed(w, hi, lo), b)
    ensures FallsBack(d, p, w, b.f, hi - b.i, hi - b.j, b.g)
  {
    var c := Reversed(w, hi, lo);
    forall x | hi - b.j <= x <= hi - b.i ensures w[x] in d && d[w[x]] == d[p[0]] - b.f - (hi - b.i - x) {
      assert c[hi - x] == w[x];
    }
  }

  lemma NotOnStretch(p: Path, f: nat, w: Path, hi: nat, lo: nat)
    requires f < |p| && lo < hi < |w| && forall n :: 0 <= n < f ==> p[n] !in Reversed(w, hi, lo)
    ensures forall n, x :: 0 <= n < f && lo <= x <= hi ==> p[n] != w[x]
  {
    forall n, y | 0 <= n < f && lo <= y <= hi ensures p[n] != w[y] {
      assert Reversed(w, hi, lo)[hi - y] == w[y];
    }
  }

  /** The same along the other way's own direction. */
  lemma Forwards(e: Edges, d: Dist, o: NodeID, p: Path, m: nat, k: nat, w: Path, lo: nat, hi: nat,
                 from: nat, to: nat) returns (f: nat, l: nat, h: nat, g: nat)
    requires World(e, d, o) && IsWay(e, p, o) && IsWay(e, w, o) && from < m <= k <= to < |p| && lo < hi < |w|
    requires w[lo] == p[from] && w[hi] == p[to]
    ensures f < m && lo <= l < h <= hi && k <= g < |p| && p[f] == w[l] && p[g] == w[h]
    ensures forall n, x :: 0 <= n < f && lo <= x <= hi ==> p[n] != w[x]
    ensures IsDetour(e, d, o, p) && f + (h - l) < g ==> GoesDown(d, p, w, Byway(f, l, h, g))
  {
    var c := w[lo..hi + 1];
    SegmentIsPath(e, w, lo, hi + 1);
    assert c[0] == w[lo] && c[|c| - 1] == w[hi];
    var b := TakeByway(e, d, o, p, m, k, c, from, to);
    f, l, h, g := b.f, lo + b.i, lo + b.j, b.g;
    NotInSegment(p, f, w, lo, hi);
    if IsDetour(e, d, o, p) && f + (h - l) < g {
      WholeGoesDown(d, p, w, lo, hi, b);
    }
  }

  lemma NotInSegment(p: Path, f: nat, w: Path, lo: nat, hi: nat)
    requires f < |p| && lo < hi < |w| && forall n :: 0 <= n < f ==> p[n] !in w[lo..hi + 1]
    ensures forall n, x :: 0 <= n < f && lo <= x <= hi ==> p[n] != w[x]
  {
    forall n, y | 0 <= n < f && lo <= y <= hi ensures p[n] != w[y] {
      assert w[lo..hi + 1][y - lo] == w[y];
    }
  }

  lemma WholeGoesDown(d: Dist, p: Path, w: Path, lo: nat, hi: nat, b: Byway)
    requires lo < hi < |w| && 0 < |p| && b.f < |p| && b.i < b.j < hi + 1 - lo && b.g < |p|
    requires GoesDown(d, p, w[lo..hi + 1], b)
    ensures GoesDown(d, p, w, Byway(b.f, lo + b.i, lo + b.j, b.g))
  {
    var c := w[lo..hi + 1];
    forall y | lo + b.i <= y <= lo + b.j
      ensures w[y] in d && d[w[y]] == d[p[0]] - b.f - (y - (lo + b.i))
    {
      assert c[y - lo] == w[y];
    }
  }

  /** Between its first and its last rise a detour rises all the time: from anywhere else a
      shortest way leads down, meets the way before the valley, and gives a short cut. */
  lemma MiddleRises(e: Edges, d: Dist, o: NodeID, p: Path, s: nat, t: nat, i: nat)
    requires World(e, d, o) && IsDetour(e, d, o, p) && s <= i < t < |p| - 1
    requires forall k :: 0 <= k < |p| ==> p[k] in d
    requires d[p[s]] == d[p[0]] - s && d[p[s]] <= d[p[s + 1]]
    requires d[p[t]] <= d[p[t + 1]] && d[p[t + 1]] == |p| - (t + 1)
    ensures d[p[i + 1]] == d[p[i]] + 1
  {
    Stretch(e, d, o, p, i, i + 1);
    if d[p[i + 1]] <= d[p[i]] {
      var w :| IsWay(e, w, o) && w[0] == p[i + 1] && |w| == d[p[i + 1]];
      ShortestGoesDown(e, d, o, w);
      assert p[i + 1] in p && p[i + 1] in w;
      var k := FirstIn(p, w);
      var l :| 0 <= l < |w| && w[l] == p[k];
      assert k <= i + 1;
      Stretch(e, d, o, p, k, t);
      SwitchGoesDown(e, d, o, p, k, w, l);
      assert k <= s;
      NoShortCut(e, d, o, p, k, i, w, l);
    }
  }

  lemma NoShortCut(e: Edges, d: Dist, o: NodeID, p: Path, k: nat, i: nat, w: Path, l: nat)
    requires World(e, d, o) && IsDetour(e, d, o, p) && k <= i < |p| - 1
    requires IsWay(e, w, o) && l < |w| && w[l] == p[k] && w[0] == p[i + 1]
    requires forall n :: 0 <= n < |w| ==> w[n] in d && d[w[n]] == |w| - n
    requires forall n :: 0 <= n < k ==> p[n] !in w
    ensures p[i] in d && p[i + 1] in d && d[p[i + 1]] > d[p[i]]
  {
    var f, h, n, g := Backwards(e, d, o, p, k + 1, i + 1, w, l, 0, k, i + 1);
    assert f == k by {
      assert w[h] in w;
    }
    assert w[h] == w[l];
    OnWay(e, d, p, o, i);
    OnWay(e, d, p, o, i + 1);
    var next := w[h - 1];
    if d[p[i + 1]] <= d[p[i]] {
      SlowStretch(e, d, o, p, k, i, g);
    }
  }

  lemma DetourHasShape(e: Edges, d: Dist, o: NodeID, p: Path) returns (s: nat, t: nat, fl: nat)
    requires World(e, d, o) && IsDetour(e, d, o, p)
    ensures HasShape(d, p, s, t, fl)
  {
    s := FirstRise(e, d, o, p);
    var last := LastRise(e, d, o, p, 0);
    assert s <= last by {
      assert d[p[s + 1]] >= d[p[s]];
    }
    forall i | s <= i < last ensures d[p[i + 1]] == d[p[i]] + 1 {
      MiddleRises(e, d, o, p, s, last, i);
    }
    RisesFrom(d, p, s, last);
    Stretch(e, d, o, p, last, last + 1);
    if d[p[last + 1]] == d[p[last]] {
      t, fl := last, 1;
    } else {
      t, fl := last + 1, 0;
    }
  }

  lemma {:induction false} RisesFrom(d: Dist, p: Path, s: nat, t: nat)
    requires s <= t < |p| && forall i :: 0 <= i < |p| ==> p[i] in d
    requires forall i :: s <= i < t ==> d[p[i + 1]] == d[p[i]] + 1
    ensures forall i :: s <= i <= t ==> d[p[i]] == d[p[s]] + (i - s)
    decreases t - s
  {
    if s < t {
      RisesFrom(d, p, s, t - 1);
      assert d[p[t - 1 + 1]] == d[p[t - 1]] + 1;
    }
  }

  // ---- Two detours over the same link ----

  /** Both take the link at these positions, with the same number of nodes to go. */
  ghost predicate Clash(p: Path, i: nat, q: Path, j: nat) {
    i + 1 < |p| && j + 1 < |q| && p[i] == q[j] && p[i + 1] == q[j + 1] && |p| - i == |q| - j
  }

  /** The first may go on like the second. */
  ghost predicate Fits(p: Path, i: nat, q: Path, j: nat)
    requires i <= |p| && j <= |q|
  {
    NoDup(p[..i] + q[j..])
  }

  lemma Meeting(e: Edges, o: NodeID, p: Path, i: nat, q: Path, j: nat) returns (y: nat, l: nat)
    requires IsWay(e, p, o) && IsWay(e, q, o) && Clash(p, i, q, j) && !Fits(p, i, q, j)
    ensures y < i && j + 2 <= l < |q| && p[y] == q[l]
    ensures forall k :: 0 <= k < y ==> p[k] !in q[j..]
  {
    var r := p[..i] + q[j..];
    var a, b :| 0 <= a < b < |r| && r[a] == r[b];
    assert a < i <= b && r[b] == q[j + (b - i)];
    assert p[a] in p && p[a] in q[j..];
    y := FirstIn(p, q[j..]);
    assert y <= a;
    l :| j <= l < |q| && q[l] == p[y];
  }

  /** Where one first meets the other's rest, both lead down from there. */
  lemma FirstMeeting(e: Edges, d: Dist, o: NodeID, p: Path, i: nat, q: Path, j: nat) returns (y: nat, l: nat)
    requires World(e, d, o) && IsDetour(e, d, o, p) && IsWay(e, q, o) && Clash(p, i, q, j) && !Fits(p, i, q, j)
    ensures y < i && j + 2 <= l < |q| && p[y] == q[l] && forall k :: 0 <= k < y ==> p[k] !in q[j..]
    ensures forall k :: 0 <= k <= y ==> p[k] in d && d[p[k]] == d[p[0]] - k
    ensures forall k :: l <= k < |q| ==> q[k] in d && d[q[k]] == |q| - k
  {
    y, l := Meeting(e, o, p, i, q, j);
    TailIsWay(e, q, o, j);
    assert q[j..][l - j] == q[l];
    SwitchGoesDown(e, d, o, p, y, q[j..], l - j);
    TailIsWay(e, q, o, l);
    ShortestGoesDown(e, d, o, q[l..]);
    forall k | l <= k < |q| ensures q[k] in d && d[q[k]] == |q| - k {
      assert q[l..][k - l] == q[k];
    }
  }

  /** When the link does not lead up and the rests are shortest ways, they are exchangeable. */
  lemma FitsAfterPeak(e: Edges, d: Dist, o: NodeID, p: Path, i: nat, q: Path, j: nat)
    requires World(e, d, o) && IsDetour(e, d, o, p) && IsWay(e, q, o) && Clash(p, i, q, j)
    requires p[i] in d && p[i + 1] in d && d[p[i + 1]] <= d[p[i]] && d[p[i + 1]] == |p| - (i + 1)
    ensures Fits(p, i, q, j)
  {
    if !Fits(p, i, q, j) {
      var y, l := Meeting(e, o, p, i, q, j);
      RestGoesDown(e, d, o, q, j + 1);
      RestGoesDown(e, d, o, p, i + 1);
      var f, h, n, g := Backwards(e, d, o, p, i + 1, i + 1, q, l, j + 1, y, i + 1);
      assert d[p[g]] == |p| - g;
      var next := q[h - 1];
      SlowStretch(e, d, o, p, f, i, i + 1);
    }
  }

  lemma RestGoesDown(e: Edges, d: Dist, o: NodeID, p: Path, i: nat)
    requires World(e, d, o) && IsWay(e, p, o) && i < |p| && p[i] in d && d[p[i]] == |p| - i
    ensures forall k :: i <= k < |p| ==> p[k] in d && d[p[k]] == |p| - k
  {
    TailIsWay(e, p, o, i);
    ShortestGoesDown(e, d, o, p[i..]);
    forall k | i <= k < |p| ensures p[k] in d && d[p[k]] == |p| - k {
      assert p[i..][k - i] == p[k];
    }
  }

  /** Before the valleys the rests are exchangeable too. */
  lemma FitsBeforeValley(e: Edges, d: Dist, o: NodeID, p: Path, i: nat, q: Path, j: nat)
    requires World(e, d, o) && IsDetour(e, d, o, p) && IsWay(e, q, o) && Clash(p, i, q, j)
    requires q[0] in d
    requires forall k :: 0 <= k <= i + 1 ==> p[k] in d && d[p[k]] == d[p[0]] - k
    requires forall k :: 0 <= k <= j + 1 ==> q[k] in d && d[q[k]] == d[q[0]] - k
    ensures Fits(q, j, p, i)
  {
    if !Fits(q, j, p, i) {
      var z, l := Meeting(e, o, q, j, p, i);
      var f, h, n, g := Backwards(e, d, o, p, i + 1, i + 1, q, j, z, i, l);
      var next := q[h - 1];
      Stretch(e, d, o, p, i + 1, g);
    }
  }

  // ---- Both on the way up ----

  /** A detour on its way up at position i, with its valley at s and its peak at t. */
  ghost predicate Rising(d: Dist, p: Path, i: nat, s: nat, t: nat, fl: nat) {
    HasShape(d, p, s, t, fl) && s <= i < t
  }

  /** The second meets the rest of the first, for the first time, at z. */
  ghost predicate MeetsDown(d: Dist, q: Path, j: nat, p: Path, i: nat, z: nat, l: nat) {
    && z < j < |q| && i + 2 <= l < |p| && q[z] == p[l] && q[0] in d && (forall k :: 0 <= k < z ==> q[k] !in p[i..])
    && (forall k :: 0 <= k <= z ==> q[k] in d && d[q[k]] == d[q[0]] - k)
    && (forall k :: l <= k < |p| ==> p[k] in d && d[p[k]] == |p| - k)
  }

  /** Both reach the same height in the same manner. */
  lemma SamePeak(d: Dist, p: Path, i: nat, s: nat, t: nat, fl: nat, q: Path, j: nat, s': nat, t': nat, fl': nat)
    requires Clash(p, i, q, j) && Rising(d, p, i, s, t, fl) && Rising(d, q, j, s', t', fl')
    ensures fl == fl' && d[p[t]] == d[q[t']] && t - i == t' - j
  {
    assert d[p[t + fl]] == |p| - (t + fl) && d[q[t' + fl']] == |q| - (t' + fl');
    assert d[p[t]] == d[p[i]] + (t - i) && d[q[t']] == d[q[j]] + (t' - j);
  }

  /** The arithmetic of it: from z back to position n of the first takes fewer steps than
      from z forward to the same node in the second. */
  lemma TopLength(d: Dist, p: Path, i: nat, s: nat, t: nat, fl: nat, q: Path, j: nat, s': nat, t': nat, fl': nat,
                  z: nat, l: nat, n: nat, g: nat)
    requires Clash(p, i, q, j) && Rising(d, p, i, s, t, fl) && Rising(d, q, j, s', t', fl')
    requires MeetsDown(d, q, j, p, i, z, l) && i + 1 <= n < l && j + 1 + g < |q| && p[n] == q[j + 1 + g]
    requires fl == fl' && d[p[t]] == d[q[t']] && t - i == t' - j && z <= s'
    requires d[p[i]] + d[q[z]] >= d[q[s']] + d[p[t]]
    ensures z + (l - n) < j + 1 + g
  {
    assert d[p[n]] == if n <= t then d[p[s]] + (n - s) else |p| - n;
    var m := j + 1 + g;
    assert d[q[m]] == if m <= t' then d[q[s']] + (m - s') else |q| - m;
    assert d[q[z]] == |p| - l == d[q[s']] + (s' - z);
    assert d[p[t + fl]] == |p| - (t + fl);
    assert d[p[i]] == d[q[s']] + (j - s');
  }

  /** The meeting point lies low: otherwise one could go back from it over the peak of the
      first and on with the rest of the second. */
  lemma MeetsLow(e: Edges, d: Dist, o: NodeID, p: Path, i: nat, s: nat, t: nat, fl: nat,
                 q: Path, j: nat, s': nat, t': nat, fl': nat, z: nat, l: nat)
    requires World(e, d, o) && IsWay(e, p, o) && IsDetour(e, d, o, q) && Clash(p, i, q, j)
    requires Rising(d, p, i, s, t, fl) && Rising(d, q, j, s', t', fl') && MeetsDown(d, q, j, p, i, z, l)
    ensures d[p[i]] + d[q[z]] < d[q[s']] + d[p[t]]
  {
    if d[p[i]] + d[q[z]] >= d[q[s']] + d[p[t]] {
      var n, g := TopGoesDown(e, d, o, p, i, s, t, fl, q, j, s', t', fl', z, l);
      FromThePeak(e, d, o, p, i, s, t, q, j, s', t', n, g);
    }
  }

  lemma TopGoesDown(e: Edges, d: Dist, o: NodeID, p: Path, i: nat, s: nat, t: nat, fl: nat,
                    q: Path, j: nat, s': nat, t': nat, fl': nat, z: nat, l: nat) returns (n: nat, g: nat)
    requires World(e, d, o) && IsWay(e, p, o) && IsDetour(e, d, o, q) && Clash(p, i, q, j)
    requires Rising(d, p, i, s, t, fl) && Rising(d, q, j, s', t', fl') && MeetsDown(d, q, j, p, i, z, l)
    requires d[p[i]] + d[q[z]] >= d[q[s']] + d[p[t]]
    ensures fl == 0 && fl' == 0 && i + 1 <= n < t && j + 1 <= g < |q| && p[n] == q[g] && d[q[g]] == |q| - g
  {
    n, g := OverTheTop(e, d, o, p, i, q, j, z, l);
    TopIsShorter(d, p, i, s, t, fl, q, j, s', t', fl', z, l, n, g);
    PeakBefore(d, p, i, s, t, fl, l);
  }

  lemma TopIsShorter(d: Dist, p: Path, i: nat, s: nat, t: nat, fl: nat, q: Path, j: nat, s': nat, t': nat, fl': nat,
                     z: nat, l: nat, n: nat, g: nat)
    requires Clash(p, i, q, j) && Rising(d, p, i, s, t, fl) && Rising(d, q, j, s', t', fl')
    requires MeetsDown(d, q, j, p, i, z, l) && i + 1 <= n < l && j + 1 <= g < |q| && p[n] == q[g]
    requires d[p[i]] + d[q[z]] >= d[q[s']] + d[p[t]]
    ensures fl == fl' && z + (l - n) < g
  {
    SamePeak(d, p, i, s, t, fl, q, j, s', t', fl');
    ValleyBelow(d, q, s', t', fl', z);
    TopLength(d, p, i, s, t, fl, q, j, s', t', fl', z, l, n, g - (j + 1));
  }

  lemma PeakBefore(d: Dist, p: Path, i: nat, s: nat, t: nat, fl: nat, l: nat)
    requires Rising(d, p, i, s, t, fl) && i + 2 <= l < |p| && d[p[l - 1]] == d[p[l]] - 1
    requires forall k :: l <= k < |p| ==> d[p[k]] == |p| - k
    ensures l == t && fl == 0
  {
    var (before, peak, after) := (d[p[l - 1]], d[p[t]], d[p[t + fl]]);
  }

  lemma ValleyBelow(d: Dist, q: Path, s: nat, t: nat, fl: nat, z: nat)
    requires HasShape(d, q, s, t, fl) && z < |q| && forall k :: 0 <= k <= z ==> d[q[k]] == d[q[0]] - k
    ensures z <= s
  {
    var next := q[s + 1];
  }

  lemma OverTheTop(e: Edges, d: Dist, o: NodeID, p: Path, i: nat, q: Path, j: nat, z: nat, l: nat)
      returns (n: nat, g: nat)
    requires World(e, d, o) && IsWay(e, p, o) && IsWay(e, q, o) && Clash(p, i, q, j) && MeetsDown(d, q, j, p, i, z, l)
    ensures i + 1 <= n < l && j + 1 <= g < |q| && p[n] == q[g]
    ensures IsDetour(e, d, o, q) && z + (l - n) < g ==>
              && p[l] in d && p[l - 1] in d && d[p[l - 1]] == d[p[l]] - 1
              && q[g] in d && d[q[g]] == |q| - g
  {
    var f, h;
    f, h, n, g := Backwards(e, d, o, q, z + 1, j + 1, p, l, i + 1, z, j + 1);
    assert p[i..][h - i] == p[h];
    assert f == z && h == l;
    var before := p[l - 1];
  }

  /** When the two meet at the peak of the first, the second can leave for the first on the
      way up and come back where it goes down. */
  lemma FromThePeak(e: Edges, d: Dist, o: NodeID, p: Path, i: nat, s: nat, t: nat, q: Path, j: nat, s': nat, t': nat,
                    n: nat, g: nat)
    requires World(e, d, o) && IsWay(e, p, o) && IsDetour(e, d, o, q) && Clash(p, i, q, j)
    requires Rising(d, p, i, s, t, 0) && Rising(d, q, j, s', t', 0)
    requires i + 1 <= n < t && j + 1 <= g < |q| && p[n] == q[g]
    ensures d[q[g]] < |q| - g
  {
    OnWay(e, d, q, o, g);
    if d[q[g]] == |q| - g {
      SamePeak(d, p, i, s, t, 0, q, j, s', t', 0);
      assert n > i + 1;
      assert g > j + 1;
      RestGoesDown(e, d, o, q, g);
      var f, l, h, k := Forwards(e, d, o, q, j + 2, g, p, i + 1, n, j + 1, g);
      Stretch(e, d, o, q, f, j + 1);
      RisesThere(d, p, i, s, t, l, h);
      LeaveOnTheWayUp(d, p, i, s, t, q, j, s', t', f, l, h, k);
    }
  }

  lemma RisesThere(d: Dist, p: Path, i: nat, s: nat, t: nat, l: nat, h: nat)
    requires Rising(d, p, i, s, t, 0) && i + 1 <= l < h < t
    ensures d[p[l + 1]] == d[p[l]] + 1 && d[p[h]] == d[p[l]] + (h - l) && d[p[h]] < d[p[t]]
  {
  }

  lemma LeaveOnTheWayUp(d: Dist, p: Path, i: nat, s: nat, t: nat, q: Path, j: nat, s': nat, t': nat,
                        f: nat, l: nat, h: nat, k: nat)
    requires Clash(p, i, q, j) && Rising(d, p, i, s, t, 0) && Rising(d, q, j, s', t', 0) && d[p[t]] == d[q[t']]
    requires f <= j + 1 < k < |q| && l < h < |p| && q[f] == p[l] && q[k] == p[h]
    requires d[q[k]] == |q| - k && d[p[h]] == d[p[l]] + (h - l) && d[p[h]] < d[p[t]]
    requires d[q[j + 1]] <= d[q[f]] + (j + 1 - f)
    ensures f + (h - l) < k
  {
    var (peak, link) := (d[q[t']], d[q[j + 1]]);
  }

  /** Back from the link along the second to the meeting point, and on with the first: the
      second has risen from its valley since it left the first, and there the first has not
      yet reached its own. */
  lemma LeavesEarly(e: Edges, d: Dist, o: NodeID, p: Path, i: nat, s: nat, t: nat, fl: nat,
                    q: Path, j: nat, s': nat, t': nat, fl': nat, z: nat, l: nat) returns (f: nat, h: nat)
    requires World(e, d, o) && IsDetour(e, d, o, p) && IsWay(e, q, o) && Clash(p, i, q, j)
    requires Rising(d, p, i, s, t, fl) && Rising(d, q, j, s', t', fl') && MeetsDown(d, q, j, p, i, z, l)
    requires d[p[i]] + d[q[z]] < d[q[s']] + d[p[t]]
    ensures f <= i && f <= s && s' < h <= j && p[f] == q[h] && forall n, x :: 0 <= n < f && h <= x <= j ==> p[n] != q[x]
  {
    var n, g;
    f, h, n, g := Backwards(e, d, o, p, i + 1, l, q, j, z, i, l);
    ValleyBelow(d, q, s', t', fl', z);
    Stretch(e, d, o, p, f, i);
    BackLength(d, p, i, s, t, fl, q, j, s', t', fl', z, l, f, h, n, g);
    ValleyBelow(d, p, s, t, fl, f);
    var (first, turn) := (d[q[h - 1]], if s' > 0 then d[q[s' - 1]] else 0);
  }

  lemma BackLength(d: Dist, p: Path, i: nat, s: nat, t: nat, fl: nat, q: Path, j: nat, s': nat, t': nat, fl': nat,
                   z: nat, l: nat, f: nat, h: nat, n: nat, g: nat)
    requires Clash(p, i, q, j) && Rising(d, p, i, s, t, fl) && Rising(d, q, j, s', t', fl')
    requires MeetsDown(d, q, j, p, i, z, l) && z <= s' && f <= i && z <= n < h <= j && l <= g < |p|
    requires p[f] == q[h] && p[g] == q[n] && d[p[i]] + d[q[z]] < d[q[s']] + d[p[t]]
    requires d[p[f]] <= d[p[i]] + (i - f) && d[p[i]] <= d[p[f]] + (i - f)
    ensures f + (h - n) < g
  {
    assert d[q[h]] == if h <= s' then d[q[0]] - h else d[q[s']] + (h - s');
    assert d[q[n]] == if n <= s' then d[q[0]] - n else d[q[s']] + (n - s');
    assert d[p[g]] == |p| - g && d[p[t + fl]] == |p| - (t + fl) && d[p[i]] == d[p[s]] + (i - s);
    assert d[q[j]] == d[q[s']] + (j - s') && d[q[z]] == d[q[0]] - z && d[q[s']] == d[q[0]] - s';
  }

  /** So the valley of the first lies on the way up of the second, and higher than its
      valley. */
  lemma ValleyIsHigher(e: Edges, d: Dist, o: NodeID, p: Path, i: nat, s: nat, t: nat, fl: nat,
                       q: Path, j: nat, s': nat, t': nat, fl': nat, z: nat, l: nat)
    requires World(e, d, o) && IsDetour(e, d, o, p) && IsWay(e, q, o) && Clash(p, i, q, j)
    requires Rising(d, p, i, s, t, fl) && Rising(d, q, j, s', t', fl') && MeetsDown(d, q, j, p, i, z, l)
    requires d[p[i]] + d[q[z]] < d[q[s']] + d[p[t]]
    ensures d[p[s]] > d[q[s']]
  {
    var f, h := LeavesEarly(e, d, o, p, i, s, t, fl, q, j, s', t', fl', z, l);
    if f < s {
      NoEarlierRise(e, d, o, p, i, s, t, fl, q, j, s', t', fl', f, h);
    }
    assert d[q[h]] == d[q[s']] + (h - s');
  }

  lemma NoEarlierRise(e: Edges, d: Dist, o: NodeID, p: Path, i: nat, s: nat, t: nat, fl: nat,
                      q: Path, j: nat, s': nat, t': nat, fl': nat, f: nat, h: nat)
    requires World(e, d, o) && IsDetour(e, d, o, p) && IsWay(e, q, o) && Clash(p, i, q, j)
    requires Rising(d, p, i, s, t, fl) && Rising(d, q, j, s', t', fl') && f <= s && s' < h <= j && p[f] == q[h]
    requires forall n, x :: 0 <= n < f && h <= x <= j ==> p[n] != q[x]
    ensures f >= s
  {
    if h < j {
      var n, k := RiseWithTheOther(e, d, o, p, f, i, q, h, j);
      StretchBelow(e, d, o, p, f, s, k);
      assert d[q[h + 1]] == d[q[h]] + 1 && d[q[n]] == d[q[h]] + (n - h);
    }
  }

  lemma StretchBelow(e: Edges, d: Dist, o: NodeID, p: Path, f: nat, s: nat, k: nat)
    requires World(e, d, o) && IsWay(e, p, o) && f <= s < k < |p|
    requires forall n :: 0 <= n <= s ==> p[n] in d && p[0] in d && d[p[n]] == d[p[0]] - n
    ensures p[f] in d && p[k] in d && (f < s ==> d[p[k]] < d[p[f]] + (k - f))
  {
    OnWay(e, d, p, o, k);
    if f < s {
      SlowStretch(e, d, o, p, f, f, k);
    }
  }

  lemma RiseWithTheOther(e: Edges, d: Dist, o: NodeID, p: Path, f: nat, i: nat, q: Path, h: nat, j: nat)
      returns (n: nat, k: nat)
    requires World(e, d, o) && IsDetour(e, d, o, p) && IsWay(e, q, o) && f < i < |p| && h < j < |q|
    requires p[f] == q[h] && p[i] == q[j] && forall n, x :: 0 <= n < f && h <= x <= j ==> p[n] != q[x]
    ensures h < n <= j && i <= k < |p| && p[k] == q[n]
    ensures f + (n - h) < k ==> q[h] in d && q[h + 1] in d && d[q[h + 1]] == d[q[h]] - 1
  {
    var b, l;
    b, l, n, k := Forwards(e, d, o, p, f + 1, i, q, h, j, f, i);
    assert b == f && l == h;
  }

  lemma RisingFits(e: Edges, d: Dist, o: NodeID, p: Path, i: nat, s: nat, t: nat, fl: nat,
                   q: Path, j: nat, s': nat, t': nat, fl': nat)
    requires World(e, d, o) && IsDetour(e, d, o, p) && IsDetour(e, d, o, q) && Clash(p, i, q, j)
    requires Rising(d, p, i, s, t, fl) && Rising(d, q, j, s', t', fl')
    ensures Fits(p, i, q, j) || Fits(q, j, p, i)
  {
    if !Fits(p, i, q, j) && !Fits(q, j, p, i) {
      var y, m := FirstMeeting(e, d, o, p, i, q, j);
      var z, l := FirstMeeting(e, d, o, q, j, p, i);
      MeetsLow(e, d, o, p, i, s, t, fl, q, j, s', t', fl', z, l);
      MeetsLow(e, d, o, q, j, s', t', fl', p, i, s, t, fl, y, m);
      SamePeak(d, p, i, s, t, fl, q, j, s', t', fl');
      ValleyIsHigher(e, d, o, p, i, s, t, fl, q, j, s', t', fl', z, l);
      ValleyIsHigher(e, d, o, q, j, s', t', fl', p, i, s, t, fl, y, m);
    }
  }

  /** Of two detours over the same link with the same number of nodes to go, one can go on
      like the other. */
  lemma OneFits(e: Edges, d: Dist, o: NodeID, p: Path, i: nat, q: Path, j: nat)
    requires World(e, d, o) && IsDetour(e, d, o, p) && IsDetour(e, d, o, q) && Clash(p, i, q, j)
    ensures Fits(p, i, q, j) || Fits(q, j, p, i)
  {
    var s, t, fl := DetourHasShape(e, d, o, p);
    var s', t', fl' := DetourHasShape(e, d, o, q);
    if s <= i < t {
      UpLink(d, p, i, s, t, fl, q, j, s', t', fl');
      RisingFits(e, d, o, p, i, s, t, fl, q, j, s', t', fl');
    } else if i < s {
      DownLink(d, p, i, s, t, fl, q, j, s', t', fl');
      if i + 1 <= s && j + 1 <= s' {
        FitsBeforeValley(e, d, o, p, i, q, j);
      } else {
        FitsAfterPeak(e, d, o, p, i, q, j);
      }
    } else {
      FitsAfterPeak(e, d, o, p, i, q, j);
    }
  }

  lemma UpLink(d: Dist, p: Path, i: nat, s: nat, t: nat, fl: nat, q: Path, j: nat, s': nat, t': nat, fl': nat)
    requires Clash(p, i, q, j) && HasShape(d, p, s, t, fl) && HasShape(d, q, s', t', fl') && s <= i < t
    ensures s' <= j < t'
  {
    var (a, b) := (d[p[i + 1]], d[q[j + 1]]);
  }

  lemma DownLink(d: Dist, p: Path, i: nat, s: nat, t: nat, fl: nat, q: Path, j: nat, s': nat, t': nat, fl': nat)
    requires Clash(p, i, q, j) && HasShape(d, p, s, t, fl) && HasShape(d, q, s', t', fl') && i < s
    ensures j < s'
  {
    var (a, b) := (d[p[i + 1]], d[q[j + 1]]);
    assert d[p[s]] == d[p[0]] - s && d[p[t]] == d[p[s]] + (t - s) && d[p[t + fl]] == |p| - (t + fl);
  }
}
