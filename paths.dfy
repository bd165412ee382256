/** The specification side of the shortest-path engine: walks over a set of
    directed switch-to-switch edges, reachability, simple and shortest walks,
    and what a single-pair search must return. Costs are hop counts: every
    edge costs one. */
module Paths {
  import opened Results

  /** A switch identifier (OpenFlow datapath id). */
  type Dpid = int

  /** A directed link `(src_dpid, dst_dpid)`. */
  type Edge = (Dpid, Dpid)

  /** Every consecutive pair of `w` is an edge of `E`. */
  ghost predicate IsWalk(E: set<Edge>, w: seq<Dpid>)
  {
    forall i :: 0 <= i < |w| - 1 ==> (w[i], w[i + 1]) in E
  }

  /** `w` is a walk over `E` that starts at `s` and ends at `t`. */
  ghost predicate WalkFromTo(E: set<Edge>, w: seq<Dpid>, s: Dpid, t: Dpid)
  {
    |w| > 0 && w[0] == s && w[|w| - 1] == t && IsWalk(E, w)
  }

  ghost predicate Reachable(E: set<Edge>, s: Dpid, t: Dpid)
  {
    exists w :: WalkFromTo(E, w, s, t)
  }

  /** No switch occurs twice. */
  predicate Simple(w: seq<Dpid>)
  {
    forall i, j :: 0 <= i < j < |w| ==> w[i] != w[j]
  }

  /** Every walk from `s` to `t` has at least `hops` edges. */
  ghost predicate NoShorterWalk(E: set<Edge>, s: Dpid, t: Dpid, hops: nat)
  {
    forall w :: WalkFromTo(E, w, s, t) ==> hops < |w|
  }

  /** `p` is a walk from `s` to `t` with the fewest hops. */
  ghost predicate Shortest(E: set<Edge>, p: seq<Dpid>, s: Dpid, t: Dpid)
  {
    WalkFromTo(E, p, s, t) && NoShorterWalk(E, s, t, |p| - 1)
  }

  /** What a hop-count shortest-path search from `s` to `t` may answer: no
      path exactly when `t` is unreachable from `s`, and otherwise a simple
      walk from `s` to `t` with the minimum number of hops. */
  ghost predicate SpfResult(E: set<Edge>, s: Dpid, t: Dpid, r: Option<seq<Dpid>>)
  {
    match r
    case None => !Reachable(E, s, t)
    case Some(p) => Shortest(E, p, s, t) && Simple(p)
  }

  /** The switches that some edge leads to. */
  ghost function Targets(E: set<Edge>): (ts: set<Dpid>)
    ensures forall a, b :: (a, b) in E ==> b in ts
  {
    set e | e in E :: e.1
  }

  /** The switches that some edge leaves. */
  ghost function Sources(E: set<Edge>): (ss: set<Dpid>)
    ensures forall a, b :: (a, b) in E ==> a in ss
  {
    set e | e in E :: e.0
  }

  /** Some member of a non-empty set. */
  lemma Pick<T>(s: set<T>) returns (x: T)
    requires s != {}
    ensures x in s
  {
    x :| x in s;
  }

  lemma WalkExtend(E: set<Edge>, w: seq<Dpid>, b: Dpid)
    requires |w| > 0 && IsWalk(E, w) && (w[|w| - 1], b) in E
    ensures IsWalk(E, w + [b])
  {
    forall i | 0 <= i < |w + [b]| - 1 ensures ((w + [b])[i], (w + [b])[i + 1]) in E {
      if i < |w| - 1 {
        assert (w + [b])[i] == w[i] && (w + [b])[i + 1] == w[i + 1];
      }
    }
  }

  lemma WalkPrefix(E: set<Edge>, w: seq<Dpid>, k: nat)
    requires 0 < k <= |w| && IsWalk(E, w)
    ensures IsWalk(E, w[..k])
  {
    forall i | 0 <= i < k - 1 ensures (w[..k][i], w[..k][i + 1]) in E {
      assert w[..k][i] == w[i] && w[..k][i + 1] == w[i + 1];
    }
  }

  /** Cutting the cycle between two occurrences of the same switch leaves a
      walk with the same ends. */
  lemma Splice(E: set<Edge>, p: seq<Dpid>, i: nat, j: nat)
    requires i < j < |p| && p[i] == p[j] && IsWalk(E, p)
    ensures |p[..i] + p[j..]| == |p| - (j - i)
    ensures (p[..i] + p[j..])[0] == p[0]
    ensures (p[..i] + p[j..])[|p| - (j - i) - 1] == p[|p| - 1]
    ensures IsWalk(E, p[..i] + p[j..])
  {
    var q := p[..i] + p[j..];
    forall k | 0 <= k < |q| - 1 ensures (q[k], q[k + 1]) in E {
      if k + 1 < i {
        assert q[k] == p[k] && q[k + 1] == p[k + 1];
      } else if k + 1 == i {
        assert q[k] == p[k] && q[k + 1] == p[j] == p[k + 1];
      } else {
        assert q[k] == p[k - i + j] && q[k + 1] == p[k + 1 - i + j];
      }
    }
    if i == 0 {
      assert q[0] == p[j];
    }
  }

  /** A walk with the fewest hops never repeats a switch. */
  lemma ShortestIsSimple(E: set<Edge>, p: seq<Dpid>, s: Dpid, t: Dpid)
    requires Shortest(E, p, s, t)
    ensures Simple(p)
  {
    forall i, j | 0 <= i < j < |p| ensures p[i] != p[j] {
      if p[i] == p[j] {
        Splice(E, p, i, j);
        assert WalkFromTo(E, p[..i] + p[j..], s, t);
        assert false;
      }
    }
  }

  /** A walk that starts inside `S` and ends outside it leaves `S` at some
      step `k`: `w[k - 1]` is in `S` and `w[k]` is not. */
  lemma FirstExit(S: set<Dpid>, w: seq<Dpid>) returns (k: nat)
    requires |w| > 0 && w[0] in S && w[|w| - 1] !in S
    ensures 0 < k < |w| && w[k - 1] in S && w[k] !in S
  {
    k := 1;
    while w[k] in S
      invariant 0 < k < |w| && w[k - 1] in S
      decreases |w| - k
    {
      k := k + 1;
    }
  }

  lemma WalkFirstEdge(E: set<Edge>, w: seq<Dpid>)
    requires 1 < |w| && IsWalk(E, w)
    ensures (w[0], w[1]) in E
  {
  }

  /** Without edges, a walk never leaves its first switch. */
  lemma NoWalkWithoutEdges(E: set<Edge>, w: seq<Dpid>, s: Dpid, t: Dpid)
    requires E == {} && WalkFromTo(E, w, s, t)
    ensures s == t
  {
    if 1 < |w| {
      WalkFirstEdge(E, w);
      assert false;
    }
  }

  /** On the line `a - b - c` (links in both directions, no others), every
      answer a search may give from `a` to `c` is the path through `b`. */
  lemma LineTopologyPath(a: Dpid, b: Dpid, c: Dpid, r: Option<seq<Dpid>>)
    requires a != b && b != c && a != c
    requires SpfResult({(a, b), (b, a), (b, c), (c, b)}, a, c, r)
    ensures r == Some([a, b, c])
  {
    var E := {(a, b), (b, a), (b, c), (c, b)};
    assert WalkFromTo(E, [a, b, c], a, c);
    match r
    case None =>
      assert false;
    case Some(p) =>
      assert |p| <= 3;
      assert (p[0], p[1]) in E;
      if |p| == 2 {
        assert false;
      }
      assert p == [a, b, c];
  }

  /** Once every link that touches `b` is removed from the line `a - b - c`,
      no search from `a` to `c` may return a path. */
  lemma LineTopologyWithoutMiddle(a: Dpid, b: Dpid, c: Dpid, r: Option<seq<Dpid>>)
    requires a != c
    requires SpfResult((set e | e in {(a, b), (b, a), (b, c), (c, b)} && e.0 != b && e.1 != b), a, c, r)
    ensures r == None
  {
    var E := set e | e in {(a, b), (b, a), (b, c), (c, b)} && e.0 != b && e.1 != b;
    assert E == {};
    match r
    case None =>
    case Some(p) =>
      NoWalkWithoutEdges(E, p, a, c);
      assert false;
  }
}
