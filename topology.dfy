/** The network state of the fabric controller: the topology graph with its
    hop-count shortest-path engine, and the endpoint lookup tables.

    Known defects of the Python code, and how this model treats them:
    - `run_spf` binds `self.paths` to the class `defaultdict` instead of an
      instance, so its first item assignment raises `TypeError`. The model
      fills a fresh map (`TopologyGraph.RunSpf`); the code as written is
      `RunSpfAsWritten`.
    - `path_to_port` reads its graph argument as nested maps `G[src][dst]`,
      while the topology graph itself stores tuple keys `(src, dst)`. The
      model takes `G` as the nested map `path_to_port` reads (`Nest` turns
      the tuple-keyed map into one) and requires every hop it reads to be
      present.
    - The endpoint tables are `defaultdict()` without a default factory, so a
      missing key raises `KeyError`, although the docstring of `mac_of_ip`
      promises `None`. The lookups return `Failure(KeyError)` on a miss. */
module Topology {
  import opened Results
  import opened Paths

  type PortNo = int
  type Ip = string
  type Mac = string

  /** `(dpid, port_no)`: where an endpoint was seen. */
  type Location = (Dpid, PortNo)

  /** `(dpid, out_port)`: one hop of a forwarding path. */
  type Hop = (Dpid, PortNo)

  /** An entry of the search queue: the number of hops so far, the switch to
      visit, and the switches visited on the way to it. */
  datatype Entry = Entry(cost: nat, node: Dpid, path: seq<Dpid>)

  /** `heapq.heappop` over a queue used as a bag: removes one entry of
      least cost. Which of several entries of equal cost is removed is left
      open (see README). */
  method PopMin(queue: seq<Entry>) returns (e: Entry, rest: seq<Entry>)
    requires queue != []
    ensures Popped(queue, e, rest)
    ensures multiset(rest) + multiset{e} == multiset(queue)
    ensures |rest| == |queue| - 1
  {
    var m := 0;
    var i := 1;
    while i < |queue|
      invariant 0 <= m < i <= |queue|
      invariant forall k :: 0 <= k < i ==> queue[m].cost <= queue[k].cost
    {
      if queue[i].cost < queue[m].cost {
        m := i;
      }
      i := i + 1;
    }
    e := queue[m];
    rest := queue[..m] + queue[m + 1..];
    RemoveAt(queue, m);
  }

  /** Removing the entry at position `m` keeps every other entry, with its
      multiplicity, and nothing else. */
  lemma RemoveAt(queue: seq<Entry>, m: nat)
    requires m < |queue|
    ensures multiset(queue[..m] + queue[m + 1..]) + multiset{queue[m]} == multiset(queue)
    ensures forall x :: x in queue[..m] + queue[m + 1..] ==> x in queue
    ensures forall x :: x in queue && x != queue[m] ==> x in queue[..m] + queue[m + 1..]
  {
    assert queue == queue[..m] + [queue[m]] + queue[m + 1..];
  }

  /** `e` is an entry of least cost in `queue`, and `rest` holds the other
      entries of `queue` and nothing else. */
  ghost predicate Popped(queue: seq<Entry>, e: Entry, rest: seq<Entry>)
  {
    && e in queue
    && (forall x :: x in queue ==> e.cost <= x.cost)
    && (forall x :: x in rest ==> x in queue)
    && (forall x :: x in queue && x != e ==> x in rest)
  }

  /** The adjacency lists the search builds from the edge set: `b` is listed
      under `a` exactly when `(a, b)` is an edge, and no list repeats a
      switch. */
  method Adjacency(E: set<Edge>) returns (graph: map<Dpid, seq<Dpid>>)
    ensures forall a, b :: (a, b) in E <==> a in graph && b in graph[a]
    ensures forall a :: a in graph ==> Simple(graph[a])
  {
    graph := map[];
    var todo := E;
    while todo != {}
      invariant todo <= E
      invariant forall a, b :: (a, b) in E - todo <==> a in graph && b in graph[a]
      invariant forall a :: a in graph ==> Simple(graph[a])
      decreases |todo|
    {
      ghost var some := Pick(todo);  // a witness that the choice below exists
      var ab :| ab in todo;
      var (a, b) := ab;
      var succ := if a in graph then graph[a] else [];
      graph := graph[a := succ + [b]];
      todo := todo - {ab};
    }
  }

  /** `hops` is a lower bound on the walks from `src` to every switch that
      has a level. */
  ghost predicate LevelsMinimal(E: set<Edge>, src: Dpid, level: map<Dpid, nat>)
  {
    forall v :: v in level ==> NoShorterWalk(E, src, v, level[v])
  }

  /** Some entry for `b` costing at most `c` is queued. */
  ghost predicate Queued(queue: seq<Entry>, b: Dpid, c: nat)
  {
    exists x :: x in queue && x.node == b && x.cost <= c
  }

  /** Every edge from a visited switch to an unvisited one has its target
      queued at most one hop beyond the level of its source. */
  ghost predicate Frontier(E: set<Edge>, level: map<Dpid, nat>, queue: seq<Entry>)
  {
    forall a, b :: (a, b) in E && a in level && b !in level ==> Queued(queue, b, level[a] + 1)
  }

  /** A queued entry carries a simple walk from `src` through visited
      switches, one step short of its node. */
  ghost predicate EntryOk(E: set<Edge>, src: Dpid, seen: set<Dpid>, x: Entry)
  {
    && |x.path| == x.cost
    && WalkFromTo(E, x.path + [x.node], src, x.node)
    && Simple(x.path)
    && (forall v :: v in x.path ==> v in seen)
  }

  /** A walk from a visited `src` to an unvisited switch passes through the
      frontier, so some queued entry costs fewer hops than the walk has
      switches. */
  lemma FrontierEntry(E: set<Edge>, src: Dpid, level: map<Dpid, nat>, queue: seq<Entry>,
                      w: seq<Dpid>, v: Dpid) returns (x: Entry)
    requires src in level && v !in level
    requires WalkFromTo(E, w, src, v)
    requires LevelsMinimal(E, src, level) && Frontier(E, level, queue)
    ensures x in queue && x.cost < |w|
  {
    var k := FirstExit(level.Keys, w);
    WalkPrefix(E, w, k);
    assert WalkFromTo(E, w[..k], src, w[k - 1]);
    assert level[w[k - 1]] < k;
    assert (w[k - 1], w[k]) in E && w[k - 1] in level && w[k] !in level;
    assert Queued(queue, w[k], level[w[k - 1]] + 1);
    x :| x in queue && x.node == w[k] && x.cost <= level[w[k - 1]] + 1;
  }

  /** The entries the inner loop of the search pushes: `Entry(cost, b, path)`
      for each `b` of `succ` outside `seen`, one per position, in order. */
  function Fresh(succ: seq<Dpid>, seen: set<Dpid>, cost: nat, path: seq<Dpid>): (fs: seq<Entry>)
    ensures |fs| <= |succ|
    ensures forall y :: y in fs ==> y.node in succ && y.node !in seen && y == Entry(cost, y.node, path)
    ensures forall k :: 0 <= k < |succ| && succ[k] !in seen ==> Entry(cost, succ[k], path) in fs
  {
    if succ == [] then []
    else
      var b := succ[|succ| - 1];
      var fs := Fresh(succ[..|succ| - 1], seen, cost, path);
      assert forall k :: 0 <= k < |succ| - 1 ==> succ[..|succ| - 1][k] == succ[k];
      if b !in seen then fs + [Entry(cost, b, path)] else fs
  }

  /** Nothing is pushed exactly when every successor is already seen. */
  lemma FreshEmpty(succ: seq<Dpid>, seen: set<Dpid>, cost: nat, path: seq<Dpid>)
    ensures Fresh(succ, seen, cost, path) == [] <==> forall k :: 0 <= k < |succ| ==> succ[k] in seen
  {
    var fs := Fresh(succ, seen, cost, path);
    if fs != [] {
      assert fs[0].node in succ && fs[0].node !in seen;
    }
  }

  /** `q` is `queue` followed by `Entry(cost, b, path)` for each `b` of
      `succ` outside `seen`, seen as a set of new entries. */
  ghost predicate Pushed(queue: seq<Entry>, succ: seq<Dpid>, seen: set<Dpid>, cost: nat, path: seq<Dpid>,
                         q: seq<Entry>)
  {
    && |queue| <= |q| && q[..|queue|] == queue
    && (forall y :: y in q ==> y in queue || (y.node in succ && y.node !in seen && y == Entry(cost, y.node, path)))
    && (forall k :: 0 <= k < |succ| && succ[k] !in seen ==> Entry(cost, succ[k], path) in q)
  }

  /** Appending the fresh entries to `queue` is a push of the successors. */
  lemma FreshPushed(queue: seq<Entry>, succ: seq<Dpid>, seen: set<Dpid>, cost: nat, path: seq<Dpid>)
    ensures Pushed(queue, succ, seen, cost, path, queue + Fresh(succ, seen, cost, path))
  {
    var q := queue + Fresh(succ, seen, cost, path);
    assert q[..|queue|] == queue;
  }

  /** The inner loop of the search: `heappush(queue, (cost, b, path))` for
      every successor `b` not yet seen, in order. */
  method PushSuccessors(queue: seq<Entry>, succ: seq<Dpid>, seen: set<Dpid>, cost: nat, path: seq<Dpid>)
    returns (q: seq<Entry>)
    ensures q == queue + Fresh(succ, seen, cost, path)
  {
    q := queue;
    var j := 0;
    while j < |succ|
      invariant 0 <= j <= |succ|
      invariant q == queue + Fresh(succ[..j], seen, cost, path)
    {
      var b := succ[j];
      assert succ[..j + 1][..j] == succ[..j];
      if b !in seen {
        q := q + [Entry(cost, b, path)];
      }
      j := j + 1;
    }
    assert succ[..j] == succ;
  }

  /** Visiting one more switch shrinks the set of unvisited ones. */
  lemma VisitShrinksUnseen(nodes: set<Dpid>, seen: set<Dpid>, a: Dpid)
    requires a in nodes && a !in seen
    ensures |nodes - (seen + {a})| < |nodes - seen|
  {
    assert nodes - (seen + {a}) == (nodes - seen) - {a};
  }

  /** The loop invariant of the search, over the switch universe `nodes`,
      the levels of the visited switches and the queue. */
  ghost predicate SearchInv(E: set<Edge>, src: Dpid, dst: Dpid, nodes: set<Dpid>,
                            level: map<Dpid, nat>, queue: seq<Entry>)
  {
    && level.Keys <= nodes
    && dst !in level
    && (forall x :: x in queue ==> x.node in nodes && EntryOk(E, src, level.Keys, x))
    && (src in level || (level == map[] && queue == [Entry(0, src, [])]))
    && LevelsMinimal(E, src, level)
    && Frontier(E, level, queue)
  }

  lemma InitialSearch(E: set<Edge>, src: Dpid, dst: Dpid, nodes: set<Dpid>)
    requires src in nodes
    ensures SearchInv(E, src, dst, nodes, map[], [Entry(0, src, [])])
  {
    assert WalkFromTo(E, [] + [src], src, src);
  }

  /** The first time a switch is popped, its cost is its hop distance. */
  lemma MinimalOnPop(E: set<Edge>, src: Dpid, dst: Dpid, nodes: set<Dpid>,
                     level: map<Dpid, nat>, queue: seq<Entry>, x: Entry)
    requires SearchInv(E, src, dst, nodes, level, queue)
    requires x in queue && (forall y :: y in queue ==> x.cost <= y.cost)
    requires x.node !in level
    ensures NoShorterWalk(E, src, x.node, x.cost)
  {
    forall w | WalkFromTo(E, w, src, x.node) ensures x.cost < |w| {
      if src in level {
        var y := FrontierEntry(E, src, level, queue, w, x.node);
      }
    }
  }

  /** The walk carried by the first popped entry for a switch is a correct
      answer for that switch. */
  lemma FoundPath(E: set<Edge>, src: Dpid, dst: Dpid, nodes: set<Dpid>,
                  level: map<Dpid, nat>, queue: seq<Entry>, x: Entry)
    requires SearchInv(E, src, dst, nodes, level, queue)
    requires x in queue && x.node !in level
    requires NoShorterWalk(E, src, x.node, x.cost)
    ensures SpfResult(E, src, x.node, Some(x.path + [x.node]))
    ensures src == x.node ==> x.path + [x.node] == [src]
  {
    ShortestIsSimple(E, x.path + [x.node], src, x.node);
    if src == x.node {
      assert x == Entry(0, src, []);
    }
  }

  /** Popping an entry whose switch was already visited keeps the invariant. */
  lemma SkipPreserves(E: set<Edge>, src: Dpid, dst: Dpid, nodes: set<Dpid>,
                      level: map<Dpid, nat>, q0: seq<Entry>, x: Entry, rest: seq<Entry>)
    requires SearchInv(E, src, dst, nodes, level, q0)
    requires Popped(q0, x, rest) && x.node in level
    ensures SearchInv(E, src, dst, nodes, level, rest)
  {
    forall a, b | (a, b) in E && a in level && b !in level
      ensures Queued(rest, b, level[a] + 1)
    {
      var y :| y in q0 && y.node == b && y.cost <= level[a] + 1;
      assert y in rest;
    }
  }

  /** With the queue exhausted, no walk leads from `src` to `dst`. */
  lemma ExhaustedUnreachable(E: set<Edge>, src: Dpid, dst: Dpid, nodes: set<Dpid>, level: map<Dpid, nat>)
    requires SearchInv(E, src, dst, nodes, level, [])
    ensures !Reachable(E, src, dst)
  {
    if Reachable(E, src, dst) {
      var w :| WalkFromTo(E, w, src, dst);
      var y := FrontierEntry(E, src, level, [], w, dst);
      assert false;
    }
  }

  /** Popping `x` from `q0`, visiting its switch and queueing its unvisited
      successors keeps the invariant. */
  lemma VisitPreserves(E: set<Edge>, src: Dpid, dst: Dpid, nodes: set<Dpid>, level: map<Dpid, nat>,
                       q0: seq<Entry>, x: Entry, rest: seq<Entry>, succ: seq<Dpid>, q: seq<Entry>)
    requires Targets(E) <= nodes
    requires SearchInv(E, src, dst, nodes, level, q0)
    requires Popped(q0, x, rest) && x.node !in level && x.node != dst
    requires forall b :: b in succ <==> (x.node, b) in E
    requires Pushed(rest, succ, level.Keys + {x.node}, x.cost + 1, x.path + [x.node], q)
    ensures SearchInv(E, src, dst, nodes, level[x.node := x.cost], q)
  {
    MinimalOnPop(E, src, dst, nodes, level, q0, x);
    var a := x.node;
    var level' := level[a := x.cost];
    var path := x.path + [a];
    assert level'.Keys == level.Keys + {a};
    assert a !in x.path;
    assert Simple(path);
    forall y | y in q ensures y.node in nodes && EntryOk(E, src, level'.Keys, y) {
      if y !in rest {
        WalkExtend(E, path, y.node);
      }
    }
    forall y | y in rest ensures y in q {
      var i :| 0 <= i < |rest| && rest[i] == y;
      assert q[..|rest|][i] == y;
    }
    forall a', b | (a', b) in E && a' in level' && b !in level'
      ensures Queued(q, b, level'[a'] + 1)
    {
      if a' == a {
        assert b in succ;
        var k :| 0 <= k < |succ| && succ[k] == b;
        assert Entry(x.cost + 1, b, path) in q;
      } else {
        assert Queued(q0, b, level[a'] + 1);
        var y :| y in q0 && y.node == b && y.cost <= level[a'] + 1;
        assert y in rest;
      }
    }
    assert src in level';
  }

  /** One turn of the search loop: pop an entry of least cost; on the first
      pop of a switch, answer if it is `dst` and expand it otherwise. Either
      the answer is found, or the invariant holds again and the pair
      (unvisited switches, queue length) has decreased. */
  method SearchStep(ghost E: set<Edge>, graph: map<Dpid, seq<Dpid>>, src: Dpid, dst: Dpid,
                    ghost nodes: set<Dpid>, queue: seq<Entry>, seen: set<Dpid>, ghost level: map<Dpid, nat>)
    returns (found: Option<seq<Dpid>>, queue': seq<Entry>, seen': set<Dpid>, ghost level': map<Dpid, nat>)
    requires forall a, b :: (a, b) in E <==> a in graph && b in graph[a]
    requires seen == level.Keys && Targets(E) <= nodes
    requires queue != [] && SearchInv(E, src, dst, nodes, level, queue)
    ensures found.Some? ==> SpfResult(E, src, dst, found)
    ensures src == dst ==> found == Some([src])
    ensures found.None? ==> seen' == level'.Keys && SearchInv(E, src, dst, nodes, level', queue')
    ensures found.None? ==>
              |nodes - seen'| < |nodes - seen| || (seen' == seen && |queue'| < |queue|)
  {
    var x, rest := PopMin(queue);
    if x.node in seen {
      found, queue', seen', level' := None, rest, seen, level;
      SkipPreserves(E, src, dst, nodes, level, queue, x, rest);
    } else if x.node == dst {
      MinimalOnPop(E, src, dst, nodes, level, queue, x);
      FoundPath(E, src, dst, nodes, level, queue, x);
      found, queue', seen', level' := Some(x.path + [x.node]), rest, seen + {x.node}, level[x.node := x.cost];
    } else {
      found := None;
      var succ := if x.node in graph then graph[x.node] else [];
      queue', seen', level' := Expand(E, succ, src, dst, nodes, queue, x, rest, seen, level);
    }
  }

  /** The first pop of a switch other than `dst`: extend the entry's walk by
      it and queue its unvisited successors one hop further. */
  method Expand(ghost E: set<Edge>, succ: seq<Dpid>, src: Dpid, dst: Dpid,
                ghost nodes: set<Dpid>, ghost q0: seq<Entry>, x: Entry, rest: seq<Entry>,
                seen: set<Dpid>, ghost level: map<Dpid, nat>)
    returns (queue': seq<Entry>, seen': set<Dpid>, ghost level': map<Dpid, nat>)
    requires forall b :: b in succ <==> (x.node, b) in E
    requires seen == level.Keys && Targets(E) <= nodes
    requires SearchInv(E, src, dst, nodes, level, q0)
    requires Popped(q0, x, rest) && x.node !in seen && x.node != dst
    ensures seen' == seen + {x.node} && level' == level[x.node := x.cost]
    ensures queue' == rest + Fresh(succ, seen', x.cost + 1, x.path + [x.node])
    ensures seen' == level'.Keys && SearchInv(E, src, dst, nodes, level', queue')
    ensures |nodes - seen'| < |nodes - seen|
  {
    var a := x.node;
    VisitShrinksUnseen(nodes, seen, a);
    seen' := seen + {a};
    level' := level[a := x.cost];
    queue' := PushSuccessors(rest, succ, seen', x.cost + 1, x.path + [a]);
    FreshPushed(rest, succ, seen', x.cost + 1, x.path + [a]);
    VisitPreserves(E, src, dst, nodes, level, q0, x, rest, succ, queue');
  }

  /** The tuple-keyed link map `(a, b) => port` as the nested map
      `a => b => port` that `path_to_port` reads. */
  ghost function Nest(links: map<Edge, PortNo>): (G: map<Dpid, map<Dpid, PortNo>>)
    ensures forall a, b :: (a, b) in links <==> a in G && b in G[a]
    ensures forall a, b :: (a, b) in links ==> G[a][b] == links[(a, b)]
  {
    map a | a in Sources(links.Keys) ::
      map b | b in Targets(links.Keys) && (a, b) in links :: links[(a, b)]
  }

  /** Python's `s[k]` for `-n <= k < n`: negative indices count from the end. */
  function PyIndex(n: nat, k: int): (i: nat)
    requires -(n as int) <= k < n
    ensures i < n && (if k < 0 then i == n + k else i == k)
  {
    if k < 0 then n + k else k
  }

  /** The hop `path[k] -> path[k + 1]` can be read from `G`. */
  ghost predicate HopKnown(path: seq<Dpid>, G: map<Dpid, map<Dpid, PortNo>>, k: int)
    requires -|path| <= k < |path| - 1
  {
    path[PyIndex(|path|, k)] in G && path[PyIndex(|path|, k + 1)] in G[path[PyIndex(|path|, k)]]
  }

  /** Every hop that `path_to_port(path, G, count)` reads is an index of
      `path` and a key of `G`. */
  ghost predicate HopsDefined(path: seq<Dpid>, G: map<Dpid, map<Dpid, PortNo>>, count: int)
  {
    && (count < |path| - 1 ==> -|path| <= count)
    && forall k :: count <= k < |path| - 1 ==> HopKnown(path, G, k)
  }

  /** The hop `(path[k], G[path[k]][path[k + 1]])`. */
  function HopAt(path: seq<Dpid>, G: map<Dpid, map<Dpid, PortNo>>, k: int): Hop
    requires -|path| <= k < |path| - 1 && HopKnown(path, G, k)
  {
    var src, dst := path[PyIndex(|path|, k)], path[PyIndex(|path|, k + 1)];
    (src, G[src][dst])
  }

  /** Read along a walk of the topology, the nested map yields, for each
      switch of the walk, the out-port of the link to the next switch. */
  lemma HopsFollowLinks(links: map<Edge, PortNo>, path: seq<Dpid>)
    requires IsWalk(links.Keys, path)
    ensures HopsDefined(path, Nest(links), 0)
    ensures forall i :: 0 <= i < |path| - 1 ==>
              HopAt(path, Nest(links), i) == (path[i], links[(path[i], path[i + 1])])
  {
    var G := Nest(links);
    forall k | 0 <= k < |path| - 1 ensures HopKnown(path, G, k) {
      assert (path[k], path[k + 1]) in links;
    }
  }

  /** The ordered pairs of distinct switches. */
  function SwitchPairs(switches: set<Dpid>): (pairs: set<Edge>)
    ensures forall a, b :: (a, b) in pairs <==> a in switches && b in switches && a != b
  {
    set a, b | a in switches && b in switches && a != b :: (a, b)
  }

  /** There is a pair of distinct switches exactly when there are two
      switches or more. */
  lemma SwitchPairsNonEmpty(switches: set<Dpid>)
    ensures SwitchPairs(switches) != {} <==> |switches| >= 2
  {
    if |switches| >= 2 {
      var a := Pick(switches);
      assert |switches - {a}| == |switches| - 1;
      var b := Pick(switches - {a});
      assert (a, b) in SwitchPairs(switches);
    }
    if SwitchPairs(switches) != {} {
      var ab := Pick(SwitchPairs(switches));
      assert ab.1 in switches - {ab.0};
      assert |switches - {ab.0}| == |switches| - 1;
    }
  }

  /** `run_spf` as written: `self.paths` is bound to the class `defaultdict`,
      so the first `self.paths[src, dst] = ...` raises `TypeError`; with fewer
      than two switches the loop body never runs and the call returns. */
  function RunSpfAsWritten(switches: set<Dpid>): (r: Outcome)
    ensures r == Fail(TypeError) <==> |switches| >= 2
    ensures r == Pass <==> |switches| < 2
  {
    SwitchPairsNonEmpty(switches);
    if SwitchPairs(switches) != {} then Fail(TypeError) else Pass
  }

  /** As written, `run_spf` raises on every topology with two switches. */
  lemma RunSpfAsWrittenRaises(a: Dpid, b: Dpid)
    requires a != b
    ensures RunSpfAsWritten({a, b}) == Fail(TypeError)
  {
    assert (a, b) in SwitchPairs({a, b});
  }

  /** The topology graph: the Python class is a dict from directed links
      `(src_dpid, dst_dpid)` to the out-port on `src_dpid`, with the set of
      known switches and, once `run_spf` has run, the path table. */
  class TopologyGraph {
    var links: map<Edge, PortNo>
    var dpids: set<Dpid>
    var paths: map<Edge, Option<seq<Dpid>>>

    constructor ()
      ensures links == map[] && dpids == {} && paths == map[]
    {
      links := map[];
      dpids := {};
      paths := map[];
    }

    /** The `edges` property: the keys of the link map. */
    function Edges(): (es: set<Edge>)
      reads this
      ensures forall e :: e in es <==> e in links
    {
      links.Keys
    }

    /** The `switches` property. */
    function Switches(): (ss: set<Dpid>)
      reads this
      ensures forall d :: d in ss <==> d in dpids
    {
      dpids
    }

    /** `dijkstra(src, dst)`: best-first search with unit costs over the
        edges. The answer is `None` exactly when `dst` is unreachable from
        `src`; otherwise it is a simple walk from `src` to `dst` with the
        fewest hops. The topology is only read. */
    method Dijkstra(src: Dpid, dst: Dpid) returns (r: Option<seq<Dpid>>)
      ensures SpfResult(Edges(), src, dst, r)
      ensures src == dst ==> r == Some([src])
    {
      ghost var E := Edges();
      var graph := Adjacency(links.Keys);
      var queue := [Entry(0, src, [])];
      var seen: set<Dpid> := {};
      ghost var level: map<Dpid, nat> := map[];
      ghost var nodes := {src} + Targets(E);
      InitialSearch(E, src, dst, nodes);
      while queue != []
        invariant seen == level.Keys && Targets(E) <= nodes
        invariant SearchInv(E, src, dst, nodes, level, queue)
        decreases |nodes - seen|, |queue|
      {
        var found;
        found, queue, seen, level := SearchStep(E, graph, src, dst, nodes, queue, seen, level);
        if found.Some? {
          return found;
        }
      }
      ExhaustedUnreachable(E, src, dst, nodes, level);
      r := None;
    }

    /** `run_spf()`: fills the path table with an answer of the search for
        every ordered pair of distinct switches, and with nothing else. The
        links and switches are not changed. */
    method RunSpf()
      modifies this`paths
      ensures paths.Keys == SwitchPairs(Switches())
      ensures forall k :: k in paths ==> SpfResult(Edges(), k.0, k.1, paths[k])
    {
      var lst := SwitchPairs(Switches());
      paths := map[];
      var todo := lst;
      while todo != {}
        invariant todo <= lst
        invariant paths.Keys == lst - todo
        invariant forall k :: k in paths ==> SpfResult(Edges(), k.0, k.1, paths[k])
        decreases |todo|
      {
        ghost var some := Pick(todo);  // a witness that the choice below exists
        var pair :| pair in todo;
        var found := Dijkstra(pair.0, pair.1);
        paths := paths[pair := found];
        todo := todo - {pair};
      }
    }

    /** `path_to_port(path, G, count)`: the hops `(path[k], G[path[k]][path[k + 1]])`
        for `k` from `count` up to the last switch but one, in order. */
    method PathToPort(path: seq<Dpid>, G: map<Dpid, map<Dpid, PortNo>>, count: int := 0)
      returns (newPath: seq<Hop>)
      requires HopsDefined(path, G, count)
      ensures |newPath| == if count < |path| - 1 then |path| - 1 - count else 0
      ensures forall i :: 0 <= i < |newPath| ==> newPath[i] == HopAt(path, G, count + i)
    {
      newPath := [];
      var c := count;
      while c < |path| - 1
        invariant count <= c && (count < c ==> c <= |path| - 1)
        invariant |newPath| == c - count
        invariant forall i :: 0 <= i < |newPath| ==> newPath[i] == HopAt(path, G, count + i)
      {
        assert HopKnown(path, G, c);
        var src, dst := path[PyIndex(|path|, c)], path[PyIndex(|path|, c + 1)];
        newPath := newPath + [(src, G[src][dst])];
        c := c + 1;
      }
    }
  }

  /** All network state of the controller: the topology and the two endpoint
      tables, IP => MAC and MAC => (dpid, port_no). */
  class Network {
    var topo: TopologyGraph
    var ipToMac: map<Ip, Mac>
    var macToPort: map<Mac, Location>

    constructor ()
      ensures fresh(topo) && topo.links == map[] && topo.dpids == {} && topo.paths == map[]
      ensures ipToMac == map[] && macToPort == map[]
    {
      topo := new TopologyGraph();
      ipToMac := map[];
      macToPort := map[];
    }

    /** `mac_of_ip(ip)`: the MAC stored for `ip`; a missing IP raises. */
    function MacOfIp(ip: Ip): (r: Result<Mac>)
      reads this
      ensures r.Success? <==> ip in ipToMac
      ensures r.Success? ==> r.value == ipToMac[ip]
      ensures r.Failure? ==> r.error == KeyError
    {
      if ip in ipToMac then Success(ipToMac[ip]) else Failure(KeyError)
    }

    /** `port_of_mac(mac)`: the `(dpid, port_no)` stored for `mac`; a missing
        MAC raises. */
    function PortOfMac(mac: Mac): (r: Result<Location>)
      reads this
      ensures r.Success? <==> mac in macToPort
      ensures r.Success? ==> r.value == macToPort[mac]
      ensures r.Failure? ==> r.error == KeyError
    {
      if mac in macToPort then Success(macToPort[mac]) else Failure(KeyError)
    }
  }
}
