# fabric: a verified model of the controller's topology and flow helpers

`fabric` is a Ryu-based OpenFlow controller application. Most of it is
stubs. This project models the parts that hold logic, and proves what they
promise.

- **The topology graph** (`TopologyGraph` in `fabric/network.py`) is a map
  from directed links `(src_dpid, dst_dpid)` to the out-port on `src_dpid`,
  plus the set of known switches. It provides:
  - `dijkstra`: a best-first search with unit costs over a heap of
    `(cost, node, path)` entries;
  - `run_spf`: fills a path table for every ordered pair of distinct switches;
  - `path_to_port`: turns a switch path into `(dpid, out_port)` hops.
- **The endpoint tables** of `Network` map IP to MAC and MAC to
  `(dpid, port_no)`, each with a lookup.
- **Instruction composition**: `flows.compose` and its twin
  `helpers.instructions`. Each builds an optional apply-actions instruction
  followed by an optional goto-table instruction.

Modules:

- **`Results`** (`results.dfy`): `Option`, Python exceptions, `Result` and
  `Outcome`.
- **`Paths`** (`paths.dfy`):
  - walks over an edge set, reachability, and shortest and simple paths;
  - `SpfResult`, the specification of a correct search answer: `None`
    exactly when the target is unreachable, otherwise a simple walk with
    the fewest hops;
  - lemmas about walks.
- **`Topology`** (`topology.dfy`): the search and its invariant, and the
  classes `TopologyGraph` and `Network`.
  - `Dijkstra` is an imperative loop over a queue and a `seen` set. Its
    ensures state `SpfResult`.
  - The `edges` and `switches` properties are the reads
    `TopologyGraph.Edges` and `TopologyGraph.Switches`.
- **`Flows`** (`flows.dfy`): the instruction datatype, `Compose`, and the
  predicate `Composed` that characterizes a correct instruction list
  independently of how it is built.
- **`Helpers`** (`helpers.dfy`): `Instructions` and its code as written.

The default arguments `compose(actions=[], to_table=0)`,
`instructions(actions=None, goto=None)` and `path_to_port(..., count=0)` are
default parameter values of `Compose`, `Instructions` and `PathToPort`.

How the search is proved:

- `heappop` is modelled as `PopMin`, which removes some entry of least
  cost. Every property holds whichever of several equal-cost entries
  Python's tuple comparison picks.
- Minimality does not need a layering invariant on the queued costs. The
  loop keeps two invariants, and a walk to an unvisited switch must cross
  the frontier, which gives the bound:
  - each visited switch's level bounds every walk to it from below;
  - every edge from a visited switch to an unvisited one has its target
    queued, at most one hop beyond the source's level.
- Termination uses the lexicographic measure (unvisited switches, queue
  length).

Where the code and its documentation disagree, the model follows the code:

- `mac_of_ip` is documented (fabric/network.py:26) to return `None` for an
  unknown IP. The tables are `defaultdict()` without a factory, so the
  lookup raises `KeyError`. The model returns `Failure(KeyError)`.
- `path_to_port` reads its graph argument as nested maps `G[src][dst]`. The
  topology graph stores tuple keys `(src, dst)`. The model takes `G` as the
  nested map the code reads. `Nest` and `HopsFollowLinks` relate it to the
  tuple-keyed map.

## Model

| member | source | states |
|---|---|---|
| `Topology.TopologyGraph.Dijkstra` | fabric/network.py:91-121 | The answer is `None` exactly when `dst` is unreachable from `src` over the edges. Otherwise it is a walk from `src` to `dst` whose every consecutive pair is an edge, that repeats no switch, and that has no more hops than any other walk. When `src == dst` it is `[src]`. The topology is only read. |
| `Topology.PopMin` | fabric/network.py:112 | The removed entry has the least cost in the queue. The remainder holds every other entry with its multiplicity, and is one shorter. |
| `Topology.RemoveAt` | fabric/network.py:112 | Removing position `m` keeps the multiset of the other entries, adds nothing, and loses nothing but that entry. |
| `Topology.Adjacency` | fabric/network.py:104-106 | `b` is listed under `a` exactly when `(a, b)` is an edge, and no successor list repeats a switch. |
| `Topology.Fresh` | fabric/network.py:118-120 | The entries pushed for one expanded switch: each is `(cost, b, path)` for a successor `b` not yet seen, and every unseen successor has one; one entry per position of the successor list, in order. |
| `Topology.FreshEmpty` | fabric/network.py:118-120 | Nothing is pushed exactly when every successor is already seen. |
| `Topology.PushSuccessors` | fabric/network.py:118-120 | The new queue is the old queue followed by exactly the fresh entries, in successor order, and nothing else. |
| `Topology.FreshPushed` | fabric/network.py:118-120 | The old queue followed by the fresh entries keeps the old queue as a prefix, adds only entries `(cost, b, path)` for unseen successors `b`, and adds one for every unseen successor: the facts the search invariant uses. |
| `Topology.InitialSearch` | fabric/network.py:108-109 | The initial queue `[(0, src, [])]` with nothing seen satisfies the search invariant. |
| `Topology.MinimalOnPop` | fabric/network.py:112-113 | When a switch is popped for the first time, its cost is no greater than the hops of any walk from `src` to it. |
| `Topology.FoundPath` | fabric/network.py:115-117 | The walk returned on the first pop of `dst` is a correct answer: a shortest, simple walk from `src`, and `[src]` when `src == dst`. |
| `Topology.SkipPreserves` | fabric/network.py:112-113 | Popping an entry for a switch already seen keeps the invariant. |
| `Topology.VisitPreserves` | fabric/network.py:113-120 | Visiting a switch and queuing its unseen successors one hop further keeps the invariant. |
| `Topology.ExhaustedUnreachable` | fabric/network.py:111-121 | Once the queue is empty under the invariant, no walk leads from `src` to `dst`. |
| `Topology.SearchStep` | fabric/network.py:111-120 | One loop turn either returns a correct answer, or restores the invariant with fewer unvisited switches, or with the same ones and a shorter queue. |
| `Topology.Expand` | fabric/network.py:113-120 | Expanding a first-popped switch other than `dst` adds it to `seen` at the level of its cost, and the new queue is the rest of the old queue followed by exactly its fresh successor entries, one hop further along the extended walk. The invariant holds again and fewer switches are unvisited. |
| `Topology.VisitShrinksUnseen` | fabric/network.py:114 | Adding an unvisited switch to `seen` shrinks the set of unvisited switches. |
| `Topology.FrontierEntry` | fabric/network.py:118-120 | A walk from a visited `src` to an unvisited switch has some queued entry costing fewer hops than the walk has switches. |
| `Paths.ShortestIsSimple` | fabric/network.py:113-115 | A walk with the fewest hops never repeats a switch. |
| `Paths.LineTopologyPath` | fabric/network.py:91-121 | On the line `a - b - c`, the only correct answer from `a` to `c` is `[a, b, c]`. |
| `Paths.LineTopologyWithoutMiddle` | fabric/network.py:91-121 | Once the links of the middle switch of the line `a - b - c` are removed, the only correct answer from `a` to `c` is `None`. |
| `Topology.TopologyGraph.Edges` | fabric/network.py:65-73 | The edges are exactly the directed links stored as keys of the topology map. |
| `Topology.TopologyGraph.Switches` | fabric/network.py:75-83 | The switches are exactly the stored set of dpids. |
| `Topology.SwitchPairs` | fabric/network.py:86 | `(a, b)` is a pair exactly when `a` and `b` are distinct known switches. |
| `Topology.SwitchPairsNonEmpty` | fabric/network.py:86 | There is some pair exactly when there are at least two switches. |
| `Topology.TopologyGraph.RunSpf` | fabric/network.py:85-89 | The path table's keys are exactly the ordered pairs of distinct switches. Each value is a correct search answer for its pair. Only the path table changes. |
| `Topology.RunSpfAsWritten` | fabric/network.py:87-89 | As written, `run_spf` raises `TypeError` exactly when there are at least two switches, and returns otherwise. |
| `Topology.RunSpfAsWrittenRaises` | fabric/network.py:87-89 | As written, `run_spf` raises on a topology of two switches. |
| `Topology.TopologyGraph.PathToPort` | fabric/network.py:123-129 | There are `max(0, len(path) - 1 - count)` hops. Hop `i` is `(path[count + i], G[path[count + i]][path[count + i + 1]])`, with Python's negative indexing. |
| `Topology.PyIndex` | fabric/network.py:126 | A Python index in `-n .. n-1` names position `n + k` when negative and `k` otherwise. |
| `Topology.Nest` | fabric/network.py:58 | The nested map has `G[a][b]` exactly for the links `(a, b)`, holding the same out-port. |
| `Topology.HopsFollowLinks` | fabric/network.py:123-129 | Along a walk of the links, `path_to_port` over the nested link map reads every hop, and yields the out-port of each link. |
| `Topology.TopologyGraph.constructor` | fabric/network.py:61-63 | A new topology has no links, no switches and an empty path table. |
| `Topology.Network.constructor` | fabric/network.py:14-17 | A new network has a fresh, empty topology and empty endpoint tables. |
| `Topology.Network.MacOfIp` | fabric/network.py:19-29 | An IP in the table yields its stored MAC. A missing IP yields `KeyError`. |
| `Topology.Network.PortOfMac` | fabric/network.py:31-41 | A MAC in the table yields its stored `(dpid, port_no)`. A missing MAC yields `KeyError`. |
| `Flows.Compose` | fabric/flows.py:9-32 | The result satisfies `Composed`. With no actions and the default table it is empty. Actions give a first apply-actions instruction carrying exactly them. A non-default table gives a last goto to it. A goto to table 0 is never produced. The length is one per present part, at most two. |
| `Flows.ComposedUnique` | fabric/flows.py:24-32 | Any instruction list that satisfies `Composed` is the one `Compose` builds. |
| `Helpers.Instructions` | fabric/helpers.py:3-13 | The result is empty when neither argument is truthy. It starts with the apply-actions instruction for truthy actions and ends with the goto for a truthy table. It has at most two instructions, apply first and goto last. It equals `Compose` with `None` read as no actions and as table 0. |
| `Helpers.InstructionsAsWritten` | fabric/helpers.py:5-13 | As written, the call raises `NameError` exactly when a branch is taken, and otherwise returns the empty list. |
| `Helpers.InstructionsAsWrittenFails` | fabric/helpers.py:10-11 | A goto to table 1 raises `NameError` as written, where one goto instruction is intended. |

## Left out

- Heap tie-breaking: Python compares `(cost, dpid, path)` tuples, so equal costs go to the smaller dpid. `PopMin` takes any entry of least cost, so the model proves the result is some shortest path, not which one.
- Iteration order: in the source, the order of `self.keys()`, of the adjacency lists and of the `run_spf` pairs changes no result. Each switch is expanded once, its successor list has no repeats, and entries pushed from different switches carry different paths, so the queued tuples are pairwise distinct and `heappop` always returns the single least one. The model leaves these orders, and so the choice among entries of equal cost, open.
- Topology.TopologyGraph.RunSpf: states that each value is a correct answer for its pair, rather than the value of one particular `dijkstra` call, because the search leaves the choice among equal shortest paths open.
- Topology.TopologyGraph.PathToPort: requires every index and hop it reads to exist, instead of modelling the `IndexError` or `KeyError` that Python raises otherwise.
- `TopologyGraph` is a `defaultdict` subclass. Only its link map is modelled, not its default factory or its other dict methods. Before `run_spf` runs, the `paths` attribute does not exist; the model starts with an empty table.
- Ryu's `OFPInstructionActions` and `OFPInstructionGoto` objects are the datatype `Flows.Instruction`. OpenFlow actions are an arbitrary type parameter.
- `Network.parse_ports`, `new_peer` and `get_path` (fabric/network.py:43-51), and `flows.action_*` / `match_*` (fabric/flows.py:34-50), are empty stubs.
- fabric/app.py, fabric/main.py and fabric/packet.py are not part of this model. They hold Ryu event handlers and packet stubs without logic. The model uses only the default table number 0 (applied as `Flows.DefaultTable`).
- Link discovery, endpoint learning and flow installation happen outside these files, and are not modelled.

## Findings

| source | as written | input that shows it | evidently intended | confidence | as-written member | corrected member |
|---|---|---|---|---|---|---|
| fabric/network.py:87 | `self.paths = defaultdict` binds the class itself, so the item assignment at line 89 raises `TypeError` | a topology with two switches `a != b` | a fresh table, filled with one search answer per pair | not executed | `Topology.RunSpfAsWritten`, `Topology.RunSpfAsWrittenRaises` | `Topology.TopologyGraph.RunSpf` |
| fabric/helpers.py:8 | `parser` and `ofproto` are used at lines 8 and 11 but never imported, so any taken branch raises `NameError` | `instructions(None, 1)` | `[OFPInstructionGoto(1)]`, as `compose` builds | not executed | `Helpers.InstructionsAsWritten`, `Helpers.InstructionsAsWrittenFails` | `Helpers.Instructions` |
