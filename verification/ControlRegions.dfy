/** Control regions over fused steps (src/comfyng/graph/compiler.py:160-228, 1037-1311). */
module ControlRegions {
  import opened Ids
  import opened Layering
  import opened Graphs
  import opened Topology
  import opened CriticalPath
  import opened Reachability
  import opened Fusion
  import opened Contraction
  import opened Compile
  import opened PlanTheorems

  // ----- Node sets that fusion does not tear apart -----

  /** Either both ends of a link or neither. */
  ghost predicate Saturated(s: set<Id>, next: map<Id, Id>)
  {
    forall a :: a in next ==> (a in s <==> next[a] in s)
  }

  ghost predicate Unlinked(n: Id, next: map<Id, Id>)
  {
    n !in next && forall a :: a in next ==> next[a] != n
  }

  lemma OnlyWayOut(a: Id, t: Id, edges: seq<Edge>, next: map<Id, Id>)
    requires LinksAlone(edges, next) && a in next && (a, t) in Arcs(edges)
    ensures t == next[a]
  {
    var e :| e in edges && e.source == a && e.target == t;
  }

  lemma LinkedIsNotSource(a: Id, s: Id, control: Id, edges: seq<Edge>, next: map<Id, Id>)
    requires LinksAlone(edges, next) && Unlinked(control, next) && a in next && (s, control) in Arcs(edges)
    ensures a != s
  {
    if a == s { OnlyWayOut(a, control, edges, next); }
  }

  /** A saturated set holds all of a unit or none of it. */
  lemma {:induction false} WholeUnit(s: set<Id>, chains: seq<seq<Id>>, next: map<Id, Id>, u: int, i: int, j: int)
    requires Saturated(s, next) && WholeChains(chains, next)
    requires 0 <= u < |chains| && 0 <= i <= j < |chains[u]|
    ensures chains[u][i] in s <==> chains[u][j] in s
    decreases j
  {
    if i < j {
      WholeUnit(s, chains, next, u, i, j - 1);
      ChainLink(chains, next, u, j - 1);
    }
  }

  lemma SaturatedClass(s: set<Id>, chains: seq<seq<Id>>, next: map<Id, Id>, rep: map<Id, Id>, a: Id, b: Id)
    requires Saturated(s, next) && WholeChains(chains, next) && Distinct(Flatten(chains)) && Represents(rep, chains)
    requires a in rep && b in rep && rep[a] == rep[b]
    ensures a in s <==> b in s
  {
    var u, i :| InChain(chains, u, i, a);
    var w, j :| InChain(chains, w, j, b);
    SameHead(chains, u, w);
    if i <= j { WholeUnit(s, chains, next, u, i, j); } else { WholeUnit(s, chains, next, u, j, i); }
  }

  /** The representatives of a node set. */
  function RepsOf(s: set<Id>, rep: map<Id, Id>): set<Id>
  {
    set n | n in s && n in rep :: rep[n]
  }

  /** Disjoint node sets stay disjoint as step sets when one of them is saturated. */
  lemma RepsDisjoint(s: set<Id>, t: set<Id>, chains: seq<seq<Id>>, next: map<Id, Id>, rep: map<Id, Id>)
    requires Saturated(s, next) && s !! t
    requires WholeChains(chains, next) && Distinct(Flatten(chains)) && Represents(rep, chains)
    ensures RepsOf(s, rep) !! RepsOf(t, rep)
  {
    forall a, b | a in s && a in rep && b in t && b in rep
      ensures rep[a] != rep[b]
    {
      if rep[a] == rep[b] { SaturatedClass(s, chains, next, rep, a, b); }
    }
  }

  /** Without saturation: two disjoint node sets share a step exactly when a link joins them,
      provided every node between two of them on a unit belongs to one of them. */
  ghost predicate LinkJoins(s: set<Id>, t: set<Id>, next: map<Id, Id>)
  {
    exists a :: a in next && ((a in s && next[a] in t) || (a in t && next[a] in s))
  }

  ghost predicate Between(s: set<Id>, arcs: set<Arc>)
  {
    forall a, m, b :: a in s && b in s && Leads(a, m, arcs) && Leads(m, b, arcs) ==> m in s
  }

  lemma {:induction false} ChainLeads(chains: seq<seq<Id>>, next: map<Id, Id>, arcs: set<Arc>, u: int, i: int, j: int)
    requires WholeChains(chains, next) && 0 <= u < |chains| && 0 <= i <= j < |chains[u]|
    requires forall a :: a in next ==> (a, next[a]) in arcs
    ensures Leads(chains[u][i], chains[u][j], arcs)
    decreases j
  {
    if i == j {
      LeadsSelf(chains[u][i], arcs);
    } else {
      ChainLeads(chains, next, arcs, u, i, j - 1);
      ChainLink(chains, next, u, j - 1);
      LeadsArc(chains[u][j - 1], chains[u][j], arcs);
      LeadsThrough(chains[u][i], chains[u][j - 1], chains[u][j], arcs);
    }
  }

  lemma {:induction false} SwitchOnChain(s: set<Id>, t: set<Id>, chains: seq<seq<Id>>, next: map<Id, Id>, arcs: set<Arc>, u: int, i: int, j: int)
    requires WholeChains(chains, next) && 0 <= u < |chains| && 0 <= i <= j < |chains[u]|
    requires forall a :: a in next ==> (a, next[a]) in arcs
    requires s !! t && Between(s + t, arcs)
    requires (chains[u][i] in s && chains[u][j] in t) || (chains[u][i] in t && chains[u][j] in s)
    ensures LinkJoins(s, t, next)
    decreases j
  {
    if i < j {
      ChainLink(chains, next, u, j - 1);
      ChainLeads(chains, next, arcs, u, i, j - 1);
      ChainLeads(chains, next, arcs, u, j - 1, j);
      var before := chains[u][j - 1];
      assert before in s + t;
      assert before in next && next[before] == chains[u][j];
      if !LinkJoins(s, t, next) {
        SwitchOnChain(s, t, chains, next, arcs, u, i, j - 1);
      }
    }
  }

  lemma RepsMeetIffLinked(s: set<Id>, t: set<Id>, edges: seq<Edge>, chains: seq<seq<Id>>, next: map<Id, Id>, rep: map<Id, Id>)
    requires WholeChains(chains, next) && Distinct(Flatten(chains)) && Represents(rep, chains)
    requires LinksAlone(edges, next) && s !! t && Between(s + t, Arcs(edges)) && rep.Keys >= s + t
    ensures RepsOf(s, rep) !! RepsOf(t, rep) <==> !LinkJoins(s, t, next)
  {
    if LinkJoins(s, t, next) {
      var a :| a in next && ((a in s && next[a] in t) || (a in t && next[a] in s));
      var u, i :| InChain(chains, u, i, a);
      ChainLink(chains, next, u, i);
      assert InChain(chains, u, i + 1, next[a]);
      assert rep[a] == rep[next[a]] && rep[a] in RepsOf(s, rep) && rep[a] in RepsOf(t, rep);
    } else {
      forall a, b | a in s && b in t
        ensures rep[a] != rep[b]
      {
        if rep[a] == rep[b] {
          var u, i :| InChain(chains, u, i, a);
          var w, j :| InChain(chains, w, j, b);
          SameHead(chains, u, w);
          if i <= j {
            SwitchOnChain(s, t, chains, next, Arcs(edges), u, i, j);
          } else {
            SwitchOnChain(s, t, chains, next, Arcs(edges), u, j, i);
          }
        }
      }
    }
  }

  // ----- The sets behind a region, read off the graph -----

  const FOR_EACH := "ng.control.for_each"
  const SWITCH := "ng.control.switch"
  const COLLECT := "ng.control.collect"

  function TypeAt(nodes: map<Id, Node>, id: Id): string
  {
    if id in nodes then nodes[id].typeId else ""
  }

  function PortSources(edges: seq<Edge>, id: Id, port: string): set<Id>
  {
    set e | e in edges && e.target == id && e.targetPort == port :: e.source
  }

  function SourcesOf(edges: seq<Edge>, id: Id): set<Id>
  {
    set e | e in edges && e.target == id :: e.source
  }

  datatype RawLoop = RawLoop(body: set<Id>, boundaries: set<Id>, iterable: set<Id>)

  /** Every collect node downstream of the loop bounds it, nested collects included. */
  ghost predicate IsBoundary(x: Graph, loop: Id, n: Id)
  {
    Below(loop, n, Arcs(x.edges)) && TypeAt(NodeTable(x.nodes), n) == COLLECT
  }

  /** Downstream of the loop, upstream of one of its boundaries, and no boundary itself. */
  ghost predicate InBody(x: Graph, loop: Id, boundaries: set<Id>, n: Id)
  {
    && Below(loop, n, Arcs(x.edges)) && n !in boundaries && n != loop
    && exists c :: c in boundaries && LeadsInto(n, SourcesOf(x.edges, c), Arcs(x.edges))
  }

  ghost predicate InIterable(x: Graph, loop: Id, n: Id)
  {
    n != loop && LeadsInto(n, PortSources(x.edges, loop, "items"), Arcs(x.edges))
  }

  ghost predicate LoopSets(x: Graph, loop: Id, raw: RawLoop)
  {
    && (forall n :: n in raw.boundaries <==> IsBoundary(x, loop, n))
    && (forall n :: n in raw.body <==> InBody(x, loop, raw.boundaries, n))
    && (forall n :: n in raw.iterable <==> InIterable(x, loop, n))
  }

  lemma SourcesGrow(edges: seq<Edge>, e: Edge, n: Id)
    ensures SourcesOf(edges + [e], n) == SourcesOf(edges, n) + if e.target == n then {e.source} else {}
  {
  }

  method BuildPredecessors(edges: seq<Edge>) returns (table: map<Id, set<Id>>)
    ensures Describes(table, Flip(Arcs(edges)))
    ensures forall n :: Successors(table, n) == SourcesOf(edges, n)
  {
    table := map[];
    for k := 0 to |edges|
      invariant forall n :: Successors(table, n) == SourcesOf(edges[..k], n)
    {
      var e := edges[k];
      assert edges[..k + 1] == edges[..k] + [e];
      ghost var before := table;
      table := table[e.target := Successors(table, e.target) + {e.source}];
      forall n
        ensures Successors(table, n) == SourcesOf(edges[..k + 1], n)
      {
        SourcesGrow(edges[..k], e, n);
        assert Successors(table, n) == Successors(before, n) + if e.target == n then {e.source} else {};
      }
    }
    assert edges[..|edges|] == edges;
    forall n, t
      ensures t in Successors(table, n) <==> (n, t) in Flip(Arcs(edges))
    {
      InFlip(n, t, Arcs(edges));
    }
  }

  lemma BelowIsFound(loop: Id, n: Id, start: set<Id>, arcs: set<Arc>)
    requires forall t :: t in start <==> (loop, t) in arcs
    ensures Below(loop, n, arcs) <==> Found(start, n, arcs)
  {
    if Found(start, n, arcs) {
      var s :| s in start && Leads(s, n, arcs);
      assert (loop, s) in arcs;
    }
  }

  /** What lies downstream of a node. */
  method Descendants(loop: Id, outgoing: map<Id, set<Id>>, ghost arcs: set<Arc>) returns (down: set<Id>)
    requires Describes(outgoing, arcs)
    ensures forall n :: n in down <==> Below(loop, n, arcs)
  {
    down := Closure(Successors(outgoing, loop), outgoing, arcs);
    forall n
      ensures n in down <==> Below(loop, n, arcs)
    {
      BelowIsFound(loop, n, Successors(outgoing, loop), arcs);
    }
  }

  /** One iteration of the loop over for-each nodes. */
  method RawLoopOf(x: Graph, nodes: map<Id, Node>, loop: Id, outgoing: map<Id, set<Id>>, incoming: map<Id, set<Id>>)
    returns (raw: RawLoop, malformed: bool)
    requires nodes == NodeTable(x.nodes) && Describes(outgoing, Arcs(x.edges))
    requires Describes(incoming, Flip(Arcs(x.edges))) && forall n :: Successors(incoming, n) == SourcesOf(x.edges, n)
    ensures LoopSets(x, loop, raw)
    ensures malformed <==> (exists n :: Below(loop, n, Arcs(x.edges))) && forall n :: !IsBoundary(x, loop, n)
  {
    hide InBody, SourcesOf, PortSources, NodeTable, Flip;
    ghost var arcs := Arcs(x.edges);
    var descendants := Descendants(loop, outgoing, arcs);
    var boundaries := set n | n in descendants && TypeAt(nodes, n) == COLLECT;
    malformed := descendants != {} && boundaries == {};
    assert malformed ==> exists n :: n in descendants;
    var body := LoopBody(x, loop, descendants, boundaries, incoming);
    var iterable := Origins(PortSources(x.edges, loop, "items"), incoming, arcs);
    raw := RawLoop(body, boundaries, iterable - {loop});
  }

  method LoopBody(x: Graph, loop: Id, descendants: set<Id>, boundaries: set<Id>, incoming: map<Id, set<Id>>) returns (body: set<Id>)
    requires Describes(incoming, Flip(Arcs(x.edges))) && forall n :: Successors(incoming, n) == SourcesOf(x.edges, n)
    requires forall n :: n in descendants <==> Below(loop, n, Arcs(x.edges))
    ensures forall n :: n in body <==> InBody(x, loop, boundaries, n)
  {
    ghost var arcs := Arcs(x.edges);
    body := {};
    var rest := boundaries;
    while rest != {}
      invariant rest <= boundaries
      invariant forall n :: n in body <==>
                  n in descendants && exists c :: c in boundaries - rest && LeadsInto(n, SourcesOf(x.edges, c), arcs)
    {
      var c := Least(rest);
      var up := Origins(Successors(incoming, c), incoming, arcs);
      body := body + up * descendants;
      assert boundaries - (rest - {c}) == (boundaries - rest) + {c};
      rest := rest - {c};
    }
    body := body - boundaries - {loop};
  }

  /** A loop's body and iterable never meet: that would close a cycle. */
  lemma BodyAvoidsIterable(x: Graph, loop: Id, raw: RawLoop)
    requires LoopSets(x, loop, raw) && Acyclic(Arcs(x.edges))
    ensures raw.iterable !! raw.body && raw.iterable !! raw.boundaries
  {
    var arcs := Arcs(x.edges);
    forall n | n in raw.iterable
      ensures !Below(loop, n, arcs)
    {
      assert InIterable(x, loop, n);
      var s :| s in PortSources(x.edges, loop, "items") && Leads(n, s, arcs);
      assert (s, loop) in arcs;
      if Below(loop, n, arcs) {
        var t :| (loop, t) in arcs && Leads(t, n, arcs);
        LeadsArc(s, loop, arcs);
        LeadsThrough(t, n, s, arcs);
        LeadsThrough(t, s, loop, arcs);
        NoWayBack(loop, t, arcs);
      }
    }
    forall n | n in raw.body ensures Below(loop, n, arcs) { assert InBody(x, loop, raw.boundaries, n); }
    forall n | n in raw.boundaries ensures Below(loop, n, arcs) { assert IsBoundary(x, loop, n); }
  }

  lemma BodyAvoidsBoundary(x: Graph, loop: Id, raw: RawLoop)
    requires LoopSets(x, loop, raw)
    ensures raw.body !! raw.boundaries && loop !in raw.body && loop !in raw.iterable
  {
    forall n | n in raw.body ensures n !in raw.boundaries && n != loop { assert InBody(x, loop, raw.boundaries, n); }
    assert !InIterable(x, loop, loop);
  }

  /** A for-each node is not below itself, so it bounds nothing of its own. */
  lemma LoopIsNoBoundary(x: Graph, loop: Id, raw: RawLoop)
    requires LoopSets(x, loop, raw) && Acyclic(Arcs(x.edges))
    ensures loop !in raw.boundaries
  {
    var arcs := Arcs(x.edges);
    if loop in raw.boundaries {
      assert IsBoundary(x, loop, loop);
      var t :| (loop, t) in arcs && Leads(t, loop, arcs);
      NoWayBack(loop, t, arcs);
    }
  }

  /** The nodes of a loop below its controller hold everything between them. */
  lemma LoopIsBetween(x: Graph, loop: Id, raw: RawLoop)
    requires LoopSets(x, loop, raw) && Acyclic(Arcs(x.edges))
    ensures Between(raw.body + raw.boundaries, Arcs(x.edges))
  {
    var arcs, all := Arcs(x.edges), raw.body + raw.boundaries;
    forall a, m, b | a in all && b in all && Leads(a, m, arcs) && Leads(m, b, arcs)
      ensures m in all
    {
      assert a in raw.body ==> InBody(x, loop, raw.boundaries, a);
      assert a in raw.boundaries ==> IsBoundary(x, loop, a);
      var t :| (loop, t) in arcs && Leads(t, a, arcs);
      LeadsThrough(t, a, m, arcs);
      NoWayBack(loop, t, arcs);
      if m !in raw.boundaries {
        BodyHolds(x, loop, raw, m, b);
      }
    }
  }

  lemma BodyHolds(x: Graph, loop: Id, raw: RawLoop, m: Id, b: Id)
    requires LoopSets(x, loop, raw) && b in raw.body + raw.boundaries && Leads(m, b, Arcs(x.edges))
    requires Below(loop, m, Arcs(x.edges)) && m != loop && m !in raw.boundaries
    ensures m in raw.body
  {
    var arcs := Arcs(x.edges);
    if b in raw.body {
      assert InBody(x, loop, raw.boundaries, b);
      var c :| c in raw.boundaries && LeadsInto(b, SourcesOf(x.edges, c), arcs);
      var s :| s in SourcesOf(x.edges, c) && Leads(b, s, arcs);
      LeadsThrough(m, b, s, arcs);
      assert LeadsInto(m, SourcesOf(x.edges, c), arcs);
    } else {
      var k := LeadsLast(m, b, arcs);
      var e :| e in x.edges && e.source == k && e.target == b;
      assert k in SourcesOf(x.edges, b);
      assert LeadsInto(m, SourcesOf(x.edges, b), arcs);
    }
    assert InBody(x, loop, raw.boundaries, m);
  }

  // ----- Regions -----

  datatype Branch = Branch(name: string, members: seq<Id>, entries: seq<Id>, exits: seq<Id>)

  datatype Region = Region(
    isLoop: bool,
    controller: Id,
    parent: Option<Id>,
    depth: nat,
    branches: seq<Branch>,
    iterable: seq<Id>,
    body: seq<Id>,
    boundary: seq<Id>,
    bound: Option<int>)

  /** The setting: fused steps of an acyclic graph, none of whose control nodes is fused. */
  ghost predicate Setting(x: Graph, next: map<Id, Id>, chains: seq<seq<Id>>, rep: map<Id, Id>, steps: seq<ExecutionStep>)
  {
    && WellFormed(x) && Acyclic(Arcs(x.edges)) && Contracted(NodeIds(x), x.edges, next, chains, rep)
    && ListsHeads(steps, rep) && Classes(steps, rep) && DependenciesAgree(steps)
    && forall n :: n in x.nodes && IsControl(n) ==> Unlinked(n.id, next)
  }

  /** The steps of a set of representatives, in plan order. */
  function InSteps(steps: seq<ExecutionStep>, reps: set<Id>): seq<Id>
  {
    if steps == [] then []
    else
      var last := steps[|steps| - 1];
      InSteps(steps[..|steps| - 1], reps) + if last.nodeId in reps then [last.nodeId] else []
  }

  lemma {:induction false} InStepsMembers(steps: seq<ExecutionStep>, reps: set<Id>, id: Id)
    ensures id in InSteps(steps, reps) <==> id in reps && exists k :: StepAt(steps, k, id)
  {
    if steps != [] {
      var init, last := steps[..|steps| - 1], steps[|steps| - 1];
      InStepsMembers(init, reps, id);
      if k :| StepAt(init, k, id) {
        assert StepAt(steps, k, id);
      }
      if k :| StepAt(steps, k, id) {
        assert k < |init| ==> StepAt(init, k, id);
      }
      if last.nodeId == id {
        assert StepAt(steps, |steps| - 1, id);
      }
    }
  }

  lemma {:induction false} InStepsDistinct(steps: seq<ExecutionStep>, reps: set<Id>)
    requires forall k, l :: 0 <= k < l < |steps| ==> steps[k].nodeId != steps[l].nodeId
    ensures Distinct(InSteps(steps, reps))
  {
    if steps != [] {
      var init, last := steps[..|steps| - 1], steps[|steps| - 1];
      InStepsDistinct(init, reps);
      InStepsMembers(init, reps, last.nodeId);
      assert last.nodeId !in InSteps(init, reps);
    }
  }

  lemma StepsOfReps(steps: seq<ExecutionStep>, rep: map<Id, Id>, s: set<Id>)
    requires ListsHeads(steps, rep)
    ensures Distinct(InSteps(steps, RepsOf(s, rep))) && Elements(InSteps(steps, RepsOf(s, rep))) == RepsOf(s, rep)
  {
    InStepsDistinct(steps, RepsOf(s, rep));
    forall id
      ensures id in InSteps(steps, RepsOf(s, rep)) <==> id in RepsOf(s, rep)
    {
      InStepsMembers(steps, RepsOf(s, rep), id);
    }
  }

  /** `_ordered_representatives`. */
  method OrderedRepresentatives(s: set<Id>, rep: map<Id, Id>, steps: seq<ExecutionStep>) returns (ordered: seq<Id>)
    ensures ordered == InSteps(steps, RepsOf(s, rep))
  {
    var reps := RepsOf(s, rep);
    ordered := [];
    for k := 0 to |steps|
      invariant ordered == InSteps(steps[..k], reps)
    {
      assert steps[..k + 1][..k] == steps[..k];
      if steps[k].nodeId in reps { ordered := ordered + [steps[k].nodeId]; }
    }
    assert steps[..|steps|] == steps;
  }

  // ----- Branches -----

  /** What a branch of a condition owns: what leads to its port, unless it leads to the other
      port or to the condition as well, or is a loop around the condition. */
  ghost predicate InBranch(x: Graph, loops: map<Id, RawLoop>, id: Id, name: string, n: Id)
  {
    var arcs := Arcs(x.edges);
    && LeadsInto(n, PortSources(x.edges, id, name), arcs)
    && !(LeadsInto(n, PortSources(x.edges, id, "false_value"), arcs) && LeadsInto(n, PortSources(x.edges, id, "true_value"), arcs))
    && !LeadsInto(n, PortSources(x.edges, id, "condition"), arcs)
    && n != id && !(n in loops && id in loops[n].body)
  }

  predicate IsEntry(m: Id, members: seq<Id>, table: map<Id, ExecutionStep>)
  {
    m in table && forall d :: d in table[m].dependencies ==> d !in members
  }

  predicate IsExit(m: Id, members: seq<Id>, table: map<Id, ExecutionStep>)
  {
    m in table && forall d :: d in table[m].dependents ==> d !in members
  }

  /** The members, in order, that read from no other member. */
  function EntriesOf(some: seq<Id>, members: seq<Id>, table: map<Id, ExecutionStep>): (entries: seq<Id>)
    ensures forall m :: m in entries <==> m in some && IsEntry(m, members, table)
    ensures Distinct(some) ==> Distinct(entries)
  {
    if some == [] then []
    else
      var init, last := some[..|some| - 1], some[|some| - 1];
      assert some == init + [last];
      EntriesOf(init, members, table) + if IsEntry(last, members, table) then [last] else []
  }

  /** The members, in order, that no other member reads from. */
  function ExitsOf(some: seq<Id>, members: seq<Id>, table: map<Id, ExecutionStep>): (exits: seq<Id>)
    ensures forall m :: m in exits <==> m in some && IsExit(m, members, table)
    ensures Distinct(some) ==> Distinct(exits)
  {
    if some == [] then []
    else
      var init, last := some[..|some| - 1], some[|some| - 1];
      assert some == init + [last];
      ExitsOf(init, members, table) + if IsExit(last, members, table) then [last] else []
  }

  function StepTable(steps: seq<ExecutionStep>): (table: map<Id, ExecutionStep>)
    ensures forall id :: id in table ==> table[id] in steps && table[id].nodeId == id
    ensures forall s :: s in steps ==> s.nodeId in table
  {
    if steps == [] then map[]
    else
      var last := steps[|steps| - 1];
      StepTable(steps[..|steps| - 1])[last.nodeId := last]
  }

  ghost predicate BranchNodes(x: Graph, loops: map<Id, RawLoop>, id: Id, name: string, s: set<Id>)
  {
    forall n :: n in s <==> InBranch(x, loops, id, name, n)
  }

  ghost predicate BranchFor(x: Graph, loops: map<Id, RawLoop>, steps: seq<ExecutionStep>, rep: map<Id, Id>, id: Id, b: Branch)
  {
    && (exists s :: BranchNodes(x, loops, id, b.name, s) && b.members == InSteps(steps, RepsOf(s, rep)))
    && b.entries == EntriesOf(b.members, b.members, StepTable(steps))
    && b.exits == ExitsOf(b.members, b.members, StepTable(steps))
  }

  /** The branch of one port, from the three closures. */
  method BuildBranch(x: Graph, loops: map<Id, RawLoop>, steps: seq<ExecutionStep>, table: map<Id, ExecutionStep>, rep: map<Id, Id>,
                     id: Id, name: string, own: set<Id>, excluded: set<Id>) returns (b: Branch)
    requires table == StepTable(steps)
    requires BranchNodes(x, loops, id, name, own - excluded)
    ensures b.name == name && BranchFor(x, loops, steps, rep, id, b)
  {
    hide EntriesOf, ExitsOf, InBranch, StepTable, InSteps, RepsOf;
    var members := OrderedRepresentatives(own - excluded, rep, steps);
    var entries, exits := BranchEnds(members, table);
    b := Branch(name, members, entries, exits);
  }

  method BranchEnds(members: seq<Id>, table: map<Id, ExecutionStep>) returns (entries: seq<Id>, exits: seq<Id>)
    ensures entries == EntriesOf(members, members, table) && exits == ExitsOf(members, members, table)
  {
    hide IsEntry, IsExit;
    entries, exits := [], [];
    for k := 0 to |members|
      invariant entries == EntriesOf(members[..k], members, table) && exits == ExitsOf(members[..k], members, table)
    {
      assert members[..k + 1][..k] == members[..k];
      if IsEntry(members[k], members, table) { entries := entries + [members[k]]; }
      if IsExit(members[k], members, table) { exits := exits + [members[k]]; }
    }
    assert members[..|members|] == members;
  }

  ghost predicate ConditionFor(x: Graph, loops: map<Id, RawLoop>, steps: seq<ExecutionStep>, rep: map<Id, Id>, r: Region)
  {
    && !r.isLoop && r.iterable == [] && r.body == [] && r.boundary == [] && r.bound.None?
    && |r.branches| == 2 && r.branches[0].name == "false_value" && r.branches[1].name == "true_value"
    && forall b :: b in r.branches ==> BranchFor(x, loops, steps, rep, r.controller, b)
  }

  method BuildCondition(x: Graph, loops: map<Id, RawLoop>, steps: seq<ExecutionStep>, table: map<Id, ExecutionStep>, rep: map<Id, Id>,
                        incoming: map<Id, set<Id>>, id: Id) returns (r: Region)
    requires table == StepTable(steps) && Describes(incoming, Flip(Arcs(x.edges)))
    ensures r.controller == id && r.parent.None? && r.depth == 0 && ConditionFor(x, loops, steps, rep, r)
  {
    hide InBranch, BranchFor, LeadsInto, PortSources, StepTable, Flip, Describes;
    ghost var arcs := Arcs(x.edges);
    var low := Origins(PortSources(x.edges, id, "false_value"), incoming, arcs);
    var high := Origins(PortSources(x.edges, id, "true_value"), incoming, arcs);
    var condition := Origins(PortSources(x.edges, id, "condition"), incoming, arcs);
    var around := set l | l in loops && id in loops[l].body;
    var excluded := low * high + condition + {id} + around;
    OwnNodes(x, loops, id, "false_value", low, low, high, condition, around);
    OwnNodes(x, loops, id, "true_value", high, low, high, condition, around);
    var first := BuildBranch(x, loops, steps, table, rep, id, "false_value", low, excluded);
    var second := BuildBranch(x, loops, steps, table, rep, id, "true_value", high, excluded);
    r := Region(false, id, None, 0, [first, second], [], [], [], None);
  }

  /** The three closures and the surrounding loops give exactly the branch's nodes. */
  lemma OwnNodes(x: Graph, loops: map<Id, RawLoop>, id: Id, name: string, own: set<Id>, low: set<Id>, high: set<Id>,
                 condition: set<Id>, around: set<Id>)
    requires forall n :: n in own <==> LeadsInto(n, PortSources(x.edges, id, name), Arcs(x.edges))
    requires forall n :: n in low <==> LeadsInto(n, PortSources(x.edges, id, "false_value"), Arcs(x.edges))
    requires forall n :: n in high <==> LeadsInto(n, PortSources(x.edges, id, "true_value"), Arcs(x.edges))
    requires forall n :: n in condition <==> LeadsInto(n, PortSources(x.edges, id, "condition"), Arcs(x.edges))
    requires forall n :: n in around <==> n in loops && id in loops[n].body
    ensures BranchNodes(x, loops, id, name, own - (low * high + condition + {id} + around))
  {
    hide LeadsInto, PortSources;
  }

  ghost predicate LoopFor(x: Graph, raw: RawLoop, steps: seq<ExecutionStep>, rep: map<Id, Id>, bound: Option<int>, r: Region)
  {
    && r.isLoop && r.branches == [] && r.bound == bound
    && r.iterable == InSteps(steps, RepsOf(raw.iterable, rep))
    && r.body == InSteps(steps, RepsOf(raw.body, rep))
    && r.boundary == InSteps(steps, RepsOf(raw.boundaries, rep))
  }

  method BuildLoop(raw: RawLoop, steps: seq<ExecutionStep>, rep: map<Id, Id>, id: Id, bound: Option<int>, ghost x: Graph) returns (r: Region)
    ensures r.controller == id && r.parent.None? && r.depth == 0 && LoopFor(x, raw, steps, rep, bound, r)
  {
    var iterable := OrderedRepresentatives(raw.iterable, rep, steps);
    var body := OrderedRepresentatives(raw.body, rep, steps);
    var boundary := OrderedRepresentatives(raw.boundaries, rep, steps);
    r := Region(true, id, None, 0, [], iterable, body, boundary, bound);
  }

  // ----- What the constructors check, and why it holds -----

  lemma LinkedOrigin(a: Id, start: set<Id>, control: Id, edges: seq<Edge>, next: map<Id, Id>)
    requires LinksAlone(edges, next) && Unlinked(control, next) && a in next
    requires forall s :: s in start ==> (s, control) in Arcs(edges)
    ensures LeadsInto(a, start, Arcs(edges)) <==> LeadsInto(next[a], start, Arcs(edges))
  {
    var arcs := Arcs(edges);
    assert (a, next[a]) in arcs;
    if LeadsInto(next[a], start, arcs) {
      var s :| s in start && Leads(next[a], s, arcs);
      LeadsArc(a, next[a], arcs);
      LeadsThrough(a, next[a], s, arcs);
    }
    if LeadsInto(a, start, arcs) {
      var s :| s in start && Leads(a, s, arcs);
      LinkedIsNotSource(a, s, control, edges, next);
      LeadsFirst(a, s, arcs);
      var t :| (a, t) in arcs && Leads(t, s, arcs);
      OnlyWayOut(a, t, edges, next);
    }
  }

  ghost predicate LoopsUnlinked(loops: map<Id, RawLoop>, next: map<Id, Id>)
  {
    forall l :: l in loops ==> Unlinked(l, next)
  }

  lemma BranchSaturated(x: Graph, loops: map<Id, RawLoop>, id: Id, name: string, next: map<Id, Id>, s: set<Id>)
    requires LinksAlone(x.edges, next) && Unlinked(id, next) && LoopsUnlinked(loops, next)
    requires BranchNodes(x, loops, id, name, s)
    ensures Saturated(s, next)
  {
    forall a | a in next
      ensures a in s <==> next[a] in s
    {
      LinkedOrigin(a, PortSources(x.edges, id, name), id, x.edges, next);
      LinkedOrigin(a, PortSources(x.edges, id, "false_value"), id, x.edges, next);
      LinkedOrigin(a, PortSources(x.edges, id, "true_value"), id, x.edges, next);
      LinkedOrigin(a, PortSources(x.edges, id, "condition"), id, x.edges, next);
      assert a != id && next[a] != id && a !in loops && next[a] !in loops;
      assert InBranch(x, loops, id, name, a) <==> InBranch(x, loops, id, name, next[a]);
    }
  }

  /** The two branches of a condition never share a step. */
  lemma BranchesDisjoint(x: Graph, next: map<Id, Id>, chains: seq<seq<Id>>, rep: map<Id, Id>, steps: seq<ExecutionStep>,
                         loops: map<Id, RawLoop>, r: Region)
    requires Setting(x, next, chains, rep, steps) && ConditionFor(x, loops, steps, rep, r)
    requires Unlinked(r.controller, next) && LoopsUnlinked(loops, next)
    ensures Elements(r.branches[0].members) !! Elements(r.branches[1].members)
  {
    var b, c := r.branches[0], r.branches[1];
    assert BranchFor(x, loops, steps, rep, r.controller, b) && BranchFor(x, loops, steps, rep, r.controller, c);
    var s :| BranchNodes(x, loops, r.controller, b.name, s) && b.members == InSteps(steps, RepsOf(s, rep));
    var t :| BranchNodes(x, loops, r.controller, c.name, t) && c.members == InSteps(steps, RepsOf(t, rep));
    BranchSaturated(x, loops, r.controller, b.name, next, s);
    assert s !! t;
    RepsDisjoint(s, t, chains, next, rep);
    StepsOfReps(steps, rep, s);
    StepsOfReps(steps, rep, t);
  }

  /** The first of some steps in group order, and the last. */
  lemma Extremes(table: map<Id, ExecutionStep>, members: seq<Id>) returns (first: Id, last: Id)
    requires members != [] && forall m :: m in members ==> m in table
    ensures first in members && forall m :: m in members ==> table[first].group <= table[m].group
    ensures last in members && forall m :: m in members ==> table[m].group <= table[last].group
    decreases |members|
  {
    var m := members[0];
    if |members| == 1 {
      first, last := m, m;
    } else {
      first, last := Extremes(table, members[1..]);
      if table[m].group < table[first].group { first := m; }
      if table[m].group > table[last].group { last := m; }
      assert forall k :: k in members ==> k == m || k in members[1..];
    }
  }

  lemma TableAgrees(steps: seq<ExecutionStep>, rep: map<Id, Id>, k: nat)
    requires ListsHeads(steps, rep) && k < |steps|
    ensures steps[k].nodeId in StepTable(steps) && StepTable(steps)[steps[k].nodeId] == steps[k]
  {
    var s := StepTable(steps)[steps[k].nodeId];
    var l :| 0 <= l < |steps| && steps[l] == s;
    if l < k { assert steps[l].nodeId != steps[k].nodeId; }
    if k < l { assert steps[k].nodeId != steps[l].nodeId; }
  }

  lemma DependencyGroups(steps: seq<ExecutionStep>, rep: map<Id, Id>, m: Id, d: Id)
    requires ListsHeads(steps, rep) && DependenciesAgree(steps) && m in StepTable(steps)
    ensures d in StepTable(steps)[m].dependencies ==> d in StepTable(steps) && StepTable(steps)[d].group < StepTable(steps)[m].group
    ensures d in StepTable(steps)[m].dependents ==> d in StepTable(steps) && StepTable(steps)[m].group < StepTable(steps)[d].group
  {
    var table := StepTable(steps);
    var k :| 0 <= k < |steps| && steps[k] == table[m];
    if d in table[m].dependencies {
      assert GoodDependency(steps, k, d);
      var l :| StepAt(steps, l, d) && steps[l].group < steps[k].group;
      TableAgrees(steps, rep, l);
    }
    if d in table[m].dependents {
      assert GoodDependent(steps, k, d);
      var l :| StepAt(steps, l, d) && steps[k].group < steps[l].group;
      TableAgrees(steps, rep, l);
    }
  }

  /** A non-empty branch has an entry and an exit. */
  lemma BranchHasEnds(steps: seq<ExecutionStep>, rep: map<Id, Id>, members: seq<Id>) returns (first: Id, last: Id)
    requires ListsHeads(steps, rep) && DependenciesAgree(steps) && members != []
    requires forall m :: m in members ==> exists k :: StepAt(steps, k, m)
    ensures first in members && IsEntry(first, members, StepTable(steps))
    ensures last in members && IsExit(last, members, StepTable(steps))
  {
    var table := StepTable(steps);
    forall m | m in members
      ensures m in table
    {
      var k :| StepAt(steps, k, m);
      TableAgrees(steps, rep, k);
    }
    first, last := Extremes(table, members);
    forall d | d in table[first].dependencies
      ensures d !in members
    {
      DependencyGroups(steps, rep, first, d);
    }
    forall d | d in table[last].dependents
      ensures d !in members
    {
      DependencyGroups(steps, rep, last, d);
    }
  }

  /** The checks of `ControlBranch.__post_init__`. */
  ghost predicate BranchAccepted(b: Branch)
  {
    && Distinct(b.members) && Distinct(b.entries) && Distinct(b.exits)
    && (forall m :: m in b.entries ==> m in b.members) && (forall m :: m in b.exits ==> m in b.members)
    && (b.members != [] ==> b.entries != [] && b.exits != [])
  }

  lemma BranchIsAccepted(x: Graph, loops: map<Id, RawLoop>, steps: seq<ExecutionStep>, rep: map<Id, Id>, id: Id, b: Branch)
    requires ListsHeads(steps, rep) && DependenciesAgree(steps) && BranchFor(x, loops, steps, rep, id, b)
    ensures BranchAccepted(b)
  {
    var s :| BranchNodes(x, loops, id, b.name, s) && b.members == InSteps(steps, RepsOf(s, rep));
    StepsOfReps(steps, rep, s);
    if b.members != [] {
      forall m | m in b.members
        ensures exists k :: StepAt(steps, k, m)
      {
        InStepsMembers(steps, RepsOf(s, rep), m);
      }
      var first, last := BranchHasEnds(steps, rep, b.members);
      assert first in b.entries && last in b.exits;
    }
  }

  /** The checks of `ControlRegion.__post_init__` that every derived region passes. */
  ghost predicate RegionSound(r: Region)
  {
    && (r.parent.None? <==> r.depth == 0) && r.parent != Some(r.controller)
    && Distinct(r.iterable) && Distinct(r.body) && Distinct(r.boundary)
    && r.controller !in r.iterable && r.controller !in r.body && r.controller !in r.boundary
    && (forall b :: b in r.branches ==> BranchAccepted(b))
    && (!r.isLoop ==>
          && |r.branches| == 2 && r.branches[0].name != r.branches[1].name
          && Elements(r.branches[0].members) !! Elements(r.branches[1].members)
          && r.iterable == [] && r.body == [] && r.boundary == [] && r.bound.None?)
    && (r.isLoop ==> r.branches == [] && Elements(r.iterable) !! Elements(r.body))
  }

  /** A loop has a non-negative bound. */
  predicate Bounded(r: Region)
  {
    r.isLoop ==> r.bound.Some? && r.bound.value >= 0
  }

  /** A step of a loop is in its body and in its boundary. */
  predicate Overlaps(r: Region)
  {
    r.isLoop && exists m :: m in r.body && m in r.boundary
  }

  /** All checks of `ControlRegion.__post_init__`. */
  ghost predicate RegionAccepted(r: Region)
  {
    RegionSound(r) && Bounded(r) && !Overlaps(r)
  }

  lemma ConditionAccepted(x: Graph, next: map<Id, Id>, chains: seq<seq<Id>>, rep: map<Id, Id>, steps: seq<ExecutionStep>,
                          loops: map<Id, RawLoop>, r: Region)
    requires Setting(x, next, chains, rep, steps) && ConditionFor(x, loops, steps, rep, r)
    requires Unlinked(r.controller, next) && LoopsUnlinked(loops, next)
    requires (r.parent.None? <==> r.depth == 0) && r.parent != Some(r.controller)
    ensures RegionAccepted(r)
  {
    BranchesDisjoint(x, next, chains, rep, steps, loops, r);
    forall b | b in r.branches
      ensures BranchAccepted(b)
    {
      BranchIsAccepted(x, loops, steps, rep, r.controller, b);
    }
  }

  lemma IterableSaturated(x: Graph, loop: Id, raw: RawLoop, next: map<Id, Id>)
    requires LinksAlone(x.edges, next) && Unlinked(loop, next) && LoopSets(x, loop, raw)
    ensures Saturated(raw.iterable, next)
  {
    forall a | a in next
      ensures a in raw.iterable <==> next[a] in raw.iterable
    {
      LinkedOrigin(a, PortSources(x.edges, loop, "items"), loop, x.edges, next);
      assert InIterable(x, loop, a) <==> InIterable(x, loop, next[a]);
    }
  }

  /** An unlinked node is alone in its step. */
  lemma AloneMember(next: map<Id, Id>, chains: seq<seq<Id>>, rep: map<Id, Id>, control: Id, a: Id)
    requires WholeChains(chains, next) && Distinct(Flatten(chains)) && Represents(rep, chains)
    requires control in rep && Unlinked(control, next) && a in rep
    ensures rep[control] == control && (rep[a] == control ==> a == control)
  {
    var u, i :| InChain(chains, u, i, control);
    if i > 0 { ChainLink(chains, next, u, i - 1); }
    var w, j :| InChain(chains, w, j, a);
    if rep[a] == control {
      SameHead(chains, u, w);
      ChainLink(chains, next, u, 0);
    }
  }

  lemma AloneInStep(next: map<Id, Id>, chains: seq<seq<Id>>, rep: map<Id, Id>, control: Id, s: set<Id>)
    requires WholeChains(chains, next) && Distinct(Flatten(chains)) && Represents(rep, chains)
    requires control in rep && Unlinked(control, next) && control !in s
    ensures control !in RepsOf(s, rep)
  {
    forall a | a in s && a in rep
      ensures rep[a] != control
    {
      AloneMember(next, chains, rep, control, a);
    }
  }

  lemma LoopSound(x: Graph, next: map<Id, Id>, chains: seq<seq<Id>>, rep: map<Id, Id>, steps: seq<ExecutionStep>,
                     raw: RawLoop, bound: Option<int>, r: Region)
    requires Setting(x, next, chains, rep, steps) && LoopSets(x, r.controller, raw) && LoopFor(x, raw, steps, rep, bound, r)
    requires Unlinked(r.controller, next) && r.controller in rep
    requires (r.parent.None? <==> r.depth == 0) && r.parent != Some(r.controller)
    ensures RegionSound(r)
  {
    BodyAvoidsIterable(x, r.controller, raw);
    BodyAvoidsBoundary(x, r.controller, raw);
    LoopIsNoBoundary(x, r.controller, raw);
    IterableSaturated(x, r.controller, raw, next);
    RepsDisjoint(raw.iterable, raw.body, chains, next, rep);
    StepsOfReps(steps, rep, raw.iterable);
    StepsOfReps(steps, rep, raw.body);
    StepsOfReps(steps, rep, raw.boundaries);
    AloneInStep(next, chains, rep, r.controller, raw.iterable);
    AloneInStep(next, chains, rep, r.controller, raw.body);
    AloneInStep(next, chains, rep, r.controller, raw.boundaries);
  }

  /** The one check that can fail: body and boundary steps overlap exactly when fusion joined
      a body node and a boundary node. */
  lemma OverlapIffFused(x: Graph, next: map<Id, Id>, chains: seq<seq<Id>>, rep: map<Id, Id>, steps: seq<ExecutionStep>,
                        raw: RawLoop, bound: Option<int>, r: Region)
    requires Setting(x, next, chains, rep, steps) && LoopSets(x, r.controller, raw) && LoopFor(x, raw, steps, rep, bound, r)
    ensures Elements(r.body) !! Elements(r.boundary) <==> !LinkJoins(raw.body, raw.boundaries, next)
  {
    BodyAvoidsBoundary(x, r.controller, raw);
    LoopIsBetween(x, r.controller, raw);
    forall n | n in raw.body + raw.boundaries
      ensures n in rep
    {
      assert n in raw.body ==> InBody(x, r.controller, raw.boundaries, n);
      assert n in raw.boundaries ==> IsBoundary(x, r.controller, n);
      BelowIsNode(x, r.controller, n);
    }
    RepsMeetIffLinked(raw.body, raw.boundaries, x.edges, chains, next, rep);
    StepsOfReps(steps, rep, raw.body);
    StepsOfReps(steps, rep, raw.boundaries);
  }

  lemma OverlapIsMeeting(r: Region)
    ensures Overlaps(r) <==> r.isLoop && !(Elements(r.body) !! Elements(r.boundary))
  {
    if !Overlaps(r) && r.isLoop {
      forall m | m in Elements(r.body)
        ensures m !in Elements(r.boundary)
      {
        assert m in r.body;
      }
    }
    if Overlaps(r) {
      var m :| m in r.body && m in r.boundary;
      assert m in Elements(r.body) && m in Elements(r.boundary);
    }
  }

  /** A loop region passes its constructor exactly when it is bounded and fusion left its body
      and its boundary apart. */
  lemma LoopAccepted(x: Graph, next: map<Id, Id>, chains: seq<seq<Id>>, rep: map<Id, Id>, steps: seq<ExecutionStep>,
                     raw: RawLoop, bound: Option<int>, r: Region)
    requires Setting(x, next, chains, rep, steps) && LoopSets(x, r.controller, raw) && LoopFor(x, raw, steps, rep, bound, r)
    requires Unlinked(r.controller, next) && r.controller in rep
    requires (r.parent.None? <==> r.depth == 0) && r.parent != Some(r.controller)
    ensures RegionAccepted(r) <==> bound.Some? && bound.value >= 0 && !LinkJoins(raw.body, raw.boundaries, next)
  {
    hide Setting, LoopSets, RegionSound, LinkJoins, Overlaps, Unlinked;
    LoopSound(x, next, chains, rep, steps, raw, bound, r);
    OverlapIffFused(x, next, chains, rep, steps, raw, bound, r);
    OverlapIsMeeting(r);
  }

  lemma BelowIsNode(x: Graph, loop: Id, n: Id)
    requires WellFormed(x) && Below(loop, n, Arcs(x.edges))
    ensures n in NodeIds(x)
  {
    var arcs := Arcs(x.edges);
    var t :| (loop, t) in arcs && Leads(t, n, arcs);
    WellFormedWithin(x);
    var k := LeadsLast(t, n, arcs);
  }
}
