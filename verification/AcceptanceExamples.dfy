/** One small accepted graph, and one rejected graph for every kind of check
    (src/comfyng/graph/validation.py:421-710). */
module AcceptanceExamples {
  import opened Ids
  import opened Layering
  import opened Graphs
  import opened Fusion
  import opened Validation
  import opened Acceptance

  const INT := Arr([Str("integer")])
  const TEXT := Arr([Str("string")])

  predicate SameTypes(from: Json, to: Json)
  {
    from == to
  }

  predicate OfType(schema: Json, value: Json)
  {
    if schema == INT then value.Num? else if schema == TEXT then value.Str? else value.Arr?
  }

  /** "number" takes one number and gives one, "text" gives a string, "maybe" takes an optional
      number. */
  function SmallRules(): Rules
  {
    Rules(map[("number", "1") := Definition(map["in" := INT], map["out" := INT], {"in"}),
              ("text", "1") := Definition(map[], map["out" := TEXT], {}),
              ("maybe", "1") := Definition(map["in" := INT], map[], {}),
              ("ng.control.for_each", "1") := Definition(map["items" := Null], map[], {})],
          OfType, SameTypes, 2)
  }

  function Number(n: nat, literals: map<string, Json>): Node
  {
    Node(Base(n), "number", "1", literals, map[])
  }

  const ONE := Number(0, map["in" := Num(1)])
  const TWO := Number(1, map[])
  const LINK := Edge(Base(0), "out", Base(1), "in")

  function Small(nodes: seq<Node>, edges: seq<Edge>): Graph
  {
    Graph(0, 1, nodes, edges, map[], map["result" := Binding(Base(0), "out")])
  }

  /** Every walk starts before it ends. */
  lemma LinkWalks(p: seq<Id>)
    requires Walk([LINK], p) && |p| >= 2
    ensures p[0] != p[|p| - 1]
  {
    assert Joined([LINK], p[0], p[1]);
    var last := |p| - 2;
    assert Joined([LINK], p[last], p[last + 1]);
  }

  lemma OneWay(n: Node, p: string)
    requires n == ONE || n == TWO
    ensures Ways(Small([ONE, TWO], [LINK]), n, p) == if p == "in" then 1 else 0
  {
    var g := Small([ONE, TWO], [LINK]);
    assert EdgesAt(g.edges, n.id, p) == if n == TWO && p == "in" then {0} else {};
    assert NamesAt(g.inputs, n.id, p) == {};
  }

  lemma FittingNode(n: Node)
    requires n == ONE || n == TWO
    ensures Catalogued(SmallRules(), n) && NodeFits(Small([ONE, TWO], [LINK]), SmallRules(), n)
  {
    hide Ways;
    var g := Small([ONE, TWO], [LINK]);
    forall p
      ensures Ways(g, n, p) == if p == "in" then 1 else 0
    {
      OneWay(n, p);
    }
    assert SmallRules().literalOk(INT, Num(1)) == OfType(INT, Num(1));
  }

  lemma NoWayBack()
    ensures NoRoundTrip([LINK])
  {
    hide Walk;
    forall p | Walk([LINK], p) && |p| >= 2
      ensures p[0] != p[|p| - 1]
    {
      LinkWalks(p);
    }
  }

  lemma LinkConnects()
    ensures Connected(Small([ONE, TWO], [LINK]), SmallRules(), LINK)
    ensures Leaves(Small([ONE, TWO], [LINK]), SmallRules(), Binding(Base(0), "out"))
  {
    var g, rules := Small([ONE, TWO], [LINK]), SmallRules();
    assert g.nodes[0] == ONE && g.nodes[1] == TWO;
    assert rules.compatible(INT, INT) == SameTypes(INT, INT);
    assert Connects(g, rules, LINK, ONE, TWO);
    assert LeavesAt(g, rules, Binding(Base(0), "out"), ONE);
  }

  /** A number fed to another: nothing to object to. */
  lemma AcceptedExample()
    ensures Accepted(Small([ONE, TWO], [LINK]), SmallRules())
  {
    hide NoRoundTrip, Connected, Leaves, Catalogued, NodeFits, SmallRules;
    var g := Small([ONE, TWO], [LINK]);
    FittingNode(ONE);
    FittingNode(TWO);
    LinkConnects();
    NoWayBack();
    AcceptedIff(g, SmallRules());
  }

  lemma SameIdRejected()
    ensures !Accepted(Small([ONE, Number(0, map["in" := Num(2)])], []), SmallRules())
  {
    AcceptedIff(Small([ONE, Number(0, map["in" := Num(2)])], []), SmallRules());
  }

  lemma UnknownTypeRejected()
    ensures !Accepted(Small([ONE, Node(Base(1), "unheard-of", "1", map[], map[])], []), SmallRules())
  {
    var g := Small([ONE, Node(Base(1), "unheard-of", "1", map[], map[])], []);
    assert g.nodes[1] in g.nodes;
    AcceptedIff(g, SmallRules());
  }

  /** Some edge does not connect. */
  lemma EdgeRejected(g: Graph, e: Edge)
    requires e in g.edges && !Connected(g, SmallRules(), e)
    ensures !Accepted(g, SmallRules())
  {
    hide Connected, NodeFits, Catalogued;
    AcceptedIff(g, SmallRules());
  }

  lemma MissingEndRejected()
    ensures !Accepted(Small([ONE], [LINK]), SmallRules())
  {
    EdgeRejected(Small([ONE], [LINK]), LINK);
  }

  lemma MissingSourcePortRejected()
    ensures !Accepted(Small([ONE, TWO], [Edge(Base(0), "elsewhere", Base(1), "in")]), SmallRules())
  {
    var e := Edge(Base(0), "elsewhere", Base(1), "in");
    EdgeRejected(Small([ONE, TWO], [e]), e);
  }

  lemma MissingTargetPortRejected()
    ensures !Accepted(Small([ONE, TWO], [LINK, Edge(Base(0), "out", Base(1), "elsewhere")]), SmallRules())
  {
    var e := Edge(Base(0), "out", Base(1), "elsewhere");
    var g := Small([ONE, TWO], [LINK, e]);
    assert g.edges[1] == e;
    EdgeRejected(g, e);
  }

  /** A string is sent to a port for numbers. */
  lemma WrongTypeRejected()
    ensures !Accepted(Small([Node(Base(0), "text", "1", map[], map[]), TWO], [LINK]), SmallRules())
  {
    var g := Small([Node(Base(0), "text", "1", map[], map[]), TWO], [LINK]);
    assert INT.items[0] != TEXT.items[0];
    EdgeRejected(g, LINK);
  }

  lemma NodeRejected(g: Graph, n: Node)
    requires n in g.nodes && !(Catalogued(SmallRules(), n) && NodeFits(g, SmallRules(), n))
    ensures !Accepted(g, SmallRules())
  {
    hide NodeFits, Catalogued;
    AcceptedIff(g, SmallRules());
  }

  lemma WrongLiteralRejected()
    ensures !Accepted(Small([Number(0, map["in" := Str("one")])], []), SmallRules())
  {
    var n := Number(0, map["in" := Str("one")]);
    assert "in" in n.inputs && SmallRules().literalOk(INT, Str("one")) == OfType(INT, Str("one"));
    NodeRejected(Small([n], []), n);
  }

  lemma UnknownLiteralRejected()
    ensures !Accepted(Small([Number(0, map["in" := Num(1), "other" := Num(2)])], []), SmallRules())
  {
    var n := Number(0, map["in" := Num(1), "other" := Num(2)]);
    assert "other" in n.inputs;
    NodeRejected(Small([n], []), n);
  }

  lemma UnboundRejected()
    ensures !Accepted(Small([ONE, TWO], []), SmallRules())
  {
    var g := Small([ONE, TWO], []);
    assert g.nodes[1] == TWO;
    assert EdgesAt(g.edges, TWO.id, "in") == {} && NamesAt(g.inputs, TWO.id, "in") == {};
    assert Ways(g, TWO, "in") == 0 && "in" in Entry(SmallRules(), TWO).required;
    NodeRejected(g, TWO);
  }

  /** A literal and an edge on one port. */
  lemma BoundTwiceRejected()
    ensures !Accepted(Small([ONE, Number(1, map["in" := Num(2)])], [LINK]), SmallRules())
  {
    var n := Number(1, map["in" := Num(2)]);
    var g := Small([ONE, n], [LINK]);
    assert g.nodes[1] == n;
    assert EdgesAt(g.edges, n.id, "in") == {0} && NamesAt(g.inputs, n.id, "in") == {};
    assert Ways(g, n, "in") == 2 && "in" in Entry(SmallRules(), n).required;
    NodeRejected(g, n);
  }

  /** Two edges on an optional port. */
  lemma OptionalBoundTwiceRejected()
    ensures !Accepted(Small([ONE, Node(Base(1), "maybe", "1", map[], map[])], [LINK, LINK]), SmallRules())
  {
    var n := Node(Base(1), "maybe", "1", map[], map[]);
    var g := Small([ONE, n], [LINK, LINK]);
    assert g.nodes[1] == n;
    assert EdgesAt(g.edges, n.id, "in") == {0, 1} && NamesAt(g.inputs, n.id, "in") == {};
    assert Ways(g, n, "in") == 2 && "in" in Entry(SmallRules(), n).inputPorts;
    NodeRejected(g, n);
  }

  lemma UnboundedLoopRejected()
    ensures !Accepted(Small([ONE, Node(Base(1), "ng.control.for_each", "1", map[], map["max_iterations" := Num(0)])], []), SmallRules())
  {
    var n := Node(Base(1), "ng.control.for_each", "1", map[], map["max_iterations" := Num(0)]);
    var g := Small([ONE, n], []);
    assert g.nodes[1] == n;
    NodeRejected(g, n);
  }

  lemma LongLoopRejected()
    ensures !Accepted(Small([ONE, Node(Base(1), "ng.control.for_each", "1", map["items" := Arr([Null, Null, Null])], map[])], []), SmallRules())
  {
    var n := Node(Base(1), "ng.control.for_each", "1", map["items" := Arr([Null, Null, Null])], map[]);
    var g := Small([ONE, n], []);
    assert g.nodes[1] == n;
    NodeRejected(g, n);
  }

  lemma DanglingInputRejected()
    ensures !Accepted(Small([ONE], []).(inputs := map["x" := Binding(Base(0), "out")]), SmallRules())
  {
    var g := Small([ONE], []).(inputs := map["x" := Binding(Base(0), "out")]);
    assert "x" in g.inputs && !Enters(g, SmallRules(), g.inputs["x"]);
    hide NodeFits, Enters, Leaves, Connected;
    AcceptedIff(g, SmallRules());
  }

  lemma DanglingOutputRejected()
    ensures !Accepted(Small([ONE], []).(outputs := map["x" := Binding(Base(0), "in")]), SmallRules())
  {
    var g := Small([ONE], []).(outputs := map["x" := Binding(Base(0), "in")]);
    assert "x" in g.outputs && !Leaves(g, SmallRules(), g.outputs["x"]);
    hide NodeFits, Enters, Leaves, Connected;
    AcceptedIff(g, SmallRules());
  }

  /** Two nodes that feed each other. */
  lemma CycleRejected()
    ensures !Accepted(Small([Number(0, map[]), TWO], [LINK, Edge(Base(1), "out", Base(0), "in")]), SmallRules())
  {
    var back := Edge(Base(1), "out", Base(0), "in");
    var g := Small([Number(0, map[]), TWO], [LINK, back]);
    assert g.edges[0] == LINK && g.edges[1] == back;
    assert Joined(g.edges, Base(0), Base(1)) && Joined(g.edges, Base(1), Base(0));
    var p := [Base(0), Base(1), Base(0)];
    assert Walk(g.edges, p) && p[0] == p[|p| - 1];
    hide NodeFits, Enters, Leaves, Connected, Walk;
    AcceptedIff(g, SmallRules());
  }
}
