/** The link graph of a bundle. */
module Graph {
  import opened Wrappers
  import opened Links
  import opened Sorting

  datatype Concept = Concept(path: string, title: Option<string>, kind: string, body: string)

  datatype Node = Node(id: string, title: string, kind: string)

  /** An edge or a broken link. */
  datatype Link = Link(from: string, target: string)

  datatype LinkGraph = LinkGraph(nodes: map<string, Node>, edges: seq<Link>, broken: seq<Link>, orphans: seq<string>)

  predicate LinkBefore(a: Link, b: Link) {
    Before(a.from, b.from) || (a.from == b.from && Before(a.target, b.target))
  }

  lemma LinkOrder()
    ensures IsOrder(LinkBefore)
  {
    TextOrder();
  }

  // ---------------------------------------------------------------------
  // What the graph is.

  function Paths(concepts: seq<Concept>): set<string> {
    set c | c in concepts :: c.path
  }

  function LinksOf(concept: Concept): set<Link> {
    set t | t in ScanLinks(concept.body) :: Link(concept.path, t)
  }

  /** Every scanned link, with the concept it stands in. */
  function AllLinks(concepts: seq<Concept>): set<Link> {
    set c, l | c in concepts && l in LinksOf(c) :: l
  }

  function EdgeSet(concepts: seq<Concept>): set<Link> {
    set l | l in AllLinks(concepts) && l.target in Paths(concepts)
  }

  function BrokenSet(concepts: seq<Concept>): set<Link> {
    set l | l in AllLinks(concepts) && l.target !in Paths(concepts)
  }

  /** Concepts no scanned link leaves or reaches, broken ones included. */
  function OrphanSet(concepts: seq<Concept>): set<string> {
    set p | p in Paths(concepts) && !Touched(AllLinks(concepts), p)
  }

  predicate Touched(links: set<Link>, path: string) {
    exists l :: l in links && (l.from == path || l.target == path)
  }

  function NodeOf(concept: Concept): Node {
    Node(concept.path, if concept.title.Some? then concept.title.value else concept.path, concept.kind)
  }

  /** The last concept under a path names its node. */
  function NodesUpTo(concepts: seq<Concept>, k: nat): map<string, Node>
    requires k <= |concepts|
  {
    if k == 0 then map[] else NodesUpTo(concepts, k - 1)[concepts[k - 1].path := NodeOf(concepts[k - 1])]
  }

  /** What `build_graph` promises. */
  ghost predicate IsGraphOf(graph: LinkGraph, concepts: seq<Concept>) {
    && graph.nodes == NodesUpTo(concepts, |concepts|)
    && StrictlySorted(graph.edges, LinkBefore) && (forall l :: l in graph.edges <==> l in EdgeSet(concepts))
    && StrictlySorted(graph.broken, LinkBefore) && (forall l :: l in graph.broken <==> l in BrokenSet(concepts))
    && StrictlySorted(graph.orphans, Before) && (forall p :: p in graph.orphans <==> p in OrphanSet(concepts))
  }

  method BuildGraph(concepts: seq<Concept>) returns (graph: LinkGraph)
    ensures IsGraphOf(graph, concepts)
  {
    var nodes := CollectNodes(concepts);
    var known := set c | c in concepts :: c.path;
    var edges, broken, linked := SplitLinks(concepts, known);
    NodeKeys(concepts, |concepts|);
    assert concepts[..|concepts|] == concepts;
    var orphans := set p | p in nodes.Keys && p !in linked;
    LinkOrder();
    TextOrder();
    var sortedEdges := SortSet(edges, LinkBefore);
    var sortedBroken := SortSet(broken, LinkBefore);
    var sortedOrphans := SortSet(orphans, Before);
    graph := LinkGraph(nodes, sortedEdges, sortedBroken, sortedOrphans);
  }

  method CollectNodes(concepts: seq<Concept>) returns (nodes: map<string, Node>)
    ensures nodes == NodesUpTo(concepts, |concepts|)
  {
    nodes := map[];
    for k := 0 to |concepts|
      invariant nodes == NodesUpTo(concepts, k)
    {
      var concept := concepts[k];
      nodes := nodes[concept.path := NodeOf(concept)];
    }
  }

  /** The links read so far, apart by whether the target is known, and their ends. */
  ghost predicate Divided(links: set<Link>, known: set<string>, edges: set<Link>, broken: set<Link>,
                          linked: set<string>) {
    && (forall l :: l in edges <==> l in links && l.target in known)
    && (forall l :: l in broken <==> l in links && l.target !in known)
    && (forall p :: p in linked <==> Touched(links, p))
  }

  lemma DivideOne(links: set<Link>, known: set<string>, edges: set<Link>, broken: set<Link>, linked: set<string>,
                  l: Link)
    requires Divided(links, known, edges, broken, linked)
    ensures Divided(links + {l}, known, if l.target in known then edges + {l} else edges,
                    if l.target in known then broken else broken + {l}, linked + {l.from} + {l.target})
  {
    forall p
      ensures Touched(links + {l}, p) <==> Touched(links, p) || p == l.from || p == l.target
    {
      if Touched(links, p) {
        var m :| m in links && (m.from == p || m.target == p);
        assert m in links + {l};
      }
      assert l in links + {l};
    }
  }

  method SplitLinks(concepts: seq<Concept>, known: set<string>)
    returns (edges: set<Link>, broken: set<Link>, linked: set<string>)
    ensures Divided(AllLinks(concepts), known, edges, broken, linked)
  {
    edges, broken, linked := {}, {}, {};
    for k := 0 to |concepts|
      invariant Divided(AllLinks(concepts[..k]), known, edges, broken, linked)
    {
      var concept := concepts[k];
      edges, broken, linked := SplitLinksOf(concept, known, AllLinks(concepts[..k]), edges, broken, linked);
      assert concepts[..k + 1] == concepts[..k] + [concept];
      assert AllLinks(concepts[..k + 1]) == AllLinks(concepts[..k]) + LinksOf(concept);
    }
    assert concepts[..|concepts|] == concepts;
  }

  method SplitLinksOf(concept: Concept, known: set<string>, ghost links: set<Link>,
                      edges0: set<Link>, broken0: set<Link>, linked0: set<string>)
    returns (edges: set<Link>, broken: set<Link>, linked: set<string>)
    requires Divided(links, known, edges0, broken0, linked0)
    ensures Divided(links + LinksOf(concept), known, edges, broken, linked)
  {
    edges, broken, linked := edges0, broken0, linked0;
    var targets := Scan(concept.body);
    ghost var seen := links;
    for j := 0 to |targets|
      invariant Divided(seen, known, edges, broken, linked)
      invariant seen == links + set t | t in targets[..j] :: Link(concept.path, t)
    {
      var target := targets[j];
      DivideOne(seen, known, edges, broken, linked, Link(concept.path, target));
      if target in known {
        edges := edges + {Link(concept.path, target)};
      } else {
        broken := broken + {Link(concept.path, target)};
      }
      linked := linked + {concept.path};
      linked := linked + {target};
      assert targets[..j + 1] == targets[..j] + [target];
      seen := seen + {Link(concept.path, target)};
    }
    assert targets[..|targets|] == targets;
  }

  lemma {:induction false} NodeKeys(concepts: seq<Concept>, k: nat)
    requires k <= |concepts|
    ensures NodesUpTo(concepts, k).Keys == Paths(concepts[..k])
  {
    if k > 0 {
      NodeKeys(concepts, k - 1);
      assert concepts[..k] == concepts[..k - 1] + [concepts[k - 1]];
    }
  }

  // ---------------------------------------------------------------------
  // What follows.

  /** No link is both an edge and broken, and together they are every scanned link. */
  lemma EdgesApart(graph: LinkGraph, concepts: seq<Concept>, l: Link)
    requires IsGraphOf(graph, concepts)
    ensures !(l in graph.edges && l in graph.broken)
    ensures l in graph.edges || l in graph.broken
            <==> exists c :: c in concepts && c.path == l.from && l.target in ScanLinks(c.body)
  {
    if c :| c in concepts && c.path == l.from && l.target in ScanLinks(c.body) {
      assert l == Link(c.path, l.target) && l in LinksOf(c);
      assert l in AllLinks(concepts);
    }
  }

  ghost predicate SameConcepts(a: seq<Concept>, b: seq<Concept>) {
    forall c :: c in a <==> c in b
  }

  lemma SameSets(a: seq<Concept>, b: seq<Concept>)
    requires SameConcepts(a, b)
    ensures Paths(a) == Paths(b) && AllLinks(a) == AllLinks(b)
    ensures EdgeSet(a) == EdgeSet(b) && BrokenSet(a) == BrokenSet(b) && OrphanSet(a) == OrphanSet(b)
  {
    assert Paths(a) == Paths(b);
    assert AllLinks(a) == AllLinks(b);
  }

  /** The order in which concepts are read does not show in the lists of the graph. */
  lemma OrderIndependent(g: LinkGraph, h: LinkGraph, a: seq<Concept>, b: seq<Concept>)
    requires IsGraphOf(g, a) && IsGraphOf(h, b) && SameConcepts(a, b)
    ensures g.edges == h.edges && g.broken == h.broken && g.orphans == h.orphans
  {
    SameSets(a, b);
    LinkOrder();
    TextOrder();
    SortedUnique(g.edges, h.edges, LinkBefore);
    SortedUnique(g.broken, h.broken, LinkBefore);
    SortedUnique(g.orphans, h.orphans, Before);
  }

  /** Nor in the nodes, if no two concepts share a path. */
  lemma NodesIndependent(a: seq<Concept>, b: seq<Concept>)
    requires SameConcepts(a, b)
    requires forall c, d :: c in a && d in a && c.path == d.path ==> c == d
    ensures NodesUpTo(a, |a|) == NodesUpTo(b, |b|)
  {
    NodeKeys(a, |a|);
    NodeKeys(b, |b|);
    assert a[..|a|] == a && b[..|b|] == b;
    SameSets(a, b);
    forall p | p in NodesUpTo(a, |a|)
      ensures NodesUpTo(a, |a|)[p] == NodesUpTo(b, |b|)[p]
    {
      var c := NodeFrom(a, |a|, p);
      var d := NodeFrom(b, |b|, p);
    }
  }

  lemma {:induction false} NodeFrom(concepts: seq<Concept>, k: nat, p: string) returns (c: Concept)
    requires k <= |concepts| && p in NodesUpTo(concepts, k)
    ensures c in concepts && c.path == p && NodesUpTo(concepts, k)[p] == NodeOf(c)
  {
    if concepts[k - 1].path == p {
      c := concepts[k - 1];
    } else {
      c := NodeFrom(concepts, k - 1, p);
    }
  }

  /** A concept is an orphan when it has no edge and no broken link of its own: one whose
      only link is broken is not an orphan. */
  lemma OrphanExact(graph: LinkGraph, concepts: seq<Concept>, p: string)
    requires IsGraphOf(graph, concepts) && p in Paths(concepts)
    ensures p in graph.orphans
            <==> (forall l :: l in graph.edges ==> l.from != p && l.target != p)
                 && (forall l :: l in graph.broken ==> l.from != p)
  {
  }
}
