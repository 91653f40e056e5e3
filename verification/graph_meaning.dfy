/** What a link graph says of the concepts it is built from. */
module GraphMeaning {
  import opened Wrappers
  import opened Links
  import opened Sorting
  import opened Graph

  ghost predicate IsPath(concepts: seq<Concept>, path: string) {
    exists c :: c in concepts && c.path == path
  }

  /** Some concept at `from` has a link to `target`. */
  ghost predicate LinksTo(concepts: seq<Concept>, from: string, target: string) {
    exists c :: c in concepts && c.path == from && target in ScanLinks(c.body)
  }

  lemma AllLinksAre(concepts: seq<Concept>, l: Link)
    ensures l in AllLinks(concepts) <==> LinksTo(concepts, l.from, l.target)
  {
    if LinksTo(concepts, l.from, l.target) {
      var c :| c in concepts && c.path == l.from && l.target in ScanLinks(c.body);
      assert l == Link(c.path, l.target) && l in LinksOf(c);
    }
  }

  /** An edge is a link to a path that is there, a broken link one to a path that is not. */
  lemma EdgesExact(graph: LinkGraph, concepts: seq<Concept>, from: string, target: string)
    requires IsGraphOf(graph, concepts)
    ensures Link(from, target) in graph.edges <==> LinksTo(concepts, from, target) && IsPath(concepts, target)
    ensures Link(from, target) in graph.broken <==> LinksTo(concepts, from, target) && !IsPath(concepts, target)
  {
    AllLinksAre(concepts, Link(from, target));
  }

  /** An orphan is a path no link leaves and no link reaches. */
  lemma OrphansExact(graph: LinkGraph, concepts: seq<Concept>, path: string)
    requires IsGraphOf(graph, concepts)
    ensures path in graph.orphans
            <==> && IsPath(concepts, path)
                 && forall other: string :: !LinksTo(concepts, path, other) && !LinksTo(concepts, other, path)
  {
    if Touched(AllLinks(concepts), path) {
      var l :| l in AllLinks(concepts) && (l.from == path || l.target == path);
      AllLinksAre(concepts, l);
      assert LinksTo(concepts, path, l.target) || LinksTo(concepts, l.from, path);
    } else {
      forall other: string
        ensures !LinksTo(concepts, path, other) && !LinksTo(concepts, other, path)
      {
        AllLinksAre(concepts, Link(path, other));
        AllLinksAre(concepts, Link(other, path));
      }
    }
  }

  ghost predicate IsLastAt(concepts: seq<Concept>, k: nat, path: string) {
    && k < |concepts| && concepts[k].path == path
    && forall j :: k < j < |concepts| ==> concepts[j].path != path
  }

  lemma {:induction false} LastNamesNode(concepts: seq<Concept>, k: nat, n: nat, path: string)
    requires k < n <= |concepts| && concepts[k].path == path
    requires forall j :: k < j < n ==> concepts[j].path != path
    ensures path in NodesUpTo(concepts, n) && NodesUpTo(concepts, n)[path] == NodeOf(concepts[k])
  {
    if k < n - 1 {
      LastNamesNode(concepts, k, n - 1, path);
    }
  }

  /** There is a node for each path; it shows the title, or the path without one, and the
      kind of the last concept there. */
  lemma NodesExact(graph: LinkGraph, concepts: seq<Concept>, k: nat, path: string)
    requires IsGraphOf(graph, concepts)
    ensures path in graph.nodes <==> IsPath(concepts, path)
    ensures IsLastAt(concepts, k, path) ==>
              && path in graph.nodes && graph.nodes[path].id == path && graph.nodes[path].kind == concepts[k].kind
              && graph.nodes[path].title
                 == (if concepts[k].title.None? then path else concepts[k].title.value)
  {
    NodeKeys(concepts, |concepts|);
    assert concepts[..|concepts|] == concepts;
    assert path in Paths(concepts) <==> IsPath(concepts, path);
    if IsLastAt(concepts, k, path) {
      LastNamesNode(concepts, k, |concepts|, path);
    }
  }

  /** The listings are in dictionary order, edges by where they start and then by where
      they lead; nothing is listed twice. */
  lemma ListingsOrdered(graph: LinkGraph, concepts: seq<Concept>, i: nat, j: nat)
    requires IsGraphOf(graph, concepts) && i < j
    ensures j < |graph.edges| ==> Ascends(graph.edges[i], graph.edges[j])
    ensures j < |graph.broken| ==> Ascends(graph.broken[i], graph.broken[j])
    ensures j < |graph.orphans| ==> Precedes(graph.orphans[i], graph.orphans[j])
  {
    if j < |graph.edges| {
      LinkAscends(graph.edges[i], graph.edges[j]);
    }
    if j < |graph.broken| {
      LinkAscends(graph.broken[i], graph.broken[j]);
    }
    if j < |graph.orphans| {
      BeforeIsPrecedes(graph.orphans[i], graph.orphans[j]);
    }
  }

  ghost predicate Ascends(a: Link, b: Link) {
    Precedes(a.from, b.from) || (a.from == b.from && Precedes(a.target, b.target))
  }

  lemma LinkAscends(a: Link, b: Link)
    requires LinkBefore(a, b)
    ensures Ascends(a, b)
  {
    BeforeIsPrecedes(a.from, b.from);
    BeforeIsPrecedes(a.target, b.target);
  }
}
