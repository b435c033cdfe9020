/**
 * The ring graph that `fetchImagesByClass` builds from the array returned by
 * `/get_images_by_class/`: one node per item, in input order, and one link from
 * every node to the next one, the last node linking back to the first.
 */
module RingGraph {

  import opened Wrappers

  /** One element of the response array, reduced to the `id` the builder reads. */
  datatype Item = Item(id: string)

  /** A graph node: the item's id and the path its picture is loaded from. */
  datatype Node = Node(id: string, url: string)

  /** A directed link between two node ids. */
  datatype Link = Link(source: string, target: string)

  /** The `{ nodes, links }` value handed to the force-graph component. */
  datatype Graph = Graph(nodes: seq<Node>, links: seq<Link>)

  const ImagesPrefix: string := "/images/"

  /** The path a node's picture is served from: the prefix followed by the id. */
  function ImageUrl(id: string): (u: string)
    ensures |u| == |ImagesPrefix| + |id|
    ensures u[..|ImagesPrefix|] == ImagesPrefix && u[|ImagesPrefix|..] == id
  {
    ImagesPrefix + id
  }

  /** Two different ids never share a picture path. */
  lemma ImageUrlInjective(a: string, b: string)
    ensures ImageUrl(a) == ImageUrl(b) <==> a == b
  {
    if ImageUrl(a) == ImageUrl(b) {
      assert a == ImageUrl(a)[|ImagesPrefix|..] == ImageUrl(b)[|ImagesPrefix|..] == b;
    }
  }

  /** The position after `i` in a ring of `n` positions, as `(i + 1) % n` computes it. */
  function NextIndex(i: nat, n: nat): (j: nat)
    requires i < n
    ensures j < n
    ensures j == if i + 1 < n then i + 1 else 0
  {
    (i + 1) % n
  }

  function NodeOf(item: Item): Node
  {
    Node(item.id, ImageUrl(item.id))
  }

  /** The `result.data.map(...)` step: one node per item, same order, no deduplication. */
  function BuildNodes(items: seq<Item>): (nodes: seq<Node>)
    ensures |nodes| == |items|
    ensures forall i :: 0 <= i < |items| ==>
              nodes[i].id == items[i].id && nodes[i].url == ImageUrl(items[i].id)
  {
    if items == [] then [] else [NodeOf(items[0])] + BuildNodes(items[1..])
  }

  /** The links built for the nodes from position `i` on. */
  function LinksFrom(nodes: seq<Node>, i: nat): (links: seq<Link>)
    requires i <= |nodes|
    ensures |links| == |nodes| - i
    ensures forall k :: 0 <= k < |links| ==>
              links[k].source == nodes[i + k].id && links[k].target == nodes[NextIndex(i + k, |nodes|)].id
    decreases |nodes| - i
  {
    if i == |nodes| then []
    else [Link(nodes[i].id, nodes[NextIndex(i, |nodes|)].id)] + LinksFrom(nodes, i + 1)
  }

  /** The `nodes.map((node, i) => ...)` step: link `i` runs from node `i` to node `(i + 1) % n`. */
  function BuildLinks(nodes: seq<Node>): (links: seq<Link>)
    ensures |links| == |nodes|
    ensures forall i :: 0 <= i < |nodes| ==>
              links[i].source == nodes[i].id && links[i].target == nodes[NextIndex(i, |nodes|)].id
  {
    LinksFrom(nodes, 0)
  }

  /** Every node's url is derived from its id. */
  ghost predicate UrlsDerived(nodes: seq<Node>)
  {
    forall i :: 0 <= i < |nodes| ==> nodes[i].url == ImageUrl(nodes[i].id)
  }

  /** The shape of every graph the builder produces: a directed cycle through the nodes in order. */
  ghost predicate WellFormedRing(g: Graph)
  {
    && UrlsDerived(g.nodes)
    && |g.links| == |g.nodes|
    && forall i :: 0 <= i < |g.links| ==>
         g.links[i].source == g.nodes[i].id && g.links[i].target == g.nodes[NextIndex(i, |g.nodes|)].id
  }

  function Ids(nodes: seq<Node>): (ids: seq<string>)
    ensures |ids| == |nodes| && forall i :: 0 <= i < |nodes| ==> ids[i] == nodes[i].id
  {
    seq(|nodes|, i requires 0 <= i < |nodes| => nodes[i].id)
  }

  function Sources(links: seq<Link>): (ids: seq<string>)
    ensures |ids| == |links| && forall i :: 0 <= i < |links| ==> ids[i] == links[i].source
  {
    seq(|links|, i requires 0 <= i < |links| => links[i].source)
  }

  function Targets(links: seq<Link>): (ids: seq<string>)
    ensures |ids| == |links| && forall i :: 0 <= i < |links| ==> ids[i] == links[i].target
  {
    seq(|links|, i requires 0 <= i < |links| => links[i].target)
  }

  /**
   * The whole builder (App.js lines 26-33). The node ids are the item ids,
   * in order and with repetitions; the graph is a well-formed ring.
   */
  function BuildRing(items: seq<Item>): (g: Graph)
    ensures |g.nodes| == |items| && forall i :: 0 <= i < |items| ==> g.nodes[i].id == items[i].id
    ensures WellFormedRing(g)
  {
    var nodes := BuildNodes(items);
    Graph(nodes, BuildLinks(nodes))
  }

  /** An empty response gives the empty graph: no nodes and no links. */
  lemma EmptyResponseEmptyGraph()
    ensures BuildRing([]) == Graph([], [])
  {
  }

  /** A one-item response gives one node with a self-loop, not zero links. */
  lemma SingleItemSelfLoop(x: string)
    ensures BuildRing([Item(x)]).links == [Link(x, x)]
  {
    var g := BuildRing([Item(x)]);
    assert g.links[0] == Link(x, x);
  }

  /** Each link's target is the next link's source: the links chain into a closed walk. */
  lemma LinksChain(g: Graph, i: nat)
    requires WellFormedRing(g) && i < |g.links|
    ensures g.links[i].target == g.links[NextIndex(i, |g.links|)].source
  {
  }

  /** Every link endpoint is the id of some node of the same graph. */
  lemma EndpointsAreNodes(g: Graph)
    requires WellFormedRing(g)
    ensures forall l :: l in g.links ==> l.source in Ids(g.nodes) && l.target in Ids(g.nodes)
  {
    var ids := Ids(g.nodes);
    forall l | l in g.links
      ensures l.source in ids && l.target in ids
    {
      var i :| 0 <= i < |g.links| && g.links[i] == l;
      var j := NextIndex(i, |g.nodes|);
      assert ids[i] == l.source;
      assert ids[j] == l.target;
    }
  }

  /**
   * Every id has as many outgoing links and as many incoming links as there
   * are nodes carrying it: the sources are the node ids in order, the targets
   * are the node ids rotated by one.
   */
  lemma DegreeBalance(g: Graph)
    requires WellFormedRing(g)
    ensures multiset(Sources(g.links)) == multiset(Ids(g.nodes))
    ensures multiset(Targets(g.links)) == multiset(Ids(g.nodes))
  {
    var ids := Ids(g.nodes);
    assert Sources(g.links) == ids;
    if ids != [] {
      assert Targets(g.links) == ids[1..] + ids[..1];
      RotationPreservesMultiset(ids);
    }
  }

  lemma RotationPreservesMultiset(s: seq<string>)
    requires s != []
    ensures multiset(s[1..] + s[..1]) == multiset(s)
  {
    assert s[..1] + s[1..] == s;
    calc {
      multiset(s[1..] + s[..1]);
      multiset(s[1..]) + multiset(s[..1]);
      multiset(s[..1] + s[1..]);
    }
  }

  /** No two nodes share an id. */
  ghost predicate DistinctIds(nodes: seq<Node>)
  {
    forall i, j :: 0 <= i < j < |nodes| ==> nodes[i].id != nodes[j].id
  }

  /** The target of the first link leaving `id`, if any link leaves it. */
  function Successor(links: seq<Link>, id: string): Option<string>
  {
    if links == [] then None
    else if links[0].source == id then Some(links[0].target)
    else Successor(links[1..], id)
  }

  /** The id reached from `start` after following `k` links, if the walk never gets stuck. */
  function Walk(links: seq<Link>, start: string, k: nat): Option<string>
  {
    if k == 0 then Some(start)
    else match Walk(links, start, k - 1)
      case None => None
      case Some(here) => Successor(links, here)
  }

  lemma {:induction false} SuccessorAtFirstMatch(links: seq<Link>, id: string, i: nat)
    requires i < |links| && links[i].source == id
    requires forall j :: 0 <= j < i ==> links[j].source != id
    ensures Successor(links, id) == Some(links[i].target)
  {
    if i > 0 {
      SuccessorAtFirstMatch(links[1..], id, i - 1);
    }
  }

  /** In a ring with distinct ids, the link leaving node `p` goes to node `(p + 1) % n`. */
  lemma RingSuccessor(g: Graph, p: nat)
    requires WellFormedRing(g) && DistinctIds(g.nodes) && p < |g.nodes|
    ensures Successor(g.links, g.nodes[p].id) == Some(g.nodes[NextIndex(p, |g.nodes|)].id)
  {
    SuccessorAtFirstMatch(g.links, g.nodes[p].id, p);
  }

  /**
   * With distinct ids the links form ONE cycle through all nodes: walking from
   * the first node visits the nodes in input order, one per step.
   */
  lemma {:induction false} WalkVisitsInOrder(g: Graph, k: nat)
    requires WellFormedRing(g) && DistinctIds(g.nodes) && k < |g.nodes|
    ensures Walk(g.links, g.nodes[0].id, k) == Some(g.nodes[k].id)
  {
    if k > 0 {
      WalkVisitsInOrder(g, k - 1);
      RingSuccessor(g, k - 1);
    }
  }

  /**
   * The cycle has length exactly n: after n steps the walk is back at the first
   * node and it is not there after any smaller positive number of steps.
   */
  lemma SingleCycle(g: Graph)
    requires WellFormedRing(g) && DistinctIds(g.nodes) && |g.nodes| > 0
    ensures Walk(g.links, g.nodes[0].id, |g.nodes|) == Some(g.nodes[0].id)
    ensures forall k :: 0 < k < |g.nodes| ==> Walk(g.links, g.nodes[0].id, k) != Some(g.nodes[0].id)
  {
    var n := |g.nodes|;
    WalkVisitsInOrder(g, n - 1);
    RingSuccessor(g, n - 1);
    forall k | 0 < k < n
      ensures Walk(g.links, g.nodes[0].id, k) != Some(g.nodes[0].id)
    {
      WalkVisitsInOrder(g, k);
    }
  }
}
