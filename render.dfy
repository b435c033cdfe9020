/**
 * The draw decision of `nodeCanvasObject` (App.js lines 67-73): a node is
 * painted as its cached picture when the cache has an entry for its id, and
 * nothing is painted otherwise.
 */
module Render {

  import opened Wrappers
  import opened RingGraph
  import opened ImageCache

  /** The picture drawn for a node, if any. */
  function NodeImage(cache: Cache, node: Node): (img: Option<Bitmap>)
    ensures img.Some? <==> node.id in cache
    ensures img.Some? ==> img.value == cache[node.id]
  {
    if node.id in cache then Some(cache[node.id]) else None
  }

  /** In a faithful cache the picture drawn for a node is the one loaded from the node's own url. */
  lemma DrawnImageIsNodesOwn(cache: Cache, node: Node)
    requires Faithful(cache) && node.url == ImageUrl(node.id)
    ensures NodeImage(cache, node).Some? ==> NodeImage(cache, node).value.src == node.url
  {
  }

  /** A finished load makes its node drawn with the loaded picture and changes no other node's drawing. */
  lemma CompleteDrawsOnlyItsNode(cache: Cache, l: Load, node: Node)
    ensures NodeImage(Complete(cache, l), node) ==
            if node.id == l.id then Some(Bitmap(l.url)) else NodeImage(cache, node)
  {
  }

  /** A node that is drawn stays drawn whatever loads finish later. */
  lemma StaysDrawn(cache: Cache, ls: seq<Load>, node: Node)
    requires NodeImage(cache, node).Some?
    ensures NodeImage(Completions(cache, ls), node).Some?
  {
    CompletionsGrow(cache, ls);
  }

  /**
   * After a pass of the effect, once every load it started has finished, in
   * any order and among any other loads, every node of the graph is drawn.
   */
  lemma AllDrawnOnceLoadsFinish(nodes: seq<Node>, cache: Cache, ls: seq<Load>)
    requires forall l :: l in LoadsFor(nodes, cache) ==> l in ls
    ensures forall i :: 0 <= i < |nodes| ==> NodeImage(Completions(cache, ls), nodes[i]).Some?
  {
    CompletionsGrow(cache, ls);
    forall i | 0 <= i < |nodes|
      ensures NodeImage(Completions(cache, ls), nodes[i]).Some?
    {
      if nodes[i].id !in cache {
        UncachedNodesGetLoads(nodes, cache, i);
      }
    }
  }
}
