/**
 * The `images` cache of the view (App.js lines 43-51): a map from node id to a
 * loaded picture. Each pass of the effect starts one load for every node whose
 * id has no entry yet; each load that finishes merges exactly its own entry.
 * Loads finish in any order, and a load that fails never finishes.
 */
module ImageCache {

  import opened RingGraph

  /** A loaded browser image, known by the path it was loaded from. */
  datatype Bitmap = Bitmap(src: string)

  /** An outstanding image load: the key its `onload` files the image under and the path it fetches. */
  datatype Load = Load(id: string, url: string)

  /** The `images` state: node id to loaded image. */
  type Cache = map<string, Bitmap>

  /** The load `new Image()` with `img.src = node.url` starts for a node. */
  function LoadOf(node: Node): Load
  {
    Load(node.id, node.url)
  }

  /** The load every node would start if none of them were cached. */
  function NodeLoads(nodes: seq<Node>): (loads: seq<Load>)
    ensures |loads| == |nodes| && forall i :: 0 <= i < |nodes| ==> loads[i] == LoadOf(nodes[i])
  {
    if nodes == [] then [] else NodeLoads(nodes[..|nodes| - 1]) + [LoadOf(nodes[|nodes| - 1])]
  }

  /**
   * The loads one pass of the effect starts, in the order `forEach` visits the
   * nodes: one for each node whose id had no entry when the pass began, and
   * none for the others. A repeated uncached id is loaded once per occurrence.
   */
  function LoadsFor(nodes: seq<Node>, cache: Cache): (loads: seq<Load>)
    ensures |loads| <= |nodes|
    ensures forall j :: 0 <= j < |loads| ==> loads[j].id !in cache
  {
    if nodes == [] then []
    else
      var last := nodes[|nodes| - 1];
      LoadsFor(nodes[..|nodes| - 1], cache) + if last.id in cache then [] else [LoadOf(last)]
  }

  /**
   * Exactly one load per node whose id is uncached, none for the others: the
   * number of times a load is started equals the number of nodes that would
   * start it, or zero when its id already has an entry.
   */
  lemma {:induction false} LoadsForCount(nodes: seq<Node>, cache: Cache, l: Load)
    ensures multiset(LoadsFor(nodes, cache))[l] == if l.id in cache then 0 else multiset(NodeLoads(nodes))[l]
  {
    if nodes != [] {
      var init, last := nodes[..|nodes| - 1], nodes[|nodes| - 1];
      LoadsForCount(init, cache, l);
      if last.id in cache {
        assert LoadsFor(nodes, cache) == LoadsFor(init, cache);
      } else {
        assert LoadsFor(nodes, cache) == LoadsFor(init, cache) + [LoadOf(last)];
      }
    }
  }

  /** One more step of the pass: the loads for a longer prefix of the nodes. */
  lemma LoadsForExtend(nodes: seq<Node>, cache: Cache, i: nat)
    requires i < |nodes|
    ensures LoadsFor(nodes[..i + 1], cache) ==
            LoadsFor(nodes[..i], cache) + if nodes[i].id in cache then [] else [LoadOf(nodes[i])]
  {
    assert nodes[..i + 1][..i] == nodes[..i];
  }

  /** Every load a pass starts is one some node of the pass would start. */
  lemma LoadsComeFromNodes(nodes: seq<Node>, cache: Cache, l: Load)
    requires l in LoadsFor(nodes, cache)
    ensures l.id !in cache
    ensures exists i :: 0 <= i < |nodes| && nodes[i].id == l.id && nodes[i].url == l.url
  {
    LoadsForCount(nodes, cache, l);
    assert l in NodeLoads(nodes);
  }

  /** Every node whose id is uncached when the pass begins gets a load. */
  lemma UncachedNodesGetLoads(nodes: seq<Node>, cache: Cache, i: nat)
    requires i < |nodes| && nodes[i].id !in cache
    ensures LoadOf(nodes[i]) in LoadsFor(nodes, cache)
  {
    LoadsForCount(nodes, cache, LoadOf(nodes[i]));
    assert NodeLoads(nodes)[i] == LoadOf(nodes[i]);
  }

  /** A pass over nodes whose urls are derived from their ids only starts loads from the id's own path. */
  lemma LoadUrlsDerived(nodes: seq<Node>, cache: Cache)
    requires UrlsDerived(nodes)
    ensures forall j :: 0 <= j < |LoadsFor(nodes, cache)| ==>
              LoadsFor(nodes, cache)[j].url == ImageUrl(LoadsFor(nodes, cache)[j].id)
  {
    var loads := LoadsFor(nodes, cache);
    forall j | 0 <= j < |loads|
      ensures loads[j].url == ImageUrl(loads[j].id)
    {
      LoadsComeFromNodes(nodes, cache, loads[j]);
    }
  }

  /** A pass over a graph with two nodes of the same uncached id starts two loads for it. */
  lemma RepeatedIdLoadsTwice(x: string)
    ensures LoadsFor([Node(x, ImageUrl(x)), Node(x, ImageUrl(x))], map[]) == [Load(x, ImageUrl(x)), Load(x, ImageUrl(x))]
  {
  }

  /** The `onload` merge `{ ...images, [node.id]: img }`: adds or overwrites the load's own entry only. */
  function Complete(cache: Cache, l: Load): (c: Cache)
    ensures c.Keys == cache.Keys + {l.id}
    ensures c[l.id] == Bitmap(l.url)
    ensures forall x :: x in cache && x != l.id ==> c[x] == cache[x]
  {
    cache[l.id := Bitmap(l.url)]
  }

  /** The cache after the given loads finish, one after the other, in that order. */
  function Completions(cache: Cache, ls: seq<Load>): Cache
    decreases |ls|
  {
    if ls == [] then cache else Completions(Complete(cache, ls[0]), ls[1..])
  }

  /** The ids the given loads file their pictures under. */
  function LoadIds(ls: seq<Load>): set<string>
  {
    set l | l in ls :: l.id
  }

  /**
   * Whatever order loads finish in, the cache never loses an entry, gains exactly
   * the ids of the finished loads, and keeps every other entry as it was.
   */
  lemma {:induction false} CompletionsGrow(cache: Cache, ls: seq<Load>)
    ensures Completions(cache, ls).Keys == cache.Keys + LoadIds(ls)
    ensures forall x :: x in cache && x !in LoadIds(ls) ==> Completions(cache, ls)[x] == cache[x]
    decreases |ls|
  {
    if ls != [] {
      CompletionsGrow(Complete(cache, ls[0]), ls[1..]);
      assert LoadIds(ls) == {ls[0].id} + LoadIds(ls[1..]);
    }
  }

  /** Every entry holds the picture loaded from its own id's path. */
  ghost predicate Faithful(cache: Cache)
  {
    forall x :: x in cache ==> cache[x].src == ImageUrl(x)
  }

  /** A load started from its id's own path keeps the cache faithful. */
  lemma CompleteKeepsFaithful(cache: Cache, l: Load)
    requires Faithful(cache) && l.url == ImageUrl(l.id)
    ensures Faithful(Complete(cache, l))
  {
  }

  /** Once a load for an id has finished, no later pass starts another load for it. */
  lemma NoReloadAfterCompletion(nodes: seq<Node>, cache: Cache, l: Load)
    ensures forall j :: 0 <= j < |LoadsFor(nodes, Complete(cache, l))| ==>
              LoadsFor(nodes, Complete(cache, l))[j].id != l.id
  {
  }
}
