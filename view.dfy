/**
 * The state of the `ImageAnalysis` component and its transitions: the two
 * request handlers (App.js lines 11-41), the image effect that runs whenever
 * `data` is replaced (lines 43-51) and the completion of one image load.
 */
module View {

  import opened Wrappers
  import opened RingGraph
  import opened ImageCache

  /**
   * An element of the `/get_images_by_class/` array: an object, whose `id` the
   * builder reads, or `null`/`undefined`, on which reading `id` throws.
   */
  datatype Entry = Record(id: string) | Nullish

  /** What an `axios` request gives the handlers: an array body, any other body, or a thrown error. */
  datatype Response<T> = ArrayData(items: seq<T>) | NotArray | Thrown

  /** The items the builder reads, or None when reading some element's `id` throws. */
  function ReadItems(entries: seq<Entry>): (r: Option<seq<Item>>)
    ensures r.Some? <==> forall i :: 0 <= i < |entries| ==> entries[i].Record?
    ensures r.Some? ==> |r.value| == |entries| && forall i :: 0 <= i < |entries| ==> r.value[i].id == entries[i].id
  {
    if entries == [] then Some([])
    else match entries[0]
      case Nullish => None
      case Record(id) =>
        match ReadItems(entries[1..])
        case None => None
        case Some(rest) => Some([Item(id)] + rest)
  }

  /**
   * The graph a response to `/get_images_by_class/` commits, if any: there is
   * one exactly when the body is an array and no element of it is
   * `null`/`undefined`; it is then a ring over the elements' ids, in order.
   */
  function ResponseGraph(response: Response<Entry>): (g: Option<Graph>)
    ensures g.Some? <==> response.ArrayData? && forall i :: 0 <= i < |response.items| ==> response.items[i].Record?
    ensures g.Some? ==> WellFormedRing(g.value) && |g.value.nodes| == |response.items|
    ensures g.Some? ==> forall i :: 0 <= i < |response.items| ==> g.value.nodes[i].id == response.items[i].id
  {
    match response
    case ArrayData(entries) =>
      (match ReadItems(entries)
       case Some(items) => Some(BuildRing(items))
       case None => None)
    case _ => None
  }

  class ImageAnalysis {
    /** The class labels offered as buttons. */
    var classes: seq<string>
    /** The graph handed to the force-graph component. */
    var data: Graph
    /** The image cache. */
    var images: Cache
    /** The image loads started and not yet finished, in the order they were started. */
    var pending: seq<Load>

    /** The graph is a ring built from ids, and every loaded or loading picture comes from its id's path. */
    ghost predicate Valid()
      reads this
    {
      && WellFormedRing(data)
      && Faithful(images)
      && forall k :: 0 <= k < |pending| ==> pending[k].url == ImageUrl(pending[k].id)
    }

    /** The initial state; the effect runs once on mount, over no nodes. */
    constructor ()
      ensures Valid()
      ensures classes == [] && data == Graph([], []) && images == map[] && pending == []
    {
      classes := [];
      data := Graph([], []);
      images := map[];
      pending := [];
      new;
      RunImageEffect();
      assert LoadsFor([], map[]) == [];
    }

    /** `fetchClasses`: an array body replaces `classes`; any other outcome changes nothing. */
    method FetchClasses(response: Response<string>)
      requires Valid()
      modifies this
      ensures Valid()
      ensures classes == if response.ArrayData? then response.items else old(classes)
      ensures data == old(data) && images == old(images) && pending == old(pending)
    {
      if response.ArrayData? {
        classes := response.items;
      }
    }

    /**
     * `fetchImagesByClass`: an array body whose elements all have an `id`
     * replaces `data` whole with the ring over them, and the effect then starts
     * the loads for the new nodes; any other outcome changes nothing.
     */
    method FetchImagesByClass(response: Response<Entry>)
      requires Valid()
      modifies this
      ensures Valid()
      ensures classes == old(classes) && images == old(images)
      ensures match ResponseGraph(response)
        case Some(g) => data == g && pending == old(pending) + LoadsFor(g.nodes, old(images))
        case None => data == old(data) && pending == old(pending)
    {
      var graph := ResponseGraph(response);
      if graph.Some? {
        SetData(graph.value);
      }
    }

    /** `setData`: the graph is replaced whole, and the effect on `data` then runs over the new nodes. */
    method SetData(g: Graph)
      requires Valid() && WellFormedRing(g)
      modifies this
      ensures Valid()
      ensures data == g && pending == old(pending) + LoadsFor(g.nodes, old(images))
      ensures classes == old(classes) && images == old(images)
    {
      data := g;
      RunImageEffect();
      LoadUrlsDerived(g.nodes, images);
    }

    /** The effect on `data`: one pass over the nodes, starting a load for each id without an entry. */
    method RunImageEffect()
      modifies this`pending
      ensures pending == old(pending) + LoadsFor(data.nodes, images)
    {
      var nodes, cache := data.nodes, images;
      var i := 0;
      while i < |nodes|
        invariant 0 <= i <= |nodes|
        invariant data.nodes == nodes && images == cache
        invariant pending == old(pending) + LoadsFor(nodes[..i], cache)
      {
        var node := nodes[i];
        LoadsForExtend(nodes, cache, i);
        if node.id !in cache {
          pending := pending + [LoadOf(node)];
        }
        i := i + 1;
      }
      assert nodes[..i] == nodes;
    }

    /** The `onload` of the `k`-th pending load; the loads finish in any order. */
    method CompleteLoad(k: nat)
      requires Valid() && k < |pending|
      modifies this
      ensures Valid()
      ensures images == Complete(old(images), old(pending)[k])
      ensures pending == old(pending)[..k] + old(pending)[k + 1..]
      ensures classes == old(classes) && data == old(data)
    {
      var l := pending[k];
      images := images[l.id := Bitmap(l.url)];
      pending := pending[..k] + pending[k + 1..];
    }
  }

  /** A failed or malformed second request leaves the graph of the first one in place. */
  method FailedRefetchKeepsGraph(first: Response<Entry>, x: string)
  {
    var view := new ImageAnalysis();
    view.FetchImagesByClass(first);
    var shown := view.data;
    view.FetchImagesByClass(Thrown);
    view.FetchImagesByClass(NotArray);
    assert ReadItems([Record(x), Nullish]) == None;
    view.FetchImagesByClass(ArrayData([Record(x), Nullish]));
    assert view.data == shown;
  }
}
