/**
 * How App.js actually reads the cache. `images` is a plain JavaScript object,
 * so `images[node.id]` also finds the properties every object inherits from
 * `Object.prototype`. For an id such as "constructor" the effect's test
 * `!images[node.id]` (line 45) is false, so no load is ever started, and the
 * draw test `if (img)` (line 69) passes a function to `ctx.drawImage`.
 * The rest of the model reads own entries only (`ImageCache.LoadsFor`,
 * `Render.NodeImage`), which is what the code evidently means.
 */
module PrototypeLookup {

  import opened Wrappers
  import opened RingGraph
  import opened ImageCache
  import opened Render

  /** The property names a plain object inherits from `Object.prototype`. */
  const InheritedNames: set<string> := {
    "constructor", "hasOwnProperty", "isPrototypeOf", "propertyIsEnumerable",
    "toLocaleString", "toString", "valueOf", "__proto__",
    "__defineGetter__", "__defineSetter__", "__lookupGetter__", "__lookupSetter__"
  }

  /** What reading `images[key]` yields: an own entry, an inherited member, or `undefined`. */
  datatype Slot = Own(img: Bitmap) | Inherited(name: string) | Undefined

  function ReadProperty(cache: Cache, key: string): (s: Slot)
    ensures s.Own? <==> key in cache
    ensures s.Own? ==> s.img == cache[key]
    ensures s.Inherited? <==> key !in cache && key in InheritedNames
  {
    if key in cache then Own(cache[key])
    else if key in InheritedNames then Inherited(key)
    else Undefined
  }

  /** JavaScript truthiness of what was read: an image object and an inherited member are both truthy. */
  predicate Truthy(s: Slot)
  {
    !s.Undefined?
  }

  /** The loads one pass of the effect starts as written: `if (!images[node.id])`. */
  function LoadsAsWritten(nodes: seq<Node>, cache: Cache): (loads: seq<Load>)
    ensures |loads| <= |nodes|
    ensures forall j :: 0 <= j < |loads| ==> loads[j].id !in cache && loads[j].id !in InheritedNames
  {
    if nodes == [] then []
    else
      var last := nodes[|nodes| - 1];
      LoadsAsWritten(nodes[..|nodes| - 1], cache)
        + if Truthy(ReadProperty(cache, last.id)) then [] else [LoadOf(last)]
  }

  /** What the draw test as written hands to `ctx.drawImage`: `if (img)`. */
  function DrawAsWritten(cache: Cache, node: Node): (drawn: Option<Slot>)
    ensures drawn.Some? <==> node.id in cache || node.id in InheritedNames
    ensures node.id in cache ==> drawn == Some(Own(cache[node.id]))
    ensures drawn.Some? && node.id !in cache ==> drawn.value == Inherited(node.id)
  {
    var s := ReadProperty(cache, node.id);
    if Truthy(s) then Some(s) else None
  }

  /**
   * Node by node, the pass as written starts each load once per node that
   * would start it, unless its id is cached or is an inherited name; this
   * holds also for graphs that mix ordinary ids with inherited names.
   */
  lemma {:induction false} LoadsAsWrittenCount(nodes: seq<Node>, cache: Cache, l: Load)
    ensures multiset(LoadsAsWritten(nodes, cache))[l] ==
            if l.id in cache || l.id in InheritedNames then 0 else multiset(NodeLoads(nodes))[l]
  {
    if nodes != [] {
      var init, last := nodes[..|nodes| - 1], nodes[|nodes| - 1];
      LoadsAsWrittenCount(init, cache, l);
      if last.id in cache || last.id in InheritedNames {
        assert LoadsAsWritten(nodes, cache) == LoadsAsWritten(init, cache);
      } else {
        assert LoadsAsWritten(nodes, cache) == LoadsAsWritten(init, cache) + [LoadOf(last)];
      }
    }
  }

  /** The as-written pass and the own-entry pass agree on graphs with no inherited name as an id. */
  lemma {:induction false} LoadsAgreeOffPrototype(nodes: seq<Node>, cache: Cache)
    requires forall i :: 0 <= i < |nodes| ==> nodes[i].id !in InheritedNames
    ensures LoadsAsWritten(nodes, cache) == LoadsFor(nodes, cache)
  {
    if nodes != [] {
      LoadsAgreeOffPrototype(nodes[..|nodes| - 1], cache);
    }
  }

  /** The as-written draw test and the own-entry one agree on ids that are not inherited names. */
  lemma DrawAgreesOffPrototype(cache: Cache, node: Node)
    requires node.id !in InheritedNames
    ensures DrawAsWritten(cache, node) ==
            match NodeImage(cache, node)
            case Some(img) => Some(Own(img))
            case None => None
  {
  }

  /**
   * A graph with one node whose id is "constructor", over an empty cache: as
   * written, no load is started for it and the draw test passes an inherited
   * member, not a picture, to `ctx.drawImage`; reading own entries, one load is
   * started and nothing is drawn until it finishes.
   */
  lemma ConstructorIdIsNeverLoaded()
    ensures LoadsAsWritten([Node("constructor", ImageUrl("constructor"))], map[]) == []
    ensures DrawAsWritten(map[], Node("constructor", ImageUrl("constructor"))) == Some(Inherited("constructor"))
    ensures LoadsFor([Node("constructor", ImageUrl("constructor"))], map[]) == [Load("constructor", ImageUrl("constructor"))]
    ensures NodeImage(map[], Node("constructor", ImageUrl("constructor"))) == None
  {
    assert "constructor" in InheritedNames;
  }
}
