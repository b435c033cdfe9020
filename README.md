# Image analysis view: ring graph, response handling and image cache

This project models the graph-to-view pipeline of the `ImageAnalysis` React
component in `src/App.js` and proves properties of that model in Dafny.

- **Ring builder** (`RingGraph`, ring_graph.dfy). The `/get_images_by_class/`
  array becomes a graph. Each item is one node `{id, url: "/images/" + id}`,
  kept in input order and not deduplicated. Link `i` runs from node `i` to node
  `(i + 1) % n`. The builder is pure, so it is modelled as functions. The
  lemmas prove the ring shape: every endpoint is a node, the links chain into a
  closed walk, and each id has as many outgoing and incoming links as it has
  nodes. With distinct ids the links form one cycle of length exactly `n`.
- **Response handling** (`View`, view.dfy). It is a class `ImageAnalysis` with
  the component's state fields: `classes`, `data` (the graph), `images` (the
  cache) and `pending` (image loads started and not yet finished). A response
  is `ArrayData(items)`, `NotArray` or `Thrown`. `FetchClasses` and
  `FetchImagesByClass` commit a response only when its body is an array.
  `FetchImagesByClass` also needs no element to be `null` or `undefined`,
  because reading `id` on those throws inside the `try`. Any other response
  leaves every field as it was. A committed graph replaces `data` whole. The
  scenario method `View.FailedRefetchKeepsGraph` walks through this: after a
  first fetch, a thrown error, a non-array body and an array holding a `null`
  element each leave the graph of the first fetch in place.
- **Image cache** (`ImageCache`, image_cache.dfy, and
  `ImageAnalysis.RunImageEffect` / `CompleteLoad`). The effect runs whenever
  `data` is replaced. It walks the nodes in order and starts one load per node
  whose id had no entry when the pass began. A finished load merges exactly its
  own `id → image` entry. Loads finish in any order: `CompleteLoad(k)` takes
  any pending index. A load that fails never finishes. The lemmas prove that
  the cache only grows, that every other entry is left unchanged, and that
  every cached picture was loaded from its own id's path. This part reads the
  cache's own entries only. For an id that names an `Object.prototype` member
  the code does otherwise (see "## Findings" and `PrototypeLookup`).
- **Draw decision** (`Render`, render.dfy). A node is drawn as a picture
  exactly when the cache has an own entry for its id. Nothing is drawn
  otherwise. For `Object.prototype` names the code's test `if (img)` does
  otherwise, as `PrototypeLookup.DrawAsWritten` models (see "## Findings").

Behaviour of the code that the model keeps:
- A one-item response gets one self-loop: link 0 runs from the node to itself.
- Nodes are not deduplicated: a repeated id gives repeated nodes.
- The path is `/images/{id}`, with a leading slash.
- Two nodes with the same uncached id start two loads in one pass, and a
  second finished load for an id overwrites its entry.

## Model

| member | source | states |
|---|---|---|
| `RingGraph.ImageUrl` | src/App.js:28 | the path is the `/images/` prefix followed by the id unchanged |
| `RingGraph.ImageUrlInjective` | src/App.js:28 | two ids get the same path exactly when they are equal |
| `RingGraph.NextIndex` | src/App.js:32 | `(i + 1) % n` is the next position, and wraps to 0 after the last one |
| `RingGraph.BuildNodes` | src/App.js:26-29 | one node per item, same length and order, id copied unchanged, url derived from the id, no deduplication |
| `RingGraph.LinksFrom` | src/App.js:30-33 | the links built from position `i` on: one per remaining node, from node `i + k` to the node after it, wrapping to the first |
| `RingGraph.BuildLinks` | src/App.js:30-33 | exactly as many links as nodes; link `i` goes from node `i` to node `(i + 1) % n` |
| `RingGraph.BuildRing` | src/App.js:26-33 | the node ids are the item ids in order, and the graph is a well-formed ring (derived urls, `n` links, link `i` from node `i` to the next) |
| `RingGraph.EmptyResponseEmptyGraph` | src/App.js:26-33 | an empty array gives no nodes and no links |
| `RingGraph.SingleItemSelfLoop` | src/App.js:30-33 | a one-item array gives a single self-loop, not zero links |
| `RingGraph.LinksChain` | src/App.js:30-33 | each link's target is the next link's source, so the links close into one walk |
| `RingGraph.EndpointsAreNodes` | src/App.js:30-33 | every link's source and target is the id of a node of the same graph |
| `RingGraph.DegreeBalance` | src/App.js:26-33 | the multiset of sources and the multiset of targets both equal the multiset of node ids |
| `RingGraph.RingSuccessor` | src/App.js:30-33 | with distinct ids, the link leaving node `p` goes to node `(p + 1) % n` |
| `RingGraph.WalkVisitsInOrder` | src/App.js:30-33 | with distinct ids, `k` steps from the first node reach node `k`, for every `k < n` |
| `RingGraph.SingleCycle` | src/App.js:30-33 | with distinct ids, the walk from the first node returns after exactly `n` steps and not before: one cycle through all nodes |
| `ImageCache.LoadsFor` | src/App.js:44-47 | a pass never starts a load for an id that had an entry when the pass began |
| `ImageCache.LoadsForCount` | src/App.js:44-47 | each load is started once per node that would start it if its id is uncached, and never if the id is cached |
| `ImageCache.LoadsComeFromNodes` | src/App.js:44-47 | every started load carries the id and url of some node of the graph |
| `ImageCache.UncachedNodesGetLoads` | src/App.js:44-47 | every node whose id is uncached gets a load |
| `ImageCache.LoadUrlsDerived` | src/App.js:44-47 | loads for ring nodes fetch the id's own `/images/` path |
| `ImageCache.RepeatedIdLoadsTwice` | src/App.js:44-47 | two nodes with the same uncached id start two loads in one pass |
| `ImageCache.Complete` | src/App.js:48 | a finished load adds or overwrites its own id's entry and leaves every other entry unchanged |
| `ImageCache.CompletionsGrow` | src/App.js:48 | loads finishing in any order never remove an entry; the keys gained are exactly the finished loads' ids, and other entries stay unchanged |
| `ImageCache.CompleteKeepsFaithful` | src/App.js:46-48 | a load from the id's own path keeps every entry's picture tied to its id's path |
| `ImageCache.NoReloadAfterCompletion` | src/App.js:45-48 | once a load for an id has finished, later passes start no load for that id |
| `Render.NodeImage` | src/App.js:68-69 | a node is drawn exactly when the cache has an entry for its id, and it is drawn with that entry |
| `Render.DrawnImageIsNodesOwn` | src/App.js:68-71 | in a faithful cache, the picture drawn for a node is the one loaded from that node's url |
| `Render.CompleteDrawsOnlyItsNode` | src/App.js:68-69 | a finished load makes its node drawn with the new picture and changes no other node's drawing |
| `Render.StaysDrawn` | src/App.js:68-69 | a drawn node stays drawn whatever loads finish later |
| `Render.AllDrawnOnceLoadsFinish` | src/App.js:43-51 | once every load a pass started has finished, in any order, every node of the graph is drawn |
| `View.ReadItems` | src/App.js:26-29 | reading the ids succeeds exactly when no element is `null`/`undefined`, and then gives the elements' ids in order |
| `View.ResponseGraph` | src/App.js:25-35 | a graph is committed exactly when the body is an array with no `null` element; it is then a well-formed ring over the elements' ids, in order |
| `View.ImageAnalysis.constructor` | src/App.js:6-8 | the state starts with no classes, an empty graph, an empty cache and no loads |
| `View.ImageAnalysis.FetchClasses` | src/App.js:11-20 | an array body replaces `classes`; a non-array body or a thrown error leaves it unchanged; nothing else changes |
| `View.ImageAnalysis.FetchImagesByClass` | src/App.js:22-41 | an accepted body replaces `data` whole and starts the loads for its uncached ids; otherwise `data` and the loads stay as they were; `classes` and the cache never change |
| `View.ImageAnalysis.SetData` | src/App.js:35 | the graph is replaced whole, then the effect starts the loads for the new graph against the cache as it was |
| `View.ImageAnalysis.RunImageEffect` | src/App.js:43-51 | the loads appended are exactly those of one pass over the current nodes against the current cache |
| `View.ImageAnalysis.CompleteLoad` | src/App.js:48 | any pending load may finish: its entry is merged into the cache and it leaves the pending list; graph and classes stay as they were |
| `PrototypeLookup.ReadProperty` | src/App.js:45 | `images[id]` gives the own entry if there is one, an inherited member for an `Object.prototype` name, and `undefined` otherwise |
| `PrototypeLookup.LoadsAsWritten` | src/App.js:44-50 | the pass as written, with the test `!images[node.id]`, starts no more loads than there are nodes and none for a cached id or for any `Object.prototype` name |
| `PrototypeLookup.LoadsAsWrittenCount` | src/App.js:44-50 | in any graph, also one mixing ordinary ids with `Object.prototype` names, the pass as written starts each load once per node that would start it, and never when its id is cached or an inherited name |
| `PrototypeLookup.DrawAsWritten` | src/App.js:68-69 | the draw test as written fires exactly for cached ids and `Object.prototype` names; for a cached id it hands over the own entry, and for an uncached name the inherited member |
| `PrototypeLookup.LoadsAgreeOffPrototype` | src/App.js:44-50 | without inherited names as ids, the pass as written starts exactly the loads of `ImageCache.LoadsFor` |
| `PrototypeLookup.DrawAgreesOffPrototype` | src/App.js:68-69 | outside inherited names, the draw test as written agrees with `Render.NodeImage` |
| `PrototypeLookup.ConstructorIdIsNeverLoaded` | src/App.js:44-72 | for a node whose id is "constructor", the code as written starts no load and passes a non-image to `drawImage`; the own-entry model starts one load and draws nothing |

## Left out

- The HTTP requests through `axios` and the host URL (lines 13 and 24) are I/O. A response is an input value: an array body, another body, or a thrown error.
- The `class_label` request parameter only shapes the request URL, so it is not modelled.
- React's hooks, re-rendering, JSX and the buttons (lines 53-76) are UI plumbing. The effect is modelled as running atomically right after `data` is replaced. The stale-closure timing of React state is not modelled.
- `ForceGraph2D`, its physics, `linkDistance={300}` and `ctx.drawImage` are calls into a library. Only the decision whether a picture is drawn is kept.
- `imageSize` (line 36) and `size / globalScale` (line 70) are floating-point with `Math.sqrt`. For an empty array line 36 divides by zero, which JavaScript turns into `Infinity` without an error.
- Browser image decoding is not modelled. A picture handle is modelled by the path it was loaded from (`Bitmap(src)`), so two loads of the same path give equal handles. The model does not tell distinct `Image` objects apart.
- `View.ReadItems`: elements are objects with a string `id`, or `null`/`undefined`. An object without `id`, or with a non-string `id`, yields `undefined` or a coerced key in JavaScript, and this is not modelled. A primitive element such as `5` or `"a"` is also accepted by the code: it does not throw, its `id` reads as `undefined`, and the graph is still committed; this is not modelled either.
- The `console.error(error)` calls in both `catch` blocks (lines 18 and 39) are logging only and change no state, so they are not modelled.
- The `classes` array is taken as a sequence of strings. Its element types are not checked; neither does the code check them.

## Findings

| source | as written | input that shows it | evidently intended | confidence | as-written member | corrected member |
|---|---|---|---|---|---|---|
| src/App.js:45 | `images` is a plain object, so `images[node.id]` also reads members inherited from `Object.prototype`, and `!images[node.id]` is false for those names | a node with id `"constructor"` (or `"toString"`, `"valueOf"`, ...) over an empty cache: no load is ever started | a load is started for every id without an own entry | not executed; high | `PrototypeLookup.LoadsAsWritten` (exhibited by `PrototypeLookup.ConstructorIdIsNeverLoaded`) | `ImageCache.LoadsFor` (proved complete by `ImageCache.UncachedNodesGetLoads`) |
| src/App.js:68-69 | `if (img)` is true for an inherited member, so the inherited function is passed to `ctx.drawImage` | the same node with id `"constructor"`: the draw test fires with no picture | draw only when the cache has an own entry for the id | not executed; high | `PrototypeLookup.DrawAsWritten` (exhibited by `PrototypeLookup.ConstructorIdIsNeverLoaded`) | `Render.NodeImage` (drawn exactly when an own entry exists) |
