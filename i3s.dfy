/**
 * The node-page store of `src/i3s.rs`: the arithmetic that splits a global
 * node index into a page number and an offset, the lookups an
 * `IntegratedMesh` answers with it, the loop that drains a REST service's
 * node pages, and the dispatch on a layer's `layerType` tag.
 */
module I3s {
  import opened Wrappers
  import opened Cmn

  // ---------------------------------------------------------------------------
  // Global-index arithmetic
  // ---------------------------------------------------------------------------

  /** `get_node_page_index`: the page holding global node `nodeIndex`, rounded down. */
  function GetNodePageIndex(nodeIndex: nat, nodesPerPage: nat): (page: nat)
    requires nodesPerPage > 0
    ensures page * nodesPerPage <= nodeIndex < page * nodesPerPage + nodesPerPage
  {
    nodeIndex / nodesPerPage
  }

  /** `get_node_index_in_node_page`: the position of node `nodeIndex` within its page. */
  function GetNodeIndexInNodePage(nodeIndex: nat, nodesPerPage: nat): (offset: nat)
    requires nodesPerPage > 0
    ensures offset < nodesPerPage
    ensures GetNodePageIndex(nodeIndex, nodesPerPage) * nodesPerPage + offset == nodeIndex
  {
    nodeIndex % nodesPerPage
  }

  /**
   * The split is a bijection: every (page, offset) pair with an offset below
   * the page size is the split of exactly one global index.
   */
  lemma {:induction false} AddressRoundTrip(page: nat, offset: nat, nodesPerPage: nat)
    requires offset < nodesPerPage
    ensures GetNodePageIndex(page * nodesPerPage + offset, nodesPerPage) == page
    ensures GetNodeIndexInNodePage(page * nodesPerPage + offset, nodesPerPage) == offset
  {
    var i := page * nodesPerPage + offset;
    var q := GetNodePageIndex(i, nodesPerPage);
    if q < page {
      MulMonotone(q + 1, page, nodesPerPage);
    } else if q > page {
      MulMonotone(page + 1, q, nodesPerPage);
    }
  }

  lemma MulMonotone(a: nat, b: nat, n: nat)
    requires a <= b
    ensures a * n <= b * n
  {
  }

  // ---------------------------------------------------------------------------
  // The integrated mesh and its lookups
  // ---------------------------------------------------------------------------

  /** `IntegratedMesh`: the node pages in request order, the root's index and the page size. */
  datatype IntegratedMesh = IntegratedMesh(nodePages: seq<NodePage>, rootIndex: nat, nodesPerPage: nat)

  /** `IntegratedMesh::default()`. */
  const DefaultIntegratedMesh: IntegratedMesh := IntegratedMesh([], 0, 0)

  /** Node `i` can be looked up without a panic: its page exists and holds its offset. */
  predicate NodeInRange(m: IntegratedMesh, i: nat) {
    && m.nodesPerPage > 0
    && GetNodePageIndex(i, m.nodesPerPage) < |m.nodePages|
    && GetNodeIndexInNodePage(i, m.nodesPerPage) < |m.nodePages[GetNodePageIndex(i, m.nodesPerPage)].nodes|
  }

  /** Every page but the last is full, and the last is not over-full. */
  predicate PagesFull(m: IntegratedMesh) {
    && m.nodesPerPage > 0
    && (forall p | 0 <= p < |m.nodePages| :: |m.nodePages[p].nodes| <= m.nodesPerPage)
    && (forall p | 0 <= p < |m.nodePages| - 1 :: |m.nodePages[p].nodes| == m.nodesPerPage)
  }

  /** Every node carries the global index its page and position give it. */
  predicate WellIndexed(m: IntegratedMesh) {
    forall p, o | 0 <= p < |m.nodePages| && 0 <= o < |m.nodePages[p].nodes| ::
      m.nodePages[p].nodes[o].index == p * m.nodesPerPage + o
  }

  /**
   * `IntegratedMesh::node`: the node at offset `i % nodesPerPage` of page
   * `i / nodesPerPage`. In a well-indexed mesh it is the node numbered `i`.
   */
  function Node(m: IntegratedMesh, i: nat): (n: Cmn.Node)
    requires NodeInRange(m, i)
    ensures n in m.nodePages[i / m.nodesPerPage].nodes
    ensures WellIndexed(m) ==> n.index == i
  {
    m.nodePages[GetNodePageIndex(i, m.nodesPerPage)].nodes[GetNodeIndexInNodePage(i, m.nodesPerPage)]
  }

  /** `IntegratedMesh::nodes`: the nodes at `indices`, in the same order. */
  function Nodes(m: IntegratedMesh, indices: seq<nat>): (ns: seq<Cmn.Node>)
    requires forall k | 0 <= k < |indices| :: NodeInRange(m, indices[k])
    ensures |ns| == |indices|
    ensures forall k | 0 <= k < |indices| :: ns[k] == Node(m, indices[k])
    decreases |indices|
  {
    if indices == [] then [] else [Node(m, indices[0])] + Nodes(m, indices[1..])
  }

  /** `IntegratedMesh::root`: a direct lookup of `rootIndex`, not a search for a parentless node. */
  function Root(m: IntegratedMesh): (n: Cmn.Node)
    requires NodeInRange(m, m.rootIndex)
    ensures n == Node(m, m.rootIndex)
    ensures WellIndexed(m) ==> n.index == m.rootIndex
  {
    Node(m, m.rootIndex)
  }

  /** All nodes of all pages, concatenated in page order. */
  function AllNodes(pages: seq<NodePage>): (ns: seq<Cmn.Node>)
    decreases |pages|
  {
    if pages == [] then [] else AllNodes(pages[..|pages| - 1]) + pages[|pages| - 1].nodes
  }

  lemma {:induction false} AllNodesOfFullPagesLength(pages: seq<NodePage>, nodesPerPage: nat)
    requires forall p | 0 <= p < |pages| :: |pages[p].nodes| == nodesPerPage
    ensures |AllNodes(pages)| == |pages| * nodesPerPage
    decreases |pages|
  {
    if pages != [] {
      var init := pages[..|pages| - 1];
      AllNodesOfFullPagesLength(init, nodesPerPage);
      assert |pages| * nodesPerPage == |init| * nodesPerPage + nodesPerPage;
    }
  }

  /** In a run of full pages, the `j`-th node of the concatenation sits at page `j / n`, offset `j % n`. */
  lemma {:induction false} AllNodesOfFullPagesAt(pages: seq<NodePage>, nodesPerPage: nat, j: nat)
    requires nodesPerPage > 0
    requires forall p | 0 <= p < |pages| :: |pages[p].nodes| == nodesPerPage
    requires j < |pages| * nodesPerPage
    ensures |AllNodes(pages)| == |pages| * nodesPerPage
    ensures j / nodesPerPage < |pages| && AllNodes(pages)[j] == pages[j / nodesPerPage].nodes[j % nodesPerPage]
    decreases |pages|
  {
    AllNodesOfFullPagesLength(pages, nodesPerPage);
    var init := pages[..|pages| - 1];
    AllNodesOfFullPagesLength(init, nodesPerPage);
    var base := |init| * nodesPerPage;
    if j < base {
      AllNodesOfFullPagesAt(init, nodesPerPage, j);
      assert AllNodes(pages)[j] == AllNodes(init)[j];
    } else {
      assert |pages| * nodesPerPage == base + nodesPerPage;
      AddressRoundTrip(|init|, j - base, nodesPerPage);
      assert AllNodes(pages)[j] == pages[|init|].nodes[j - base];
    }
  }

  /** Page `k` or a later one holds every index from `k * nodesPerPage` on. */
  lemma PageAtLeast(i: nat, k: nat, nodesPerPage: nat)
    requires nodesPerPage > 0 && k * nodesPerPage <= i
    ensures GetNodePageIndex(i, nodesPerPage) >= k
  {
    var q := GetNodePageIndex(i, nodesPerPage);
    if q < k {
      MulMonotone(q + 1, k, nodesPerPage);
    }
  }

  /**
   * Looking a node up by page arithmetic is indexing the concatenation of
   * all pages: when every page but the last is full, node `i` exists exactly
   * when `i` is below the total node count, and it is the `i`-th node of the
   * concatenation.
   */
  lemma {:induction false} NodeIsConcatenationIndex(m: IntegratedMesh, i: nat)
    requires PagesFull(m)
    ensures NodeInRange(m, i) <==> i < |AllNodes(m.nodePages)|
    ensures NodeInRange(m, i) ==> Node(m, i) == AllNodes(m.nodePages)[i]
  {
    var pages, npp := m.nodePages, m.nodesPerPage;
    if pages == [] {
      return;
    }
    var init := pages[..|pages| - 1];
    AllNodesOfFullPagesLength(init, npp);
    if i < |init| * npp {
      NodeInFullPage(m, i);
    } else {
      NodeInLastPage(m, i);
    }
  }

  lemma NodeInFullPage(m: IntegratedMesh, i: nat)
    requires PagesFull(m) && m.nodePages != []
    requires i < (|m.nodePages| - 1) * m.nodesPerPage
    ensures NodeInRange(m, i) && i < |AllNodes(m.nodePages)| && Node(m, i) == AllNodes(m.nodePages)[i]
  {
    var pages, npp := m.nodePages, m.nodesPerPage;
    var init := pages[..|pages| - 1];
    AllNodesOfFullPagesAt(init, npp, i);
    assert AllNodes(pages) == AllNodes(init) + pages[|pages| - 1].nodes;
    var q := i / npp;
    assert pages[q] == init[q];
  }

  lemma NodeInLastPage(m: IntegratedMesh, i: nat)
    requires PagesFull(m) && m.nodePages != []
    requires (|m.nodePages| - 1) * m.nodesPerPage <= i
    ensures NodeInRange(m, i) <==> i < |AllNodes(m.nodePages)|
    ensures NodeInRange(m, i) ==> Node(m, i) == AllNodes(m.nodePages)[i]
  {
    var pages, npp := m.nodePages, m.nodesPerPage;
    var k := |pages| - 1;
    var init := pages[..k];
    AllNodesOfFullPagesLength(init, npp);
    assert AllNodes(pages) == AllNodes(init) + pages[k].nodes;
    var last := |pages[k].nodes|;
    assert |AllNodes(pages)| == k * npp + last;
    PageAtLeast(i, k, npp);
    var q := GetNodePageIndex(i, npp);
    if q == k {
      AddressRoundTrip(k, i - k * npp, npp);
      assert GetNodeIndexInNodePage(i, npp) == i - k * npp;
      if i < k * npp + last {
        assert AllNodes(pages)[i] == pages[k].nodes[i - k * npp];
      }
    } else {
      MulMonotone(k + 1, q, npp);
      assert k * npp + npp <= i;
      assert !NodeInRange(m, i);
    }
  }

  /**
   * A five-node layer with two nodes per page: root 0 with children 1 and 2,
   * node 2 with children 3 and 4, spread over pages [0, 1], [2, 3] and [4].
   * Node 4 is the first node of page 2, the root is node 0, and the
   * children of the root resolve to nodes 1 and 2 in that order.
   */
  lemma FiveNodeLayer()
    ensures PagesFull(FiveNodeMesh) && WellIndexed(FiveNodeMesh)
    ensures GetNodePageIndex(4, 2) == 2 && GetNodeIndexInNodePage(4, 2) == 0
    ensures NodeInRange(FiveNodeMesh, 4) && Node(FiveNodeMesh, 4) == FiveNodeMesh.nodePages[2].nodes[0]
    ensures NodeInRange(FiveNodeMesh, 0) && Root(FiveNodeMesh) == Node(FiveNodeMesh, 0) && IsRoot(Root(FiveNodeMesh))
    ensures NodeInRange(FiveNodeMesh, 1) && NodeInRange(FiveNodeMesh, 2)
    ensures Root(FiveNodeMesh).children == Some([1, 2])
    ensures Nodes(FiveNodeMesh, [1, 2]) == [FiveNodeMesh.nodePages[0].nodes[1], FiveNodeMesh.nodePages[1].nodes[0]]
    ensures !NodeInRange(FiveNodeMesh, 5)
  {
  }

  const FiveNodeMesh: IntegratedMesh := IntegratedMesh(
    [ NodePage([Cmn.Node(0, None, Some([1, 2]), None), Cmn.Node(1, Some(0), None, None)]),
      NodePage([Cmn.Node(2, Some(0), Some([3, 4]), None), Cmn.Node(3, Some(2), None, None)]),
      NodePage([Cmn.Node(4, Some(2), None, None)]) ],
    0, 2)

  // ---------------------------------------------------------------------------
  // Draining a REST service's node pages
  // ---------------------------------------------------------------------------

  type Bytes = seq<bv8>

  /** What `Service::get` answered for one request: a transport failure or a body. */
  datatype Response = TransportFailed | Body(bytes: Bytes)

  /** Why loading failed: the request itself or the gzip layer of the body. */
  datatype FetchError = Transport | Gzip

  /** The loop's reading of one response. */
  datatype Step = Fatal(error: FetchError) | Decoded(page: NodePage) | EndOfPages

  /**
   * One round of the loop: a transport failure or a body that is not gzip is
   * fatal; a gunzipped body that does not decode as a node page ends the
   * pages; otherwise the page is decoded.
   */
  function Classify(r: Response, gunzip: Bytes -> Option<Bytes>, decode: Bytes -> Option<NodePage>): Step {
    match r
    case TransportFailed => Fatal(Transport)
    case Body(bytes) =>
      match gunzip(bytes)
      case None => Fatal(Gzip)
      case Some(json) =>
        match decode(json)
        case None => EndOfPages
        case Some(page) => Decoded(page)
  }

  /** Some response at or after `from` stops the loop. */
  predicate StopsFrom(responses: seq<Response>, from: nat, gunzip: Bytes -> Option<Bytes>, decode: Bytes -> Option<NodePage>) {
    exists k | from <= k < |responses| :: !Classify(responses[k], gunzip, decode).Decoded?
  }

  /**
   * The outcome of requesting pages `from`, `from + 1`, ... : either the run
   * of pages decoded before the first response that does not decode, or the
   * fatal error of the first response that stops the run.
   */
  function Drain(responses: seq<Response>, from: nat, gunzip: Bytes -> Option<Bytes>, decode: Bytes -> Option<NodePage>): (r: Result<seq<NodePage>, FetchError>)
    requires StopsFrom(responses, from, gunzip, decode)
    ensures r.Ok? ==>
              && from + |r.value| < |responses|
              && (forall k | 0 <= k < |r.value| :: Classify(responses[from + k], gunzip, decode) == Decoded(r.value[k]))
              && (forall k | from <= k < from + |r.value| :: Classify(responses[k], gunzip, decode).Decoded?)
              && Classify(responses[from + |r.value|], gunzip, decode) == EndOfPages
    ensures r.Err? ==>
              exists n | from <= n < |responses| ::
                && (forall k | from <= k < n :: Classify(responses[k], gunzip, decode).Decoded?)
                && Classify(responses[n], gunzip, decode) == Fatal(r.error)
    decreases |responses| - from
  {
    match Classify(responses[from], gunzip, decode)
    case Fatal(e) => Err(e)
    case EndOfPages => Ok([])
    case Decoded(page) =>
      match Drain(responses, from + 1, gunzip, decode)
      case Err(e) => Err(e)
      case Ok(pages) => Ok([page] + pages)
  }

  /**
   * `IntegratedMesh::from_rest`: requests `layers/0/nodepages/0`, `1`, `2`, ...
   * one after the other, appending each page that decodes, and stops at the
   * first response whose body does not decode as a node page. A transport or
   * gzip failure is returned as an error with no partial mesh. The mesh keeps
   * the default page size and root index (both 0).
   *
   * The service is the sequence of its answers to requests 0, 1, 2, ...;
   * gzip and JSON decoding are the opaque `gunzip` and `decode`. `requests`
   * is how many pages were requested.
   */
  method FromRest(responses: seq<Response>, gunzip: Bytes -> Option<Bytes>, decode: Bytes -> Option<NodePage>)
      returns (r: Result<IntegratedMesh, FetchError>, requests: nat)
    requires StopsFrom(responses, 0, gunzip, decode)
    ensures 0 < requests <= |responses|
    ensures forall k | 0 <= k < requests - 1 :: Classify(responses[k], gunzip, decode).Decoded?
    ensures !Classify(responses[requests - 1], gunzip, decode).Decoded?
    ensures r.Err? <==> Drain(responses, 0, gunzip, decode).Err?
    ensures r.Err? ==> r.error == Drain(responses, 0, gunzip, decode).error
    ensures r.Ok? ==> r.value == IntegratedMesh(Drain(responses, 0, gunzip, decode).value, 0, 0)
  {
    var mesh := DefaultIntegratedMesh;
    var index: nat := 0;
    while true
      invariant index < |responses| && StopsFrom(responses, index, gunzip, decode)
      invariant mesh.rootIndex == 0 && mesh.nodesPerPage == 0 && |mesh.nodePages| == index
      invariant forall k | 0 <= k < index :: Classify(responses[k], gunzip, decode) == Decoded(mesh.nodePages[k])
      decreases |responses| - index
    {
      var response := responses[index];
      if response.TransportFailed? {
        DrainStopsAt(responses, index, gunzip, decode);
        return Err(Transport), index + 1;
      }
      var json := gunzip(response.bytes);
      if json.None? {
        DrainStopsAt(responses, index, gunzip, decode);
        return Err(Gzip), index + 1;
      }
      var page := decode(json.value);
      match page {
        case Some(p) =>
          mesh := mesh.(nodePages := mesh.nodePages + [p]);
          index := index + 1;
        case None =>
          DrainStopsAt(responses, index, gunzip, decode);
          return Ok(mesh), index + 1;
      }
    }
  }

  /**
   * When requests `0 .. n-1` all decoded and request `n` did not, the drain
   * from 0 is the pages of the first `n` responses followed by what request
   * `n` says.
   */
  lemma {:induction false} DrainStopsAt(responses: seq<Response>, n: nat, gunzip: Bytes -> Option<Bytes>, decode: Bytes -> Option<NodePage>)
    requires n < |responses|
    requires forall k | 0 <= k < n :: Classify(responses[k], gunzip, decode).Decoded?
    requires !Classify(responses[n], gunzip, decode).Decoded?
    ensures StopsFrom(responses, 0, gunzip, decode)
    ensures Classify(responses[n], gunzip, decode).Fatal? ==>
              Drain(responses, 0, gunzip, decode) == Err(Classify(responses[n], gunzip, decode).error)
    ensures Classify(responses[n], gunzip, decode).EndOfPages? ==>
              Drain(responses, 0, gunzip, decode).Ok? &&
              Drain(responses, 0, gunzip, decode).value == seq(n, k requires 0 <= k < n => Classify(responses[k], gunzip, decode).page)
  {
  }

  // ---------------------------------------------------------------------------
  // The page size and root index of a mesh loaded from a service
  // ---------------------------------------------------------------------------

  /** The `usize` that a positive `f32` infinity saturates to when cast. */
  const UsizeMax: nat := 0xFFFF_FFFF_FFFF_FFFF

  /**
   * `node` as written when the page size is 0: `0.0 / 0.0` and `i % 0.0` are
   * NaN, which casts to 0, while `i / 0.0` for `i > 0` is infinite and casts
   * to `usize::MAX`. `None` stands for the index-out-of-bounds panic. Only
   * node 0 can resolve, and only to the first node of the first page.
   */
  function ZeroSizeNode(m: IntegratedMesh, i: nat): (r: Option<Cmn.Node>)
    ensures i == 0 ==> (r.Some? <==> |m.nodePages| > 0 && |m.nodePages[0].nodes| > 0)
    ensures i == 0 && r.Some? ==> r.value == m.nodePages[0].nodes[0]
    ensures |m.nodePages| <= UsizeMax && i > 0 ==> r == None
  {
    var page := if i == 0 then 0 else UsizeMax;
    if page < |m.nodePages| && 0 < |m.nodePages[page].nodes| then Some(m.nodePages[page].nodes[0]) else None
  }

  /**
   * As written, `from_rest` leaves `nodes_per_page` and `root_index` at their
   * defaults, and nothing else can set them (both fields are private). Here
   * a service whose page 0 holds two nodes and whose page 1 does not decode:
   * in the mesh `from_rest` builds, node 0 (and so `root()`) still resolves
   * through the NaN cast, but node 1 and every index after it panic,
   * although page 0 holds node 1. With page size 2 node 1 resolves.
   */
  lemma RestMeshPanicsFromNodeOne()
    ensures StopsFrom(ExampleResponses, 0, ExampleGunzip, ExampleDecode)
    ensures Drain(ExampleResponses, 0, ExampleGunzip, ExampleDecode) == Ok([ExamplePage])
    ensures AllNodes([ExamplePage]) == [ExampleRoot, ExampleChild]
    ensures ZeroSizeNode(IntegratedMesh([ExamplePage], 0, 0), 0) == Some(ExampleRoot)
    ensures forall i: nat | 1 <= i :: ZeroSizeNode(IntegratedMesh([ExamplePage], 0, 0), i) == None
    ensures !NodeInRange(IntegratedMesh([ExamplePage], 0, 0), 1)
    ensures NodeInRange(IntegratedMesh([ExamplePage], 0, 2), 1)
    ensures Node(IntegratedMesh([ExamplePage], 0, 2), 1) == ExampleChild
  {
    assert Classify(ExampleResponses[1], ExampleGunzip, ExampleDecode) == EndOfPages;
    assert Classify(ExampleResponses[0], ExampleGunzip, ExampleDecode) == Decoded(ExamplePage);
    assert StopsFrom(ExampleResponses, 1, ExampleGunzip, ExampleDecode);
    assert Drain(ExampleResponses, 1, ExampleGunzip, ExampleDecode) == Ok([]);
    assert [ExamplePage] + [] == [ExamplePage];
    assert AllNodes([ExamplePage]) == AllNodes([]) + [ExampleRoot, ExampleChild];
  }

  const ExampleRoot: Cmn.Node := Cmn.Node(0, None, Some([1]), None)
  const ExampleChild: Cmn.Node := Cmn.Node(1, Some(0), None, None)
  const ExamplePage: NodePage := NodePage([ExampleRoot, ExampleChild])
  const ExampleResponses: seq<Response> := [Body([0]), Body([1])]

  function ExampleGunzip(b: Bytes): Option<Bytes> {
    Some(b)
  }

  function ExampleDecode(b: Bytes): Option<NodePage> {
    if b == [0] then Some(ExamplePage) else None
  }

  /** Why loading with a page definition failed. */
  datatype LoadError = Fetch(error: FetchError) | InvalidNodePageDefinition

  /**
   * `from_rest` with the page size and root index taken from the layer's
   * node-page definition, which it is evidently meant to use. A definition
   * whose page size is not positive, or whose root index is negative, is
   * refused before any page is requested. When the pages are laid out as
   * the definition says (every page but the last full), every node of every
   * page can be looked up by its global index.
   */
  method FromRestWithDefinition(definition: NodePageDefinition, responses: seq<Response>,
                                gunzip: Bytes -> Option<Bytes>, decode: Bytes -> Option<NodePage>)
      returns (r: Result<IntegratedMesh, LoadError>)
    requires StopsFrom(responses, 0, gunzip, decode)
    ensures (definition.nodesPerPage <= 0 || definition.rootIndex < 0) ==> r == Err(InvalidNodePageDefinition)
    ensures (definition.nodesPerPage > 0 && definition.rootIndex >= 0) ==>
              match Drain(responses, 0, gunzip, decode)
              case Err(e) => r == Err(Fetch(e))
              case Ok(pages) => r == Ok(IntegratedMesh(pages, definition.rootIndex as nat, definition.nodesPerPage as nat))
    ensures r.Ok? ==> r.value.nodesPerPage > 0
    ensures r.Ok? && PagesFull(r.value) ==>
              forall i: nat | i < |AllNodes(r.value.nodePages)| :: NodeInRange(r.value, i)
  {
    if definition.nodesPerPage <= 0 || definition.rootIndex < 0 {
      return Err(InvalidNodePageDefinition);
    }
    var fetched, _ := FromRest(responses, gunzip, decode);
    match fetched {
      case Err(e) =>
        r := Err(Fetch(e));
      case Ok(mesh) =>
        var m := mesh.(nodesPerPage := definition.nodesPerPage as nat, rootIndex := definition.rootIndex as nat);
        if PagesFull(m) {
          forall i: nat | i < |AllNodes(m.nodePages)|
            ensures NodeInRange(m, i)
          {
            NodeIsConcatenationIndex(m, i);
          }
        }
        r := Ok(m);
    }
  }
}

/**
 * The layer-type dispatch of `src/i3s.rs`: a scene layer's root document
 * names its profile in the string field `layerType`, and that tag selects
 * which of five record shapes the document is decoded into.
 */
module LayerDispatch {
  import opened Wrappers

  /** A JSON document as `serde_json::Value` holds it (numbers as integers). */
  datatype Json =
    | JNull
    | JBool(b: bool)
    | JNumber(n: int)
    | JString(s: string)
    | JArray(items: seq<Json>)
    | JObject(members: map<string, Json>)

  /** `Value::get` with a key: a member of an object, nothing for any other value. */
  function Get(v: Json, key: string): (r: Option<Json>)
    ensures r.Some? <==> v.JObject? && key in v.members
    ensures r.Some? ==> r.value == v.members[key]
  {
    match v
    case JObject(members) => if key in members then Some(members[key]) else None
    case _ => None
  }

  /** `Value::as_str`: the text of a string value. */
  function AsStr(v: Json): (r: Option<string>)
    ensures r.Some? <==> v.JString?
    ensures r.Some? ==> r.value == v.s
  {
    match v
    case JString(s) => Some(s)
    case _ => None
  }

  datatype LayerError = CannotParseLayerType | UnknownLayerType | SchemaMismatch

  /** `get_layer_type`: the string member `layerType` of the root document. */
  function GetLayerType(info: Json): (r: Result<string, LayerError>)
    ensures r.Ok? <==> info.JObject? && "layerType" in info.members && info.members["layerType"].JString?
    ensures r.Ok? ==> r.value == info.members["layerType"].s
    ensures r.Err? ==> r.error == CannotParseLayerType
  {
    match Get(info, "layerType")
    case None => Err(CannotParseLayerType)
    case Some(v) =>
      match AsStr(v)
      case None => Err(CannotParseLayerType)
      case Some(s) => Ok(s)
  }

  /** The record shapes a document can be decoded into (modules `cmn`, `psl`, `bld`, `pcl`). */
  datatype Schema = CmnSchema | PslSchema | BldSchema | PclSchema

  /**
   * `SceneLayerInformation`: the five profiles, each holding the document
   * its record was decoded from (the records' fields are not modelled).
   */
  datatype SceneLayerInformation =
    | IntegratedMesh(record: Json)
    | DDDObject(record: Json)
    | Point(record: Json)
    | Building(record: Json)
    | PointCloud(record: Json)

  /** The record shape each profile holds. */
  function SchemaOf(info: SceneLayerInformation): Schema {
    match info
    case IntegratedMesh(_) => CmnSchema
    case DDDObject(_) => CmnSchema
    case Point(_) => PslSchema
    case Building(_) => BldSchema
    case PointCloud(_) => PclSchema
  }

  /** The five tags the dispatch recognises. */
  const KnownLayerTypes: set<string> := {"IntegratedMesh", "3DObject", "Point", "Building", "PointCloud"}

  /**
   * `parse_scene_layer_info`: the tag selects the profile, and the document
   * must then decode into that profile's record shape (`accepts` stands for
   * serde's verdict). Any other tag is refused without decoding.
   */
  function ParseSceneLayerInfo(layerType: string, info: Json, accepts: (Schema, Json) -> bool): (r: Result<SceneLayerInformation, LayerError>)
    ensures layerType !in KnownLayerTypes ==> r == Err(UnknownLayerType)
    ensures r.Ok? ==> layerType in KnownLayerTypes && LayerType(r.value) == layerType
    ensures r.Ok? ==> r.value.record == info && accepts(SchemaOf(r.value), info)
    ensures layerType in KnownLayerTypes ==> (r.Ok? || r == Err(SchemaMismatch))
  {
    match layerType
    case "IntegratedMesh" => if accepts(CmnSchema, info) then Ok(IntegratedMesh(info)) else Err(SchemaMismatch)
    case "3DObject" => if accepts(CmnSchema, info) then Ok(DDDObject(info)) else Err(SchemaMismatch)
    case "Point" => if accepts(PslSchema, info) then Ok(Point(info)) else Err(SchemaMismatch)
    case "Building" => if accepts(BldSchema, info) then Ok(Building(info)) else Err(SchemaMismatch)
    case "PointCloud" => if accepts(PclSchema, info) then Ok(PointCloud(info)) else Err(SchemaMismatch)
    case _ => Err(UnknownLayerType)
  }

  /** `SceneLayerInformation::layer_type`: the tag of the profile. */
  function LayerType(info: SceneLayerInformation): (t: string)
    ensures t in KnownLayerTypes
  {
    match info
    case IntegratedMesh(_) => "IntegratedMesh"
    case DDDObject(_) => "3DObject"
    case Point(_) => "Point"
    case Building(_) => "Building"
    case PointCloud(_) => "PointCloud"
  }

  /**
   * Tag and profile are inverse: every decoded profile is recovered by
   * parsing its own tag, and two profiles with the same tag and document
   * are the same.
   */
  lemma {:induction false} LayerTypeRoundTrip(info: SceneLayerInformation, other: SceneLayerInformation, accepts: (Schema, Json) -> bool)
    requires accepts(SchemaOf(info), info.record)
    ensures ParseSceneLayerInfo(LayerType(info), info.record, accepts) == Ok(info)
    ensures LayerType(info) == LayerType(other) && info.record == other.record ==> info == other
  {
  }
}
