/**
 * The I3S 1.7 schema records of `src/cmn.rs` that carry logic: the node
 * predicates, the texture-set check, the default geometry-buffer attribute
 * records with the `-1` face-range sentinel, and the serde defaults applied
 * when a field is absent from the JSON document.
 *
 * Floating-point fields (oriented bounding boxes, LOD thresholds, factors)
 * are not part of this model.
 */
module Cmn {
  import opened Wrappers

  /** Rust's `i32`. */
  type i32 = x: int | -0x8000_0000 <= x < 0x8000_0000

  // ---------------------------------------------------------------------------
  // Node pages and nodes
  // ---------------------------------------------------------------------------

  datatype MeshMaterial = MeshMaterial(definition: i32, resource: i32, texelCountHint: i32)
  datatype MeshGeometry = MeshGeometry(definition: i32, resource: i32, vertexCount: i32, featureCount: i32)
  datatype MeshAttribute = MeshAttribute(resource: i32)

  datatype Mesh = Mesh(
    material: Option<MeshMaterial>,
    geometry: Option<MeshGeometry>,
    attribute: Option<MeshAttribute>)

  /** A node of a node page; `children` is an optional JSON array. */
  datatype Node = Node(
    index: i32,
    parentIndex: Option<i32>,
    children: Option<seq<i32>>,
    mesh: Option<Mesh>)

  datatype NodePage = NodePage(nodes: seq<Node>)

  /** `Node::is_root`: a node is the root exactly when it names no parent. */
  predicate IsRoot(n: Node)
    ensures IsRoot(n) <==> n.parentIndex == None
  {
    match n.parentIndex
    case None => true
    case Some(_) => false
  }

  /**
   * `Node::is_leaf`: a node is a leaf exactly when its `children` field is
   * absent. A present but empty array does not make a leaf.
   */
  predicate IsLeaf(n: Node)
    ensures IsLeaf(n) <==> n.children == None
    ensures n.children == Some([]) ==> !IsLeaf(n)
  {
    match n.children
    case None => true
    case Some(_) => false
  }

  // ---------------------------------------------------------------------------
  // Texture sets
  // ---------------------------------------------------------------------------

  datatype TextureSetDefinitionFormat = TextureSetDefinitionFormat(name: string, format: string)

  datatype TextureSetDefinition = TextureSetDefinition(
    formats: seq<TextureSetDefinitionFormat>,
    atlas: Option<bool>)

  /**
   * `TextureSetDefinition::has_compressed_textures`: only a set with exactly
   * one format is reported as uncompressed; an empty list and any list of two
   * or more formats are reported as compressed.
   */
  predicate HasCompressedTextures(t: TextureSetDefinition)
    ensures !HasCompressedTextures(t) <==> |t.formats| == 1
    ensures |t.formats| >= 2 ==> HasCompressedTextures(t)
    ensures t.formats == [] ==> HasCompressedTextures(t)
  {
    match |t.formats|
    case 1 => false
    case _ => true
  }

  // ---------------------------------------------------------------------------
  // Geometry-buffer attribute records and their defaults
  // ---------------------------------------------------------------------------

  /** The `{type, component}` records: position, normal, uv0 and color. */
  datatype VertexAttributeLayout = VertexAttributeLayout(dtype: string, component: i32)

  /** The `{type, component, binding}` records: featureId and faceRange. */
  datatype BoundAttributeLayout = BoundAttributeLayout(dtype: string, component: i32, binding: string)

  const DefaultPosition: VertexAttributeLayout := VertexAttributeLayout("Float32", 3)
  const DefaultNormal: VertexAttributeLayout := VertexAttributeLayout("Float32", 3)
  const DefaultUv0: VertexAttributeLayout := VertexAttributeLayout("Float32", 2)
  const DefaultFeatureId: BoundAttributeLayout := BoundAttributeLayout("UInt32", 1, "per-feature")

  /** The component count that stands for "no component count given". */
  const FaceRangeSentinel: i32 := -1

  /**
   * `GeometryFaceRange::new`: a given component count is stored as it is,
   * an absent one becomes the sentinel `-1`; the element type and binding
   * are fixed.
   */
  function NewFaceRange(component: Option<i32>): (r: BoundAttributeLayout)
    ensures r.dtype == "Uint32" && r.binding == "per-feature"
    ensures component.Some? ==> r.component == component.value
    ensures component.None? ==> r.component == FaceRangeSentinel
  {
    match component
    case Some(c) => BoundAttributeLayout("Uint32", c, "per-feature")
    case None => BoundAttributeLayout("Uint32", -1, "per-feature")
  }

  /** `GeometryFaceRange::default`. */
  const DefaultFaceRange: BoundAttributeLayout := NewFaceRange(None)

  /**
   * The sentinel cannot be told apart from an explicit `-1`: two face
   * ranges are equal exactly when their arguments are equal or one is
   * absent and the other is `-1`.
   */
  lemma {:induction false} NewFaceRangeSentinelCollision(a: Option<i32>, b: Option<i32>)
    ensures NewFaceRange(a) == NewFaceRange(b) <==>
              (a == b || (a == None && b == Some(FaceRangeSentinel)) || (a == Some(FaceRangeSentinel) && b == None))
  {
  }

  datatype CompressedAttributes = CompressedAttributes(encoding: string, attributes: Option<seq<string>>)

  /** The encoding assumed when a document names none. */
  const DefaultCompressedEncoding: string := "draco"

  /** `CompressedAttributes::default`. */
  const DefaultCompressedAttributes: CompressedAttributes :=
    CompressedAttributes(DefaultCompressedEncoding, None)

  /** A geometry buffer: every field falls back to its default when absent. */
  datatype GeometryBuffer = GeometryBuffer(
    offset: i32,
    position: VertexAttributeLayout,
    normal: VertexAttributeLayout,
    uv0: VertexAttributeLayout,
    featureId: BoundAttributeLayout,
    faceRange: BoundAttributeLayout,
    compressedAttributes: CompressedAttributes)

  /** The fields of a `geometryBuffers` entry as they appear (or not) in the document. */
  datatype GeometryBufferFields = GeometryBufferFields(
    offset: Option<i32>,
    position: Option<VertexAttributeLayout>,
    normal: Option<VertexAttributeLayout>,
    uv0: Option<VertexAttributeLayout>,
    featureId: Option<BoundAttributeLayout>,
    faceRange: Option<BoundAttributeLayout>,
    compressedAttributes: Option<CompressedAttributes>)

  function OrDefault<T>(o: Option<T>, default: T): T {
    match o
    case Some(v) => v
    case None => default
  }

  /**
   * Decoding a `GeometryBuffer` under its `#[serde(default)]` fields: a field
   * that is present is kept, an absent one takes the type's `Default`.
   */
  function DecodeGeometryBuffer(f: GeometryBufferFields): (b: GeometryBuffer)
    ensures b.offset == OrDefault(f.offset, 0)
    ensures f.position == None ==> b.position == VertexAttributeLayout("Float32", 3)
    ensures f.normal == None ==> b.normal == VertexAttributeLayout("Float32", 3)
    ensures f.uv0 == None ==> b.uv0 == VertexAttributeLayout("Float32", 2)
    ensures f.featureId == None ==> b.featureId == BoundAttributeLayout("UInt32", 1, "per-feature")
    ensures f.faceRange == None ==> b.faceRange == BoundAttributeLayout("Uint32", FaceRangeSentinel, "per-feature")
    ensures f.compressedAttributes == None ==> b.compressedAttributes == CompressedAttributes("draco", None)
    ensures f.position.Some? ==> b.position == f.position.value
    ensures f.normal.Some? ==> b.normal == f.normal.value
    ensures f.uv0.Some? ==> b.uv0 == f.uv0.value
    ensures f.featureId.Some? ==> b.featureId == f.featureId.value
    ensures f.faceRange.Some? ==> b.faceRange == f.faceRange.value
    ensures f.compressedAttributes.Some? ==> b.compressedAttributes == f.compressedAttributes.value
  {
    GeometryBuffer(
      OrDefault(f.offset, 0),
      OrDefault(f.position, DefaultPosition),
      OrDefault(f.normal, DefaultNormal),
      OrDefault(f.uv0, DefaultUv0),
      OrDefault(f.featureId, DefaultFeatureId),
      OrDefault(f.faceRange, DefaultFaceRange),
      OrDefault(f.compressedAttributes, DefaultCompressedAttributes))
  }

  /** The document that spells out every field of `b`. */
  function Spelled(b: GeometryBuffer): GeometryBufferFields {
    GeometryBufferFields(Some(b.offset), Some(b.position), Some(b.normal), Some(b.uv0),
                         Some(b.featureId), Some(b.faceRange), Some(b.compressedAttributes))
  }

  /**
   * Omitting a field and spelling out its default decode alike, and a buffer
   * written out in full decodes back to itself.
   */
  lemma {:induction false} DecodeGeometryBufferDefaults(b: GeometryBuffer)
    ensures DecodeGeometryBuffer(Spelled(b)) == b
    ensures DecodeGeometryBuffer(GeometryBufferFields(None, None, None, None, None, None, None)) ==
            GeometryBuffer(0, DefaultPosition, DefaultNormal, DefaultUv0, DefaultFeatureId,
                           DefaultFaceRange, DefaultCompressedAttributes)
  {
  }

  /** `CompressedAttributes` as decoded: an absent `encoding` becomes `"draco"`. */
  function DecodeCompressedAttributes(encoding: Option<string>, attributes: Option<seq<string>>): (c: CompressedAttributes)
    ensures c.attributes == attributes
    ensures encoding.Some? ==> c.encoding == encoding.value
    ensures encoding.None? ==> c.encoding == "draco"
  {
    CompressedAttributes(OrDefault(encoding, DefaultCompressedEncoding), attributes)
  }

  // ---------------------------------------------------------------------------
  // Node-page definition and attribute-value records
  // ---------------------------------------------------------------------------

  /** The layer's `nodePages` object: page size and root node. */
  datatype NodePageDefinition = NodePageDefinition(
    nodesPerPage: i32,
    lodSelectionMetricType: string,
    rootIndex: i32)

  /** `NodePageDefinition` as decoded: an absent `rootIndex` becomes `0`. */
  function DecodeNodePageDefinition(nodesPerPage: i32, lodSelectionMetricType: string, rootIndex: Option<i32>): (d: NodePageDefinition)
    ensures d.nodesPerPage == nodesPerPage && d.lodSelectionMetricType == lodSelectionMetricType
    ensures rootIndex.Some? ==> d.rootIndex == rootIndex.value
    ensures rootIndex.None? ==> d.rootIndex == 0
  {
    NodePageDefinition(nodesPerPage, lodSelectionMetricType, OrDefault(rootIndex, 0))
  }

  /** The time encoding assumed when a value header names none. */
  const DefaultTimeEncoding: string := "ECMA_ISO8601"

  /** An attribute value header (`Value` in the schema); `valuesPerElement` is a float and is left out. */
  datatype ValueHeader = ValueHeader(valueType: string, encoding: Option<string>, timeEncoding: string)

  /** `Value` as decoded: an absent `timeEncoding` becomes `"ECMA_ISO8601"`. */
  function DecodeValueHeader(valueType: string, encoding: Option<string>, timeEncoding: Option<string>): (v: ValueHeader)
    ensures v.valueType == valueType && v.encoding == encoding
    ensures timeEncoding.Some? ==> v.timeEncoding == timeEncoding.value
    ensures timeEncoding.None? ==> v.timeEncoding == "ECMA_ISO8601"
  {
    ValueHeader(valueType, encoding, OrDefault(timeEncoding, DefaultTimeEncoding))
  }
}
