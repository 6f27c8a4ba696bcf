# i3s-rs node-page core, in Dafny

A model of the core of `i3s-rs`, a Rust reader for OGC I3S (Indexed 3D Scene
Layer) data that uses the node-page indexing of I3S 1.7 and later. A scene
layer's nodes are stored flat and split into pages of `nodesPerPage` nodes.
A global node index is turned into a page number and an offset by integer
division. An `IntegratedMesh` holds the pages it has loaded and answers
`node`, `nodes` and `root` by that arithmetic. Over REST, the pages are
fetched one by one until a response no longer decodes. The root document's
`layerType` tag selects one of five profiles. In an SLPK archive, the
node-page resources are the entries whose names contain `nodepages`.

Files, one module per Rust source file:

- `wrappers.dfy`: `Option` and `Result`.
- `cmn.dfy` (module `Cmn`, from `src/cmn.rs`). It has the node, mesh and
  texture-set records and the `is_root`, `is_leaf` and
  `has_compressed_textures` predicates. It also has the default
  geometry-buffer attribute records as constants, with the `-1` face-range
  sentinel, and the serde defaults used when a field is absent.
- `common.dfy` (module `Common`, from `src/common.rs`). Its `Node` is a class,
  because `set_level` updates the node in place. The mesh predicates live
  here too. `common.rs`'s `Mesh` and `TextureSetDefinition` have the same
  fields as `cmn.rs`'s, so the model reuses `Cmn`'s types. `common.rs:556-563`
  (`has_compressed_textures`) has the same code as `cmn.rs:653-660`, so
  `Cmn.HasCompressedTextures` models both.
- `i3s.dfy` (modules `I3s` and `LayerDispatch`, from `src/i3s.rs`). It has the
  index arithmetic, the `IntegratedMesh` lookups, the `from_rest` loop and
  the layer-type dispatch.
- `io.dfy` (module `Io`, from `src/io.rs`). It has `find_node_page_paths`, and
  `ZipFileReadError` with its conversions and `Display`.

Inputs the model takes as parameters, because they are I/O or library code:

- `from_rest` works over a sequence of `Response`s. Element `k` is what the
  service answered to the request for `layers/0/nodepages/k`.
- gzip inflation is an opaque function `gunzip`, and JSON decoding of a node
  page is an opaque function `decode`.
- Whether serde accepts a root document for a given record shape is an opaque
  predicate `accepts`.
- An archive is the sequence of its entry names.

## Model

| member | source | states |
|---|---|---|
| `I3s.GetNodePageIndex` | src/i3s.rs:13-15 | The page number is the floor of index / page size: `page * n <= i < page * n + n` |
| `I3s.GetNodeIndexInNodePage` | src/i3s.rs:17-19 | The offset is below the page size, and `page * n + offset` gives back the index |
| `I3s.AddressRoundTrip` | src/i3s.rs:13-19 | Every (page, offset) pair with offset < n splits back to itself, so the split is a bijection |
| `I3s.Node` | src/i3s.rs:228-234 | Node `i` is taken from page `i / n`. When every node carries its global index, the node found is numbered `i` |
| `I3s.Nodes` | src/i3s.rs:236-238 | Same length as `indices`, and element `k` is `node(indices[k])`, so the order is kept |
| `I3s.Root` | src/i3s.rs:263-265 | The root is `node(root_index)`, a direct lookup and not a search. When every node carries its global index, the root's index is `root_index` |
| `I3s.NodeIsConcatenationIndex` | src/i3s.rs:228-234 | Suppose every page but the last is full. Then node `i` resolves iff `i` is below the total node count, and it is the `i`-th node of the pages concatenated in order |
| `I3s.FiveNodeLayer` | src/i3s.rs:228-238 | With 2 nodes per page and 5 nodes, node 4 is page 2 offset 0. The root is node 0, which has no parent. The root's own children [1, 2] resolve in order, and node 5 does not resolve |
| `I3s.Drain` | src/i3s.rs:241-261 | Reference definition of the page loop. `Ok` holds exactly the leading run of decoded pages, followed by a response that does not decode. `Err` is the fatal error of the first response that stops the run |
| `I3s.FromRest` | src/i3s.rs:241-261 | Pages are requested in order 0, 1, … and each is requested only after all earlier ones decoded. The loop stops at the first non-decoding response. The result equals `Drain`: the decoded pages in request order with default page size and root, or the transport/gzip error with no partial mesh |
| `I3s.DrainStopsAt` | src/i3s.rs:244-259 | If requests 0..n-1 decoded and request n did not, the outcome is fixed by request n: its error, or exactly the first n pages |
| `I3s.ZeroSizeNode` | src/i3s.rs:228-234 | `node` as written at page size 0: the NaN and infinity casts leave node 0 at page 0 offset 0, so only node 0 can resolve, and it is the first node of the first page. Every later index panics |
| `I3s.RestMeshPanicsFromNodeOne` | src/i3s.rs:207-212 | A service whose page 0 holds two nodes. In the mesh `from_rest` builds from it (page size 0), node 0 and so `root()` still resolve through the NaN cast, but node 1 and every index after it panic. The same pages with page size 2 resolve node 1 |
| `I3s.FromRestWithDefinition` | src/i3s.rs:241-261 | The page loop, with page size and root taken from the layer's node-page definition. A non-positive page size or negative root is refused. With full pages, every loaded node resolves by its global index |
| `LayerDispatch.Get` | src/i3s.rs:129-131 | `get` on a JSON value gives a member exactly when the value is an object holding that key |
| `LayerDispatch.AsStr` | src/i3s.rs:132-133 | `as_str` gives text exactly for a JSON string |
| `LayerDispatch.GetLayerType` | src/i3s.rs:128-135 | Succeeds iff the document is an object whose `layerType` member is a string, and returns that string. A missing or non-string member is an error |
| `LayerDispatch.ParseSceneLayerInfo` | src/i3s.rs:137-163 | An unknown tag is an error. A known tag either fails schema decoding or yields the profile with that tag, decoded with its record shape (IntegratedMesh and 3DObject share one) |
| `LayerDispatch.LayerType` | src/i3s.rs:316-325 | Every profile maps to one of the five known tags |
| `LayerDispatch.LayerTypeRoundTrip` | src/i3s.rs:316-325 | Parsing a profile's own tag on its own document gives back that profile. Tag and document determine the profile |
| `Cmn.IsRoot` | src/cmn.rs:688-690 | A node is the root iff `parentIndex` is absent |
| `Cmn.IsLeaf` | src/cmn.rs:692-694 | A node is a leaf iff `children` is absent. `Some([])` is not a leaf |
| `Cmn.HasCompressedTextures` | src/cmn.rs:653-660 | False iff there is exactly one format. True for none and for two or more |
| `Cmn.NewFaceRange` | src/cmn.rs:357-373 | `Uint32`, `per-feature`, and the given component count, or the sentinel `-1` when none is given |
| `Cmn.NewFaceRangeSentinelCollision` | src/cmn.rs:357-379 | Two face ranges are equal iff their arguments are equal, or one is absent and the other is `-1` |
| `Cmn.DecodeGeometryBuffer` | src/cmn.rs:381-398 | A present field is kept. An absent one takes its default: offset 0, position and normal 3×Float32, uv0 2×Float32, featureId 1×UInt32 per-feature, face range Uint32 per-feature with component `-1`, compressed attributes `draco` with none listed |
| `Cmn.DecodeGeometryBufferDefaults` | src/cmn.rs:239-346 | A fully spelled-out buffer decodes back to itself. An empty one decodes to the default attribute records |
| `Cmn.DecodeCompressedAttributes` | src/cmn.rs:400-418 | An absent encoding becomes `draco`, and the attribute list is kept as given |
| `Cmn.DecodeNodePageDefinition` | src/cmn.rs:504-511 | An absent `rootIndex` becomes 0, and the other fields are kept |
| `Cmn.DecodeValueHeader` | src/cmn.rs:141-153 | An absent `timeEncoding` becomes `ECMA_ISO8601`, and the other fields are kept |
| `Common.HasMaterial` | src/common.rs:642-644 | True iff the mesh has a material reference |
| `Common.HasGeometry` | src/common.rs:646-648 | True iff the mesh has a geometry reference |
| `Common.HasAttribute` | src/common.rs:650-652 | True iff the mesh has an attribute reference |
| `Common.Node.constructor` | src/common.rs:579-602 | A deserialized node holds exactly what its document gives: index, parent, children, mesh, and the optional level and four resource paths, each `None` only when the document leaves it out |
| `Common.Node.GetLevel` | src/common.rs:609-611 | Returns the recorded level. It is a read and changes nothing |
| `Common.Node.IsRoot` | src/common.rs:613-615 | Root iff `parentIndex` is absent |
| `Common.Node.IsLeaf` | src/common.rs:617-619 | Leaf iff `children` is absent |
| `Common.Node.SetLevel` | src/common.rs:605-607 | Afterwards `get_level() == Some(l)`. Only `level` may change, so root/leaf status is kept. Setting a level the node already has changes nothing |
| `Common.SetLevelTwice` | src/common.rs:605-607 | Two `set_level(l)` calls leave the node as one does: level `Some(l)`, every other field unchanged |
| `Io.ContainsIsSubstring` | src/io.rs:17 | `contains` holds exactly when the pattern occurs at some position of the name |
| `Io.FindNodePagePaths` | src/io.rs:14-20 | Every returned name contains `nodepages`, every entry name containing it is returned, and there are no more results than entries |
| `Io.FindNodePagePathsKeepsOrder` | src/io.rs:14-20 | The result is a subsequence of the listing, so order is kept and nothing is sorted. Each matching name keeps its multiplicity and other names are dropped |
| `Io.FindNodePagePathsKeepsAll` | src/io.rs:14-20 | The result is as long as the listing iff every entry name matches |
| `Io.FromZipError` | src/io.rs:29-33 | A zip error becomes the `Zip` variant carrying it |
| `Io.FromIoError` | src/io.rs:35-39 | An I/O error becomes the `IO` variant carrying it |
| `Io.FromJsonError` | src/io.rs:41-45 | A JSON error becomes the `Json` variant carrying it |
| `Io.Display` | src/io.rs:47-51 | Writes exactly `ZipFileReadError: ` |
| `Io.ConversionsAreFaithful` | src/io.rs:29-51 | Each conversion is one-to-one and their images are disjoint. Every error is the conversion of the library error it carries, and all variants display alike |

## Left out

- `Service`, `ServiceBuilder`, `Service::get` and `src/stream.rs` (HTTP over reqwest) are network I/O. Their answers are the `responses` parameter.
- `SceneLayerPackage::open`, `files`, `size`, `is_empty`, `decode_json_gz`, `decode_gzip_buffer`, `unzip_scene_layer_info` and `ZipFileReader::from_zip_file` wrap the zip, flate2 and serde_json libraries. Decoding is the opaque `gunzip`, `decode` and `accepts`, and an archive is its list of entry names.
- Floating point is not modelled: oriented bounding boxes, `lodThreshold`, `valuesPerElement`, material factors and statistics.
- I3s.GetNodePageIndex: the source casts the index and the page size to `f32` and divides in floating point. That is exact only while both are below 2^24. The model uses exact natural-number division, so it does not show the rounding of larger indices.
- I3s.Node: a page size of 0 is outside its precondition. In the source, the `f32` division then gives NaN for index 0, which casts to page 0. Every other index gives infinity, which casts to `usize::MAX` and panics. That case is modelled separately by `I3s.ZeroSizeNode`.
- I3s.Node: an index outside the loaded pages makes the source panic. The model makes this a precondition (`NodeInRange`), not an error value.
- I3s.FromRest: the source loops forever against a service whose every page decodes. The model requires that some response stops the loop.
- I3s.FromRest: the `u32` page counter's overflow after 2^32 pages is not modelled.
- The profile records are not modelled. This covers `SceneLayerInfo`, `Store`, material and texture definitions, and the `pcl.rs`, `bld.rs` and `psl.rs` schemas with their `Default` impls. Other serde defaults (geometry topology `triangle`, PBR factors, alpha cutoff, cull face) are left out as well. A decoded profile carries the document it was decoded from.
- The `SceneLayer`, `Format` and `Profile` types and the `DDDObject`, `PointCloud`, `Point` and `Building` structs are not modelled. They hold data and no code uses them.
- `GeometryColor::new` (src/cmn.rs:308-315) is not modelled: no modelled record has a color field.
- JSON numbers are integers in `LayerDispatch.Json`.
- No code in this library builds resource paths for geometry, texture or attribute payloads. Its `MeshGeometry`, `MeshMaterial` and `MeshAttribute` fields are private.
- I3S also describes behaviour this code does not implement, and the model follows the code. Node pages are not sorted by page number. They stay in archive-listing order or request order. A node with `children: []` is not a leaf. A missing node panics instead of returning an error. A root that has a parent is accepted. No parent/child consistency check is made.
- `src/main.rs`, `examples/*.rs` and `src/lib.rs` are driver code and are not part of this model.

## Findings

| source | as written | input that shows it | evidently intended | confidence | as-written member | corrected member |
|---|---|---|---|---|---|---|
| src/i3s.rs:241-261 | `from_rest` builds `IntegratedMesh::default()` and only pushes pages. `nodes_per_page` and `root_index` stay 0, and nothing else can set them because both fields are private | A service whose page 0 decodes to two nodes and whose page 1 does not decode. `node(1)` then divides by a zero page size and panics, although page 0 holds node 1. Every later index panics too; only node 0 (and so `root()`) resolves, through the NaN cast | Page size and root index taken from the layer's node-page definition (`nodePages.nodesPerPage`, `nodePages.rootIndex`) | medium; not executed | `I3s.RestMeshPanicsFromNodeOne` | `I3s.FromRestWithDefinition` |
