/**
 * The node and mesh records of `src/common.rs`, the variant of the schema
 * whose nodes can be annotated in place with their tree level. The node is
 * a class because `set_level` updates it through `&mut self`; the mesh
 * references and texture sets are the values of module `Cmn`.
 */
module Common {
  import opened Wrappers
  import opened Cmn

  /** `Mesh::has_material`: the mesh references a material. */
  predicate HasMaterial(m: Mesh)
    ensures HasMaterial(m) <==> m.material != None
  {
    !m.material.None?
  }

  /** `Mesh::has_geometry`: the mesh references a geometry buffer. */
  predicate HasGeometry(m: Mesh)
    ensures HasGeometry(m) <==> m.geometry != None
  {
    !m.geometry.None?
  }

  /** `Mesh::has_attribute`: the mesh references an attribute resource. */
  predicate HasAttribute(m: Mesh)
    ensures HasAttribute(m) <==> m.attribute != None
  {
    !m.attribute.None?
  }

  /** A decoded node; `level` and the four resource paths are private fields. */
  class Node {
    var index: i32
    var parentIndex: Option<i32>
    var children: Option<seq<i32>>
    var mesh: Option<Mesh>
    var level: Option<i32>
    var uncompressedGeometryPath: Option<string>
    var compressedGeometryPath: Option<string>
    var uncompressedTexturesPath: Option<string>
    var compressedTexturesPath: Option<string>

    /**
     * A node as deserialized from a node page: every field takes the value
     * the document gives, and `level` and the four resource paths are `None`
     * exactly when the document leaves them out.
     */
    constructor (index: i32, parentIndex: Option<i32>, children: Option<seq<i32>>, mesh: Option<Mesh>,
                 level: Option<i32>,
                 uncompressedGeometryPath: Option<string>, compressedGeometryPath: Option<string>,
                 uncompressedTexturesPath: Option<string>, compressedTexturesPath: Option<string>)
      ensures this.index == index && this.parentIndex == parentIndex
      ensures this.children == children && this.mesh == mesh
      ensures this.level == level
      ensures this.uncompressedGeometryPath == uncompressedGeometryPath
      ensures this.compressedGeometryPath == compressedGeometryPath
      ensures this.uncompressedTexturesPath == uncompressedTexturesPath
      ensures this.compressedTexturesPath == compressedTexturesPath
    {
      this.index := index;
      this.parentIndex := parentIndex;
      this.children := children;
      this.mesh := mesh;
      this.level := level;
      this.uncompressedGeometryPath := uncompressedGeometryPath;
      this.compressedGeometryPath := compressedGeometryPath;
      this.uncompressedTexturesPath := uncompressedTexturesPath;
      this.compressedTexturesPath := compressedTexturesPath;
    }

    /** `Node::get_level`: the level last recorded, if any; reading it changes nothing. */
    function GetLevel(): (l: Option<i32>)
      reads this
      ensures l == level
    {
      level
    }

    /** `Node::is_root`: the node names no parent. */
    predicate IsRoot()
      reads this
      ensures IsRoot() <==> parentIndex == None
    {
      parentIndex.None?
    }

    /** `Node::is_leaf`: the node's `children` field is absent (an empty array is not a leaf). */
    predicate IsLeaf()
      reads this
      ensures IsLeaf() <==> children == None
    {
      children.None?
    }

    /**
     * `Node::set_level`: records `l` as the node's level. Nothing else about
     * the node changes, so it stays root or leaf exactly as before, and
     * setting a level the node already has changes nothing at all.
     */
    method SetLevel(l: i32)
      modifies this`level
      ensures GetLevel() == Some(l)
      ensures IsRoot() == old(IsRoot()) && IsLeaf() == old(IsLeaf())
      ensures old(GetLevel()) == Some(l) ==> unchanged(this)
    {
      level := Some(l);
    }
  }

  /** Setting a level twice is the same as setting it once; the second call changes nothing. */
  method SetLevelTwice(n: Node, l: i32)
    modifies n`level
    ensures n.GetLevel() == Some(l)
    ensures unchanged(n`index, n`parentIndex, n`children, n`mesh)
    ensures unchanged(n`uncompressedGeometryPath, n`compressedGeometryPath)
    ensures unchanged(n`uncompressedTexturesPath, n`compressedTexturesPath)
  {
    n.SetLevel(l);
    label once:
    n.SetLevel(l);
    assert unchanged@once(n);
  }
}
