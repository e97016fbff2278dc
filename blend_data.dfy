/** The part of the host's scene data the add-on reads and writes, as
    plain values.  Every name and type tag is a string, as the host
    exposes it. */
module BlendData {
  import opened Common
  import opened Geometry

  /** `obj.type` of a mesh object. */
  const MeshType: string := "MESH"

  /** `node.type` of a Principled BSDF shader node. */
  const PrincipledType: string := "BSDF_PRINCIPLED"

  /** A UV map or a vertex-colour layer of a mesh. */
  datatype Layer = Layer(name: string, active: bool)

  /** A shader node; `specular` is the default value of its "Specular"
      input. */
  datatype Node = Node(name: string, nodeType: string, specular: real)

  /** A material: `use_nodes` and the nodes of its node tree. */
  datatype Material = Material(name: string, useNodes: bool, nodes: seq<Node>)

  /** Mesh data: UV maps, vertex-colour layers and material slots; an empty
      slot is `None`. */
  datatype Mesh = Mesh(uvLayers: seq<Layer>, vertexColors: seq<Layer>, materials: seq<Option<Material>>)

  /** What `obj.data` holds: nothing (an empty), a mesh (which has
      `polygons`), or data of another kind (a curve, a light, ...) that has
      no `polygons`. */
  datatype ObjectData = NoData | MeshData(mesh: Mesh) | OtherData(kind: string)

  /** A scene object.  `boundBox` holds the corners of `bound_box` already
      taken to world space by `matrix_world`. */
  datatype SceneObject = SceneObject(
    name: string,
    objType: string,
    selected: bool,
    data: ObjectData,
    boundBox: seq<Vec3>)

  /** What the host guarantees of every object: mesh objects, and only
      they, carry mesh data, and the bound box has eight corners. */
  predicate WellFormed(o: SceneObject) {
    (o.objType == MeshType <==> o.data.MeshData?) && |o.boundBox| == 8
  }

  /** A selected mesh object: the objects the mesh and material operators
      act on. */
  predicate IsSelectedMesh(o: SceneObject) {
    o.selected && o.objType == MeshType
  }

  /** A collection of objects (`bpy.data.collections[...]`). */
  datatype Collection = Collection(objects: seq<SceneObject>)

  /** `[obj.name for obj in objects]`. */
  function ObjectNames(objects: seq<SceneObject>): (names: seq<string>)
    ensures |names| == |objects|
    ensures forall i :: 0 <= i < |objects| ==> names[i] == objects[i].name
  {
    seq(|objects|, i requires 0 <= i < |objects| => objects[i].name)
  }
}
