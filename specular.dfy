/** "Set Specular to 0.500": on every selected mesh object, in every
    material slot holding a node-based material, every Principled BSDF
    node's "Specular" input is set to 0.5. */
module Specular {
  import opened Common
  import opened BlendData

  const SpecularValue: real := 0.5

  /** A node as the operator leaves it: a Principled BSDF node gets specular
      0.5, any other node is untouched, and nothing but the specular value
      changes. */
  function NodeWithSpecular(n: Node): (r: Node)
    ensures r.nodeType == n.nodeType && r.name == n.name
    ensures n.nodeType == PrincipledType ==> r.specular == SpecularValue
    ensures n.nodeType != PrincipledType ==> r == n
  {
    if n.nodeType == PrincipledType then n.(specular := SpecularValue) else n
  }

  /** A material slot as the operator leaves it: an empty slot or a material
      without nodes is untouched; a node-based material keeps its name and
      its node count and has each node updated as `NodeWithSpecular`. */
  function MaterialWithSpecular(m: Option<Material>): (r: Option<Material>)
    ensures !(m.Some? && m.value.useNodes) ==> r == m
    ensures m.Some? && m.value.useNodes ==>
      && r.Some? && r.value.name == m.value.name && r.value.useNodes
      && |r.value.nodes| == |m.value.nodes|
      && forall j :: 0 <= j < |r.value.nodes| ==> r.value.nodes[j] == NodeWithSpecular(m.value.nodes[j])
  {
    if m.Some? && m.value.useNodes then
      var nodes := m.value.nodes;
      Some(m.value.(nodes := seq(|nodes|, j requires 0 <= j < |nodes| => NodeWithSpecular(nodes[j]))))
    else m
  }

  /** An object as the operator leaves it: on a selected mesh object every
      material slot is updated as `MaterialWithSpecular` and the layers are
      kept; any other object is untouched. */
  function ObjectWithSpecular(o: SceneObject): (r: SceneObject)
    requires WellFormed(o)
    ensures WellFormed(r)
    ensures !IsSelectedMesh(o) ==> r == o
    ensures r.name == o.name && r.objType == o.objType && r.selected == o.selected
    ensures r.boundBox == o.boundBox && r.data.MeshData? == o.data.MeshData?
    ensures IsSelectedMesh(o) ==>
      var before, after := o.data.mesh, r.data.mesh;
      && after.uvLayers == before.uvLayers
      && after.vertexColors == before.vertexColors
      && |after.materials| == |before.materials|
      && forall k :: 0 <= k < |after.materials| ==> after.materials[k] == MaterialWithSpecular(before.materials[k])
  {
    if IsSelectedMesh(o) then
      var mats := o.data.mesh.materials;
      o.(data := MeshData(o.data.mesh.(materials :=
        seq(|mats|, k requires 0 <= k < |mats| => MaterialWithSpecular(mats[k])))))
    else o
  }

  /** What the operator promises of an object: afterwards every Principled
      BSDF node of every node-based material of a selected mesh object has
      specular 0.5, and every other node keeps its value. */
  lemma SpecularApplied(o: SceneObject, k: nat, j: nat)
    requires WellFormed(o) && IsSelectedMesh(o)
    requires k < |o.data.mesh.materials|
    requires o.data.mesh.materials[k].Some?
    requires j < |o.data.mesh.materials[k].value.nodes|
    ensures var m := ObjectWithSpecular(o).data.mesh.materials[k];
      var n := o.data.mesh.materials[k].value.nodes[j];
      && m.Some? && j < |m.value.nodes|
      && (o.data.mesh.materials[k].value.useNodes && n.nodeType == PrincipledType ==>
            m.value.nodes[j].specular == SpecularValue)
      && (!o.data.mesh.materials[k].value.useNodes || n.nodeType != PrincipledType ==>
            m.value.nodes[j] == n)
  {
    var m := o.data.mesh.materials[k];
    assert ObjectWithSpecular(o).data.mesh.materials[k] == MaterialWithSpecular(m);
  }

  /** Setting the specular twice leaves the same object as setting it
      once. */
  lemma ObjectWithSpecularIdempotent(o: SceneObject)
    requires WellFormed(o)
    ensures ObjectWithSpecular(ObjectWithSpecular(o)) == ObjectWithSpecular(o)
  {
    if IsSelectedMesh(o) {
      var once := ObjectWithSpecular(o).data.mesh.materials;
      var twice := ObjectWithSpecular(ObjectWithSpecular(o)).data.mesh.materials;
      forall k | 0 <= k < |once| ensures twice[k] == once[k] {
        var m := once[k];
        if m.Some? && m.value.useNodes {
          assert MaterialWithSpecular(m).value.nodes == m.value.nodes;
        }
      }
      assert twice == once;
    }
  }

  /** The innermost loop: for each node of a node tree, set the specular of
      a Principled BSDF node. */
  method SetNodesSpecular(nodes: seq<Node>) returns (updated: seq<Node>)
    ensures |updated| == |nodes|
    ensures forall j :: 0 <= j < |nodes| ==> updated[j] == NodeWithSpecular(nodes[j])
  {
    updated := nodes;
    for j := 0 to |nodes|
      invariant |updated| == |nodes|
      invariant forall i :: 0 <= i < j ==> updated[i] == NodeWithSpecular(nodes[i])
      invariant forall i :: j <= i < |nodes| ==> updated[i] == nodes[i]
    {
      if updated[j].nodeType == PrincipledType {
        updated := updated[j := updated[j].(specular := SpecularValue)];
      }
    }
  }

  /** The loop over an object's material slots: skip empty slots and
      materials without nodes, update the nodes of the others. */
  method SetMaterialsSpecular(materials: seq<Option<Material>>) returns (updated: seq<Option<Material>>)
    ensures |updated| == |materials|
    ensures forall k :: 0 <= k < |materials| ==> updated[k] == MaterialWithSpecular(materials[k])
  {
    updated := materials;
    for k := 0 to |materials|
      invariant |updated| == |materials|
      invariant forall i :: 0 <= i < k ==> updated[i] == MaterialWithSpecular(materials[i])
      invariant forall i :: k <= i < |materials| ==> updated[i] == materials[i]
    {
      var mat := updated[k];
      if mat.Some? && mat.value.useNodes {
        var nodes := SetNodesSpecular(mat.value.nodes);
        updated := updated[k := Some(mat.value.(nodes := nodes))];
        assert updated[k].value.nodes == MaterialWithSpecular(materials[k]).value.nodes;
      }
    }
  }
}
