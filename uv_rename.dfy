/** "Rename UVs and VTX Colors": on every selected mesh object, every UV map
    is renamed "UV" and every vertex-colour layer "VTX". */
module UVRename {
  import opened BlendData

  const UVName: string := "UV"
  const VertexColorName: string := "VTX"

  /** `layers` with every name set to `name` and nothing else changed. */
  function RenamedLayers(layers: seq<Layer>, name: string): (r: seq<Layer>)
    ensures |r| == |layers|
    ensures forall j :: 0 <= j < |r| ==> r[j].name == name && r[j].active == layers[j].active
  {
    seq(|layers|, j requires 0 <= j < |layers| => layers[j].(name := name))
  }

  /** The loop `for layer in layers: layer.name = name`, one layer at a
      time. */
  method RenameLayers(layers: seq<Layer>, name: string) returns (renamed: seq<Layer>)
    ensures renamed == RenamedLayers(layers, name)
  {
    renamed := layers;
    var j := 0;
    while j < |renamed|
      invariant 0 <= j <= |renamed| == |layers|
      invariant forall k :: 0 <= k < j ==> renamed[k] == layers[k].(name := name)
      invariant forall k :: j <= k < |renamed| ==> renamed[k] == layers[k]
    {
      renamed := renamed[j := renamed[j].(name := name)];
      j := j + 1;
    }
  }

  /** One object as the operator leaves it.  A selected mesh object gets
      every UV map named "UV" and every vertex-colour layer named "VTX",
      with the layer counts, the layers' other fields and the materials
      kept; every other object, and every other field, is unchanged. */
  function Renamed(o: SceneObject): (r: SceneObject)
    requires WellFormed(o)
    ensures WellFormed(r)
    ensures !IsSelectedMesh(o) ==> r == o
    ensures r.name == o.name && r.objType == o.objType && r.selected == o.selected
    ensures r.boundBox == o.boundBox && r.data.MeshData? == o.data.MeshData?
    ensures IsSelectedMesh(o) ==>
      var before, after := o.data.mesh, r.data.mesh;
      && after.materials == before.materials
      && |after.uvLayers| == |before.uvLayers|
      && |after.vertexColors| == |before.vertexColors|
      && (forall j :: 0 <= j < |after.uvLayers| ==>
            after.uvLayers[j].name == UVName && after.uvLayers[j].active == before.uvLayers[j].active)
      && (forall j :: 0 <= j < |after.vertexColors| ==>
            after.vertexColors[j].name == VertexColorName
            && after.vertexColors[j].active == before.vertexColors[j].active)
  {
    if IsSelectedMesh(o) then
      var mesh := o.data.mesh;
      o.(data := MeshData(mesh.(uvLayers := RenamedLayers(mesh.uvLayers, UVName),
                                vertexColors := RenamedLayers(mesh.vertexColors, VertexColorName))))
    else o
  }

  /** Renaming twice leaves the same object as renaming once. */
  lemma RenamedIdempotent(o: SceneObject)
    requires WellFormed(o)
    ensures Renamed(Renamed(o)) == Renamed(o)
  {
    if IsSelectedMesh(o) {
      var once := Renamed(o).data.mesh;
      var twice := Renamed(Renamed(o)).data.mesh;
      assert twice.uvLayers == once.uvLayers;
      assert twice.vertexColors == once.vertexColors;
    }
  }
}
