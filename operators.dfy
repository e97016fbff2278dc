/** The two operators that change scene data in place.  The scene's objects
    are a field the operators reassign; `context.selected_objects` is the
    objects whose `selected` flag is set, in scene order. */
module Operators {
  import opened Common
  import opened BlendData
  import UVRename
  import Specular

  class Scene {
    var objects: seq<SceneObject>

    /** Every object is as the host guarantees. */
    predicate Valid()
      reads this
    {
      forall i :: 0 <= i < |objects| ==> WellFormed(objects[i])
    }

    constructor (objects: seq<SceneObject>)
      requires forall i :: 0 <= i < |objects| ==> WellFormed(objects[i])
      ensures Valid() && this.objects == objects
    {
      this.objects := objects;
    }

    /** "Set Specular to 0.500": always FINISHED; each object becomes
        `ObjectWithSpecular` of what it was, the number and order of objects
        are kept. */
    method SetMaterialSpecular() returns (status: Status)
      requires Valid()
      modifies this
      ensures Valid() && status == Finished
      ensures |objects| == |old(objects)|
      ensures forall i :: 0 <= i < |objects| ==> objects[i] == Specular.ObjectWithSpecular(old(objects[i]))
    {
      var i := 0;
      while i < |objects|
        invariant 0 <= i <= |objects| == |old(objects)|
        invariant forall k :: 0 <= k < i ==> objects[k] == Specular.ObjectWithSpecular(old(objects[k]))
        invariant forall k :: i <= k < |objects| ==> objects[k] == old(objects[k])
      {
        var obj := objects[i];
        if obj.objType == MeshType && obj.selected {
          var mesh := obj.data.mesh;
          var materials := Specular.SetMaterialsSpecular(mesh.materials);
          objects := objects[i := obj.(data := MeshData(mesh.(materials := materials)))];
          assert objects[i].data.mesh.materials == Specular.ObjectWithSpecular(obj).data.mesh.materials;
        }
        i := i + 1;
      }
      status := Finished;
    }

    /** "Rename UVs and VTX Colors": always FINISHED; each object becomes
        `Renamed` of what it was, the number and order of objects are
        kept. */
    method RenameUVAndVertexColors() returns (status: Status)
      requires Valid()
      modifies this
      ensures Valid() && status == Finished
      ensures |objects| == |old(objects)|
      ensures forall i :: 0 <= i < |objects| ==> objects[i] == UVRename.Renamed(old(objects[i]))
    {
      var i := 0;
      while i < |objects|
        invariant 0 <= i <= |objects| == |old(objects)|
        invariant forall k :: 0 <= k < i ==> objects[k] == UVRename.Renamed(old(objects[k]))
        invariant forall k :: i <= k < |objects| ==> objects[k] == old(objects[k])
      {
        var obj := objects[i];
        if obj.objType == MeshType && obj.selected {
          var mesh := obj.data.mesh;
          var uvLayers := UVRename.RenameLayers(mesh.uvLayers, UVRename.UVName);
          var vertexColors := UVRename.RenameLayers(mesh.vertexColors, UVRename.VertexColorName);
          objects := objects[i := obj.(data := MeshData(mesh.(uvLayers := uvLayers, vertexColors := vertexColors)))];
        }
        i := i + 1;
      }
      status := Finished;
    }
  }
}
