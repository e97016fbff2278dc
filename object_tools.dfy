/** The object operators: "Create BOUND" and the two transform-baking
    operators.  The host operators they invoke (adding a cube, setting the
    origin, applying transforms) are not modelled; what remains is each
    operator's guard and, for the bound, the box the cube is fitted to. */
module ObjectTools {
  import opened Common
  import opened Geometry
  import opened BlendData

  /** The name given to the new cube. */
  const BoundName: string := "BOUND"

  /** The cube `primitive_cube_add` creates, as the operator leaves it: its
      name, location and scale.  The host's cube spans -1..1 on every axis
      before scaling. */
  datatype Cube = Cube(name: string, location: Vec3, scale: Vec3)

  /** The cube fitted to a non-empty set of world-space corners: located at
      the centre of their bounding box and scaled by half its size, so that
      on every axis it spans exactly from the minimum to the maximum. */
  function FitCube(corners: seq<Vec3>): (c: Cube)
    requires |corners| > 0
    ensures c.name == BoundName
    ensures forall a :: c.location.At(a) * 2.0 == MinOf(Column(corners, a)) + MaxOf(Column(corners, a))
    ensures forall a :: c.scale.At(a) * 2.0 == MaxOf(Column(corners, a)) - MinOf(Column(corners, a))
    ensures forall a :: c.scale.At(a) >= 0.0
    ensures forall a :: c.location.At(a) - c.scale.At(a) == BoundingBox(corners).lo.At(a)
    ensures forall a :: c.location.At(a) + c.scale.At(a) == BoundingBox(corners).hi.At(a)
  {
    var box := BoundingBox(corners);
    BoundingBoxSizeNonNegative(corners);
    Cube(BoundName, box.Center(), box.Size().Div(2.0))
  }

  /** "Create BOUND": CANCELLED, creating nothing, when there is no active
      object or its data is missing or has no `polygons`; otherwise
      FINISHED with the cube fitted to the object's world-space bound box. */
  function CreateSimpleBound(active: Option<SceneObject>): (r: (Status, Option<Cube>))
    requires active.Some? ==> WellFormed(active.value)
    ensures active.None? ==> r == (Cancelled, None)
    ensures active.Some? && !active.value.data.MeshData? ==> r == (Cancelled, None)
    ensures r.0 == Finished <==> r.1.Some?
    ensures active.Some? && active.value.data.MeshData? ==>
      r == (Finished, Some(FitCube(active.value.boundBox)))
  {
    match active
    case None => (Cancelled, None)
    case Some(reference) =>
      if reference.data.NoData? then (Cancelled, None)
      else if !reference.data.MeshData? then (Cancelled, None)
      else (Finished, Some(FitCube(reference.boundBox)))
  }

  /** Every corner of the object's bound box lies inside the cube, and the
      cube is the smallest axis-aligned box that does so. */
  lemma BoundEnclosesObject(o: SceneObject, other: Box)
    requires WellFormed(o) && o.data.MeshData?
    requires Encloses(other, o.boundBox)
    ensures CreateSimpleBound(Some(o)).1.Some?
    ensures var c := CreateSimpleBound(Some(o)).1.value;
      forall i, a :: 0 <= i < |o.boundBox| ==>
        c.location.At(a) - c.scale.At(a) <= o.boundBox[i].At(a) <= c.location.At(a) + c.scale.At(a)
    ensures var c := CreateSimpleBound(Some(o)).1.value;
      forall a :: other.lo.At(a) <= c.location.At(a) - c.scale.At(a)
               && c.location.At(a) + c.scale.At(a) <= other.hi.At(a)
  {
    var c := CreateSimpleBound(Some(o)).1.value;
    var box := BoundingBox(o.boundBox);
    BoundingBoxIsSmallest(o.boundBox, other);
    forall i, a | 0 <= i < |o.boundBox|
      ensures c.location.At(a) - c.scale.At(a) <= o.boundBox[i].At(a) <= c.location.At(a) + c.scale.At(a)
    {
      assert box.Contains(o.boundBox[i]);
    }
  }

  /** "Apply Origin and Transformations": CANCELLED exactly when there is no
      active object; the host operators it then runs are not modelled. */
  function ApplyOriginAndTransform(active: Option<SceneObject>): (r: Status)
    ensures r == Cancelled <==> active.None?
  {
    if active.None? then Cancelled else Finished
  }

  /** "Apply Rotation & Scale + Origin": CANCELLED exactly when there is no
      active object; the host operators it then runs are not modelled. */
  function ApplyRotationScaleAndSetOrigin(active: Option<SceneObject>): (r: Status)
    ensures r == Cancelled <==> active.None?
  {
    if active.None? then Cancelled else Finished
  }
}
