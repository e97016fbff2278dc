# CSY Tools: a Dafny model of the add-on's decision and data logic

CSY Tools is a Blender add-on. It puts six one-off operators in the 3D
view's sidebar. Most of its code calls into Blender. This project models
the parts that decide or compute something, over plain values:

- **Sanity Check Collection**: the fixed list of nine required object names
  is compared with the names of the objects in the collection called
  "Collection". The operator lists the missing names, in the order of the
  required list. It returns CANCELLED when the collection is absent or a
  name is missing, and FINISHED otherwise.
- **Create BOUND**: the two guards that cancel the operator, and the
  axis-aligned bounding box of the object's world-space bound-box corners.
  The new cube is placed at the box's centre and scaled by half its size.
  Arithmetic is exact (`real`). The midpoint and half-size facts hold
  exactly only there, not in the host's floating point.
- **Apply Origin and Transformations** and **Apply Rotation & Scale +
  Origin**: only their "no active object" guard. The rest is host operators.
- **Set Specular to 0.500** and **Rename UVs and VTX Colors**: nested loops
  that update the scene's objects in place. They are modelled as a `Scene`
  class whose `objects` field the two methods reassign. Each object,
  material and node is a datatype value. The value of each object after
  the update is given by a specification function. The lemmas next to
  that function state what the operator promises and that running it
  twice changes nothing more.

Modules: `Common` (status, option), `Geometry` (vectors, min/max, boxes),
`BlendData` (scene datatypes), `ObjectTools`, `SanityCheck`, `UVRename`,
`Specular`, `Operators` (the `Scene` class).

The bound operator's second guard tests whether the object's data
exists and has a `polygons` attribute. So it cancels for empties and for
non-mesh data, but a mesh with zero polygons passes the guard. Here that is
`data.MeshData?`.

## Model

| member | source | states |
|---|---|---|
| `Geometry.MinOf` | csy_tools.py:46 | Python's `min` scan: the result is at most every element and equals one of them |
| `Geometry.MaxOf` | csy_tools.py:47 | Python's `max` scan: the result is at least every element and equals one of them |
| `Geometry.MinCorner` | csy_tools.py:46 | on each axis `min_corner` is at most every corner's coordinate and equals some corner's coordinate |
| `Geometry.MaxCorner` | csy_tools.py:47 | on each axis `max_corner` is at least every corner's coordinate and equals some corner's coordinate |
| `Geometry.BoundingBox` | csy_tools.py:45-47 | the box from `min_corner` to `max_corner` encloses every corner, and on every axis both faces are attained by some corner |
| `Geometry.BoundingBoxIsSmallest` | csy_tools.py:45-47 | every axis-aligned box enclosing the corners contains both corners of the bounding box |
| `Geometry.BoundingBoxSizeNonNegative` | csy_tools.py:49 | `max_corner - min_corner` is non-negative on every axis |
| `Geometry.Box.Center` | csy_tools.py:48 | `(min_corner + max_corner) / 2` is equidistant from both faces on every axis |
| `Geometry.Box.Size` | csy_tools.py:49 | `min_corner + bbox_size == max_corner` on every axis |
| `ObjectTools.FitCube` | csy_tools.py:44-57 | the cube is named "BOUND", its location is the per-axis midpoint of min and max, its scale is half of max minus min and non-negative, and location ± scale is exactly min and max |
| `ObjectTools.CreateSimpleBound` | csy_tools.py:32-57 | CANCELLED with no cube when there is no active object, or its data is missing or not mesh data; otherwise FINISHED with the fitted cube; FINISHED exactly when a cube is created |
| `ObjectTools.BoundEnclosesObject` | csy_tools.py:45-57 | every world-space corner lies inside the created cube, and any box enclosing the corners encloses the cube |
| `ObjectTools.ApplyOriginAndTransform` | csy_tools.py:98-114 | CANCELLED exactly when there is no active object |
| `ObjectTools.ApplyRotationScaleAndSetOrigin` | csy_tools.py:123-139 | CANCELLED exactly when there is no active object |
| `BlendData.ObjectNames` | csy_tools.py:217 | one name per object of the collection, in order |
| `SanityCheck.Missing` | csy_tools.py:216-222 | a name is in the missing list iff it is required and not among the collection's names; the list keeps the required order (a subsequence of it) |
| `SanityCheck.MissingDistinct` | csy_tools.py:219-222 | a required list without repeats gives a missing list without repeats |
| `SanityCheck.RequiredObjectsDistinct` | csy_tools.py:192-202 | the nine required names are pairwise different |
| `SanityCheck.CollectMissing` | csy_tools.py:207-222 | the append loop builds exactly the missing list |
| `SanityCheck.SanityCheckCollection` | csy_tools.py:204-232 | CANCELLED with nothing listed when "Collection" is absent; otherwise lists the missing names and is CANCELLED iff any is missing; FINISHED iff the collection exists and holds all nine names; no name is listed twice |
| `UVRename.RenamedLayers` | csy_tools.py:173-179 | every layer gets the new name, the count and each layer's other fields are kept |
| `UVRename.RenameLayers` | csy_tools.py:173-179 | the per-layer rename loop gives exactly `RenamedLayers` |
| `UVRename.Renamed` | csy_tools.py:170-180 | on a selected mesh object every UV map is named "UV" and every vertex-colour layer "VTX", with layer counts and materials kept; any other object is unchanged |
| `UVRename.RenamedIdempotent` | csy_tools.py:170-180 | renaming twice gives the same object as renaming once |
| `Specular.NodeWithSpecular` | csy_tools.py:154-156 | a Principled BSDF node gets specular 0.5; other nodes are unchanged; type and name are kept |
| `Specular.MaterialWithSpecular` | csy_tools.py:152-156 | empty slots and materials without nodes are unchanged; a node-based material keeps its name and node count, and each node is updated |
| `Specular.ObjectWithSpecular` | csy_tools.py:150-156 | on a selected mesh object every material slot is updated and the layers are kept; any other object is unchanged |
| `Specular.SpecularApplied` | csy_tools.py:150-156 | after the update, each Principled node of a node-based material of a selected mesh has specular 0.5; every other node is unchanged |
| `Specular.ObjectWithSpecularIdempotent` | csy_tools.py:150-156 | setting the specular twice gives the same object as setting it once |
| `Specular.SetNodesSpecular` | csy_tools.py:154-156 | the node loop updates each node as `NodeWithSpecular` and keeps the count |
| `Specular.SetMaterialsSpecular` | csy_tools.py:152-156 | the material-slot loop updates each slot as `MaterialWithSpecular` and keeps the count |
| `Operators.Scene.SetMaterialSpecular` | csy_tools.py:148-159 | FINISHED; the scene keeps its objects in number and order, and each becomes `ObjectWithSpecular` of what it was |
| `Operators.Scene.RenameUVAndVertexColors` | csy_tools.py:168-183 | FINISHED; the scene keeps its objects in number and order, and each becomes `Renamed` of what it was |

## Left out

- The host operators `primitive_cube_add`, `mode_set`, `origin_set` and `transform_apply` are not modelled. Their behaviour belongs to Blender. The cube is represented by the name, location and scale the add-on gives it.
- The loop-cut subdivision of the bound cube and the `loop_cuts` property with its 0..5 range are not modelled. They use the bmesh library and float-tolerance edge selection.
- The `matrix_world @ corner` transform is not modelled. The corners are given already in world space.
- Floating point: coordinates are exact reals, so rounding in the midpoint and half-size is not modelled. Python's `min`/`max` with NaN is not modelled either.
- The panel layout, `register`/`unregister`, `bl_info`, `print` logging and the text of `self.report` messages are not modelled. The missing-names list the warning reports is returned instead.
- Blender makes layer names unique within a mesh: a second UV map renamed "UV" becomes "UV.001". That is host behaviour. The model states the names the add-on assigns.
- Meshes and materials that several objects share are not modelled. Objects hold their data by value.
- The "Specular" input is a field of every node. So the model does not capture the lookup failing on hosts where the Principled BSDF has no input of that name.
- Material slots linked to the object rather than to its mesh are not modelled. The add-on only walks `obj.data.materials`.
- ObjectTools.CreateSimpleBound: the FINISHED result assumes Object Mode, with `primitive_cube_add` making the new cube the active object. In Edit Mode the cube is added into the mesh being edited, and `context.object` (csy_tools.py:53) stays the reference object. Lines 56-57 then rename that object "BOUND" and rescale it without moving it. A host operator that fails raises an exception; that is not modelled either.
- ObjectTools.ApplyOriginAndTransform: FINISHED assumes that `origin_set` and `transform_apply` (csy_tools.py:106, 110) succeed. They raise an exception outside Object Mode or on shared data, so the operator never returns FINISHED; that exception path is not modelled.
- ObjectTools.ApplyRotationScaleAndSetOrigin: FINISHED assumes that `transform_apply` and `origin_set` (csy_tools.py:131, 135) succeed. They raise an exception outside Object Mode or on shared data, so the operator never returns FINISHED; that exception path is not modelled.
