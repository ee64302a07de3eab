# PointsType scene processor — a Dafny model

Gaffer's `PointsType` node is a scene-element processor. At every location it
processes, it may stamp a constant `type` string primitive variable onto a
points primitive. Renderers use that variable to choose how points are drawn
(particles, disks, spheres, ...). The node has one plug of its own, the
`type` string plug, which defaults to the empty string. It also declares two
things:

- which of its plugs affect which outputs;
- which plug values feed the hashes of its processed object and processed bound.

The model has five modules:

- `StringOrder` (`string_order.dfy`): the `std::string` ordering
  (lexicographic, shorter prefix first), which orders the keys of a
  primitive's variable map. It is proved irreflexive, transitive and total.
- `PrimitiveVariables` (`primitive_variables.dfy`): interpolations, variable
  data, primitive variables and the variable map. The map is kept as a
  sequence of entries with strictly increasing names, which is how a
  `std::map` is ordered. `Find` is lookup, `Assign` is
  `variables[name] = value`, and `ToMap` reads the entries as a mathematical
  map. `ToMap` is the independent reference that `Find` and `Assign` are
  proved against. `StringVariable` is `variableData<StringData>`.
- `SceneObjects` (`scene_objects.dfy`): a closed datatype of scene objects
  (points primitive, other primitive, non-primitive). Matching on it
  replaces the run-time casts.
- `Plugs` (`plugs.dfy`): the plugs `affects` can be asked about.
- `PointsType` (`points_type.dfy`): the node. `TypeDefault` is the plug's
  default value from `src/GafferScene/PointsType.cpp:55`.

## Model

| member | source | states |
|---|---|---|
| PointsType.Affects | src/GafferScene/PointsType.cpp:72-84 | The base class's outputs are a prefix of the result, so the node only appends. An output is affected exactly when the base reports it or the node's own relation holds: type plug → output object, output object → output bound. Every other input gets exactly the base's list. |
| PointsType.HashProcessedObject | src/GafferScene/PointsType.cpp:111-114 | The object hash only appends to what was fed before, and what it appends is the type plug's value alone. |
| PointsType.HashProcessedBound | src/GafferScene/PointsType.cpp:91-94 | The bound hash feeds exactly what the object hash feeds: the type plug's value alone. |
| PointsType.TypePlugIsRead | src/GafferScene/PointsType.cpp:76-141 | The processed object really reads the type plug: any two different type values give different results on some input object (an empty points primitive). And the type plug is declared to affect the output object, whatever the base reports. |
| PointsType.ObjectHashMatchesCompute | src/GafferScene/PointsType.cpp:111-142 | Two type values give the same object hash if and only if they give the same processed object for every input object. The hash is fed exactly the node's own input that the computation reads. |
| PointsType.ComputeProcessedObject | src/GafferScene/PointsType.cpp:116-142 | Three cases return the input unchanged: a non-points object (whatever the type), an empty type, or points already holding a string `type` equal to the request (of any interpolation). Otherwise the result is points with the same bound. Its `type` is a Constant string of the request, every other variable is found exactly as before, and the key set gains only `type`. |
| PointsType.UnchangedIff | src/GafferScene/PointsType.cpp:118-136 | The input object comes back unchanged if and only if one of the three early-return conditions holds. |
| PointsType.ProcessedVariables | src/GafferScene/PointsType.cpp:138-141 | When the node stamps, the output variables, read as a map, equal the input's with `type` set to the Constant string. Nothing else changes. |
| PointsType.Idempotent | src/GafferScene/PointsType.cpp:130-139 | Processing the node's own output again with the same type returns that output unchanged. |
| PointsType.DefaultPassesThrough | src/GafferScene/PointsType.cpp:124-128 | With the type plug at its default (empty) value, every object passes through unchanged. |
| PointsType.ComputeProcessedBound | src/GafferScene/PointsType.cpp:96-104 | The result is the output object's own bound when it is a primitive, and the incoming bound otherwise. |
| PointsType.ProcessedBound | src/GafferScene/PointsType.cpp:96-104 | Read through the node's own output object, the processed bound is the input object's bound when that is a primitive, and the incoming bound otherwise. Stamping `type` never moves a bound. |
| PointsType.OutputObjectIsRead | src/GafferScene/PointsType.cpp:80-104 | The processed bound really reads the output object: for every incoming bound, some two output objects give different bounds. And the output object is declared to affect the output bound, whatever the base reports. |
| PointsType.BoundHashLeavesObjectToBase | src/GafferScene/PointsType.cpp:91-104 | The processed bound is the same for every type value, although the type value is all the node's bound hash is fed. For every type value it does differ between some two input objects, and the node's bound hash is not fed the input object. |
| PrimitiveVariables.StringVariable | src/GafferScene/PointsType.cpp:130 | The typed lookup finds text `s` exactly when the variable exists and holds string data `s`, whatever its interpolation. It finds nothing when the variable is missing or holds other data. |
| PrimitiveVariables.Assign | src/GafferScene/PointsType.cpp:139 | `variables["type"] = v` gives a map that is still strictly ordered. `v` is found under the name, every other name is found as before, and the key set gains only the name. The size grows by one exactly when the name is new. |
| PrimitiveVariables.AssignUpdatesMap | src/GafferScene/PointsType.cpp:139 | Read as a mathematical map, assignment is map update at the name. |

## Left out

- The base scene-element processor is not part of this model. Its `affects` is the function parameter `base`. Its filtering, and the way it combines the hashes and calls the compute methods, are not modelled.
- The digest algorithm (MurmurHash) is left out. A hash is modelled as the sequence of values fed into it, so equal hashes mean equal inputs. The type plug's own hash is modelled as its value, so the evaluation context is not modelled.
- Bounds are opaque boxes of reals, and no float arithmetic is done. `Primitive::bound()` is modelled as a bound stored on the primitive, and copying the points keeps it. In the library the bound is computed from variables the node never writes.
- Object copying and reference counting are left out: a copy is a new value. Null object pointers and null variable data are not modelled.
- `ComputeProcessedBound` takes the output object's value as a parameter. Reading it from the output object plug goes through the unseen plug machinery.
- The plug constructor, `typePlug()` accessors and the run-time type registration are left out. They are bookkeeping with no behaviour beyond the default value `TypeDefault`.
- Strings are modelled as Unicode text (`seq<char>`), compared by code point. `std::string` compares bytes as unsigned char; the two orders agree on valid UTF-8, and other byte strings are not modelled.
- `processesBound` and `processesObject` (`src/GafferScene/PointsType.cpp:86-89`, `106-109`) return `true`. They switch on behaviour of the base class, which is not part of this model, so they have no counterpart.
- PointsType.HashProcessedBound: the node's bound hash is fed only the type value, and the processed bound never depends on it. Whether the input object, which the bound reads through the output object, reaches the bound hash depends on the base class's hash, which is not part of this model. `PointsType.BoundHashLeavesObjectToBase` shows that the node's own part does not cover it.
