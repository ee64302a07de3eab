/**
  The objects a scene location can hold. Run-time type tests on the object
  hierarchy become pattern matching on this closed datatype.
 */
module SceneObjects {
  import opened PrimitiveVariables

  /** A corner of a bounding box; coordinates are never inspected. */
  datatype V3 = V3(x: real, y: real, z: real)

  /** An axis-aligned bounding box, treated as an opaque value. */
  datatype Box = Box(min: V3, max: V3)

  /**
    A points primitive, any other primitive (mesh, curves, ...), or an object
    that is not a primitive at all (camera, light, ...). A primitive carries
    its variables and the bound it reports.
   */
  datatype SceneObject =
    | PointsPrimitive(variables: VariableMap, bound: Box)
    | OtherPrimitive(typeName: string, variables: VariableMap, bound: Box)
    | NonPrimitive(typeName: string)

  /** Whether a run-time cast to `Primitive` succeeds. */
  predicate IsPrimitive(o: SceneObject)
  {
    !o.NonPrimitive?
  }
}
