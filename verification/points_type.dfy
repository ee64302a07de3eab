/**
  The PointsType scene processor: stamps a constant `type` string variable
  onto points primitives, declares which of its plugs affect which outputs,
  and says which plug values feed the hashes of its processed object and
  bound.

  The base scene-element processor is not part of this model: its own
  `affects` relation is a parameter, `base`, and only what this node adds
  on top of it is stated.
 */
module PointsType {
  import opened PrimitiveVariables
  import opened SceneObjects
  import opened Plugs

  /** The name of the primitive variable the node writes. */
  const TypeName: string := "type"

  /** The value the `type` plug is created with. */
  const TypeDefault: string := ""

  // ---------------------------------------------------------------------
  // Dependencies

  /** The dependencies the node itself declares, as a relation on plugs. */
  predicate NodeDependency(input: Plug, output: Plug)
  {
    || (input == TypePlug && output == OutPlug(Object))
    || (input == OutPlug(Object) && output == OutPlug(Bound))
  }

  /**
    `affects(input, outputs)`: what the base class reports for `input`,
    followed by at most one output the node adds. Nothing the base reports
    is ever removed, and an output is affected exactly when the base or
    the node's own dependency relation says so.
   */
  function Affects(base: Plug -> seq<Plug>, input: Plug): (outputs: seq<Plug>)
    ensures base(input) <= outputs
    ensures |outputs| <= |base(input)| + 1
    ensures forall p :: p in outputs <==> p in base(input) || NodeDependency(input, p)
    ensures input != TypePlug && input != OutPlug(Object) ==> outputs == base(input)
  {
    var outputs := base(input);
    if input == TypePlug then outputs + [OutPlug(Object)]
    else if input == OutPlug(Object) then outputs + [OutPlug(Bound)]
    else outputs
  }

  // ---------------------------------------------------------------------
  // Hashing

  /**
    A hash under construction, modelled by the values fed into it so far
    (the digest algorithm is not modelled: two hashers are the same hash
    exactly when they were fed the same values).
   */
  datatype Hasher = Hasher(fed: seq<string>)

  /** The node's part of the processed object's hash: the `type` plug, nothing else. */
  function HashProcessedObject(h: Hasher, typeValue: string): (r: Hasher)
    ensures h.fed <= r.fed
    ensures r.fed[|h.fed|..] == [typeValue]
  {
    Hasher(h.fed + [typeValue])
  }

  /** The node's part of the processed bound's hash: that of the object. */
  function HashProcessedBound(h: Hasher, typeValue: string): (r: Hasher)
    ensures h.fed <= r.fed
    ensures r.fed[|h.fed|..] == [typeValue]
  {
    HashProcessedObject(h, typeValue)
  }

  // ---------------------------------------------------------------------
  // Object

  /** The variable the node writes for a requested type. */
  function TypeVariable(typeValue: string): PrimitiveVariable
  {
    PrimitiveVariable(Constant, StringData(typeValue))
  }

  /**
    Whether the node replaces the object: it is a points primitive, the
    requested type is not empty, and the points do not already carry a
    `type` variable of string data equal to it (whatever its interpolation).
   */
  predicate ChangesObject(typeValue: string, inputObject: SceneObject)
  {
    && inputObject.PointsPrimitive?
    && typeValue != ""
    && StringVariable(inputObject.variables, TypeName) != Some(typeValue)
  }

  /**
    `computeProcessedObject`: the input object itself, or a copy of the
    points whose `type` variable is a constant string holding the requested
    type, every other variable and the bound as they were.
   */
  function ComputeProcessedObject(typeValue: string, inputObject: SceneObject): (r: SceneObject)
    ensures !inputObject.PointsPrimitive? ==> r == inputObject
    ensures typeValue == "" ==> r == inputObject
    ensures (inputObject.PointsPrimitive? && StringVariable(inputObject.variables, TypeName) == Some(typeValue))
              ==> r == inputObject
    ensures ChangesObject(typeValue, inputObject) ==>
              && r.PointsPrimitive?
              && r.bound == inputObject.bound
              && Find(r.variables, TypeName) == Some(TypeVariable(typeValue))
              && (forall k | k != TypeName :: Find(r.variables, k) == Find(inputObject.variables, k))
              && Keys(r.variables) == Keys(inputObject.variables) + {TypeName}
  {
    if !inputObject.PointsPrimitive? then inputObject
    else if typeValue == "" then inputObject
    else if StringVariable(inputObject.variables, TypeName) == Some(typeValue) then inputObject
    else PointsPrimitive(Assign(inputObject.variables, TypeName, TypeVariable(typeValue)), inputObject.bound)
  }

  /** The object is returned unchanged exactly when the node has nothing to stamp. */
  lemma UnchangedIff(typeValue: string, inputObject: SceneObject)
    ensures (ComputeProcessedObject(typeValue, inputObject) == inputObject)
              <==> !ChangesObject(typeValue, inputObject)
  {
  }

  /**
    Read as a map, the processed variables are the input's with `type`
    set to the constant string: nothing else changes.
   */
  lemma ProcessedVariables(typeValue: string, inputObject: SceneObject)
    requires ChangesObject(typeValue, inputObject)
    ensures ToMap(ComputeProcessedObject(typeValue, inputObject).variables)
              == ToMap(inputObject.variables)[TypeName := TypeVariable(typeValue)]
  {
    AssignUpdatesMap(inputObject.variables, TypeName, TypeVariable(typeValue));
  }

  /** Processing an already processed object with the same type changes nothing. */
  lemma Idempotent(typeValue: string, inputObject: SceneObject)
    ensures var r := ComputeProcessedObject(typeValue, inputObject);
            ComputeProcessedObject(typeValue, r) == r
  {
  }

  /** With the `type` plug at its default value the node passes every object through. */
  lemma DefaultPassesThrough(inputObject: SceneObject)
    ensures ComputeProcessedObject(TypeDefault, inputObject) == inputObject
  {
  }

  /** An empty points primitive, onto which the node stamps any non-empty type. */
  function EmptyPoints(): (o: SceneObject)
    ensures o.PointsPrimitive? && Keys(o.variables) == {}
  {
    PointsPrimitive([], Box(V3(0.0, 0.0, 0.0), V3(0.0, 0.0, 0.0)))
  }

  /**
    The processed object really reads the `type` plug: two different type
    values are told apart by some input object. And the `type` plug is
    declared to affect the output object, whatever the base class reports.
   */
  lemma TypePlugIsRead(base: Plug -> seq<Plug>, t1: string, t2: string)
    requires t1 != t2
    ensures exists o :: ComputeProcessedObject(t1, o) != ComputeProcessedObject(t2, o)
    ensures OutPlug(Object) in Affects(base, TypePlug)
  {
    var o := EmptyPoints();
    var r1, r2 := ComputeProcessedObject(t1, o), ComputeProcessedObject(t2, o);
    if t1 == "" {
      assert TypeName in Keys(r2.variables);
    } else if t2 == "" {
      assert TypeName in Keys(r1.variables);
    } else {
      assert Find(r1.variables, TypeName) != Find(r2.variables, TypeName);
    }
  }

  /**
    The object hash is exact for what the node computes: two type values
    give the same hash if and only if they give the same processed object
    for every input object.
   */
  lemma ObjectHashMatchesCompute(h: Hasher, t1: string, t2: string)
    ensures (HashProcessedObject(h, t1) == HashProcessedObject(h, t2))
              <==> forall o :: ComputeProcessedObject(t1, o) == ComputeProcessedObject(t2, o)
  {
    var a, b := HashProcessedObject(h, t1), HashProcessedObject(h, t2);
    if t1 != t2 {
      assert a.fed[|h.fed|] == t1 && b.fed[|h.fed|] == t2;
      TypePlugIsRead(_ => [], t1, t2);
    }
  }

  // ---------------------------------------------------------------------
  // Bound

  /**
    `computeProcessedBound`: the bound the output object reports when it is
    a primitive, the incoming bound otherwise.
   */
  function ComputeProcessedBound(outputObject: SceneObject, inputBound: Box): (r: Box)
    ensures IsPrimitive(outputObject) ==> r == outputObject.bound
    ensures !IsPrimitive(outputObject) ==> r == inputBound
  {
    if IsPrimitive(outputObject) then outputObject.bound else inputBound
  }

  /**
    Read through the node's own output object, the processed bound is the
    input object's bound when that is a primitive and the incoming bound
    otherwise: stamping `type` never moves a bound.
   */
  lemma ProcessedBound(typeValue: string, inputObject: SceneObject, inputBound: Box)
    ensures ComputeProcessedBound(ComputeProcessedObject(typeValue, inputObject), inputBound)
              == if IsPrimitive(inputObject) then inputObject.bound else inputBound
  {
  }

  /** A box different from `b`. */
  function OtherBox(b: Box): (r: Box)
    ensures r != b
  {
    var x := b.min.x + 1.0;
    Box(V3(x, b.min.y, b.min.z), b.max)
  }

  /**
    The processed bound really reads the output object: two output objects
    are told apart by it for every incoming bound. And the output object is
    declared to affect the output bound, whatever the base class reports.
   */
  lemma OutputObjectIsRead(base: Plug -> seq<Plug>, inputBound: Box)
    ensures exists o1, o2 :: ComputeProcessedBound(o1, inputBound) != ComputeProcessedBound(o2, inputBound)
    ensures OutPlug(Bound) in Affects(base, OutPlug(Object))
  {
    var o1 := NonPrimitive("");
    var o2 := OtherPrimitive("", [], OtherBox(inputBound));
    assert ComputeProcessedBound(o1, inputBound) != ComputeProcessedBound(o2, inputBound);
  }

  /**
    The processed bound never depends on the `type` value the bound hash is
    fed, but it does depend on the input object, which the node's bound hash
    is not fed: for every type value and incoming bound, two input objects
    give different processed bounds.
   */
  lemma BoundHashLeavesObjectToBase(t1: string, t2: string, inputBound: Box)
    ensures forall o :: ComputeProcessedBound(ComputeProcessedObject(t1, o), inputBound)
                          == ComputeProcessedBound(ComputeProcessedObject(t2, o), inputBound)
    ensures exists o1, o2 ::
              ComputeProcessedBound(ComputeProcessedObject(t1, o1), inputBound)
              != ComputeProcessedBound(ComputeProcessedObject(t1, o2), inputBound)
  {
    forall o
      ensures ComputeProcessedBound(ComputeProcessedObject(t1, o), inputBound)
                == ComputeProcessedBound(ComputeProcessedObject(t2, o), inputBound)
    {
      ProcessedBound(t1, o, inputBound);
      ProcessedBound(t2, o, inputBound);
    }
    var o1 := NonPrimitive("");
    var o2 := OtherPrimitive("", [], OtherBox(inputBound));
    assert ComputeProcessedBound(ComputeProcessedObject(t1, o1), inputBound)
           != ComputeProcessedBound(ComputeProcessedObject(t1, o2), inputBound);
  }
}
