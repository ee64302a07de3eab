/**
  Primitive variables and the map that holds them on a primitive.

  A primitive's variables live in a `std::map` from variable name to
  (interpolation, data). The model keeps that map as what it is underneath:
  a sequence of entries whose names are strictly increasing in string order.
  `Find` is the map's lookup, `Assign` is `variables[name] = value`
  (insert-or-overwrite), and `ToMap` is an independent reference reading of
  the same entries as a mathematical map.
 */
module PrimitiveVariables {
  import StringOrder

  datatype Option<T> = None | Some(value: T)

  /** How a variable's values are spread over the primitive. */
  datatype Interpolation = Invalid | Constant | Uniform | Vertex | Varying | FaceVarying

  /**
    The data a variable holds. Only string data is inspected by the node;
    every other data type is an opaque payload tagged with its type name.
   */
  datatype Data =
    | StringData(text: string)
    | OtherData(typeName: string, payload: seq<int>)

  datatype PrimitiveVariable = PrimitiveVariable(interpolation: Interpolation, data: Data)

  type Entry = (string, PrimitiveVariable)

  /** The names held by a sequence of entries. */
  function Keys(entries: seq<Entry>): set<string>
  {
    if |entries| == 0 then {} else {entries[0].0} + Keys(entries[1..])
  }

  /** Each name is smaller than every name after it: the `std::map` ordering. */
  predicate StrictlySorted(entries: seq<Entry>)
  {
    |entries| == 0 ||
    ((forall k | k in Keys(entries[1..]) :: StringOrder.Less(entries[0].0, k))
     && StrictlySorted(entries[1..]))
  }

  type VariableMap = entries: seq<Entry> | StrictlySorted(entries) witness []

  /** `variables.find(name)`. */
  function Find(m: VariableMap, name: string): (r: Option<PrimitiveVariable>)
    ensures r.Some? <==> name in Keys(m)
  {
    if |m| == 0 then None
    else if m[0].0 == name then Some(m[0].1)
    else Find(m[1..], name)
  }

  /** A name that sorts below every key of `m` is not a key of `m`. */
  lemma BelowAllNotKey(m: VariableMap, name: string)
    requires forall k | k in Keys(m) :: StringOrder.Less(name, k)
    ensures name !in Keys(m)
  {
    StringOrder.LessIrreflexive(name);
  }

  /** Every key of a map is above `low` once its first key is. */
  lemma {:induction false} FirstBoundsAll(m: VariableMap, low: string)
    requires |m| > 0 && StringOrder.Less(low, m[0].0)
    ensures forall k | k in Keys(m) :: StringOrder.Less(low, k)
  {
    forall k | k in Keys(m)
      ensures StringOrder.Less(low, k)
    {
      if k != m[0].0 {
        assert k in Keys(m[1..]);
        StringOrder.LessTransitive(low, m[0].0, k);
      }
    }
  }

  /**
    `variables[name] = v`: overwrites the entry for `name` when there is one,
    otherwise inserts it at its place in the order. The result is again a
    well-ordered map, holds `v` under `name`, and agrees with `m` elsewhere.
   */
  function Assign(m: VariableMap, name: string, v: PrimitiveVariable): (r: VariableMap)
    ensures Find(r, name) == Some(v)
    ensures forall k | k != name :: Find(r, k) == Find(m, k)
    ensures Keys(r) == Keys(m) + {name}
    ensures |r| == if name in Keys(m) then |m| else |m| + 1
  {
    if |m| == 0 then
      var r := [(name, v)];
      assert r[1..] == [];
      r
    else if m[0].0 == name then
      var r := [(name, v)] + m[1..];
      assert r[1..] == m[1..];
      r
    else if StringOrder.Less(name, m[0].0) then
      FirstBoundsAll(m, name);
      BelowAllNotKey(m, name);
      var r := [(name, v)] + m;
      assert r[1..] == m;
      r
    else
      StringOrder.LessTotal(name, m[0].0);
      var rest := Assign(m[1..], name, v);
      var r := [m[0]] + rest;
      assert r[1..] == rest;
      assert name !in Keys(m[1..]) ==> name !in Keys(m);
      r
  }

  /** The entries read as a mathematical map (earlier entries win, as `Find` does). */
  function ToMap(m: seq<Entry>): map<string, PrimitiveVariable>
  {
    if |m| == 0 then map[] else ToMap(m[1..])[m[0].0 := m[0].1]
  }

  /** `Find` is lookup in the reference map, and the keys are the same. */
  lemma {:induction false} FindAgreesWithMap(m: VariableMap, name: string)
    ensures Find(m, name) == if name in ToMap(m) then Some(ToMap(m)[name]) else None
    ensures ToMap(m).Keys == Keys(m)
  {
    if |m| > 0 {
      FindAgreesWithMap(m[1..], name);
    }
  }

  /** Assignment is map update on the reference map: nothing but `name` changes. */
  lemma AssignUpdatesMap(m: VariableMap, name: string, v: PrimitiveVariable)
    ensures ToMap(Assign(m, name, v)) == ToMap(m)[name := v]
  {
  }

  /**
    `variableData<StringData>(name)` with no required interpolation: the
    text of the variable `name` when it exists and holds string data, of
    any interpolation; nothing otherwise.
   */
  function StringVariable(m: VariableMap, name: string): (r: Option<string>)
    ensures r.Some? ==> Find(m, name).Some? && Find(m, name).value.data == StringData(r.value)
    ensures forall i: Interpolation, s: string ::
              Find(m, name) == Some(PrimitiveVariable(i, StringData(s))) ==> r == Some(s)
    ensures r.None? <==> Find(m, name).None? || !Find(m, name).value.data.StringData?
  {
    match Find(m, name)
    case None => None
    case Some(pv) => if pv.data.StringData? then Some(pv.data.text) else None
  }
}
