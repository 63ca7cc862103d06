/** FieldFunction of both engines: the cached primitive chosen by
    UpdateFieldFunction, one field function's force, and the engine-level
    sum GetForce scales by generalMultiplier. */
module FieldFunctions {
  import opened Basics
  import opened Wrappers
  import opened DistanceModifiers

  datatype FieldFunctionType = Simple | Custom

  /** PerpendicularForce exists in the 3D engine only. */
  datatype SimpleFieldType = ConstantForce | CentripetalForce | AxipetalForce | PerpendicularForce

  datatype ConstantField = ConstantField(force: real, direction: Vec)
  datatype CentripetalField = CentripetalField(referencePoint: Vec, force: real, distanceModifier: DistanceModifier)
  datatype AxipetalField = AxipetalField(force: real, referencePoint: Vec, direction: Vec, distanceModifier: DistanceModifier)
  datatype PerpendicularField = PerpendicularField(force: real, referencePoint: Vec, direction: Vec, distanceModifier: DistanceModifier)

  /** Which object the private `currField` reference points at: one of the
      field function's own primitives, or a custom behaviour (by id). Since
      it is a reference, later edits of that primitive's parameters show
      through it without another UpdateFieldFunction. */
  datatype Slot = ConstantSlot | CentripetalSlot | AxipetalSlot | PerpendicularSlot | CustomSlot(behaviour: int)

  datatype FieldFunction = FieldFunction(
    enabled: bool,
    useLocalCoordination: bool,
    fieldFunctionType: FieldFunctionType,
    simpleFieldType: SimpleFieldType,
    constantField: Option<ConstantField>,
    centripetalField: Option<CentripetalField>,
    axipetalField: Option<AxipetalField>,
    perpendicularField: Option<PerpendicularField>,
    customFieldFunction: Option<int>,
    currField: Option<Slot>)

  /** A primitive whose geometry (magnitude, normalisation, plane distance,
      the distance modifier, a custom script) is not modelled. */
  datatype Shape =
    | Centripetal(centripetal: CentripetalField)
    | Axipetal(axipetal: AxipetalField)
    | Perpendicular(perpendicular: PerpendicularField)
    | CustomBehaviour(behaviour: int)

  /** The host scene as a field function sees it: the engine object's
      position and its transform, and the unmodelled primitives' GetForce. */
  datatype Frame = Frame(
    position: Vec,
    inverseTransformPoint: Vec -> Vec,
    transformDirection: Vec -> Vec,
    shapeForce: (Shape, Vec, Option<Handle>) -> Vec)

  /** DistanceModifier's declared defaults: Constant mode, curveSize 20,
      boundAtZero, a = 1, b = 0, n = 2. */
  const DefaultModifier := DistanceModifier(Constant, 20.0, true, 1.0, 0.0, 2.0)

  const Up := Vec(0.0, 1.0, 0.0)

  /** `new FieldFunction()` as AddFieldFunction builds it: enabled, in
      local coordinates, a Simple ConstantForce, and every primitive field,
      the custom behaviour and the current primitive null (None); only the
      inspector's serializer fills the primitives in. */
  const NewFieldFunction := FieldFunction(
    true, true, Simple, ConstantForce, None, None, None, None, None, None)

  /** Whether the primitive field a simple type names is non-null. */
  predicate HasPrimitive(ff: FieldFunction, t: SimpleFieldType) {
    match t
    case ConstantForce => ff.constantField.Some?
    case CentripetalForce => ff.centripetalField.Some?
    case AxipetalForce => ff.axipetalField.Some?
    case PerpendicularForce => ff.perpendicularField.Some?
  }

  /** The slot a simple field type selects. */
  function SimpleSlot(t: SimpleFieldType): Slot {
    match t
    case ConstantForce => ConstantSlot
    case CentripetalForce => CentripetalSlot
    case AxipetalForce => AxipetalSlot
    case PerpendicularForce => PerpendicularSlot
  }

  /** FieldFunction.UpdateFieldFunction: re-point `currField` at the
      primitive the current settings select; a null primitive leaves it
      null. */
  function UpdateFieldFunction(ff: FieldFunction): (r: FieldFunction)
    ensures r.(currField := ff.currField) == ff
    ensures ff.fieldFunctionType == Simple && HasPrimitive(ff, ff.simpleFieldType) ==>
              r.currField == Some(SimpleSlot(ff.simpleFieldType))
    ensures ff.fieldFunctionType == Simple && !HasPrimitive(ff, ff.simpleFieldType) ==> r.currField.None?
    ensures ff.fieldFunctionType == Custom && ff.customFieldFunction.None? ==> r.currField.None?
    ensures ff.fieldFunctionType == Custom && ff.customFieldFunction.Some? ==>
              r.currField == Some(CustomSlot(ff.customFieldFunction.value))
  {
    match ff.fieldFunctionType
    case Simple =>
      ff.(currField := if HasPrimitive(ff, ff.simpleFieldType) then Some(SimpleSlot(ff.simpleFieldType)) else None)
    case Custom =>
      match ff.customFieldFunction
      case Some(b) => ff.(currField := Some(CustomSlot(b)))
      case None => ff.(currField := None)
  }

  /** The GetForce of the primitive in slot `s`, at `p` (already in the
      coordinates the field function passes on). A slot whose primitive is
      null cannot be selected by UpdateFieldFunction; it gives nothing. */
  function SlotForce(ff: FieldFunction, s: Slot, frame: Frame, p: Vec, target: Option<Handle>): Vec {
    match s
    case ConstantSlot =>
      (match ff.constantField case Some(c) => Scale(c.force, c.direction) case None => Zero)
    case CentripetalSlot =>
      (match ff.centripetalField case Some(c) => frame.shapeForce(Centripetal(c), p, target) case None => Zero)
    case AxipetalSlot =>
      (match ff.axipetalField case Some(c) => frame.shapeForce(Axipetal(c), p, target) case None => Zero)
    case PerpendicularSlot =>
      (match ff.perpendicularField case Some(c) => frame.shapeForce(Perpendicular(c), p, target) case None => Zero)
    case CustomSlot(b) => frame.shapeForce(CustomBehaviour(b), p, target)
  }

  /** FieldFunction.GetForce at world position `pos`: nothing without a
      current primitive; in local coordinates, the point goes through
      InverseTransformPoint and the answer through TransformDirection;
      otherwise the point is taken relative to the engine's position. */
  function FieldForce(ff: FieldFunction, frame: Frame, pos: Vec, target: Option<Handle>): Vec {
    match ff.currField
    case None => Zero
    case Some(s) =>
      if ff.useLocalCoordination then
        frame.transformDirection(SlotForce(ff, s, frame, frame.inverseTransformPoint(pos), target))
      else
        SlotForce(ff, s, frame, Sub(pos, frame.position), target)
  }

  /** What field function `ff` adds to the engine's sum. */
  function Contribution(ff: FieldFunction, frame: Frame, pos: Vec, target: Option<Handle>): Vec {
    if ff.enabled then FieldForce(ff, frame, pos, target) else Zero
  }

  /** The sum over the enabled field functions, in list order. */
  function SumEnabled(ffs: seq<FieldFunction>, frame: Frame, pos: Vec, target: Option<Handle>): Vec {
    if |ffs| == 0 then Zero
    else Add(SumEnabled(ffs[..|ffs| - 1], frame, pos, target), Contribution(ffs[|ffs| - 1], frame, pos, target))
  }

  /** ForceField.GetForce: the sum scaled by generalMultiplier. */
  function EngineForce(ffs: seq<FieldFunction>, multiplier: real, frame: Frame, pos: Vec, target: Option<Handle>): Vec {
    Scale(multiplier, SumEnabled(ffs, frame, pos, target))
  }

  /** UpdateFieldFunction on every element, as the engine's loop does. */
  function UpdateAll(ffs: seq<FieldFunction>): (r: seq<FieldFunction>)
    ensures |r| == |ffs|
    ensures forall i :: 0 <= i < |ffs| ==> r[i] == UpdateFieldFunction(ffs[i])
  {
    if |ffs| == 0 then [] else UpdateAll(ffs[..|ffs| - 1]) + [UpdateFieldFunction(ffs[|ffs| - 1])]
  }

  /** The field functions that are enabled, in order. */
  function EnabledOnly(ffs: seq<FieldFunction>): (r: seq<FieldFunction>)
    ensures forall f :: f in r ==> f.enabled && f in ffs
  {
    if |ffs| == 0 then []
    else EnabledOnly(ffs[..|ffs| - 1]) + (if ffs[|ffs| - 1].enabled then [ffs[|ffs| - 1]] else [])
  }

  lemma AddAssociative(u: Vec, v: Vec, w: Vec)
    ensures Add(Add(u, v), w) == Add(u, Add(v, w))
  {
  }

  /** One more field function at the end adds its contribution. */
  lemma SumEnabledSnoc(s: seq<FieldFunction>, f: FieldFunction, frame: Frame, pos: Vec, target: Option<Handle>)
    ensures SumEnabled(s + [f], frame, pos, target) == Add(SumEnabled(s, frame, pos, target), Contribution(f, frame, pos, target))
  {
    assert (s + [f])[..|s|] == s;
  }

  /** The sum splits over a concatenation of lists. */
  lemma {:induction false} SumEnabledAppend(a: seq<FieldFunction>, b: seq<FieldFunction>, frame: Frame, pos: Vec, target: Option<Handle>)
    ensures SumEnabled(a + b, frame, pos, target) == Add(SumEnabled(a, frame, pos, target), SumEnabled(b, frame, pos, target))
    decreases |b|
  {
    if |b| == 0 {
      assert a + b == a;
    } else {
      var b' := b[..|b| - 1];
      var f := b[|b| - 1];
      assert b == b' + [f];
      assert a + b == (a + b') + [f];
      SumEnabledSnoc(a + b', f, frame, pos, target);
      SumEnabledSnoc(b', f, frame, pos, target);
      SumEnabledAppend(a, b', frame, pos, target);
      AddAssociative(SumEnabled(a, frame, pos, target), SumEnabled(b', frame, pos, target), Contribution(f, frame, pos, target));
    }
  }

  /** With no enabled field function that has a current primitive, the
      sum is zero; in particular, with an empty list. */
  lemma {:induction false} NothingEnabledSumsToZero(ffs: seq<FieldFunction>, frame: Frame, pos: Vec, target: Option<Handle>)
    requires forall i :: 0 <= i < |ffs| ==> !ffs[i].enabled || ffs[i].currField.None?
    ensures SumEnabled(ffs, frame, pos, target) == Zero
  {
    if |ffs| > 0 {
      var init := ffs[..|ffs| - 1];
      assert forall i :: 0 <= i < |init| ==> init[i] == ffs[i];
      NothingEnabledSumsToZero(init, frame, pos, target);
    }
  }

  /** Disabled field functions do not change the sum: it is the sum over
      the enabled ones alone. */
  lemma {:induction false} SumOverEnabledOnly(ffs: seq<FieldFunction>, frame: Frame, pos: Vec, target: Option<Handle>)
    ensures SumEnabled(ffs, frame, pos, target) == SumEnabled(EnabledOnly(ffs), frame, pos, target)
  {
    if |ffs| > 0 {
      var init := ffs[..|ffs| - 1];
      var last := ffs[|ffs| - 1];
      SumOverEnabledOnly(init, frame, pos, target);
      var tail := if last.enabled then [last] else [];
      SumEnabledAppend(EnabledOnly(init), tail, frame, pos, target);
      if last.enabled {
        assert [last][..0] == [];
      }
    }
  }

  /** Updating the cache forgets whatever it held: two field functions that
      differ only in `currField` agree after UpdateFieldFunction, and a
      second update changes nothing. */
  lemma UpdateForgetsCache(f: FieldFunction, g: FieldFunction)
    requires f.(currField := g.currField) == g
    ensures UpdateFieldFunction(f) == UpdateFieldFunction(g)
    ensures UpdateFieldFunction(UpdateFieldFunction(f)) == UpdateFieldFunction(f)
  {
  }

  /** A Custom field function without a behaviour contributes nothing once
      updated, wherever the target is. */
  lemma MissingCustomContributesNothing(ff: FieldFunction, frame: Frame, pos: Vec, target: Option<Handle>)
    requires ff.fieldFunctionType == Custom && ff.customFieldFunction.None?
    ensures Contribution(UpdateFieldFunction(ff), frame, pos, target) == Zero
  {
  }

  /** A field function made by AddFieldFunction has a null constant field,
      so after UpdateFieldFunction its current primitive is null and it
      contributes nothing until its primitives are assigned. */
  lemma NewFieldFunctionContributesNothing(frame: Frame, pos: Vec, target: Option<Handle>)
    ensures UpdateFieldFunction(NewFieldFunction).currField.None?
    ensures Contribution(UpdateFieldFunction(NewFieldFunction), frame, pos, target) == Zero
  {
  }

  /** An updated, enabled, global Constant field function contributes
      `force * direction` at every position. */
  lemma ConstantFieldEverywhere(ff: FieldFunction, frame: Frame, pos: Vec, target: Option<Handle>)
    requires ff.enabled && !ff.useLocalCoordination
    requires ff.fieldFunctionType == Simple && ff.simpleFieldType == ConstantForce && ff.constantField.Some?
    ensures Contribution(UpdateFieldFunction(ff), frame, pos, target)
         == Scale(ff.constantField.value.force, ff.constantField.value.direction)
  {
    var u := UpdateFieldFunction(ff);
    assert u.enabled && !u.useLocalCoordination && u.currField == Some(ConstantSlot);
    assert u.constantField == ff.constantField;
  }

  /** EngineForce over a single field function. */
  lemma EngineForceOfOne(ff: FieldFunction, multiplier: real, frame: Frame, pos: Vec, target: Option<Handle>)
    ensures EngineForce([ff], multiplier, frame, pos, target) == Scale(multiplier, Contribution(ff, frame, pos, target))
  {
    assert [] + [ff] == [ff];
    SumEnabledSnoc([], ff, frame, pos, target);
  }

  /** The engine scales the sum: a lone global Constant field gives
      `generalMultiplier * force * direction` at every position. */
  lemma ConstantFieldEngineForce(ff: FieldFunction, multiplier: real, frame: Frame, pos: Vec, target: Option<Handle>)
    requires ff.enabled && !ff.useLocalCoordination
    requires ff.fieldFunctionType == Simple && ff.simpleFieldType == ConstantForce && ff.constantField.Some?
    ensures EngineForce([UpdateFieldFunction(ff)], multiplier, frame, pos, target)
         == Scale(multiplier, Scale(ff.constantField.value.force, ff.constantField.value.direction))
  {
    ConstantFieldEverywhere(ff, frame, pos, target);
    EngineForceOfOne(UpdateFieldFunction(ff), multiplier, frame, pos, target);
  }
}
