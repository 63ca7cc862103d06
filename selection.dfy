/** SelectionMethod of both engines and the engine operations that edit a
    list of them: refreshTargets, OnTriggerStay / OnTriggerStay2D,
    AddTarget and RemoveTarget. */
module Selection {
  import opened Basics
  import opened Wrappers
  import opened Scene
  import opened Raycasts
  import opened Lists

  /** ETargetingMode; the 2D engine calls the first mode Collider2D. */
  datatype TargetingMode = Collider | Raycast | Manual

  /** A selection method; a null entry of targetsList is None. */
  datatype SelectionMethod = SelectionMethod(
    enabled: bool,
    targetingMode: TargetingMode,
    targetsList: seq<Option<Handle>>,
    rayCastOption: RaycastOption)

  /** RaycastOption's declared defaults: no anchor, a zero direction, mode
      RayCast, numberLimit -1 and distance -1. */
  const DefaultRaycastOption := RaycastOption(false, false, false, Zero, RayCast, -1, -1.0)

  /** `new SelectionMethod()`: enabled, Collider mode, no targets. */
  const NewSelectionMethod := SelectionMethod(true, Collider, [], DefaultRaycastOption)

  /** RaycastOption.GetRaycastResult's array, as list entries. */
  function AsTargets(bs: seq<Handle>): (r: seq<Option<Handle>>)
    ensures |r| == |bs|
    ensures forall i :: 0 <= i < |bs| ==> r[i] == Some(bs[i])
  {
    if |bs| == 0 then [] else [Some(bs[0])] + AsTargets(bs[1..])
  }

  /** refreshTargets: a Collider list is cleared (OnTriggerStay refills it),
      a Raycast list is cleared and refilled from GetRaycastResult, whose
      exception then propagates (the list stays cleared), and a Manual list
      is left alone. The second component is the exception, if any. */
  function Refresh(sm: SelectionMethod, ignored: set<Handle>, answer: QueryAnswer): (r: (SelectionMethod, Option<Fault>))
    ensures r.0.(targetsList := sm.targetsList) == sm
    ensures r.1.Some? ==> sm.targetingMode == Raycast && r.1 == Some(DuplicateDistance) && r.0.targetsList == []
  {
    match sm.targetingMode
    case Collider => (sm.(targetsList := []), None)
    case Manual => (sm, None)
    case Raycast =>
      match RaycastResult(sm.rayCastOption, ignored, answer)
      case Success(bs) => (sm.(targetsList := AsTargets(bs)), None)
      case Failure(e) => (sm.(targetsList := []), Some(e))
  }

  /** After a Raycast method's refresh, each target is a non-ignored body
      the physics query reported (a cast hit or an overlapping collider's
      attached body). */
  lemma RaycastTargetsComeFromQuery(sm: SelectionMethod, ignored: set<Handle>, answer: QueryAnswer)
    requires sm.targetingMode == Raycast
    ensures forall t :: t in Refresh(sm, ignored, answer).0.targetsList ==>
              t.Some? &&
              (Casts(sm.rayCastOption.raycastType) ==> t.value !in ignored && exists d :: Hit(t, d) in answer.hits) &&
              (!Casts(sm.rayCastOption.raycastType) ==> t in answer.overlap)
  {
    var opt := sm.rayCastOption;
    var res := RaycastResult(opt, ignored, answer);
    if res.Success? {
      var bs := res.value;
      var ts := AsTargets(bs);
      forall t | t in ts
        ensures t.Some?
        ensures Casts(opt.raycastType) ==> t.value !in ignored && exists d :: Hit(t, d) in answer.hits
        ensures !Casts(opt.raycastType) ==> t in answer.overlap
      {
        var i :| 0 <= i < |ts| && ts[i] == t;
        var b := bs[i];
        if Casts(opt.raycastType) && !Blocked(opt) {
          var cs := Candidates(answer.hits, ignored);
          CandidatesMembers(answer.hits, ignored);
          var chosen := if opt.numberLimit < 0 then cs else Nearest(cs, opt.numberLimit);
          if opt.numberLimit >= 0 {
            NearestAreClosest(cs, opt.numberLimit);
          }
          assert bs == Bodies(chosen);
          assert chosen[i] in cs;
          assert Hit(t, chosen[i].sqrDist) in answer.hits;
        }
      }
    }
  }

  /** OnTriggerStay: the staying collider's body is appended to every
      Collider-mode method, enabled or not; a collider without a body
      changes nothing. */
  function TriggerStay(sms: seq<SelectionMethod>, rb: Option<Handle>): (r: seq<SelectionMethod>)
    ensures |r| == |sms|
    ensures forall i :: 0 <= i < |sms| ==>
              r[i] == if rb.Some? && sms[i].targetingMode == Collider
                      then sms[i].(targetsList := sms[i].targetsList + [rb]) else sms[i]
  {
    if |sms| == 0 then []
    else
      var sm := sms[|sms| - 1];
      TriggerStay(sms[..|sms| - 1], rb) +
        [if rb.Some? && sm.targetingMode == Collider then sm.(targetsList := sm.targetsList + [rb]) else sm]
  }

  /** The first Manual-mode method, or -1. */
  function FirstManual(sms: seq<SelectionMethod>): (r: int)
    ensures r == -1 <==> forall k :: 0 <= k < |sms| ==> sms[k].targetingMode != Manual
    ensures r != -1 ==> 0 <= r < |sms| && sms[r].targetingMode == Manual &&
                        forall k :: 0 <= k < r ==> sms[k].targetingMode != Manual
  {
    if |sms| == 0 then -1
    else if sms[0].targetingMode == Manual then 0
    else
      var k := FirstManual(sms[1..]);
      if k == -1 then -1 else k + 1
  }

  function Appended(sm: SelectionMethod, rb: Option<Handle>): SelectionMethod {
    sm.(targetsList := sm.targetsList + [rb])
  }

  /** AddTarget(rb, sm): a null body does nothing; a given method (by
      position) gets the body only if it is Manual; with no method given, the
      first Manual method gets it, or a new Manual method holding just it is
      appended. A position outside the list stands for a method of another
      field, whose edit this list does not see. */
  function AddTargetTo(sms: seq<SelectionMethod>, rb: Option<Handle>, which: Option<int>): seq<SelectionMethod> {
    if rb.None? then sms
    else match which
      case Some(i) =>
        if 0 <= i < |sms| && sms[i].targetingMode == Manual then sms[i := Appended(sms[i], rb)] else sms
      case None =>
        var j := FirstManual(sms);
        if j != -1 then sms[j := Appended(sms[j], rb)]
        else sms + [NewSelectionMethod.(targetingMode := Manual, targetsList := [rb])]
  }

  /** With no method given, a body is added to exactly one Manual method
      (the first, or a new last one) and no other method changes. */
  lemma AddTargetReachesOneManual(sms: seq<SelectionMethod>, h: Handle)
    ensures var r := AddTargetTo(sms, Some(h), None);
            var j := if FirstManual(sms) == -1 then |sms| else FirstManual(sms);
            |r| == (if FirstManual(sms) == -1 then |sms| + 1 else |sms|) &&
            r[j].targetingMode == Manual && r[j].enabled == (j == |sms| || sms[j].enabled) &&
            r[j].targetsList == (if j == |sms| then [] else sms[j].targetsList) + [Some(h)] &&
            forall k :: 0 <= k < |sms| && k != j ==> r[k] == sms[k]
  {
  }

  /** RemoveTarget applied to one method: only a Manual list loses the body. */
  function RemoveFrom(sm: SelectionMethod, h: Handle): SelectionMethod {
    if sm.targetingMode == Manual then sm.(targetsList := RemoveAll(sm.targetsList, Some(h))) else sm
  }

  /** RemoveTarget from every Manual method. */
  function RemoveFromAll(sms: seq<SelectionMethod>, h: Handle): (r: seq<SelectionMethod>)
    ensures |r| == |sms|
    ensures forall k :: 0 <= k < |sms| ==> r[k] == RemoveFrom(sms[k], h)
  {
    if |sms| == 0 then [] else RemoveFromAll(sms[..|sms| - 1], h) + [RemoveFrom(sms[|sms| - 1], h)]
  }

  /** RemoveTarget(rb, sm): a null body does nothing; a given method loses
      every occurrence of the body if it is Manual; with no method given,
      every Manual method does. */
  function RemoveTargetFrom(sms: seq<SelectionMethod>, rb: Option<Handle>, which: Option<int>): seq<SelectionMethod> {
    if rb.None? then sms
    else match which
      case Some(i) => if 0 <= i < |sms| then sms[i := RemoveFrom(sms[i], rb.value)] else sms
      case None => RemoveFromAll(sms, rb.value)
  }

  /** After RemoveTarget with no method given, no Manual method holds the
      body, the other occurrences in Manual lists are kept, and methods of
      the other modes are untouched. */
  lemma RemoveTargetClearsManual(sms: seq<SelectionMethod>, h: Handle)
    ensures var r := RemoveTargetFrom(sms, Some(h), None);
            |r| == |sms| &&
            (forall k :: 0 <= k < |sms| && sms[k].targetingMode == Manual ==>
               Some(h) !in r[k].targetsList &&
               multiset(r[k].targetsList) == multiset(sms[k].targetsList)[Some(h) := 0]) &&
            (forall k :: 0 <= k < |sms| && sms[k].targetingMode != Manual ==> r[k] == sms[k])
  {
    forall k | 0 <= k < |sms| && sms[k].targetingMode == Manual
      ensures multiset(RemoveAll(sms[k].targetsList, Some(h))) == multiset(sms[k].targetsList)[Some(h) := 0]
    {
      RemoveAllCounts(sms[k].targetsList, Some(h));
    }
  }

  /** Removing a body right after adding it to the first Manual method gives
      that method the list it would have after the removal alone. */
  lemma RemoveUndoesAdd(sms: seq<SelectionMethod>, h: Handle)
    requires FirstManual(sms) != -1
    ensures var j := FirstManual(sms);
            RemoveTargetFrom(AddTargetTo(sms, Some(h), None), Some(h), None)[j] ==
            RemoveTargetFrom(sms, Some(h), None)[j]
  {
    var j := FirstManual(sms);
    RemoveAllAppend(sms[j].targetsList, [Some(h)], Some(h));
    assert RemoveAll([Some(h)], Some(h)) == [] by {
      assert [Some(h)][1..] == [];
    }
  }
}
