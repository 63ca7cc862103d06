# ForceFieldPro targeting engine, in Dafny

ForceFieldPro is a Unity asset. Its component applies a force to the
rigid bodies it selects on every physics tick. The component exists twice,
line for line alike: `ForceField2D` and `ForceField` (3D). This project
models both with one class, `Engine.ForceField`. A `dim` constant chooses
the engine. Three things differ between the engines, and the model keeps
each of them:

- the raycast modes each engine offers;
- the 3D-only PerpendicularForce field;
- the 3D-only `ignoreMass`/`useMassCenter` choice of how a force is applied.

The model covers:

- **Per-tick tracking** (`Engine.ForceField.FixedUpdate` and its steps).
  - The ignored dictionary is rebuilt from the field's own body and
    `alwaysIgnoredList`.
  - Two target dictionaries swap the roles "current" and "history".
  - Every body listed by an enabled selection method is admitted into
    current the first time it is seen in the tick, if it is not ignored and
    its layer passes the mask. It then gets its force and the
    Stay/Enter messages.
  - Each enabled method is refreshed after it is processed.
  - Bodies left in history get Exit messages.
  - Forces and messages are appended to a log (`log`). Dictionary key sets
    are sequences in insertion order.
- **Selection method lists**: `refreshTargets`, `OnTriggerStay`/`OnTriggerStay2D`,
  `AddTarget`/`RemoveTarget`, and the add/remove/get/index operations on
  selection methods and field functions. Also `Ignore`/`StopIgnore`, the two
  Clear operations and `GetCurrentTargets`.
- **`GetRaycastResult`**:
  - the early-return guards;
  - cast versus overlap queries;
  - dropping null and ignored hits;
  - hit order, or the `numberLimit` nearest bodies by squared distance,
    including the exception when two candidates share a distance.
- **Forces**:
  - `DistanceModifier.getModifier`, with its integer-exponent loops;
  - `FieldFunction.UpdateFieldFunction` and `FieldFunction.GetForce`;
  - the engine's `GetForce` sum scaled by `generalMultiplier`;
  - `ApplyForce`'s mode choice.

Two kinds of input are given rather than computed:

- the scene, `Tracking.World`: layers, positions, transforms and each
  selection method's physics query answer;
- the unmodelled numerics, `FieldFunctions.Frame` and
  `DistanceModifiers.Numerics`.

Floats are `real`s. A C# `int` is the subtype `Int32`.

A repeated squared distance in the nearest-target map makes
`Dictionary.Add` throw (ForceField.cs:767, ForceField2D.cs:690), and that
ends the tick. `Raycasts.PostProcess` then fails with `DuplicateDistance`,
and `Engine.ForceField.FixedUpdate` stops there. A body repeated in the
ignored list throws in the same way (ForceField.cs:1021,
ForceField2D.cs:996), as `DuplicateIgnored`.

Files:

- `basics.dfy`, `wrappers.dfy` and `scene.dfy`: vocabulary and scene inputs.
- `layer_mask.dfy`: EnumMaskCheck.
- `lists.dfy`: the List operations the API uses.
- `sorting.dfy`: Array.Sort.
- `distance_modifier.dfy` and `field_functions.dfy`: forces.
- `raycast.dfy`: GetRaycastResult.
- `selection.dfy`: selection method edits.
- `tracking.dfy`: one tick on values.
- `engine.dfy`: the component class.

## Model

Each row cites the 3D engine's lines. The 2D engine's counterparts
(Assets/ForceFieldPro/2D/ForceField2D.cs) are modelled by the same members,
at: FixedUpdate 811-838, UpdateIgnoredDictionary 980-998, UpdateBufferPointer 939-953, ApplyForce 969-977, ProcessSelectionMethod 890-936, OnTriggerStay 840-854, GetForce 1046-1058, RemoveSelectionMethod 1091-1106, RemoveFieldFunction 1154-1169, AddTarget 1207-1236, RemoveTarget 1243-1269, Arrival 914-931, TargetsMessagesFollowPush 914-931, StaysAreNewlyCurrent 914-931, ProcessTargetsSets 890-936, StayOnceAdmitted 914-918, EnterOnceNew 920-932, TickSelectsUnion 811-838, TickEntersAndExits 811-838, TickMessagesInOrder 811-838, EnumMaskCheck 1007-1019, EnumMaskCheckIsBitTest 1007-1019, Refresh 108-122, TriggerStay 840-854, AddTargetReachesOneManual 1207-1236, RemoveTargetClearsManual 1243-1269, Blocked 640-660, DirectionGuardTolerance 653, RaycastResult 629-776, GetRaycastResult 629-776, CollectInHitOrder 669-680, BuildDistanceMap 683-694, NearestByDistance 681-701, OverlapIgnoresFilterAndLimit 704-774, GetModifier 471-511, UpdateFieldFunction 203-233.

| member | source | states |
|---|---|---|
| Engine.ForceField.constructor | Assets/ForceFieldPro/3D/ForceField.cs:14-48 | A fresh component has the given settings, no methods, functions or targets, an empty log, dictFlag set and currDict null; it satisfies the invariant (pointer agrees with the flag, dictionaries duplicate-free and disjoint). |
| Engine.ForceField.FixedUpdate | Assets/ForceFieldPro/3D/ForceField.cs:815-842 | A tick keeps the invariant. The ignored dictionary is exactly what the ignored-list scan gives. A repeated ignored body aborts the tick with nothing else changed. Otherwise the new methods, dictionaries and fault are those of the specification run over the updated field functions, starting from an empty current set and the previous current set as history, and the log grows by the run's events plus, when nothing threw, the exit events of what is left in history. |
| Engine.ForceField.Tick | Assets/ForceFieldPro/3D/ForceField.cs:818-841 | FixedUpdate after the ignored dictionary: the same run equation, and it never reports a duplicate ignored body. |
| Engine.ForceField.StartTick | Assets/ForceFieldPro/3D/ForceField.cs:818-819 | After the buffer swap and the field function update, current is empty, history is the previous current set, the flag is flipped and every field function is updated. |
| Engine.ForceField.FinishTick | Assets/ForceFieldPro/3D/ForceField.cs:821-841 | The selection loop followed by the exit messages equals the specification run from the current state, with exits sent only if the loop did not throw. |
| Engine.ForceField.RunSelectionMethods | Assets/ForceFieldPro/3D/ForceField.cs:821-829 | The loop over the selection methods produces exactly the specification run: the methods, the dictionaries, the fault, and the log extended by the run's events. |
| Engine.ForceField.RunOne | Assets/ForceFieldPro/3D/ForceField.cs:823-828 | One iteration is one step of the specification run: a disabled method changes nothing; an enabled one is processed then refreshed, and a throwing refresh ends the run. |
| Engine.ForceField.UpdateIgnoredDictionary | Assets/ForceFieldPro/3D/ForceField.cs:1005-1023 | The dictionary's keys and whether Add threw are exactly the scan of the own body followed by the non-null ignored entries, stopping at the first repeat. |
| Engine.ForceField.UpdateBufferPointer | Assets/ForceFieldPro/3D/ForceField.cs:943-957 | Afterwards history holds the previous tick's current bodies, current is empty, the flag is flipped and currDict points at targetDict1 exactly when the flag was set, so two calls restore the original roles; the invariant is kept. |
| Engine.ForceField.UpdateFieldFunctions | Assets/ForceFieldPro/3D/ForceField.cs:960-970 | Every field function is replaced by its updated version, positions unchanged. |
| Engine.ForceField.ApplyForce | Assets/ForceFieldPro/3D/ForceField.cs:973-1002 | Exactly one force event is logged: the engine's GetForce at the body's position, in the mode ApplyModeOf chooses: in 3D Acceleration iff ignoreMass and at the centre of mass iff useMassCenter, in 2D always AddForce in Force mode. |
| Engine.ForceField.ProcessSelectionMethod | Assets/ForceFieldPro/3D/ForceField.cs:894-940 | The dictionaries become the specification's ProcessTargets of the list and the log grows by its events; the dictionaries stay duplicate-free and disjoint. |
| Engine.ForceField.ProcessTargetList | Assets/ForceFieldPro/3D/ForceField.cs:901-939 | The loop over a target list: dictionaries and log equal the specification of the whole list. |
| Engine.ForceField.ProcessOne | Assets/ForceFieldPro/3D/ForceField.cs:903-938 | One loop iteration equals the one-target specification: a null, current, ignored or masked-out body changes nothing; otherwise it joins current, leaves history, and gets its force then Stay then (if not in history) Enter. |
| Engine.ForceField.RefreshTargets | Assets/ForceFieldPro/3D/ForceField.cs:113-127 | The method at the position becomes the Refresh specification's result and the fault is its exception; no other method changes. |
| Engine.ForceField.SendExitMessages | Assets/ForceFieldPro/3D/ForceField.cs:831-841 | The log grows by one Exit per history body, in order, only when sendMessage is on. |
| Engine.ForceField.OnTriggerStay | Assets/ForceFieldPro/3D/ForceField.cs:844-858 | The methods become TriggerStay of the old list: the body is appended to every Collider-mode method and nothing else changes. |
| Engine.ForceField.GetForce | Assets/ForceFieldPro/3D/ForceField.cs:1071-1083 | The loop's result is generalMultiplier times the in-order sum of the enabled field functions' forces. |
| Engine.ForceField.GetCurrentTargets | Assets/ForceFieldPro/3D/ForceField.cs:1089-1098 | Returns the current dictionary's bodies, none twice, and nothing before the first tick. |
| Engine.ForceField.AddSelectionMethod | Assets/ForceFieldPro/3D/ForceField.cs:1104-1110 | Appends exactly one new default method and returns its position. |
| Engine.ForceField.RemoveSelectionMethod | Assets/ForceFieldPro/3D/ForceField.cs:1116-1131 | The list becomes RemoveByIndex of the old: -1 drops the last, an in-range index drops that one, anything else or an empty list changes nothing. |
| Engine.ForceField.GetSelectionMethod | Assets/ForceFieldPro/3D/ForceField.cs:1139-1151 | The method at the index, or null when the index is out of range. |
| Engine.ForceField.GetSelectionMethodIndex | Assets/ForceFieldPro/3D/ForceField.cs:1158-1161 | The first position holding the method, or -1. |
| Engine.ForceField.SetSelectionMethod | Assets/ForceFieldPro/3D/ForceField.cs:1139-1151 | An edit through the returned reference replaces that one method and keeps the invariant. |
| Engine.ForceField.AddFieldFunction | Assets/ForceFieldPro/3D/ForceField.cs:1167-1173 | Appends exactly one new default field function and returns its position. |
| Engine.ForceField.RemoveFieldFunction | Assets/ForceFieldPro/3D/ForceField.cs:1179-1194 | The list becomes RemoveByIndex of the old, as for selection methods. |
| Engine.ForceField.GetFieldFunction | Assets/ForceFieldPro/3D/ForceField.cs:1202-1214 | The field function at the index, or null when out of range. |
| Engine.ForceField.GetFieldFunctionIndex | Assets/ForceFieldPro/3D/ForceField.cs:1221-1224 | The first position holding the field function, or -1. |
| Engine.ForceField.SetFieldFunction | Assets/ForceFieldPro/3D/ForceField.cs:1202-1214 | An edit of the public fields through the returned reference replaces those fields of that one field function; its private `currField` cache is kept, since only UpdateFieldFunction writes it; the invariant is kept. |
| Engine.ForceField.AddTarget | Assets/ForceFieldPro/3D/ForceField.cs:1232-1261 | The methods become AddTargetTo of the old list. |
| Engine.ForceField.RemoveTarget | Assets/ForceFieldPro/3D/ForceField.cs:1268-1294 | The methods become RemoveTargetFrom of the old list. |
| Engine.ForceField.ClearSelectionMethods | Assets/ForceFieldPro/3D/ForceField.cs:1299-1302 | No selection method is left. |
| Engine.ForceField.ClearFieldFunctions | Assets/ForceFieldPro/3D/ForceField.cs:1307-1310 | No field function is left. |
| Engine.ForceField.Ignore | Assets/ForceFieldPro/3D/ForceField.cs:1316-1319 | The body is appended to the ignored list without a check. |
| Engine.ForceField.StopIgnore | Assets/ForceFieldPro/3D/ForceField.cs:1325-1328 | Every entry equal to the body is removed from the ignored list. |
| Tracking.NonNull | Assets/ForceFieldPro/3D/ForceField.cs:1013-1022 | The kept entries are exactly the non-null entries of the list. |
| Tracking.IgnoredScan | Assets/ForceFieldPro/3D/ForceField.cs:1005-1023 | Definition of the ignored rebuild: adds the own body, then each non-null entry, and stops at the first key already present. IgnoredScanSucceeds and IgnoredScanStops state its outcome. |
| Tracking.IgnoredScanStops | Assets/ForceFieldPro/3D/ForceField.cs:1021 | Once Add has thrown, the rest of the ignored list does not matter. |
| Tracking.IgnoredScanSucceeds | Assets/ForceFieldPro/3D/ForceField.cs:1005-1023 | The rebuild succeeds iff the own body and the non-null ignored entries are pairwise distinct, and then holds exactly them in order. |
| Tracking.IgnoreTwiceThrows | Assets/ForceFieldPro/3D/ForceField.cs:1316-1319 | Ignoring a body already ignored (or the field's own body) makes the next rebuild throw. |
| Tracking.ApplyModeOf | Assets/ForceFieldPro/3D/ForceField.cs:980-1001 | 2D: Force mode at the position; 3D: Acceleration iff ignoreMass, at the centre of mass iff useMassCenter. |
| Tracking.Arrival | Assets/ForceFieldPro/3D/ForceField.cs:913-935 | Definition of one admission's events: the force, then Stay and (for a body not in history) Enter, the messages only with sendMessage on. Its order is proved by TargetsMessagesFollowPush and its counts by PushedInArrival and StayInArrival. |
| Tracking.ProcessTarget | Assets/ForceFieldPro/3D/ForceField.cs:903-938 | Definition of one loop iteration on the dictionaries: an admitted body is appended to current and removed from history, anything else changes nothing. ProcessTargetSets proves what it keeps. |
| Tracking.TargetEvents | Assets/ForceFieldPro/3D/ForceField.cs:903-938 | Definition of one loop iteration's events: nothing unless the body is admitted, otherwise its Arrival with Enter iff it was not in history. StayInStep and EnterInStep state when each message occurs. |
| Tracking.TargetsMessagesFollowPush | Assets/ForceFieldPro/3D/ForceField.cs:913-935 | In the events of a whole target list, every Stay comes right after the push of the same body and every Enter right after that body's Stay. |
| Tracking.ProcessTargetsSnoc | Assets/ForceFieldPro/3D/ForceField.cs:901-939 | Processing one more target is one more step of the list loop. |
| Tracking.ProcessTargetsAppend | Assets/ForceFieldPro/3D/ForceField.cs:819-828 | Processing two lists one after the other equals processing their concatenation. |
| Tracking.TargetsEventsAppend | Assets/ForceFieldPro/3D/ForceField.cs:819-828 | The events of a concatenation are the first list's events followed by the second's from the intermediate state. |
| Tracking.ProcessTargetSets | Assets/ForceFieldPro/3D/ForceField.cs:907-933 | One target keeps the dictionaries tidy; a body is current afterwards iff it was, or it is this admissible body; history loses exactly what became current. |
| Tracking.ProcessTargetsSets | Assets/ForceFieldPro/3D/ForceField.cs:894-940 | Over a whole list: tidy, current gains exactly the listed admissible bodies (ignored or masked-out ones never), history loses exactly them. |
| Tracking.ProcessTargetsExtends | Assets/ForceFieldPro/3D/ForceField.cs:916 | Current is only appended to. |
| Tracking.PushedBodiesAppend | Assets/ForceFieldPro/3D/ForceField.cs:917 | The bodies pushed by two event runs are those of each, in turn. |
| Tracking.PushedInArrival | Assets/ForceFieldPro/3D/ForceField.cs:916-922 | An arrival pushes exactly its own body, once. |
| Tracking.PushedAreNewlyCurrent | Assets/ForceFieldPro/3D/ForceField.cs:894-940 | A body is pushed once for each time it becomes current, in that order, and no other body is pushed. |
| Tracking.ForcesAreFieldForces | Assets/ForceFieldPro/3D/ForceField.cs:973-1002 | Every force applied is the engine's GetForce at that body, in ApplyForce's mode. |
| Tracking.StayOnceAdmitted | Assets/ForceFieldPro/3D/ForceField.cs:917-922 | Stay goes to a body exactly when it became current during the list and messages are on. |
| Tracking.StaysAreNewlyCurrent | Assets/ForceFieldPro/3D/ForceField.cs:913-935 | With messages on, the Stay recipients are the newly current bodies, each once and in the order they became current; with messages off there is no Stay. |
| Tracking.StayInStep | Assets/ForceFieldPro/3D/ForceField.cs:917-922 | One target yields Stay iff it is admitted and messages are on. |
| Tracking.EnterInStep | Assets/ForceFieldPro/3D/ForceField.cs:924-935 | One target yields Enter iff it is admitted, was not in history, and messages are on. |
| Tracking.EnterOnceNew | Assets/ForceFieldPro/3D/ForceField.cs:924-935 | Over a list: Enter goes exactly to the newly current bodies that were not in history. |
| Tracking.NoExitWhileProcessing | Assets/ForceFieldPro/3D/ForceField.cs:894-940 | Processing a list sends no Exit. |
| Tracking.EnabledTargets | Assets/ForceFieldPro/3D/ForceField.cs:819-828 | Every target it yields is listed by some enabled method. |
| Tracking.EnabledTargetsHas | Assets/ForceFieldPro/3D/ForceField.cs:819-828 | Every target listed by an enabled method is yielded. |
| Tracking.RunMethods | Assets/ForceFieldPro/3D/ForceField.cs:819-828 | Definition of the selection-method loop: each enabled method is processed then refreshed, and a refresh that throws stops the loop. RunIsOneList states what a loop that does not throw computes. |
| Tracking.RunIsOneList | Assets/ForceFieldPro/3D/ForceField.cs:819-828 | A loop that does not throw processes the enabled methods' lists as one concatenated list, refreshes each enabled method and leaves the disabled ones alone. |
| Tracking.ExitEvents | Assets/ForceFieldPro/3D/ForceField.cs:831-841 | An Exit is sent for a body iff messages are on and the body is in history; nothing else is sent. |
| Tracking.NoExitPushed | Assets/ForceFieldPro/3D/ForceField.cs:831-841 | Exit messages apply no force. |
| Tracking.TickSelectsUnion | Assets/ForceFieldPro/3D/ForceField.cs:815-842 | Union semantics: the tick's current set is the admissible bodies listed by any enabled method, each once; each is pushed exactly once and, with messages on, sent Stay exactly once, both in the order it was admitted. |
| Tracking.TickEntersAndExits | Assets/ForceFieldPro/3D/ForceField.cs:815-842 | Enter goes exactly to the bodies current now and not in the previous tick; Exit exactly to those current then and not now; both only when sendMessage is on. |
| Tracking.TickMessagesInOrder | Assets/ForceFieldPro/3D/ForceField.cs:815-842 | Over the whole tick, each Stay directly follows its body's push and each Enter directly follows its Stay, and the Exit messages are exactly the events after the selection loop. |
| Tracking.NoDupRemoveAll | Assets/ForceFieldPro/3D/ForceField.cs:926 | Removing a key from a duplicate-free dictionary keeps it duplicate-free. |
| LayerMask.Unsigned | Assets/ForceFieldPro/3D/ForceField.cs:1032-1044 | The 32-bit two's-complement reading of the mask. |
| LayerMask.EnumMaskCheck | Assets/ForceFieldPro/3D/ForceField.cs:1032-1044 | Definition of the check: -1 admits every layer, 0 none, any other mask bit `value` of its 32-bit pattern. EnumMaskCheckIsBitTest proves the special cases agree with the bit test. |
| LayerMask.EnumMaskCheckIsBitTest | Assets/ForceFieldPro/3D/ForceField.cs:1032-1044 | The check is exactly "bit `value` of the mask is set": -1 matches every layer, 0 none. |
| LayerMask.SingleLayerMask | Assets/ForceFieldPro/3D/ForceField.cs:1032-1044 | A mask `1 << k` admits exactly layer k, for every layer 0 to 31; for k = 31 the mask is int.MinValue and the arithmetic shift still isolates bit 31. |
| LayerMask.BitOfZero | Assets/ForceFieldPro/3D/ForceField.cs:1039-1042 | Mask 0 has no bit set, so it admits no layer. |
| LayerMask.BitOfAllOnes | Assets/ForceFieldPro/3D/ForceField.cs:1035-1038 | Every low bit of an all-ones mask is set. |
| LayerMask.BitOfPower | Assets/ForceFieldPro/3D/ForceField.cs:1041 | Only bit k of `2^k` is set. |
| Lists.RemoveByIndex | Assets/ForceFieldPro/3D/ForceField.cs:1116-1131 | Definition of removeSelectionMethod/removeFieldFunction on the list: -1 removes the last element, an index in range that element, anything else nothing. RemoveByIndexDropsOne proves what it keeps. |
| Lists.RemoveByIndexDropsOne | Assets/ForceFieldPro/3D/ForceField.cs:1116-1131 | An index that names an element removes exactly it and keeps the others in order; any other index changes nothing. |
| Lists.RemovedPosition | Assets/ForceFieldPro/3D/ForceField.cs:1123-1130 | The position removed is in range. |
| Lists.GetByIndex | Assets/ForceFieldPro/3D/ForceField.cs:1139-1151 | Non-null iff the index is in range, and then the element there. |
| Lists.IndexOf | Assets/ForceFieldPro/3D/ForceField.cs:1158-1161 | -1 iff absent; otherwise the first position holding the element. |
| Lists.IndexOfWhatGetFinds | Assets/ForceFieldPro/3D/ForceField.cs:1139-1161 | IndexOf of what Get returns is at most that index. |
| Lists.RemoveAll | Assets/ForceFieldPro/3D/ForceField.cs:1325-1328 | The element is gone and exactly the other elements remain. |
| Lists.RemoveAllCounts | Assets/ForceFieldPro/3D/ForceField.cs:1325-1328 | RemoveAll keeps every other element's number of occurrences. |
| Lists.RemoveAllAbsent | Assets/ForceFieldPro/3D/ForceField.cs:1325-1328 | Removing an absent element changes nothing, so StopIgnore is idempotent. |
| Lists.RemoveAllAppend | Assets/ForceFieldPro/3D/ForceField.cs:1291 | RemoveAll distributes over concatenation. |
| Selection.Refresh | Assets/ForceFieldPro/3D/ForceField.cs:113-127 | Only the target list changes; only a Raycast method can throw, and then its list is left cleared. |
| Selection.AsTargets | Assets/ForceFieldPro/3D/ForceField.cs:122 | The query result's bodies, in order, as list entries. |
| Selection.RaycastTargetsComeFromQuery | Assets/ForceFieldPro/3D/ForceField.cs:120-123 | After a Raycast refresh every target is a non-null body from the query: a non-ignored hit body for casts, an overlapping collider's body for overlaps. |
| Selection.TriggerStay | Assets/ForceFieldPro/3D/ForceField.cs:844-858 | Each Collider-mode method, enabled or not, gets the body appended; every other method is unchanged; a body-less collider changes nothing. |
| Selection.FirstManual | Assets/ForceFieldPro/3D/ForceField.cs:1248-1256 | -1 iff there is no Manual method; otherwise the first Manual one. |
| Selection.AddTargetTo | Assets/ForceFieldPro/3D/ForceField.cs:1232-1261 | Definition of AddTarget on the methods: a null body or a non-Manual given method changes nothing; with no method given the first Manual method gains the body, or a new Manual method holding it is appended. AddTargetReachesOneManual and RemoveUndoesAdd state its effect. |
| Selection.AddTargetReachesOneManual | Assets/ForceFieldPro/3D/ForceField.cs:1232-1261 | With no method given the body goes to exactly one Manual method, the first or one new method holding just it, and no other method changes. |
| Selection.RemoveFromAll | Assets/ForceFieldPro/3D/ForceField.cs:1284-1292 | Each method is treated on its own: same length, position by position. |
| Selection.RemoveTargetFrom | Assets/ForceFieldPro/3D/ForceField.cs:1268-1294 | Definition of RemoveTarget on the methods: a null body changes nothing; a given method, or with none given every method, loses every occurrence of the body if it is Manual. RemoveTargetClearsManual states its effect. |
| Selection.RemoveTargetClearsManual | Assets/ForceFieldPro/3D/ForceField.cs:1268-1294 | With no method given no Manual method keeps the body, other entries keep their counts, and non-Manual methods are untouched. |
| Selection.RemoveUndoesAdd | Assets/ForceFieldPro/3D/ForceField.cs:1232-1294 | RemoveTarget after AddTarget leaves the first Manual method as RemoveTarget alone would. |
| Raycasts.Blocked | Assets/ForceFieldPro/3D/ForceField.cs:683-710 | Definition of the early returns: a missing anchor; for casts without an anchor a zero distance or a direction Unity's `==` finds equal to the zero vector. RaycastResult returns the empty result whenever it holds. |
| Raycasts.DirectionGuardTolerance | Assets/ForceFieldPro/3D/ForceField.cs:696 | The zero-direction test is tolerant: a direction of length 1e-6 returns no targets, while unit directions cast. |
| Raycasts.PostProcess | Assets/ForceFieldPro/3D/ForceField.cs:746-779 | Definition of the hit post-processing: a negative numberLimit keeps the candidates in hit order, otherwise the nearest numberLimit by squared distance, failing with DuplicateDistance on a repeated distance. NearestByDistance, NearestAreClosest and SameBodyTwiceThrows state its properties. |
| Raycasts.RaycastResult | Assets/ForceFieldPro/3D/ForceField.cs:676-781 | A tripped guard gives the empty result; only the nearest-target cast branch can throw, with DuplicateDistance. |
| Raycasts.GetRaycastResult | Assets/ForceFieldPro/3D/ForceField.cs:676-781 | The imperative branches compute exactly RaycastResult. |
| Raycasts.Candidates | Assets/ForceFieldPro/3D/ForceField.cs:751-752 | No more candidates than hits. |
| Raycasts.CandidatesMembers | Assets/ForceFieldPro/3D/ForceField.cs:751-752 | A candidate is exactly a hit with a non-null, non-ignored body. |
| Raycasts.CandidatesAppend | Assets/ForceFieldPro/3D/ForceField.cs:749-756 | Filtering splits over concatenated hit lists. |
| Raycasts.CollectInHitOrder | Assets/ForceFieldPro/3D/ForceField.cs:746-758 | With a negative limit the result is the candidates' bodies in hit order. |
| Raycasts.BuildDistanceMap | Assets/ForceFieldPro/3D/ForceField.cs:761-771 | The map is built iff the candidates' distances are distinct, and then maps each distance to its body, with one key per candidate and the keys in insertion order; otherwise Add throws DuplicateDistance. |
| Raycasts.SortAscending | Assets/ForceFieldPro/3D/ForceField.cs:772 | The keys come out ascending and are a permutation of the input. |
| Raycasts.LookUp | Assets/ForceFieldPro/3D/ForceField.cs:773-778 | The result holds the body under each of the first `num` sorted keys. |
| Raycasts.NearestByDistance | Assets/ForceFieldPro/3D/ForceField.cs:759-779 | The whole nearest-target branch equals PostProcess: the nearest `min(n, numberLimit)` bodies, or the exception on a shared distance. |
| Raycasts.NearestAreClosest | Assets/ForceFieldPro/3D/ForceField.cs:770-778 | k-nearest selection takes `min(count, k)` candidates, ascending by distance, none farther than a candidate left out. |
| Raycasts.SameBodyTwiceThrows | Assets/ForceFieldPro/3D/ForceField.cs:767 | A body hit twice at the same distance (two of its colliders) makes a nearest-target query throw. |
| Raycasts.OverlapIgnoresFilterAndLimit | Assets/ForceFieldPro/3D/ForceField.cs:720-743 | Overlap queries never throw and ignore neither the ignored set nor numberLimit: the result is the overlapping colliders' bodies. |
| Raycasts.Attached | Assets/ForceFieldPro/3D/ForceField.cs:734-742 | Exactly the non-null attached bodies. |
| Raycasts.DistanceMapKeys | Assets/ForceFieldPro/3D/ForceField.cs:761-769 | The map's keys are the candidates' distances. |
| Raycasts.DistanceMapFinds | Assets/ForceFieldPro/3D/ForceField.cs:777 | With distinct distances every candidate is found under its distance. |
| Raycasts.DistanceMapKeyCount | Assets/ForceFieldPro/3D/ForceField.cs:770-771 | With distinct distances the copied keys are the distances, one per candidate. |
| Raycasts.SortedKeys | Assets/ForceFieldPro/3D/ForceField.cs:770-772 | The sorted keys are the distances of the candidates sorted by distance. |
| Raycasts.LookUpSorted | Assets/ForceFieldPro/3D/ForceField.cs:770-778 | Looking up the first `num` sorted keys gives the bodies of the nearest `num` candidates. |
| Raycasts.RepeatFails | Assets/ForceFieldPro/3D/ForceField.cs:767 | A candidate whose distance is already a key makes the whole candidate list non-distinct. |
| Raycasts.AddCandidate | Assets/ForceFieldPro/3D/ForceField.cs:765-768 | A candidate at a new distance extends the map and the key order by itself. |
| Raycasts.SkipHit | Assets/ForceFieldPro/3D/ForceField.cs:765 | A null or ignored hit adds no candidate. |
| Raycasts.PrefixDuplicate | Assets/ForceFieldPro/3D/ForceField.cs:762-769 | A repeated distance among the first hits stays repeated for all hits. |
| Raycasts.DistinctPrefix | Assets/ForceFieldPro/3D/ForceField.cs:762-769 | Distinct distances stay distinct on every prefix. |
| Raycasts.DistinctPairwise | Assets/ForceFieldPro/3D/ForceField.cs:767 | Distinct distances differ pairwise. |
| Sorting.SortBy | Assets/ForceFieldPro/3D/ForceField.cs:772 | A sort is ascending and a permutation. |
| Sorting.AscendingUnique | Assets/ForceFieldPro/3D/ForceField.cs:772 | An ascending ordering of a multiset of keys is unique. |
| Sorting.KeysOfSort | Assets/ForceFieldPro/3D/ForceField.cs:772 | Sorting candidates by distance and then taking the distances equals sorting the distances. |
| Sorting.InsertKeepsSorted | Assets/ForceFieldPro/3D/ForceField.cs:772 | Inserting into a sorted sequence keeps it sorted. |
| DistanceModifiers.GetModifier | Assets/ForceFieldPro/3D/ForceField.cs:542-582 | The loops compute exactly Modifier: `x^n` by repeated multiplication, `1/x^-n` by repeated division (Infinity on a zero base), Pow or the curve otherwise, then the clamp. |
| DistanceModifiers.RawModifier | Assets/ForceFieldPro/3D/ForceField.cs:542-582 | Definition of the unclamped modifier: 1 for Constant; for Exponential `x = d*a + b` raised by the loops when n is whole, Mathf.Pow otherwise; the curve for AnimationCurve. Modifier, NegativeExponentIsReciprocal and ExponentsAdd state its properties. |
| DistanceModifiers.Modifier | Assets/ForceFieldPro/3D/ForceField.cs:542-582 | Constant mode gives 1; with boundAtZero a finite result is never negative; without it the raw value is returned; clamping never creates or hides an Infinity. |
| DistanceModifiers.Power | Assets/ForceFieldPro/3D/ForceField.cs:555-558 | A non-zero base never multiplies to zero. |
| DistanceModifiers.PowerAdd | Assets/ForceFieldPro/3D/ForceField.cs:553-559 | Multiplying `x` in `j` times and then `k` more times equals multiplying it in `j + k` times. |
| DistanceModifiers.ExponentsAdd | Assets/ForceFieldPro/3D/ForceField.cs:553-559 | For whole exponents n1, n2 >= 0 the unclamped modifier is multiplicative: the result for n1 + n2 is the product of the results for n1 and for n2, both finite. |
| DistanceModifiers.NegativeExponentIsReciprocal | Assets/ForceFieldPro/3D/ForceField.cs:553-566 | With a non-zero base, exponents `n` and `-n` give reciprocal results. |
| DistanceModifiers.ZeroBaseNegativeExponent | Assets/ForceFieldPro/3D/ForceField.cs:560-580 | A zero base with a negative whole exponent gives +Infinity, which the clamp keeps. |
| DistanceModifiers.IntegerExponentExamples | Assets/ForceFieldPro/3D/ForceField.cs:549-566 | Worked values: base 3 with n = 5, 2, 0, -1, -3 gives 243, 9, 1, 1/3, 1/27. |
| DistanceModifiers.BoundAtZeroExample | Assets/ForceFieldPro/3D/ForceField.cs:577-580 | A raw -5 is clamped to 0. |
| FieldFunctions.UpdateFieldFunction | Assets/ForceFieldPro/3D/ForceField.cs:213-246 | Only the current-primitive reference changes: a Simple type selects its primitive, or null when that primitive is null (PerpendicularForce exists in 3D only); Custom selects the behaviour or null. |
| FieldFunctions.FieldForce | Assets/ForceFieldPro/3D/ForceField.cs:255-270 | Definition of FieldFunction.GetForce: zero without a current primitive; in local coordinates the position goes through InverseTransformPoint and the answer through TransformDirection; otherwise the position is taken relative to the engine. ConstantFieldEverywhere and MissingCustomContributesNothing state its values. |
| FieldFunctions.SumEnabled | Assets/ForceFieldPro/3D/ForceField.cs:1071-1083 | Definition of the loop's sum over the enabled field functions in list order. SumEnabledAppend, SumOverEnabledOnly and NothingEnabledSumsToZero state its properties. |
| FieldFunctions.EngineForce | Assets/ForceFieldPro/3D/ForceField.cs:1071-1083 | Definition of ForceField.GetForce: that sum scaled by generalMultiplier. Engine.ForceField.GetForce is proved equal to it and EngineForceOfOne states its one-function case. |
| FieldFunctions.UpdateAll | Assets/ForceFieldPro/3D/ForceField.cs:960-970 | Each field function is updated in place, positions unchanged. |
| FieldFunctions.UpdateForgetsCache | Assets/ForceFieldPro/3D/ForceField.cs:213-246 | The result does not depend on the old cache, and a second update changes nothing. |
| FieldFunctions.EnabledOnly | Assets/ForceFieldPro/3D/ForceField.cs:1076 | Only enabled field functions from the list are kept. |
| FieldFunctions.SumEnabledSnoc | Assets/ForceFieldPro/3D/ForceField.cs:1073-1081 | One more field function adds its contribution. |
| FieldFunctions.SumEnabledAppend | Assets/ForceFieldPro/3D/ForceField.cs:1073-1081 | The sum splits over concatenated lists. |
| FieldFunctions.SumOverEnabledOnly | Assets/ForceFieldPro/3D/ForceField.cs:1076-1079 | Disabled field functions do not change the sum. |
| FieldFunctions.NothingEnabledSumsToZero | Assets/ForceFieldPro/3D/ForceField.cs:1071-1083 | With no enabled function that has a current primitive (in particular an empty list), the force is zero. |
| FieldFunctions.MissingCustomContributesNothing | Assets/ForceFieldPro/3D/ForceField.cs:255-260 | A Custom function without a behaviour contributes zero after its update. |
| FieldFunctions.ConstantFieldEverywhere | Assets/ForceFieldPro/3D/ForceField.cs:334-337 | An updated global Constant function with a non-null constant field gives `force * direction` at every position. |
| FieldFunctions.EngineForceOfOne | Assets/ForceFieldPro/3D/ForceField.cs:1071-1083 | The engine force over one field function is its contribution scaled by generalMultiplier. |
| FieldFunctions.ConstantFieldEngineForce | Assets/ForceFieldPro/3D/ForceField.cs:1071-1083 | A lone global Constant field with a non-null constant field gives `generalMultiplier * force * direction` everywhere. |
| FieldFunctions.NewFieldFunctionContributesNothing | Assets/ForceFieldPro/3D/ForceField.cs:1167-1173 | A field function made by AddFieldFunction has a null constant field, so once updated its current primitive is null and it contributes zero force. |

## Left out

- Vector geometry: the Centripetal, Axipetal and Perpendicular primitives and custom scripts are one uninterpreted function (`Frame.shapeForce`). So are `magnitude`, `normalized`, the plane distance, `Mathf.Sign`, `Mathf.Pow`, `AnimationCurve.Evaluate` and the transforms. These are floating-point numerics and Unity library code.
- The Perpendicular primitive's reassignment of its cached `referencePlane`: it only feeds the uninterpreted geometry.
- Floats are reals. Rounding, NaN and negative zero are not modelled. Unity's tolerant vector `==` is modelled as a squared length below 1e-10 (`Basics.ApproxEqual`), computed exactly. The only Infinity modelled is the one from dividing by a zero base.
- DistanceModifiers.GetModifier: the `(int)n` cast is taken as exact. A whole exponent of magnitude 2^31 or more, which C# truncates, is not modelled.
- Physics queries, `AddForce`/`AddForceAtPosition`, the wake-up of sleeping targets and the positions are inputs or log entries (`Tracking.World`, `Event`). So is the query geometry: anchor position, radius, centre, corners, depths and layer mask of the query.
- `SendMessage` is a log append. Listener code that edits the lists during the loop (re-entrancy) is not modelled.
- Object identity: selection methods and field functions are values held in the engine's lists. The missing aliasing has four consequences:
  - `AddTarget`/`RemoveTarget` name a given method by its position (`which`); a method of another field stands as a position outside the list.
  - `IndexOf` and `RemoveAll` compare by value.
  - Edits through the references `GetSelectionMethod`/`GetFieldFunction` return are `SetSelectionMethod`/`SetFieldFunction`.
  - `currField` names a slot, not an object. In the code, assigning a new primitive object (a new `constantField`, or null) leaves `currField` pointing at the old object until the next UpdateFieldFunction. The model's `SlotForce` reads the new primitive, or gives zero for null, at once. Edits of an existing primitive's parameters show through in both.
- Null entries in `selectionMethods` or `fieldFunctions`: no operation inserts one. Destroyed bodies whose references turn null are also left out, which skips the null check of the exit loop.
- Null fields of objects the code creates. The primitive fields of a field function are modelled as possibly null, so a field function from AddFieldFunction contributes nothing (`FieldFunctions.NewFieldFunctionContributesNothing`). Two null references are not modelled, and their exceptions are missing:
  - The `RaycastOption` of a method made by `new SelectionMethod()` (AddSelectionMethod, or the Manual method AddTarget appends) is null in the code. The model gives it the declared defaults instead. In the code, switching such a method to Raycast mode makes refreshTargets throw a NullReferenceException (ForceField.cs:122, ForceField2D.cs:117). The model refreshes it with the defaults, whose zero direction returns no targets.
  - The `customFieldOption` of such a field function is null too, so in the code switching it to Custom makes UpdateFieldFunction throw. The model treats it as a Custom function without a behaviour.
- Dictionary key order is insertion order. This is the order a `Dictionary` that is only added to after `Clear` enumerates. A `Remove` followed by an `Add` could reuse a slot; the model keeps the order of survivors.
- Awake/Initialize (the owner back-references), Update, gizmo drawing, editor drawers, demo scripts and `Assets/Scripts/BallManager.cs` are not part of this model.
