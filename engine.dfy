/** The ForceField2D / ForceField component: its settings, its selection
    methods and field functions, the ignored and the two target
    dictionaries, and what it has applied and sent so far. */
module Engine {
  import opened Basics
  import opened Wrappers
  import opened Scene
  import opened LayerMask
  import opened FieldFunctions
  import opened Raycasts
  import opened Selection
  import opened Lists
  import opened Tracking

  /** Which of the two target dictionaries a reference points at. */
  datatype Buffer = First | Second

  /** The keys of the dictionary currDict refers to (none while it is null). */
  function Current(ptr: Option<Buffer>, d1: seq<Handle>, d2: seq<Handle>): seq<Handle> {
    match ptr
    case None => []
    case Some(First) => d1
    case Some(Second) => d2
  }

  /** The keys of the dictionary historyDict refers to: the other one. */
  function Other(ptr: Option<Buffer>, d1: seq<Handle>, d2: seq<Handle>): seq<Handle> {
    match ptr
    case None => []
    case Some(First) => d2
    case Some(Second) => d1
  }

  /** The pointer agrees with dictFlag (which UpdateBufferPointer flips
      after pointing currDict at targetDict1 when it is set), both
      dictionaries are empty before the first tick, and the tracking
      dictionaries are tidy. */
  predicate Coherent(ptr: Option<Buffer>, flag: bool, d1: seq<Handle>, d2: seq<Handle>) {
    (ptr.None? ==> flag && d1 == [] && d2 == []) &&
    (ptr == Some(First) ==> !flag) &&
    (ptr == Some(Second) ==> flag) &&
    Tidy(TickState(Current(ptr, d1, d2), Other(ptr, d1, d2)))
  }

  /** Each engine offers only its own raycast modes, and the 2D engine has
      no PerpendicularForce. */
  predicate FitsEngine(dim: Dim, sms: seq<SelectionMethod>, ffs: seq<FieldFunction>) {
    (forall i :: 0 <= i < |sms| ==> Offers(dim, sms[i].rayCastOption.raycastType)) &&
    (dim == D2 ==> forall i :: 0 <= i < |ffs| ==> ffs[i].simpleFieldType != PerpendicularForce)
  }

  class ForceField {
    /** 2D or 3D engine. */
    const dim: Dim

    var sendMessage: bool
    var ignoreMass: bool
    var useMassCenter: bool
    var layerMask: Int32
    var alwaysIgnoredList: seq<Option<Handle>>
    var generalMultiplier: real
    var selectionMethods: seq<SelectionMethod>
    var fieldFunctions: seq<FieldFunction>

    /** The keys of ignoredDict, targetDict1 and targetDict2, in insertion
        order (each value is the body whose id is the key). */
    var ignoredDict: seq<Handle>
    var targetDict1: seq<Handle>
    var targetDict2: seq<Handle>
    var dictFlag: bool
    /** What currDict refers to; null until the first UpdateBufferPointer.
        historyDict always refers to the other dictionary. */
    var currDict: Option<Buffer>

    /** The forces applied and the messages sent, oldest first. */
    var log: seq<Event>

    function Curr(): seq<Handle>
      reads this`currDict, this`targetDict1, this`targetDict2
    {
      Current(currDict, targetDict1, targetDict2)
    }

    function History(): seq<Handle>
      reads this`currDict, this`targetDict1, this`targetDict2
    {
      Other(currDict, targetDict1, targetDict2)
    }

    function State(): TickState
      reads this`currDict, this`targetDict1, this`targetDict2
    {
      TickState(Curr(), History())
    }

    function Setup(): Settings
      reads this`sendMessage, this`ignoreMass, this`useMassCenter, this`layerMask, this`generalMultiplier
    {
      Settings(dim, sendMessage, ignoreMass, useMassCenter, layerMask, generalMultiplier)
    }

    /** What the selection methods see during a tick in `world`. */
    function EnvOf(world: World): Env
      reads this`sendMessage, this`ignoreMass, this`useMassCenter, this`layerMask, this`generalMultiplier, this`ignoredDict, this`fieldFunctions
    {
      Env(Setup(), world, ignoredDict, fieldFunctions)
    }

    /** The methods and field functions suit this engine. */
    predicate Fits()
      reads this`selectionMethods, this`fieldFunctions
    {
      FitsEngine(dim, selectionMethods, fieldFunctions)
    }

    /** The invariant every public operation keeps. */
    predicate Valid()
      reads this`currDict, this`dictFlag, this`targetDict1, this`targetDict2, this`selectionMethods, this`fieldFunctions
    {
      Coherent(currDict, dictFlag, targetDict1, targetDict2) && Fits()
    }

    /** A component with the given inspector settings, before Awake's first
        FixedUpdate. The declared defaults are sendMessage = true,
        ignoreMass = false, useMassCenter = false, layerMask = -1 (every
        layer) and generalMultiplier = 1. */
    constructor (dim: Dim, sendMessage: bool, ignoreMass: bool, useMassCenter: bool,
                 layerMask: Int32, generalMultiplier: real, alwaysIgnoredList: seq<Option<Handle>>)
      ensures Valid()
      ensures this.dim == dim && this.sendMessage == sendMessage && this.ignoreMass == ignoreMass
      ensures this.useMassCenter == useMassCenter && this.layerMask == layerMask
      ensures this.generalMultiplier == generalMultiplier && this.alwaysIgnoredList == alwaysIgnoredList
      ensures selectionMethods == [] && fieldFunctions == [] && ignoredDict == []
      ensures targetDict1 == [] && targetDict2 == [] && dictFlag && currDict.None? && log == []
    {
      this.dim := dim;
      this.sendMessage := sendMessage;
      this.ignoreMass := ignoreMass;
      this.useMassCenter := useMassCenter;
      this.layerMask := layerMask;
      this.generalMultiplier := generalMultiplier;
      this.alwaysIgnoredList := alwaysIgnoredList;
      selectionMethods := [];
      fieldFunctions := [];
      ignoredDict := [];
      targetDict1 := [];
      targetDict2 := [];
      dictFlag := true;
      currDict := None;
      log := [];
      new;
      assert NoDup([]);
    }

    // ----- FixedUpdate and its steps -----

    /** UpdateIgnoredDictionary: clear, add the engine's own body, then each
        non-null entry of alwaysIgnoredList; a repeated body makes
        Dictionary.Add throw, which ends the tick. */
    method UpdateIgnoredDictionary(self: Option<Handle>) returns (thrown: bool)
      modifies this`ignoredDict
      ensures Scan(ignoredDict, thrown) == IgnoredScan(self, alwaysIgnoredList)
    {
      ignoredDict := [];
      if self.Some? {
        ignoredDict := ignoredDict + [self.value];
      }
      var i := 0;
      while i < |alwaysIgnoredList|
        invariant 0 <= i <= |alwaysIgnoredList|
        invariant IgnoredScan(self, alwaysIgnoredList[..i]) == Scan(ignoredDict, false)
      {
        assert alwaysIgnoredList[..i + 1][..i] == alwaysIgnoredList[..i];
        var rb := alwaysIgnoredList[i];
        if rb.Some? {
          var id := rb.value;
          if id in ignoredDict {
            thrown := true;
            IgnoredScanStops(self, alwaysIgnoredList, i + 1);
            assert alwaysIgnoredList[..|alwaysIgnoredList|] == alwaysIgnoredList;
            return;
          }
          ignoredDict := ignoredDict + [id];
        }
        i := i + 1;
      }
      assert alwaysIgnoredList[..i] == alwaysIgnoredList;
      thrown := false;
    }

    /** UpdateBufferPointer: point currDict at one dictionary and historyDict
        at the other, clear currDict, flip dictFlag. The history is then the
        previous tick's current targets. */
    method UpdateBufferPointer()
      requires Valid()
      modifies this`currDict, this`dictFlag, this`targetDict1, this`targetDict2
      ensures Valid()
      ensures currDict.Some?
      ensures Curr() == [] && History() == old(Curr())
      ensures dictFlag == !old(dictFlag)
      ensures currDict == Some(if old(dictFlag) then First else Second)
    {
      if dictFlag {
        currDict := Some(First);
        targetDict1 := [];
      } else {
        currDict := Some(Second);
        targetDict2 := [];
      }
      dictFlag := !dictFlag;
      assert NoDup([]);
    }

    /** The UpdateFieldFunction loop. */
    method UpdateFieldFunctions()
      modifies this`fieldFunctions
      ensures fieldFunctions == UpdateAll(old(fieldFunctions))
    {
      var i := 0;
      ghost var ffs := fieldFunctions;
      while i < |fieldFunctions|
        invariant 0 <= i <= |fieldFunctions| == |ffs|
        invariant forall k :: 0 <= k < i ==> fieldFunctions[k] == UpdateFieldFunction(ffs[k])
        invariant forall k :: i <= k < |ffs| ==> fieldFunctions[k] == ffs[k]
      {
        fieldFunctions := fieldFunctions[i := UpdateFieldFunction(fieldFunctions[i])];
        i := i + 1;
      }
    }

    /** ApplyForce: GetForce at the body's position, through AddForce (2D),
        or in 3D through AddForce or AddForceAtPosition at the centre of
        mass, as Acceleration when ignoreMass. */
    method ApplyForce(target: Handle, world: World)
      modifies this`log
      ensures log == old(log) + [Pushed(target, ForceOn(EnvOf(world), target), ApplyModeOf(Setup()).0, ApplyModeOf(Setup()).1)]
    {
      var vec := GetForce(world.positionOf(target), Some(target), world.frame);
      if dim == D2 {
        log := log + [Pushed(target, vec, Force, false)];
      } else if ignoreMass {
        if useMassCenter {
          log := log + [Pushed(target, vec, Acceleration, true)];
        } else {
          log := log + [Pushed(target, vec, Acceleration, false)];
        }
      } else {
        if useMassCenter {
          log := log + [Pushed(target, vec, Force, true)];
        } else {
          log := log + [Pushed(target, vec, Force, false)];
        }
      }
    }

    /** Store new keys in whichever dictionaries the pointers refer to. */
    method SetDictionaries(curr: seq<Handle>, history: seq<Handle>)
      requires currDict.Some?
      modifies this`targetDict1, this`targetDict2
      ensures Curr() == curr && History() == history
    {
      if currDict == Some(First) {
        targetDict1 := curr;
        targetDict2 := history;
      } else {
        targetDict2 := curr;
        targetDict1 := history;
      }
    }

    /** ProcessSelectionMethod over one method's target list; the tracking
        dictionaries stay tidy. */
    method ProcessSelectionMethod(targets: seq<Option<Handle>>, world: World, ghost env: Env)
      requires Valid() && currDict.Some? && env == EnvOf(world)
      modifies this`targetDict1, this`targetDict2, this`log
      ensures Valid()
      ensures State() == ProcessTargets(env, old(State()), targets)
      ensures log == old(log) + TargetsEvents(env, old(State()), targets)
    {
      ghost var st0 := State();
      ProcessTargetList(targets, world, env);
      ProcessTargetsSets(env, st0, targets);
    }

    /** ProcessSelectionMethod's loop. */
    method ProcessTargetList(targets: seq<Option<Handle>>, world: World, ghost env: Env)
      requires currDict.Some? && env == EnvOf(world)
      modifies this`targetDict1, this`targetDict2, this`log
      ensures State() == ProcessTargets(env, old(State()), targets)
      ensures log == old(log) + TargetsEvents(env, old(State()), targets)
    {
      ghost var st0 := State();
      ghost var log0 := log;
      ghost var cur := st0;
      ghost var done: seq<Event> := [];
      var i := 0;
      while i < |targets|
        invariant 0 <= i <= |targets| && env == EnvOf(world)
        invariant cur == ProcessTargets(env, st0, targets[..i]) && State() == cur
        invariant done == TargetsEvents(env, st0, targets[..i]) && log == log0 + done
      {
        ProcessOne(targets[i], world, env);
        ProcessTargetsSnoc(env, st0, targets, i);
        ghost var es := TargetEvents(env, cur, targets[i]);
        AppendAssoc(log0, done, es);
        done := done + es;
        cur := ProcessTarget(env, cur, targets[i]);
        i := i + 1;
      }
      assert targets[..i] == targets;
    }

    /** One iteration of ProcessSelectionMethod's loop. */
    method ProcessOne(rb: Option<Handle>, world: World, ghost env: Env)
      requires currDict.Some? && env == EnvOf(world)
      modifies this`targetDict1, this`targetDict2, this`log
      ensures State() == ProcessTarget(env, old(State()), rb)
      ensures log == old(log) + TargetEvents(env, old(State()), rb)
    {
      ghost var st := State();
      ghost var log0 := log;
      if rb.None? || rb.value in Curr() || rb.value in ignoredDict || !EnumMaskCheck(world.layerOf(rb.value), layerMask) {
        assert !Admits(env, st, rb);
        assert log == log0 + [];
        return;
      }
      var id := rb.value;
      assert Admits(env, st, rb);
      SetDictionaries(Curr() + [id], History());
      assert EnvOf(world) == env;
      ApplyForce(id, world);
      ghost var mode := ApplyModeOf(env.settings);
      ghost var es := [Pushed(id, ForceOn(env, id), mode.0, mode.1)];
      if sendMessage {
        log := log + [Stay(id)];
        AppendAssoc(log0, es, [Stay(id)]);
        es := es + [Stay(id)];
      } else {
        assert es == es + [];
      }
      if id in History() {
        SetDictionaries(Curr(), RemoveAll(History(), id));
        assert es == es + [];
      } else {
        RemoveAllAbsent(History(), id);
        if sendMessage {
          log := log + [Enter(id)];
          AppendAssoc(log0, es, [Enter(id)]);
          es := es + [Enter(id)];
        } else {
          assert es == es + [];
        }
      }
      assert log == log0 + es;
      ArrivalShape(env, id, id !in st.history);
      assert es == Arrival(env, id, id !in st.history);
      assert State() == TickState(st.curr + [id], RemoveAll(st.history, id));
      assert TargetEvents(env, st, rb) == Arrival(env, id, id !in st.history);
      assert ProcessTarget(env, st, rb) == TickState(st.curr + [id], RemoveAll(st.history, id));
      assert EnvOf(world) == env;
    }

    /** refreshTargets for the method at position `i`. */
    method RefreshTargets(i: nat, world: World) returns (fault: Option<Fault>)
      requires i < |selectionMethods|
      modifies this`selectionMethods
      ensures |selectionMethods| == |old(selectionMethods)|
      ensures (selectionMethods[i], fault) == Refresh(old(selectionMethods)[i], IgnoredSet(EnvOf(world)), world.answerFor(i))
      ensures selectionMethods == old(selectionMethods)[i := selectionMethods[i]]
    {
      var sm := selectionMethods[i];
      fault := None;
      match sm.targetingMode {
        case Collider =>
          selectionMethods := selectionMethods[i := sm.(targetsList := [])];
        case Raycast =>
          selectionMethods := selectionMethods[i := sm.(targetsList := [])];
          var ignored := set h | h in ignoredDict;
          var result := GetRaycastResult(sm.rayCastOption, ignored, world.answerFor(i));
          if result.Failure? {
            fault := Some(result.error);
            return;
          }
          selectionMethods := selectionMethods[i := sm.(targetsList := AsTargets(result.value))];
        case Manual =>
      }
    }

    /** The outcome of a tick's selection method loop from this moment on. */
    function Remaining(env: Env, done: seq<Event>, i: nat): Run
      requires i <= |selectionMethods|
      reads this`selectionMethods, this`currDict, this`targetDict1, this`targetDict2
    {
      var rest := RunMethods(env, selectionMethods, State(), i);
      rest.(events := done + rest.events)
    }

    /** FixedUpdate: rebuild the ignored dictionary, swap the target
        dictionaries, update the field functions, process and refresh each
        enabled selection method in order, and finally send the exit
        messages to the bodies left in history. An exception (a repeated
        ignored body, or a repeated distance in a nearest-target raycast)
        ends the tick where it is thrown. */
    method FixedUpdate(world: World) returns (fault: Option<Fault>)
      requires Valid()
      modifies this`ignoredDict, this`currDict, this`dictFlag, this`targetDict1, this`targetDict2
      modifies this`fieldFunctions, this`selectionMethods, this`log
      ensures Valid()
      ensures Scan(ignoredDict, fault == Some(DuplicateIgnored)) == IgnoredScan(world.self, alwaysIgnoredList)
      ensures fault == Some(DuplicateIgnored) ==>
                selectionMethods == old(selectionMethods) && fieldFunctions == old(fieldFunctions) &&
                currDict == old(currDict) && dictFlag == old(dictFlag) &&
                targetDict1 == old(targetDict1) && targetDict2 == old(targetDict2) && log == old(log)
      ensures fault != Some(DuplicateIgnored) ==>
                var env := Env(Setup(), world, ignoredDict, UpdateAll(old(fieldFunctions)));
                var run := RunMethods(env, old(selectionMethods), TickStart(old(Curr())), 0);
                fieldFunctions == UpdateAll(old(fieldFunctions)) &&
                dictFlag == !old(dictFlag) &&
                selectionMethods == run.sms && State() == run.st && fault == run.fault &&
                log == old(log) + run.events + (if fault.None? then ExitEvents(sendMessage, run.st.history) else [])
    {
      var thrown := UpdateIgnoredDictionary(world.self);
      if thrown {
        return Some(DuplicateIgnored);
      }
      fault := Tick(world);
    }

    /** FixedUpdate once the ignored dictionary is rebuilt. */
    method Tick(world: World) returns (fault: Option<Fault>)
      requires Valid()
      modifies this`currDict, this`dictFlag, this`targetDict1, this`targetDict2
      modifies this`fieldFunctions, this`selectionMethods, this`log
      ensures Valid()
      ensures fault != Some(DuplicateIgnored)
      ensures var env := Env(Setup(), world, ignoredDict, UpdateAll(old(fieldFunctions)));
              var run := RunMethods(env, old(selectionMethods), TickStart(old(Curr())), 0);
              fieldFunctions == UpdateAll(old(fieldFunctions)) &&
              dictFlag == !old(dictFlag) &&
              selectionMethods == run.sms && State() == run.st && fault == run.fault &&
              log == old(log) + run.events + (if fault.None? then ExitEvents(sendMessage, run.st.history) else [])
    {
      StartTick();
      ghost var env := EnvOf(world);
      assert env == Env(Setup(), world, ignoredDict, UpdateAll(old(fieldFunctions)));
      fault := FinishTick(world);
      assert EnvOf(world) == env;
    }

    /** The steps of FixedUpdate between the ignored dictionary and the
        selection methods. */
    method StartTick()
      requires Valid()
      modifies this`currDict, this`dictFlag, this`targetDict1, this`targetDict2, this`fieldFunctions
      ensures Valid() && currDict.Some?
      ensures State() == TickStart(old(Curr()))
      ensures dictFlag == !old(dictFlag)
      ensures fieldFunctions == UpdateAll(old(fieldFunctions))
    {
      UpdateBufferPointer();
      UpdateFieldFunctions();
      assert Valid() by {
        assert forall k :: 0 <= k < |fieldFunctions| ==>
          fieldFunctions[k].simpleFieldType == old(fieldFunctions)[k].simpleFieldType;
      }
    }

    /** The selection method loop of FixedUpdate, then the exit messages
        unless the loop threw. */
    method FinishTick(world: World) returns (fault: Option<Fault>)
      requires Valid() && currDict.Some?
      modifies this`selectionMethods, this`targetDict1, this`targetDict2, this`log
      ensures Valid()
      ensures fault != Some(DuplicateIgnored)
      ensures var run := RunMethods(EnvOf(world), old(selectionMethods), old(State()), 0);
              selectionMethods == run.sms && State() == run.st && fault == run.fault &&
              log == old(log) + run.events + (if fault.None? then ExitEvents(sendMessage, run.st.history) else [])
    {
      ghost var run := RunMethods(EnvOf(world), selectionMethods, State(), 0);
      ghost var log0 := log;
      fault := RunSelectionMethods(world);
      assert run == Run(selectionMethods, State(), log[|log0|..], fault);
      assert log == log0 + run.events;
      if fault.Some? {
        assert log == log0 + run.events + [];
        return;
      }
      SendExitMessages();
    }

    /** The selection method loop of FixedUpdate. */
    method RunSelectionMethods(world: World) returns (fault: Option<Fault>)
      requires Valid() && currDict.Some?
      modifies this`selectionMethods, this`targetDict1, this`targetDict2, this`log
      ensures Valid()
      ensures fault != Some(DuplicateIgnored)
      ensures |old(log)| <= |log| && log[..|old(log)|] == old(log)
      ensures RunMethods(EnvOf(world), old(selectionMethods), old(State()), 0) ==
              Run(selectionMethods, State(), log[|old(log)|..], fault)
    {
      ghost var env := EnvOf(world);
      ghost var total := RunMethods(env, selectionMethods, State(), 0);
      ghost var log0 := log;
      ghost var done: seq<Event> := [];
      var i := 0;
      while i < |selectionMethods|
        invariant 0 <= i <= |selectionMethods|
        invariant Valid() && currDict.Some? && EnvOf(world) == env
        invariant log == log0 + done
        invariant total == Remaining(env, done, i)
      {
        ghost var es;
        var f;
        f, es := RunOne(i, world, env);
        AppendAssoc(log0, done, es);
        if f.Some? {
          assert log[|log0|..] == done + es;
          return f;
        }
        ghost var rest := RunMethods(env, selectionMethods, State(), i + 1);
        AppendAssoc(done, es, rest.events);
        done := done + es;
        i := i + 1;
      }
      assert log[|log0|..] == done;
      fault := None;
    }

    /** One iteration of the selection method loop: a disabled method is
        skipped, an enabled one has its list processed and is then
        refreshed. `es` is what the iteration applied and sent. */
    method RunOne(i: nat, world: World, ghost env: Env) returns (fault: Option<Fault>, ghost es: seq<Event>)
      requires Valid() && currDict.Some? && i < |selectionMethods| && env == EnvOf(world)
      modifies this`selectionMethods, this`targetDict1, this`targetDict2, this`log
      ensures Valid() && |selectionMethods| == |old(selectionMethods)|
      ensures log == old(log) + es
      ensures fault != Some(DuplicateIgnored)
      ensures var run := RunMethods(env, old(selectionMethods), old(State()), i);
              if fault.Some? then run == Run(selectionMethods, State(), es, fault)
              else var rest := RunMethods(env, selectionMethods, State(), i + 1);
                   run == rest.(events := es + rest.events)
    {
      var sm := selectionMethods[i];
      ghost var sms0 := selectionMethods;
      ghost var before := State();
      es := [];
      fault := None;
      if !sm.enabled {
        assert log == old(log) + es;
        return;
      }
      ProcessSelectionMethod(sm.targetsList, world, env);
      es := TargetsEvents(env, before, sm.targetsList);
      fault := RefreshTargets(i, world);
      assert env.world == world && IgnoredSet(EnvOf(world)) == IgnoredSet(env);
      ghost var r := Refresh(sm, IgnoredSet(env), env.world.answerFor(i));
      assert (selectionMethods[i], fault) == r;
      assert selectionMethods == sms0[i := r.0];
      assert Fits() by {
        assert selectionMethods[i].rayCastOption == sm.rayCastOption;
      }
    }

    /** The exit messages for the bodies still in history. */
    method SendExitMessages()
      modifies this`log
      ensures log == old(log) + ExitEvents(sendMessage, History())
    {
      if !sendMessage {
        return;
      }
      var history := History();
      var j := 0;
      while j < |history|
        invariant 0 <= j <= |history|
        invariant log == old(log) + ExitEvents(true, history[..j])
      {
        assert history[..j + 1][..j] == history[..j];
        log := log + [Exit(history[j])];
        j := j + 1;
      }
      assert history[..j] == history;
    }

    /** OnTriggerStay / OnTriggerStay2D for a collider whose attached body
        is `rb`. */
    method OnTriggerStay(rb: Option<Handle>)
      requires Valid()
      modifies this`selectionMethods
      ensures Valid()
      ensures selectionMethods == TriggerStay(old(selectionMethods), rb)
    {
      if rb.None? {
        return;
      }
      ghost var sms := selectionMethods;
      var i := 0;
      while i < |selectionMethods|
        invariant 0 <= i <= |selectionMethods| == |sms|
        invariant forall k :: 0 <= k < i ==> selectionMethods[k] == TriggerStay(sms, rb)[k]
        invariant forall k :: i <= k < |sms| ==> selectionMethods[k] == sms[k]
        invariant Fits()
      {
        var sm := selectionMethods[i];
        if sm.targetingMode == Collider {
          selectionMethods := selectionMethods[i := sm.(targetsList := sm.targetsList + [rb])];
        }
        i := i + 1;
      }
    }

    /** GetForce: the sum over the enabled field functions, in order, times
        generalMultiplier. */
    method GetForce(position: Vec, target: Option<Handle>, frame: Frame) returns (force: Vec)
      ensures force == EngineForce(fieldFunctions, generalMultiplier, frame, position, target)
    {
      force := Zero;
      var i := 0;
      while i < |fieldFunctions|
        invariant 0 <= i <= |fieldFunctions|
        invariant force == SumEnabled(fieldFunctions[..i], frame, position, target)
      {
        assert fieldFunctions[..i + 1][..i] == fieldFunctions[..i];
        var ff := fieldFunctions[i];
        if ff.enabled {
          force := Add(force, FieldForce(ff, frame, position, target));
        } else {
          assert Add(force, Zero) == force;
        }
        i := i + 1;
      }
      assert fieldFunctions[..i] == fieldFunctions;
      force := Scale(generalMultiplier, force);
    }

    // ----- the public API -----

    /** GetCurrentTargets: the bodies processed in the latest tick, in the
        order they were first admitted, none twice; empty before the first
        tick. */
    method GetCurrentTargets() returns (targets: seq<Handle>)
      requires Valid()
      ensures targets == Curr() && NoDup(targets)
      ensures currDict.None? ==> targets == []
    {
      match currDict {
        case None => targets := [];
        case Some(First) => targets := targetDict1;
        case Some(Second) => targets := targetDict2;
      }
    }

    /** AddSelectionMethod: append a new method and return its position. */
    method AddSelectionMethod() returns (index: nat)
      requires Valid()
      modifies this`selectionMethods
      ensures Valid()
      ensures selectionMethods == old(selectionMethods) + [NewSelectionMethod]
      ensures index == |old(selectionMethods)| && selectionMethods[index] == NewSelectionMethod
    {
      selectionMethods := selectionMethods + [NewSelectionMethod];
      index := |selectionMethods| - 1;
    }

    /** removeSelectionMethod(index = -1). */
    method RemoveSelectionMethod(index: Int32)
      requires Valid()
      modifies this`selectionMethods
      ensures Valid()
      ensures selectionMethods == RemoveByIndex(old(selectionMethods), index)
    {
      var count := |selectionMethods|;
      if count == 0 {
        return;
      }
      RemoveByIndexDropsOne(selectionMethods, index);
      if index == -1 {
        selectionMethods := selectionMethods[..count - 1];
      } else if index >= 0 && index < count {
        selectionMethods := selectionMethods[..index] + selectionMethods[index + 1..];
      }
    }

    /** GetSelectionMethod(index = 0). */
    method GetSelectionMethod(index: Int32) returns (sm: Option<SelectionMethod>)
      ensures sm == GetByIndex(selectionMethods, index)
    {
      var count := |selectionMethods|;
      if count == 0 {
        return None;
      }
      if index < 0 || index >= count {
        return None;
      }
      return Some(selectionMethods[index]);
    }

    /** GetSelectionMethodIndex. */
    method GetSelectionMethodIndex(sm: SelectionMethod) returns (index: int)
      ensures index == IndexOf(selectionMethods, sm)
    {
      index := IndexOf(selectionMethods, sm);
    }

    /** An edit, through the reference GetSelectionMethod returns, of the
        public fields of the method at position `index`. */
    method SetSelectionMethod(index: nat, sm: SelectionMethod)
      requires Valid() && index < |selectionMethods| && Offers(dim, sm.rayCastOption.raycastType)
      modifies this`selectionMethods
      ensures Valid()
      ensures selectionMethods == old(selectionMethods)[index := sm]
    {
      selectionMethods := selectionMethods[index := sm];
    }

    /** AddFieldFunction: append a new field function and return its
        position. */
    method AddFieldFunction() returns (index: nat)
      requires Valid()
      modifies this`fieldFunctions
      ensures Valid()
      ensures fieldFunctions == old(fieldFunctions) + [NewFieldFunction]
      ensures index == |old(fieldFunctions)| && fieldFunctions[index] == NewFieldFunction
    {
      fieldFunctions := fieldFunctions + [NewFieldFunction];
      index := |fieldFunctions| - 1;
    }

    /** removeFieldFunction(index = -1). */
    method RemoveFieldFunction(index: Int32)
      requires Valid()
      modifies this`fieldFunctions
      ensures Valid()
      ensures fieldFunctions == RemoveByIndex(old(fieldFunctions), index)
    {
      var count := |fieldFunctions|;
      if count == 0 {
        return;
      }
      RemoveByIndexDropsOne(fieldFunctions, index);
      if index == -1 {
        fieldFunctions := fieldFunctions[..count - 1];
      } else if index >= 0 && index < count {
        fieldFunctions := fieldFunctions[..index] + fieldFunctions[index + 1..];
      }
    }

    /** GetFieldFunction(index = 0). */
    method GetFieldFunction(index: Int32) returns (ff: Option<FieldFunction>)
      ensures ff == GetByIndex(fieldFunctions, index)
    {
      var count := |fieldFunctions|;
      if count == 0 {
        return None;
      }
      if index < 0 || index >= count {
        return None;
      }
      return Some(fieldFunctions[index]);
    }

    /** GetFieldFunctionIndex. */
    method GetFieldFunctionIndex(ff: FieldFunction) returns (index: int)
      ensures index == IndexOf(fieldFunctions, ff)
    {
      index := IndexOf(fieldFunctions, ff);
    }

    /** An edit, through the reference GetFieldFunction returns, of the
        public fields of the field function at position `index`: the fields
        take their values from `ff`, while the private `currField` cache
        keeps what the last UpdateFieldFunction left in it. */
    method SetFieldFunction(index: nat, ff: FieldFunction)
      requires Valid() && index < |fieldFunctions| && (dim == D2 ==> ff.simpleFieldType != PerpendicularForce)
      modifies this`fieldFunctions
      ensures Valid()
      ensures fieldFunctions == old(fieldFunctions)[index := ff.(currField := old(fieldFunctions)[index].currField)]
      ensures fieldFunctions[index].currField == old(fieldFunctions)[index].currField
    {
      fieldFunctions := fieldFunctions[index := ff.(currField := fieldFunctions[index].currField)];
    }

    /** AddTarget(rb, sm = null); `which` is the given method's position. */
    method AddTarget(rb: Option<Handle>, which: Option<int>)
      requires Valid()
      modifies this`selectionMethods
      ensures Valid()
      ensures selectionMethods == AddTargetTo(old(selectionMethods), rb, which)
    {
      if rb.None? {
        return;
      }
      if which.Some? {
        var i := which.value;
        if 0 <= i < |selectionMethods| && selectionMethods[i].targetingMode == Manual {
          selectionMethods := selectionMethods[i := Appended(selectionMethods[i], rb)];
        }
        return;
      }
      var i := 0;
      while i < |selectionMethods|
        invariant 0 <= i <= |selectionMethods|
        invariant selectionMethods == old(selectionMethods)
        invariant forall k :: 0 <= k < i ==> selectionMethods[k].targetingMode != Manual
      {
        if selectionMethods[i].targetingMode == Manual {
          assert FirstManual(selectionMethods) == i;
          selectionMethods := selectionMethods[i := Appended(selectionMethods[i], rb)];
          return;
        }
        i := i + 1;
      }
      assert FirstManual(selectionMethods) == -1;
      var j := AddSelectionMethod();
      var smn := selectionMethods[j].(targetingMode := Manual);
      smn := Appended(smn, rb);
      assert smn.targetsList == [rb];
      selectionMethods := selectionMethods[j := smn];
      assert selectionMethods == old(selectionMethods) + [smn];
    }

    /** RemoveTarget(rb, sm = null); `which` is the given method's position. */
    method RemoveTarget(rb: Option<Handle>, which: Option<int>)
      requires Valid()
      modifies this`selectionMethods
      ensures Valid()
      ensures selectionMethods == RemoveTargetFrom(old(selectionMethods), rb, which)
    {
      if rb.None? {
        return;
      }
      var h := rb.value;
      if which.Some? {
        var i := which.value;
        if 0 <= i < |selectionMethods| && selectionMethods[i].targetingMode == Manual {
          selectionMethods := selectionMethods[i := selectionMethods[i].(targetsList := RemoveAll(selectionMethods[i].targetsList, rb))];
        }
        return;
      }
      ghost var sms := selectionMethods;
      var i := 0;
      while i < |selectionMethods|
        invariant 0 <= i <= |selectionMethods| == |sms|
        invariant forall k :: 0 <= k < i ==> selectionMethods[k] == RemoveFrom(sms[k], h)
        invariant forall k :: i <= k < |sms| ==> selectionMethods[k] == sms[k]
        invariant Fits()
      {
        var sm := selectionMethods[i];
        if sm.targetingMode == Manual {
          selectionMethods := selectionMethods[i := sm.(targetsList := RemoveAll(sm.targetsList, rb))];
        }
        i := i + 1;
      }
    }

    /** ClearSelectionMethods. */
    method ClearSelectionMethods()
      requires Valid()
      modifies this`selectionMethods
      ensures Valid() && selectionMethods == []
    {
      selectionMethods := [];
    }

    /** ClearFieldFunctions. */
    method ClearFieldFunctions()
      requires Valid()
      modifies this`fieldFunctions
      ensures Valid() && fieldFunctions == []
    {
      fieldFunctions := [];
    }

    /** Ignore: append to alwaysIgnoredList (a null is appended too, and
        skipped by UpdateIgnoredDictionary). */
    method Ignore(rb: Option<Handle>)
      modifies this`alwaysIgnoredList
      ensures alwaysIgnoredList == old(alwaysIgnoredList) + [rb]
    {
      alwaysIgnoredList := alwaysIgnoredList + [rb];
    }

    /** StopIgnore: remove every entry equal to `rb`. */
    method StopIgnore(rb: Option<Handle>)
      modifies this`alwaysIgnoredList
      ensures alwaysIgnoredList == RemoveAll(old(alwaysIgnoredList), rb)
    {
      alwaysIgnoredList := RemoveAll(alwaysIgnoredList, rb);
    }
  }
}
