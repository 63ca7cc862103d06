/** What one FixedUpdate does to the engine's bookkeeping, as functions on
    values: the ignored dictionary, the current/history target
    dictionaries, the forces applied and the messages sent. Dictionary key
    sets are kept as sequences in insertion order, the order a Dictionary
    that is only added to after Clear enumerates them in. */
module Tracking {
  import opened Basics
  import opened Wrappers
  import opened Scene
  import opened LayerMask
  import opened FieldFunctions
  import opened Selection
  import opened Lists

  // ----- duplicate-free sequences -----

  predicate NoDup(s: seq<Handle>) {
    |s| == 0 || (NoDup(s[..|s| - 1]) && s[|s| - 1] !in s[..|s| - 1])
  }

  predicate Disjoint(a: seq<Handle>, b: seq<Handle>) {
    forall h :: h in a ==> h !in b
  }

  lemma NoDupSnoc(s: seq<Handle>, h: Handle)
    ensures NoDup(s + [h]) <==> NoDup(s) && h !in s
  {
    assert (s + [h])[..|s|] == s;
  }

  /** Removing from a duplicate-free sequence keeps it duplicate-free. */
  lemma {:induction false} NoDupRemoveAll(s: seq<Handle>, h: Handle)
    requires NoDup(s)
    ensures NoDup(RemoveAll(s, h))
    decreases |s|
  {
    if |s| > 0 {
      var init := s[..|s| - 1];
      var last := s[|s| - 1];
      assert s == init + [last];
      RemoveAllAppend(init, [last], h);
      NoDupRemoveAll(init, h);
      assert RemoveAll([last], h) == (if last == h then [] else [last]) by {
        assert [last][1..] == [];
      }
      if last != h {
        NoDupSnoc(RemoveAll(init, h), last);
      } else {
        assert RemoveAll(s, h) == RemoveAll(init, h);
      }
    }
  }

  // ----- UpdateIgnoredDictionary -----

  /** The state of UpdateIgnoredDictionary: the keys added so far, and
      whether a Dictionary.Add has thrown. */
  datatype Scan = Scan(keys: seq<Handle>, thrown: bool)

  /** The non-null entries of a list, in order. */
  function NonNull(l: seq<Option<Handle>>): (r: seq<Handle>)
    ensures forall h :: h in r <==> Some(h) in l
  {
    if |l| == 0 then []
    else NonNull(l[..|l| - 1]) + (if l[|l| - 1].Some? then [l[|l| - 1].value] else [])
  }

  /** The engine's own rigid body (if any), then alwaysIgnoredList's
      non-null entries; the first body already present makes Add throw, and
      the tick stops there. */
  function IgnoredScan(self: Option<Handle>, l: seq<Option<Handle>>): Scan {
    if |l| == 0 then Scan(if self.Some? then [self.value] else [], false)
    else
      var sc := IgnoredScan(self, l[..|l| - 1]);
      if sc.thrown then sc
      else match l[|l| - 1]
        case None => sc
        case Some(h) => if h in sc.keys then Scan(sc.keys, true) else Scan(sc.keys + [h], false)
  }

  /** Once Add has thrown, the rest of the list is never looked at. */
  lemma {:induction false} IgnoredScanStops(self: Option<Handle>, l: seq<Option<Handle>>, n: nat)
    requires n <= |l| && IgnoredScan(self, l[..n]).thrown
    ensures IgnoredScan(self, l) == IgnoredScan(self, l[..n])
    decreases |l|
  {
    if n < |l| {
      assert l[..|l| - 1][..n] == l[..n];
      IgnoredScanStops(self, l[..|l| - 1], n);
    } else {
      assert l[..n] == l;
    }
  }

  function SelfSeed(self: Option<Handle>): seq<Handle> {
    if self.Some? then [self.value] else []
  }

  /** UpdateIgnoredDictionary succeeds exactly when the engine's body and
      the non-null ignored entries are pairwise distinct, and then the
      dictionary holds exactly them, in that order. */
  lemma {:induction false} IgnoredScanSucceeds(self: Option<Handle>, l: seq<Option<Handle>>)
    ensures !IgnoredScan(self, l).thrown <==> NoDup(SelfSeed(self) + NonNull(l))
    ensures !IgnoredScan(self, l).thrown ==> IgnoredScan(self, l).keys == SelfSeed(self) + NonNull(l)
  {
    if |l| == 0 {
      assert SelfSeed(self) + NonNull(l) == SelfSeed(self);
      if self.Some? {
        assert NoDup([self.value]) by {
          assert [self.value][..0] == [];
        }
      }
    } else {
      var init := l[..|l| - 1];
      IgnoredScanSucceeds(self, init);
      var seed := SelfSeed(self) + NonNull(init);
      var sc := IgnoredScan(self, init);
      if l[|l| - 1].Some? {
        var h := l[|l| - 1].value;
        assert SelfSeed(self) + NonNull(l) == seed + [h];
        NoDupSnoc(seed, h);
        if sc.thrown {
          assert !NoDup(seed);
        }
      } else {
        assert SelfSeed(self) + NonNull(l) == seed;
      }
    }
  }

  /** Ignoring a body that is already ignored, or the engine's own body,
      makes every later tick throw in UpdateIgnoredDictionary. */
  lemma IgnoreTwiceThrows(self: Option<Handle>, l: seq<Option<Handle>>, h: Handle)
    requires Some(h) in l || self == Some(h)
    ensures IgnoredScan(self, l + [Some(h)]).thrown
  {
    var l' := l + [Some(h)];
    assert l'[..|l'| - 1] == l;
    IgnoredScanSucceeds(self, l);
    var sc := IgnoredScan(self, l);
    if !sc.thrown {
      assert h in SelfSeed(self) + NonNull(l);
    }
  }

  // ----- targets of one tick -----

  /** The engine's settings. */
  datatype Settings = Settings(
    dim: Dim,
    sendMessage: bool,
    ignoreMass: bool,
    useMassCenter: bool,
    layerMask: Int32,
    generalMultiplier: real)

  /** What the scene answers during a tick: the engine's own rigid body,
      each body's layer and position (Rigidbody.position in 3D, the
      transform's x and y in 2D), the field functions' frame, and the
      physics answer the i-th selection method's raycast receives. */
  datatype World = World(
    self: Option<Handle>,
    layerOf: Handle -> Layer,
    positionOf: Handle -> Vec,
    frame: Frame,
    answerFor: nat -> QueryAnswer)

  /** What is fixed while the selection methods run. */
  datatype Env = Env(settings: Settings, world: World, ignored: seq<Handle>, ffs: seq<FieldFunction>)

  datatype ForceMode = Force | Acceleration

  /** A force applied (AddForce, or AddForceAtPosition at the centre of
      mass), or the pair of messages sent to the body and to the engine
      (OnForceFieldStay/Stayed, Enter/Entered, Exit/Exited; the 2D names
      carry "2D"). */
  datatype Event =
    | Pushed(target: Handle, force: Vec, mode: ForceMode, atMassCenter: bool)
    | Stay(body: Handle)
    | Enter(body: Handle)
    | Exit(body: Handle)

  /** ApplyForce's choice of call: the 2D engine always uses AddForce with
      ForceMode2D.Force; the 3D engine uses Acceleration when ignoreMass and
      applies at worldCenterOfMass when useMassCenter. */
  function ApplyModeOf(s: Settings): (r: (ForceMode, bool))
    ensures s.dim == D2 ==> r == (Force, false)
    ensures s.dim == D3 ==> (r.0 == Acceleration <==> s.ignoreMass) && (r.1 <==> s.useMassCenter)
  {
    match s.dim
    case D2 => (Force, false)
    case D3 => (if s.ignoreMass then Acceleration else Force, s.useMassCenter)
  }

  /** The field's force on body `h`: GetForce at the body's position. */
  function ForceOn(env: Env, h: Handle): Vec {
    EngineForce(env.ffs, env.settings.generalMultiplier, env.world.frame, env.world.positionOf(h), Some(h))
  }

  /** The ignored dictionary's keys as the raycast filter sees them. */
  function IgnoredSet(env: Env): set<Handle> {
    set h | h in env.ignored
  }

  /** Not ignored and on a layer in the mask. */
  predicate Admissible(env: Env, h: Handle) {
    h !in env.ignored && EnumMaskCheck(env.world.layerOf(h), env.settings.layerMask)
  }

  /** What happens when `h` is first admitted in a tick. */
  function Arrival(env: Env, h: Handle, entered: bool): seq<Event> {
    var mode := ApplyModeOf(env.settings);
    [Pushed(h, ForceOn(env, h), mode.0, mode.1)] +
      (if env.settings.sendMessage then [Stay(h)] + (if entered then [Enter(h)] else []) else [])
  }

  /** The events of an arrival, one by one. */
  lemma ArrivalShape(env: Env, h: Handle, entered: bool)
    ensures var mode := ApplyModeOf(env.settings);
            var pushed := Pushed(h, ForceOn(env, h), mode.0, mode.1);
            Arrival(env, h, entered) ==
              [pushed] + (if env.settings.sendMessage then [Stay(h)] else []) +
              (if env.settings.sendMessage && entered then [Enter(h)] else [])
  {
  }

  /** The current and the history dictionary's keys. */
  datatype TickState = TickState(curr: seq<Handle>, history: seq<Handle>)

  /** The bookkeeping invariant: neither dictionary repeats a key and no
      body is both current and history. */
  predicate Tidy(st: TickState) {
    NoDup(st.curr) && NoDup(st.history) && Disjoint(st.curr, st.history)
  }

  /** Whether one iteration of ProcessSelectionMethod's loop admits `rb`:
      a body not yet current this tick, not ignored, on a masked layer. */
  predicate Admits(env: Env, st: TickState, rb: Option<Handle>) {
    rb.Some? && rb.value !in st.curr && Admissible(env, rb.value)
  }

  /** One iteration of ProcessSelectionMethod's loop: the dictionaries. */
  function ProcessTarget(env: Env, st: TickState, rb: Option<Handle>): TickState {
    if !Admits(env, st, rb) then st
    else TickState(st.curr + [rb.value], RemoveAll(st.history, rb.value))
  }

  /** One iteration of ProcessSelectionMethod's loop: the force and the
      messages, an Enter message when the body was not in history. */
  function TargetEvents(env: Env, st: TickState, rb: Option<Handle>): seq<Event> {
    if !Admits(env, st, rb) then [] else Arrival(env, rb.value, rb.value !in st.history)
  }

  /** ProcessSelectionMethod over a target list: the dictionaries. */
  function ProcessTargets(env: Env, st: TickState, rbs: seq<Option<Handle>>): TickState {
    if |rbs| == 0 then st else ProcessTarget(env, ProcessTargets(env, st, rbs[..|rbs| - 1]), rbs[|rbs| - 1])
  }

  /** ProcessSelectionMethod over a target list: what it applies and sends. */
  function TargetsEvents(env: Env, st: TickState, rbs: seq<Option<Handle>>): seq<Event> {
    if |rbs| == 0 then []
    else TargetsEvents(env, st, rbs[..|rbs| - 1]) + TargetEvents(env, ProcessTargets(env, st, rbs[..|rbs| - 1]), rbs[|rbs| - 1])
  }

  lemma ProcessTargetsSnoc(env: Env, st: TickState, rbs: seq<Option<Handle>>, i: nat)
    requires i < |rbs|
    ensures ProcessTargets(env, st, rbs[..i + 1]) == ProcessTarget(env, ProcessTargets(env, st, rbs[..i]), rbs[i])
    ensures TargetsEvents(env, st, rbs[..i + 1]) ==
            TargetsEvents(env, st, rbs[..i]) + TargetEvents(env, ProcessTargets(env, st, rbs[..i]), rbs[i])
  {
    assert rbs[..i + 1][..i] == rbs[..i];
  }

  /** Processing two lists one after the other is processing their
      concatenation. */
  lemma {:induction false} ProcessTargetsAppend(env: Env, st: TickState, a: seq<Option<Handle>>, b: seq<Option<Handle>>)
    ensures ProcessTargets(env, st, a + b) == ProcessTargets(env, ProcessTargets(env, st, a), b)
  {
    if |b| == 0 {
      assert a + b == a;
    } else {
      var b' := b[..|b| - 1];
      assert (a + b)[..|a + b| - 1] == a + b';
      ProcessTargetsAppend(env, st, a, b');
    }
  }

  /** ... and what it applies and sends is the two lists' events in turn. */
  lemma {:induction false} TargetsEventsAppend(env: Env, st: TickState, a: seq<Option<Handle>>, b: seq<Option<Handle>>)
    ensures TargetsEvents(env, st, a + b) == TargetsEvents(env, st, a) + TargetsEvents(env, ProcessTargets(env, st, a), b)
  {
    if |b| == 0 {
      assert a + b == a;
    } else {
      var b' := b[..|b| - 1];
      assert (a + b)[..|a + b| - 1] == a + b';
      TargetsEventsAppend(env, st, a, b');
      ProcessTargetsAppend(env, st, a, b');
      var mid := ProcessTargets(env, ProcessTargets(env, st, a), b');
      var e := TargetEvents(env, mid, b[|b| - 1]);
      AppendAssoc(TargetsEvents(env, st, a), TargetsEvents(env, ProcessTargets(env, st, a), b'), e);
    }
  }

  lemma ProcessTargetSets(env: Env, st: TickState, rb: Option<Handle>)
    requires Tidy(st)
    ensures var r := ProcessTarget(env, st, rb);
            Tidy(r) &&
            (forall h :: h in r.curr <==> h in st.curr || (rb == Some(h) && Admissible(env, h))) &&
            (forall h :: h in r.history <==> h in st.history && h !in r.curr)
  {
    if Admits(env, st, rb) {
      var h := rb.value;
      NoDupSnoc(st.curr, h);
      NoDupRemoveAll(st.history, h);
    }
  }

  /** ProcessSelectionMethod keeps the dictionaries tidy; a body is current
      afterwards exactly when it was current or it is a listed admissible
      body, and history loses exactly the bodies that became current. */
  lemma {:induction false} ProcessTargetsSets(env: Env, st: TickState, rbs: seq<Option<Handle>>)
    requires Tidy(st)
    ensures var r := ProcessTargets(env, st, rbs);
            Tidy(r) &&
            (forall h :: h in r.curr <==> h in st.curr || (Some(h) in rbs && Admissible(env, h))) &&
            (forall h :: h in r.history <==> h in st.history && h !in r.curr)
  {
    if |rbs| > 0 {
      var init := rbs[..|rbs| - 1];
      ProcessTargetsSets(env, st, init);
      ProcessTargetSets(env, ProcessTargets(env, st, init), rbs[|rbs| - 1]);
      assert rbs == init + [rbs[|rbs| - 1]];
    }
  }

  /** Current bodies are only ever appended to. */
  lemma {:induction false} ProcessTargetsExtends(env: Env, st: TickState, rbs: seq<Option<Handle>>)
    ensures var r := ProcessTargets(env, st, rbs);
            |st.curr| <= |r.curr| && r.curr[..|st.curr|] == st.curr
  {
    if |rbs| > 0 {
      var init := rbs[..|rbs| - 1];
      ProcessTargetsExtends(env, st, init);
      var mid := ProcessTargets(env, st, init);
      var r := ProcessTarget(env, mid, rbs[|rbs| - 1]);
      assert r.curr[..|mid.curr|] == mid.curr;
      assert r.curr[..|st.curr|] == r.curr[..|mid.curr|][..|st.curr|];
    }
  }

  // -- the events --

  /** The bodies pushed, in order. */
  function PushedBodies(es: seq<Event>): seq<Handle> {
    if |es| == 0 then []
    else PushedBodies(es[..|es| - 1]) + (if es[|es| - 1].Pushed? then [es[|es| - 1].target] else [])
  }

  lemma {:induction false} PushedBodiesAppend(a: seq<Event>, b: seq<Event>)
    ensures PushedBodies(a + b) == PushedBodies(a) + PushedBodies(b)
  {
    if |b| == 0 {
      assert a + b == a;
    } else {
      var b' := b[..|b| - 1];
      assert (a + b)[..|a + b| - 1] == a + b';
      PushedBodiesAppend(a, b');
    }
  }

  lemma PushedOnlyFirst(e: Event, tail: seq<Event>)
    requires forall x :: x in tail ==> !x.Pushed?
    ensures PushedBodies([e] + tail) == PushedBodies([e])
  {
    if |tail| > 0 {
      var t' := tail[..|tail| - 1];
      assert ([e] + tail)[..|tail|] == [e] + t';
      PushedOnlyFirst(e, t');
    } else {
      assert [e] + tail == [e];
    }
  }

  lemma PushedInArrival(env: Env, h: Handle, entered: bool)
    ensures PushedBodies(Arrival(env, h, entered)) == [h]
  {
    var a := Arrival(env, h, entered);
    var tail := a[1..];
    assert a == [a[0]] + tail;
    PushedOnlyFirst(a[0], tail);
    assert [a[0]][..0] == [];
  }

  /** Each body that becomes current is pushed once, in the order it
      became current, and no other body is pushed. */
  lemma {:induction false} PushedAreNewlyCurrent(env: Env, st: TickState, rbs: seq<Option<Handle>>)
    ensures var r := ProcessTargets(env, st, rbs);
            |st.curr| <= |r.curr| && PushedBodies(TargetsEvents(env, st, rbs)) == r.curr[|st.curr|..]
  {
    ProcessTargetsExtends(env, st, rbs);
    if |rbs| == 0 {
      assert st.curr[|st.curr|..] == [];
    } else {
      var init := rbs[..|rbs| - 1];
      var rb := rbs[|rbs| - 1];
      PushedAreNewlyCurrent(env, st, init);
      ProcessTargetsExtends(env, st, init);
      var mid := ProcessTargets(env, st, init);
      var r := ProcessTarget(env, mid, rb);
      PushedBodiesAppend(TargetsEvents(env, st, init), TargetEvents(env, mid, rb));
      if Admits(env, mid, rb) {
        PushedInArrival(env, rb.value, rb.value !in mid.history);
        assert r.curr[|st.curr|..] == mid.curr[|st.curr|..] + [rb.value];
      } else {
        assert PushedBodies([]) == [];
      }
    }
  }

  /** Every force applied is GetForce at that body, in ApplyForce's mode. */
  lemma {:induction false} ForcesAreFieldForces(env: Env, st: TickState, rbs: seq<Option<Handle>>)
    ensures forall h, f, m, c :: Pushed(h, f, m, c) in TargetsEvents(env, st, rbs) ==>
              f == ForceOn(env, h) && (m, c) == ApplyModeOf(env.settings)
  {
    if |rbs| > 0 {
      ForcesAreFieldForces(env, st, rbs[..|rbs| - 1]);
    }
  }

  /** The bodies sent a Stay message, in order. */
  function StayBodies(es: seq<Event>): seq<Handle> {
    if |es| == 0 then []
    else StayBodies(es[..|es| - 1]) + (if es[|es| - 1].Stay? then [es[|es| - 1].body] else [])
  }

  lemma {:induction false} StayBodiesAppend(a: seq<Event>, b: seq<Event>)
    ensures StayBodies(a + b) == StayBodies(a) + StayBodies(b)
  {
    if |b| == 0 {
      assert a + b == a;
    } else {
      var b' := b[..|b| - 1];
      assert (a + b)[..|a + b| - 1] == a + b';
      StayBodiesAppend(a, b');
    }
  }

  lemma StayInArrival(env: Env, h: Handle, entered: bool)
    ensures StayBodies(Arrival(env, h, entered)) == if env.settings.sendMessage then [h] else []
  {
    var a := Arrival(env, h, entered);
    var p := [a[0]];
    assert StayBodies(p) == [] by {
      assert p[..0] == [];
    }
    if env.settings.sendMessage {
      var ps := p + [Stay(h)];
      assert ps[..1] == p;
      assert StayBodies(ps) == [h];
      if entered {
        assert a == ps + [Enter(h)];
        assert a[..2] == ps;
      } else {
        assert a == ps;
      }
    } else {
      assert a == p;
    }
  }

  /** A Stay message goes to each body that becomes current, when messages
      are on, and to no other. */
  lemma {:induction false} StayOnceAdmitted(env: Env, st: TickState, rbs: seq<Option<Handle>>)
    requires Tidy(st)
    ensures var r := ProcessTargets(env, st, rbs);
            forall h :: Stay(h) in TargetsEvents(env, st, rbs) <==>
              env.settings.sendMessage && h in r.curr && h !in st.curr
  {
    ProcessTargetsSets(env, st, rbs);
    if |rbs| > 0 {
      var init := rbs[..|rbs| - 1];
      var rb := rbs[|rbs| - 1];
      StayOnceAdmitted(env, st, init);
      ProcessTargetsSets(env, st, init);
      var mid := ProcessTargets(env, st, init);
      ProcessTargetSets(env, mid, rb);
      StayInStep(env, mid, rb);
      var r := ProcessTargets(env, st, rbs);
      assert r == ProcessTarget(env, mid, rb);
      assert TargetsEvents(env, st, rbs) == TargetsEvents(env, st, init) + TargetEvents(env, mid, rb);
      forall h
        ensures Stay(h) in TargetsEvents(env, st, rbs) <==>
                env.settings.sendMessage && h in r.curr && h !in st.curr
      {
        if Admits(env, mid, rb) && rb == Some(h) {
          assert h !in mid.curr;
        }
      }
    }
  }

  /** When messages are on, each body that becomes current is sent Stay
      once, in the order it became current, and no other body is; with
      messages off, no Stay is sent. */
  lemma {:induction false} StaysAreNewlyCurrent(env: Env, st: TickState, rbs: seq<Option<Handle>>)
    ensures var r := ProcessTargets(env, st, rbs);
            |st.curr| <= |r.curr| &&
            StayBodies(TargetsEvents(env, st, rbs)) == if env.settings.sendMessage then r.curr[|st.curr|..] else []
  {
    ProcessTargetsExtends(env, st, rbs);
    if |rbs| == 0 {
      assert st.curr[|st.curr|..] == [];
    } else {
      var init := rbs[..|rbs| - 1];
      var rb := rbs[|rbs| - 1];
      StaysAreNewlyCurrent(env, st, init);
      ProcessTargetsExtends(env, st, init);
      var mid := ProcessTargets(env, st, init);
      var r := ProcessTarget(env, mid, rb);
      StayBodiesAppend(TargetsEvents(env, st, init), TargetEvents(env, mid, rb));
      if Admits(env, mid, rb) {
        StayInArrival(env, rb.value, rb.value !in mid.history);
        assert r.curr[|st.curr|..] == mid.curr[|st.curr|..] + [rb.value];
      } else {
        assert StayBodies([]) == [];
      }
    }
  }

  /** The event at `j`, if a Stay, directly follows the push of its body,
      and, if an Enter, directly follows that body's Stay. */
  predicate FollowsPushAt(es: seq<Event>, j: nat)
    requires j < |es|
  {
    (es[j].Stay? ==> j > 0 && es[j - 1].Pushed? && es[j - 1].target == es[j].body) &&
    (es[j].Enter? ==> j > 0 && es[j - 1] == Stay(es[j].body))
  }

  predicate MessagesFollowPush(es: seq<Event>) {
    forall j :: 0 <= j < |es| ==> FollowsPushAt(es, j)
  }

  lemma MessagesFollowPushAppend(a: seq<Event>, b: seq<Event>)
    requires MessagesFollowPush(a) && MessagesFollowPush(b)
    ensures MessagesFollowPush(a + b)
  {
    var c := a + b;
    forall j | 0 <= j < |c| ensures FollowsPushAt(c, j) {
      if j >= |a| {
        var k := j - |a|;
        assert FollowsPushAt(b, k);
        assert c[j] == b[k];
        if k > 0 {
          assert c[j - 1] == b[k - 1];
        }
      } else {
        assert FollowsPushAt(a, j);
        assert c[j] == a[j];
        if j > 0 {
          assert c[j - 1] == a[j - 1];
        }
      }
    }
  }

  lemma {:induction false} TargetsMessagesFollowPush(env: Env, st: TickState, rbs: seq<Option<Handle>>)
    ensures MessagesFollowPush(TargetsEvents(env, st, rbs))
  {
    if |rbs| > 0 {
      var init := rbs[..|rbs| - 1];
      TargetsMessagesFollowPush(env, st, init);
      MessagesFollowPushAppend(TargetsEvents(env, st, init), TargetEvents(env, ProcessTargets(env, st, init), rbs[|rbs| - 1]));
    }
  }

  lemma StayInStep(env: Env, st: TickState, rb: Option<Handle>)
    ensures forall h :: Stay(h) in TargetEvents(env, st, rb) <==>
              env.settings.sendMessage && Admits(env, st, rb) && rb == Some(h)
  {
    if Admits(env, st, rb) {
      var h := rb.value;
      var a := Arrival(env, h, h !in st.history);
      assert env.settings.sendMessage ==> a[1] == Stay(h);
    }
  }

  lemma EnterInStep(env: Env, st: TickState, rb: Option<Handle>)
    ensures forall h :: Enter(h) in TargetEvents(env, st, rb) <==>
              env.settings.sendMessage && Admits(env, st, rb) && rb == Some(h) && h !in st.history
  {
    if Admits(env, st, rb) {
      var h := rb.value;
      var a := Arrival(env, h, h !in st.history);
      assert env.settings.sendMessage ==> a[1] == Stay(h);
    }
  }

  /** An Enter message goes to each body that becomes current and was not
      in history, when messages are on, and to no other. */
  lemma {:induction false} EnterOnceNew(env: Env, st: TickState, rbs: seq<Option<Handle>>)
    requires Tidy(st)
    ensures var r := ProcessTargets(env, st, rbs);
            forall h :: Enter(h) in TargetsEvents(env, st, rbs) <==>
              env.settings.sendMessage && h in r.curr && h !in st.curr && h !in st.history
  {
    ProcessTargetsSets(env, st, rbs);
    if |rbs| > 0 {
      var init := rbs[..|rbs| - 1];
      var rb := rbs[|rbs| - 1];
      EnterOnceNew(env, st, init);
      ProcessTargetsSets(env, st, init);
      var mid := ProcessTargets(env, st, init);
      ProcessTargetSets(env, mid, rb);
      EnterInStep(env, mid, rb);
      var r := ProcessTargets(env, st, rbs);
      assert r == ProcessTarget(env, mid, rb);
      assert TargetsEvents(env, st, rbs) == TargetsEvents(env, st, init) + TargetEvents(env, mid, rb);
      forall h
        ensures Enter(h) in TargetsEvents(env, st, rbs) <==>
                env.settings.sendMessage && h in r.curr && h !in st.curr && h !in st.history
      {
        if Admits(env, mid, rb) && rb == Some(h) {
          assert h !in mid.curr;
          assert h in mid.history <==> h in st.history;
        }
      }
    }
  }

  /** ProcessSelectionMethod sends no Exit message. */
  lemma {:induction false} NoExitWhileProcessing(env: Env, st: TickState, rbs: seq<Option<Handle>>)
    ensures forall e :: e in TargetsEvents(env, st, rbs) ==> !e.Exit?
  {
    if |rbs| > 0 {
      NoExitWhileProcessing(env, st, rbs[..|rbs| - 1]);
    }
  }

  // ----- the selection method loop -----

  /** The outcome of the selection method loop. */
  datatype Run = Run(sms: seq<SelectionMethod>, st: TickState, events: seq<Event>, fault: Option<Fault>)

  /** `sms` from position `i` on: each enabled method has its list processed
      and is then refreshed; a refresh that throws stops the loop. */
  function RunMethods(env: Env, sms: seq<SelectionMethod>, st: TickState, i: nat): Run
    requires i <= |sms|
    decreases |sms| - i
  {
    if i == |sms| then Run(sms, st, [], None)
    else if !sms[i].enabled then RunMethods(env, sms, st, i + 1)
    else
      var st' := ProcessTargets(env, st, sms[i].targetsList);
      var es := TargetsEvents(env, st, sms[i].targetsList);
      var (sm', fault) := Refresh(sms[i], IgnoredSet(env), env.world.answerFor(i));
      if fault.Some? then Run(sms[i := sm'], st', es, fault)
      else
        var rest := RunMethods(env, sms[i := sm'], st', i + 1);
        rest.(events := es + rest.events)
  }

  /** The target lists of the enabled methods, concatenated in order. */
  function EnabledTargets(sms: seq<SelectionMethod>): (r: seq<Option<Handle>>)
    ensures forall rb :: rb in r ==> exists k :: 0 <= k < |sms| && sms[k].enabled && rb in sms[k].targetsList
  {
    if |sms| == 0 then []
    else (if sms[0].enabled then sms[0].targetsList else []) + EnabledTargets(sms[1..])
  }

  lemma {:induction false} EnabledTargetsHas(sms: seq<SelectionMethod>, k: nat, rb: Option<Handle>)
    requires k < |sms| && sms[k].enabled && rb in sms[k].targetsList
    ensures rb in EnabledTargets(sms)
  {
    if k > 0 {
      EnabledTargetsHas(sms[1..], k - 1, rb);
    }
  }

  /** A loop that does not throw processes the enabled methods' lists as one
      concatenated list; it refreshes the enabled methods and leaves the
      disabled ones alone. */
  lemma {:induction false} RunIsOneList(env: Env, sms: seq<SelectionMethod>, st: TickState, i: nat)
    requires i <= |sms|
    requires RunMethods(env, sms, st, i).fault.None?
    ensures var run := RunMethods(env, sms, st, i);
            run.st == ProcessTargets(env, st, EnabledTargets(sms[i..])) &&
            run.events == TargetsEvents(env, st, EnabledTargets(sms[i..])) &&
            |run.sms| == |sms| &&
            (forall k :: 0 <= k < |sms| && (k < i || !sms[k].enabled) ==> run.sms[k] == sms[k]) &&
            (forall k :: i <= k < |sms| && sms[k].enabled ==>
               run.sms[k] == Refresh(sms[k], IgnoredSet(env), env.world.answerFor(k)).0)
    decreases |sms| - i
  {
    if i == |sms| {
      assert sms[i..] == [];
    } else {
      assert sms[i..] == [sms[i]] + sms[i + 1..];
      if !sms[i].enabled {
        RunIsOneList(env, sms, st, i + 1);
        assert EnabledTargets(sms[i..]) == EnabledTargets(sms[i + 1..]) by {
          assert sms[i..][1..] == sms[i + 1..];
        }
      } else {
        var st' := ProcessTargets(env, st, sms[i].targetsList);
        var sm' := Refresh(sms[i], IgnoredSet(env), env.world.answerFor(i)).0;
        var sms' := sms[i := sm'];
        RunIsOneList(env, sms', st', i + 1);
        assert sms'[i + 1..] == sms[i + 1..];
        assert EnabledTargets(sms[i..]) == sms[i].targetsList + EnabledTargets(sms[i + 1..]) by {
          assert sms[i..][1..] == sms[i + 1..];
        }
        ProcessTargetsAppend(env, st, sms[i].targetsList, EnabledTargets(sms[i + 1..]));
        TargetsEventsAppend(env, st, sms[i].targetsList, EnabledTargets(sms[i + 1..]));
      }
    }
  }

  // ----- the end of a tick -----

  /** The exit messages for the bodies left in history, in its order. */
  function ExitEvents(send: bool, history: seq<Handle>): (r: seq<Event>)
    ensures forall e :: e in r <==> send && e.Exit? && e.body in history
  {
    if !send || |history| == 0 then []
    else ExitEvents(send, history[..|history| - 1]) + [Exit(history[|history| - 1])]
  }

  lemma {:induction false} NoExitPushed(send: bool, history: seq<Handle>)
    ensures PushedBodies(ExitEvents(send, history)) == []
  {
    if send && |history| > 0 {
      var init := history[..|history| - 1];
      NoExitPushed(send, init);
      PushedBodiesAppend(ExitEvents(send, init), [Exit(history[|history| - 1])]);
      assert [Exit(history[|history| - 1])][..0] == [];
    }
  }

  lemma {:induction false} NoExitStays(send: bool, history: seq<Handle>)
    ensures StayBodies(ExitEvents(send, history)) == []
  {
    if send && |history| > 0 {
      var init := history[..|history| - 1];
      NoExitStays(send, init);
      StayBodiesAppend(ExitEvents(send, init), [Exit(history[|history| - 1])]);
      assert [Exit(history[|history| - 1])][..0] == [];
    }
  }

  /** After UpdateBufferPointer: the history is the previous tick's
      targets and the current dictionary is empty. */
  function TickStart(prev: seq<Handle>): TickState {
    TickState([], prev)
  }

  /** Everything a tick whose loop does not throw applies and sends. */
  function TickEvents(env: Env, sms: seq<SelectionMethod>, prev: seq<Handle>): seq<Event>
    requires RunMethods(env, sms, TickStart(prev), 0).fault.None?
  {
    var run := RunMethods(env, sms, TickStart(prev), 0);
    run.events + ExitEvents(env.settings.sendMessage, run.st.history)
  }

  /** The bodies a tick selects: the admissible bodies listed by the enabled
      methods, each once, each pushed once and in that order. */
  lemma TickSelectsUnion(env: Env, sms: seq<SelectionMethod>, prev: seq<Handle>)
    requires NoDup(prev)
    requires RunMethods(env, sms, TickStart(prev), 0).fault.None?
    ensures var run := RunMethods(env, sms, TickStart(prev), 0);
            NoDup(run.st.curr) &&
            PushedBodies(TickEvents(env, sms, prev)) == run.st.curr &&
            StayBodies(TickEvents(env, sms, prev)) == (if env.settings.sendMessage then run.st.curr else []) &&
            forall h :: h in run.st.curr <==>
              Admissible(env, h) && exists k :: 0 <= k < |sms| && sms[k].enabled && Some(h) in sms[k].targetsList
  {
    var st0 := TickStart(prev);
    assert Tidy(st0) by {
      assert NoDup([]);
    }
    RunIsOneList(env, sms, st0, 0);
    assert sms[0..] == sms;
    var all := EnabledTargets(sms);
    ProcessTargetsSets(env, st0, all);
    PushedAreNewlyCurrent(env, st0, all);
    var run := RunMethods(env, sms, st0, 0);
    assert run.st.curr[0..] == run.st.curr;
    PushedBodiesAppend(run.events, ExitEvents(env.settings.sendMessage, run.st.history));
    NoExitPushed(env.settings.sendMessage, run.st.history);
    StaysAreNewlyCurrent(env, st0, all);
    StayBodiesAppend(run.events, ExitEvents(env.settings.sendMessage, run.st.history));
    NoExitStays(env.settings.sendMessage, run.st.history);
    forall h | Admissible(env, h) && exists k :: 0 <= k < |sms| && sms[k].enabled && Some(h) in sms[k].targetsList
      ensures h in run.st.curr
    {
      var k :| 0 <= k < |sms| && sms[k].enabled && Some(h) in sms[k].targetsList;
      EnabledTargetsHas(sms, k, Some(h));
    }
  }

  /** A tick's messages: Enter exactly to the bodies that are current now
      and were not in the previous tick, Exit exactly to those that were
      current then and are not now, each only with sendMessage on. */
  lemma TickEntersAndExits(env: Env, sms: seq<SelectionMethod>, prev: seq<Handle>)
    requires NoDup(prev)
    requires RunMethods(env, sms, TickStart(prev), 0).fault.None?
    ensures var run := RunMethods(env, sms, TickStart(prev), 0);
            var events := TickEvents(env, sms, prev);
            (forall h :: Enter(h) in events <==> env.settings.sendMessage && h in run.st.curr && h !in prev) &&
            (forall h :: Exit(h) in events <==> env.settings.sendMessage && h in prev && h !in run.st.curr)
  {
    var st0 := TickStart(prev);
    assert Tidy(st0) by {
      assert NoDup([]);
    }
    RunIsOneList(env, sms, st0, 0);
    assert sms[0..] == sms;
    var all := EnabledTargets(sms);
    ProcessTargetsSets(env, st0, all);
    EnterOnceNew(env, st0, all);
    NoExitWhileProcessing(env, st0, all);
  }

  /** Within a tick, a body's Stay message comes right after its push and
      its Enter message right after its Stay; the Exit messages come after
      every other event. */
  lemma TickMessagesInOrder(env: Env, sms: seq<SelectionMethod>, prev: seq<Handle>)
    requires NoDup(prev)
    requires RunMethods(env, sms, TickStart(prev), 0).fault.None?
    ensures var run := RunMethods(env, sms, TickStart(prev), 0);
            var events := TickEvents(env, sms, prev);
            MessagesFollowPush(events) &&
            forall j :: 0 <= j < |events| ==> (events[j].Exit? <==> j >= |run.events|)
  {
    var st0 := TickStart(prev);
    assert Tidy(st0) by {
      assert NoDup([]);
    }
    RunIsOneList(env, sms, st0, 0);
    assert sms[0..] == sms;
    var all := EnabledTargets(sms);
    var run := RunMethods(env, sms, st0, 0);
    var exits := ExitEvents(env.settings.sendMessage, run.st.history);
    TargetsMessagesFollowPush(env, st0, all);
    NoExitWhileProcessing(env, st0, all);
    assert MessagesFollowPush(exits) by {
      forall j | 0 <= j < |exits| ensures FollowsPushAt(exits, j) {
        assert exits[j] in exits;
      }
    }
    MessagesFollowPushAppend(run.events, exits);
    var events := run.events + exits;
    forall j | 0 <= j < |events| ensures events[j].Exit? <==> j >= |run.events| {
      if j < |run.events| {
        assert events[j] == run.events[j] && run.events[j] in run.events;
      } else {
        assert events[j] == exits[j - |run.events|];
        assert exits[j - |run.events|] in exits;
      }
    }
  }
}
