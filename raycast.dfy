/** RaycastOption.GetRaycastResult of both engines: the early-return
    guards, the choice between ray/sphere casts and overlap queries, and the
    post-processing of cast hits (null and ignored bodies dropped, then
    either hit order or the nearest `numberLimit` by squared distance). */
module Raycasts {
  import opened Basics
  import opened Wrappers
  import opened Scene
  import opened Sorting

  /** The union of both engines' ERayCastMode. */
  datatype RayCastMode = RayCast | SphereCast | OverLapSphere | OverLapPoint | OverLapCircle | OverLapArea

  /** The 2D engine offers RayCast and the three Physics2D overlaps; the 3D
      engine RayCast, SphereCast and OverLapSphere. */
  predicate Offers(dim: Dim, m: RayCastMode) {
    match dim
    case D2 => m in {RayCast, OverLapPoint, OverLapCircle, OverLapArea}
    case D3 => m in {RayCast, SphereCast, OverLapSphere}
  }

  /** The settings GetRaycastResult reads. `anchorPresent` is whether the
      anchor transform is non-null; radius, centre, corners and depths only
      shape the physics query, whose answer is an input. */
  datatype RaycastOption = RaycastOption(
    useAnchor: bool,
    anchorPresent: bool,
    useLocalDirection: bool,
    direction: Vec,
    raycastType: RayCastMode,
    numberLimit: Int32,
    distance: real)

  /** A non-null, non-ignored hit. */
  datatype Candidate = Candidate(body: Handle, sqrDist: real)

  function DistOf(c: Candidate): real { c.sqrDist }

  /** The modes that cast and then post-process hits. */
  predicate Casts(m: RayCastMode) {
    m == RayCast || m == SphereCast
  }

  /** The guards that return an empty result before any query: a missing
      anchor; for the casts without an anchor, a zero distance or a
      direction that Unity's `==` finds equal to the zero vector. The 2D
      OverLapArea has no guard at all. */
  predicate Blocked(opt: RaycastOption) {
    match opt.raycastType
    case RayCast | SphereCast =>
      if opt.useAnchor then !opt.anchorPresent else opt.distance == 0.0 || ApproxEqual(opt.direction, Zero)
    case OverLapSphere | OverLapPoint | OverLapCircle => opt.useAnchor && !opt.anchorPresent
    case OverLapArea => false
  }

  /** The zero-direction guard is Unity's tolerant `==`: a direction of
      length 1e-6 returns no targets, a unit direction casts. */
  lemma DirectionGuardTolerance(opt: RaycastOption)
    requires Casts(opt.raycastType) && !opt.useAnchor && opt.distance != 0.0
    ensures Blocked(opt.(direction := Vec(0.000001, 0.0, 0.0)))
    ensures !Blocked(opt.(direction := Vec(1.0, 0.0, 0.0)))
    ensures !Blocked(opt.(direction := Vec(0.0, 0.0, -1.0)))
  {
  }

  /** The hits with a body that is not ignored, in hit order. */
  function Candidates(hits: seq<Hit>, ignored: set<Handle>): (r: seq<Candidate>)
    ensures |r| <= |hits|
  {
    if |hits| == 0 then []
    else Candidates(hits[..|hits| - 1], ignored) + CandidateOf(hits[|hits| - 1], ignored)
  }

  /** A candidate is exactly a hit with a body that is not ignored. */
  lemma {:induction false} CandidatesMembers(hits: seq<Hit>, ignored: set<Handle>)
    ensures forall b, d :: Candidate(b, d) in Candidates(hits, ignored) <==> Hit(Some(b), d) in hits && b !in ignored
  {
    if |hits| > 0 {
      var init := hits[..|hits| - 1];
      CandidatesMembers(init, ignored);
      assert hits == init + [hits[|hits| - 1]];
    }
  }

  lemma CandidatesSnoc(hits: seq<Hit>, i: nat, ignored: set<Handle>)
    requires i < |hits|
    ensures Candidates(hits[..i + 1], ignored) == Candidates(hits[..i], ignored) + CandidateOf(hits[i], ignored)
  {
    assert hits[..i + 1][..i] == hits[..i];
  }

  function CandidateOf(h: Hit, ignored: set<Handle>): seq<Candidate> {
    match h.body
    case Some(b) => if b !in ignored then [Candidate(b, h.sqrDist)] else []
    case None => []
  }

  function Bodies(cs: seq<Candidate>): (r: seq<Handle>)
    ensures |r| == |cs|
    ensures forall i :: 0 <= i < |cs| ==> r[i] == cs[i].body
  {
    if |cs| == 0 then [] else [cs[0].body] + Bodies(cs[1..])
  }

  /** The attached bodies of the overlapping colliders, nulls dropped. */
  function Attached(overlap: seq<Option<Handle>>): (r: seq<Handle>)
    ensures |r| <= |overlap|
    ensures forall b :: b in r <==> Some(b) in overlap
  {
    if |overlap| == 0 then []
    else
      var init := overlap[..|overlap| - 1];
      assert overlap == init + [overlap[|overlap| - 1]];
      Attached(init) + (match overlap[|overlap| - 1] case Some(b) => [b] case None => [])
  }

  /** The candidates' squared distances, in order. */
  function Distances(cs: seq<Candidate>): (r: seq<real>)
    ensures |r| == |cs|
  {
    if |cs| == 0 then [] else Distances(cs[..|cs| - 1]) + [cs[|cs| - 1].sqrDist]
  }

  /** No squared distance occurs twice: each Dictionary.Add meets a new key. */
  predicate DistinctDistances(cs: seq<Candidate>) {
    |cs| == 0 ||
    (DistinctDistances(cs[..|cs| - 1]) && cs[|cs| - 1].sqrDist !in Distances(cs[..|cs| - 1]))
  }

  /** The `k` nearest candidates, nearest first. */
  function Nearest(cs: seq<Candidate>, k: nat): seq<Candidate> {
    var sorted := SortBy(cs, DistOf);
    sorted[..if |sorted| < k then |sorted| else k]
  }

  /** What the cast branch returns for the hits: with a negative limit the
      candidates' bodies in hit order; otherwise the bodies of the nearest
      `numberLimit`, or the exception Dictionary.Add throws when two
      candidates lie at the same squared distance. */
  function PostProcess(hits: seq<Hit>, ignored: set<Handle>, limit: Int32): Result<seq<Handle>, Fault> {
    var cs := Candidates(hits, ignored);
    if limit < 0 then Success(Bodies(cs))
    else if !DistinctDistances(cs) then Failure(DuplicateDistance)
    else Success(Bodies(Nearest(cs, limit)))
  }

  /** GetRaycastResult. Only the nearest-target branch can throw; a guard
      that trips returns the empty array. */
  function RaycastResult(opt: RaycastOption, ignored: set<Handle>, answer: QueryAnswer): (r: Result<seq<Handle>, Fault>)
    ensures Blocked(opt) ==> r == Success([])
    ensures r.Failure? ==> Casts(opt.raycastType) && opt.numberLimit >= 0 && r.error == DuplicateDistance
  {
    if Blocked(opt) then Success([])
    else if Casts(opt.raycastType) then PostProcess(answer.hits, ignored, opt.numberLimit)
    else Success(Attached(answer.overlap))
  }

  // ----- the dictionary GetRaycastResult builds -----

  /** The Dictionary<float, body> after adding every candidate in order. */
  function DistanceMap(cs: seq<Candidate>): map<real, Handle> {
    if |cs| == 0 then map[]
    else DistanceMap(cs[..|cs| - 1])[cs[|cs| - 1].sqrDist := cs[|cs| - 1].body]
  }

  lemma DistancesSnoc(cs: seq<Candidate>, c: Candidate)
    ensures Distances(cs + [c]) == Distances(cs) + [c.sqrDist]
  {
    assert (cs + [c])[..|cs|] == cs;
  }

  lemma DistanceMapSnoc(cs: seq<Candidate>, c: Candidate)
    ensures DistanceMap(cs + [c]) == DistanceMap(cs)[c.sqrDist := c.body]
  {
    assert (cs + [c])[..|cs|] == cs;
  }

  lemma DistinctSnoc(cs: seq<Candidate>, c: Candidate)
    ensures DistinctDistances(cs + [c]) <==> DistinctDistances(cs) && c.sqrDist !in Distances(cs)
  {
    assert (cs + [c])[..|cs|] == cs;
  }

  lemma {:induction false} DistancesMembers(cs: seq<Candidate>)
    ensures forall d :: d in Distances(cs) <==> exists c :: c in cs && c.sqrDist == d
  {
    if |cs| > 0 {
      var init := cs[..|cs| - 1];
      DistancesMembers(init);
      assert cs == init + [cs[|cs| - 1]];
    }
  }

  /** The map's keys are the candidates' distances. */
  lemma {:induction false} DistanceMapKeys(cs: seq<Candidate>)
    ensures forall d :: d in DistanceMap(cs) <==> d in Distances(cs)
  {
    if |cs| > 0 {
      DistanceMapKeys(cs[..|cs| - 1]);
    }
  }

  /** With distinct distances nothing is overwritten: every candidate is
      found under its own distance. */
  lemma {:induction false} DistanceMapFinds(cs: seq<Candidate>, c: Candidate)
    requires DistinctDistances(cs) && c in cs
    ensures c.sqrDist in DistanceMap(cs) && DistanceMap(cs)[c.sqrDist] == c.body
  {
    var n := |cs|;
    var last := cs[n - 1];
    var init := cs[..n - 1];
    assert cs == init + [last];
    if c != last {
      assert c in init;
      DistanceMapFinds(init, c);
      DistancesMembers(init);
      assert c.sqrDist in Distances(init);
    }
  }

  /** With distinct distances the map holds exactly one key per candidate. */
  lemma {:induction false} DistanceMapKeyCount(cs: seq<Candidate>)
    requires DistinctDistances(cs)
    ensures multiset(Distances(cs)) == multiset(DistanceMap(cs).Keys)
  {
    if |cs| > 0 {
      var n := |cs|;
      var init := cs[..n - 1];
      var d := cs[n - 1].sqrDist;
      var before := DistanceMap(init).Keys;
      assert d !in before by {
        DistanceMapKeys(init);
      }
      calc {
        multiset(Distances(cs));
        multiset(Distances(init)) + multiset{d};
        { DistanceMapKeyCount(init); }
        multiset(before) + multiset{d};
        { assert before !! {d}; }
        multiset(before + {d});
        { assert DistanceMap(cs).Keys == before + {d}; }
        multiset(DistanceMap(cs).Keys);
      }
    }
  }

  lemma {:induction false} DistancesAreKeys(cs: seq<Candidate>)
    ensures Distances(cs) == Keys(cs, DistOf)
  {
    if |cs| > 0 {
      DistancesAreKeys(cs[..|cs| - 1]);
    }
  }

  lemma {:induction false} CandidatesAppend(a: seq<Hit>, b: seq<Hit>, ignored: set<Handle>)
    ensures Candidates(a + b, ignored) == Candidates(a, ignored) + Candidates(b, ignored)
    decreases |b|
  {
    if |b| == 0 {
      assert a + b == a;
    } else {
      var b' := b[..|b| - 1];
      assert a + b == (a + b') + [b[|b| - 1]];
      assert (a + b)[..|a + b| - 1] == a + b';
      CandidatesAppend(a, b', ignored);
    }
  }

  /** Distinct distances stay distinct in every prefix. */
  lemma {:induction false} DistinctPrefix(cs: seq<Candidate>, n: nat)
    requires DistinctDistances(cs) && n <= |cs|
    ensures DistinctDistances(cs[..n])
    decreases |cs|
  {
    if n < |cs| {
      var init := cs[..|cs| - 1];
      DistinctPrefix(init, n);
      assert init[..n] == cs[..n];
    } else {
      assert cs[..n] == cs;
    }
  }

  /** A repeated distance in the candidates of a prefix repeats in the
      candidates of the whole list. */
  lemma PrefixDuplicate(hits: seq<Hit>, n: nat, ignored: set<Handle>)
    requires n <= |hits|
    requires !DistinctDistances(Candidates(hits[..n], ignored))
    ensures !DistinctDistances(Candidates(hits, ignored))
  {
    var pre := Candidates(hits[..n], ignored);
    assert hits == hits[..n] + hits[n..];
    CandidatesAppend(hits[..n], hits[n..], ignored);
    assert Candidates(hits, ignored)[..|pre|] == pre;
    if DistinctDistances(Candidates(hits, ignored)) {
      DistinctPrefix(Candidates(hits, ignored), |pre|);
    }
  }

  /** Sorting the map's keys gives the candidates' distances, nearest first. */
  lemma SortedKeys(cs: seq<Candidate>, dis: seq<real>)
    requires Ascending(dis) && multiset(dis) == multiset(Distances(cs))
    ensures dis == Keys(SortBy(cs, DistOf), DistOf)
  {
    DistancesAreKeys(cs);
    KeysOfSort(cs, DistOf);
    AscendingUnique(dis, SortBy(Keys(cs, DistOf), Id));
  }

  /** Looking the sorted keys up in the map gives the nearest bodies. */
  lemma LookUpSorted(cs: seq<Candidate>, dis: seq<real>, k: nat)
    requires DistinctDistances(cs)
    requires Ascending(dis) && multiset(dis) == multiset(Distances(cs))
    ensures |dis| == |cs|
    ensures var num := if |dis| < k then |dis| else k;
      |Bodies(Nearest(cs, k))| == num &&
      forall j :: 0 <= j < num ==> dis[j] in DistanceMap(cs) && Bodies(Nearest(cs, k))[j] == DistanceMap(cs)[dis[j]]
  {
    var sorted := SortBy(cs, DistOf);
    SortedKeys(cs, dis);
    assert |sorted| == |cs| by {
      assert |sorted| == |multiset(sorted)| == |multiset(cs)| == |cs|;
    }
    forall j | 0 <= j < |dis| ensures dis[j] in DistanceMap(cs) && DistanceMap(cs)[dis[j]] == sorted[j].body {
      assert sorted[j] in multiset(cs);
      DistanceMapFinds(cs, sorted[j]);
    }
  }

  /** A candidate whose distance is already a key makes Add throw, and
      the candidates of the whole list repeat a distance. */
  lemma RepeatFails(hits: seq<Hit>, i: nat, ignored: set<Handle>)
    requires i < |hits| && hits[i].body.Some? && hits[i].body.value !in ignored
    requires hits[i].sqrDist in DistanceMap(Candidates(hits[..i], ignored))
    ensures !DistinctDistances(Candidates(hits, ignored))
  {
    var before := Candidates(hits[..i], ignored);
    var c := Candidate(hits[i].body.value, hits[i].sqrDist);
    CandidatesSnoc(hits, i, ignored);
    assert Candidates(hits[..i + 1], ignored) == before + [c];
    DistanceMapKeys(before);
    DistinctSnoc(before, c);
    PrefixDuplicate(hits, i + 1, ignored);
  }

  /** A hit without a body, or on an ignored body, is no candidate. */
  lemma SkipHit(hits: seq<Hit>, i: nat, ignored: set<Handle>)
    requires i < |hits| && (hits[i].body.None? || hits[i].body.value in ignored)
    ensures Candidates(hits[..i + 1], ignored) == Candidates(hits[..i], ignored)
  {
    CandidatesSnoc(hits, i, ignored);
    assert Candidates(hits[..i], ignored) + [] == Candidates(hits[..i], ignored);
  }

  /** A candidate at a fresh distance extends the map, the key order and
      the distinctness of the prefix. */
  lemma AddCandidate(hits: seq<Hit>, i: nat, ignored: set<Handle>)
    requires i < |hits| && hits[i].body.Some? && hits[i].body.value !in ignored
    requires DistinctDistances(Candidates(hits[..i], ignored))
    requires hits[i].sqrDist !in DistanceMap(Candidates(hits[..i], ignored))
    ensures DistinctDistances(Candidates(hits[..i + 1], ignored))
    ensures DistanceMap(Candidates(hits[..i + 1], ignored))
         == DistanceMap(Candidates(hits[..i], ignored))[hits[i].sqrDist := hits[i].body.value]
    ensures Distances(Candidates(hits[..i + 1], ignored))
         == Distances(Candidates(hits[..i], ignored)) + [hits[i].sqrDist]
  {
    var before := Candidates(hits[..i], ignored);
    var c := Candidate(hits[i].body.value, hits[i].sqrDist);
    CandidatesSnoc(hits, i, ignored);
    assert Candidates(hits[..i + 1], ignored) == before + [c];
    DistanceMapKeys(before);
    DistinctSnoc(before, c);
    DistanceMapSnoc(before, c);
    DistancesSnoc(before, c);
  }

  // ----- what the selection promises -----

  lemma DistancesAt(cs: seq<Candidate>, i: nat)
    requires i < |cs|
    ensures Distances(cs)[i] == cs[i].sqrDist
    decreases |cs|
  {
    if i < |cs| - 1 {
      DistancesAt(cs[..|cs| - 1], i);
    }
  }

  /** Distinct distances differ pairwise. */
  lemma DistinctPairwise(cs: seq<Candidate>, i: nat, j: nat)
    requires DistinctDistances(cs) && i < j < |cs|
    ensures cs[i].sqrDist != cs[j].sqrDist
  {
    DistinctPrefix(cs, j + 1);
    var pre := cs[..j + 1];
    assert pre[..j] == cs[..j];
    DistancesAt(cs[..j], i);
  }

  /** k-nearest selection: `min(count, k)` candidates, nearest first, all
      of them candidates, and none farther than a candidate left out. */
  lemma NearestAreClosest(cs: seq<Candidate>, k: nat)
    ensures |Nearest(cs, k)| == (if |cs| < k then |cs| else k)
    ensures SortedBy(Nearest(cs, k), DistOf)
    ensures forall x :: x in Nearest(cs, k) ==> x in cs
    ensures forall x, y :: x in Nearest(cs, k) && y in cs && y !in Nearest(cs, k) ==> x.sqrDist <= y.sqrDist
  {
    var sorted := SortBy(cs, DistOf);
    assert |sorted| == |multiset(sorted)| == |multiset(cs)| == |cs|;
    var num := if |cs| < k then |cs| else k;
    var near := sorted[..num];
    forall x | x in near ensures x in cs {
      assert x in multiset(sorted);
    }
    forall i, j | 0 <= i < j < |near| ensures DistOf(near[i]) <= DistOf(near[j]) {
      assert near[i] == sorted[i] && near[j] == sorted[j];
    }
    forall x, y | x in near && y in cs && y !in near ensures x.sqrDist <= y.sqrDist {
      assert y in multiset(sorted);
      var q :| 0 <= q < |sorted| && sorted[q] == y;
      var p :| 0 <= p < num && near[p] == x;
      assert q >= num;
      assert DistOf(sorted[p]) <= DistOf(sorted[q]);
    }
  }

  /** One body hit twice at the same squared distance (two of its
      colliders on the ray) makes the nearest-target branch throw. */
  lemma SameBodyTwiceThrows(hits: seq<Hit>, ignored: set<Handle>, limit: Int32, i: nat, j: nat)
    requires i < j < |hits| && hits[i] == hits[j]
    requires hits[i].body.Some? && hits[i].body.value !in ignored
    requires limit >= 0
    ensures PostProcess(hits, ignored, limit) == Failure(DuplicateDistance)
  {
    var c := Candidate(hits[i].body.value, hits[i].sqrDist);
    var pre := Candidates(hits[..j], ignored);
    assert hits[i] in hits[..j];
    CandidatesMembers(hits[..j], ignored);
    assert c in pre;
    DistancesMembers(pre);
    CandidatesSnoc(hits, j, ignored);
    assert Candidates(hits[..j + 1], ignored) == pre + [c];
    DistinctSnoc(pre, c);
    PrefixDuplicate(hits, j + 1, ignored);
  }

  /** The overlap queries neither filter out ignored bodies nor apply
      numberLimit, and never throw. */
  lemma OverlapIgnoresFilterAndLimit(opt: RaycastOption, ignored: set<Handle>, ignored': set<Handle>, limit': Int32, answer: QueryAnswer)
    requires !Casts(opt.raycastType)
    ensures RaycastResult(opt, ignored, answer) == RaycastResult(opt.(numberLimit := limit'), ignored', answer)
    ensures RaycastResult(opt, ignored, answer).Success?
    ensures !Blocked(opt) ==> RaycastResult(opt, ignored, answer) == Success(Attached(answer.overlap))
  {
  }

  // ----- the loops of GetRaycastResult -----

  /** The `numberLimit < 0` loop: collect the candidates in hit order. */
  method CollectInHitOrder(hits: seq<Hit>, ignored: set<Handle>) returns (targets: seq<Handle>)
    ensures targets == Bodies(Candidates(hits, ignored))
  {
    targets := [];
    var i := 0;
    while i < |hits|
      invariant 0 <= i <= |hits|
      invariant targets == Bodies(Candidates(hits[..i], ignored))
    {
      var h := hits[i];
      CandidatesSnoc(hits, i, ignored);
      if h.body.Some? && h.body.value !in ignored {
        targets := targets + [h.body.value];
      }
      i := i + 1;
    }
    assert hits[..i] == hits;
  }

  /** The first loop of the `numberLimit >= 0` branch: add each
      candidate to a Dictionary keyed by squared distance; Add throws on a
      distance already present. `keys` is the dictionary's enumeration
      order, which for a Dictionary that has only been added to is the
      order of insertion. */
  method BuildDistanceMap(hits: seq<Hit>, ignored: set<Handle>) returns (r: Result<map<real, Handle>, Fault>, keys: seq<real>)
    ensures r.Success? <==> DistinctDistances(Candidates(hits, ignored))
    ensures r.Success? ==> r.value == DistanceMap(Candidates(hits, ignored))
    ensures r.Success? ==> keys == Distances(Candidates(hits, ignored))
    ensures r.Success? ==> multiset(keys) == multiset(r.value.Keys)
    ensures r.Failure? ==> r.error == DuplicateDistance
  {
    var dict: map<real, Handle> := map[];
    keys := [];
    ghost var cs: seq<Candidate> := [];
    var i := 0;
    while i < |hits|
      invariant 0 <= i <= |hits|
      invariant cs == Candidates(hits[..i], ignored)
      invariant DistinctDistances(cs) && dict == DistanceMap(cs) && keys == Distances(cs)
    {
      var h := hits[i];
      if h.body.Some? && h.body.value !in ignored {
        if h.sqrDist in dict {
          RepeatFails(hits, i, ignored);
          return Failure(DuplicateDistance), keys;
        }
        AddCandidate(hits, i, ignored);
        dict := dict[h.sqrDist := h.body.value];
        keys := keys + [h.sqrDist];
      } else {
        SkipHit(hits, i, ignored);
      }
      cs := Candidates(hits[..i + 1], ignored);
      i := i + 1;
    }
    assert hits[..i] == hits;
    DistanceMapKeyCount(cs);
    r := Success(dict);
  }

  /** The last loop: the bodies under the first `num` sorted keys. */
  method LookUp(dict: map<real, Handle>, dis: seq<real>, num: nat) returns (targets: seq<Handle>)
    requires num <= |dis|
    requires forall j :: 0 <= j < num ==> dis[j] in dict
    ensures |targets| == num
    ensures forall j :: 0 <= j < num ==> targets[j] == dict[dis[j]]
  {
    targets := [];
    var j := 0;
    while j < num
      invariant 0 <= j <= num
      invariant |targets| == j
      invariant forall m :: 0 <= m < j ==> targets[m] == dict[dis[m]]
    {
      targets := targets + [dict[dis[j]]];
      j := j + 1;
    }
  }

  /** Array.Sort on the float keys. */
  method SortAscending(a: seq<real>) returns (sorted: seq<real>)
    ensures Ascending(sorted) && multiset(sorted) == multiset(a)
  {
    sorted := SortBy(a, Id);
  }

  /** The `numberLimit >= 0` branch: build the distance map, copy out its
      keys in the dictionary's own order, sort them (Array.Sort), and look
      up the first `min(count, numberLimit)`. */
  method NearestByDistance(hits: seq<Hit>, ignored: set<Handle>, limit: Int32) returns (r: Result<seq<Handle>, Fault>)
    requires limit >= 0
    ensures r == PostProcess(hits, ignored, limit)
  {
    var built, dis := BuildDistanceMap(hits, ignored);
    if built.Failure? {
      return Failure(built.error);
    }
    var dict := built.value;
    ghost var cs := Candidates(hits, ignored);
    assert multiset(dis) == multiset(Distances(cs));
    dis := SortAscending(dis);
    ghost var nearest := Bodies(Nearest(cs, limit));
    LookUpSorted(cs, dis, limit);

    var num := if |dis| < limit then |dis| else limit;
    var targets := LookUp(dict, dis, num);
    assert targets == nearest;
    assert PostProcess(hits, ignored, limit) == Success(nearest);
    r := Success(targets);
  }

  /** GetRaycastResult, branch for branch. */
  method GetRaycastResult(opt: RaycastOption, ignored: set<Handle>, answer: QueryAnswer) returns (r: Result<seq<Handle>, Fault>)
    ensures r == RaycastResult(opt, ignored, answer)
  {
    if Blocked(opt) {
      return Success([]);
    }
    if Casts(opt.raycastType) {
      if opt.numberLimit < 0 {
        var targets := CollectInHitOrder(answer.hits, ignored);
        r := Success(targets);
      } else {
        r := NearestByDistance(answer.hits, ignored, opt.numberLimit);
      }
    } else {
      var rbList: seq<Handle> := [];
      var i := 0;
      while i < |answer.overlap|
        invariant 0 <= i <= |answer.overlap|
        invariant rbList == Attached(answer.overlap[..i])
      {
        assert answer.overlap[..i + 1][..i] == answer.overlap[..i];
        if answer.overlap[i].Some? {
          rbList := rbList + [answer.overlap[i].value];
        }
        i := i + 1;
      }
      assert answer.overlap[..i] == answer.overlap;
      r := Success(rbList);
    }
  }
}
