/** The worker registry: scores, score buckets and suspension tracking. */
module WorkerManager {
  import opened Basics

  datatype WorkerTier = Databot | Pipeline | Agentic

  function TierNumber(tier: WorkerTier): real {
    match tier
    case Databot => 0.0
    case Pipeline => 1.0
    case Agentic => 2.0
  }

  datatype WorkerInfo = WorkerInfo(
    id: int, available: bool, capacity: real, load: real, speed: int, energy: int,
    tier: WorkerTier, skills: real, compute: real, reasoning: int)

  datatype WeightProfile = WeightProfile(
    name: string, availability: real, capacity: real, load: real, speed: real, energy: real,
    tier: real, skills: real, compute: real, reasoning: real)

  const NO_PROFILE := WeightProfile("", 0.0, 0.0, 0.0, 0.0, 0.0, 0.0, 0.0, 0.0, 0.0)

  const NUM_BUCKETS := 5

  // ---------------------------------------------------------------------------
  // Scores and buckets
  // ---------------------------------------------------------------------------

  function ComputeScore(w: WorkerInfo, wp: WeightProfile): real {
    wp.availability * (if w.available then 1.0 else 0.0)
    + wp.capacity * w.capacity
    + wp.load * (1.0 - w.load)
    + wp.speed * (w.speed as real / 5.0)
    + wp.energy * (w.energy as real / 5.0)
    + wp.tier * (TierNumber(w.tier) / 2.0)
    + wp.skills * w.skills
    + wp.compute * w.compute
    + wp.reasoning * (w.reasoning as real / 5.0)
  }

  predicate InUnit(x: real) {
    0.0 <= x <= 1.0
  }

  /** The documented ranges of the worker variables. */
  predicate InRange(w: WorkerInfo) {
    && InUnit(w.capacity) && InUnit(w.load) && InUnit(w.skills) && InUnit(w.compute)
    && 1 <= w.speed <= 5 && 1 <= w.energy <= 5 && 0 <= w.reasoning <= 5
  }

  function TotalWeight(wp: WeightProfile): real {
    wp.availability + wp.capacity + wp.load + wp.speed + wp.energy + wp.tier + wp.skills + wp.compute + wp.reasoning
  }

  /** Non-negative weights that add up to at most one. */
  predicate IsConvex(wp: WeightProfile) {
    && 0.0 <= wp.availability && 0.0 <= wp.capacity && 0.0 <= wp.load && 0.0 <= wp.speed && 0.0 <= wp.energy
    && 0.0 <= wp.tier && 0.0 <= wp.skills && 0.0 <= wp.compute && 0.0 <= wp.reasoning
    && TotalWeight(wp) <= 1.0
  }

  lemma WeightedPart(weight: real, x: real)
    requires 0.0 <= weight && InUnit(x)
    ensures 0.0 <= weight * x <= weight
  {
  }

  ghost predicate Bounded(p: seq<real>, weights: seq<real>) {
    |p| == |weights| && forall i :: 0 <= i < |p| ==> 0.0 <= p[i] <= weights[i]
  }

  function Sum(p: seq<real>): real {
    if p == [] then 0.0 else Sum(p[..|p| - 1]) + p[|p| - 1]
  }

  lemma {:induction false} SumBounded(p: seq<real>, weights: seq<real>)
    requires Bounded(p, weights)
    ensures 0.0 <= Sum(p) <= Sum(weights)
  {
    if p != [] {
      SumBounded(p[..|p| - 1], weights[..|p| - 1]);
    }
  }

  function Weights(wp: WeightProfile): seq<real> {
    [wp.availability, wp.capacity, wp.load, wp.speed, wp.energy, wp.tier, wp.skills, wp.compute, wp.reasoning]
  }

  /** The normalised worker variables, in the order of the weights. */
  function Variables(w: WorkerInfo): seq<real> {
    [if w.available then 1.0 else 0.0, w.capacity, 1.0 - w.load, w.speed as real / 5.0, w.energy as real / 5.0,
     TierNumber(w.tier) / 2.0, w.skills, w.compute, w.reasoning as real / 5.0]
  }

  function Products(a: seq<real>, x: seq<real>): (p: seq<real>)
    requires |a| == |x|
    ensures |p| == |a| && forall i :: 0 <= i < |a| ==> p[i] == a[i] * x[i]
  {
    seq(|a|, i requires 0 <= i < |a| => a[i] * x[i])
  }

  lemma SumOfNine(p: seq<real>)
    requires |p| == 9
    ensures Sum(p) == p[0] + p[1] + p[2] + p[3] + p[4] + p[5] + p[6] + p[7] + p[8]
  {
    assert Sum(p) == Sum(p[..8]) + p[8];
    assert p[..8][..7] == p[..7] && Sum(p[..8]) == Sum(p[..7]) + p[7];
    assert p[..7][..6] == p[..6] && Sum(p[..7]) == Sum(p[..6]) + p[6];
    assert p[..6][..5] == p[..5] && Sum(p[..6]) == Sum(p[..5]) + p[5];
    assert p[..5][..4] == p[..4] && Sum(p[..5]) == Sum(p[..4]) + p[4];
    assert p[..4][..3] == p[..3] && Sum(p[..4]) == Sum(p[..3]) + p[3];
    assert p[..3][..2] == p[..2] && Sum(p[..3]) == Sum(p[..2]) + p[2];
    assert p[..2][..1] == p[..1] && Sum(p[..2]) == Sum(p[..1]) + p[1];
    assert p[..1][..0] == [] && Sum(p[..1]) == Sum([]) + p[0];
  }

  /** The score is the weighted sum of the normalised variables. */
  lemma ScoreIsSum(w: WorkerInfo, wp: WeightProfile)
    ensures ComputeScore(w, wp) == Sum(Products(Weights(wp), Variables(w)))
  {
    SumOfNine(Products(Weights(wp), Variables(w)));
  }

  lemma ProductsBounded(a: seq<real>, x: seq<real>)
    requires |a| == |x| && forall i :: 0 <= i < |a| ==> 0.0 <= a[i] && InUnit(x[i])
    ensures Bounded(Products(a, x), a)
  {
    var p := Products(a, x);
    forall i | 0 <= i < |a|
      ensures 0.0 <= p[i] <= a[i]
    {
      var weight, value := a[i], x[i];
      WeightedPart(weight, value);
      assert p[i] == weight * value;
    }
  }

  /** With a convex profile every score is in [0, 1]. */
  lemma ScoreInUnit(w: WorkerInfo, wp: WeightProfile)
    requires InRange(w) && IsConvex(wp)
    ensures InUnit(ComputeScore(w, wp))
  {
    ScoreIsSum(w, wp);
    ProductsBounded(Weights(wp), Variables(w));
    SumBounded(Products(Weights(wp), Variables(w)), Weights(wp));
    SumOfNine(Weights(wp));
  }

  /** Less capable tiers come first. */
  predicate TierBelow(a: WorkerTier, b: WorkerTier) {
    (a == Databot && b != Databot) || (a == Pipeline && b == Agentic)
  }

  /** Worker `v` is in nothing worse than `w`. */
  predicate AsGood(w: WorkerInfo, v: WorkerInfo) {
    && (w.available ==> v.available) && w.capacity <= v.capacity && v.load <= w.load
    && w.speed <= v.speed && w.energy <= v.energy && (w.tier == v.tier || TierBelow(w.tier, v.tier))
    && w.skills <= v.skills && w.compute <= v.compute && w.reasoning <= v.reasoning
  }

  /** Worker `v` is better than `w` in something that the profile rates. */
  predicate BetterSomewhere(w: WorkerInfo, v: WorkerInfo, wp: WeightProfile) {
    || (wp.availability > 0.0 && !w.available && v.available)
    || (wp.capacity > 0.0 && w.capacity < v.capacity)
    || (wp.load > 0.0 && v.load < w.load)
    || (wp.speed > 0.0 && w.speed < v.speed)
    || (wp.energy > 0.0 && w.energy < v.energy)
    || (wp.tier > 0.0 && TierBelow(w.tier, v.tier))
    || (wp.skills > 0.0 && w.skills < v.skills)
    || (wp.compute > 0.0 && w.compute < v.compute)
    || (wp.reasoning > 0.0 && w.reasoning < v.reasoning)
  }

  lemma ProductGrows(weight: real, x: real, y: real)
    requires weight >= 0.0 && x <= y
    ensures weight * x <= weight * y
    ensures weight > 0.0 && x < y ==> weight * x < weight * y
  {
  }

  lemma ProductsGrow(a: seq<real>, x: seq<real>, y: seq<real>, i: nat)
    requires |a| == |x| == |y| && i < |a| && a[i] >= 0.0 && x[i] <= y[i]
    ensures Products(a, x)[i] <= Products(a, y)[i]
    ensures a[i] > 0.0 && x[i] < y[i] ==> Products(a, x)[i] < Products(a, y)[i]
  {
    var weight, from, end := a[i], x[i], y[i];
    ProductGrows(weight, from, end);
    assert Products(a, x)[i] == weight * from && Products(a, y)[i] == weight * end;
  }

  lemma {:induction false} SumGrows(p: seq<real>, q: seq<real>)
    requires |p| == |q| && forall i :: 0 <= i < |p| ==> p[i] <= q[i]
    ensures Sum(p) <= Sum(q)
    ensures (exists i :: 0 <= i < |p| && p[i] < q[i]) ==> Sum(p) < Sum(q)
  {
    if p != [] {
      var k := |p| - 1;
      SumGrows(p[..k], q[..k]);
      if i :| 0 <= i < |p| && p[i] < q[i] {
        assert i < k ==> p[..k][i] < q[..k][i];
      }
    }
  }

  /** A worker that is in nothing worse scores no less, and more if it is better in
      something that the profile rates. */
  lemma ScoreMonotone(w: WorkerInfo, v: WorkerInfo, wp: WeightProfile)
    requires (forall i :: 0 <= i < 9 ==> Weights(wp)[i] >= 0.0) && AsGood(w, v)
    ensures ComputeScore(w, wp) <= ComputeScore(v, wp)
    ensures BetterSomewhere(w, v, wp) ==> ComputeScore(w, wp) < ComputeScore(v, wp)
  {
    var a, x, y := Weights(wp), Variables(w), Variables(v);
    ScoreIsSum(w, wp);
    ScoreIsSum(v, wp);
    forall i | 0 <= i < 9
      ensures Products(a, x)[i] <= Products(a, y)[i]
      ensures a[i] > 0.0 && x[i] < y[i] ==> Products(a, x)[i] < Products(a, y)[i]
    {
      VariablesGrow(w, v, i);
      ProductsGrow(a, x, y, i);
    }
    if BetterSomewhere(w, v, wp) {
      var i := RatedBetter(w, v, wp);
      assert Products(a, x)[i] < Products(a, y)[i];
    }
    SumGrows(Products(a, x), Products(a, y));
  }

  lemma VariablesGrow(w: WorkerInfo, v: WorkerInfo, i: nat)
    requires AsGood(w, v) && i < 9
    ensures Variables(w)[i] <= Variables(v)[i]
  {
  }

  lemma RatedBetter(w: WorkerInfo, v: WorkerInfo, wp: WeightProfile) returns (i: nat)
    requires BetterSomewhere(w, v, wp)
    ensures i < 9 && Weights(wp)[i] > 0.0 && Variables(w)[i] < Variables(v)[i]
  {
    if wp.availability > 0.0 && !w.available && v.available {
      i := 0;
    } else if wp.capacity > 0.0 && w.capacity < v.capacity {
      i := 1;
    } else if wp.load > 0.0 && v.load < w.load {
      i := 2;
    } else if wp.speed > 0.0 && w.speed < v.speed {
      i := 3;
    } else if wp.energy > 0.0 && w.energy < v.energy {
      i := 4;
    } else if wp.tier > 0.0 && TierBelow(w.tier, v.tier) {
      i := 5;
    } else if wp.skills > 0.0 && w.skills < v.skills {
      i := 6;
    } else if wp.compute > 0.0 && w.compute < v.compute {
      i := 7;
    } else {
      i := 8;
    }
  }

  const IDLE_DATABOT := WorkerInfo(0, false, 0.0, 1.0, 0, 0, Databot, 0.0, 0.0, 0)
  const PERFECT := WorkerInfo(0, true, 1.0, 0.0, 5, 5, Agentic, 1.0, 1.0, 5)

  /** The scale of the scores: nothing at all scores 0, the best of everything scores
      the sum of the weights, and each weight counts for its own variable. */
  lemma ScoreScale(wp: WeightProfile)
    ensures ComputeScore(IDLE_DATABOT, wp) == 0.0
    ensures ComputeScore(PERFECT, wp) == TotalWeight(wp)
    ensures ComputeScore(IDLE_DATABOT.(available := true), wp) == wp.availability
    ensures ComputeScore(IDLE_DATABOT.(capacity := 1.0), wp) == wp.capacity
    ensures ComputeScore(IDLE_DATABOT.(load := 0.0), wp) == wp.load
    ensures ComputeScore(IDLE_DATABOT.(speed := 5), wp) == wp.speed
    ensures ComputeScore(IDLE_DATABOT.(energy := 5), wp) == wp.energy
    ensures ComputeScore(IDLE_DATABOT.(tier := Pipeline), wp) == wp.tier / 2.0
    ensures ComputeScore(IDLE_DATABOT.(tier := Agentic), wp) == wp.tier
    ensures ComputeScore(IDLE_DATABOT.(skills := 1.0), wp) == wp.skills
    ensures ComputeScore(IDLE_DATABOT.(compute := 1.0), wp) == wp.compute
    ensures ComputeScore(IDLE_DATABOT.(reasoning := 5), wp) == wp.reasoning
  {
  }

  /** Conversion to an integer, which drops the fraction. */
  function Truncate(x: real): int {
    if x < 0.0 then -(-x).Floor else x.Floor
  }

  function BucketIndex(score: real): (b: nat)
    ensures b < NUM_BUCKETS
  {
    var idx := Truncate(score * 5.0);
    if idx < 0 then 0 else if idx > NUM_BUCKETS - 1 then NUM_BUCKETS - 1 else idx
  }

  /** For scores in [0, 1] there are five buckets of width 1/5, the last one closed. */
  lemma BucketRange(score: real, b: nat)
    requires InUnit(score) && b < NUM_BUCKETS
    ensures BucketIndex(score) == b <==>
      b as real / 5.0 <= score && (score < (b + 1) as real / 5.0 || b == NUM_BUCKETS - 1)
  {
  }

  /** For scores in [0, 1], a worker in the same or a higher bucket is at most one
      bucket width, 1/5, worse. */
  lemma BucketGap(higher: real, lower: real)
    requires InUnit(higher) && InUnit(lower) && BucketIndex(higher) >= BucketIndex(lower)
    ensures higher >= lower - 0.2
  {
  }

  // ---------------------------------------------------------------------------
  // The index
  // ---------------------------------------------------------------------------

  type Buckets = s: seq<set<int>> | |s| == NUM_BUCKETS witness [{}, {}, {}, {}, {}]

  /** Each scored worker is in the bucket of its score and in no other, and the
      buckets hold nobody else. */
  ghost predicate Indexed(buckets: Buckets, scores: map<int, real>) {
    forall b, id :: 0 <= b < NUM_BUCKETS ==> (id in buckets[b] <==> id in scores && BucketIndex(scores[id]) == b)
  }

  const EMPTY_BUCKETS: Buckets := [{}, {}, {}, {}, {}]

  lemma EmptyIndexed()
    ensures Indexed(EMPTY_BUCKETS, map[])
  {
  }

  /** Every worker's score is its current one under the profile. */
  ghost predicate Current(workers: map<int, WorkerInfo>, scores: map<int, real>, wp: WeightProfile) {
    && scores.Keys == workers.Keys
    && forall id :: id in workers ==> scores[id] == ComputeScore(workers[id], wp)
  }

  /** Higher buckets come first. */
  ghost predicate InBucketOrder(ids: seq<int>, scores: map<int, real>) {
    forall i, j | 0 <= i < j < |ids| :: ids[i] in scores && ids[j] in scores ==>
      BucketIndex(scores[ids[i]]) >= BucketIndex(scores[ids[j]])
  }

  /** `n` ids, or all if there are fewer, best bucket first: distinct, and none in
      a lower bucket than an id that was left out. */
  ghost predicate PickedBest(ids: seq<int>, n: int, scores: map<int, real>) {
    && Distinct(ids)
    && |ids| == (if n < 0 then 0 else if n < |scores| then n else |scores|)
    && (forall id :: id in ids ==> id in scores)
    && InBucketOrder(ids, scores)
    && (forall id, other :: id in ids && other in scores && other !in ids ==>
          BucketIndex(scores[id]) >= BucketIndex(scores[other]))
  }

  /** What that means for the scores themselves: with scores in [0, 1], a picked
      worker is at most 1/5 worse than one that was left out. */
  lemma PickedAlmostBest(ids: seq<int>, n: int, scores: map<int, real>, id: int, other: int)
    requires PickedBest(ids, n, scores)
    requires id in ids && other in scores && other !in ids
    requires InUnit(scores[id]) && InUnit(scores[other])
    ensures scores[id] >= scores[other] - 0.2
  {
    BucketGap(scores[id], scores[other]);
  }

  lemma {:induction false} DistinctSize(ids: seq<int>, all: set<int>)
    requires Distinct(ids) && forall id :: id in ids ==> id in all
    ensures |ids| <= |all|
    decreases |ids|
  {
    if ids != [] {
      var first := ids[0];
      assert first in ids && first in all;
      DistinctSize(ids[1..], all - {first});
    }
  }

  lemma {:induction false} AllPicked(ids: seq<int>, all: set<int>)
    requires Distinct(ids) && (forall id :: id in ids ==> id in all) && (forall id :: id in all ==> id in ids)
    ensures |ids| == |all|
    decreases |ids|
  {
    if ids == [] {
      if all != {} {
        var x := SomeMember(all);
        assert false;
      }
    } else {
      forall id | id in all - {ids[0]}
        ensures id in ids[1..]
      {
        var i :| 0 <= i < |ids| && ids[i] == id;
        assert ids[1..][i - 1] == id;
      }
      AllPicked(ids[1..], all - {ids[0]});
    }
  }

  /** While bucket `b` is being picked from: everything above it is picked, and
      of it everything but `rest`. */
  ghost predicate Picking(ids: seq<int>, scores: map<int, real>, b: nat, rest: set<int>) {
    && Distinct(ids)
    && (forall id :: id in ids ==> id in scores && BucketIndex(scores[id]) >= b && id !in rest)
    && InBucketOrder(ids, scores)
    && (forall id :: id in scores && BucketIndex(scores[id]) > b ==> id in ids)
    && (forall id :: id in scores && BucketIndex(scores[id]) == b ==> id in ids || id in rest)
  }

  lemma PickingDone(ids: seq<int>, n: int, scores: map<int, real>, b: nat, rest: set<int>)
    requires Picking(ids, scores, b, rest) && (n < 0 ==> ids == []) && (n >= 0 ==> |ids| <= n)
    requires (b == 0 && rest == {}) || |ids| >= n
    ensures PickedBest(ids, n, scores)
  {
    DistinctSize(ids, scores.Keys);
    if b == 0 && rest == {} {
      AllPicked(ids, scores.Keys);
    }
  }

  /** The workers with these keys. */
  ghost predicate Lists(result: seq<WorkerInfo>, ids: seq<int>, workers: map<int, WorkerInfo>) {
    |ids| == |result| && forall i :: 0 <= i < |ids| ==> ids[i] in workers && result[i] == workers[ids[i]]
  }

  lemma ListsAppend(
    result: seq<WorkerInfo>, ids: seq<int>, more: seq<WorkerInfo>, moreIds: seq<int>, workers: map<int, WorkerInfo>)
    requires Lists(result, ids, workers) && Lists(more, moreIds, workers)
    ensures Lists(result + more, ids + moreIds, workers)
  {
  }

  /** The result is `n` workers, or all if there are fewer, best buckets first. */
  ghost predicate PicksBest(result: seq<WorkerInfo>, workers: map<int, WorkerInfo>, n: int, scores: map<int, real>) {
    exists ids :: Lists(result, ids, workers) && PickedBest(ids, n, scores)
  }

  /** Picks up to `n` workers, highest bucket first. */
  method PickFrom(workers: map<int, WorkerInfo>, buckets: Buckets, n: int, ghost scores: map<int, real>)
    returns (result: seq<WorkerInfo>, ghost ids: seq<int>)
    requires Indexed(buckets, scores) && scores.Keys <= workers.Keys
    ensures Lists(result, ids, workers) && PickedBest(ids, n, scores)
    ensures PicksBest(result, workers, n, scores)
  {
    result, ids := [], [];
    var remaining := n;
    var b := NUM_BUCKETS;
    ghost var rest: set<int> := {};
    while b > 0 && remaining > 0
      invariant 0 <= b <= NUM_BUCKETS
      invariant Lists(result, ids, workers)
      invariant Picking(ids, scores, b, rest)
      invariant remaining == n - |ids| && (n >= 0 ==> remaining >= 0) && (n < 0 ==> ids == [])
      invariant remaining > 0 ==> rest == {}
      decreases b
    {
      b := b - 1;
      var more, moreIds, left := PickBucket(workers, buckets[b], remaining, ids, scores, b);
      ListsAppend(result, ids, more, moreIds, workers);
      result, ids, rest := result + more, ids + moreIds, left;
      remaining := remaining - |more|;
    }
    PickingDone(ids, n, scores, b, rest);
  }

  /** Picks up to `limit` workers of one bucket. */
  method PickBucket(
      workers: map<int, WorkerInfo>, bucket: set<int>, limit: int, ghost before: seq<int>,
      ghost scores: map<int, real>, ghost b: nat)
    returns (result: seq<WorkerInfo>, ghost ids: seq<int>, ghost left: set<int>)
    requires limit > 0 && Picking(before, scores, b + 1, {})
    requires forall id :: id in bucket <==> id in scores && BucketIndex(scores[id]) == b
    requires scores.Keys <= workers.Keys
    ensures Lists(result, ids, workers)
    ensures Picking(before + ids, scores, b, left)
    ensures |ids| <= limit && (|ids| < limit ==> left == {})
  {
    result, ids := [], [];
    var rest, remaining := bucket, limit;
    while rest != {} && remaining > 0
      invariant rest <= bucket && remaining == limit - |ids| >= 0
      invariant Lists(result, ids, workers)
      invariant Picking(before + ids, scores, b, rest)
      decreases |rest|
    {
      ghost var some := SomeMember(rest);
      var id :| id in rest;
      rest := rest - {id};
      if id in workers {
        result := result + [workers[id]];
        assert before + (ids + [id]) == (before + ids) + [id];
        ids := ids + [id];
        remaining := remaining - 1;
      }
    }
    left := rest;
  }

  class InMemoryWorkerManager {
    var workers: map<int, WorkerInfo>
    var scores: map<int, real>
    var buckets: Buckets
    var lastProfile: WeightProfile
    var nextElasticId: int
    var suspendedSince: map<int, int>

    /** The buckets always match the scores; once a named profile is set, the
        scores are the current ones of exactly the registered workers. */
    ghost predicate Valid()
      reads this
    {
      && Indexed(buckets, scores)
      && scores.Keys <= workers.Keys
      && (lastProfile.name != "" ==> Current(workers, scores, lastProfile))
      && suspendedSince.Keys <= workers.Keys
    }

    constructor ()
      ensures Valid() && workers == map[] && nextElasticId == 100 && lastProfile == NO_PROFILE
      ensures suspendedSince == map[]
    {
      workers, scores, buckets := map[], map[], EMPTY_BUCKETS;
      lastProfile, nextElasticId, suspendedSince := NO_PROFILE, 100, map[];
    }

    method PlaceInBucket(workerId: int, score: real)
      requires Indexed(buckets, scores) && workerId !in scores
      modifies this`scores, this`buckets
      ensures Indexed(buckets, scores) && scores == old(scores)[workerId := score]
    {
      scores := scores[workerId := score];
      var b := BucketIndex(score);
      buckets := buckets[b := buckets[b] + {workerId}];
    }

    method RemoveFromBuckets(workerId: int)
      requires Indexed(buckets, scores)
      modifies this`scores, this`buckets
      ensures Indexed(buckets, scores) && scores == old(scores) - {workerId}
    {
      if workerId in scores {
        var b := BucketIndex(scores[workerId]);
        buckets := buckets[b := buckets[b] - {workerId}];
        scores := scores - {workerId};
      }
    }

    method RegisterWorker(info: WorkerInfo)
      requires Valid()
      modifies this
      ensures Valid() && workers == old(workers)[info.id := info]
      ensures lastProfile == old(lastProfile) && nextElasticId == old(nextElasticId)
      ensures suspendedSince == old(suspendedSince)
    {
      workers := workers[info.id := info];
      if lastProfile.name != "" {
        RemoveFromBuckets(info.id);
        PlaceInBucket(info.id, ComputeScore(info, lastProfile));
      }
    }

    /** Updates a known worker and records when it became suspended. */
    method UpdateScore(workerId: int, info: WorkerInfo, now: int)
      requires Valid()
      modifies this
      ensures Valid()
      ensures lastProfile == old(lastProfile) && nextElasticId == old(nextElasticId)
      ensures workers == if workerId in old(workers) then old(workers)[workerId := info] else old(workers)
      ensures suspendedSince ==
        if workerId !in old(workers) || old(workers)[workerId].available == info.available then old(suspendedSince)
        else if info.available then old(suspendedSince) - {workerId}
        else old(suspendedSince)[workerId := now]
    {
      if workerId in workers {
        var wasAvailable := workers[workerId].available;
        workers := workers[workerId := info];
        if wasAvailable && !info.available {
          suspendedSince := suspendedSince[workerId := now];
        } else if !wasAvailable && info.available {
          suspendedSince := suspendedSince - {workerId};
        }
        if lastProfile.name != "" {
          RemoveFromBuckets(workerId);
          PlaceInBucket(workerId, ComputeScore(info, lastProfile));
        }
      }
    }

    method DeregisterWorker(workerId: int)
      requires Valid()
      modifies this
      ensures Valid() && workers == old(workers) - {workerId} && suspendedSince == old(suspendedSince) - {workerId}
      ensures lastProfile == old(lastProfile) && nextElasticId == old(nextElasticId)
    {
      RemoveFromBuckets(workerId);
      workers := workers - {workerId};
      suspendedSince := suspendedSince - {workerId};
    }

    /** Scores every worker from scratch. */
    method Rebuild(wp: WeightProfile)
      requires Valid()
      modifies this`scores, this`buckets, this`lastProfile
      ensures Valid() && lastProfile == wp && Current(workers, scores, wp)
    {
      scores, buckets := map[], EMPTY_BUCKETS;
      EmptyIndexed();
      var rest := workers.Keys;
      while rest != {}
        invariant rest <= workers.Keys
        invariant Indexed(buckets, scores) && scores.Keys == workers.Keys - rest
        invariant forall id :: id in scores ==> scores[id] == ComputeScore(workers[id], wp)
        decreases |rest|
      {
        ghost var some := SomeMember(rest);
        var id :| id in rest;
        PlaceInBucket(id, ComputeScore(workers[id], wp));
        rest := rest - {id};
      }
      lastProfile := wp;
    }

    /** The `n` best workers by bucket. `ids` are their keys in the registry. */
    method TopNWorkers(n: int, wp: WeightProfile) returns (result: seq<WorkerInfo>, ghost ids: seq<int>)
      requires Valid()
      modifies this`scores, this`buckets, this`lastProfile
      ensures Valid() && lastProfile == wp
      ensures |ids| == |result| && forall i :: 0 <= i < |ids| ==> ids[i] in workers && result[i] == workers[ids[i]]
      ensures PickedBest(ids, n, scores)
      ensures wp.name != "" ==> Current(workers, scores, wp)
    {
      if wp != lastProfile {
        Rebuild(wp);
      }
      result, ids := PickFrom(workers, buckets, n, scores);
    }

    method WorkerCount() returns (n: nat)
      ensures n == |workers|
    {
      n := |workers|;
    }

    /** A new id for an elastic worker. */
    method NextWorkerId() returns (id: int)
      requires Valid()
      modifies this`nextElasticId
      ensures Valid() && id == old(nextElasticId) && nextElasticId == id + 1
    {
      id := nextElasticId;
      nextElasticId := nextElasticId + 1;
    }

    method SuspendedWorkers() returns (ids: seq<int>)
      ensures Distinct(ids)
      ensures forall id :: id in ids <==> id in workers && !workers[id].available
    {
      ids := [];
      var rest := workers.Keys;
      while rest != {}
        invariant rest <= workers.Keys && Distinct(ids)
        invariant forall id :: id in ids <==> id in workers && id !in rest && !workers[id].available
        decreases |rest|
      {
        ghost var some := SomeMember(rest);
        var id :| id in rest;
        rest := rest - {id};
        if !workers[id].available {
          ids := ids + [id];
        }
      }
    }

    /** Workers that have been suspended for longer than `threshold`. */
    method DecommissionableWorkers(threshold: int, now: int) returns (ids: seq<int>)
      ensures Distinct(ids)
      ensures forall id :: id in ids <==>
        id in suspendedSince && id in workers && !workers[id].available && now - suspendedSince[id] > threshold
    {
      ids := [];
      var rest := suspendedSince.Keys;
      while rest != {}
        invariant rest <= suspendedSince.Keys && Distinct(ids)
        invariant forall id :: id in ids <==>
          id in suspendedSince && id !in rest && id in workers && !workers[id].available
          && now - suspendedSince[id] > threshold
        decreases |rest|
      {
        ghost var some := SomeMember(rest);
        var id :| id in rest;
        rest := rest - {id};
        if id in workers && !workers[id].available && now - suspendedSince[id] > threshold {
          ids := ids + [id];
        }
      }
    }
  }
}
