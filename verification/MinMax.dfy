/** The MinMax solver: labels go to workers in proportion to their profit. */
module MinMax {
  import opened Basics
  import opened Sorting
  import opened WorkerManager

  datatype Scored = Scored(id: int, profit: real)

  /** What the arithmetic of the solver is meant for. */
  predicate Sensible(w: WorkerInfo) {
    InUnit(w.capacity) && InUnit(w.load) && w.speed >= 0
  }

  function Profit(w: WorkerInfo): (p: real)
    ensures Sensible(w) ==> p >= 0.0
  {
    var speedNorm := w.speed as real / 5.0;
    var energyNorm := if w.energy as real / 5.0 >= 0.01 then w.energy as real / 5.0 else 0.01;
    if Sensible(w) then
      ProfitPositive(speedNorm, w.capacity, 1.0 - w.load, energyNorm);
      speedNorm * w.capacity * (1.0 - w.load) / energyNorm
    else
      speedNorm * w.capacity * (1.0 - w.load) / energyNorm
  }

  lemma ProfitPositive(a: real, b: real, c: real, d: real)
    requires a >= 0.0 && b >= 0.0 && c >= 0.0 && d > 0.0
    ensures a * b * c / d >= 0.0
  {
    assert a * b >= 0.0;
  }

  lemma QuotientGrows(p: real, q: real, c: real, d: real)
    requires 0.0 <= p <= q && 0.0 < d <= c
    ensures p / c <= q / d
    ensures p < q || (p > 0.0 && d < c) ==> p / c < q / d
  {
    assert p / c <= p / d by {
      SmallerDivisor(p, c, d);
    }
    assert p > 0.0 && d < c ==> p / c < p / d by {
      SmallerDivisor(p, c, d);
    }
  }

  lemma SmallerDivisor(p: real, c: real, d: real)
    requires p >= 0.0 && 0.0 < d <= c
    ensures p / c <= p / d
    ensures p > 0.0 && d < c ==> p / c < p / d
  {
    var x, y := p / c, p / d;
    assert x * c == p && y * d == p;
    assert p > 0.0 ==> x > 0.0;
    FactorBelow(x, c, y, d);
  }

  lemma FactorBelow(x: real, c: real, y: real, d: real)
    requires x >= 0.0 && 0.0 < d <= c && x * c == y * d
    ensures x <= y
    ensures x > 0.0 && d < c ==> x < y
  {
    ProductSign(x, c - d);
    assert x * c - x * d == x * (c - d);
    Cancel(x, y, d);
  }

  lemma ProductSign(a: real, b: real)
    requires a >= 0.0 && b >= 0.0
    ensures a * b >= 0.0
    ensures a > 0.0 && b > 0.0 ==> a * b > 0.0
  {
  }

  lemma Cancel(x: real, y: real, d: real)
    requires d > 0.0 && x * d <= y * d
    ensures x <= y
    ensures x * d < y * d ==> x < y
  {
    assert x == x * d / d && y == y * d / d;
  }

  lemma FactorsGrow(a: real, b: real, c: real, x: real, y: real, z: real)
    requires 0.0 <= a <= x && 0.0 <= b <= y && 0.0 <= c <= z
    ensures 0.0 <= a * b * c <= x * y * z
    ensures x > 0.0 && y > 0.0 && z > 0.0 ==> x * y * z > 0.0
    ensures x > 0.0 && y > 0.0 && z > 0.0 && (a < x || b < y || c < z) ==> a * b * c < x * y * z
  {
    TwoFactors(a, b, x, y);
    TwoFactors(a * b, c, x * y, z);
  }

  lemma TwoFactors(a: real, b: real, x: real, y: real)
    requires 0.0 <= a <= x && 0.0 <= b <= y
    ensures 0.0 <= a * b <= x * y
    ensures x > 0.0 && y > 0.0 ==> x * y > 0.0
    ensures x > 0.0 && y > 0.0 && (a < x || b < y) ==> a * b < x * y
  {
    assert a * b <= a * y <= x * y;
    assert x > 0.0 && y > 0.0 && a < x ==> a * y < x * y;
    assert a > 0.0 && b < y ==> a * b < a * y;
  }

  predicate MayEarn(w: WorkerInfo) {
    w.speed > 0 && w.capacity > 0.0 && w.load < 1.0
  }

  /** `v` is at least as fast, large and free as `w`, and needs no more energy. */
  predicate NoWorse(w: WorkerInfo, v: WorkerInfo) {
    w.speed <= v.speed && w.capacity <= v.capacity && v.load <= w.load && v.energy <= w.energy
  }

  predicate SomewhatBetter(w: WorkerInfo, v: WorkerInfo) {
    w.speed < v.speed || w.capacity < v.capacity || v.load < w.load || v.energy < w.energy
  }

  function Yield(w: WorkerInfo): real {
    w.speed as real / 5.0 * w.capacity * (1.0 - w.load)
  }

  lemma YieldMonotone(w: WorkerInfo, v: WorkerInfo)
    requires Sensible(w) && Sensible(v) && NoWorse(w, v)
    ensures 0.0 <= Yield(w) <= Yield(v)
    ensures MayEarn(v) ==> Yield(v) > 0.0
    ensures MayEarn(v) && SomewhatBetter(w, v) && v.energy == w.energy ==> Yield(w) < Yield(v)
    ensures MayEarn(v) && Yield(w) == 0.0 ==> Yield(w) < Yield(v)
  {
    var a, x := w.speed as real / 5.0, v.speed as real / 5.0;
    var b, c, y, z := w.capacity, 1.0 - w.load, v.capacity, 1.0 - v.load;
    FactorsGrow(a, b, c, x, y, z);
    assert Yield(w) == a * b * c && Yield(v) == x * y * z;
  }

  /** The faster, the larger, the less loaded and the less energy-hungry worker has
      no smaller profit, and a larger one if it can have any. */
  lemma ProfitMonotone(w: WorkerInfo, v: WorkerInfo)
    requires Sensible(w) && Sensible(v) && NoWorse(w, v) && v.energy >= 1
    ensures Profit(w) <= Profit(v)
    ensures MayEarn(v) && SomewhatBetter(w, v) ==> Profit(w) < Profit(v)
  {
    YieldMonotone(w, v);
    var c, d := w.energy as real / 5.0, v.energy as real / 5.0;
    QuotientGrows(Yield(w), Yield(v), c, d);
    assert Profit(w) == Yield(w) / c && Profit(v) == Yield(v) / d;
  }

  /** A worker without a measurable energy need counts as one that needs 1/20. */
  lemma ProfitOfFree(w: WorkerInfo)
    requires w.energy <= 0
    ensures Profit(w) == 20.0 * Profit(w.(energy := 1))
  {
    var p := w.speed as real / 5.0 * w.capacity * (1.0 - w.load);
    assert Profit(w) == p / 0.01 && Profit(w.(energy := 1)) == p / (1.0 / 5.0);
  }

  /** The available workers with their profits, in the order given. */
  function Candidates(workers: seq<WorkerInfo>): seq<Scored> {
    if workers == [] then [] else
      var w := workers[|workers| - 1];
      Candidates(workers[..|workers| - 1]) + if w.available then [Scored(w.id, Profit(w))] else []
  }

  lemma {:induction false} CandidatesAreAvailable(workers: seq<WorkerInfo>, s: Scored)
    ensures s in Candidates(workers) <==> exists w :: w in workers && w.available && s == Scored(w.id, Profit(w))
  {
    if workers != [] {
      var before := workers[..|workers| - 1];
      CandidatesAreAvailable(before, s);
      assert workers == before + [workers[|workers| - 1]];
    }
  }

  function TotalProfit(order: seq<Scored>): real {
    if order == [] then 0.0 else TotalProfit(order[..|order| - 1]) + order[|order| - 1].profit
  }

  // ---------------------------------------------------------------------------
  // Shares
  // ---------------------------------------------------------------------------

  function Fraction(profit: real, total: real, m: nat): real
    requires m > 0
  {
    if total > 0.0 then profit / total else 1.0 / m as real
  }

  /** std::round on a non-negative number: halves go up. */
  function Round(x: real): (r: nat)
    requires x >= 0.0
    ensures x - 0.5 < r as real <= x + 0.5
  {
    (x + 0.5).Floor
  }

  /** How many of the `left` labels the next worker takes: its rounded part of
      all `n`, at least one. */
  function Share(fraction: real, n: nat, left: nat): (share: nat)
    requires fraction >= 0.0
    ensures share <= left && (left > 0 ==> share > 0)
    ensures share == left || share as real >= fraction * n as real - 0.5
    ensures share <= 1 || share as real <= fraction * n as real + 0.5
  {
    var product := fraction * n as real;
    assert product >= 0.0;
    var count := Min(Round(product), left);
    if count == 0 && left > 0 then 1 else count
  }

  ghost predicate Profitable(order: seq<Scored>) {
    order != [] && forall i :: 0 <= i < |order| ==> order[i].profit >= 0.0
  }

  function FractionOf(order: seq<Scored>, i: nat): (f: real)
    requires Profitable(order) && i < |order|
    ensures f >= 0.0
  {
    Fraction(order[i].profit, TotalProfit(order), |order|)
  }

  /** How many of `n` labels the first `i` workers take together. */
  function Assigned(order: seq<Scored>, n: nat, i: nat): (a: nat)
    requires Profitable(order) && i <= |order|
    ensures a <= n
  {
    if i == 0 then 0 else
      var before := Assigned(order, n, i - 1);
      before + Share(FractionOf(order, i - 1), n, n - before)
  }

  lemma {:induction false} AssignedGrows(order: seq<Scored>, n: nat, i: nat, j: nat)
    requires Profitable(order) && i <= j <= |order|
    ensures Assigned(order, n, i) <= Assigned(order, n, j)
    decreases j
  {
    if i < j {
      AssignedGrows(order, n, i, j - 1);
    }
  }

  // ---------------------------------------------------------------------------
  // The bound on the labels left over
  // ---------------------------------------------------------------------------

  function FractionSum(order: seq<Scored>, i: nat): real
    requires Profitable(order) && i <= |order|
  {
    if i == 0 then 0.0 else FractionSum(order, i - 1) + FractionOf(order, i - 1)
  }

  lemma {:induction false} FractionSumValue(order: seq<Scored>, i: nat)
    requires Profitable(order) && i <= |order|
    ensures FractionSum(order, i) ==
      if TotalProfit(order) > 0.0 then TotalProfit(order[..i]) / TotalProfit(order) else i as real / |order| as real
  {
    if i > 0 {
      FractionSumValue(order, i - 1);
      assert order[..i][..i - 1] == order[..i - 1];
      var total := TotalProfit(order);
      if total > 0.0 {
        AddQuotients(TotalProfit(order[..i - 1]), order[i - 1].profit, total);
      } else {
        AddQuotients((i - 1) as real, 1.0, |order| as real);
      }
    }
  }

  lemma AddQuotients(a: real, b: real, c: real)
    requires c > 0.0
    ensures (a + b) / c == a / c + b / c
  {
  }

  lemma FractionsAddUp(order: seq<Scored>)
    requires Profitable(order)
    ensures FractionSum(order, |order|) == 1.0
  {
    FractionSumValue(order, |order|);
    assert order[..|order|] == order;
  }

  /** What is handed out if every rounding loses half a label. */
  function LowerBound(order: seq<Scored>, n: nat, i: nat): real
    requires Profitable(order) && i <= |order|
  {
    if i == 0 then 0.0 else LowerBound(order, n, i - 1) + (FractionOf(order, i - 1) * n as real - 0.5)
  }

  lemma {:induction false} LowerBoundValue(order: seq<Scored>, n: nat, i: nat)
    requires Profitable(order) && i <= |order|
    ensures LowerBound(order, n, i) == FractionSum(order, i) * n as real - i as real / 2.0
  {
    if i > 0 {
      LowerBoundValue(order, n, i - 1);
      Distribute(FractionSum(order, i - 1), FractionOf(order, i - 1), n as real);
    }
  }

  lemma Distribute(a: real, b: real, c: real)
    ensures (a + b) * c == a * c + b * c
  {
  }

  lemma {:induction false} AssignedAtLeast(order: seq<Scored>, n: nat, i: nat)
    requires Profitable(order) && i <= |order|
    ensures Assigned(order, n, i) == n || Assigned(order, n, i) as real >= LowerBound(order, n, i)
  {
    if i > 0 {
      AssignedAtLeast(order, n, i - 1);
    }
  }

  /** However profits are spread, at most half a label per worker is left for the
      catch-up at the end. */
  lemma LeftoverBound(order: seq<Scored>, n: nat)
    requires Profitable(order)
    ensures 2 * (n - Assigned(order, n, |order|)) <= |order|
  {
    AssignedAtLeast(order, n, |order|);
    FractionsAddUp(order);
    LowerBoundValue(order, n, |order|);
  }

  /** The at-least-one rule does not look at the profit: while labels remain the
      next worker takes at least one, so the first `i` workers together take `i`,
      or all. */
  lemma {:induction false} EachTakesOne(order: seq<Scored>, n: nat, i: nat)
    requires Profitable(order) && i <= |order|
    ensures i < |order| && Assigned(order, n, i) < n ==> Assigned(order, n, i) < Assigned(order, n, i + 1)
    ensures Assigned(order, n, i) >= Min(i, n)
  {
    if i > 0 {
      EachTakesOne(order, n, i - 1);
    }
  }

  // ---------------------------------------------------------------------------
  // Distribution
  // ---------------------------------------------------------------------------

  type Data = seq<byte>

  /** The labels of one owner, in order. */
  function OwnedBy(labels: seq<Data>, owner: seq<int>, id: int): seq<Data>
    requires |owner| == |labels|
  {
    if labels == [] then [] else
      var k := |labels| - 1;
      OwnedBy(labels[..k], owner[..k], id) + if owner[k] == id then [labels[k]] else []
  }

  /** Each label is in the list of its owner, once and in order, and nowhere else. */
  ghost predicate Distributed(result: map<int, seq<Data>>, labels: seq<Data>, owner: seq<int>)
    requires |owner| == |labels|
  {
    && (forall id :: id in result <==> id in owner)
    && (forall id :: id in result ==> result[id] == OwnedBy(labels, owner, id))
  }

  function Push(result: map<int, seq<Data>>, id: int, data: Data): map<int, seq<Data>> {
    result[id := (if id in result then result[id] else []) + [data]]
  }

  lemma {:induction false} OwnedByNobody(labels: seq<Data>, owner: seq<int>, id: int)
    requires |owner| == |labels| && id !in owner
    ensures OwnedBy(labels, owner, id) == []
  {
    if labels != [] {
      var k := |labels| - 1;
      assert owner[k] in owner;
      OwnedByNobody(labels[..k], owner[..k], id);
    }
  }

  lemma {:induction false} OwnedBySomebody(labels: seq<Data>, owner: seq<int>, id: int)
    requires |owner| == |labels| && id in owner
    ensures OwnedBy(labels, owner, id) != []
  {
    var k := |labels| - 1;
    if owner[k] != id {
      OwnedBySomebody(labels[..k], owner[..k], id);
    }
  }

  lemma PushDistributed(result: map<int, seq<Data>>, labels: seq<Data>, owner: seq<int>, id: int, data: Data)
    requires |owner| == |labels| && Distributed(result, labels, owner)
    ensures Distributed(Push(result, id, data), labels + [data], owner + [id])
  {
    assert (labels + [data])[..|labels|] == labels && (owner + [id])[..|owner|] == owner;
    if id !in result {
      OwnedByNobody(labels, owner, id);
    }
  }

  /** Label `k` belongs to the share of worker `j`. */
  ghost predicate InTurn(order: seq<Scored>, n: nat, j: nat, k: nat)
    requires Profitable(order)
  {
    j < |order| && Assigned(order, n, j) <= k < Assigned(order, n, j + 1)
  }

  /** Among the labels that have an owner, worker `j < i` of the order owns those
      of its share. */
  ghost predicate OwnedUpTo(owner: seq<int>, order: seq<Scored>, n: nat, i: nat)
    requires Profitable(order) && i <= |order|
  {
    forall j: nat, k: nat :: j < i && k < |owner| && InTurn(order, n, j, k) ==> owner[k] == order[j].id
  }

  /** Every worker owns the labels of its share, and the first one also those
      left over. */
  ghost predicate OwnedInOrder(owner: seq<int>, order: seq<Scored>)
    requires Profitable(order)
  {
    && OwnedUpTo(owner, order, |owner|, |order|)
    && (forall k :: Assigned(order, |owner|, |order|) <= k < |owner| ==> owner[k] == order[0].id)
  }

  /** Every label has one owner and is in the list of that owner only. */
  ghost predicate SpreadsBy(result: map<int, seq<Data>>, labels: seq<Data>, owner: seq<int>, order: seq<Scored>)
    requires Profitable(order)
  {
    |owner| == |labels| && Distributed(result, labels, owner) && OwnedInOrder(owner, order)
  }

  ghost predicate Spreads(result: map<int, seq<Data>>, labels: seq<Data>, order: seq<Scored>)
    requires Profitable(order)
  {
    exists owner :: SpreadsBy(result, labels, owner, order)
  }

  /** The available workers, most profitable first. */
  ghost predicate Ranked(order: seq<Scored>, workers: seq<WorkerInfo>) {
    && multiset(order) == multiset(Candidates(workers))
    && forall i, j :: 0 <= i < j < |order| ==> order[i].profit >= order[j].profit
  }

  lemma {:induction false} TurnOf(order: seq<Scored>, n: nat, i: nat, k: nat) returns (j: nat)
    requires Profitable(order) && i <= |order| && k < Assigned(order, n, i)
    ensures j < i && InTurn(order, n, j, k)
    decreases i
  {
    j := i - 1;
    if k < Assigned(order, n, i - 1) {
      j := TurnOf(order, n, i - 1, k);
    }
  }

  ghost predicate IsAvailable(id: int, workers: seq<WorkerInfo>) {
    exists w :: w in workers && w.available && w.id == id
  }

  /** Labels only go to available workers. */
  lemma OwnersAvailable(owner: seq<int>, order: seq<Scored>, workers: seq<WorkerInfo>)
    requires Ranked(order, workers) && Profitable(order) && OwnedInOrder(owner, order)
    ensures forall id :: id in owner ==> IsAvailable(id, workers)
  {
    forall id | id in owner
      ensures IsAvailable(id, workers)
    {
      var k: nat :| k < |owner| && owner[k] == id;
      var j := 0;
      if k < Assigned(order, |owner|, |order|) {
        j := TurnOf(order, |owner|, |order|, k);
      }
      assert order[j] in multiset(Candidates(workers));
      CandidatesAreAvailable(workers, order[j]);
    }
  }

  // ---------------------------------------------------------------------------
  // What each worker ends up with
  // ---------------------------------------------------------------------------

  /** The part of `n` labels that worker `i` is due: in proportion to its profit, or
      equal parts if there is no profit at all. */
  function Part(order: seq<Scored>, n: nat, i: nat): real
    requires Profitable(order) && i < |order|
  {
    if TotalProfit(order) > 0.0 then n as real * order[i].profit / TotalProfit(order)
    else n as real / |order| as real
  }

  lemma PartIsFraction(order: seq<Scored>, n: nat, i: nat)
    requires Profitable(order) && i < |order|
    ensures Part(order, n, i) == FractionOf(order, i) * n as real
  {
    if TotalProfit(order) > 0.0 {
      MoveFactor(n as real, order[i].profit, TotalProfit(order));
    } else {
      MoveFactor(n as real, 1.0, |order| as real);
    }
  }

  lemma MoveFactor(a: real, b: real, c: real)
    requires c > 0.0
    ensures a * b / c == b / c * a
  {
  }

  /** No other worker of the order has the id of the i-th. */
  ghost predicate OwnId(order: seq<Scored>, i: nat)
    requires i < |order|
  {
    forall j :: 0 <= j < |order| && j != i ==> order[j].id != order[i].id
  }

  function Held(result: map<int, seq<Data>>, id: int): nat {
    if id in result then |result[id]| else 0
  }

  /** The number of labels with this owner. */
  function CountOf(owner: seq<int>, id: int): nat {
    if owner == [] then 0
    else CountOf(owner[..|owner| - 1], id) + if owner[|owner| - 1] == id then 1 else 0
  }

  lemma {:induction false} OwnedCount(labels: seq<Data>, owner: seq<int>, id: int)
    requires |owner| == |labels|
    ensures |OwnedBy(labels, owner, id)| == CountOf(owner, id)
  {
    if labels != [] {
      var k := |labels| - 1;
      OwnedCount(labels[..k], owner[..k], id);
    }
  }

  lemma {:induction false} CountNobody(owner: seq<int>, id: int)
    requires id !in owner
    ensures CountOf(owner, id) == 0
  {
    if owner != [] {
      assert owner[|owner| - 1] in owner;
      CountNobody(owner[..|owner| - 1], id);
    }
  }

  lemma HeldCount(result: map<int, seq<Data>>, labels: seq<Data>, owner: seq<int>, id: int)
    requires |owner| == |labels| && Distributed(result, labels, owner)
    ensures Held(result, id) == CountOf(owner, id)
  {
    OwnedCount(labels, owner, id);
    if id !in owner {
      CountNobody(owner, id);
    }
  }

  /** An id that owns exactly the labels from `from` up to `end`. */
  lemma {:induction false} CountRange(owner: seq<int>, id: int, from: nat, end: nat)
    requires from <= end <= |owner|
    requires forall k :: 0 <= k < |owner| ==> (owner[k] == id <==> from <= k < end)
    ensures CountOf(owner, id) == end - from
    decreases |owner|
  {
    if owner != [] {
      var init := owner[..|owner| - 1];
      if end == |owner| && from < end {
        CountRange(init, id, from, end - 1);
      } else if end == |owner| {
        CountRange(init, id, |init|, |init|);
      } else {
        CountRange(init, id, from, end);
      }
    }
  }

  lemma {:induction false} CountSplit(a: seq<int>, b: seq<int>, id: int)
    ensures CountOf(a + b, id) == CountOf(a, id) + CountOf(b, id)
    decreases |b|
  {
    if b == [] {
      assert a + b == a;
    } else {
      assert (a + b)[..|a + b| - 1] == a + b[..|b| - 1];
      CountSplit(a, b[..|b| - 1], id);
    }
  }

  lemma {:induction false} CountAtMost(owner: seq<int>, id: int)
    ensures CountOf(owner, id) <= |owner|
  {
    if owner != [] {
      CountAtMost(owner[..|owner| - 1], id);
    }
  }

  /** The turns do not overlap. */
  lemma OneTurn(order: seq<Scored>, n: nat, i: nat, j: nat, k: nat)
    requires Profitable(order) && InTurn(order, n, i, k) && InTurn(order, n, j, k)
    ensures i == j
  {
    if j < i {
      AssignedGrows(order, n, j + 1, i);
    } else if i < j {
      AssignedGrows(order, n, i + 1, j);
    }
  }

  /** In the turns, an id of its own owns exactly its share. */
  lemma TurnOwner(owner: seq<int>, order: seq<Scored>, i: nat, k: nat)
    requires Profitable(order) && OwnedInOrder(owner, order) && i < |order| && OwnId(order, i)
    requires k < Assigned(order, |owner|, |order|)
    ensures k < |owner|
    ensures owner[k] == order[i].id <==> InTurn(order, |owner|, i, k)
  {
    var j := TurnOf(order, |owner|, |order|, k);
    assert InTurn(order, |owner|, j, k) && owner[k] == order[j].id;
    if InTurn(order, |owner|, i, k) {
      OneTurn(order, |owner|, i, j, k);
    }
  }

  /** What a worker other than the first holds, and what the first holds in its turn. */
  lemma TurnCount(owner: seq<int>, order: seq<Scored>, i: nat)
    requires Profitable(order) && OwnedInOrder(owner, order) && i < |order| && OwnId(order, i)
    ensures var turns := owner[..Assigned(order, |owner|, |order|)];
      CountOf(turns, order[i].id) == Assigned(order, |owner|, i + 1) - Assigned(order, |owner|, i)
  {
    var all := Assigned(order, |owner|, |order|);
    var turns := owner[..all];
    forall k: nat | k < all
      ensures turns[k] == order[i].id <==> InTurn(order, |owner|, i, k)
    {
      TurnOwner(owner, order, i, k);
    }
    AssignedGrows(order, |owner|, i, i + 1);
    AssignedGrows(order, |owner|, i + 1, |order|);
    CountRange(turns, order[i].id, Assigned(order, |owner|, i), Assigned(order, |owner|, i + 1));
  }

  lemma RestCount(owner: seq<int>, order: seq<Scored>, i: nat)
    requires Profitable(order) && OwnedInOrder(owner, order) && i < |order| && OwnId(order, i)
    ensures var rest := owner[Assigned(order, |owner|, |order|)..];
      && (i > 0 ==> CountOf(rest, order[i].id) == 0)
      && 2 * CountOf(rest, order[i].id) <= |order|
  {
    var all := Assigned(order, |owner|, |order|);
    var rest := owner[all..];
    assert forall k :: 0 <= k < |rest| ==> rest[k] == owner[all + k] == order[0].id;
    if i > 0 {
      CountNobody(rest, order[i].id);
    }
    CountAtMost(rest, order[i].id);
    LeftoverBound(order, |owner|);
  }

  lemma CountTurnsAndRest(owner: seq<int>, order: seq<Scored>, i: nat)
    requires Profitable(order) && OwnedInOrder(owner, order) && i < |order| && OwnId(order, i)
    ensures var share := Assigned(order, |owner|, i + 1) - Assigned(order, |owner|, i);
      var count := CountOf(owner, order[i].id);
      && share <= count && (i > 0 ==> count == share) && 2 * (count - share) <= |order|
  {
    var all := Assigned(order, |owner|, |order|);
    TurnCount(owner, order, i);
    RestCount(owner, order, i);
    CountSplit(owner[..all], owner[all..], order[i].id);
    assert owner[..all] + owner[all..] == owner;
  }

  lemma ShareBounds(share: nat, fraction: real, n: nat, left: nat, part: real)
    requires fraction >= 0.0 && part == fraction * n as real && share == Share(fraction, n, left)
    ensures share <= 1 || share as real <= part + 0.5
    ensures share == left || share as real >= part - 0.5
  {
  }

  /** A turn takes the part rounded, but at least one label and at most what is left. */
  lemma TurnBounds(order: seq<Scored>, n: nat, i: nat) returns (part: real)
    requires Profitable(order) && i < |order|
    ensures part == Part(order, n, i)
    ensures var share := Assigned(order, n, i + 1) - Assigned(order, n, i);
      && (share <= 1 || share as real <= part + 0.5)
      && (Assigned(order, n, i + 1) == n || share as real >= part - 0.5)
  {
    PartIsFraction(order, n, i);
    part := Part(order, n, i);
    var before, share := Assigned(order, n, i), Assigned(order, n, i + 1) - Assigned(order, n, i);
    ShareBounds(share, FractionOf(order, i), n, n - before, part);
  }

  lemma HoldsTurn(result: map<int, seq<Data>>, labels: seq<Data>, owner: seq<int>, order: seq<Scored>, i: nat)
    requires Profitable(order) && SpreadsBy(result, labels, owner, order) && i < |order| && OwnId(order, i)
    ensures var share := Assigned(order, |labels|, i + 1) - Assigned(order, |labels|, i);
      var held := Held(result, order[i].id);
      share <= held && (i > 0 ==> held == share) && 2 * (held - share) <= |order|
  {
    HeldCount(result, labels, owner, order[i].id);
    CountTurnsAndRest(owner, order, i);
  }

  /** No worker holds more than its part rounded, or one label if that is none; the
      first may also hold half a label for each worker. */
  lemma HeldAtMost(
      result: map<int, seq<Data>>, labels: seq<Data>, owner: seq<int>, order: seq<Scored>, i: nat)
    requires Profitable(order) && SpreadsBy(result, labels, owner, order) && i < |order| && OwnId(order, i)
    ensures var extra := if i > 0 then 0.0 else |order| as real / 2.0;
      var held := Held(result, order[i].id) as real;
      held <= 1.0 + extra || held <= Part(order, |labels|, i) + 0.5 + extra
  {
    HoldsTurn(result, labels, owner, order, i);
    var part := TurnBounds(order, |labels|, i);
  }

  /** A worker whose turn ends the labels, or comes after that, holds the last label
      or none. */
  lemma CutShort(result: map<int, seq<Data>>, labels: seq<Data>, owner: seq<int>, order: seq<Scored>, i: nat)
    requires Profitable(order) && SpreadsBy(result, labels, owner, order) && i < |order| && OwnId(order, i)
    requires Assigned(order, |labels|, i + 1) == |labels|
    ensures Assigned(order, |labels|, i) < |labels| ==> owner[|owner| - 1] == order[i].id
  {
    AssignedGrows(order, |owner|, i + 1, |order|);
    if Assigned(order, |labels|, i) < |labels| {
      TurnOwner(owner, order, i, |owner| - 1);
    }
  }

  /** A worker that holds labels, with the last label not its own, holds at least its
      part rounded: its turn was not cut short. */
  lemma HeldAtLeast(
      result: map<int, seq<Data>>, labels: seq<Data>, owner: seq<int>, order: seq<Scored>, i: nat)
    requires Profitable(order) && SpreadsBy(result, labels, owner, order) && 0 < i < |order| && OwnId(order, i)
    requires Held(result, order[i].id) > 0 && owner != [] && owner[|owner| - 1] != order[i].id
    ensures Held(result, order[i].id) as real >= Part(order, |labels|, i) - 0.5
  {
    HoldsTurn(result, labels, owner, order, i);
    var part := TurnBounds(order, |labels|, i);
    if Assigned(order, |labels|, i + 1) == |labels| {
      CutShort(result, labels, owner, order, i);
    }
  }

  lemma PartAtMostAll(order: seq<Scored>)
    requires Profitable(order)
    ensures FractionOf(order, 0) <= 1.0
  {
    FractionAtMostSum(order, |order|);
    FractionsAddUp(order);
  }

  lemma {:induction false} FractionAtMostSum(order: seq<Scored>, i: nat)
    requires Profitable(order) && 0 < i <= |order|
    ensures FractionOf(order, 0) <= FractionSum(order, i)
  {
    if i == 1 {
      assert FractionSum(order, 0) == 0.0;
    } else {
      FractionAtMostSum(order, i - 1);
    }
  }

  lemma AtMostAll(part: real, f: real, n: nat)
    requires f <= 1.0 && part == f * n as real
    ensures part <= n as real
  {
  }

  lemma FirstTurn(order: seq<Scored>, n: nat) returns (part: real)
    requires Profitable(order)
    ensures part == Part(order, n, 0) && Assigned(order, n, 1) as real >= part - 0.5
  {
    part := TurnBounds(order, n, 0);
    FirstPart(order, n, part);
    assert Assigned(order, n, 0) == 0;
  }

  lemma FirstPart(order: seq<Scored>, n: nat, part: real)
    requires Profitable(order) && part == Part(order, n, 0)
    ensures part <= n as real
  {
    PartIsFraction(order, n, 0);
    PartAtMostAll(order);
    AtMostAll(part, FractionOf(order, 0), n);
  }

  /** The first worker always holds at least its part rounded. */
  lemma FirstHeldAtLeast(result: map<int, seq<Data>>, labels: seq<Data>, owner: seq<int>, order: seq<Scored>)
    requires Profitable(order) && SpreadsBy(result, labels, owner, order) && OwnId(order, 0)
    ensures Held(result, order[0].id) as real >= Part(order, |labels|, 0) - 0.5
  {
    HoldsTurn(result, labels, owner, order, 0);
    var part := FirstTurn(order, |labels|);
    assert Assigned(order, |labels|, 0) == 0;
  }

  method SortByProfit(scored: seq<Scored>) returns (order: seq<Scored>)
    ensures multiset(order) == multiset(scored)
    ensures forall i, j :: 0 <= i < j < |order| ==> order[i].profit >= order[j].profit
  {
    var leq := (a: Scored, b: Scored) => a.profit >= b.profit;
    order := SortBy(scored, leq);
    assert forall i, j :: 0 <= i < j < |order| ==> leq(order[i], order[j]);
  }

  lemma RankedProfitable(order: seq<Scored>, workers: seq<WorkerInfo>)
    requires Ranked(order, workers) && Candidates(workers) != []
    requires forall w :: w in workers ==> Sensible(w)
    ensures Profitable(order)
  {
    assert Candidates(workers)[0] in multiset(order);
    forall i | 0 <= i < |order|
      ensures order[i].profit >= 0.0
    {
      assert order[i] in multiset(Candidates(workers));
      CandidatesAreAvailable(workers, order[i]);
      var w :| w in workers && w.available && order[i] == Scored(w.id, Profit(w));
      assert Sensible(w);
    }
  }

  /** Once nothing is left, later workers have no share. */
  lemma NothingLeft(owner: seq<int>, order: seq<Scored>, n: nat, i: nat)
    requires Profitable(order) && i <= |order| && Assigned(order, n, i) == n == |owner|
    requires OwnedUpTo(owner, order, n, i)
    ensures OwnedInOrder(owner, order)
  {
    AssignedGrows(order, n, i, |order|);
    forall j: nat, k: nat | InTurn(order, n, j, k) && k < n
      ensures owner[k] == order[j].id
    {
      if j >= i {
        AssignedGrows(order, n, i, j);
      }
    }
  }

  /** Owners added after the shares of the first `i` workers do not touch them. */
  lemma EarlierShares(owner: seq<int>, longer: seq<int>, order: seq<Scored>, n: nat, i: nat)
    requires Profitable(order) && i <= |order| && Assigned(order, n, i) <= |owner|
    requires OwnedUpTo(owner, order, n, i) && owner <= longer
    ensures OwnedUpTo(longer, order, n, i)
  {
    forall j: nat, k: nat | j < i && InTurn(order, n, j, k) && k < |longer|
      ensures longer[k] == order[j].id
    {
      AssignedGrows(order, n, j + 1, i);
      assert longer[k] == owner[k];
    }
  }

  lemma NextShare(owner: seq<int>, longer: seq<int>, order: seq<Scored>, n: nat, i: nat)
    requires Profitable(order) && i < |order| && Assigned(order, n, i) == |owner|
    requires OwnedUpTo(owner, order, n, i) && owner <= longer && |longer| == Assigned(order, n, i + 1)
    requires forall k :: |owner| <= k < |longer| ==> longer[k] == order[i].id
    ensures OwnedUpTo(longer, order, n, i + 1)
  {
    EarlierShares(owner, longer, order, n, i);
  }

  lemma PushNext(result: map<int, seq<Data>>, labels: seq<Data>, given: nat, owner: seq<int>, id: int)
    requires given == |owner| < |labels| && Distributed(result, labels[..given], owner)
    ensures Distributed(Push(result, id, labels[given]), labels[..given + 1], owner + [id])
  {
    PushDistributed(result, labels[..given], owner, id, labels[given]);
    assert labels[..given] + [labels[given]] == labels[..given + 1];
  }

  /** Pushes the next `count` labels to one worker. */
  method Hand(result: map<int, seq<Data>>, labels: seq<Data>, given: nat, id: int, count: nat, ghost owner: seq<int>)
    returns (result': map<int, seq<Data>>, ghost longer: seq<int>)
    requires given == |owner| && given + count <= |labels| && Distributed(result, labels[..given], owner)
    ensures owner <= longer && |longer| == given + count
    ensures forall k :: given <= k < |longer| ==> longer[k] == id
    ensures Distributed(result', labels[..given + count], longer)
  {
    result', longer := result, owner;
    for j := 0 to count
      invariant owner <= longer && |longer| == given + j
      invariant forall k :: given <= k < |longer| ==> longer[k] == id
      invariant Distributed(result', labels[..given + j], longer)
    {
      PushNext(result', labels, given + j, longer, id);
      result', longer := Push(result', id, labels[given + j]), longer + [id];
    }
  }

  method Sum(scored: seq<Scored>) returns (total: real)
    ensures total == TotalProfit(scored)
  {
    total := 0.0;
    for i := 0 to |scored|
      invariant total == TotalProfit(scored[..i])
    {
      assert scored[..i + 1][..i] == scored[..i];
      total := total + scored[i].profit;
    }
    assert scored[..|scored|] == scored;
  }

  /** The first `i` workers have had their turn. */
  ghost predicate Midway(result: map<int, seq<Data>>, labels: seq<Data>, owner: seq<int>, scored: seq<Scored>, i: nat)
    requires Profitable(scored) && i <= |scored|
  {
    && |owner| == Assigned(scored, |labels|, i)
    && Distributed(result, labels[..|owner|], owner)
    && OwnedUpTo(owner, scored, |labels|, i)
  }

  method TakeTurn(result: map<int, seq<Data>>, labels: seq<Data>, given: nat, scored: seq<Scored>, total: real, i: nat,
                  ghost owner: seq<int>)
    returns (result': map<int, seq<Data>>, given': nat, ghost longer: seq<int>)
    requires Profitable(scored) && i < |scored| && total == TotalProfit(scored)
    requires given == |owner| && Midway(result, labels, owner, scored, i)
    ensures given' == |longer| && Midway(result', labels, longer, scored, i + 1)
  {
    var fraction := Fraction(scored[i].profit, total, |scored|);
    var count := Share(fraction, |labels|, |labels| - given);
    result', longer := Hand(result, labels, given, scored[i].id, count, owner);
    NextShare(owner, longer, scored, |labels|, i);
    given' := given + count;
  }

  lemma AllGiven(result: map<int, seq<Data>>, labels: seq<Data>, owner: seq<int>, scored: seq<Scored>, i: nat)
    requires Profitable(scored) && i <= |scored| && Midway(result, labels, owner, scored, i) && |owner| == |labels|
    ensures Distributed(result, labels, owner) && OwnedInOrder(owner, scored)
  {
    assert labels[..|labels|] == labels;
    NothingLeft(owner, scored, |labels|, i);
  }

  /** The labels left over go to the first worker. */
  method HandRest(
      result: map<int, seq<Data>>, labels: seq<Data>, given: nat, scored: seq<Scored>, ghost owner: seq<int>)
    returns (result': map<int, seq<Data>>, ghost longer: seq<int>)
    requires Profitable(scored) && given == |owner| <= |labels| && Midway(result, labels, owner, scored, |scored|)
    ensures |longer| == |labels| && Distributed(result', labels, longer) && OwnedInOrder(longer, scored)
  {
    assert labels[..|labels|] == labels;
    result', longer := Hand(result, labels, given, scored[0].id, |labels| - given, owner);
    EarlierShares(owner, longer, scored, |labels|, |scored|);
  }

  method Spread(labels: seq<Data>, scored: seq<Scored>) returns (result: map<int, seq<Data>>, ghost owner: seq<int>)
    requires Profitable(scored)
    ensures Spreads(result, labels, scored)
    ensures SpreadsBy(result, labels, owner, scored)
  {
    var total := Sum(scored);
    result, owner := map[], [];
    var n, given, i := |labels|, 0, 0;
    while i < |scored| && given < n
      invariant i <= |scored| && given == |owner| && Midway(result, labels, owner, scored, i)
    {
      result, given, owner := TakeTurn(result, labels, given, scored, total, i, owner);
      i := i + 1;
    }
    if given < n {
      result, owner := HandRest(result, labels, given, scored, owner);
    } else {
      AllGiven(result, labels, owner, scored, i);
    }
    assert SpreadsBy(result, labels, owner, scored);
  }

  method Assign(labels: seq<Data>, workers: seq<WorkerInfo>)
    returns (result: map<int, seq<Data>>, ghost owner: seq<int>, ghost order: seq<Scored>)
    requires forall w :: w in workers ==> Sensible(w)
    ensures labels == [] || Candidates(workers) == [] ==> result == map[]
    ensures forall id :: id in result ==> IsAvailable(id, workers) && result[id] != []
    ensures labels != [] && Candidates(workers) != [] ==>
      exists ranking :: Ranked(ranking, workers) && Profitable(ranking) && Spreads(result, labels, ranking)
    ensures labels != [] && Candidates(workers) != [] ==>
      Ranked(order, workers) && Profitable(order) && SpreadsBy(result, labels, owner, order)
  {
    owner, order := [], [];
    if workers == [] || labels == [] {
      return map[], owner, order;
    }
    var scored := [];
    for i := 0 to |workers|
      invariant scored == Candidates(workers[..i])
    {
      assert workers[..i + 1][..i] == workers[..i];
      if workers[i].available {
        scored := scored + [Scored(workers[i].id, Profit(workers[i]))];
      }
    }
    assert workers[..|workers|] == workers;
    if scored == [] {
      return map[], owner, order;
    }
    var sorted := SortByProfit(scored);
    order := sorted;
    RankedProfitable(order, workers);
    result, owner := Spread(labels, sorted);
    OwnersAvailable(owner, order, workers);
    forall id | id in result
      ensures result[id] != []
    {
      OwnedBySomebody(labels, owner, id);
    }
  }
}
