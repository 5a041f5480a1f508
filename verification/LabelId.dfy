/** Label identifiers: a 41-bit timestamp, a 10-bit node and a 12-bit sequence
    number packed into 64 bits. */
module LabelId {
  import opened Basics

  // ---------------------------------------------------------------------------
  // Bits
  // ---------------------------------------------------------------------------

  function Pow2(k: nat): (p: nat)
    ensures p > 0
  {
    if k == 0 then 1 else 2 * Pow2(k - 1)
  }

  function Bit(b: bool): nat {
    if b then 1 else 0
  }

  /** Bitwise or. */
  function Or(a: nat, b: nat): nat {
    if a == 0 then b else if b == 0 then a
    else 2 * Or(a / 2, b / 2) + Bit(a % 2 == 1 || b % 2 == 1)
  }

  /** Bitwise and. */
  function And(a: nat, b: nat): nat {
    if a == 0 || b == 0 then 0
    else 2 * And(a / 2, b / 2) + Bit(a % 2 == 1 && b % 2 == 1)
  }

  /** A left shift of a 64-bit value. */
  function ShiftLeft(a: nat, k: nat): nat {
    (a * Pow2(k)) % TWO_TO_THE_64
  }

  lemma Halves(a: nat, k: nat)
    requires k > 0
    ensures (a * Pow2(k)) / 2 == a * Pow2(k - 1) && (a * Pow2(k)) % 2 == 0
  {
    var half := a * Pow2(k - 1);
    assert a * Pow2(k) == 2 * half;
  }

  /** Below a shifted value there is room: or is addition there. */
  lemma {:induction false} OrDisjoint(a: nat, b: nat, k: nat)
    requires b < Pow2(k)
    ensures Or(a * Pow2(k), b) == a * Pow2(k) + b
  {
    if k > 0 {
      Halves(a, k);
      OrDisjoint(a, b / 2, k - 1);
    }
  }

  lemma AndOdd(a: nat, m: nat)
    requires a > 0
    ensures And(a, 2 * m + 1) == 2 * And(a / 2, m) + a % 2
  {
    assert (2 * m + 1) / 2 == m && (2 * m + 1) % 2 == 1;
  }

  /** Masking the low bits is taking the remainder. */
  lemma {:induction false} AndMask(a: nat, k: nat, p: nat) returns (q: nat)
    requires p == Pow2(k)
    ensures a == q * p + And(a, p - 1) && And(a, p - 1) < p
  {
    if k == 0 {
      q := a;
    } else if a == 0 {
      q := 0;
    } else {
      var half := Pow2(k - 1);
      q := AndMask(a / 2, k - 1, half);
      AndOdd(a, half - 1);
      SplitDoubled(a, half, q, And(a / 2, half - 1));
    }
  }

  lemma SplitDoubled(a: nat, half: nat, q: nat, r: nat)
    requires a / 2 == q * half + r && r < half
    ensures a == q * (2 * half) + (2 * r + a % 2) && 2 * r + a % 2 < 2 * half
  {
    assert q * (2 * half) == 2 * (q * half);
  }

  lemma {:induction false} PowerSum(j: nat, k: nat)
    ensures Pow2(j + k) == Pow2(j) * Pow2(k)
  {
    if j > 0 {
      PowerSum(j - 1, k);
    }
  }

  // ---------------------------------------------------------------------------
  // The layout
  // ---------------------------------------------------------------------------

  const TIMESTAMPS := 0x200_0000_0000
  const NODES := 1024
  const MAX_SEQUENCE := 4096
  const TWO_TO_THE_63 := 0x8000_0000_0000_0000

  function Packed(ms: nat, node: nat, count: nat): nat {
    Or(Or(ShiftLeft(And(ms, TIMESTAMPS - 1), 22), ShiftLeft(And(node, NODES - 1), 12)),
       And(count, MAX_SEQUENCE - 1))
  }

  lemma LargePower()
    ensures Pow2(41) == TIMESTAMPS
  {
    PowerSum(20, 21);
    MediumPowers();
  }

  lemma MediumPowers()
    ensures Pow2(20) == 0x10_0000 && Pow2(21) == 0x20_0000
  {
    PowerSum(10, 10);
    assert Pow2(10) == 1024;
  }

  lemma PowersUsed()
    ensures Pow2(41) == TIMESTAMPS && Pow2(10) == NODES && Pow2(12) == MAX_SEQUENCE && Pow2(22) == NODES * MAX_SEQUENCE
  {
    LargePower();
  }

  lemma MasksUsed(ms: nat, node: nat, count: nat)
    ensures And(ms, TIMESTAMPS - 1) == ms % TIMESTAMPS
    ensures And(node, NODES - 1) == node % NODES
    ensures And(count, MAX_SEQUENCE - 1) == count % MAX_SEQUENCE
  {
    TimestampMask(ms);
    NodeMask(node);
    SequenceMask(count);
  }

  lemma TimestampMask(ms: nat)
    ensures And(ms, TIMESTAMPS - 1) == ms % TIMESTAMPS
  {
    LargePower();
    var q := AndMask(ms, 41, TIMESTAMPS);
  }

  lemma NodeMask(node: nat)
    ensures And(node, NODES - 1) == node % NODES
  {
    PowersUsed();
    var q := AndMask(node, 10, NODES);
  }

  lemma SequenceMask(count: nat)
    ensures And(count, MAX_SEQUENCE - 1) == count % MAX_SEQUENCE
  {
    PowersUsed();
    var q := AndMask(count, 12, MAX_SEQUENCE);
  }

  lemma NoBitLost(t: nat, n: nat)
    requires t < TIMESTAMPS && n < NODES
    ensures ShiftLeft(t, 22) == t * (NODES * MAX_SEQUENCE) && ShiftLeft(n, 12) == n * MAX_SEQUENCE
  {
    PowersUsed();
  }

  lemma FieldsJoined(t: nat, n: nat, c: nat)
    requires t < TIMESTAMPS && n < NODES && c < MAX_SEQUENCE
    ensures Or(Or(ShiftLeft(t, 22), ShiftLeft(n, 12)), c) == t * (NODES * MAX_SEQUENCE) + n * MAX_SEQUENCE + c
  {
    PowersUsed();
    NoBitLost(t, n);
    OrDisjoint(t, n * MAX_SEQUENCE, 22);
    OrDisjoint(t * NODES + n, c, 12);
  }

  /** The fields never overlap: the packed value is their weighted sum. */
  lemma FieldsApart(ms: nat, node: nat, count: nat)
    ensures Packed(ms, node, count) ==
      (ms % TIMESTAMPS) * (NODES * MAX_SEQUENCE) + (node % NODES) * MAX_SEQUENCE + count % MAX_SEQUENCE
  {
    MasksUsed(ms, node, count);
    FieldsJoined(ms % TIMESTAMPS, node % NODES, count % MAX_SEQUENCE);
  }

  function TimestampOf(id: nat): nat {
    id / (NODES * MAX_SEQUENCE)
  }

  function NodeOf(id: nat): nat {
    id / MAX_SEQUENCE % NODES
  }

  function SequenceOf(id: nat): nat {
    id % MAX_SEQUENCE
  }

  /** Every field can be read back, modulo its width. */
  lemma FieldsReadBack(ms: nat, node: nat, count: nat)
    ensures TimestampOf(Packed(ms, node, count)) == ms % TIMESTAMPS
    ensures NodeOf(Packed(ms, node, count)) == node % NODES
    ensures SequenceOf(Packed(ms, node, count)) == count % MAX_SEQUENCE
    ensures Packed(ms, node, count) < TWO_TO_THE_63
  {
    FieldsApart(ms, node, count);
    WeightsUndone(ms % TIMESTAMPS, node % NODES, count % MAX_SEQUENCE);
  }

  lemma WeightsUndone(t: nat, n: nat, c: nat)
    requires t < TIMESTAMPS && n < NODES && c < MAX_SEQUENCE
    ensures var id := t * (NODES * MAX_SEQUENCE) + n * MAX_SEQUENCE + c;
      && TimestampOf(id) == t && NodeOf(id) == n && SequenceOf(id) == c && id < TWO_TO_THE_63
  {
    var upper := t * NODES + n;
    var id := upper * MAX_SEQUENCE + c;
    assert id / MAX_SEQUENCE == upper && id % MAX_SEQUENCE == c;
    assert upper % NODES == n;
  }

  /** Identifiers of one node are ordered as their truncated timestamps, and
      then as their truncated sequence numbers. */
  lemma PackedOrder(ms: nat, count: nat, ms': nat, count': nat, node: nat)
    ensures Packed(ms, node, count) < Packed(ms', node, count') <==>
      ms % TIMESTAMPS < ms' % TIMESTAMPS ||
      (ms % TIMESTAMPS == ms' % TIMESTAMPS && count % MAX_SEQUENCE < count' % MAX_SEQUENCE)
  {
    FieldsApart(ms, node, count);
    FieldsApart(ms', node, count');
  }

  // ---------------------------------------------------------------------------
  // The generator
  // ---------------------------------------------------------------------------

  /** Identifiers that strictly increase and carry the node. */
  ghost predicate Increasing(issued: seq<nat>, node: nat) {
    && (forall i, j :: 0 <= i < j < |issued| ==> issued[i] < issued[j])
    && (forall i :: 0 <= i < |issued| ==> NodeOf(issued[i]) == node % NODES)
  }

  /** The last identifier was made at `ms` with a sequence number below `bound`. */
  ghost predicate LastMade(issued: seq<nat>, node: nat, ms: nat, bound: nat) {
    issued != [] ==> MadeBelow(issued[|issued| - 1], node, ms, bound)
  }

  ghost predicate MadeBelow(id: nat, node: nat, ms: nat, bound: nat) {
    exists count: nat :: count < bound && count < MAX_SEQUENCE && id == Packed(ms, node, count)
  }

  lemma AppendIncreasing(issued: seq<nat>, node: nat, id: nat)
    requires Increasing(issued, node) && NodeOf(id) == node % NODES
    requires issued != [] ==> issued[|issued| - 1] < id
    ensures Increasing(issued + [id], node)
  {
  }

  /** A later timestamp, or the next sequence number, gives a larger identifier. */
  lemma IssueKeeps(issued: seq<nat>, node: nat, ms: nat, bound: nat, ms': nat, count': nat)
    requires Increasing(issued, node) && LastMade(issued, node, ms, bound)
    requires ms <= ms' < TIMESTAMPS && count' < MAX_SEQUENCE && (ms == ms' ==> bound <= count')
    ensures Increasing(issued + [Packed(ms', node, count')], node)
    ensures LastMade(issued + [Packed(ms', node, count')], node, ms', count' + 1)
    ensures TimestampOf(Packed(ms', node, count')) == ms'
  {
    var id := Packed(ms', node, count');
    FieldsReadBack(ms', node, count');
    if issued != [] {
      IssueLarger(issued[|issued| - 1], node, ms, bound, ms', count');
    }
    AppendIncreasing(issued, node, id);
    assert MadeBelow(id, node, ms', count' + 1);
  }

  lemma IssueLarger(last: nat, node: nat, ms: nat, bound: nat, ms': nat, count': nat)
    requires MadeBelow(last, node, ms, bound)
    requires ms <= ms' < TIMESTAMPS && count' < MAX_SEQUENCE && (ms == ms' ==> bound <= count')
    ensures last < Packed(ms', node, count')
  {
    var count: nat :| count < bound && count < MAX_SEQUENCE && last == Packed(ms, node, count);
    PackedOrder(ms, count, ms', count', node);
  }

  /** The clock fits its field, and the counter cannot wrap during the call. */
  ghost predicate InRange(ticks: seq<nat>, sequence: nat) {
    && (forall t :: t in ticks ==> t < TIMESTAMPS)
    && sequence + |ticks| < TWO_TO_THE_32
  }

  /** `t` is the first clock reading later than `last`. */
  ghost predicate FirstLater(ticks: seq<nat>, last: nat, t: nat) {
    exists i :: 0 <= i < |ticks| && ticks[i] == t > last && forall j :: 0 <= j < i ==> ticks[j] <= last
  }

  ghost predicate AnyLater(ticks: seq<nat>, last: nat) {
    exists i :: 0 <= i < |ticks| && ticks[i] > last
  }

  class IdGenerator {
    var lastMs: nat
    var sequence: nat
    const nodeId: nat
    ghost var issued: seq<nat>

    /** Identifiers strictly increase, and the counter is past every sequence
        number used in the current millisecond. */
    ghost predicate Valid()
      reads this
    {
      && lastMs < TIMESTAMPS && sequence < TWO_TO_THE_32
      && Increasing(issued, nodeId)
      && LastMade(issued, nodeId, lastMs, sequence)
    }

    constructor (nodeId: nat)
      ensures Valid() && issued == [] && lastMs == 0 && sequence == 0 && this.nodeId == nodeId
    {
      lastMs, sequence, this.nodeId, issued := 0, 0, nodeId, [];
    }

    /** The timestamp and the sequence number of the next identifier: a clock that
        has advanced starts a new count, otherwise the next number is drawn at once,
        and when they are used up the call waits for the first later reading. */
    method Draw(ticks: seq<nat>) returns (drawn: Option<(nat, nat)>)
      requires ticks != [] && sequence < TWO_TO_THE_32
      modifies this`lastMs, this`sequence
      ensures ticks[0] > old(lastMs) ==> drawn == Some((ticks[0], 0)) && sequence == 1
      ensures ticks[0] <= old(lastMs) && old(sequence) < MAX_SEQUENCE ==>
        drawn == Some((old(lastMs), old(sequence))) && sequence == old(sequence) + 1
      ensures ticks[0] <= old(lastMs) && old(sequence) >= MAX_SEQUENCE && InRange(ticks, old(sequence)) ==>
        if drawn.Some? then FirstLater(ticks, old(lastMs), lastMs) && drawn.value.1 == 0 && sequence == 1
        else !AnyLater(ticks, old(lastMs)) && sequence == old(sequence) + |ticks|
      ensures drawn.None? ==>
        && old(sequence) >= MAX_SEQUENCE && lastMs == old(lastMs) && !AnyLater(ticks, lastMs)
      ensures drawn.Some? ==> drawn.value.0 == lastMs && drawn.value.1 < MAX_SEQUENCE
      ensures drawn.Some? && InRange(ticks, old(sequence)) ==>
        if lastMs == old(lastMs) then drawn.value.1 == old(sequence) else lastMs > old(lastMs) && lastMs in ticks
    {
      ghost var inRange := InRange(ticks, sequence);
      var nowMs := ticks[0];
      var prevMs := lastMs;
      var used := 1;
      while true
        invariant 1 <= used <= |ticks| && nowMs == ticks[used - 1]
        invariant prevMs == lastMs == old(lastMs)
        invariant forall i :: 0 <= i < used - 1 ==> ticks[i] <= lastMs
        invariant inRange ==> sequence == old(sequence) + used - 1
        invariant used == 1 ==> sequence == old(sequence)
        invariant used > 1 ==> old(sequence) >= MAX_SEQUENCE && ticks[0] <= lastMs
        decreases |ticks| - used
      {
        var count;
        if nowMs > prevMs {
          lastMs := nowMs;
          sequence := 1;
          count := 0;
          return Some((nowMs, count));
        }
        count := sequence;
        sequence := (sequence + 1) % TWO_TO_THE_32;
        if count < MAX_SEQUENCE {
          nowMs := prevMs;
          return Some((nowMs, count));
        }
        if used == |ticks| {
          return None;
        }
        nowMs := ticks[used];
        used := used + 1;
        prevMs := lastMs;
      }
    }

    /** One call. `ticks` are the clock readings it may make, in whatever order;
        when they run out, the call is still waiting for the next millisecond. */
    method Generate(ticks: seq<nat>) returns (id: Option<nat>)
      requires Valid() && ticks != []
      modifies this
      ensures InRange(ticks, old(sequence)) ==> Valid() && (id.Some? ==> TimestampOf(id.value) == lastMs)
      ensures issued == if id.Some? then old(issued) + [id.value] else old(issued)
      // A clock that has advanced starts a new count.
      ensures ticks[0] > old(lastMs) ==>
        id == Some(Packed(ticks[0], nodeId, 0)) && lastMs == ticks[0] && sequence == 1
      // Otherwise the next sequence number is drawn at once, while there are any.
      ensures ticks[0] <= old(lastMs) && old(sequence) < MAX_SEQUENCE ==>
        && id == Some(Packed(old(lastMs), nodeId, old(sequence)))
        && lastMs == old(lastMs) && sequence == old(sequence) + 1
      // When they are used up, the call waits for the first later reading.
      ensures ticks[0] <= old(lastMs) && old(sequence) >= MAX_SEQUENCE && InRange(ticks, old(sequence)) ==>
        if AnyLater(ticks, old(lastMs)) then
          id == Some(Packed(lastMs, nodeId, 0)) && FirstLater(ticks, old(lastMs), lastMs) && sequence == 1
        else
          id == None && lastMs == old(lastMs)
      ensures id.None? ==>
        && old(sequence) >= MAX_SEQUENCE && lastMs == old(lastMs) && !AnyLater(ticks, lastMs)
    {
      var drawn := Draw(ticks);
      if drawn.None? {
        return None;
      }
      var (ms, count) := drawn.value;
      id := Some(Packed(ms, nodeId, count));
      if InRange(ticks, old(sequence)) {
        IssueKeeps(issued, nodeId, old(lastMs), old(sequence), ms, count);
      }
      issued := issued + [id.value];
    }
  }
}
