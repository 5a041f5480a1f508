/** The channel as a concurrent protocol. Every atomic load, store, exchange or
    increment and every section under the lock is one step; threads interleave
    freely between steps. */
module Channel {
  import opened Basics

  datatype Call = Subscribe | Unsubscribe(id: nat) | Drain | Destroy | Publish

  /** Where a thread stands inside a call: before the named step. */
  datatype Pc =
    | Idle
    | SubscribeInsert
    | SubscribeCount
    | UnsubscribeErase(id: nat)
    | DrainCheckEmpty
    | DestroyExchange
    | DestroyClear
    | DestroyCleanup
    | PublishLoadDestroyed
    | PublishCheckLimit
    | PublishFetchAdd
    | PublishStage(seqNo: nat)

  datatype State = State(
    maxPending: nat,
    nextSeq: nat,
    nextSubId: nat,
    subscribers: set<nat>,
    draining: bool,
    destroyed: bool,
    staged: set<nat>,      // sequence numbers with data in the warehouse
    cleanups: nat,         // how often warehouse cleanup has run
    issued: nat,           // how many sequence numbers have been drawn
    returned: seq<nat>,    // non-zero results of finished publishes
    pcs: seq<Pc>)

  function Init(threads: nat, maxPending: nat): State {
    State(maxPending, 1, 1, {}, false, false, {}, 0, 0, [], seq(threads, _ => Idle))
  }

  /** The first step of a call: what happens when thread `t` makes it. */
  function Start(s: State, t: nat, call: Call): State
    requires t < |s.pcs|
  {
    match call
    case Subscribe => if s.destroyed then s else s.(pcs := s.pcs[t := SubscribeInsert])
    case Unsubscribe(id) => s.(pcs := s.pcs[t := UnsubscribeErase(id)])
    case Drain => s.(draining := true, pcs := s.pcs[t := DrainCheckEmpty])
    case Destroy => s.(pcs := s.pcs[t := DestroyExchange])
    case Publish => if s.draining then s else s.(pcs := s.pcs[t := PublishLoadDestroyed])
  }

  /** One step of thread `t`; an idle thread starts `call`. */
  function Step(s: State, t: nat, call: Call): State
    requires t < |s.pcs|
  {
    match s.pcs[t]
    case Idle => Start(s, t, call)
    case SubscribeInsert =>
      s.(subscribers := s.subscribers + {s.nextSubId}, nextSubId := s.nextSubId + 1,
         pcs := s.pcs[t := SubscribeCount])
    case SubscribeCount => s.(pcs := s.pcs[t := Idle])
    case UnsubscribeErase(id) =>
      var rest := s.subscribers - {id};
      s.(subscribers := rest,
         pcs := s.pcs[t := if rest == {} && s.draining then DestroyExchange else Idle])
    case DrainCheckEmpty => s.(pcs := s.pcs[t := if s.subscribers == {} then DestroyExchange else Idle])
    case DestroyExchange => s.(destroyed := true, pcs := s.pcs[t := if s.destroyed then Idle else DestroyClear])
    case DestroyClear => s.(subscribers := {}, pcs := s.pcs[t := DestroyCleanup])
    case DestroyCleanup => s.(staged := {}, cleanups := s.cleanups + 1, pcs := s.pcs[t := Idle])
    case PublishLoadDestroyed => s.(pcs := s.pcs[t := if s.destroyed then Idle else PublishCheckLimit])
    case PublishCheckLimit =>
      var full := s.maxPending > 0 && (s.nextSeq + TWO_TO_THE_64 - 1) % TWO_TO_THE_64 >= s.maxPending;
      s.(pcs := s.pcs[t := if full then Idle else PublishFetchAdd])
    case PublishFetchAdd =>
      s.(nextSeq := Add64(s.nextSeq, 1), issued := s.issued + 1, pcs := s.pcs[t := PublishStage(s.nextSeq)])
    case PublishStage(seqNo) =>
      s.(staged := s.staged + {seqNo}, returned := s.returned + [seqNo], pcs := s.pcs[t := Idle])
  }

  /** A schedule names, for each step, the thread that runs and the call it makes
      if it is idle. */
  type Schedule = seq<(nat, Call)>

  predicate ValidSchedule(schedule: Schedule, threads: nat) {
    forall i :: 0 <= i < |schedule| ==> schedule[i].0 < threads
  }

  function Run(s: State, schedule: Schedule): (end: State)
    requires ValidSchedule(schedule, |s.pcs|)
    ensures |end.pcs| == |s.pcs| && end.maxPending == s.maxPending
    decreases |schedule|
  {
    if schedule == [] then s else Run(Step(s, schedule[0].0, schedule[0].1), schedule[1..])
  }

  predicate Quiescent(s: State) {
    forall t :: 0 <= t < |s.pcs| ==> s.pcs[t] == Idle
  }

  // ---------------------------------------------------------------------------
  // Counting threads
  // ---------------------------------------------------------------------------

  datatype Phase = Cleaning | Drawing | Entered | Checked | Late

  predicate InPhase(pc: Pc, phase: Phase) {
    match phase
    case Cleaning => pc == DestroyClear || pc == DestroyCleanup
    case Drawing => pc == PublishFetchAdd
    case Entered => pc == PublishLoadDestroyed || pc == PublishCheckLimit || pc == PublishFetchAdd
    case Checked => pc == PublishCheckLimit || pc == PublishFetchAdd
    case Late => pc == PublishCheckLimit || pc == PublishFetchAdd || pc.PublishStage?
  }

  function CountIn(pcs: seq<Pc>, phase: Phase): (n: nat)
    ensures n <= |pcs|
  {
    if pcs == [] then 0 else CountIn(pcs[1..], phase) + if InPhase(pcs[0], phase) then 1 else 0
  }

  lemma {:induction false} CountMoved(pcs: seq<Pc>, t: nat, pc: Pc, phase: Phase)
    requires t < |pcs|
    ensures CountIn(pcs[t := pc], phase) + (if InPhase(pcs[t], phase) then 1 else 0)
         == CountIn(pcs, phase) + (if InPhase(pc, phase) then 1 else 0)
  {
    if t == 0 {
      assert pcs[0 := pc][1..] == pcs[1..];
    } else {
      assert pcs[t := pc][1..] == pcs[1..][t - 1 := pc];
      CountMoved(pcs[1..], t - 1, pc, phase);
    }
  }

  lemma {:induction false} CountZero(pcs: seq<Pc>, phase: Phase)
    requires forall t :: 0 <= t < |pcs| ==> !InPhase(pcs[t], phase)
    ensures CountIn(pcs, phase) == 0
  {
    if pcs != [] {
      CountZero(pcs[1..], phase);
    }
  }

  lemma CountPositive(pcs: seq<Pc>, t: nat, phase: Phase)
    requires t < |pcs| && InPhase(pcs[t], phase)
    ensures CountIn(pcs, phase) > 0
  {
    CountMoved(pcs, t, Idle, phase);
  }

  // ---------------------------------------------------------------------------
  // The drain handshake
  // ---------------------------------------------------------------------------

  /** Some thread is about to find the channel empty or to destroy it. */
  ghost predicate DestroyerUnderWay(s: State) {
    exists t :: 0 <= t < |s.pcs| && (s.pcs[t] == DrainCheckEmpty || s.pcs[t] == DestroyExchange)
  }

  ghost predicate DrainInv(s: State) {
    && (s.draining && s.subscribers == {} && !s.destroyed ==> DestroyerUnderWay(s))
    && s.cleanups + CountIn(s.pcs, Cleaning) == if s.destroyed then 1 else 0
  }

  lemma OnlyOneMoves(s: State, t: nat, call: Call)
    requires t < |s.pcs|
    ensures var next := Step(s, t, call); next.pcs == s.pcs[t := next.pcs[t]]
  {
  }

  lemma DrainStepCount(s: State, t: nat, call: Call)
    requires t < |s.pcs| && DrainInv(s)
    ensures var next := Step(s, t, call);
      next.cleanups + CountIn(next.pcs, Cleaning) == if next.destroyed then 1 else 0
  {
    var next := Step(s, t, call);
    OnlyOneMoves(s, t, call);
    CountMoved(s.pcs, t, next.pcs[t], Cleaning);
  }

  lemma DrainStep(s: State, t: nat, call: Call)
    requires t < |s.pcs| && DrainInv(s)
    ensures DrainInv(Step(s, t, call))
  {
    var next := Step(s, t, call);
    DrainStepCount(s, t, call);
    if InPhase(s.pcs[t], Cleaning) {
      CountPositive(s.pcs, t, Cleaning);
    } else if next.draining && next.subscribers == {} && !next.destroyed {
      if next.pcs[t] != DrainCheckEmpty && next.pcs[t] != DestroyExchange {
        var u :| 0 <= u < |s.pcs| && (s.pcs[u] == DrainCheckEmpty || s.pcs[u] == DestroyExchange);
        assert next.pcs[u] == s.pcs[u];
      }
    }
  }

  lemma {:induction false} DrainRun(s: State, schedule: Schedule)
    requires ValidSchedule(schedule, |s.pcs|) && DrainInv(s)
    ensures DrainInv(Run(s, schedule))
    decreases |schedule|
  {
    if schedule != [] {
      DrainStep(s, schedule[0].0, schedule[0].1);
      DrainRun(Step(s, schedule[0].0, schedule[0].1), schedule[1..]);
    }
  }

  /** Drain handshake. In every interleaving, warehouse cleanup never runs twice
      and only for a destroyed channel; and once all threads are idle, a draining
      channel without subscribers is destroyed, and cleanup has run exactly once
      if the channel is destroyed and never otherwise. */
  lemma DrainHandshake(threads: nat, maxPending: nat, schedule: Schedule)
    requires ValidSchedule(schedule, threads)
    ensures var s := Run(Init(threads, maxPending), schedule);
      && s.cleanups <= (if s.destroyed then 1 else 0)
      && (Quiescent(s) ==>
            && (s.draining && s.subscribers == {} ==> s.destroyed)
            && s.cleanups == if s.destroyed then 1 else 0)
  {
    var init := Init(threads, maxPending);
    CountZero(init.pcs, Cleaning);
    DrainRun(init, schedule);
    var s := Run(init, schedule);
    if Quiescent(s) {
      CountZero(s.pcs, Cleaning);
    }
  }

  // ---------------------------------------------------------------------------
  // Subscribers
  // ---------------------------------------------------------------------------

  ghost predicate SubscribersInv(s: State) {
    forall id :: id in s.subscribers ==> id < s.nextSubId
  }

  lemma {:induction false} SubscribersRun(s: State, schedule: Schedule)
    requires ValidSchedule(schedule, |s.pcs|) && SubscribersInv(s)
    ensures SubscribersInv(Run(s, schedule))
    decreases |schedule|
  {
    if schedule != [] {
      SubscribersRun(Step(s, schedule[0].0, schedule[0].1), schedule[1..]);
    }
  }

  /** In every interleaving a subscriber gets an id that no other one has, and its
      unsubscription removes this one alone. */
  lemma SubscriberIds(threads: nat, maxPending: nat, schedule: Schedule, t: nat, call: Call)
    requires ValidSchedule(schedule, threads) && t < threads
    ensures var s := Run(Init(threads, maxPending), schedule);
      var next := Step(s, t, call);
      && (s.pcs[t] == SubscribeInsert ==> exists id :: id !in s.subscribers && next.subscribers == s.subscribers + {id})
      && (s.pcs[t].UnsubscribeErase? ==> next.subscribers == s.subscribers - {s.pcs[t].id})
      && (next.subscribers == s.subscribers || s.pcs[t] == SubscribeInsert || s.pcs[t].UnsubscribeErase?
          || s.pcs[t] == DestroyClear)
  {
    var s := Run(Init(threads, maxPending), schedule);
    SubscribersRun(Init(threads, maxPending), schedule);
    assert s.nextSubId !in s.subscribers;
  }

  // ---------------------------------------------------------------------------
  // Backpressure
  // ---------------------------------------------------------------------------

  /** The sequence numbers that are drawn but whose publish has not returned. */
  predicate Holds(s: State, t: nat, seqNo: nat) {
    t < |s.pcs| && s.pcs[t] == PublishStage(seqNo)
  }

  ghost predicate Limited(s: State) {
    s.maxPending > 0 && s.maxPending + |s.pcs| < TWO_TO_THE_64
  }

  /** Drawn numbers, and threads about to draw one, stay within the bound. */
  ghost predicate DrawInv(s: State) {
    && s.nextSeq == s.issued + 1
    && (|s.pcs| > 0 ==> s.issued + CountIn(s.pcs, Drawing) <= s.maxPending + |s.pcs| - 1)
    && (|s.pcs| == 0 ==> s.issued == 0)
  }

  /** Numbers that were returned or are about to be are all different. */
  ghost predicate ReturnInv(s: State) {
    && Distinct(s.returned)
    && (forall q :: q in s.returned ==> 0 < q < s.nextSeq)
    && (forall t: nat, q: nat :: Holds(s, t, q) ==> 0 < q < s.nextSeq && q !in s.returned)
    && (forall t: nat, u: nat, q: nat :: Holds(s, t, q) && Holds(s, u, q) ==> t == u)
  }

  ghost predicate PublishInv(s: State) {
    DrawInv(s) && ReturnInv(s)
  }

  lemma DrawStepOther(s: State, t: nat, call: Call)
    requires t < |s.pcs| && s.pcs[t] != PublishFetchAdd && s.pcs[t] != PublishCheckLimit
    ensures var next := Step(s, t, call);
      next.nextSeq == s.nextSeq && next.issued == s.issued && !InPhase(next.pcs[t], Drawing)
  {
  }

  lemma DrawStep(s: State, t: nat, call: Call)
    requires t < |s.pcs| && Limited(s) && DrawInv(s)
    ensures DrawInv(Step(s, t, call))
  {
    var next := Step(s, t, call);
    OnlyOneMoves(s, t, call);
    CountMoved(s.pcs, t, next.pcs[t], Drawing);
    if s.pcs[t] != PublishFetchAdd && s.pcs[t] != PublishCheckLimit {
      DrawStepOther(s, t, call);
    }
  }

  /** A thread that draws a number holds one that nobody else has. */
  lemma ReturnStepDraw(s: State, next: State, t: nat)
    requires t < |s.pcs| && ReturnInv(s) && s.nextSeq > 0
    requires next.nextSeq == s.nextSeq + 1 && next.returned == s.returned
    requires next.pcs == s.pcs[t := PublishStage(s.nextSeq)]
    ensures ReturnInv(next)
  {
    assert forall u: nat, q: nat :: u != t ==> (Holds(next, u, q) <==> Holds(s, u, q));
  }

  /** A thread that returns its number does not hold it any more. */
  lemma ReturnStepDone(s: State, next: State, t: nat, seqNo: nat)
    requires ReturnInv(s) && Holds(s, t, seqNo)
    requires next.nextSeq == s.nextSeq && next.returned == s.returned + [seqNo]
    requires next.pcs == s.pcs[t := Idle]
    ensures ReturnInv(next)
  {
    assert forall u: nat, q: nat :: Holds(next, u, q) <==> u != t && Holds(s, u, q);
  }

  lemma ReturnStepOther(s: State, next: State, t: nat)
    requires t < |s.pcs| && ReturnInv(s) && !s.pcs[t].PublishStage?
    requires next.nextSeq == s.nextSeq && next.returned == s.returned
    requires |next.pcs| == |s.pcs| && next.pcs == s.pcs[t := next.pcs[t]] && !next.pcs[t].PublishStage?
    ensures ReturnInv(next)
  {
    assert forall u: nat, q: nat :: Holds(next, u, q) <==> Holds(s, u, q);
  }

  lemma ReturnStep(s: State, t: nat, call: Call)
    requires t < |s.pcs| && Limited(s) && PublishInv(s)
    ensures ReturnInv(Step(s, t, call))
  {
    var next := Step(s, t, call);
    OnlyOneMoves(s, t, call);
    DrawStep(s, t, call);
    match s.pcs[t]
    case PublishFetchAdd => ReturnStepDraw(s, next, t);
    case PublishStage(seqNo) =>
      assert Holds(s, t, seqNo);
      ReturnStepDone(s, next, t, seqNo);
    case _ => ReturnStepOther(s, next, t);
  }

  lemma PublishStep(s: State, t: nat, call: Call)
    requires t < |s.pcs| && Limited(s) && PublishInv(s)
    ensures PublishInv(Step(s, t, call))
  {
    DrawStep(s, t, call);
    ReturnStep(s, t, call);
  }

  lemma {:induction false} PublishRun(s: State, schedule: Schedule)
    requires ValidSchedule(schedule, |s.pcs|) && Limited(s) && PublishInv(s)
    ensures PublishInv(Run(s, schedule))
    decreases |schedule|
  {
    if schedule != [] {
      PublishStep(s, schedule[0].0, schedule[0].1);
      PublishRun(Step(s, schedule[0].0, schedule[0].1), schedule[1..]);
    }
  }

  /** Backpressure. With a positive limit and `threads` publishers, whatever the
      interleaving of their checks and increments, at most
      `maxPending + threads - 1` sequence numbers are ever drawn, and no two
      publishes return the same one. */
  lemma Backpressure(threads: nat, maxPending: nat, schedule: Schedule)
    requires maxPending > 0 && threads > 0 && maxPending + threads < TWO_TO_THE_64
    requires ValidSchedule(schedule, threads)
    ensures var s := Run(Init(threads, maxPending), schedule);
      && s.issued <= maxPending + threads - 1
      && Distinct(s.returned)
      && forall q :: q in s.returned ==> 0 < q <= s.issued
  {
    var init := Init(threads, maxPending);
    CountZero(init.pcs, Drawing);
    PublishRun(init, schedule);
  }

  // ---------------------------------------------------------------------------
  // Publishing into a draining or destroyed channel
  // ---------------------------------------------------------------------------

  lemma EnteredStep(s: State, t: nat, call: Call)
    requires t < |s.pcs| && s.draining
    ensures var next := Step(s, t, call);
      next.draining && next.issued + CountIn(next.pcs, Entered) <= s.issued + CountIn(s.pcs, Entered)
  {
    OnlyOneMoves(s, t, call);
    CountMoved(s.pcs, t, Step(s, t, call).pcs[t], Entered);
  }

  /** Once the channel is draining, only publishes that were already past the check
      of the draining flag draw a number, at most one each. */
  lemma {:induction false} DrainingRefuses(s: State, schedule: Schedule)
    requires ValidSchedule(schedule, |s.pcs|) && s.draining
    ensures var end := Run(s, schedule);
      end.draining && end.issued + CountIn(end.pcs, Entered) <= s.issued + CountIn(s.pcs, Entered)
    decreases |schedule|
  {
    if schedule != [] {
      EnteredStep(s, schedule[0].0, schedule[0].1);
      DrainingRefuses(Step(s, schedule[0].0, schedule[0].1), schedule[1..]);
    }
  }

  lemma LateStep(s: State, t: nat, call: Call)
    requires t < |s.pcs| && s.destroyed
    ensures var next := Step(s, t, call);
      next.destroyed && |next.staged| + CountIn(next.pcs, Late) <= |s.staged| + CountIn(s.pcs, Late)
  {
    OnlyOneMoves(s, t, call);
    CountMoved(s.pcs, t, Step(s, t, call).pcs[t], Late);
  }

  /** Once the channel is destroyed, only publishes that were already past the check
      of the destroyed flag stage data, at most once each. */
  lemma {:induction false} DestroyedRefuses(s: State, schedule: Schedule)
    requires ValidSchedule(schedule, |s.pcs|) && s.destroyed
    ensures var end := Run(s, schedule);
      end.destroyed && |end.staged| + CountIn(end.pcs, Late) <= |s.staged| + CountIn(s.pcs, Late)
    decreases |schedule|
  {
    if schedule != [] {
      LateStep(s, schedule[0].0, schedule[0].1);
      DestroyedRefuses(Step(s, schedule[0].0, schedule[0].1), schedule[1..]);
    }
  }

  ghost predicate HeldBySome(s: State, seqNo: nat) {
    exists t: nat :: Holds(s, t, seqNo)
  }

  lemma LateNumberStep(s: State, t: nat, call: Call)
    requires t < |s.pcs| && s.destroyed && s.nextSeq + CountIn(s.pcs, Checked) < TWO_TO_THE_64
    ensures var next := Step(s, t, call);
      && s.nextSeq <= next.nextSeq && next.nextSeq + CountIn(next.pcs, Checked) < TWO_TO_THE_64
      && (forall q :: q in next.staged ==> q in s.staged || HeldBySome(s, q))
      && (forall q: nat :: HeldBySome(next, q) ==> HeldBySome(s, q) || q >= s.nextSeq)
  {
    var next := Step(s, t, call);
    OnlyOneMoves(s, t, call);
    CountMoved(s.pcs, t, next.pcs[t], Checked);
    if s.pcs[t].PublishStage? {
      assert Holds(s, t, s.pcs[t].seqNo);
    }
    if s.pcs[t] == PublishFetchAdd {
      CountPositive(s.pcs, t, Checked);
    }
    forall q: nat | HeldBySome(next, q)
      ensures HeldBySome(s, q) || q >= s.nextSeq
    {
      var u: nat :| Holds(next, u, q);
      assert u != t ==> Holds(s, u, q);
    }
  }

  /** What is staged after the channel is destroyed are numbers that some publish had
      drawn before, or draws from then on, and those that were staged already. */
  lemma {:induction false} LateNumbers(s: State, schedule: Schedule)
    requires ValidSchedule(schedule, |s.pcs|) && s.destroyed
    requires s.nextSeq + CountIn(s.pcs, Checked) < TWO_TO_THE_64
    ensures forall q :: q in Run(s, schedule).staged ==> q in s.staged || HeldBySome(s, q) || q >= s.nextSeq
    decreases |schedule|
  {
    if schedule != [] {
      LateNumberStep(s, schedule[0].0, schedule[0].1);
      LateNumbers(Step(s, schedule[0].0, schedule[0].1), schedule[1..]);
    }
  }

  lemma CleaningMeansDestroyed(s: State, t: nat)
    requires t < |s.pcs| && DrainInv(s) && s.pcs[t] == DestroyCleanup
    ensures s.destroyed
  {
    CountPositive(s.pcs, t, Cleaning);
  }

  /** Cleanup empties the warehouse, and afterwards there is never more in it than
      there were publishes past the destroyed check when it ran; with none of those
      it stays empty. */
  lemma StagedAfterCleanup(
      threads: nat, maxPending: nat, before: Schedule, t: nat, call: Call, after: Schedule)
    requires ValidSchedule(before, threads) && ValidSchedule(after, threads) && t < threads
    requires Run(Init(threads, maxPending), before).pcs[t] == DestroyCleanup
    ensures var s := Run(Init(threads, maxPending), before);
      |Run(Step(s, t, call), after).staged| <= CountIn(s.pcs, Late)
  {
    var init := Init(threads, maxPending);
    CountZero(init.pcs, Cleaning);
    DrainRun(init, before);
    var s := Run(init, before);
    CleaningMeansDestroyed(s, t);
    CountMoved(s.pcs, t, Idle, Late);
    DestroyedRefuses(Step(s, t, call), after);
  }

  /** Until cleanup runs, exactly the data of the finished publishes is staged. */
  ghost predicate StagedInv(s: State) {
    s.cleanups == 0 ==> forall q :: q in s.staged <==> q in s.returned
  }

  lemma {:induction false} StagedBeforeCleanup(s: State, schedule: Schedule)
    requires ValidSchedule(schedule, |s.pcs|) && StagedInv(s)
    ensures StagedInv(Run(s, schedule))
    decreases |schedule|
  {
    if schedule != [] {
      StagedBeforeCleanup(Step(s, schedule[0].0, schedule[0].1), schedule[1..]);
    }
  }

  lemma {:induction false} RunConcat(s: State, a: Schedule, b: Schedule)
    requires ValidSchedule(a, |s.pcs|) && ValidSchedule(b, |s.pcs|)
    ensures ValidSchedule(a + b, |s.pcs|)
    ensures Run(s, a + b) == Run(Run(s, a), b)
    decreases |a|
  {
    if a == [] {
      assert a + b == b;
    } else {
      assert (a + b)[1..] == a[1..] + b;
      RunConcat(Step(s, a[0].0, a[0].1), a[1..], b);
    }
  }

  /** One thread makes these steps on its own. */
  function Alone(t: nat, call: Call, n: nat): (schedule: Schedule)
    ensures |schedule| == n && forall i :: 0 <= i < n ==> schedule[i] == (t, call)
  {
    seq(n, _ => (t, call))
  }

  lemma RunFirst(s: State, t: nat, call: Call, n: nat)
    requires t < |s.pcs| && n > 0
    ensures Run(s, Alone(t, call, n)) == Run(Step(s, t, call), Alone(t, call, n - 1))
  {
    assert Alone(t, call, n)[1..] == Alone(t, call, n - 1);
  }

  /** Thread 0 draws a number, and stops before it stages its data. */
  lemma DrawsFirst(maxPending: nat)
    ensures Run(Init(2, maxPending), Alone(0, Publish, 4))
         == Init(2, maxPending).(nextSeq := 2, issued := 1, pcs := [PublishStage(1), Idle])
  {
    var init := Init(2, maxPending);
    var s1 := init.(pcs := [PublishLoadDestroyed, Idle]);
    var s2 := init.(pcs := [PublishCheckLimit, Idle]);
    var s3 := init.(pcs := [PublishFetchAdd, Idle]);
    assert (1 + TWO_TO_THE_64 - 1) % TWO_TO_THE_64 == 0;
    assert Step(init, 0, Publish) == s1 && Step(s1, 0, Publish) == s2 && Step(s2, 0, Publish) == s3;
    RunFirst(init, 0, Publish, 4);
    RunFirst(s1, 0, Publish, 3);
    RunFirst(s2, 0, Publish, 2);
    RunFirst(s3, 0, Publish, 1);
  }

  /** Thread 1 drains, destroys and cleans up in the meantime. */
  lemma DrainsMeanwhile(s: State)
    requires s.pcs == [PublishStage(1), Idle] && s.subscribers == {} && s.staged == {} && !s.destroyed
    ensures Run(s, Alone(1, Drain, 5)) == s.(draining := true, destroyed := true, cleanups := s.cleanups + 1)
  {
    var s1 := s.(draining := true, pcs := [PublishStage(1), DrainCheckEmpty]);
    var s2 := s1.(pcs := [PublishStage(1), DestroyExchange]);
    var s3 := s1.(destroyed := true, pcs := [PublishStage(1), DestroyClear]);
    var s4 := s3.(pcs := [PublishStage(1), DestroyCleanup]);
    assert Step(s, 1, Drain) == s1 && Step(s1, 1, Drain) == s2;
    assert Step(s2, 1, Drain) == s3 && Step(s3, 1, Drain) == s4;
    RunFirst(s, 1, Drain, 5);
    RunFirst(s1, 1, Drain, 4);
    RunFirst(s2, 1, Drain, 3);
    RunFirst(s3, 1, Drain, 2);
    RunFirst(s4, 1, Drain, 1);
  }

  lemma StagesLast(s: State)
    requires s.pcs == [PublishStage(1), Idle] && s.staged == {}
    ensures Run(s, Alone(0, Publish, 1)) == s.(staged := {1}, returned := s.returned + [1], pcs := [Idle, Idle])
  {
    RunFirst(s, 0, Publish, 1);
  }

  /** A publish that has drawn its number before the channel is drained stages its
      data after cleanup, where nobody removes it. */
  lemma LeftBehind(maxPending: nat) returns (schedule: Schedule)
    ensures ValidSchedule(schedule, 2)
    ensures var s := Run(Init(2, maxPending), schedule);
      Quiescent(s) && s.destroyed && s.cleanups == 1 && s.staged == {1}
  {
    var init := Init(2, maxPending);
    var first, second, third := Alone(0, Publish, 4), Alone(1, Drain, 5), Alone(0, Publish, 1);
    DrawsFirst(maxPending);
    DrainsMeanwhile(Run(init, first));
    RunConcat(init, first, second);
    StagesLast(Run(init, first + second));
    RunConcat(init, first + second, third);
    schedule := first + second + third;
  }

  // ---------------------------------------------------------------------------
  // The bound is attained
  // ---------------------------------------------------------------------------

  /** All threads idle, nobody draining, and `n` numbers drawn. */
  predicate Open(s: State, n: nat) {
    !s.draining && !s.destroyed && s.issued == n && s.nextSeq == n + 1
  }

  /** Thread 0 publishes alone. */
  lemma PublishAlone(s: State, n: nat) returns (schedule: Schedule)
    requires Open(s, n) && Quiescent(s) && |s.pcs| > 0 && n < s.maxPending < TWO_TO_THE_64 - 1
    ensures ValidSchedule(schedule, |s.pcs|)
    ensures Open(Run(s, schedule), n + 1) && Quiescent(Run(s, schedule))
  {
    var once: Schedule := [(0, Publish)];
    var s1 := Step(s, 0, Publish);
    var s2 := Step(s1, 0, Publish);
    var s3 := Step(s2, 0, Publish);
    var s4 := Step(s3, 0, Publish);
    var s5 := Step(s4, 0, Publish);
    assert (n + 1 + TWO_TO_THE_64 - 1) % TWO_TO_THE_64 == n;
    schedule := [(0, Publish), (0, Publish), (0, Publish), (0, Publish), (0, Publish)];
    assert Run(s, schedule) == Run(s1, schedule[1..]);
    assert schedule[1..][1..] == schedule[2..] && Run(s1, schedule[1..]) == Run(s2, schedule[2..]);
    assert schedule[2..][1..] == schedule[3..] && Run(s2, schedule[2..]) == Run(s3, schedule[3..]);
    assert schedule[3..][1..] == schedule[4..] && Run(s3, schedule[3..]) == Run(s4, schedule[4..]);
    assert schedule[4..][1..] == [] && Run(s4, schedule[4..]) == Run(s5, []);
  }

  lemma {:induction false} PublishMany(threads: nat, maxPending: nat, n: nat) returns (schedule: Schedule)
    requires threads > 0 && n <= maxPending < TWO_TO_THE_64 - 1
    ensures ValidSchedule(schedule, threads)
    ensures var s := Run(Init(threads, maxPending), schedule); Open(s, n) && Quiescent(s)
  {
    if n == 0 {
      schedule := [];
    } else {
      var before := PublishMany(threads, maxPending, n - 1);
      var last := PublishAlone(Run(Init(threads, maxPending), before), n - 1);
      RunConcat(Init(threads, maxPending), before, last);
      schedule := before + last;
    }
  }

  /** Threads below `t` have passed the limit check, the others are idle. */
  predicate Passed(s: State, t: nat) {
    && t <= |s.pcs|
    && (forall u :: 0 <= u < t ==> s.pcs[u] == PublishFetchAdd)
    && (forall u :: t <= u < |s.pcs| ==> s.pcs[u] == Idle)
  }

  /** Thread `t` passes the limit check while there is room for one more. */
  lemma PassOne(s: State, n: nat, t: nat) returns (schedule: Schedule)
    requires Open(s, n) && Passed(s, t) && t < |s.pcs| && n < s.maxPending < TWO_TO_THE_64
    ensures ValidSchedule(schedule, |s.pcs|)
    ensures Open(Run(s, schedule), n) && Passed(Run(s, schedule), t + 1)
  {
    var s1 := Step(s, t, Publish);
    var s2 := Step(s1, t, Publish);
    var s3 := Step(s2, t, Publish);
    assert (n + 1 + TWO_TO_THE_64 - 1) % TWO_TO_THE_64 == n;
    schedule := [(t, Publish), (t, Publish), (t, Publish)];
    assert Run(s, schedule) == Run(s1, schedule[1..]);
    assert schedule[1..][1..] == schedule[2..] && Run(s1, schedule[1..]) == Run(s2, schedule[2..]);
    assert schedule[2..][1..] == [] && Run(s2, schedule[2..]) == Run(s3, []);
  }

  lemma {:induction false} PassAll(s: State, n: nat, t: nat) returns (schedule: Schedule)
    requires Open(s, n) && Passed(s, 0) && t <= |s.pcs| && n < s.maxPending < TWO_TO_THE_64
    ensures ValidSchedule(schedule, |s.pcs|)
    ensures Open(Run(s, schedule), n) && Passed(Run(s, schedule), t)
  {
    if t == 0 {
      schedule := [];
    } else {
      var before := PassAll(s, n, t - 1);
      var last := PassOne(Run(s, before), n, t - 1);
      RunConcat(s, before, last);
      schedule := before + last;
    }
  }

  /** The first `t` threads, past the check, all draw their number. */
  lemma {:induction false} DrawAll(s: State, n: nat, t: nat) returns (schedule: Schedule)
    requires Open(s, n) && t <= |s.pcs| && n + t + 1 < TWO_TO_THE_64
    requires forall u :: 0 <= u < |s.pcs| ==> s.pcs[u] == PublishFetchAdd
    ensures ValidSchedule(schedule, |s.pcs|)
    ensures Open(Run(s, schedule), n + t)
    ensures forall u :: t <= u < |s.pcs| ==> Run(s, schedule).pcs[u] == PublishFetchAdd
  {
    if t == 0 {
      schedule := [];
    } else {
      var before := DrawAll(s, n, t - 1);
      var last: Schedule := [(t - 1, Publish)];
      RunConcat(s, before, last);
      assert last[1..] == [];
      schedule := before + last;
    }
  }

  /** The bound of `Backpressure` is attained: some interleaving draws exactly
      `maxPending + threads - 1` numbers, `threads - 1` over the limit. */
  lemma BackpressureTight(threads: nat, maxPending: nat) returns (schedule: Schedule)
    requires maxPending > 0 && threads > 0 && maxPending + threads < TWO_TO_THE_64
    ensures ValidSchedule(schedule, threads)
    ensures Run(Init(threads, maxPending), schedule).issued == maxPending + threads - 1
  {
    var init := Init(threads, maxPending);
    var fill := PublishMany(threads, maxPending, maxPending - 1);
    var filled := Run(init, fill);
    var pass := PassAll(filled, maxPending - 1, threads);
    RunConcat(init, fill, pass);
    var draw := DrawAll(Run(filled, pass), maxPending - 1, threads);
    RunConcat(init, fill + pass, draw);
    schedule := (fill + pass) + draw;
  }
}
