/** Elastic scaling: the decision engine and the orchestrator that acts on it. */
module Elastic {
  import opened Basics
  import opened WorkerManager

  // ---------------------------------------------------------------------------
  // The decision
  // ---------------------------------------------------------------------------

  datatype Decision = Nothing | Commission | Decommission(target: int) | Resume(target: int)

  datatype Snapshot = Snapshot(
    pressureCount: int, pressureThreshold: int,
    currentWorkers: int, minWorkers: int, maxWorkers: int,
    idle: seq<int>, suspended: seq<int>,
    lastCommission: int, cooldown: int,
    energyBudget: real, currentEnergy: real)

  /** Queue pressure has lasted, there is room, and the cooldown is over. */
  predicate MayScaleUp(s: Snapshot, now: int) {
    && s.pressureCount >= s.pressureThreshold
    && s.currentWorkers < s.maxWorkers
    && now - s.lastCommission > s.cooldown
  }

  predicate OverBudget(s: Snapshot) {
    s.energyBudget > 0.0 && s.currentEnergy >= s.energyBudget
  }

  /** The queue is quiet and there are workers to spare. */
  predicate MayScaleDown(s: Snapshot) {
    s.pressureCount == 0 && s.currentWorkers > s.minWorkers
  }

  /** Nothing grows while the energy budget is exceeded, a suspended worker is
      preferred to a new container, and only an exceeded budget may take the
      count of workers below the minimum. */
  function Evaluate(s: Snapshot, now: int): (d: Decision)
    ensures d.Commission? || d.Resume? <==> MayScaleUp(s, now) && !OverBudget(s)
    ensures d.Commission? ==> s.suspended == []
    ensures d.Resume? ==> s.suspended != [] && d.target == s.suspended[0]
    ensures d.Decommission? <==>
      s.idle != [] && (OverBudget(s) || (!MayScaleUp(s, now) && MayScaleDown(s)))
    ensures d.Decommission? ==> d.target == s.idle[0]
  {
    if s.energyBudget > 0.0 && s.currentEnergy >= s.energyBudget then
      if s.idle != [] then Decommission(s.idle[0]) else Nothing
    else if s.pressureCount >= s.pressureThreshold && s.currentWorkers < s.maxWorkers
         && now - s.lastCommission > s.cooldown then
      if s.suspended != [] then Resume(s.suspended[0]) else Commission
    else if s.idle != [] && s.currentWorkers > s.minWorkers && s.pressureCount == 0 then
      Decommission(s.idle[0])
    else Nothing
  }

  // ---------------------------------------------------------------------------
  // Histories
  // ---------------------------------------------------------------------------

  /** What happened so far: queue reports, and commissions with their time. */
  datatype Event = Report(full: bool) | Commissioned(at: int)

  /** The number of full reports since the last other event. */
  function TrailingFull(log: seq<Event>): nat {
    if log != [] && log[|log| - 1] == Report(true) then 1 + TrailingFull(log[..|log| - 1]) else 0
  }

  lemma {:induction false} TrailingFullMeans(log: seq<Event>, n: nat)
    requires n <= TrailingFull(log)
    ensures n <= |log| && forall j :: |log| - n <= j < |log| ==> log[j] == Report(true)
  {
    if n > 0 {
      TrailingFullMeans(log[..|log| - 1], n - 1);
    }
  }

  /** The `threshold` events before position `j` are all full reports. */
  ghost predicate UnderPressure(log: seq<Event>, j: nat, threshold: int)
    requires j <= |log|
  {
    threshold > 0 ==> threshold <= j && forall m :: j - threshold <= m < j ==> log[m] == Report(true)
  }

  /** Commissions happen under pressure, and any two are more than the cooldown
      and at least `threshold` full reports apart. */
  ghost predicate Spaced(log: seq<Event>, cooldown: int, threshold: int) {
    && (forall j :: 0 <= j < |log| && log[j].Commissioned? ==> UnderPressure(log, j, threshold))
    && (forall i, j :: 0 <= i < j < |log| && log[i].Commissioned? && log[j].Commissioned? ==>
          log[j].at - log[i].at > cooldown && (threshold > 0 ==> j - i > threshold))
  }

  /** No commission is later than `last`. */
  ghost predicate CommissionedBy(log: seq<Event>, last: int) {
    forall i :: 0 <= i < |log| && log[i].Commissioned? ==> log[i].at <= last
  }

  lemma ReportSpaced(log: seq<Event>, full: bool, cooldown: int, threshold: int)
    requires Spaced(log, cooldown, threshold)
    ensures Spaced(log + [Report(full)], cooldown, threshold)
  {
    var longer := log + [Report(full)];
    forall j | 0 <= j < |longer| && longer[j].Commissioned?
      ensures UnderPressure(longer, j, threshold)
    {
      assert UnderPressure(log, j, threshold);
    }
  }

  /** A commission after enough trailing full reports, and after the cooldown,
      keeps the history spaced. */
  lemma CommissionSpaced(log: seq<Event>, at: int, last: int, cooldown: int, threshold: int)
    requires Spaced(log, cooldown, threshold) && CommissionedBy(log, last)
    requires TrailingFull(log) >= threshold && at - last > cooldown
    ensures Spaced(log + [Commissioned(at)], cooldown, threshold)
  {
    var longer := log + [Commissioned(at)];
    if threshold > 0 {
      TrailingFullMeans(log, threshold);
      assert forall m :: |log| - threshold <= m < |log| ==> !log[m].Commissioned?;
    }
    forall j | 0 <= j < |longer| && longer[j].Commissioned?
      ensures UnderPressure(longer, j, threshold)
    {
      if j < |log| {
        assert UnderPressure(log, j, threshold);
      }
    }
    forall i, j | 0 <= i < j < |longer| && longer[i].Commissioned? && longer[j].Commissioned?
      ensures longer[j].at - longer[i].at > cooldown && (threshold > 0 ==> j - i > threshold)
    {
    }
  }

  // ---------------------------------------------------------------------------
  // Containers
  // ---------------------------------------------------------------------------

  /** The container runtime. Calls may fail; container ids are always fresh. */
  class Runtime {
    var created: set<nat>
    var stopRequests: multiset<nat>
    var nextContainer: nat

    ghost predicate Valid()
      reads this
    {
      && (forall c :: c in created ==> c < nextContainer)
      && (forall c :: c in stopRequests ==> c in created)
    }

    constructor ()
      ensures Valid() && created == {} && stopRequests == multiset{}
    {
      created, stopRequests, nextContainer := {}, multiset{}, 0;
    }

    method CreateAndStart(succeeds: bool) returns (container: Option<nat>)
      requires Valid()
      modifies this
      ensures Valid() && stopRequests == old(stopRequests)
      ensures container.Some? == succeeds
      ensures if succeeds then container.value !in old(created) && created == old(created) + {container.value}
              else created == old(created)
    {
      if !succeeds {
        return None;
      }
      container := Some(nextContainer);
      created := created + {nextContainer};
      nextContainer := nextContainer + 1;
    }

    method StopAndRemove(container: nat)
      requires Valid() && container in created
      modifies this
      ensures Valid() && created == old(created)
      ensures stopRequests == old(stopRequests) + multiset{container}
    {
      stopRequests := stopRequests + multiset{container};
    }
  }

  /** Each container is recorded under one worker, or was asked to stop exactly once. */
  ghost predicate ContainersTracked(created: set<nat>, stopRequests: multiset<nat>, commissioned: map<int, nat>) {
    && (forall v, w :: v in commissioned && w in commissioned && v != w ==> commissioned[v] != commissioned[w])
    && (forall w :: w in commissioned ==> commissioned[w] in created)
    && (forall c :: c in created ==>
          stopRequests[c] == if c in commissioned.Values then 0 else 1)
  }

  lemma TrackCreated(created: set<nat>, stopRequests: multiset<nat>, commissioned: map<int, nat>, w: int, c: nat)
    requires ContainersTracked(created, stopRequests, commissioned)
    requires c !in created && c !in stopRequests && w !in commissioned
    ensures ContainersTracked(created + {c}, stopRequests, commissioned[w := c])
  {
    var after := commissioned[w := c];
    assert after[w] == c && c in after.Values;
    forall d | d in created
      ensures d in after.Values <==> d in commissioned.Values
    {
      if d in commissioned.Values {
        var v := SomeKey(commissioned, d);
        assert after[v] == d;
      }
    }
  }

  lemma TrackStopped(created: set<nat>, stopRequests: multiset<nat>, commissioned: map<int, nat>, w: int)
    requires ContainersTracked(created, stopRequests, commissioned) && w in commissioned
    ensures ContainersTracked(created, stopRequests + multiset{commissioned[w]}, commissioned - {w})
  {
    var after, c := commissioned - {w}, commissioned[w];
    assert c in commissioned.Values;
    forall d | d in created
      ensures d in after.Values <==> d in commissioned.Values && d != c
    {
      if d in commissioned.Values && d != c {
        var v := SomeKey(commissioned, d);
        assert after[v] == d;
      }
      if d in after.Values {
        var v := SomeKey(after, d);
        assert commissioned[v] == d;
      }
    }
  }

  /** Worker `w` is recorded with a container that did not exist before. */
  ghost predicate OneMore(
      before: set<nat>, after: set<nat>, recordedBefore: map<int, nat>, recorded: map<int, nat>, w: int)
  {
    && w in recorded && recorded == recordedBefore[w := recorded[w]]
    && recorded[w] !in before && after == before + {recorded[w]}
  }

  // ---------------------------------------------------------------------------
  // The orchestrator
  // ---------------------------------------------------------------------------

  datatype Config = Config(
    batchSize: int, pressureThreshold: int, minWorkers: int, maxWorkers: int,
    cooldown: int, decommissionTimeout: int)

  class Orchestrator {
    const mgr: InMemoryWorkerManager
    const runtime: Runtime
    const cfg: Config
    var pressureCount: int
    var lastCommissionTime: int
    var commissioned: map<int, nat>
    var pendingResumeId: int
    ghost var log: seq<Event>

    /** Safety over the whole run so far: no container is lost or stopped twice,
        and the commissions in the log are spaced as configured. */
    ghost predicate Valid()
      reads this, mgr, runtime
    {
      && mgr.Valid() && runtime.Valid() && cfg.cooldown >= 0
      && (forall w :: w in commissioned ==> w < mgr.nextElasticId)
      && ContainersTracked(runtime.created, runtime.stopRequests, commissioned)
      && pressureCount == TrailingFull(log)
      && Spaced(log, cfg.cooldown, cfg.pressureThreshold)
      && CommissionedBy(log, lastCommissionTime)
    }

    constructor (mgr: InMemoryWorkerManager, runtime: Runtime, cfg: Config)
      requires mgr.Valid() && runtime.Valid() && runtime.created == {} && cfg.cooldown >= 0
      ensures Valid() && commissioned == map[] && log == [] && pressureCount == 0 && lastCommissionTime == 0
      ensures this.mgr == mgr && this.runtime == runtime && this.cfg == cfg
    {
      this.mgr, this.runtime, this.cfg := mgr, runtime, cfg;
      pressureCount, lastCommissionTime, commissioned, pendingResumeId := 0, 0, map[], 0;
      log := [];
    }

    /** Counts consecutive reports of a full queue. */
    method UpdateQueueDepth(depth: int)
      requires Valid()
      modifies this
      ensures Valid() && log == old(log) + [Report(depth >= cfg.batchSize)]
      ensures pressureCount == if depth >= cfg.batchSize then old(pressureCount) + 1 else 0
      ensures commissioned == old(commissioned) && lastCommissionTime == old(lastCommissionTime)
      ensures pendingResumeId == old(pendingResumeId)
    {
      var full := depth >= cfg.batchSize;
      if full {
        pressureCount := pressureCount + 1;
      } else {
        pressureCount := 0;
      }
      ReportSpaced(log, full, cfg.cooldown, cfg.pressureThreshold);
      assert (log + [Report(full)])[..|log|] == log;
      log := log + [Report(full)];
    }

    /** Starts a container for a new worker. A failed start changes nothing. */
    method CommissionWorker(now: int, succeeds: bool)
      requires Valid()
      requires pressureCount >= cfg.pressureThreshold && now - lastCommissionTime > cfg.cooldown
      modifies this, runtime, mgr`nextElasticId
      ensures Valid()
      ensures pendingResumeId == old(pendingResumeId) && runtime.stopRequests == old(runtime.stopRequests)
      ensures succeeds ==>
        && log == old(log) + [Commissioned(now)] && lastCommissionTime == now && pressureCount == 0
        && OneMore(old(runtime.created), runtime.created, old(commissioned), commissioned, old(mgr.nextElasticId))
      ensures !succeeds ==>
        && log == old(log) && lastCommissionTime == old(lastCommissionTime) && pressureCount == old(pressureCount)
        && runtime.created == old(runtime.created) && commissioned == old(commissioned)
    {
      var wid := mgr.NextWorkerId();
      ghost var before := runtime.created;
      var container := runtime.CreateAndStart(succeeds);
      if container.Some? {
        assert container.value !in before && container.value !in runtime.stopRequests;
        TrackCreated(before, runtime.stopRequests, commissioned, wid, container.value);
        CommissionSpaced(log, now, lastCommissionTime, cfg.cooldown, cfg.pressureThreshold);
        commissioned := commissioned[wid := container.value];
        lastCommissionTime := now;
        pressureCount := 0;
        log := log + [Commissioned(now)];
      }
    }

    /** Removes a worker that was commissioned here and stops its container. */
    method DecommissionWorker(workerId: int)
      requires Valid()
      modifies this, runtime, mgr
      ensures Valid()
      ensures log == old(log) && lastCommissionTime == old(lastCommissionTime) && pressureCount == old(pressureCount)
      ensures pendingResumeId == old(pendingResumeId) && runtime.created == old(runtime.created)
      ensures if workerId in old(commissioned) then
          && commissioned == old(commissioned) - {workerId}
          && runtime.stopRequests == old(runtime.stopRequests) + multiset{old(commissioned)[workerId]}
          && mgr.workers == old(mgr.workers) - {workerId}
        else
          && commissioned == old(commissioned) && runtime.stopRequests == old(runtime.stopRequests)
          && mgr.workers == old(mgr.workers)
    {
      if workerId !in commissioned {
        return;
      }
      var container := commissioned[workerId];
      TrackStopped(runtime.created, runtime.stopRequests, commissioned, workerId);
      commissioned := commissioned - {workerId};
      mgr.DeregisterWorker(workerId);
      runtime.StopAndRemove(container);
    }

    /** Idle workers that were commissioned here. */
    ghost predicate IsCandidate(workerId: int, now: int)
      reads this, mgr
    {
      && workerId in commissioned && workerId in mgr.workers && workerId in mgr.suspendedSince
      && !mgr.workers[workerId].available
      && now - mgr.suspendedSince[workerId] > cfg.decommissionTimeout
    }

    ghost predicate IsSuspended(workerId: int)
      reads mgr
    {
      workerId in mgr.workers && !mgr.workers[workerId].available
    }

    ghost predicate ScalesUp(now: int)
      reads this, mgr
    {
      && pressureCount >= cfg.pressureThreshold
      && |mgr.workers| < cfg.maxWorkers
      && now - lastCommissionTime > cfg.cooldown
    }

    /** What the decision is based on. No energy budget is set. */
    method TakeSnapshot(now: int) returns (s: Snapshot)
      requires Valid()
      ensures s.idle != [] <==> exists w :: IsCandidate(w, now)
      ensures forall w :: w in s.idle ==> IsCandidate(w, now)
      ensures s.suspended != [] <==> exists w :: IsSuspended(w)
      ensures forall w :: w in s.suspended ==> IsSuspended(w)
      ensures MayScaleUp(s, now) == ScalesUp(now) && !OverBudget(s)
      ensures s.pressureCount == pressureCount && s.currentWorkers == |mgr.workers| && s.minWorkers == cfg.minWorkers
    {
      var idle := mgr.DecommissionableWorkers(cfg.decommissionTimeout, now);
      var suspended := mgr.SuspendedWorkers();
      var candidates := FilterCommissioned(idle, commissioned);
      var count := mgr.WorkerCount();
      s := Snapshot(
        pressureCount, cfg.pressureThreshold, count, cfg.minWorkers, cfg.maxWorkers,
        candidates, suspended, lastCommissionTime, cfg.cooldown, 0.0, 0.0);
      assert forall w :: w in candidates <==> IsCandidate(w, now);
      if candidates != [] {
        assert candidates[0] in candidates && IsCandidate(candidates[0], now);
      }
      if suspended != [] {
        assert suspended[0] in suspended && IsSuspended(suspended[0]);
      }
      assert forall w :: IsSuspended(w) <==> w in suspended;
    }

    /** One evaluation. `now` is the time of the decision, `later` that of the
        commission, `succeeds` whether a container start succeeds. */
    method EvaluateOnce(now: int, later: int, succeeds: bool)
      requires Valid() && now <= later
      modifies this, runtime, mgr
      ensures Valid()
      // No worker is removed that was not commissioned here, none is added, and
      // a removal does not take the count below the minimum.
      ensures mgr.workers.Keys <= old(mgr.workers).Keys
      ensures forall w :: w in old(mgr.workers) && w !in mgr.workers ==> old(IsCandidate(w, now))
      ensures mgr.workers != old(mgr.workers) ==> |mgr.workers| >= cfg.minWorkers
      // A commission happens exactly when scaling up is due, nobody can be
      // resumed and the container starts.
      ensures log == old(log) || log == old(log) + [Commissioned(later)]
      ensures log != old(log) <==>
        old(ScalesUp(now)) && succeeds && !exists w :: old(IsSuspended(w))
      // A suspended worker is resumed whenever scaling up is due and there is one.
      ensures pendingResumeId != old(pendingResumeId) ==>
        var resumed := pendingResumeId; old(ScalesUp(now)) && old(IsSuspended(resumed))
      ensures old(ScalesUp(now)) && (exists w :: old(IsSuspended(w))) ==>
        var resumed := pendingResumeId; old(IsSuspended(resumed))
      // A commission records one fresh container; without one none is created.
      ensures log != old(log) ==>
        && OneMore(old(runtime.created), runtime.created, old(commissioned), commissioned, old(mgr.nextElasticId))
        && lastCommissionTime == later && pressureCount == 0
      ensures log == old(log) ==>
        && runtime.created == old(runtime.created)
        && lastCommissionTime == old(lastCommissionTime) && pressureCount == old(pressureCount)
      // A worker is removed exactly when scaling up is not due, the queue is
      // quiet, there are workers to spare and a candidate exists.
      ensures mgr.workers != old(mgr.workers) <==>
        !old(ScalesUp(now)) && old(pressureCount) == 0 && |old(mgr.workers)| > cfg.minWorkers
        && exists w :: old(IsCandidate(w, now))
      // With the worker go its record and its container, and nothing else does.
      ensures mgr.workers != old(mgr.workers) ==> exists w ::
        && old(IsCandidate(w, now))
        && mgr.workers == old(mgr.workers) - {w}
        && commissioned == old(commissioned) - {w}
        && runtime.stopRequests == old(runtime.stopRequests) + multiset{old(commissioned)[w]}
      ensures mgr.workers == old(mgr.workers) ==>
        && runtime.stopRequests == old(runtime.stopRequests)
        && (log == old(log) ==> commissioned == old(commissioned))
    {
      var snapshot := TakeSnapshot(now);
      assert forall w :: IsCandidate(w, now) <==> old(IsCandidate(w, now));
      assert forall w :: IsSuspended(w) <==> old(IsSuspended(w));
      var decision := Evaluate(snapshot, now);
      match decision {
        case Commission => CommissionWorker(later, succeeds);
        case Decommission(target) =>
          assert old(IsCandidate(target, now));
          DecommissionWorker(target);
        case Resume(target) =>
          assert old(IsSuspended(target));
          pendingResumeId := target;
        case Nothing =>
      }
    }
  }

  method FilterCommissioned(ids: seq<int>, commissioned: map<int, nat>) returns (filtered: seq<int>)
    ensures forall id :: id in filtered <==> id in ids && id in commissioned
  {
    filtered := [];
    for i := 0 to |ids|
      invariant forall id :: id in filtered <==> id in ids[..i] && id in commissioned
    {
      if ids[i] in commissioned {
        filtered := filtered + [ids[i]];
      }
    }
    assert ids[..|ids|] == ids;
  }
}
