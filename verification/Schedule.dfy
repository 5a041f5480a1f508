/** What phases 2 to 4 of the shuffler compute, and why it is safe: hazards,
    supertasks and routes, and every concurrent execution that they allow. */
module Schedule {
  import opened Basics
  import opened FileStore
  import opened Labels
  import opened Aggregate

  // ---------------------------------------------------------------------------
  // Phase 2: hazards
  // ---------------------------------------------------------------------------

  /** The test that phase 2 makes on two labels of one group. */
  predicate Clash(a: Label, b: Label) {
    RangesOverlap(LabelRange(a), LabelRange(b)) && !(a.kind == Read && b.kind == Read)
  }

  function HazardOf(earlier: Label, later: Label): HazardType {
    if earlier.kind == Write && later.kind == Read then RAW
    else if earlier.kind == Write && later.kind == Write then WAW
    else WAR
  }

  predicate Hazardous(earlier: Label, later: Label, granularity: string) {
    && earlier.id < later.id
    && GroupKey(earlier, granularity) == GroupKey(later, granularity)
    && Clash(earlier, later)
  }

  ghost predicate AscendingDeps(deps: seq<Dependency>) {
    forall a, b :: 0 <= a < b < |deps| ==> deps[a].labelId < deps[b].labelId
  }

  /** `deps` lists, once each and by ascending id, exactly the labels that
      `later` has a hazard with, and names the hazard. */
  ghost predicate ExactHazards(labels: seq<Label>, later: Label, granularity: string, deps: seq<Dependency>) {
    && AscendingDeps(deps)
    && (forall d :: d in deps ==> exists e :: e in labels && Hazardous(e, later, granularity)
                                           && d == Dependency(e.id, HazardOf(e, later)))
    && (forall e :: e in labels && Hazardous(e, later, granularity) ==>
          Dependency(e.id, HazardOf(e, later)) in deps)
  }

  /** `after` is `before` with the hazards of the label appended to its dependencies. */
  ghost predicate HazardsAppended(labels: seq<Label>, before: Label, after: Label, granularity: string) {
    && before.dependencies <= after.dependencies
    && after == before.(dependencies := after.dependencies)
    && ExactHazards(labels, before, granularity, after.dependencies[|before.dependencies|..])
  }

  ghost predicate IsAnnotated(before: seq<Label>, after: seq<Label>, granularity: string) {
    && |after| == |before|
    && forall i :: 0 <= i < |after| ==> HazardsAppended(before, before[i], after[i], granularity)
  }

  // ---------------------------------------------------------------------------
  // Phase 3: supertasks
  // ---------------------------------------------------------------------------

  datatype Supertask = Supertask(composite: Label, children: seq<Label>)

  function DependencyIds(deps: seq<Dependency>): set<nat> {
    set d | d in deps :: d.labelId
  }

  /** Ids of all labels that have a dependency or are one. */
  function Involved(labels: seq<Label>): set<nat> {
    if labels == [] then {}
    else
      var last := labels[|labels| - 1];
      Involved(labels[..|labels| - 1])
      + if last.dependencies == [] then {} else {last.id} + DependencyIds(last.dependencies)
  }

  function Dependent(labels: seq<Label>, involved: set<nat>): seq<Label> {
    if labels == [] then []
    else
      var last := labels[|labels| - 1];
      Dependent(labels[..|labels| - 1], involved) + if last.id in involved then [last] else []
  }

  function Independent(labels: seq<Label>, involved: set<nat>): seq<Label> {
    if labels == [] then []
    else
      var last := labels[|labels| - 1];
      Independent(labels[..|labels| - 1], involved) + if last.id in involved then [] else [last]
  }

  ghost predicate AscendingIds(labels: seq<Label>) {
    forall i, j :: 0 <= i < j < |labels| ==> labels[i].id <= labels[j].id
  }

  function SupertaskOf(sorted: seq<Label>): (st: Supertask)
    requires sorted != []
    ensures |st.children| == |sorted|
    ensures forall i :: 0 <= i < |sorted| ==> st.children[i] == sorted[i].(supertaskId := sorted[0].id)
  {
    var first := sorted[0];
    Supertask(
      Label(first.id, Composite, NoPointer, NoPointer, 0, first.fileKey, first.appId,
            Attributes("", first.attributes.flags, first.attributes.priority, 0, 0, 0),
            "", [], Ids(sorted), 0, NO_AGGREGATION),
      seq(|sorted|, i requires 0 <= i < |sorted| => sorted[i].(supertaskId := first.id)))
  }

  ghost predicate IsSupertask(st: Supertask, group: seq<Label>) {
    exists sorted :: sorted != [] && multiset(sorted) == multiset(group) && AscendingIds(sorted)
                  && st == SupertaskOf(sorted)
  }

  /** One supertask for each group of dependent labels. */
  ghost predicate OnePerGroup(
      supertasks: seq<Supertask>, dependent: seq<Label>, granularity: string, keys: seq<string>)
  {
    && |supertasks| == |keys|
    && forall k :: 0 <= k < |keys| ==> IsSupertask(supertasks[k], WithKey(dependent, granularity, keys[k]))
  }

  ghost predicate AreSupertasks(supertasks: seq<Supertask>, labels: seq<Label>, granularity: string) {
    var dependent := Dependent(labels, Involved(labels));
    OnePerGroup(supertasks, dependent, granularity, KeyOrder(dependent, granularity))
  }

  // ---------------------------------------------------------------------------
  // Phase 4: routes
  // ---------------------------------------------------------------------------

  /** The worker that holds a file range, when one is known. */
  type Lookup = (string, nat, nat) -> Option<int>

  function RouteOf(l: Label, lookup: Option<Lookup>): Option<int> {
    if l.kind == Read && lookup.Some? then
      lookup.value(l.fileKey, LabelRange(l).offset, LabelRange(l).length)
    else None
  }

  function DirectRoutes(labels: seq<Label>, lookup: Option<Lookup>): seq<(Label, int)> {
    if labels == [] then []
    else
      var last := labels[|labels| - 1];
      DirectRoutes(labels[..|labels| - 1], lookup)
      + if RouteOf(last, lookup).Some? then [(last, RouteOf(last, lookup).value)] else []
  }

  function Unrouted(labels: seq<Label>, lookup: Option<Lookup>): seq<Label> {
    if labels == [] then []
    else
      var last := labels[|labels| - 1];
      Unrouted(labels[..|labels| - 1], lookup) + if RouteOf(last, lookup).Some? then [] else [last]
  }

  datatype ShuffleResult = ShuffleResult(
    directRoute: seq<(Label, int)>,
    supertasks: seq<Supertask>,
    independent: seq<Label>,
    replyFanout: map<nat, seq<string>>)

  /** `result` schedules the labels `entering` phase 2. */
  ghost predicate IsSchedule(entering: seq<Label>, granularity: string, lookup: Option<Lookup>, result: ShuffleResult) {
    exists annotated ::
      IsAnnotated(entering, annotated, granularity) && Schedules(annotated, granularity, lookup, result)
  }

  ghost predicate Schedules(annotated: seq<Label>, granularity: string, lookup: Option<Lookup>, result: ShuffleResult) {
    var free := Independent(annotated, Involved(annotated));
    && AreSupertasks(result.supertasks, annotated, granularity)
    && result.directRoute == DirectRoutes(free, lookup)
    && result.independent == Unrouted(free, lookup)
  }

  // ---------------------------------------------------------------------------
  // Concurrent execution
  // ---------------------------------------------------------------------------

  /** `run` interleaves the threads: each step executes the next operation of
      some thread that is not finished, until all are. */
  ghost predicate Interleaving(threads: seq<seq<Op>>, run: seq<Op>)
    decreases |run|
  {
    if run == [] then forall t :: 0 <= t < |threads| ==> threads[t] == []
    else exists t: nat :: StepsFrom(threads, run[0], t) && Interleaving(threads[t := threads[t][1..]], run[1..])
  }

  predicate StepsFrom(threads: seq<seq<Op>>, op: Op, t: nat) {
    t < |threads| && threads[t] != [] && threads[t][0] == op
  }

  lemma {:induction false} FlattenEmpty<T>(parts: seq<seq<T>>)
    requires forall t :: 0 <= t < |parts| ==> parts[t] == []
    ensures Flatten(parts) == []
  {
    if parts != [] {
      FlattenEmpty(parts[1..]);
    }
  }

  /** An interleaving runs every operation of every thread exactly once. */
  lemma {:induction false} InterleavingComplete(threads: seq<seq<Op>>, run: seq<Op>)
    requires Interleaving(threads, run)
    ensures multiset(run) == multiset(Flatten(threads))
    decreases |run|
  {
    if run == [] {
      FlattenEmpty(threads);
    } else {
      var t: nat :| StepsFrom(threads, run[0], t) && Interleaving(threads[t := threads[t][1..]], run[1..]);
      InterleavingComplete(threads[t := threads[t][1..]], run[1..]);
      FlattenTake(threads, t);
      assert run == [run[0]] + run[1..];
    }
  }

  /** Threads can always be interleaved, for instance one after the other. */
  lemma {:induction false} SomeInterleaving(threads: seq<seq<Op>>) returns (run: seq<Op>)
    ensures Interleaving(threads, run)
    decreases |Flatten(threads)|
  {
    if t: nat :| t < |threads| && threads[t] != [] {
      var rest := threads[t := threads[t][1..]];
      FlattenTake(threads, t);
      assert |multiset(Flatten(threads))| == |multiset(Flatten(rest))| + 1;
      var tail := SomeInterleaving(rest);
      run := [threads[t][0]] + tail;
      assert run[1..] == tail;
      assert StepsFrom(threads, run[0], t);
    } else {
      run := [];
    }
  }

  ghost predicate InThreadOrder(thread: seq<Op>, a: Op, b: Op) {
    exists i, j :: 0 <= i < j < |thread| && thread[i] == a && thread[j] == b
  }

  /** An interleaving keeps the order of each thread. */
  lemma {:induction false} InterleavingKeepsThreadOrder(threads: seq<seq<Op>>, run: seq<Op>, t: nat, a: Op, b: Op)
    requires Interleaving(threads, run) && Distinct(Flatten(threads))
    requires t < |threads| && InThreadOrder(threads[t], a, b)
    ensures NoInversion(run, a, b)
    decreases |run|
  {
    if run != [] {
      var s: nat :| StepsFrom(threads, run[0], s) && Interleaving(threads[s := threads[s][1..]], run[1..]);
      var rest := threads[s := threads[s][1..]];
      FlattenTake(threads, s);
      InterleavingComplete(rest, run[1..]);
      RestDistinct(Flatten(threads), Flatten(rest), run[0]);
      var i, j :| 0 <= i < j < |threads[t]| && threads[t][i] == a && threads[t][j] == b;
      SecondIsNotFirst(threads, rest, s, t, j);
      if s == t && i == 0 {
        FirstIsBefore(run, b);
      } else {
        if s == t {
          assert rest[t][i - 1] == a && rest[t][j - 1] == b;
        }
        assert InThreadOrder(rest[t], a, b);
        InterleavingKeepsThreadOrder(rest, run[1..], t, a, b);
        NoInversionCons(run, a, b);
      }
    }
  }

  /** Nothing comes before the first operation. */
  lemma FirstIsBefore(run: seq<Op>, b: Op)
    requires run != [] && run[0] !in multiset(run[1..])
    ensures NoInversion(run, run[0], b)
  {
    forall p, q | 0 <= p < q < |run|
      ensures !(run[p] == b && run[q] == run[0])
    {
      assert run[q] == run[1..][q - 1];
      assert run[q] in multiset(run[1..]);
    }
  }

  lemma NoInversionCons(run: seq<Op>, a: Op, b: Op)
    requires run != [] && run[0] != b && NoInversion(run[1..], a, b)
    ensures NoInversion(run, a, b)
  {
    forall p, q | 0 <= p < q < |run|
      ensures !(run[p] == b && run[q] == a)
    {
      assert run[q] == run[1..][q - 1];
      assert p > 0 ==> run[p] == run[1..][p - 1];
    }
  }

  lemma RestDistinct<T>(whole: seq<T>, rest: seq<T>, x: T)
    requires Distinct(whole) && multiset(whole) == multiset(rest) + multiset{x}
    ensures Distinct(rest) && x !in multiset(rest)
  {
    assert x in multiset(whole);
    DistinctCountsOnce(whole, x);
    assert multiset(rest + [x]) == multiset(whole);
    DistinctTransfer(whole, rest + [x]);
    forall i, j | 0 <= i < j < |rest|
      ensures rest[i] != rest[j]
    {
      assert (rest + [x])[i] != (rest + [x])[j];
    }
  }

  /** The operation that runs now is not one that comes later in a thread. */
  lemma SecondIsNotFirst(threads: seq<seq<Op>>, rest: seq<seq<Op>>, s: nat, t: nat, j: nat)
    requires s < |threads| && t < |threads| && threads[s] != []
    requires rest == threads[s := threads[s][1..]]
    requires 0 < j < |threads[t]|
    requires threads[s][0] !in multiset(Flatten(rest))
    ensures threads[t][j] != threads[s][0]
  {
    if s == t {
      assert rest[t][j - 1] == threads[t][j];
    }
    assert threads[t][j] in rest[t];
    FlattenMember(rest, threads[t][j]);
  }
}
