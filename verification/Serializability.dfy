/** The main theorem about the shuffler: whatever order the workers run
    supertasks, independent labels and direct-routed reads in, the outcome is
    that of running all labels one by one in ascending id order. */
module Serializability {
  import opened Basics
  import opened FileStore
  import opened Labels
  import opened Aggregate
  import opened Schedule

  function FirstOf(routes: seq<(Label, int)>): (labels: seq<Label>)
    ensures |labels| == |routes|
    ensures forall i :: 0 <= i < |routes| ==> labels[i] == routes[i].0
  {
    seq(|routes|, i requires 0 <= i < |routes| => routes[i].0)
  }

  function ChildrenOf(supertasks: seq<Supertask>): (groups: seq<seq<Label>>)
    ensures |groups| == |supertasks|
    ensures forall k :: 0 <= k < |supertasks| ==> groups[k] == supertasks[k].children
  {
    seq(|supertasks|, k requires 0 <= k < |supertasks| => supertasks[k].children)
  }

  /** The concurrent activities of a schedule: each supertask runs its children
      in list order, every other label runs by itself. */
  function Activities(result: ShuffleResult): seq<seq<Label>> {
    ChildrenOf(result.supertasks) + (Singles(result.independent) + Singles(FirstOf(result.directRoute)))
  }

  function OpsOfEach(parts: seq<seq<Label>>, warehouse: Warehouse): (threads: seq<seq<Op>>)
    ensures |threads| == |parts|
    ensures forall k :: 0 <= k < |parts| ==> threads[k] == Ops(parts[k], warehouse)
  {
    seq(|parts|, k requires 0 <= k < |parts| => Ops(parts[k], warehouse))
  }

  function ThreadsOf(result: ShuffleResult, warehouse: Warehouse): seq<seq<Op>> {
    OpsOfEach(Activities(result), warehouse)
  }

  /** Any two labels that conflict fall into the same hazard group. */
  ghost predicate GroupsCoverConflicts(labels: seq<Label>, granularity: string, warehouse: Warehouse) {
    forall a, b :: a in labels && b in labels && Conflict(OpOf(a, warehouse), OpOf(b, warehouse)) ==>
      GroupKey(a, granularity) == GroupKey(b, granularity)
  }

  // ---------------------------------------------------------------------------
  // Hazards are conflicts
  // ---------------------------------------------------------------------------

  /** Phase 2's range test decides exactly whether two operations on the same
      file conflict. */
  lemma ClashIsConflict(a: Label, b: Label, warehouse: Warehouse)
    requires WellFormed(a) && WellFormed(b)
    requires PayloadsStaged([a, b], warehouse)
    ensures Conflict(OpOf(a, warehouse), OpOf(b, warehouse)) <==> a.fileKey == b.fileKey && Clash(a, b)
  {
    assert a in [a, b] && b in [a, b];
    assert OpOf(a, warehouse).Length() == LabelRange(a).length;
    assert OpOf(b, warehouse).Length() == LabelRange(b).length;
  }

  /** No write has more bytes staged than its range holds. */
  ghost predicate PayloadsFit(labels: seq<Label>, warehouse: Warehouse) {
    forall l :: l in labels && l.kind == Write ==> |Staged(warehouse, l.id)| <= l.dataSize
  }

  /** A write that carries fewer bytes than its range has no other conflicts. */
  lemma ConflictIsClash(a: Label, b: Label, warehouse: Warehouse)
    requires WellFormed(a) && WellFormed(b)
    requires PayloadsFit([a, b], warehouse)
    requires Conflict(OpOf(a, warehouse), OpOf(b, warehouse))
    ensures a.fileKey == b.fileKey && Clash(a, b)
  {
    assert a in [a, b] && b in [a, b];
    assert OpOf(a, warehouse).Length() <= LabelRange(a).length;
    assert OpOf(b, warehouse).Length() <= LabelRange(b).length;
  }

  /** The hazard between two operations, by the bytes they read and write. */
  ghost predicate Threatens(hazard: HazardType, earlier: Op, later: Op) {
    match hazard
    case RAW => exists loc :: Writes(earlier, loc) && Reads(later, loc)
    case WAW => exists loc :: Writes(earlier, loc) && Writes(later, loc)
    case WAR => exists loc :: Reads(earlier, loc) && Writes(later, loc)
  }

  /** The common bytes of two labels whose ranges overlap in one file. */
  lemma SharedByte(a: Label, b: Label) returns (loc: Loc)
    requires WellFormed(a) && WellFormed(b) && a.fileKey == b.fileKey
    requires RangesOverlap(LabelRange(a), LabelRange(b))
    ensures loc.path == a.fileKey
    ensures LabelRange(a).offset <= loc.offset < LabelRange(a).offset + LabelRange(a).length
    ensures LabelRange(b).offset <= loc.offset < LabelRange(b).offset + LabelRange(b).length
  {
    var from := if LabelRange(a).offset <= LabelRange(b).offset then LabelRange(b).offset else LabelRange(a).offset;
    loc := Loc(a.fileKey, from);
  }

  lemma TouchedBytes(l: Label, warehouse: Warehouse, loc: Loc)
    requires WellFormed(l) && PayloadsStaged([l], warehouse)
    ensures var inRange := loc.path == l.fileKey
          && LabelRange(l).offset <= loc.offset < LabelRange(l).offset + LabelRange(l).length;
      && (Writes(OpOf(l, warehouse), loc) <==> l.kind == Write && inRange)
      && (Reads(OpOf(l, warehouse), loc) <==> l.kind == Read && inRange)
  {
    assert l in [l];
  }

  lemma ThreatMeansClash(e: Label, l: Label, warehouse: Warehouse, hazard: HazardType)
    requires WellFormed(e) && WellFormed(l) && PayloadsStaged([e], warehouse) && PayloadsStaged([l], warehouse)
    requires Threatens(hazard, OpOf(e, warehouse), OpOf(l, warehouse))
    ensures e.fileKey == l.fileKey && Clash(e, l) && hazard == HazardOf(e, l)
  {
    var a, b := OpOf(e, warehouse), OpOf(l, warehouse);
    var loc: Loc :| (Writes(a, loc) || Reads(a, loc)) && (Writes(b, loc) || Reads(b, loc));
    TouchedBytes(e, warehouse, loc);
    TouchedBytes(l, warehouse, loc);
  }

  lemma ClashThreatens(e: Label, l: Label, warehouse: Warehouse)
    requires WellFormed(e) && WellFormed(l) && PayloadsStaged([e], warehouse) && PayloadsStaged([l], warehouse)
    requires e.fileKey == l.fileKey && Clash(e, l)
    ensures Threatens(HazardOf(e, l), OpOf(e, warehouse), OpOf(l, warehouse))
  {
    var loc := SharedByte(e, l);
    TouchedBytes(e, warehouse, loc);
    TouchedBytes(l, warehouse, loc);
  }

  lemma OnePayload(labels: seq<Label>, warehouse: Warehouse, l: Label)
    requires PayloadsStaged(labels, warehouse) && l in labels
    ensures PayloadsStaged([l], warehouse)
  {
  }

  /** The two labels are of the kinds that the hazard is named after. */
  predicate NamedAfter(hazard: HazardType, earlier: LabelType, later: LabelType) {
    match hazard
    case RAW => earlier == Write && later == Read
    case WAW => earlier == Write && later == Write
    case WAR => earlier == Read && later == Write
  }

  /** A dependency of `l` stands for the earlier label `e` of its group and, if both
      are of one file, for exactly the hazard between the bytes they touch. */
  ghost predicate StandsFor(d: Dependency, e: Label, l: Label, granularity: string, warehouse: Warehouse) {
    && e.id == d.labelId < l.id && GroupKey(e, granularity) == GroupKey(l, granularity)
    && NamedAfter(d.hazard, e.kind, l.kind)
    && forall hazard :: Threatens(hazard, OpOf(e, warehouse), OpOf(l, warehouse)) <==>
         hazard == d.hazard && e.fileKey == l.fileKey
  }

  lemma HazardStandsFor(e: Label, l: Label, granularity: string, warehouse: Warehouse)
    requires WellFormed(e) && WellFormed(l) && PayloadsStaged([e], warehouse) && PayloadsStaged([l], warehouse)
    requires Hazardous(e, l, granularity)
    ensures StandsFor(Dependency(e.id, HazardOf(e, l)), e, l, granularity, warehouse)
  {
    forall hazard
      ensures Threatens(hazard, OpOf(e, warehouse), OpOf(l, warehouse)) <==>
        hazard == HazardOf(e, l) && e.fileKey == l.fileKey
    {
      if Threatens(hazard, OpOf(e, warehouse), OpOf(l, warehouse)) {
        ThreatMeansClash(e, l, warehouse, hazard);
      } else if e.fileKey == l.fileKey {
        ClashThreatens(e, l, warehouse);
      }
    }
  }

  /** What phase 2 records: every dependency stands for an earlier label, and every
      hazard with an earlier label of the group is recorded under its kind. */
  lemma DependenciesMean(
      entering: seq<Label>, annotated: seq<Label>, granularity: string, warehouse: Warehouse, x: nat)
    requires WellFormedBatch(entering) && PayloadsStaged(entering, warehouse)
    requires IsAnnotated(entering, annotated, granularity) && x < |entering|
    ensures forall d :: d in annotated[x].dependencies ==>
      exists e :: e in entering && StandsFor(d, e, entering[x], granularity, warehouse)
    ensures forall e, hazard ::
      e in entering && e.id < entering[x].id && GroupKey(e, granularity) == GroupKey(entering[x], granularity)
      && Threatens(hazard, OpOf(e, warehouse), OpOf(entering[x], warehouse)) ==>
        Dependency(e.id, hazard) in annotated[x].dependencies
  {
    var l := entering[x];
    assert HazardsAppended(entering, l, annotated[x], granularity);
    assert l in entering && annotated[x].dependencies[0..] == annotated[x].dependencies;
    OnePayload(entering, warehouse, l);
    forall d | d in annotated[x].dependencies
      ensures exists e :: e in entering && StandsFor(d, e, l, granularity, warehouse)
    {
      var e :| e in entering && Hazardous(e, l, granularity) && d == Dependency(e.id, HazardOf(e, l));
      OnePayload(entering, warehouse, e);
      HazardStandsFor(e, l, granularity, warehouse);
    }
    forall e, hazard | e in entering && e.id < l.id && GroupKey(e, granularity) == GroupKey(l, granularity)
                    && Threatens(hazard, OpOf(e, warehouse), OpOf(l, warehouse))
      ensures Dependency(e.id, hazard) in annotated[x].dependencies
    {
      OnePayload(entering, warehouse, e);
      ThreatMeansClash(e, l, warehouse, hazard);
    }
  }

  lemma PerFileCoversConflicts(labels: seq<Label>, granularity: string, warehouse: Warehouse)
    requires WellFormedBatch(labels) && granularity != PER_APPLICATION
    ensures GroupsCoverConflicts(labels, granularity, warehouse)
  {
  }

  lemma AnnotatedSameBare(before: seq<Label>, after: seq<Label>, granularity: string)
    requires IsAnnotated(before, after, granularity)
    ensures BareAll(after) == BareAll(before)
  {
    forall i | 0 <= i < |after|
      ensures Bare(after[i]) == Bare(before[i])
    {
      assert HazardsAppended(before, before[i], after[i], granularity);
    }
  }

  // ---------------------------------------------------------------------------
  // A schedule runs every label exactly once
  // ---------------------------------------------------------------------------

  lemma {:induction false} DependentSplit(labels: seq<Label>, involved: set<nat>, l: Label)
    ensures multiset(Dependent(labels, involved))[l] + multiset(Independent(labels, involved))[l] == multiset(labels)[l]
  {
    if labels != [] {
      var init, last := labels[..|labels| - 1], labels[|labels| - 1];
      DependentSplit(init, involved, l);
      assert labels == init + [last];
      CountSnoc(init, last, l);
      CountSnoc(Dependent(init, involved), last, l);
      CountSnoc(Independent(init, involved), last, l);
      if last.id in involved {
        assert Independent(labels, involved) == Independent(init, involved);
      } else {
        assert Dependent(labels, involved) == Dependent(init, involved);
      }
    }
  }

  lemma {:induction false} RouteSplit(labels: seq<Label>, lookup: Option<Lookup>, l: Label)
    ensures multiset(Unrouted(labels, lookup))[l] + multiset(FirstOf(DirectRoutes(labels, lookup)))[l]
         == multiset(labels)[l]
  {
    if labels != [] {
      var init, last := labels[..|labels| - 1], labels[|labels| - 1];
      RouteSplit(init, lookup, l);
      assert labels == init + [last];
      CountSnoc(init, last, l);
      CountSnoc(Unrouted(init, lookup), last, l);
      CountSnoc(FirstOf(DirectRoutes(init, lookup)), last, l);
      if RouteOf(last, lookup).Some? {
        FirstOfSnoc(DirectRoutes(init, lookup), last, RouteOf(last, lookup).value);
        assert Unrouted(labels, lookup) == Unrouted(init, lookup);
      } else {
        assert DirectRoutes(labels, lookup) == DirectRoutes(init, lookup);
      }
    }
  }

  lemma FirstOfSnoc(routes: seq<(Label, int)>, l: Label, worker: int)
    ensures FirstOf(routes + [(l, worker)]) == FirstOf(routes) + [l]
  {
  }

  /** Two sequences that together hold the elements of a third. */
  lemma TogetherPermute<T(!new)>(a: seq<T>, b: seq<T>, c: seq<T>)
    requires forall x: T :: multiset(a)[x] + multiset(b)[x] == multiset(c)[x]
    ensures multiset(a + b) == multiset(c)
  {
    assert forall x: T :: multiset(a + b)[x] == multiset(c)[x];
  }

  function GroupsOf(labels: seq<Label>, granularity: string, keys: seq<string>): (groups: seq<seq<Label>>)
    ensures |groups| == |keys|
    ensures forall k :: 0 <= k < |keys| ==> groups[k] == WithKey(labels, granularity, keys[k])
  {
    seq(|keys|, k requires 0 <= k < |keys| => WithKey(labels, granularity, keys[k]))
  }

  lemma {:induction false} GroupsCount(labels: seq<Label>, granularity: string, keys: seq<string>, l: Label)
    requires Distinct(keys)
    ensures multiset(Flatten(GroupsOf(labels, granularity, keys)))[l]
         == if GroupKey(l, granularity) in keys then multiset(labels)[l] else 0
    decreases |keys|
  {
    if keys != [] {
      var groups := GroupsOf(labels, granularity, keys);
      assert groups[1..] == GroupsOf(labels, granularity, keys[1..]);
      GroupsCount(labels, granularity, keys[1..], l);
      WithKeyCount(labels, granularity, keys[0], l);
      FlattenHead(groups);
      assert keys == [keys[0]] + keys[1..];
    }
  }

  lemma GroupsPartition(labels: seq<Label>, granularity: string)
    ensures multiset(Flatten(GroupsOf(labels, granularity, KeyOrder(labels, granularity)))) == multiset(labels)
  {
    var keys := KeyOrder(labels, granularity);
    KeyOrderFacts(labels, granularity);
    forall l: Label
      ensures multiset(Flatten(GroupsOf(labels, granularity, keys)))[l] == multiset(labels)[l]
    {
      GroupsCount(labels, granularity, keys, l);
      assert l !in labels ==> multiset(labels)[l] == 0;
    }
  }

  lemma SupertaskBare(st: Supertask, group: seq<Label>)
    requires IsSupertask(st, group)
    ensures multiset(BareAll(st.children)) == multiset(BareAll(group))
  {
    var sorted :| sorted != [] && multiset(sorted) == multiset(group) && AscendingIds(sorted)
               && st == SupertaskOf(sorted);
    assert BareAll(st.children) == BareAll(sorted);
    BarePermuted(sorted, group);
  }

  lemma {:induction false} SupertasksBare(supertasks: seq<Supertask>, groups: seq<seq<Label>>)
    requires |supertasks| == |groups|
    requires forall k :: 0 <= k < |groups| ==> IsSupertask(supertasks[k], groups[k])
    ensures multiset(BareAll(Flatten(ChildrenOf(supertasks)))) == multiset(BareAll(Flatten(groups)))
    decreases |groups|
  {
    if groups != [] {
      var parts := ChildrenOf(supertasks);
      assert parts[1..] == ChildrenOf(supertasks[1..]);
      SupertasksBare(supertasks[1..], groups[1..]);
      SupertaskBare(supertasks[0], groups[0]);
      BareConcat(groups[0], Flatten(groups[1..]));
      BareConcat(parts[0], Flatten(parts[1..]));
    }
  }

  lemma DependentBare(annotated: seq<Label>, granularity: string, supertasks: seq<Supertask>)
    requires AreSupertasks(supertasks, annotated, granularity)
    ensures multiset(BareAll(Flatten(ChildrenOf(supertasks))))
         == multiset(BareAll(Dependent(annotated, Involved(annotated))))
  {
    var dependent := Dependent(annotated, Involved(annotated));
    var groups := GroupsOf(dependent, granularity, KeyOrder(dependent, granularity));
    SupertasksBare(supertasks, groups);
    GroupsPartition(dependent, granularity);
    BarePermuted(Flatten(groups), dependent);
  }

  lemma IndependentBare(free: seq<Label>, lookup: Option<Lookup>)
    ensures multiset(BareAll(Unrouted(free, lookup) + FirstOf(DirectRoutes(free, lookup)))) == multiset(BareAll(free))
  {
    forall l {
      RouteSplit(free, lookup, l);
    }
    TogetherPermute(Unrouted(free, lookup), FirstOf(DirectRoutes(free, lookup)), free);
    BarePermuted(Unrouted(free, lookup) + FirstOf(DirectRoutes(free, lookup)), free);
  }

  lemma AnnotatedBare(annotated: seq<Label>)
    ensures multiset(BareAll(Dependent(annotated, Involved(annotated)) + Independent(annotated, Involved(annotated))))
         == multiset(BareAll(annotated))
  {
    var dependent, free := Dependent(annotated, Involved(annotated)), Independent(annotated, Involved(annotated));
    forall l {
      DependentSplit(annotated, Involved(annotated), l);
    }
    TogetherPermute(dependent, free, annotated);
    BarePermuted(dependent + free, annotated);
  }

  lemma ActivitiesFlattened(result: ShuffleResult)
    ensures Flatten(Activities(result))
         == Flatten(ChildrenOf(result.supertasks)) + (result.independent + FirstOf(result.directRoute))
  {
    FlattenSingles(result.independent);
    FlattenSingles(FirstOf(result.directRoute));
    FlattenAppend(Singles(result.independent), Singles(FirstOf(result.directRoute)));
    FlattenAppend(ChildrenOf(result.supertasks), Singles(result.independent) + Singles(FirstOf(result.directRoute)));
  }

  /** A schedule holds each entering label exactly once, changed in nothing but
      its dependencies and supertask. */
  lemma ScheduleComplete(entering: seq<Label>, granularity: string, lookup: Option<Lookup>, result: ShuffleResult)
    requires IsSchedule(entering, granularity, lookup, result)
    ensures multiset(BareAll(Flatten(Activities(result)))) == multiset(BareAll(entering))
  {
    var annotated :| IsAnnotated(entering, annotated, granularity)
                  && Schedules(annotated, granularity, lookup, result);
    var dependent, free := Dependent(annotated, Involved(annotated)), Independent(annotated, Involved(annotated));
    AnnotatedSameBare(entering, annotated, granularity);
    ActivitiesFlattened(result);
    BareConcat(Flatten(ChildrenOf(result.supertasks)), result.independent + FirstOf(result.directRoute));
    IndependentBare(free, lookup);
    DependentBare(annotated, granularity, result.supertasks);
    BareConcat(dependent, free);
    AnnotatedBare(annotated);
  }

  lemma {:induction false} FlattenOps(parts: seq<seq<Label>>, warehouse: Warehouse)
    ensures Flatten(OpsOfEach(parts, warehouse)) == Ops(Flatten(parts), warehouse)
  {
    if parts != [] {
      assert OpsOfEach(parts, warehouse)[1..] == OpsOfEach(parts[1..], warehouse);
      FlattenOps(parts[1..], warehouse);
      OpsConcat(parts[0], Flatten(parts[1..]), warehouse);
    }
  }

  lemma ThreadsComplete(
      entering: seq<Label>, granularity: string, lookup: Option<Lookup>, result: ShuffleResult, warehouse: Warehouse)
    requires IsSchedule(entering, granularity, lookup, result)
    ensures multiset(Flatten(ThreadsOf(result, warehouse))) == multiset(Ops(entering, warehouse))
  {
    var all := Flatten(Activities(result));
    FlattenOps(Activities(result), warehouse);
    ScheduleComplete(entering, granularity, lookup, result);
    OpsPermuted(BareAll(all), BareAll(entering), warehouse);
    BareSameOps(all, warehouse);
    BareSameOps(entering, warehouse);
  }

  // ---------------------------------------------------------------------------
  // A schedule orders every conflict
  // ---------------------------------------------------------------------------

  lemma {:induction false} InvolvedMember(labels: seq<Label>, l: Label)
    requires l in labels && l.dependencies != []
    ensures l.id in Involved(labels)
    ensures forall d :: d in l.dependencies ==> d.labelId in Involved(labels)
  {
    var init, last := labels[..|labels| - 1], labels[|labels| - 1];
    assert labels == init + [last];
    if l != last {
      InvolvedMember(init, l);
    }
  }

  lemma {:induction false} DependentMember(labels: seq<Label>, involved: set<nat>, l: Label)
    ensures l in Dependent(labels, involved) <==> l in labels && l.id in involved
  {
    if labels != [] {
      DependentMember(labels[..|labels| - 1], involved, l);
      assert labels == labels[..|labels| - 1] + [labels[|labels| - 1]];
    }
  }

  /** Two involved labels of one group are children of one supertask, by id. */
  lemma GroupOrdered(
      annotated: seq<Label>, granularity: string, supertasks: seq<Supertask>, earlier: Label, later: Label,
      warehouse: Warehouse) returns (k: nat)
    requires AreSupertasks(supertasks, annotated, granularity)
    requires earlier in annotated && later in annotated && earlier.id < later.id
    requires GroupKey(earlier, granularity) == GroupKey(later, granularity)
    requires earlier.id in Involved(annotated) && later.id in Involved(annotated)
    ensures k < |supertasks|
    ensures InThreadOrder(Ops(supertasks[k].children, warehouse), OpOf(earlier, warehouse), OpOf(later, warehouse))
  {
    var dependent := Dependent(annotated, Involved(annotated));
    var keys := KeyOrder(dependent, granularity);
    DependentMember(annotated, Involved(annotated), earlier);
    DependentMember(annotated, Involved(annotated), later);
    KeyOrderFacts(dependent, granularity);
    k :| k < |keys| && keys[k] == GroupKey(earlier, granularity);
    var group := WithKey(dependent, granularity, keys[k]);
    WithKeyCount(dependent, granularity, keys[k], earlier);
    WithKeyCount(dependent, granularity, keys[k], later);
    assert earlier in multiset(group) && later in multiset(group);
    SupertaskOrdered(supertasks[k], group, earlier, later, warehouse);
  }

  lemma SupertaskOrdered(st: Supertask, group: seq<Label>, earlier: Label, later: Label, warehouse: Warehouse)
    requires IsSupertask(st, group)
    requires earlier in group && later in group && earlier.id < later.id
    ensures InThreadOrder(Ops(st.children, warehouse), OpOf(earlier, warehouse), OpOf(later, warehouse))
  {
    var sorted :| sorted != [] && multiset(sorted) == multiset(group) && AscendingIds(sorted)
               && st == SupertaskOf(sorted);
    var i := SameElementsFind(sorted, group, earlier);
    var j := SameElementsFind(sorted, group, later);
    var ops := Ops(st.children, warehouse);
    assert ops[i] == OpOf(earlier, warehouse) && ops[j] == OpOf(later, warehouse);
  }

  /** Two entering labels with a hazard between them both end up involved. */
  lemma HazardInvolved(entering: seq<Label>, annotated: seq<Label>, granularity: string, x: nat, y: nat)
    requires IsAnnotated(entering, annotated, granularity)
    requires x < |entering| && y < |entering| && Hazardous(entering[x], entering[y], granularity)
    ensures annotated[x].id in Involved(annotated) && annotated[y].id in Involved(annotated)
  {
    var earlier, later, after := entering[x], entering[y], annotated[y];
    assert HazardsAppended(entering, entering[x], annotated[x], granularity);
    assert HazardsAppended(entering, later, after, granularity);
    var d := Dependency(earlier.id, HazardOf(earlier, later));
    assert d in after.dependencies[|later.dependencies|..];
    assert d in after.dependencies;
    InvolvedMember(annotated, after);
  }

  /** Two entering labels with a hazard between them are children of one
      supertask, the earlier first. */
  lemma HazardOrdered(
      entering: seq<Label>, annotated: seq<Label>, granularity: string, supertasks: seq<Supertask>, x: nat, y: nat,
      warehouse: Warehouse) returns (k: nat)
    requires IsAnnotated(entering, annotated, granularity) && AreSupertasks(supertasks, annotated, granularity)
    requires x < |entering| && y < |entering| && Hazardous(entering[x], entering[y], granularity)
    ensures k < |supertasks|
    ensures InThreadOrder(Ops(supertasks[k].children, warehouse),
                          OpOf(entering[x], warehouse), OpOf(entering[y], warehouse))
  {
    HazardInvolved(entering, annotated, granularity, x, y);
    assert HazardsAppended(entering, entering[x], annotated[x], granularity);
    assert HazardsAppended(entering, entering[y], annotated[y], granularity);
    k := GroupOrdered(annotated, granularity, supertasks, annotated[x], annotated[y], warehouse);
  }

  lemma ConflictHazardous(entering: seq<Label>, granularity: string, warehouse: Warehouse, x: nat, y: nat)
    requires WellFormedBatch(entering) && PayloadsFit(entering, warehouse)
    requires GroupsCoverConflicts(entering, granularity, warehouse)
    requires x < |entering| && y < |entering| && entering[x].id < entering[y].id
    requires Conflict(OpOf(entering[x], warehouse), OpOf(entering[y], warehouse))
    ensures Hazardous(entering[x], entering[y], granularity)
  {
    assert entering[x] in entering && entering[y] in entering;
    ConflictIsClash(entering[x], entering[y], warehouse);
  }

  /** Conflicting labels keep their id order in every interleaving. */
  lemma ConflictOrdered(
      entering: seq<Label>, annotated: seq<Label>, granularity: string, lookup: Option<Lookup>,
      result: ShuffleResult, warehouse: Warehouse, run: seq<Op>, x: nat, y: nat)
    requires WellFormedBatch(entering) && PayloadsFit(entering, warehouse)
    requires GroupsCoverConflicts(entering, granularity, warehouse)
    requires IsAnnotated(entering, annotated, granularity)
    requires Schedules(annotated, granularity, lookup, result)
    requires Interleaving(ThreadsOf(result, warehouse), run)
    requires x < |entering| && y < |entering| && entering[x].id < entering[y].id
    requires Conflict(OpOf(entering[x], warehouse), OpOf(entering[y], warehouse))
    ensures NoInversion(run, OpOf(entering[x], warehouse), OpOf(entering[y], warehouse))
  {
    ConflictHazardous(entering, granularity, warehouse, x, y);
    var k := HazardOrdered(entering, annotated, granularity, result.supertasks, x, y, warehouse);
    var threads := ThreadsOf(result, warehouse);
    assert threads[k] == Ops(result.supertasks[k].children, warehouse);
    ThreadsDistinct(entering, granularity, lookup, result, warehouse);
    InterleavingKeepsThreadOrder(threads, run, k, OpOf(entering[x], warehouse), OpOf(entering[y], warehouse));
  }

  lemma ThreadsDistinct(
      entering: seq<Label>, granularity: string, lookup: Option<Lookup>, result: ShuffleResult, warehouse: Warehouse)
    requires UniqueIds(entering) && IsSchedule(entering, granularity, lookup, result)
    ensures Distinct(Flatten(ThreadsOf(result, warehouse)))
  {
    ThreadsComplete(entering, granularity, lookup, result, warehouse);
    DistinctOps(entering, warehouse);
    DistinctTransfer(Ops(entering, warehouse), Flatten(ThreadsOf(result, warehouse)));
  }

  lemma DistinctOps(labels: seq<Label>, warehouse: Warehouse)
    requires UniqueIds(labels)
    ensures UniqueOps(Ops(labels, warehouse)) && Distinct(Ops(labels, warehouse))
  {
  }

  /** Serializability. For every interleaving of the supertasks, the independent
      labels and the direct-routed reads, every read returns the same bytes and
      the device ends up the same as when all labels run in ascending id order. */
  lemma Serializable(
      entering: seq<Label>, granularity: string, lookup: Option<Lookup>, result: ShuffleResult,
      warehouse: Warehouse, run: seq<Op>, serial: seq<Label>, st: State)
    requires WellFormedBatch(entering) && PayloadsFit(entering, warehouse)
    requires GroupsCoverConflicts(entering, granularity, warehouse)
    requires IsSchedule(entering, granularity, lookup, result)
    requires Interleaving(ThreadsOf(result, warehouse), run)
    requires multiset(serial) == multiset(entering) && AscendingIds(serial)
    ensures Exec(run, st) == Exec(Ops(serial, warehouse), st)
  {
    var annotated :| IsAnnotated(entering, annotated, granularity)
                  && Schedules(annotated, granularity, lookup, result);
    var ops := Ops(serial, warehouse);
    UniqueIdsTransfer(entering, serial);
    DistinctOps(serial, warehouse);
    InterleavingComplete(ThreadsOf(result, warehouse), run);
    ThreadsComplete(entering, granularity, lookup, result, warehouse);
    OpsPermuted(serial, entering, warehouse);
    forall i, j | 0 <= i < j < |ops| && Conflict(ops[i], ops[j])
      ensures NoInversion(run, ops[i], ops[j])
    {
      var x := SameElementsFind(entering, serial, serial[i]);
      var y := SameElementsFind(entering, serial, serial[j]);
      ConflictOrdered(entering, annotated, granularity, lookup, result, warehouse, run, x, y);
    }
    ConflictSerializable(run, ops, st);
  }
}
