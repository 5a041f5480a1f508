/** Where the shuffler puts a label: a supertask, a worker that is known to hold
    the bytes, or the independents that the scheduler places. */
module Placement {
  import opened Basics
  import opened FileStore
  import opened Labels
  import opened Aggregate
  import opened Schedule
  import opened Delivery
  import opened Serializability

  /** The catalog knows that `worker` holds the bytes this read asks for. */
  predicate HeldAt(l: Label, lookup: Option<Lookup>, worker: int) {
    && l.kind == Read && l.source.FilePath? && lookup.Some?
    && lookup.value(l.fileKey, l.source.offset, l.source.length) == Some(worker)
  }

  lemma {:induction false} RoutedMember(labels: seq<Label>, lookup: Option<Lookup>, l: Label, worker: int)
    ensures (l, worker) in DirectRoutes(labels, lookup) <==> l in labels && RouteOf(l, lookup) == Some(worker)
  {
    if labels != [] {
      var init, last := labels[..|labels| - 1], labels[|labels| - 1];
      RoutedMember(init, lookup, l, worker);
      assert labels == init + [last];
    }
  }

  lemma {:induction false} UnroutedMember(labels: seq<Label>, lookup: Option<Lookup>, l: Label)
    ensures l in Unrouted(labels, lookup) <==> l in labels && RouteOf(l, lookup).None?
  {
    if labels != [] {
      var init, last := labels[..|labels| - 1], labels[|labels| - 1];
      UnroutedMember(init, lookup, l);
      assert labels == init + [last];
    }
  }

  lemma {:induction false} FreeMember(labels: seq<Label>, involved: set<nat>, l: Label)
    ensures l in Independent(labels, involved) <==> l in labels && l.id !in involved
  {
    if labels != [] {
      var init, last := labels[..|labels| - 1], labels[|labels| - 1];
      FreeMember(init, involved, l);
      assert labels == init + [last];
    }
  }

  /** Labels without a hazard leave phase 3 as they entered phase 2. */
  lemma FreeLabels(entering: seq<Label>, annotated: seq<Label>, granularity: string, l: Label)
    requires WellFormedBatch(entering) && IsAnnotated(entering, annotated, granularity)
    ensures l in Independent(annotated, Involved(annotated)) <==>
      l in entering && !HasHazard(entering, l, granularity)
  {
    FreeMember(annotated, Involved(annotated), l);
    forall i | 0 <= i < |entering|
      ensures annotated[i].id == entering[i].id
      ensures annotated[i].id in Involved(annotated) <==> HasHazard(entering, entering[i], granularity)
      ensures annotated[i].id !in Involved(annotated) ==> annotated[i] == entering[i]
    {
      InvolvedExact(entering, annotated, granularity, i);
      UninvolvedUnchanged(entering, annotated, granularity, i);
    }
    if l in annotated && l.id !in Involved(annotated) {
      var i :| 0 <= i < |annotated| && annotated[i] == l;
    }
    if l in entering && !HasHazard(entering, l, granularity) {
      var i :| 0 <= i < |entering| && entering[i] == l;
    }
  }

  ghost predicate Unhazarded(free: seq<Label>, entering: seq<Label>, granularity: string) {
    forall l :: l in free <==> l in entering && !HasHazard(entering, l, granularity)
  }

  lemma FreeOf(entering: seq<Label>, granularity: string, lookup: Option<Lookup>, result: ShuffleResult)
    returns (free: seq<Label>)
    requires WellFormedBatch(entering) && IsSchedule(entering, granularity, lookup, result)
    ensures Unhazarded(free, entering, granularity)
    ensures result.directRoute == DirectRoutes(free, lookup) && result.independent == Unrouted(free, lookup)
  {
    var annotated :| IsAnnotated(entering, annotated, granularity) && Schedules(annotated, granularity, lookup, result);
    free := Independent(annotated, Involved(annotated));
    forall l
      ensures l in free <==> l in entering && !HasHazard(entering, l, granularity)
    {
      FreeLabels(entering, annotated, granularity, l);
    }
  }

  lemma RouteHeld(l: Label, lookup: Option<Lookup>, worker: int)
    requires WellFormed(l)
    ensures RouteOf(l, lookup) == Some(worker) <==> HeldAt(l, lookup, worker)
  {
  }

  /** A label goes directly to a worker exactly if it is a read without a hazard
      and the catalog knows that this worker holds its bytes. */
  lemma RoutedExact(
      entering: seq<Label>, granularity: string, lookup: Option<Lookup>, result: ShuffleResult, l: Label, worker: int)
    requires WellFormedBatch(entering) && IsSchedule(entering, granularity, lookup, result)
    ensures (l, worker) in result.directRoute <==>
      l in entering && !HasHazard(entering, l, granularity) && HeldAt(l, lookup, worker)
  {
    var free := FreeOf(entering, granularity, lookup, result);
    RoutedMember(free, lookup, l, worker);
    if l in entering {
      RouteHeld(l, lookup, worker);
    }
  }

  ghost predicate HeldSomewhere(l: Label, lookup: Option<Lookup>) {
    exists worker :: HeldAt(l, lookup, worker)
  }

  /** The scheduler is left with the labels without a hazard that no known worker
      can serve. */
  lemma IndependentExact(
      entering: seq<Label>, granularity: string, lookup: Option<Lookup>, result: ShuffleResult, l: Label)
    requires WellFormedBatch(entering) && IsSchedule(entering, granularity, lookup, result)
    ensures l in result.independent <==>
      l in entering && !HasHazard(entering, l, granularity) && !HeldSomewhere(l, lookup)
  {
    var free := FreeOf(entering, granularity, lookup, result);
    UnroutedMember(free, lookup, l);
    if l in entering && RouteOf(l, lookup).Some? {
      RouteHeld(l, lookup, RouteOf(l, lookup).value);
    }
  }

  // ---------------------------------------------------------------------------
  // Supertasks
  // ---------------------------------------------------------------------------

  lemma KeyOfGroup(labels: seq<Label>, granularity: string, key: string, l: Label)
    requires l in WithKey(labels, granularity, key)
    ensures l in labels && GroupKey(l, granularity) == key
  {
    WithKeyCount(labels, granularity, key, l);
    assert l in multiset(WithKey(labels, granularity, key));
    assert l in multiset(labels);
  }

  /** A child of a supertask is an involved label of its group, which the
      supertask's id has been written on. */
  lemma ChildOrigin(st: Supertask, group: seq<Label>, c: nat) returns (l: Label)
    requires IsSupertask(st, group) && c < |st.children|
    ensures l in group && st.children[c] == l.(supertaskId := st.composite.id)
  {
    var sorted :| sorted != [] && multiset(sorted) == multiset(group) && AscendingIds(sorted)
               && st == SupertaskOf(sorted);
    l := sorted[c];
    assert l in multiset(group);
  }

  /** The composite stands for its children: it has the least of their ids, lists
      them in execution order and is named on each of them. */
  lemma CompositeRecord(st: Supertask, group: seq<Label>)
    requires IsSupertask(st, group)
    ensures st.children != [] && AscendingIds(st.children)
    ensures st.composite.kind == Composite && st.composite.children == Ids(st.children)
    ensures st.composite.id == st.children[0].id
    ensures forall c :: c in st.children ==> c.supertaskId == st.composite.id <= c.id
  {
    var sorted :| sorted != [] && multiset(sorted) == multiset(group) && AscendingIds(sorted)
               && st == SupertaskOf(sorted);
    assert Ids(st.children) == Ids(sorted);
  }

  /** Two children have the same supertask exactly if they are in the same group. */
  lemma SupertasksExact(
      annotated: seq<Label>, granularity: string, supertasks: seq<Supertask>, j: nat, k: nat, a: nat, b: nat)
    requires AreSupertasks(supertasks, annotated, granularity)
    requires j < |supertasks| && k < |supertasks| && a < |supertasks[j].children| && b < |supertasks[k].children|
    ensures SameGroup(supertasks[j].children[a], supertasks[k].children[b], granularity) <==> j == k
  {
    var dependent := Dependent(annotated, Involved(annotated));
    var keys := KeyOrder(dependent, granularity);
    KeyOrderFacts(dependent, granularity);
    var x := ChildOrigin(supertasks[j], WithKey(dependent, granularity, keys[j]), a);
    var y := ChildOrigin(supertasks[k], WithKey(dependent, granularity, keys[k]), b);
    KeyOfGroup(dependent, granularity, keys[j], x);
    KeyOfGroup(dependent, granularity, keys[k], y);
    GroupKeyMeans(x, y, granularity);
  }
}
