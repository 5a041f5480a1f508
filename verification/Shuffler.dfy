/** The shuffler itself: the four phases as the dispatcher runs them on a batch. */
module Shuffler {
  import opened Basics
  import opened Labels
  import opened Aggregate
  import opened Hazards
  import opened Schedule
  import opened Sorting

  // ---------------------------------------------------------------------------
  // Sorting
  // ---------------------------------------------------------------------------

  method SortByOffset(writes: seq<Label>) returns (sorted: seq<Label>)
    ensures multiset(sorted) == multiset(writes) && SortedByOffset(sorted)
  {
    var leq := (a: Label, b: Label) => Start(a) <= Start(b);
    sorted := SortBy(writes, leq);
    assert forall i, j :: 0 <= i < j < |sorted| ==> leq(sorted[i], sorted[j]);
  }

  method SortById(labels: seq<Label>) returns (sorted: seq<Label>)
    ensures multiset(sorted) == multiset(labels) && AscendingIds(sorted)
  {
    var leq := (a: Label, b: Label) => a.id <= b.id;
    sorted := SortBy(labels, leq);
    assert forall i, j :: 0 <= i < j < |sorted| ==> leq(sorted[i], sorted[j]);
  }

  // ---------------------------------------------------------------------------
  // Grouping
  // ---------------------------------------------------------------------------

  /** Groups labels by key, remembering the order in which keys first appear. */
  method GroupBy(labels: seq<Label>, granularity: string)
    returns (groups: map<string, seq<Label>>, order: seq<string>)
    ensures order == KeyOrder(labels, granularity)
    ensures forall key :: key in groups <==> key in order
    ensures forall key :: key in order ==> groups[key] == WithKey(labels, granularity, key)
  {
    groups, order := map[], [];
    for i := 0 to |labels|
      invariant order == KeyOrder(labels[..i], granularity)
      invariant forall key :: key in groups <==> key in order
      invariant forall key :: key !in order ==> WithKey(labels[..i], granularity, key) == []
      invariant forall key :: key in order ==> groups[key] == WithKey(labels[..i], granularity, key)
    {
      var key := GroupKey(labels[i], granularity);
      assert labels[..i + 1][..i] == labels[..i] && labels[..i + 1][i] == labels[i];
      if key !in groups {
        groups := groups[key := []];
        order := order + [key];
      }
      groups := groups[key := groups[key] + [labels[i]]];
    }
    assert labels[..|labels|] == labels;
  }

  // ---------------------------------------------------------------------------
  // Merging
  // ---------------------------------------------------------------------------

  /** Merges one run of at least two adjacent writes; `replies` are the addresses
      waiting for it. */
  method MergeRun(run: seq<Label>) returns (merged: Label, replies: seq<string>)
    requires |run| > 1
    ensures merged == Merge(run) && replies == Replies(run)
  {
    var first := run[0];
    var totalSize := 0;
    var childIds: seq<nat> := [];
    for k := 0 to |run|
      invariant totalSize == TotalSize(run[..k]) && childIds == Ids(run[..k])
    {
      assert run[..k + 1][..k] == run[..k];
      totalSize := Add64(totalSize, run[k].dataSize);
      childIds := childIds + [run[k].id];
    }
    assert run[..|run|] == run;
    var path := if first.destination.FilePath? then first.destination.path else "";
    merged := Label(
      first.id, Write, first.source, FilePath(path, Start(first), totalSize), totalSize,
      first.fileKey, first.appId, first.attributes, first.replyTo,
      [], childIds, 0, Aggregation(childIds, Start(first), totalSize));
    replies := [];
    for k := 0 to |run|
      invariant replies == Replies(run[..k])
    {
      assert run[..k + 1][..k] == run[..k];
      if run[k].replyTo != "" {
        replies := replies + [run[k].replyTo];
      }
    }
  }

  /** Scans for the end of the run of adjacent writes that starts at `i`. */
  method FindRunEnd(writes: seq<Label>, i: nat) returns (j: nat)
    requires i < |writes|
    ensures i < j <= |writes| && j == RunEnd(writes, i + 1)
  {
    var runEndOffset := Add64(Start(writes[i]), writes[i].dataSize);
    j := i + 1;
    while j < |writes|
      invariant i < j <= |writes| && runEndOffset == EndOf(writes[j - 1])
      invariant RunEnd(writes, i + 1) == RunEnd(writes, j)
    {
      if Start(writes[j]) == runEndOffset {
        runEndOffset := Add64(Start(writes[j]), writes[j].dataSize);
        j := j + 1;
      } else {
        break;
      }
    }
  }

  lemma AppendRun(runs: seq<seq<Label>>, run: seq<Label>)
    requires NonEmptyRuns(runs) && run != []
    ensures MergeAll(runs + [run]) == MergeAll(runs) + [Merge(run)]
    ensures FanoutOf(runs + [run])
         == if |run| > 1 && |Replies(run)| > 1 then FanoutOf(runs)[run[0].id := Replies(run)] else FanoutOf(runs)
  {
    assert (runs + [run])[..|runs|] == runs;
  }

  lemma SplitStep(runs: seq<seq<Label>>, writes: seq<Label>, i: nat, j: nat)
    requires i < |writes| && j == RunEnd(writes, i + 1)
    ensures (runs + [writes[i..j]]) + SplitFrom(writes, j) == runs + SplitFrom(writes, i)
  {
  }

  /** Appends each run of the sorted writes, merged, to the output. */
  method MergeRuns(
      writes: seq<Label>, ghost runs0: seq<seq<Label>>, output0: seq<Label>, fanout0: map<nat, seq<string>>)
    returns (output: seq<Label>, fanout: map<nat, seq<string>>)
    requires NonEmptyRuns(runs0) && output0 == MergeAll(runs0) && fanout0 == FanoutOf(runs0)
    ensures output == MergeAll(runs0 + SplitFrom(writes, 0))
    ensures fanout == FanoutOf(runs0 + SplitFrom(writes, 0))
  {
    output, fanout := output0, fanout0;
    ghost var runs := runs0;
    var i := 0;
    while i < |writes|
      invariant i <= |writes| && NonEmptyRuns(runs)
      invariant runs + SplitFrom(writes, i) == runs0 + SplitFrom(writes, 0)
      invariant output == MergeAll(runs) && fanout == FanoutOf(runs)
    {
      var j := FindRunEnd(writes, i);
      AppendRun(runs, writes[i..j]);
      if j - i == 1 {
        output := output + [writes[i]];
      } else {
        var merged, replies := MergeRun(writes[i..j]);
        if |replies| > 1 {
          fanout := fanout[merged.id := replies];
        }
        output := output + [merged];
      }
      SplitStep(runs, writes, i, j);
      runs := runs + [writes[i..j]];
      i := j;
    }
    assert runs + SplitFrom(writes, i) == runs;
  }

  /** Passes the non-writes of a group on to the output and collects its writes. */
  method SeparateWrites(group: seq<Label>, ghost runs: seq<seq<Label>>, output0: seq<Label>)
    returns (writes: seq<Label>, output: seq<Label>)
    requires NonEmptyRuns(runs) && output0 == MergeAll(runs)
    ensures writes == WritesIn(group)
    ensures output == MergeAll(runs + Singles(OthersIn(group)))
    ensures FanoutOf(runs + Singles(OthersIn(group))) == FanoutOf(runs)
  {
    writes, output := [], output0;
    assert runs + Singles([]) == runs;
    for i := 0 to |group|
      invariant writes == WritesIn(group[..i])
      invariant output == MergeAll(runs + Singles(OthersIn(group[..i])))
      invariant FanoutOf(runs + Singles(OthersIn(group[..i]))) == FanoutOf(runs)
    {
      assert group[..i + 1][..i] == group[..i];
      if group[i].kind == Write {
        writes := writes + [group[i]];
        assert OthersIn(group[..i + 1]) == OthersIn(group[..i]);
      } else {
        output := output + [group[i]];
        AppendSingle(runs, OthersIn(group[..i]), group[i]);
        assert OthersIn(group[..i + 1]) == OthersIn(group[..i]) + [group[i]];
      }
    }
    assert group[..|group|] == group;
  }

  lemma SinglesNoFanout(labels: seq<Label>)
    ensures MergeAll(Singles(labels)) == labels && FanoutOf(Singles(labels)) == map[]
  {
    if labels != [] {
      SinglesNoFanout(labels[..|labels| - 1]);
      assert Singles(labels)[..|labels| - 1] == Singles(labels[..|labels| - 1]);
    }
  }

  lemma AppendSingle(runs: seq<seq<Label>>, others: seq<Label>, l: Label)
    requires NonEmptyRuns(runs)
    ensures MergeAll(runs + Singles(others + [l])) == MergeAll(runs + Singles(others)) + [l]
    ensures FanoutOf(runs + Singles(others + [l])) == FanoutOf(runs + Singles(others))
  {
    var longer := runs + Singles(others + [l]);
    assert longer[..|longer| - 1] == runs + Singles(others);
  }

  /** Aggregates the labels of one file. */
  method AggregateGroup(
      group: seq<Label>, ghost runs: seq<seq<Label>>, output0: seq<Label>, fanout0: map<nat, seq<string>>)
    returns (output: seq<Label>, fanout: map<nat, seq<string>>, ghost sorted: seq<Label>)
    requires NonEmptyRuns(runs) && output0 == MergeAll(runs) && fanout0 == FanoutOf(runs)
    ensures multiset(sorted) == multiset(WritesIn(group)) && SortedByOffset(sorted)
    ensures output == MergeAll(runs + RunsOfGroup(group, sorted))
    ensures fanout == FanoutOf(runs + RunsOfGroup(group, sorted))
  {
    var writes, passed := SeparateWrites(group, runs, output0);
    var sortedWrites := SortByOffset(writes);
    sorted := sortedWrites;
    output, fanout := MergeRuns(sortedWrites, runs + Singles(OthersIn(group)), passed, fanout0);
    GroupRuns(runs, group, sorted);
  }

  lemma GroupRuns(runs: seq<seq<Label>>, group: seq<Label>, sorted: seq<Label>)
    ensures (runs + Singles(OthersIn(group))) + SplitFrom(sorted, 0) == runs + RunsOfGroup(group, sorted)
  {
  }

  ghost predicate SortsFor(labels: seq<Label>, keys: seq<string>, sorts: map<string, seq<Label>>) {
    forall key :: key in keys ==>
      && key in sorts
      && SortedByOffset(sorts[key])
      && multiset(sorts[key]) == multiset(WritesIn(WithKey(labels, PER_FILE, key)))
  }

  lemma {:induction false} SortsIrrelevant(
      labels: seq<Label>, keys: seq<string>, sorts: map<string, seq<Label>>, key: string, sorted: seq<Label>)
    requires key !in keys
    ensures RunsOver(labels, keys, sorts[key := sorted]) == RunsOver(labels, keys, sorts)
  {
    if keys != [] {
      SortsIrrelevant(labels, keys[..|keys| - 1], sorts, key, sorted);
    }
  }

  lemma RunsOverSnoc(labels: seq<Label>, keys: seq<string>, key: string, sorts: map<string, seq<Label>>)
    requires key in sorts
    ensures RunsOver(labels, keys + [key], sorts)
         == RunsOver(labels, keys, sorts) + RunsOfGroup(WithKey(labels, PER_FILE, key), sorts[key])
  {
    assert (keys + [key])[..|keys|] == keys;
  }

  lemma SortsForSnoc(
      labels: seq<Label>, keys: seq<string>, key: string, sorts: map<string, seq<Label>>, sorted: seq<Label>)
    requires SortsFor(labels, keys, sorts) && SortedByOffset(sorted)
    requires multiset(sorted) == multiset(WritesIn(WithKey(labels, PER_FILE, key)))
    ensures SortsFor(labels, keys + [key], sorts[key := sorted])
  {
  }

  lemma NextGroup(labels: seq<Label>, order: seq<string>, k: nat, sorts: map<string, seq<Label>>, sorted: seq<Label>)
    requires k < |order| && Distinct(order) && SortsFor(labels, order[..k], sorts)
    requires SortedByOffset(sorted)
    requires multiset(sorted) == multiset(WritesIn(WithKey(labels, PER_FILE, order[k])))
    ensures SortsFor(labels, order[..k + 1], sorts[order[k] := sorted])
    ensures RunsOver(labels, order[..k + 1], sorts[order[k] := sorted])
         == RunsOver(labels, order[..k], sorts) + RunsOfGroup(WithKey(labels, PER_FILE, order[k]), sorted)
  {
    var done, key := order[..k], order[k];
    assert order[..k + 1] == done + [key];
    assert key !in done;
    SortsIrrelevant(labels, done, sorts, key, sorted);
    RunsOverSnoc(labels, done, key, sorts[key := sorted]);
    SortsForSnoc(labels, done, key, sorts, sorted);
  }

  /** All groups but the `pending` ones are annotated. */
  ghost predicate AnnotatedExcept(before: seq<Label>, now: seq<Label>, granularity: string, pending: set<string>) {
    && |now| == |before|
    && forall x :: 0 <= x < |before| ==>
         if GroupKey(before[x], granularity) in pending then now[x] == before[x]
         else HazardsAppended(before, before[x], now[x], granularity)
  }

  lemma GroupDone(
      before: seq<Label>, was: seq<Label>, now: seq<Label>, granularity: string, pending: set<string>,
      key: string, indices: seq<nat>)
    requires AnnotatedExcept(before, was, granularity, pending)
    requires |now| == |before| && InRange(indices, |before|) && StrictlyById(before, indices)
    requires forall y :: 0 <= y < |before| ==> (GroupKey(before[y], granularity) == key <==> y in indices)
    requires OthersUntouched(was, now, indices)
    requires At(now, indices, RecordedSoFar(before, indices, |indices|, |indices|))
    ensures AnnotatedExcept(before, now, granularity, pending - {key})
  {
    forall x | 0 <= x < |before|
      ensures if GroupKey(before[x], granularity) in pending - {key} then now[x] == before[x]
              else HazardsAppended(before, before[x], now[x], granularity)
    {
      if GroupKey(before[x], granularity) == key {
        GroupAnnotated(before, now, granularity, key, indices, x);
      }
    }
  }

  // ---------------------------------------------------------------------------
  // Supertasks
  // ---------------------------------------------------------------------------

  method CollectInvolved(labels: seq<Label>) returns (involved: set<nat>)
    ensures involved == Involved(labels)
  {
    involved := {};
    for i := 0 to |labels|
      invariant involved == Involved(labels[..i])
    {
      assert labels[..i + 1][..i] == labels[..i];
      var deps := labels[i].dependencies;
      if deps != [] {
        involved := involved + {labels[i].id};
        for d := 0 to |deps|
          invariant involved == Involved(labels[..i]) + {labels[i].id} + DependencyIds(deps[..d])
        {
          assert deps[..d + 1] == deps[..d] + [deps[d]];
          involved := involved + {deps[d].labelId};
        }
        assert deps[..|deps|] == deps;
      }
    }
    assert labels[..|labels|] == labels;
  }

  method Partition(labels: seq<Label>, involved: set<nat>) returns (dependent: seq<Label>, independent: seq<Label>)
    ensures dependent == Dependent(labels, involved) && independent == Independent(labels, involved)
  {
    dependent, independent := [], [];
    for i := 0 to |labels|
      invariant dependent == Dependent(labels[..i], involved)
      invariant independent == Independent(labels[..i], involved)
    {
      assert labels[..i + 1][..i] == labels[..i];
      if labels[i].id in involved {
        dependent := dependent + [labels[i]];
      } else {
        independent := independent + [labels[i]];
      }
    }
    assert labels[..|labels|] == labels;
  }

  method MakeSupertask(group: seq<Label>) returns (st: Supertask)
    requires group != []
    ensures IsSupertask(st, group)
  {
    var sorted := SortById(group);
    assert |sorted| == |multiset(sorted)| == |group|;
    var first := sorted[0];
    var childIds: seq<nat> := [];
    var children: seq<Label> := [];
    for i := 0 to |sorted|
      invariant childIds == Ids(sorted[..i])
      invariant |children| == i
      invariant forall j :: 0 <= j < i ==> children[j] == sorted[j].(supertaskId := first.id)
    {
      childIds := childIds + [sorted[i].id];
      children := children + [sorted[i].(supertaskId := first.id)];
    }
    assert sorted[..|sorted|] == sorted;
    var composite := Label(
      first.id, Composite, NoPointer, NoPointer, 0, first.fileKey, first.appId,
      Attributes("", first.attributes.flags, first.attributes.priority, 0, 0, 0),
      "", [], childIds, 0, NO_AGGREGATION);
    st := Supertask(composite, children);
    assert st == SupertaskOf(sorted);
  }

  lemma OneMoreGroup(
      supertasks: seq<Supertask>, dependent: seq<Label>, granularity: string, order: seq<string>, k: nat, st: Supertask)
    requires k < |order| && OnePerGroup(supertasks, dependent, granularity, order[..k])
    requires IsSupertask(st, WithKey(dependent, granularity, order[k]))
    ensures OnePerGroup(supertasks + [st], dependent, granularity, order[..k + 1])
  {
  }

  /** One supertask per group of dependent labels. */
  method MakeSupertasks(dependent: seq<Label>, granularity: string) returns (supertasks: seq<Supertask>)
    ensures OnePerGroup(supertasks, dependent, granularity, KeyOrder(dependent, granularity))
  {
    var groups, order := GroupBy(dependent, granularity);
    KeyOrderFacts(dependent, granularity);
    supertasks := [];
    for k := 0 to |order|
      invariant OnePerGroup(supertasks, dependent, granularity, order[..k])
    {
      var st := MakeSupertask(groups[order[k]]);
      OneMoreGroup(supertasks, dependent, granularity, order, k, st);
      supertasks := supertasks + [st];
    }
    assert order[..|order|] == order;
  }

  // ---------------------------------------------------------------------------
  // Routes
  // ---------------------------------------------------------------------------

  method Route(free: seq<Label>, lookup: Option<Lookup>) returns (direct: seq<(Label, int)>, independent: seq<Label>)
    ensures direct == DirectRoutes(free, lookup) && independent == Unrouted(free, lookup)
  {
    direct, independent := [], [];
    for i := 0 to |free|
      invariant direct == DirectRoutes(free[..i], lookup)
      invariant independent == Unrouted(free[..i], lookup)
    {
      assert free[..i + 1][..i] == free[..i];
      var l := free[i];
      if l.kind == Read && lookup.Some? {
        var range := LabelRange(l);
        var location := lookup.value(l.fileKey, range.offset, range.length);
        if location.Some? {
          direct := direct + [(l, location.value)];
          continue;
        }
      }
      independent := independent + [l];
    }
    assert free[..|free|] == free;
  }

  // ---------------------------------------------------------------------------
  // The shuffler
  // ---------------------------------------------------------------------------

  /** The result is a schedule of the batch, aggregated by these runs. */
  ghost predicate ShuffledBy(
      enabled: bool, granularity: string, batch: seq<Label>, runs: seq<seq<Label>>, lookup: Option<Lookup>,
      result: ShuffleResult) {
    && IsAggregation(enabled, batch, runs) && NonEmptyRuns(runs)
    && result.replyFanout == FanoutOf(runs)
    && IsSchedule(MergeAll(runs), granularity, lookup, result)
  }

  ghost predicate Shuffled(
      enabled: bool, granularity: string, batch: seq<Label>, lookup: Option<Lookup>, result: ShuffleResult) {
    exists runs :: ShuffledBy(enabled, granularity, batch, runs, lookup, result)
  }

  class Shuffler {
    const aggregationEnabled: bool
    const granularity: string

    constructor (aggregationEnabled: bool, granularity: string)
      ensures this.aggregationEnabled == aggregationEnabled && this.granularity == granularity
    {
      this.aggregationEnabled := aggregationEnabled;
      this.granularity := granularity;
    }

    /** Phase 1. `runs` shows how the batch was cut. */
    method Aggregate(labels: seq<Label>)
      returns (output: seq<Label>, fanout: map<nat, seq<string>>, ghost runs: seq<seq<Label>>)
      ensures Aggregated(aggregationEnabled, labels, output, fanout)
      ensures AggregatedBy(aggregationEnabled, labels, runs, output, fanout)
    {
      if !aggregationEnabled {
        runs := Singles(labels);
        SinglesNoFanout(labels);
        output, fanout := labels, map[];
        assert AggregatedBy(aggregationEnabled, labels, runs, output, fanout);
        return;
      }
      var groups, order := GroupBy(labels, PER_FILE);
      KeyOrderFacts(labels, PER_FILE);
      output, fanout, runs := [], map[], [];
      ghost var sorts: map<string, seq<Label>> := map[];
      for k := 0 to |order|
        invariant SortsFor(labels, order[..k], sorts)
        invariant NonEmptyRuns(runs) && runs == RunsOver(labels, order[..k], sorts)
        invariant output == MergeAll(runs) && fanout == FanoutOf(runs)
      {
        ghost var sorted;
        output, fanout, sorted := AggregateGroup(groups[order[k]], runs, output, fanout);
        NextGroup(labels, order, k, sorts, sorted);
        sorts, runs := sorts[order[k] := sorted], runs + RunsOfGroup(groups[order[k]], sorted);
      }
      assert order[..|order|] == order;
      assert IsSorting(labels, sorts);
      assert AggregatedBy(aggregationEnabled, labels, runs, output, fanout);
    }

    /** Phase 2, on the labels in place. Ids are unique by construction. */
    method DetectDependencies(labels: array<Label>)
      requires UniqueIds(labels[..])
      modifies labels
      ensures IsAnnotated(old(labels[..]), labels[..], granularity)
    {
      var before := labels[..];
      var groups := GroupIndices(before, granularity);
      var pending := groups.Keys;
      while pending != {}
        invariant pending <= groups.Keys
        invariant AnnotatedExcept(before, labels[..], granularity, pending)
        decreases |pending|
      {
        var key :| key in pending;
        // The order only depends on the ids, which never change.
        var indices := SortIndices(before, groups[key]);
        ghost var was := labels[..];
        GroupMembers(before, granularity, groups, key, indices);
        assert forall a :: 0 <= a < |indices| ==> indices[a] in indices;
        NothingCompared(before, was, indices);
        AnnotateGroup(labels, before, indices);
        GroupDone(before, was, labels[..], granularity, pending, key, indices);
        pending := pending - {key};
      }
    }

    /** Phase 3. */
    method BuildSupertasks(labels: seq<Label>) returns (supertasks: seq<Supertask>, independent: seq<Label>)
      ensures AreSupertasks(supertasks, labels, granularity)
      ensures independent == Independent(labels, Involved(labels))
    {
      var involved := CollectInvolved(labels);
      var dependent;
      dependent, independent := Partition(labels, involved);
      supertasks := MakeSupertasks(dependent, granularity);
    }

    /** The whole pipeline. `runs` shows how phase 1 cut the batch. */
    method Shuffle(
        batch: seq<Label>, lookup: Option<Lookup>)
      returns (result: ShuffleResult, ghost runs: seq<seq<Label>>)
      requires UniqueIds(batch)
      ensures Shuffled(aggregationEnabled, granularity, batch, lookup, result)
      ensures ShuffledBy(aggregationEnabled, granularity, batch, runs, lookup, result)
    {
      var output, fanout;
      output, fanout, runs := Aggregate(batch);
      MergedIdsUnique(aggregationEnabled, batch, runs);
      var remaining := new Label[|output|](i requires 0 <= i < |output| => output[i]);
      assert remaining[..] == output;
      DetectDependencies(remaining);
      ghost var annotated := remaining[..];
      var supertasks, free := BuildSupertasks(remaining[..]);
      var direct, independent := Route(free, lookup);
      result := ShuffleResult(direct, supertasks, independent, fanout);
      assert Schedules(annotated, granularity, lookup, result);
      assert ShuffledBy(aggregationEnabled, granularity, batch, runs, lookup, result);
    }
  }
}
