/** What phase 1 of the shuffler computes: the writes of a file, sorted by
    offset, are cut into maximal runs of adjacent writes and every run becomes
    one label. */
module Aggregate {
  import opened Basics
  import opened Labels

  function Start(l: Label): nat {
    GetRange(l.destination).offset
  }

  /** The 64-bit end offset of a write, which may wrap around. */
  function EndOf(l: Label): nat {
    Add64(Start(l), l.dataSize)
  }

  // ---------------------------------------------------------------------------
  // Grouping by file
  // ---------------------------------------------------------------------------

  function WithKey(labels: seq<Label>, granularity: string, key: string): seq<Label> {
    if labels == [] then []
    else
      var last := labels[|labels| - 1];
      WithKey(labels[..|labels| - 1], granularity, key) + if GroupKey(last, granularity) == key then [last] else []
  }

  /** Group keys in order of first appearance. */
  function KeyOrder(labels: seq<Label>, granularity: string): seq<string> {
    if labels == [] then []
    else
      var earlier, key := KeyOrder(labels[..|labels| - 1], granularity), GroupKey(labels[|labels| - 1], granularity);
      if key in earlier then earlier else earlier + [key]
  }

  function WritesIn(labels: seq<Label>): seq<Label> {
    if labels == [] then []
    else
      var last := labels[|labels| - 1];
      WritesIn(labels[..|labels| - 1]) + if last.kind == Write then [last] else []
  }

  function OthersIn(labels: seq<Label>): seq<Label> {
    if labels == [] then []
    else
      var last := labels[|labels| - 1];
      OthersIn(labels[..|labels| - 1]) + if last.kind == Write then [] else [last]
  }

  ghost predicate SortedByOffset(writes: seq<Label>) {
    forall i, j :: 0 <= i < j < |writes| ==> Start(writes[i]) <= Start(writes[j])
  }

  /** `sorts` holds, for every file of the batch, one ordering of its writes by
      offset; equal offsets may come in any order. */
  ghost predicate IsSorting(labels: seq<Label>, sorts: map<string, seq<Label>>) {
    forall key :: key in KeyOrder(labels, PER_FILE) ==>
      && key in sorts
      && SortedByOffset(sorts[key])
      && multiset(sorts[key]) == multiset(WritesIn(WithKey(labels, PER_FILE, key)))
  }

  // ---------------------------------------------------------------------------
  // Cutting into runs
  // ---------------------------------------------------------------------------

  predicate NonEmptyRuns(runs: seq<seq<Label>>) {
    forall k :: 0 <= k < |runs| ==> runs[k] != []
  }

  /** The end of the run that reaches position `j`. */
  function RunEnd(writes: seq<Label>, j: nat): (end: nat)
    requires 0 < j <= |writes|
    ensures j <= end <= |writes|
    decreases |writes| - j
  {
    if j < |writes| && Start(writes[j]) == EndOf(writes[j - 1]) then RunEnd(writes, j + 1) else j
  }

  function SplitFrom(writes: seq<Label>, i: nat): (runs: seq<seq<Label>>)
    requires i <= |writes|
    ensures NonEmptyRuns(runs)
    decreases |writes| - i
  {
    if i == |writes| then []
    else
      var j := RunEnd(writes, i + 1);
      [writes[i..j]] + SplitFrom(writes, j)
  }

  function Singles(labels: seq<Label>): (runs: seq<seq<Label>>)
    ensures |runs| == |labels|
    ensures forall i :: 0 <= i < |runs| ==> runs[i] == [labels[i]]
  {
    seq(|labels|, i requires 0 <= i < |labels| => [labels[i]])
  }

  function RunsOfGroup(group: seq<Label>, sorted: seq<Label>): (runs: seq<seq<Label>>)
    ensures NonEmptyRuns(runs)
  {
    Singles(OthersIn(group)) + SplitFrom(sorted, 0)
  }

  /** The runs of the batch, file by file. */
  function RunsOver(labels: seq<Label>, keys: seq<string>, sorts: map<string, seq<Label>>): (runs: seq<seq<Label>>)
    ensures NonEmptyRuns(runs)
  {
    if keys == [] then []
    else
      var key := keys[|keys| - 1];
      RunsOver(labels, keys[..|keys| - 1], sorts)
      + RunsOfGroup(WithKey(labels, PER_FILE, key), if key in sorts then sorts[key] else [])
  }

  lemma OneGroup(labels: seq<Label>, key: string, sorts: map<string, seq<Label>>)
    requires key in sorts
    ensures RunsOver(labels, [key], sorts) == RunsOfGroup(WithKey(labels, PER_FILE, key), sorts[key])
  {
    assert [key][..0] == [] && RunsOver(labels, [], sorts) == [];
  }

  // ---------------------------------------------------------------------------
  // Merging a run
  // ---------------------------------------------------------------------------

  function TotalSize(run: seq<Label>): nat {
    if run == [] then 0 else Add64(TotalSize(run[..|run| - 1]), run[|run| - 1].dataSize)
  }

  function Ids(run: seq<Label>): (ids: seq<nat>)
    ensures |ids| == |run|
    ensures forall i :: 0 <= i < |run| ==> ids[i] == run[i].id
  {
    seq(|run|, i requires 0 <= i < |run| => run[i].id)
  }

  /** The reply addresses of a run; a label without one contributes nothing. */
  function Replies(run: seq<Label>): seq<string> {
    if run == [] then []
    else
      var last := run[|run| - 1];
      Replies(run[..|run| - 1]) + if last.replyTo != "" then [last.replyTo] else []
  }

  function Merge(run: seq<Label>): Label
    requires run != []
  {
    var first := run[0];
    if |run| == 1 then first
    else
      Label(
        first.id, Write, first.source,
        FilePath(if first.destination.FilePath? then first.destination.path else "", Start(first), TotalSize(run)),
        TotalSize(run), first.fileKey, first.appId, first.attributes, first.replyTo,
        [], Ids(run), 0, Aggregation(Ids(run), Start(first), TotalSize(run)))
  }

  function MergeAll(runs: seq<seq<Label>>): (output: seq<Label>)
    requires NonEmptyRuns(runs)
    ensures |output| == |runs|
    ensures forall i :: 0 <= i < |runs| ==> output[i] == Merge(runs[i])
  {
    seq(|runs|, i requires 0 <= i < |runs| => Merge(runs[i]))
  }

  /** For each merged label, the addresses its completion is fanned out to. */
  function FanoutOf(runs: seq<seq<Label>>): map<nat, seq<string>>
    requires NonEmptyRuns(runs)
  {
    if runs == [] then map[]
    else
      var fanout, run := FanoutOf(runs[..|runs| - 1]), runs[|runs| - 1];
      if |run| > 1 && |Replies(run)| > 1 then fanout[run[0].id := Replies(run)] else fanout
  }

  /** `runs` is how phase 1 cuts `labels`; with aggregation off every label
      stays alone. */
  ghost predicate IsAggregation(enabled: bool, labels: seq<Label>, runs: seq<seq<Label>>) {
    if enabled then
      exists sorts :: IsSorting(labels, sorts) && runs == RunsOver(labels, KeyOrder(labels, PER_FILE), sorts)
    else
      runs == Singles(labels)
  }

  /** What phase 1 returns, for one way to cut the batch into runs. */
  ghost predicate AggregatedBy(
      enabled: bool, labels: seq<Label>, runs: seq<seq<Label>>, output: seq<Label>, fanout: map<nat, seq<string>>) {
    && IsAggregation(enabled, labels, runs) && NonEmptyRuns(runs)
    && output == MergeAll(runs) && fanout == FanoutOf(runs)
  }

  ghost predicate Aggregated(enabled: bool, labels: seq<Label>, output: seq<Label>, fanout: map<nat, seq<string>>) {
    exists runs :: AggregatedBy(enabled, labels, runs, output, fanout)
  }

  // ---------------------------------------------------------------------------
  // Conservation
  // ---------------------------------------------------------------------------

  lemma {:induction false} WithKeyCount(labels: seq<Label>, granularity: string, key: string, l: Label)
    ensures multiset(WithKey(labels, granularity, key))[l]
         == if GroupKey(l, granularity) == key then multiset(labels)[l] else 0
  {
    if labels != [] {
      var init, last := labels[..|labels| - 1], labels[|labels| - 1];
      WithKeyCount(init, granularity, key, l);
      assert labels == init + [last];
      CountSnoc(init, last, l);
      CountSnoc(WithKey(init, granularity, key), last, l);
    }
  }

  lemma WritesSnoc(init: seq<Label>, last: Label)
    ensures WritesIn(init + [last]) == if last.kind == Write then WritesIn(init) + [last] else WritesIn(init)
    ensures OthersIn(init + [last]) == if last.kind == Write then OthersIn(init) else OthersIn(init) + [last]
  {
    assert (init + [last])[..|init|] == init;
  }

  lemma {:induction false} WritesAndOthersCount(labels: seq<Label>, l: Label)
    ensures multiset(WritesIn(labels))[l] + multiset(OthersIn(labels))[l] == multiset(labels)[l]
  {
    if labels != [] {
      var init, last := labels[..|labels| - 1], labels[|labels| - 1];
      WritesAndOthersCount(init, l);
      assert labels == init + [last];
      WritesSnoc(init, last);
      CountSnoc(init, last, l);
      CountSnoc(WritesIn(init), last, l);
      CountSnoc(OthersIn(init), last, l);
    }
  }

  lemma {:induction false} WritesInMember(labels: seq<Label>, l: Label)
    ensures l in WritesIn(labels) <==> l in labels && l.kind == Write
    ensures l in OthersIn(labels) <==> l in labels && l.kind != Write
  {
    if labels != [] {
      WritesInMember(labels[..|labels| - 1], l);
      assert labels == labels[..|labels| - 1] + [labels[|labels| - 1]];
    }
  }

  lemma {:induction false} KeyOrderFacts(labels: seq<Label>, granularity: string)
    ensures Distinct(KeyOrder(labels, granularity))
    ensures forall l :: l in labels ==> GroupKey(l, granularity) in KeyOrder(labels, granularity)
    ensures forall key :: key in KeyOrder(labels, granularity) ==> WithKey(labels, granularity, key) != []
  {
    if labels != [] {
      KeyOrderFacts(labels[..|labels| - 1], granularity);
      assert labels == labels[..|labels| - 1] + [labels[|labels| - 1]];
    }
  }

  lemma {:induction false} KeyOrderPrefix(labels: seq<Label>, granularity: string, n: nat)
    requires n <= |labels|
    ensures KeyOrder(labels[..n], granularity) <= KeyOrder(labels, granularity)
  {
    if n < |labels| {
      KeyOrderPrefix(labels[..|labels| - 1], granularity, n);
      assert labels[..|labels| - 1][..n] == labels[..n];
    } else {
      assert labels[..n] == labels;
    }
  }

  lemma {:induction false} KeyOrderMember(labels: seq<Label>, granularity: string, key: string)
    ensures key in KeyOrder(labels, granularity) <==> exists l :: l in labels && GroupKey(l, granularity) == key
  {
    if labels != [] {
      KeyOrderMember(labels[..|labels| - 1], granularity, key);
      assert labels == labels[..|labels| - 1] + [labels[|labels| - 1]];
    }
  }

  /** Groups come in order of first appearance: one that first appears at `j` comes
      after exactly the groups of the labels before `j`. */
  lemma KeyOrderExact(labels: seq<Label>, granularity: string, j: nat, key: string) returns (p: nat)
    requires j < |labels|
    requires forall l :: l in labels[..j] ==> GroupKey(l, granularity) != GroupKey(labels[j], granularity)
    ensures p < |KeyOrder(labels, granularity)| && KeyOrder(labels, granularity)[p] == GroupKey(labels[j], granularity)
    ensures key in KeyOrder(labels, granularity)[..p] <==>
      exists l :: l in labels[..j] && GroupKey(l, granularity) == key
  {
    var earlier := KeyOrder(labels[..j], granularity);
    p := |earlier|;
    KeyOrderMember(labels[..j], granularity, GroupKey(labels[j], granularity));
    KeyOrderMember(labels[..j], granularity, key);
    KeyOrderPrefix(labels, granularity, j + 1);
    assert labels[..j + 1][..j] == labels[..j];
    assert KeyOrder(labels[..j + 1], granularity) == earlier + [GroupKey(labels[j], granularity)];
    assert KeyOrder(labels, granularity)[..p] == earlier;
  }

  lemma {:induction false} SplitKeepsOrder(writes: seq<Label>, i: nat)
    requires i <= |writes|
    ensures Flatten(SplitFrom(writes, i)) == writes[i..]
    decreases |writes| - i
  {
    if i < |writes| {
      var j := RunEnd(writes, i + 1);
      SplitKeepsOrder(writes, j);
      assert writes[i..] == writes[i..j] + writes[j..];
    }
  }

  lemma {:induction false} FlattenSingles(labels: seq<Label>)
    ensures Flatten(Singles(labels)) == labels
  {
    if labels != [] {
      FlattenSingles(labels[1..]);
      assert Singles(labels)[1..] == Singles(labels[1..]);
    }
  }

  lemma GroupConserved(group: seq<Label>, sorted: seq<Label>)
    requires multiset(sorted) == multiset(WritesIn(group))
    ensures multiset(Flatten(RunsOfGroup(group, sorted))) == multiset(group)
  {
    FlattenAppend(Singles(OthersIn(group)), SplitFrom(sorted, 0));
    FlattenSingles(OthersIn(group));
    SplitKeepsOrder(sorted, 0);
    assert sorted[0..] == sorted;
    forall l: Label
      ensures multiset(Flatten(RunsOfGroup(group, sorted)))[l] == multiset(group)[l]
    {
      WritesAndOthersCount(group, l);
    }
  }

  lemma {:induction false} RunsOverCount(
      labels: seq<Label>, keys: seq<string>, sorts: map<string, seq<Label>>, l: Label)
    requires Distinct(keys)
    requires forall key :: key in keys ==>
      key in sorts && multiset(sorts[key]) == multiset(WritesIn(WithKey(labels, PER_FILE, key)))
    ensures multiset(Flatten(RunsOver(labels, keys, sorts)))[l]
         == if l.fileKey in keys then multiset(labels)[l] else 0
  {
    if keys != [] {
      var rest, key := keys[..|keys| - 1], keys[|keys| - 1];
      assert keys == rest + [key];
      RunsOverCount(labels, rest, sorts, l);
      FlattenAppend(RunsOver(labels, rest, sorts), RunsOfGroup(WithKey(labels, PER_FILE, key), sorts[key]));
      GroupConserved(WithKey(labels, PER_FILE, key), sorts[key]);
      WithKeyCount(labels, PER_FILE, key, l);
    }
  }

  /** Phase 1 neither loses nor duplicates a label: the runs hold exactly the batch. */
  lemma RunsConserved(enabled: bool, labels: seq<Label>, runs: seq<seq<Label>>)
    requires IsAggregation(enabled, labels, runs)
    ensures multiset(Flatten(runs)) == multiset(labels)
  {
    if enabled {
      var sorts :| IsSorting(labels, sorts) && runs == RunsOver(labels, KeyOrder(labels, PER_FILE), sorts);
      KeyOrderFacts(labels, PER_FILE);
      forall l: Label
        ensures multiset(Flatten(runs))[l] == multiset(labels)[l]
      {
        RunsOverCount(labels, KeyOrder(labels, PER_FILE), sorts, l);
        assert l !in labels ==> multiset(labels)[l] == 0;
      }
    } else {
      FlattenSingles(labels);
    }
  }

  // ---------------------------------------------------------------------------
  // Ids of merged labels
  // ---------------------------------------------------------------------------

  lemma {:induction false} UniqueHeads(runs: seq<seq<Label>>)
    requires NonEmptyRuns(runs) && UniqueIds(Flatten(runs))
    ensures UniqueIds(MergeAll(runs))
  {
    if runs != [] {
      var rest := runs[1..];
      assert Flatten(rest) == Flatten(runs)[|runs[0]|..];
      UniqueHeads(rest);
      forall k | 0 < k < |runs|
        ensures MergeAll(runs)[k].id != MergeAll(runs)[0].id
      {
        assert runs[k][0] in rest[k - 1];
        FlattenMember(rest, runs[k][0]);
        assert runs[k][0] in Flatten(rest);
        assert Flatten(runs)[0] == runs[0][0];
      }
      assert MergeAll(rest) == MergeAll(runs)[1..];
    }
  }

  /** Merged labels still have unique ids. */
  lemma MergedIdsUnique(enabled: bool, labels: seq<Label>, runs: seq<seq<Label>>)
    requires IsAggregation(enabled, labels, runs) && UniqueIds(labels)
    ensures NonEmptyRuns(runs) && UniqueIds(MergeAll(runs))
  {
    RunsConserved(enabled, labels, runs);
    UniqueIdsTransfer(labels, Flatten(runs));
    UniqueHeads(runs);
  }
}
