/** What aggregation promises: merging the adjacent writes of a batch changes no
    byte of any file, leaves nothing to merge, and loses no reply address. */
module AggregationMeaning {
  import opened Basics
  import opened FileStore
  import opened Labels
  import opened Aggregate
  import opened Dispatcher

  /** As clients send it: well-formed and not the product of a merge. */
  predicate IsOriginal(l: Label) {
    WellFormed(l) && l.children == [] && l.aggregation == NO_AGGREGATION
  }

  ghost predicate OriginalBatch(labels: seq<Label>) {
    UniqueIds(labels) && forall l :: l in labels ==> IsOriginal(l)
  }

  /** No two writes of the batch touch the same byte. */
  ghost predicate DisjointWrites(labels: seq<Label>) {
    forall a, b | a in labels && b in labels :: a.kind == Write && b.kind == Write ==>
      a.id == b.id || a.fileKey != b.fileKey || !RangesOverlap(LabelRange(a), LabelRange(b))
  }

  // ---------------------------------------------------------------------------
  // Runs
  // ---------------------------------------------------------------------------

  /** A run is one label, or writes of one file in which each begins where the
      one before ends. */
  ghost predicate IsRun(run: seq<Label>) {
    && run != []
    && (|run| > 1 ==>
          && (forall i :: 0 <= i < |run| ==> run[i].kind == Write && run[i].fileKey == run[0].fileKey)
          && (forall i, j :: 0 <= i < j < |run| && j == i + 1 ==> Start(run[j]) == EndOf(run[i])))
  }

  lemma {:induction false} RunEndChained(writes: seq<Label>, j: nat, m: nat)
    requires 0 < j <= |writes| && j <= m < RunEnd(writes, j)
    ensures Start(writes[m]) == EndOf(writes[m - 1])
    decreases |writes| - j
  {
    if j < m {
      RunEndChained(writes, j + 1, m);
    }
  }

  lemma {:induction false} RunEndMaximal(writes: seq<Label>, j: nat)
    requires 0 < j <= |writes|
    ensures var end := RunEnd(writes, j); end < |writes| ==> Start(writes[end]) != EndOf(writes[end - 1])
    decreases |writes| - j
  {
    if j < |writes| && Start(writes[j]) == EndOf(writes[j - 1]) {
      RunEndMaximal(writes, j + 1);
    }
  }

  /** Each run of a split is a maximal chain `writes[i..j]`. */
  ghost predicate MaximalRun(writes: seq<Label>, run: seq<Label>, i: nat, j: nat) {
    && i < j <= |writes| && run == writes[i..j]
    && (forall m, n :: i <= m < n < j && n == m + 1 ==> Start(writes[n]) == EndOf(writes[m]))
    && (j < |writes| ==> Start(writes[j]) != EndOf(writes[j - 1]))
  }

  lemma {:induction false} SplitIsMaximal(writes: seq<Label>, from: nat, run: seq<Label>)
    requires from <= |writes| && run in SplitFrom(writes, from)
    ensures exists i: nat, j: nat :: MaximalRun(writes, run, i, j)
    decreases |writes| - from
  {
    var j := RunEnd(writes, from + 1);
    if run == writes[from..j] {
      forall m | from < m < j
        ensures Start(writes[m]) == EndOf(writes[m - 1])
      {
        RunEndChained(writes, from + 1, m);
      }
      RunEndMaximal(writes, from + 1);
      assert MaximalRun(writes, run, from, j);
    } else {
      SplitIsMaximal(writes, j, run);
    }
  }

  /** Every run is a single non-write (`alone`) or a maximal chain of one file's
      sorted writes. */
  lemma {:induction false} RunOrigin(
      labels: seq<Label>, keys: seq<string>, sorts: map<string, seq<Label>>, run: seq<Label>)
    returns (alone: bool, key: string, i: nat, j: nat)
    requires run in RunsOver(labels, keys, sorts)
    ensures alone ==> |run| == 1 && run[0].kind != Write && run[0] in labels
    ensures !alone ==> key in keys && key in sorts && MaximalRun(sorts[key], run, i, j)
  {
    var rest, last := keys[..|keys| - 1], keys[|keys| - 1];
    assert keys == rest + [last];
    var group := WithKey(labels, PER_FILE, last);
    if run in RunsOver(labels, rest, sorts) {
      alone, key, i, j := RunOrigin(labels, rest, sorts, run);
    } else if run in Singles(OthersIn(group)) {
      alone, key, i, j := true, last, 0, 0;
      WritesInMember(group, run[0]);
      WithKeyCount(labels, PER_FILE, last, run[0]);
      assert run[0] in multiset(labels);
    } else {
      alone, key := false, last;
      assert run in SplitFrom(if last in sorts then sorts[last] else [], 0);
      assert last in sorts;
      SplitIsMaximal(sorts[last], 0, run);
      i, j :| MaximalRun(sorts[last], run, i, j);
    }
  }

  /** The sorted writes of one file are writes of the batch for that file. */
  lemma SortedMember(labels: seq<Label>, sorts: map<string, seq<Label>>, key: string, l: Label)
    requires IsSorting(labels, sorts) && key in KeyOrder(labels, PER_FILE)
    ensures l in sorts[key] <==> l in labels && l.kind == Write && l.fileKey == key
  {
    assert l in sorts[key] <==> l in multiset(sorts[key]);
    assert l in sorts[key] <==> l in WritesIn(WithKey(labels, PER_FILE, key));
    WritesInMember(WithKey(labels, PER_FILE, key), l);
    WithKeyCount(labels, PER_FILE, key, l);
    assert l in WithKey(labels, PER_FILE, key) <==> l in multiset(WithKey(labels, PER_FILE, key));
    assert l in labels <==> l in multiset(labels);
  }

  lemma RunsAreRuns(enabled: bool, labels: seq<Label>, runs: seq<seq<Label>>, run: seq<Label>)
    requires IsAggregation(enabled, labels, runs) && run in runs
    ensures IsRun(run)
  {
    if enabled {
      var sorts :| IsSorting(labels, sorts) && runs == RunsOver(labels, KeyOrder(labels, PER_FILE), sorts);
      var alone, key, i, j := RunOrigin(labels, KeyOrder(labels, PER_FILE), sorts, run);
      if !alone {
        MaximalIsRun(labels, sorts, key, run, i, j);
      }
    }
  }

  lemma MaximalIsRun(labels: seq<Label>, sorts: map<string, seq<Label>>, key: string, run: seq<Label>, i: nat, j: nat)
    requires IsSorting(labels, sorts) && key in KeyOrder(labels, PER_FILE)
    requires MaximalRun(sorts[key], run, i, j)
    ensures IsRun(run) && forall l :: l in run ==> l in labels && l.kind == Write && l.fileKey == key
  {
    forall l | l in run
      ensures l in labels && l.kind == Write && l.fileKey == key
    {
      SortedMember(labels, sorts, key, l);
    }
    assert forall m :: 0 <= m < |run| ==> run[m] in run;
    forall m | 0 < m < |run|
      ensures Start(run[m]) == EndOf(run[m - 1])
    {
      assert run[m] == sorts[key][i + m] && run[m - 1] == sorts[key][i + m - 1];
    }
  }

  // ---------------------------------------------------------------------------
  // A merged write does what its run does
  // ---------------------------------------------------------------------------

  /** A write whose bytes are staged. */
  predicate StagedWrite(l: Label, warehouse: Warehouse) {
    WellFormed(l) && l.kind == Write && |Staged(warehouse, l.id)| == l.dataSize
  }

  lemma RunInit(run: seq<Label>)
    requires IsRun(run) && |run| > 1
    ensures IsRun(run[..|run| - 1])
    ensures Start(run[|run| - 1]) == EndOf(run[|run| - 2])
    ensures run[|run| - 1].fileKey == run[0].fileKey
  {
  }

  /** The chunks of a chain fill it from its start to its end. */
  lemma {:induction false} RunLength(run: seq<Label>, warehouse: Warehouse)
    requires IsRun(run) && forall l :: l in run ==> StagedWrite(l, warehouse)
    ensures Start(run[0]) + |Combined(Ids(run), warehouse)| == EndOf(run[|run| - 1])
  {
    var init, last := run[..|run| - 1], run[|run| - 1];
    assert last in run;
    assert Ids(run)[..|run| - 1] == Ids(init);
    if |run| > 1 {
      RunInit(run);
      RunLength(init, warehouse);
    }
  }

  /** Running a chain of writes is one write of the concatenated chunks. */
  lemma {:induction false} RunExec(run: seq<Label>, warehouse: Warehouse, st: State)
    requires IsRun(run) && forall l :: l in run ==> StagedWrite(l, warehouse)
    ensures Exec(Ops(run, warehouse), st)
         == Step(WriteOp(run[0].id, run[0].fileKey, Start(run[0]), Combined(Ids(run), warehouse)), st)
  {
    var init, last := run[..|run| - 1], run[|run| - 1];
    assert last in run;
    assert Ids(run)[..|run| - 1] == Ids(init);
    var op := OpOf(last, warehouse);
    assert op == WriteOp(last.id, last.fileKey, Start(last), Staged(warehouse, last.id));
    if init == [] {
      assert Ops(run, warehouse) == [op];
      ExecOne(op, st);
      assert Combined(Ids(run), warehouse) == Staged(warehouse, last.id);
    } else {
      RunInit(run);
      RunExec(init, warehouse, st);
      RunLength(init, warehouse);
      assert Ops(run, warehouse) == Ops(init, warehouse) + [op];
      ExtendWrite(Ops(init, warehouse), run[0].id, run[0].fileKey, Start(run[0]),
                  Combined(Ids(init), warehouse), op, st);
    }
  }

  /** The bytes that the label of a run carries after the dispatcher is done. */
  ghost predicate RunStaged(run: seq<Label>, before: Warehouse, after: Warehouse)
    requires run != []
  {
    Staged(after, run[0].id) == Combined(Ids(run), before)
  }

  lemma MergedOp(run: seq<Label>, before: Warehouse, after: Warehouse)
    requires IsRun(run) && RunStaged(run, before, after) && forall l :: l in run ==> StagedWrite(l, before)
    ensures OpOf(Merge(run), after)
         == WriteOp(run[0].id, run[0].fileKey, Start(run[0]), Combined(Ids(run), before))
  {
    assert run[0] in run;
  }

  /** The label of the run does what the run does: a write run has all its bytes
      staged under that label, a read is alone anyway. */
  ghost predicate FaithfulRun(run: seq<Label>, before: Warehouse, after: Warehouse) {
    && IsRun(run)
    && (run[0].kind == Write ==> RunStaged(run, before, after) && forall l :: l in run ==> StagedWrite(l, before))
  }

  ghost predicate AllFaithful(runs: seq<seq<Label>>, before: Warehouse, after: Warehouse) {
    forall run :: run in runs ==> FaithfulRun(run, before, after)
  }

  lemma FaithfulHead(runs: seq<seq<Label>>, before: Warehouse, after: Warehouse)
    requires runs != [] && AllFaithful(runs, before, after)
    ensures FaithfulRun(runs[0], before, after) && AllFaithful(runs[1..], before, after)
  {
    assert runs[0] in runs;
    assert forall run :: run in runs[1..] ==> run in runs;
  }

  lemma FaithfulExec(run: seq<Label>, before: Warehouse, after: Warehouse, st: State)
    requires FaithfulRun(run, before, after)
    ensures Exec(Ops(run, before), st) == Step(OpOf(Merge(run), after), st)
  {
    if run[0].kind == Write {
      RunExec(run, before, st);
      MergedOp(run, before, after);
    } else {
      assert |run| == 1;
      assert Ops(run, before) == [OpOf(Merge(run), after)];
      ExecOne(OpOf(Merge(run), after), st);
    }
  }

  lemma MergedHeadExec(run: seq<Label>, rest: seq<seq<Label>>, after: Warehouse, st: State)
    requires run != [] && NonEmptyRuns(rest) && NonEmptyRuns([run] + rest)
    ensures Exec(Ops(MergeAll([run] + rest), after), st)
         == Exec(Ops(MergeAll(rest), after), Step(OpOf(Merge(run), after), st))
  {
    var op := OpOf(Merge(run), after);
    assert Ops(MergeAll([run] + rest), after) == [op] + Ops(MergeAll(rest), after);
    ExecConcat([op], Ops(MergeAll(rest), after), st);
    ExecOne(op, st);
  }

  lemma FlatHeadExec(run: seq<Label>, rest: seq<seq<Label>>, before: Warehouse, st: State)
    ensures Exec(Ops(Flatten([run] + rest), before), st)
         == Exec(Ops(Flatten(rest), before), Exec(Ops(run, before), st))
  {
    assert ([run] + rest)[1..] == rest;
    OpsConcat(run, Flatten(rest), before);
    ExecConcat(Ops(run, before), Ops(Flatten(rest), before), st);
  }

  /** Running one label per run is running all the labels, run by run. */
  lemma {:induction false} RunsExec(runs: seq<seq<Label>>, before: Warehouse, after: Warehouse, st: State)
    requires NonEmptyRuns(runs) && AllFaithful(runs, before, after)
    ensures Exec(Ops(MergeAll(runs), after), st) == Exec(Ops(Flatten(runs), before), st)
    decreases |runs|
  {
    if runs == [] {
      assert Ops(MergeAll(runs), after) == Ops(Flatten(runs), before);
    } else {
      var run, rest := runs[0], runs[1..];
      FaithfulHead(runs, before, after);
      FaithfulExec(run, before, after, st);
      assert runs == [run] + rest;
      MergedHeadExec(run, rest, after, st);
      FlatHeadExec(run, rest, before, st);
      RunsExec(rest, before, after, Step(OpOf(Merge(run), after), st));
    }
  }

  // ---------------------------------------------------------------------------
  // What the dispatcher stages
  // ---------------------------------------------------------------------------

  lemma UniqueParts(p: seq<Label>, q: seq<Label>, a: Label, b: Label)
    requires UniqueIds(p + q) && a in p && b in q
    ensures a.id != b.id
  {
    var x :| 0 <= x < |p| && p[x] == a;
    var y :| 0 <= y < |q| && q[y] == b;
    assert (p + q)[x] == a && (p + q)[|p| + y] == b;
  }

  lemma {:induction false} UniqueAcrossRuns(runs: seq<seq<Label>>)
    requires UniqueIds(Flatten(runs))
    ensures forall k :: 0 <= k < |runs| ==> UniqueIds(runs[k])
    ensures forall j, k, a, b :: 0 <= j < k < |runs| && a in runs[j] && b in runs[k] ==> a.id != b.id
  {
    if runs != [] {
      var rest := runs[1..];
      assert Flatten(rest) == Flatten(runs)[|runs[0]|..];
      assert runs[0] == Flatten(runs)[..|runs[0]|];
      UniqueAcrossRuns(rest);
      forall j, k, a, b | 0 <= j < k < |runs| && a in runs[j] && b in runs[k]
        ensures a.id != b.id
      {
        assert b in rest[k - 1];
        if j > 0 {
          assert a in rest[j - 1];
        } else {
          FlattenMember(rest, b);
          UniqueParts(runs[0], Flatten(rest), a, b);
        }
      }
    }
  }

  /** Runs as phase 1 makes them from original labels. */
  ghost predicate OriginalRuns(runs: seq<seq<Label>>) {
    && UniqueIds(Flatten(runs))
    && forall k :: 0 <= k < |runs| ==> IsRun(runs[k]) && forall l :: l in runs[k] ==> IsOriginal(l)
  }

  /** The dispatcher has handled the first `n` runs. */
  ghost predicate CombinedUpTo(runs: seq<seq<Label>>, n: nat, before: Warehouse, now: Warehouse)
    requires NonEmptyRuns(runs)
  {
    && (forall k :: 0 <= k < n && k < |runs| ==> RunStaged(runs[k], before, now))
    && (forall k :: n <= k < |runs| ==> forall l :: l in runs[k] ==> Staged(now, l.id) == Staged(before, l.id))
  }

  /** Handling one run changes nothing outside its ids. */
  lemma CombineOneRun(run: seq<Label>, now: Warehouse)
    requires IsRun(run) && UniqueIds(run) && forall l :: l in run ==> IsOriginal(l)
    ensures var next := CombineAll([Merge(run)], now);
      && Staged(next, run[0].id) == Combined(Ids(run), now)
      && forall id: nat :: id !in Ids(run) ==> Staged(next, id) == Staged(now, id)
  {
    assert [Merge(run)][..0] == [];
    assert run[0] in run;
    assert Ids(run)[0] == run[0].id;
    if |run| == 1 {
      assert Ids(run)[..0] == [];
    } else {
      assert Distinct(Ids(run));
      GatherDistinct(Ids(run), now);
    }
  }

  lemma OtherRunIds(runs: seq<seq<Label>>, n: nat, k: nat, l: Label)
    requires UniqueIds(Flatten(runs)) && n < |runs| && k < |runs| && k != n && l in runs[k]
    ensures l.id !in Ids(runs[n])
  {
    UniqueAcrossRuns(runs);
    forall i | 0 <= i < |runs[n]|
      ensures runs[n][i].id != l.id
    {
      assert runs[n][i] in runs[n];
    }
  }

  lemma CombineRun(runs: seq<seq<Label>>, n: nat, before: Warehouse, now: Warehouse, next: Warehouse)
    requires NonEmptyRuns(runs) && OriginalRuns(runs) && n < |runs|
    requires CombinedUpTo(runs, n, before, now)
    requires next == CombineAll([Merge(runs[n])], now)
    ensures CombinedUpTo(runs, n + 1, before, next)
  {
    UniqueAcrossRuns(runs);
    CombineOneRun(runs[n], now);
    forall id | id in Ids(runs[n])
      ensures Staged(now, id) == Staged(before, id)
    {
      var i :| 0 <= i < |runs[n]| && runs[n][i].id == id;
      assert runs[n][i] in runs[n];
    }
    CombinedSame(Ids(runs[n]), now, before);
    forall k | 0 <= k < n
      ensures RunStaged(runs[k], before, next)
    {
      assert RunStaged(runs[k], before, now);
      OtherRunIds(runs, n, k, runs[k][0]);
    }
    forall k, l | n + 1 <= k < |runs| && l in runs[k]
      ensures Staged(next, l.id) == Staged(before, l.id)
    {
      OtherRunIds(runs, n, k, l);
    }
  }

  lemma CombineAllSnoc(labels: seq<Label>, last: Label, warehouse: Warehouse)
    ensures CombineAll(labels + [last], warehouse) == CombineAll([last], CombineAll(labels, warehouse))
  {
    assert (labels + [last])[..|labels|] == labels;
    assert [last][..0] == [];
  }

  /** The warehouse after the first `n` output labels. */
  function Handled(runs: seq<seq<Label>>, n: nat, before: Warehouse): Warehouse
    requires NonEmptyRuns(runs) && n <= |runs|
  {
    CombineAll(MergeAll(runs)[..n], before)
  }

  lemma HandledNext(runs: seq<seq<Label>>, n: nat, before: Warehouse)
    requires NonEmptyRuns(runs) && n < |runs|
    ensures Handled(runs, n + 1, before) == CombineAll([Merge(runs[n])], Handled(runs, n, before))
  {
    assert MergeAll(runs)[..n + 1] == MergeAll(runs)[..n] + [Merge(runs[n])];
    CombineAllSnoc(MergeAll(runs)[..n], Merge(runs[n]), before);
  }

  lemma {:induction false} CombineRuns(runs: seq<seq<Label>>, n: nat, before: Warehouse)
    requires NonEmptyRuns(runs) && OriginalRuns(runs) && n <= |runs|
    ensures CombinedUpTo(runs, n, before, Handled(runs, n, before))
  {
    if n > 0 {
      CombineRuns(runs, n - 1, before);
      HandledNext(runs, n - 1, before);
      CombineRun(runs, n - 1, before, Handled(runs, n - 1, before), Handled(runs, n, before));
    }
  }

  // ---------------------------------------------------------------------------
  // The writes among the runs
  // ---------------------------------------------------------------------------

  /** The runs that consist of writes. */
  function WriteRuns(runs: seq<seq<Label>>): (writes: seq<seq<Label>>)
    requires NonEmptyRuns(runs)
    ensures NonEmptyRuns(writes)
    ensures forall run: seq<Label> :: run in writes <==> run in runs && run[0].kind == Write
  {
    if runs == [] then []
    else
      var run := runs[0];
      (if run[0].kind == Write then [run] else []) + WriteRuns(runs[1..])
  }

  lemma {:induction false} WritesInCount(labels: seq<Label>, l: Label)
    ensures multiset(WritesIn(labels))[l] == if l.kind == Write then multiset(labels)[l] else 0
  {
    if labels != [] {
      var init, last := labels[..|labels| - 1], labels[|labels| - 1];
      WritesInCount(init, l);
      assert labels == init + [last];
      CountSnoc(init, last, l);
      CountSnoc(WritesIn(init), last, l);
    }
  }

  lemma {:induction false} WritesInConcat(a: seq<Label>, b: seq<Label>)
    ensures WritesIn(a + b) == WritesIn(a) + WritesIn(b)
    decreases |b|
  {
    if b == [] {
      assert a + b == a;
    } else {
      var init := b[..|b| - 1];
      assert (a + b)[..|a + b| - 1] == a + init;
      WritesInConcat(a, init);
    }
  }

  lemma {:induction false} WritesInAll(run: seq<Label>)
    requires forall l :: l in run ==> l.kind == Write
    ensures WritesIn(run) == run
  {
    if run != [] {
      WritesInAll(run[..|run| - 1]);
      assert run == run[..|run| - 1] + [run[|run| - 1]];
      assert run[|run| - 1] in run;
    }
  }

  lemma RunWrites(run: seq<Label>)
    requires IsRun(run)
    ensures WritesIn(run) == if run[0].kind == Write then run else []
    ensures run[0].kind == Write ==> forall l :: l in run ==> l.kind == Write
    ensures Merge(run).kind == run[0].kind
  {
    MergedKind(run);
    if run[0].kind == Write {
      WritesInAll(run);
    } else {
      NoWritesIn(run[0]);
      assert run == [run[0]];
    }
  }

  ghost predicate AllRuns(runs: seq<seq<Label>>) {
    NonEmptyRuns(runs) && forall k :: 0 <= k < |runs| ==> IsRun(runs[k])
  }

  lemma MergedKind(run: seq<Label>)
    requires IsRun(run)
    ensures Merge(run).kind == run[0].kind
  {
  }

  lemma NoWritesIn(l: Label)
    requires l.kind != Write
    ensures WritesIn([l]) == []
  {
    assert [l][..0] == [];
  }

  /** The write runs hold exactly the writes. */
  lemma {:induction false} WriteRunsFlatten(runs: seq<seq<Label>>)
    requires AllRuns(runs)
    ensures Flatten(WriteRuns(runs)) == WritesIn(Flatten(runs))
  {
    if runs != [] {
      var run, rest := runs[0], runs[1..];
      WriteRunsFlatten(rest);
      RunWrites(run);
      WritesInConcat(run, Flatten(rest));
      if run[0].kind == Write {
        assert WriteRuns(runs) == [run] + WriteRuns(rest);
      } else {
        assert WriteRuns(runs) == WriteRuns(rest);
      }
    }
  }

  lemma WritesInOne(l: Label)
    ensures WritesIn([l]) == if l.kind == Write then [l] else []
  {
    assert [l][..0] == [];
  }

  lemma MergeAllCons(run: seq<Label>, rest: seq<seq<Label>>)
    requires run != [] && NonEmptyRuns(rest)
    ensures MergeAll([run] + rest) == [Merge(run)] + MergeAll(rest)
  {
  }

  lemma WritesInCons(l: Label, rest: seq<Label>)
    ensures WritesIn([l] + rest) == (if l.kind == Write then [l] else []) + WritesIn(rest)
  {
    WritesInConcat([l], rest);
    WritesInOne(l);
  }

  lemma WriteRunsCons(run: seq<Label>, rest: seq<seq<Label>>)
    requires run != [] && NonEmptyRuns(rest) && NonEmptyRuns([run] + rest)
    ensures WriteRuns([run] + rest) == (if run[0].kind == Write then [run] else []) + WriteRuns(rest)
  {
    assert ([run] + rest)[1..] == rest;
  }

  /** The write runs make exactly the output writes. */
  lemma {:induction false} WriteRunsMerge(runs: seq<seq<Label>>)
    requires AllRuns(runs)
    ensures MergeAll(WriteRuns(runs)) == WritesIn(MergeAll(runs))
  {
    if runs != [] {
      var run, rest := runs[0], runs[1..];
      WriteRunsMerge(rest);
      assert runs == [run] + rest;
      MergeAllCons(run, rest);
      MergedKind(run);
      WritesInCons(Merge(run), MergeAll(rest));
      WriteRunsCons(run, rest);
      if run[0].kind == Write {
        MergeAllCons(run, WriteRuns(rest));
      }
    }
  }

  lemma MergeAllWithout(runs: seq<seq<Label>>, k: nat)
    requires NonEmptyRuns(runs) && k < |runs|
    ensures NonEmptyRuns(runs[..k] + runs[k + 1..])
    ensures MergeAll(runs[..k] + runs[k + 1..]) == MergeAll(runs)[..k] + MergeAll(runs)[k + 1..]
  {
  }

  /** Any order of the output labels is some order of the runs. */
  lemma {:induction false} OrderRuns(outputs: seq<Label>, runs: seq<seq<Label>>) returns (ordered: seq<seq<Label>>)
    requires NonEmptyRuns(runs) && multiset(outputs) == multiset(MergeAll(runs))
    ensures NonEmptyRuns(ordered) && MergeAll(ordered) == outputs && multiset(ordered) == multiset(runs)
    decreases |outputs|
  {
    if outputs == [] {
      assert |multiset(MergeAll(runs))| == |runs|;
      ordered := [];
    } else {
      var k := SameElementsFind(MergeAll(runs), outputs, outputs[0]);
      SameElementsRemove(MergeAll(runs), k, outputs);
      MergeAllWithout(runs, k);
      var tail := OrderRuns(outputs[1..], runs[..k] + runs[k + 1..]);
      MergeAllCons(runs[k], tail);
      RemovedElement(runs, k);
      ordered := [runs[k]] + tail;
    }
  }

  lemma DisjointOps(labels: seq<Label>, a: Label, b: Label, warehouse: Warehouse)
    requires PayloadsStaged(labels, warehouse) && DisjointWrites(labels) && OriginalBatch(labels)
    requires a in labels && b in labels && a.kind == Write && b.kind == Write && a.id != b.id
    ensures !Conflict(OpOf(a, warehouse), OpOf(b, warehouse))
  {
  }

  lemma NoConflicts(labels: seq<Label>, writes: seq<Label>, warehouse: Warehouse, run: seq<Op>)
    requires OriginalBatch(labels) && PayloadsStaged(labels, warehouse) && DisjointWrites(labels)
    requires multiset(writes) == multiset(WritesIn(labels))
    ensures UniqueOps(Ops(writes, warehouse)) && KeepsConflictOrder(run, Ops(writes, warehouse))
  {
    forall l | l in writes
      ensures l in labels && l.kind == Write
    {
      assert l in multiset(writes);
      WritesInMember(labels, l);
    }
    WritesUnique(labels, writes);
    forall i, j | 0 <= i < j < |writes|
      ensures !Conflict(OpOf(writes[i], warehouse), OpOf(writes[j], warehouse))
    {
      DisjointOps(labels, writes[i], writes[j], warehouse);
    }
  }

  lemma WritesUnique(labels: seq<Label>, writes: seq<Label>)
    requires UniqueIds(labels) && multiset(writes) == multiset(WritesIn(labels))
    ensures UniqueIds(writes)
  {
    var all := writes + OthersIn(labels);
    forall l: Label
      ensures multiset(all)[l] == multiset(labels)[l]
    {
      WritesAndOthersCount(labels, l);
    }
    UniqueIdsTransfer(labels, all);
    forall i, j | 0 <= i < j < |writes|
      ensures writes[i].id != writes[j].id
    {
      assert all[i].id != all[j].id;
    }
  }

  lemma RunsOfOriginals(enabled: bool, labels: seq<Label>, runs: seq<seq<Label>>)
    requires OriginalBatch(labels) && IsAggregation(enabled, labels, runs)
    ensures NonEmptyRuns(runs) && OriginalRuns(runs)
    ensures forall k, l :: 0 <= k < |runs| && l in runs[k] ==> l in labels
  {
    RunsConserved(enabled, labels, runs);
    UniqueIdsTransfer(labels, Flatten(runs));
    forall k | 0 <= k < |runs|
      ensures IsRun(runs[k])
    {
      RunsAreRuns(enabled, labels, runs, runs[k]);
    }
    forall k, l | 0 <= k < |runs| && l in runs[k]
      ensures l in labels
    {
      FlattenMember(runs, l);
      assert l in multiset(labels);
    }
  }

  lemma WriteRunPayloads(labels: seq<Label>, runs: seq<seq<Label>>, k: nat, warehouse: Warehouse)
    requires OriginalBatch(labels) && PayloadsStaged(labels, warehouse)
    requires NonEmptyRuns(runs) && k < |runs| && IsRun(runs[k]) && runs[k][0].kind == Write
    requires forall l :: l in runs[k] ==> l in labels
    ensures forall l :: l in runs[k] ==> StagedWrite(l, warehouse)
  {
    RunWrites(runs[k]);
  }

  lemma SameWrites(enabled: bool, labels: seq<Label>, runs: seq<seq<Label>>)
    requires IsAggregation(enabled, labels, runs)
    ensures multiset(WritesIn(Flatten(runs))) == multiset(WritesIn(labels))
  {
    RunsConserved(enabled, labels, runs);
    forall l: Label
      ensures multiset(WritesIn(Flatten(runs)))[l] == multiset(WritesIn(labels))[l]
    {
      WritesInCount(Flatten(runs), l);
      WritesInCount(labels, l);
    }
  }

  // ---------------------------------------------------------------------------
  // Nothing is left to merge
  // ---------------------------------------------------------------------------

  lemma SortedDisjoint(labels: seq<Label>, sorts: map<string, seq<Label>>, key: string, i: nat, j: nat)
    requires OriginalBatch(labels) && DisjointWrites(labels)
    requires IsSorting(labels, sorts) && key in KeyOrder(labels, PER_FILE)
    requires i < j < |sorts[key]|
    ensures EndOf(sorts[key][i]) <= Start(sorts[key][j])
  {
    var a, b := sorts[key][i], sorts[key][j];
    SortedMember(labels, sorts, key, a);
    SortedMember(labels, sorts, key, b);
    SortedUnique(labels, sorts, key);
    SortedOrder(sorts[key], i, j);
    DisjointOrder(labels, a, b);
  }

  lemma DisjointOrder(labels: seq<Label>, a: Label, b: Label)
    requires OriginalBatch(labels) && DisjointWrites(labels) && a in labels && b in labels
    requires a.kind == Write && b.kind == Write && a.fileKey == b.fileKey && a.id != b.id && Start(a) <= Start(b)
    ensures EndOf(a) <= Start(b)
  {
    assert !RangesOverlap(LabelRange(a), LabelRange(b));
  }

  lemma SortedUnique(labels: seq<Label>, sorts: map<string, seq<Label>>, key: string)
    requires UniqueIds(labels) && IsSorting(labels, sorts) && key in KeyOrder(labels, PER_FILE)
    ensures UniqueIds(sorts[key])
  {
    var group := WithKey(labels, PER_FILE, key);
    WithKeyUnique(labels, key);
    WritesUnique(group, sorts[key]);
  }

  lemma {:induction false} WithKeyUnique(labels: seq<Label>, key: string)
    requires UniqueIds(labels)
    ensures UniqueIds(WithKey(labels, PER_FILE, key))
  {
    if labels != [] {
      var init := labels[..|labels| - 1];
      WithKeyUnique(init, key);
      forall l | l in WithKey(init, PER_FILE, key)
        ensures l.id != labels[|labels| - 1].id
      {
        WithKeyCount(init, PER_FILE, key, l);
        assert l in multiset(init);
      }
    }
  }

  lemma {:induction false} RunSize(run: seq<Label>)
    requires IsRun(run) && forall l :: l in run ==> IsOriginal(l) && l.kind == Write
    ensures Start(run[0]) + TotalSize(run) == EndOf(run[|run| - 1]) < TWO_TO_THE_64
    ensures 0 < TotalSize(run)
  {
    var init, last := run[..|run| - 1], run[|run| - 1];
    assert last in run;
    assert EndOf(last) == Start(last) + last.dataSize;
    if |run| == 1 {
      assert TotalSize(init) == 0;
    } else {
      RunInit(run);
      RunSize(init);
      assert Start(run[0]) + TotalSize(init) == Start(last);
    }
  }

  /** The label of a run spans from its first to its last write. */
  lemma RunSpan(run: seq<Label>)
    requires IsRun(run) && forall l :: l in run ==> IsOriginal(l) && l.kind == Write
    ensures Start(Merge(run)) == Start(run[0])
    ensures EndOf(Merge(run)) == EndOf(run[|run| - 1])
    ensures Merge(run).fileKey == run[0].fileKey
  {
    RunSize(run);
  }

  /** Where a write run comes from: the sorted writes `i` to `j - 1` of its file. */
  lemma RunSource(labels: seq<Label>, runs: seq<seq<Label>>, sorts: map<string, seq<Label>>, run: seq<Label>)
    returns (key: string, i: nat, j: nat)
    requires IsSorting(labels, sorts) && runs == RunsOver(labels, KeyOrder(labels, PER_FILE), sorts)
    requires run in runs && Merge(run).kind == Write
    ensures key in KeyOrder(labels, PER_FILE) && MaximalRun(sorts[key], run, i, j)
  {
    RunsAreRuns(true, labels, runs, run);
    RunWrites(run);
    var alone;
    alone, key, i, j := RunOrigin(labels, KeyOrder(labels, PER_FILE), sorts, run);
  }

  lemma MaximalEnds(writes: seq<Label>, run: seq<Label>, i: nat, j: nat)
    requires MaximalRun(writes, run, i, j)
    ensures run != [] && run[0] in run && run[0] == writes[i] && run[|run| - 1] == writes[j - 1]
  {
  }

  lemma MaximalSpan(labels: seq<Label>, sorts: map<string, seq<Label>>, key: string, run: seq<Label>, i: nat, j: nat)
    requires OriginalBatch(labels) && IsSorting(labels, sorts) && key in KeyOrder(labels, PER_FILE)
    requires MaximalRun(sorts[key], run, i, j)
    ensures Merge(run).fileKey == key
    ensures Start(Merge(run)) == Start(sorts[key][i]) && EndOf(Merge(run)) == EndOf(sorts[key][j - 1])
  {
    MaximalIsRun(labels, sorts, key, run, i, j);
    MaximalEnds(sorts[key], run, i, j);
    RunSpan(run);
  }

  /** No output write of a file ends where another begins. */
  lemma NotAdjacent(labels: seq<Label>, runs: seq<seq<Label>>, a: Label, b: Label)
    requires OriginalBatch(labels) && DisjointWrites(labels)
    requires IsAggregation(true, labels, runs)
    requires a in MergeAll(runs) && b in MergeAll(runs)
    requires a.kind == Write && b.kind == Write && a.fileKey == b.fileKey
    ensures EndOf(a) != Start(b)
  {
    var sorts :| IsSorting(labels, sorts) && runs == RunsOver(labels, KeyOrder(labels, PER_FILE), sorts);
    var x :| 0 <= x < |runs| && Merge(runs[x]) == a;
    var y :| 0 <= y < |runs| && Merge(runs[y]) == b;
    var key, i, j := RunSource(labels, runs, sorts, runs[x]);
    var key', i', j' := RunSource(labels, runs, sorts, runs[y]);
    MaximalSpan(labels, sorts, key, runs[x], i, j);
    MaximalSpan(labels, sorts, key', runs[y], i', j');
    SortedLeftToRight(labels, sorts, key);
    GapAfterRun(sorts[key], j, i');
  }

  lemma SortedOrder(writes: seq<Label>, i: nat, j: nat)
    requires SortedByOffset(writes) && i <= j < |writes|
    ensures Start(writes[i]) <= Start(writes[j])
  {
  }

  /** Non-empty ranges from left to right, none overlapping the next. */
  ghost predicate LeftToRight(writes: seq<Label>) {
    && (forall i :: 0 <= i < |writes| ==> Start(writes[i]) < EndOf(writes[i]))
    && (forall i, j :: 0 <= i < j < |writes| ==> EndOf(writes[i]) <= Start(writes[j]))
  }

  lemma SortedLeftToRight(labels: seq<Label>, sorts: map<string, seq<Label>>, key: string)
    requires OriginalBatch(labels) && DisjointWrites(labels)
    requires IsSorting(labels, sorts) && key in KeyOrder(labels, PER_FILE)
    ensures LeftToRight(sorts[key])
  {
    forall i | 0 <= i < |sorts[key]|
      ensures Start(sorts[key][i]) < EndOf(sorts[key][i])
    {
      SortedMember(labels, sorts, key, sorts[key][i]);
      OriginalNonEmpty(sorts[key][i]);
    }
    forall i, j | 0 <= i < j < |sorts[key]|
      ensures EndOf(sorts[key][i]) <= Start(sorts[key][j])
    {
      SortedDisjoint(labels, sorts, key, i, j);
    }
  }

  lemma OriginalNonEmpty(l: Label)
    requires IsOriginal(l) && l.kind == Write
    ensures Start(l) < EndOf(l)
  {
  }

  /** Behind a maximal run there is a gap. */
  lemma GapAfterRun(writes: seq<Label>, j: nat, next: nat)
    requires LeftToRight(writes)
    requires 0 < j <= |writes| && next < |writes|
    requires j < |writes| ==> Start(writes[j]) != EndOf(writes[j - 1])
    ensures EndOf(writes[j - 1]) != Start(writes[next])
  {
    var last := writes[j - 1];
    if j < next {
      var following := writes[j];
      assert EndOf(last) <= Start(following) < EndOf(following) <= Start(writes[next]);
    } else if next < j - 1 {
      assert Start(writes[next]) < EndOf(writes[next]) <= Start(last) < EndOf(last);
    }
  }

  /** Aggregating the output of an aggregation merges nothing. */
  lemma AggregateTwice(labels: seq<Label>, runs: seq<seq<Label>>, again: seq<seq<Label>>)
    requires OriginalBatch(labels) && DisjointWrites(labels)
    requires IsAggregation(true, labels, runs) && NonEmptyRuns(runs)
    requires IsAggregation(true, MergeAll(runs), again) && NonEmptyRuns(again)
    ensures forall run :: run in again ==> |run| == 1
    ensures multiset(MergeAll(again)) == multiset(MergeAll(runs)) && FanoutOf(again) == map[]
  {
    RunsConserved(true, MergeAll(runs), again);
    forall run | run in again
      ensures |run| == 1
    {
      RunsAreRuns(true, MergeAll(runs), again, run);
      if |run| > 1 {
        forall l | l in run
          ensures l in MergeAll(runs)
        {
          FlattenMember(again, l);
          assert l in multiset(MergeAll(runs));
        }
        assert run[0] in run && run[1] in run;
        assert Start(run[1]) == EndOf(run[0]);
        NotAdjacent(labels, runs, run[0], run[1]);
      }
    }
    SinglesMerge(again);
    SinglesFanout(again);
  }

  lemma {:induction false} SinglesMerge(runs: seq<seq<Label>>)
    requires NonEmptyRuns(runs) && forall run :: run in runs ==> |run| == 1
    ensures MergeAll(runs) == Flatten(runs)
  {
    if runs != [] {
      var head, rest := runs[0], runs[1..];
      assert head in runs && runs == [head] + rest;
      SinglesMerge(rest);
      MergeAllCons(head, rest);
      assert head == [Merge(head)];
    }
  }

  lemma {:induction false} SinglesFanout(runs: seq<seq<Label>>)
    requires NonEmptyRuns(runs) && forall run :: run in runs ==> |run| == 1
    ensures FanoutOf(runs) == map[]
  {
    if runs != [] {
      assert runs[|runs| - 1] in runs;
      SinglesFanout(runs[..|runs| - 1]);
    }
  }
}
