/** Splitting a write into labels and merging labels into writes undo each other. */
module SplitAndMerge {
  import opened Basics
  import opened FileStore
  import opened Labels
  import opened Aggregate
  import opened AggregationMeaning
  import opened Dispatcher
  import opened LabelManager

  lemma SplitLabel(ids: seq<nat>, path: string, offset: nat, size: nat, max: nat, appId: nat, i: nat)
    requires max > 0 && offset + size < TWO_TO_THE_64 && i < |Chunks(offset, size, max)|
    requires |ids| == |Chunks(offset, size, max)|
    ensures var l := WriteLabel(ids[i], path, Chunks(offset, size, max)[i], appId);
      IsOriginal(l) && l.kind == Write && l.fileKey == path
  {
    ChunksTile(offset, size, max);
    ChunksInside(Chunks(offset, size, max), offset, size, max, i);
  }

  lemma SplitLabels(ids: seq<nat>, path: string, offset: nat, size: nat, max: nat, appId: nat)
    requires max > 0 && offset + size < TWO_TO_THE_64
    requires |ids| == |Chunks(offset, size, max)|
    ensures forall l :: l in WriteLabels(ids, path, Chunks(offset, size, max), appId) ==>
      IsOriginal(l) && l.kind == Write && l.fileKey == path
  {
    var labels := WriteLabels(ids, path, Chunks(offset, size, max), appId);
    forall l | l in labels
      ensures IsOriginal(l) && l.kind == Write && l.fileKey == path
    {
      var i :| 0 <= i < |labels| && labels[i] == l;
      SplitLabel(ids, path, offset, size, max, appId, i);
    }
  }

  /** The labels of one split write are well-formed; their ids are what the label
      manager drew, which are distinct. */
  lemma SplitOriginal(ids: seq<nat>, path: string, offset: nat, size: nat, max: nat, appId: nat)
    requires max > 0 && offset + size < TWO_TO_THE_64
    requires |ids| == |Chunks(offset, size, max)| && Distinct(ids)
    ensures OriginalBatch(WriteLabels(ids, path, Chunks(offset, size, max), appId))
  {
    SplitLabels(ids, path, offset, size, max, appId);
  }

  /** They touch pairwise disjoint ranges. */
  lemma SplitDisjoint(ids: seq<nat>, path: string, offset: nat, size: nat, max: nat, appId: nat)
    requires max > 0 && offset + size < TWO_TO_THE_64
    requires |ids| == |Chunks(offset, size, max)|
    ensures DisjointWrites(WriteLabels(ids, path, Chunks(offset, size, max), appId))
  {
    var chunks := Chunks(offset, size, max);
    var labels := WriteLabels(ids, path, chunks, appId);
    ChunksTile(offset, size, max);
    forall a, b | a in labels && b in labels
      ensures a.id == b.id || !RangesOverlap(LabelRange(a), LabelRange(b))
    {
      var i :| 0 <= i < |labels| && labels[i] == a;
      var j :| 0 <= j < |labels| && labels[j] == b;
      if i < j {
        SplitPair(ids, path, offset, size, max, appId, i, j);
      } else if j < i {
        SplitPair(ids, path, offset, size, max, appId, j, i);
      }
    }
  }

  lemma SplitPair(ids: seq<nat>, path: string, offset: nat, size: nat, max: nat, appId: nat, i: nat, j: nat)
    requires max > 0 && offset + size < TWO_TO_THE_64
    requires |ids| == |Chunks(offset, size, max)|
    requires i < j < |Chunks(offset, size, max)|
    ensures var chunks := Chunks(offset, size, max);
      var a := LabelRange(WriteLabel(ids[i], path, chunks[i], appId));
      var b := LabelRange(WriteLabel(ids[j], path, chunks[j], appId));
      !RangesOverlap(a, b) && !RangesOverlap(b, a)
  {
    var chunks := Chunks(offset, size, max);
    ChunksTile(offset, size, max);
    ChunksApart(chunks, offset, size, max, i, j);
    ChunksInside(chunks, offset, size, max, i);
    ChunksInside(chunks, offset, size, max, j);
  }

  /** They form one chain. */
  lemma SplitIsRun(ids: seq<nat>, path: string, offset: nat, size: nat, max: nat, appId: nat)
    requires max > 0 && offset + size < TWO_TO_THE_64 && size > 0
    requires |ids| == |Chunks(offset, size, max)|
    ensures IsRun(WriteLabels(ids, path, Chunks(offset, size, max), appId))
  {
    var chunks := Chunks(offset, size, max);
    var labels := WriteLabels(ids, path, chunks, appId);
    ChunksTile(offset, size, max);
    forall i | 0 < i < |labels|
      ensures Start(labels[i]) == EndOf(labels[i - 1])
    {
      SplitLabel(ids, path, offset, size, max, appId, i - 1);
    }
  }

  lemma {:induction false} CombinedHead(ids: seq<nat>, warehouse: Warehouse)
    requires ids != []
    ensures Combined(ids, warehouse) == Staged(warehouse, ids[0]) + Combined(ids[1..], warehouse)
  {
    var init, last := ids[..|ids| - 1], ids[|ids| - 1];
    if init == [] {
      assert ids[1..] == [] && Combined(init, warehouse) == [];
    } else {
      CombinedHead(init, warehouse);
      assert ids[1..][..|ids[1..]| - 1] == init[1..];
      assert ids[1..][|ids[1..]| - 1] == last;
    }
  }

  /** The data is staged piece by piece under these ids, no piece longer than `max`. */
  ghost predicate StagedInTurn(ids: seq<nat>, data: seq<byte>, max: nat, warehouse: Warehouse)
    requires max > 0
    decreases |data|
  {
    if data == [] then ids == []
    else
      var m := Min(|data|, max);
      ids != [] && Staged(warehouse, ids[0]) == data[..m] && StagedInTurn(ids[1..], data[m..], max, warehouse)
  }

  /** The staged pieces concatenate to the data. */
  lemma {:induction false} PiecesCombine(ids: seq<nat>, data: seq<byte>, max: nat, warehouse: Warehouse)
    requires max > 0 && StagedInTurn(ids, data, max, warehouse)
    ensures Combined(ids, warehouse) == data
    decreases |data|
  {
    if data != [] {
      var m := Min(|data|, max);
      PiecesCombine(ids[1..], data[m..], max, warehouse);
      CombinedHead(ids, warehouse);
      assert data[..m] + data[m..] == data;
    }
  }

  /** Each piece is as long as its chunk. */
  lemma {:induction false} PieceSize(
      ids: seq<nat>, offset: nat, data: seq<byte>, max: nat, warehouse: Warehouse, i: nat)
    requires max > 0 && StagedInTurn(ids, data, max, warehouse) && i < |Chunks(offset, |data|, max)|
    ensures i < |ids| && |Staged(warehouse, ids[i])| == Chunks(offset, |data|, max)[i].length
    decreases |data|
  {
    if i > 0 {
      var m := Min(|data|, max);
      PieceSize(ids[1..], offset + m, data[m..], max, warehouse, i - 1);
    }
  }

  /** A split write may be executed in any order of its labels: the device ends
      up as if the whole write was executed at once. */
  lemma SplitAnyOrder(
      ids: seq<nat>, path: string, offset: nat, data: seq<byte>, max: nat, appId: nat,
      warehouse: Warehouse, order: seq<Label>, st: State)
    requires max > 0 && offset + |data| < TWO_TO_THE_64 && data != []
    requires |ids| == |Chunks(offset, |data|, max)| && Distinct(ids)
    requires var labels := WriteLabels(ids, path, Chunks(offset, |data|, max), appId);
      StagedInTurn(Ids(labels), data, max, warehouse) && multiset(order) == multiset(labels)
    ensures Exec(Ops(order, warehouse), st) == Step(WriteOp(ids[0], path, offset, data), st)
  {
    var labels := WriteLabels(ids, path, Chunks(offset, |data|, max), appId);
    SplitExec(ids, path, offset, data, max, appId, warehouse, st);
    SplitOriginal(ids, path, offset, |data|, max, appId);
    SplitDisjoint(ids, path, offset, |data|, max, appId);
    SplitPayloads(ids, path, offset, data, max, appId, warehouse);
    WritesInAll(labels);
    NoConflicts(labels, labels, warehouse, Ops(order, warehouse));
    OpsPermuted(order, labels, warehouse);
    ConflictSerializable(Ops(order, warehouse), Ops(labels, warehouse), st);
  }

  lemma SplitExec(
      ids: seq<nat>, path: string, offset: nat, data: seq<byte>, max: nat, appId: nat, warehouse: Warehouse, st: State)
    requires max > 0 && offset + |data| < TWO_TO_THE_64 && data != []
    requires |ids| == |Chunks(offset, |data|, max)|
    requires StagedInTurn(Ids(WriteLabels(ids, path, Chunks(offset, |data|, max), appId)), data, max, warehouse)
    ensures Exec(Ops(WriteLabels(ids, path, Chunks(offset, |data|, max), appId), warehouse), st)
         == Step(WriteOp(ids[0], path, offset, data), st)
  {
    var labels := WriteLabels(ids, path, Chunks(offset, |data|, max), appId);
    SplitIsRun(ids, path, offset, |data|, max, appId);
    SplitPayloads(ids, path, offset, data, max, appId, warehouse);
    RunExec(labels, warehouse, st);
    PiecesCombine(Ids(labels), data, max, warehouse);
    SplitStart(ids, path, offset, |data|, max, appId);
  }

  lemma SplitStart(ids: seq<nat>, path: string, offset: nat, size: nat, max: nat, appId: nat)
    requires max > 0 && size > 0
    requires |ids| == |Chunks(offset, size, max)|
    ensures var labels := WriteLabels(ids, path, Chunks(offset, size, max), appId);
      labels != [] && labels[0].id == ids[0] && labels[0].fileKey == path && Start(labels[0]) == offset
  {
    ChunksTile(offset, size, max);
  }

  lemma SplitPayload(
      ids: seq<nat>, path: string, offset: nat, data: seq<byte>, max: nat, appId: nat, warehouse: Warehouse, i: nat)
    requires max > 0 && offset + |data| < TWO_TO_THE_64 && i < |Chunks(offset, |data|, max)|
    requires |ids| == |Chunks(offset, |data|, max)|
    requires StagedInTurn(Ids(WriteLabels(ids, path, Chunks(offset, |data|, max), appId)), data, max, warehouse)
    ensures StagedWrite(WriteLabels(ids, path, Chunks(offset, |data|, max), appId)[i], warehouse)
  {
    SplitLabel(ids, path, offset, |data|, max, appId, i);
    PieceSize(Ids(WriteLabels(ids, path, Chunks(offset, |data|, max), appId)), offset, data, max, warehouse, i);
  }

  lemma SplitPayloads(
      ids: seq<nat>, path: string, offset: nat, data: seq<byte>, max: nat, appId: nat, warehouse: Warehouse)
    requires max > 0 && offset + |data| < TWO_TO_THE_64
    requires |ids| == |Chunks(offset, |data|, max)|
    requires StagedInTurn(Ids(WriteLabels(ids, path, Chunks(offset, |data|, max), appId)), data, max, warehouse)
    ensures PayloadsStaged(WriteLabels(ids, path, Chunks(offset, |data|, max), appId), warehouse)
    ensures forall l :: l in WriteLabels(ids, path, Chunks(offset, |data|, max), appId) ==> StagedWrite(l, warehouse)
  {
    var labels := WriteLabels(ids, path, Chunks(offset, |data|, max), appId);
    forall l | l in labels
      ensures StagedWrite(l, warehouse)
    {
      var i :| 0 <= i < |labels| && labels[i] == l;
      SplitPayload(ids, path, offset, data, max, appId, warehouse, i);
    }
  }

  // ---------------------------------------------------------------------------
  // Merging a split write
  // ---------------------------------------------------------------------------

  ghost predicate StrictlyAscending(writes: seq<Label>) {
    forall i, j :: 0 <= i < j < |writes| ==> Start(writes[i]) < Start(writes[j])
  }

  lemma SortedHead(sorted: seq<Label>, writes: seq<Label>)
    requires multiset(sorted) == multiset(writes) && SortedByOffset(sorted) && StrictlyAscending(writes)
    requires writes != []
    ensures sorted != [] && sorted[0] == writes[0]
  {
    var k := SameElementsFind(sorted, writes, writes[0]);
    var m := SameElementsFind(writes, sorted, sorted[0]);
    assert k == 0 || Start(sorted[0]) <= Start(sorted[k]);
    assert forall i :: 0 < i < |writes| ==> Start(writes[0]) < Start(writes[i]);
  }

  lemma SortedTail(sorted: seq<Label>, writes: seq<Label>)
    requires multiset(sorted) == multiset(writes) && SortedByOffset(sorted) && StrictlyAscending(writes)
    requires writes != [] && sorted != [] && sorted[0] == writes[0]
    ensures multiset(sorted[1..]) == multiset(writes[1..])
    ensures SortedByOffset(sorted[1..]) && StrictlyAscending(writes[1..])
  {
    SameElementsTail(sorted, writes);
  }

  /** A sorted permutation of strictly ascending writes is the same list. */
  lemma {:induction false} SortedSame(sorted: seq<Label>, writes: seq<Label>)
    requires multiset(sorted) == multiset(writes) && SortedByOffset(sorted) && StrictlyAscending(writes)
    ensures sorted == writes
    decreases |writes|
  {
    if writes == [] {
      assert |multiset(sorted)| == |sorted|;
    } else {
      SortedHead(sorted, writes);
      SortedTail(sorted, writes);
      SortedSame(sorted[1..], writes[1..]);
      assert sorted == [sorted[0]] + sorted[1..] && writes == [writes[0]] + writes[1..];
    }
  }

  lemma {:induction false} OneKey(labels: seq<Label>, path: string)
    requires forall l :: l in labels ==> l.kind == Write && l.fileKey == path
    ensures WithKey(labels, PER_FILE, path) == labels && OthersIn(labels) == []
    ensures KeyOrder(labels, PER_FILE) == if labels == [] then [] else [path]
  {
    if labels != [] {
      var init, last := labels[..|labels| - 1], labels[|labels| - 1];
      assert labels == init + [last] && last in labels;
      OneKey(init, path);
      if init != [] {
        assert [path][0] == path;
      }
    }
  }

  lemma {:induction false} ChainEnd(run: seq<Label>, j: nat)
    requires IsRun(run) && |run| > 1 && 0 < j <= |run|
    ensures RunEnd(run, j) == |run|
    decreases |run| - j
  {
    if j < |run| {
      ChainEnd(run, j + 1);
    }
  }

  /** Aggregating the labels of one split write puts them back into one run, and
      its merged label covers the whole range again. */
  lemma AggregateRestores(
      ids: seq<nat>, path: string, offset: nat, size: nat, max: nat, appId: nat, runs: seq<seq<Label>>)
    requires max > 0 && offset + size < TWO_TO_THE_64 && size > 0
    requires |ids| == |Chunks(offset, size, max)|
    requires IsAggregation(true, WriteLabels(ids, path, Chunks(offset, size, max), appId), runs)
    ensures runs == [WriteLabels(ids, path, Chunks(offset, size, max), appId)] && runs[0] != []
    ensures Merge(runs[0]).destination == FilePath(path, offset, size) && Merge(runs[0]).dataSize == size
  {
    var labels := WriteLabels(ids, path, Chunks(offset, size, max), appId);
    var sorts :| IsSorting(labels, sorts) && runs == RunsOver(labels, KeyOrder(labels, PER_FILE), sorts);
    SplitLabels(ids, path, offset, size, max, appId);
    SplitIsRun(ids, path, offset, size, max, appId);
    OneKey(labels, path);
    WritesInAll(labels);
    SplitAscending(ids, path, offset, size, max, appId);
    assert path in KeyOrder(labels, PER_FILE);
    SortedSame(sorts[path], labels);
    WholeRun(labels);
    OneGroup(labels, path, sorts);
    SplitSpan(ids, path, offset, size, max, appId);
  }

  lemma SplitAscending(ids: seq<nat>, path: string, offset: nat, size: nat, max: nat, appId: nat)
    requires max > 0
    requires |ids| == |Chunks(offset, size, max)|
    ensures StrictlyAscending(WriteLabels(ids, path, Chunks(offset, size, max), appId))
  {
    var chunks := Chunks(offset, size, max);
    ChunksTile(offset, size, max);
    forall i, j | 0 <= i < j < |chunks|
      ensures chunks[i].offset < chunks[j].offset
    {
      ChunksApart(chunks, offset, size, max, i, j);
    }
  }

  lemma SplitSpan(ids: seq<nat>, path: string, offset: nat, size: nat, max: nat, appId: nat)
    requires max > 0 && offset + size < TWO_TO_THE_64 && size > 0
    requires |ids| == |Chunks(offset, size, max)|
    ensures var merged := Merge(WriteLabels(ids, path, Chunks(offset, size, max), appId));
      merged.destination == FilePath(path, offset, size) && merged.dataSize == size
  {
    var labels := WriteLabels(ids, path, Chunks(offset, size, max), appId);
    ChunksTile(offset, size, max);
    SplitLabels(ids, path, offset, size, max, appId);
    SplitIsRun(ids, path, offset, size, max, appId);
    RunSize(labels);
    assert |labels| == 1 ==> labels[..0] == [] && TotalSize(labels[..0]) == 0;
    SplitLabel(ids, path, offset, size, max, appId, |labels| - 1);
  }

  lemma WholeRun(labels: seq<Label>)
    requires IsRun(labels)
    ensures SplitFrom(labels, 0) == [labels]
  {
    if |labels| > 1 {
      ChainEnd(labels, 1);
    }
    assert labels[0..|labels|] == labels;
    assert SplitFrom(labels, |labels|) == [];
  }
}
