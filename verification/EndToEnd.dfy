/** The shuffler and the dispatcher together. If no label of a batch overlaps a
    run of several writes it is not part of, all that workers may do with the
    shuffled batch equals running the labels as clients sent them, by ascending
    id. For disjoint writes the condition is also necessary. */
module EndToEnd {
  import opened Basics
  import opened FileStore
  import opened Labels
  import opened Aggregate
  import opened Schedule
  import opened Serializability
  import opened AggregationMeaning
  import opened Dispatcher
  import opened Shuffler
  import opened Delivery

  // ---------------------------------------------------------------------------
  // Which runs are staged faithfully
  // ---------------------------------------------------------------------------

  lemma SingleStaged(l: Label, before: Warehouse, after: Warehouse)
    requires Staged(after, l.id) == Staged(before, l.id)
    ensures RunStaged([l], before, after)
  {
    assert Ids([l])[..0] == [];
    assert Combined(Ids([l])[..0], before) == [];
  }

  /** The first chunk of a longer run is shorter than all its chunks. */
  lemma FirstChunkShort(run: seq<Label>, warehouse: Warehouse)
    requires OriginalWrites(run) && |run| > 1 && forall l :: l in run ==> StagedWrite(l, warehouse)
    ensures |Staged(warehouse, run[0].id)| < |Combined(Ids(run), warehouse)|
  {
    RunLength(run, warehouse);
    ChainHolds(run, 1);
    assert run[0] in run && Start(run[1]) == EndOf(run[0]) == Start(run[0]) + run[0].dataSize;
  }

  lemma BatchRunStaged(enabled: bool, labels: seq<Label>, runs: seq<seq<Label>>, k: nat, warehouse: Warehouse)
    requires OriginalBatch(labels) && PayloadsStaged(labels, warehouse)
    requires IsAggregation(enabled, labels, runs) && k < |runs|
    ensures IsRun(runs[k])
    ensures runs[k][0].kind == Write ==>
      OriginalWrites(runs[k]) && forall l :: l in runs[k] ==> StagedWrite(l, warehouse)
  {
    RunOfBatch(enabled, labels, runs, k);
    if runs[k][0].kind == Write {
      RunsOfOriginals(enabled, labels, runs);
      WriteRunPayloads(labels, runs, k, warehouse);
    }
  }

  lemma UnmergedFaithful(run: seq<Label>, before: Warehouse, after: Warehouse)
    requires IsRun(run) && |run| == 1 && run[0].kind == Write && StagedWrite(run[0], before)
    requires Staged(after, run[0].id) == Staged(before, run[0].id)
    ensures FaithfulRun(run, before, after)
  {
    SingleStaged(run[0], before, after);
    assert run == [run[0]];
  }

  lemma FirstChunkOnly(run: seq<Label>, before: Warehouse, after: Warehouse)
    requires OriginalWrites(run) && |run| > 1 && forall l :: l in run ==> StagedWrite(l, before)
    requires Staged(after, run[0].id) == Staged(before, run[0].id)
    ensures !RunStaged(run, before, after)
  {
    FirstChunkShort(run, before);
  }

  /** The label of a run stands for the whole run, after the dispatcher, unless the
      run has several writes and another label of the batch overlaps it. */
  lemma FaithfulExact(
      enabled: bool, labels: seq<Label>, runs: seq<seq<Label>>, granularity: string, lookup: Option<Lookup>,
      result: ShuffleResult, warehouse: Warehouse, k: nat)
    requires OriginalBatch(labels) && granularity != PER_APPLICATION
    requires PayloadsStaged(labels, warehouse) && ShuffledBy(enabled, granularity, labels, runs, lookup, result)
    requires k < |runs|
    ensures FaithfulRun(runs[k], warehouse, Dispatched(result, warehouse)) <==>
      |runs[k]| == 1 || !Overlapped(labels, runs[k])
  {
    var after := Dispatched(result, warehouse);
    BatchRunStaged(enabled, labels, runs, k, warehouse);
    if runs[k][0].kind == Write {
      RunDelivered(enabled, labels, runs, granularity, lookup, result, warehouse, k);
      assert runs[k][0] in runs[k];
      if Overlapped(labels, runs[k]) {
        if |runs[k]| > 1 {
          FirstChunkOnly(runs[k], warehouse, after);
        } else {
          UnmergedFaithful(runs[k], warehouse, after);
        }
      }
    }
  }

  lemma AllAreFaithful(
      enabled: bool, labels: seq<Label>, runs: seq<seq<Label>>, granularity: string, lookup: Option<Lookup>,
      result: ShuffleResult, warehouse: Warehouse, some: seq<seq<Label>>)
    requires OriginalBatch(labels) && granularity != PER_APPLICATION
    requires PayloadsStaged(labels, warehouse) && ShuffledBy(enabled, granularity, labels, runs, lookup, result)
    requires !MergedOverlapped(labels, runs) && forall run :: run in some ==> run in runs
    ensures AllFaithful(some, warehouse, Dispatched(result, warehouse))
  {
    forall run | run in some
      ensures FaithfulRun(run, warehouse, Dispatched(result, warehouse))
    {
      var k :| 0 <= k < |runs| && runs[k] == run;
      FaithfulExact(enabled, labels, runs, granularity, lookup, result, warehouse, k);
    }
  }

  /** Aggregation preserves meaning. If the writes of a batch are disjoint and no
      read overlaps a run of more than one write, executing the output writes in any
      order, on the warehouse the dispatcher leaves, makes the device what executing
      the original writes in any order makes it. */
  lemma AggregationPreservesBytes(
      enabled: bool, labels: seq<Label>, runs: seq<seq<Label>>, granularity: string, lookup: Option<Lookup>,
      result: ShuffleResult, warehouse: Warehouse, originals: seq<Label>, outputs: seq<Label>, st: State)
    requires OriginalBatch(labels) && DisjointWrites(labels) && granularity != PER_APPLICATION
    requires PayloadsStaged(labels, warehouse) && ShuffledBy(enabled, granularity, labels, runs, lookup, result)
    requires !ReadOverMerged(labels, runs)
    requires multiset(originals) == multiset(WritesIn(labels))
    requires multiset(outputs) == multiset(WritesIn(MergeAll(runs)))
    ensures Exec(Ops(outputs, Dispatched(result, warehouse)), st) == Exec(Ops(originals, warehouse), st)
  {
    RunsOfOriginals(enabled, labels, runs);
    OverlappedByReads(enabled, labels, runs);
    WriteRunsFlatten(runs);
    WriteRunsMerge(runs);
    var ordered := OrderRuns(outputs, WriteRuns(runs));
    OrderedMembers(runs, ordered);
    AllAreFaithful(enabled, labels, runs, granularity, lookup, result, warehouse, ordered);
    RunsExec(ordered, warehouse, Dispatched(result, warehouse), st);
    FlattenPermuted(ordered, WriteRuns(runs));
    SameWrites(enabled, labels, runs);
    OpsPermuted(Flatten(ordered), originals, warehouse);
    NoConflicts(labels, originals, warehouse, Ops(Flatten(ordered), warehouse));
    ConflictSerializable(Ops(Flatten(ordered), warehouse), Ops(originals, warehouse), st);
  }

  lemma OrderedMembers(runs: seq<seq<Label>>, ordered: seq<seq<Label>>)
    requires NonEmptyRuns(runs) && multiset(ordered) == multiset(WriteRuns(runs))
    ensures forall run :: run in ordered ==> run in runs
  {
    forall run | run in ordered
      ensures run in runs
    {
      assert run in multiset(ordered);
      assert run in WriteRuns(runs);
    }
  }

  // ---------------------------------------------------------------------------
  // Every interleaving equals running the original labels by id
  // ---------------------------------------------------------------------------

  lemma Insertion(sorted: seq<Label>, l: Label) returns (k: nat)
    requires AscendingIds(sorted)
    ensures k <= |sorted| && AscendingIds(sorted[..k] + [l] + sorted[k..])
  {
    k := 0;
    while k < |sorted| && sorted[k].id <= l.id
      invariant k <= |sorted| && forall i :: 0 <= i < k ==> sorted[i].id <= l.id
    {
      k := k + 1;
    }
  }

  lemma {:induction false} SomeAscending(labels: seq<Label>) returns (sorted: seq<Label>)
    ensures multiset(sorted) == multiset(labels) && AscendingIds(sorted)
  {
    if labels == [] {
      sorted := [];
    } else {
      var rest := SomeAscending(labels[1..]);
      var k := Insertion(rest, labels[0]);
      assert rest == rest[..k] + rest[k..];
      assert labels == [labels[0]] + labels[1..];
      sorted := rest[..k] + [labels[0]] + rest[k..];
    }
  }

  /** Where two positions of a flattened sequence lie. */
  lemma {:induction false} FlattenAt<T>(parts: seq<seq<T>>, p: nat, q: nat) returns (x: nat, i: nat, y: nat, j: nat)
    requires p < q < |Flatten(parts)|
    ensures x <= y < |parts| && i < |parts[x]| && j < |parts[y]| && (x == y ==> i < j)
    ensures parts[x][i] == Flatten(parts)[p] && parts[y][j] == Flatten(parts)[q]
    decreases |parts|
  {
    var n := |parts[0]|;
    if q < n {
      x, i, y, j := 0, p, 0, q;
    } else if p < n {
      y, j := FlattenIndex(parts[1..], q - n);
      x, i, y := 0, p, y + 1;
    } else {
      x, i, y, j := FlattenAt(parts[1..], p - n, q - n);
      x, y := x + 1, y + 1;
    }
  }

  lemma {:induction false} FlattenIndex<T>(parts: seq<seq<T>>, p: nat) returns (x: nat, i: nat)
    requires p < |Flatten(parts)|
    ensures x < |parts| && i < |parts[x]| && parts[x][i] == Flatten(parts)[p]
    decreases |parts|
  {
    var n := |parts[0]|;
    if p < n {
      x, i := 0, p;
    } else {
      x, i := FlattenIndex(parts[1..], p - n);
      x := x + 1;
    }
  }

  /** The label is the only one of its run. */
  ghost predicate Alone(runs: seq<seq<Label>>, l: Label) {
    forall x :: 0 <= x < |runs| && l in runs[x] ==> runs[x] == [l]
  }

  lemma AloneInOrder(runs: seq<seq<Label>>, a: Label, b: Label, x: nat, i: nat, y: nat, j: nat)
    requires NonEmptyRuns(runs) && AscendingIds(MergeAll(runs)) && a.id < b.id && Alone(runs, a) && Alone(runs, b)
    requires x <= y < |runs| && i < |runs[x]| && j < |runs[y]| && (x == y ==> i < j)
    ensures !(runs[x][i] == b && runs[y][j] == a)
  {
    assert runs[x][i] == b ==> runs[x] == [b] && MergeAll(runs)[x] == b;
    assert runs[y][j] == a ==> runs[y] == [a] && MergeAll(runs)[y] == a;
  }

  /** Labels that are alone in their runs come in the order of the runs' ids. */
  lemma AloneKeepOrder(runs: seq<seq<Label>>, a: Label, b: Label, warehouse: Warehouse)
    requires NonEmptyRuns(runs) && UniqueIds(Flatten(runs)) && AscendingIds(MergeAll(runs))
    requires a in Flatten(runs) && b in Flatten(runs) && a.id < b.id && Alone(runs, a) && Alone(runs, b)
    ensures NoInversion(Ops(Flatten(runs), warehouse), OpOf(a, warehouse), OpOf(b, warehouse))
  {
    var flat, ops := Flatten(runs), Ops(Flatten(runs), warehouse);
    forall p, q | 0 <= p < q < |ops|
      ensures !(ops[p] == OpOf(b, warehouse) && ops[q] == OpOf(a, warehouse))
    {
      var x, i, y, j := FlattenAt(runs, p, q);
      AloneInOrder(runs, a, b, x, i, y, j);
      if ops[p] == OpOf(b, warehouse) && ops[q] == OpOf(a, warehouse) {
        SameId(flat, flat[p], b);
        SameId(flat, flat[q], a);
      }
    }
  }

  lemma SamePiece(run: seq<Label>, a: Label, b: Label)
    requires OriginalWrites(run) && a in run && b in run && Overlaps(a, b)
    ensures a == b
  {
    var i :| 0 <= i < |run| && run[i] == a;
    var j :| 0 <= j < |run| && run[j] == b;
    if i < j {
      PiecesTile(run, i, j);
    } else if j < i {
      PiecesTile(run, j, i);
    }
  }

  /** If no merged run is overlapped, a label that overlaps another one is alone. */
  lemma OverlappingAlone(enabled: bool, labels: seq<Label>, runs: seq<seq<Label>>, a: Label, b: Label)
    requires OriginalBatch(labels) && IsAggregation(enabled, labels, runs) && NonEmptyRuns(runs)
    requires !MergedOverlapped(labels, runs)
    requires a in labels && b in labels && a != b && Overlaps(a, b)
    ensures Alone(runs, a)
  {
    forall x | 0 <= x < |runs| && a in runs[x]
      ensures runs[x] == [a]
    {
      RunOfBatch(enabled, labels, runs, x);
      if |runs[x]| > 1 {
        ManyAreWrites(enabled, labels, runs, x);
        OverlapsWhole(runs[x], b, a);
        assert !Overlapped(labels, runs[x]);
        assert b in runs[x];
        SamePiece(runs[x], a, b);
        assert false;
      }
    }
  }

  lemma ConflictAlone(
      enabled: bool, labels: seq<Label>, runs: seq<seq<Label>>, warehouse: Warehouse, a: Label, b: Label)
    requires OriginalBatch(labels) && PayloadsStaged(labels, warehouse)
    requires IsAggregation(enabled, labels, runs) && NonEmptyRuns(runs) && !MergedOverlapped(labels, runs)
    requires a in labels && b in labels && a.id != b.id && Conflict(OpOf(a, warehouse), OpOf(b, warehouse))
    ensures Alone(runs, a) && Alone(runs, b)
  {
    ClashIsConflict(a, b, warehouse);
    OverlappingAlone(enabled, labels, runs, a, b);
    OverlappingAlone(enabled, labels, runs, b, a);
  }

  lemma AloneReordered(runs: seq<seq<Label>>, ordered: seq<seq<Label>>, l: Label)
    requires multiset(ordered) == multiset(runs) && Alone(runs, l)
    ensures Alone(ordered, l)
  {
    forall x | 0 <= x < |ordered| && l in ordered[x]
      ensures ordered[x] == [l]
    {
      assert ordered[x] in multiset(runs);
    }
  }

  /** Running the runs by the ids of their labels keeps every conflict between
      original labels in id order. */
  lemma RunOrderKeepsConflicts(
      enabled: bool, labels: seq<Label>, runs: seq<seq<Label>>, ordered: seq<seq<Label>>, warehouse: Warehouse,
      serial: seq<Label>)
    requires OriginalBatch(labels) && PayloadsStaged(labels, warehouse)
    requires IsAggregation(enabled, labels, runs) && NonEmptyRuns(runs) && !MergedOverlapped(labels, runs)
    requires NonEmptyRuns(ordered) && multiset(ordered) == multiset(runs) && AscendingIds(MergeAll(ordered))
    requires multiset(serial) == multiset(labels) && AscendingIds(serial)
    ensures multiset(Flatten(ordered)) == multiset(serial)
    ensures KeepsConflictOrder(Ops(Flatten(ordered), warehouse), Ops(serial, warehouse))
  {
    RunsConserved(enabled, labels, runs);
    FlattenPermuted(ordered, runs);
    UniqueIdsTransfer(labels, serial);
    UniqueIdsTransfer(labels, Flatten(ordered));
    forall i, j | 0 <= i < j < |serial| && Conflict(OpOf(serial[i], warehouse), OpOf(serial[j], warehouse))
      ensures NoInversion(Ops(Flatten(ordered), warehouse), OpOf(serial[i], warehouse), OpOf(serial[j], warehouse))
    {
      SerialConflict(enabled, labels, runs, ordered, warehouse, serial, i, j);
    }
  }

  lemma InBoth<T>(s: seq<T>, t: seq<T>, x: T)
    requires multiset(s) == multiset(t) && x in s
    ensures x in t
  {
    assert x in multiset(s);
  }

  lemma SerialConflict(
      enabled: bool, labels: seq<Label>, runs: seq<seq<Label>>, ordered: seq<seq<Label>>, warehouse: Warehouse,
      serial: seq<Label>, i: nat, j: nat)
    requires OriginalBatch(labels) && PayloadsStaged(labels, warehouse)
    requires IsAggregation(enabled, labels, runs) && NonEmptyRuns(runs) && !MergedOverlapped(labels, runs)
    requires NonEmptyRuns(ordered) && multiset(ordered) == multiset(runs) && AscendingIds(MergeAll(ordered))
    requires multiset(serial) == multiset(labels) && AscendingIds(serial) && UniqueIds(serial)
    requires multiset(Flatten(ordered)) == multiset(labels) && UniqueIds(Flatten(ordered))
    requires i < j < |serial| && Conflict(OpOf(serial[i], warehouse), OpOf(serial[j], warehouse))
    ensures NoInversion(Ops(Flatten(ordered), warehouse), OpOf(serial[i], warehouse), OpOf(serial[j], warehouse))
  {
    var a, b := serial[i], serial[j];
    InBoth(serial, labels, a);
    InBoth(serial, labels, b);
    InBoth(labels, Flatten(ordered), a);
    InBoth(labels, Flatten(ordered), b);
    ConflictAlone(enabled, labels, runs, warehouse, a, b);
    AloneReordered(runs, ordered, a);
    AloneReordered(runs, ordered, b);
    AloneKeepOrder(ordered, a, b, warehouse);
  }

  /** A run that stands for its label has exactly its bytes staged. */
  lemma FaithfulPayload(run: seq<Label>, before: Warehouse, after: Warehouse)
    requires FaithfulRun(run, before, after) && OriginalWrites(run)
    ensures |Staged(after, Merge(run).id)| == Merge(run).dataSize
  {
    RunLength(run, before);
    RunSize(run);
    assert run[0] in run;
  }

  /** Every label that enters phase 2 has its bytes staged after the dispatcher,
      exactly if no merged run is overlapped. */
  lemma StagedExact(
      enabled: bool, labels: seq<Label>, runs: seq<seq<Label>>, granularity: string, lookup: Option<Lookup>,
      result: ShuffleResult, warehouse: Warehouse)
    requires OriginalBatch(labels) && granularity != PER_APPLICATION
    requires PayloadsStaged(labels, warehouse) && ShuffledBy(enabled, granularity, labels, runs, lookup, result)
    ensures PayloadsStaged(MergeAll(runs), Dispatched(result, warehouse)) <==> !MergedOverlapped(labels, runs)
  {
    var after := Dispatched(result, warehouse);
    forall k | 0 <= k < |runs| && runs[k][0].kind == Write
      ensures |Staged(after, Merge(runs[k]).id)| == Merge(runs[k]).dataSize <==>
        |runs[k]| == 1 || !Overlapped(labels, runs[k])
    {
      RunStagedExact(enabled, labels, runs, granularity, lookup, result, warehouse, k);
    }
    forall k | 0 <= k < |runs|
      ensures Merge(runs[k]).kind == runs[k][0].kind && (|runs[k]| > 1 ==> runs[k][0].kind == Write)
    {
      RunOfBatch(enabled, labels, runs, k);
    }
    if MergedOverlapped(labels, runs) {
      var k :| 0 <= k < |runs| && |runs[k]| > 1 && Overlapped(labels, runs[k]);
      assert MergeAll(runs)[k] in MergeAll(runs);
    }
  }

  lemma RunStagedExact(
      enabled: bool, labels: seq<Label>, runs: seq<seq<Label>>, granularity: string, lookup: Option<Lookup>,
      result: ShuffleResult, warehouse: Warehouse, k: nat)
    requires OriginalBatch(labels) && granularity != PER_APPLICATION
    requires PayloadsStaged(labels, warehouse) && ShuffledBy(enabled, granularity, labels, runs, lookup, result)
    requires k < |runs| && runs[k][0].kind == Write
    ensures |Staged(Dispatched(result, warehouse), Merge(runs[k]).id)| <= Merge(runs[k]).dataSize
    ensures |Staged(Dispatched(result, warehouse), Merge(runs[k]).id)| == Merge(runs[k]).dataSize <==>
      |runs[k]| == 1 || !Overlapped(labels, runs[k])
    ensures |runs[k]| > 1 && Overlapped(labels, runs[k]) ==>
      OpOf(Merge(runs[k]), Dispatched(result, warehouse)) == OpOf(runs[k][0], warehouse)
  {
    var run, after := runs[k], Dispatched(result, warehouse);
    FaithfulExact(enabled, labels, runs, granularity, lookup, result, warehouse, k);
    BatchRunStaged(enabled, labels, runs, k, warehouse);
    if |run| == 1 || !Overlapped(labels, run) {
      FaithfulPayload(run, warehouse, after);
    } else {
      RunDelivered(enabled, labels, runs, granularity, lookup, result, warehouse, k);
      FirstChunkShort(run, warehouse);
      RunLength(run, warehouse);
      RunSize(run);
      assert run[0] in run;
    }
  }

  /** End to end. If no label of a batch overlaps a run of several writes it is not
      part of, then whatever the workers do with the shuffled batch gives every read
      the bytes, and leaves the device, that running the original labels one by one
      in ascending id order does. */
  lemma ShuffleIsSerial(
      enabled: bool, labels: seq<Label>, runs: seq<seq<Label>>, granularity: string, lookup: Option<Lookup>,
      result: ShuffleResult, warehouse: Warehouse, run: seq<Op>, serial: seq<Label>, st: State)
    requires OriginalBatch(labels) && granularity != PER_APPLICATION
    requires PayloadsStaged(labels, warehouse) && ShuffledBy(enabled, granularity, labels, runs, lookup, result)
    requires !MergedOverlapped(labels, runs)
    requires Interleaving(ThreadsOf(result, Dispatched(result, warehouse)), run)
    requires multiset(serial) == multiset(labels) && AscendingIds(serial)
    ensures Exec(run, st) == Exec(Ops(serial, warehouse), st)
  {
    var after := Dispatched(result, warehouse);
    EnteringWellFormed(enabled, labels, runs);
    StagedExact(enabled, labels, runs, granularity, lookup, result, warehouse);
    PerFileCoversConflicts(MergeAll(runs), granularity, after);
    var byId := SomeAscending(MergeAll(runs));
    Serializable(MergeAll(runs), granularity, lookup, result, after, run, byId, st);
    var ordered := OrderRuns(byId, runs);
    forall r | r in ordered
      ensures r in runs
    {
      InBoth(ordered, runs, r);
    }
    AllAreFaithful(enabled, labels, runs, granularity, lookup, result, warehouse, ordered);
    RunsExec(ordered, warehouse, after, st);
    SerialRuns(enabled, labels, runs, ordered, warehouse, serial, st);
  }

  lemma SerialRuns(
      enabled: bool, labels: seq<Label>, runs: seq<seq<Label>>, ordered: seq<seq<Label>>, warehouse: Warehouse,
      serial: seq<Label>, st: State)
    requires OriginalBatch(labels) && PayloadsStaged(labels, warehouse)
    requires IsAggregation(enabled, labels, runs) && NonEmptyRuns(runs) && !MergedOverlapped(labels, runs)
    requires NonEmptyRuns(ordered) && multiset(ordered) == multiset(runs) && AscendingIds(MergeAll(ordered))
    requires multiset(serial) == multiset(labels) && AscendingIds(serial)
    ensures Exec(Ops(Flatten(ordered), warehouse), st) == Exec(Ops(serial, warehouse), st)
  {
    RunOrderKeepsConflicts(enabled, labels, runs, ordered, warehouse, serial);
    UniqueIdsTransfer(labels, serial);
    DistinctOps(serial, warehouse);
    OpsPermuted(Flatten(ordered), serial, warehouse);
    ConflictSerializable(Ops(Flatten(ordered), warehouse), Ops(serial, warehouse), st);
  }

  // ---------------------------------------------------------------------------
  // When a merged run is overlapped, bytes are lost
  // ---------------------------------------------------------------------------

  lemma WritesWithin(l: Label, warehouse: Warehouse, p: nat)
    requires WellFormed(l) && Writes(OpOf(l, warehouse), Loc(l.fileKey, p))
    requires |Staged(warehouse, l.id)| <= l.dataSize
    ensures l.kind == Write && Touches(l, p)
  {
  }

  /** No operation of the shuffled batch writes a byte of a later piece of a run
      that another label overlaps. */
  lemma PieceUnwritten(
      enabled: bool, labels: seq<Label>, runs: seq<seq<Label>>, granularity: string, lookup: Option<Lookup>,
      result: ShuffleResult, warehouse: Warehouse, k: nat, j: nat, p: nat, m: nat)
    requires OriginalBatch(labels) && DisjointWrites(labels) && granularity != PER_APPLICATION
    requires PayloadsStaged(labels, warehouse) && ShuffledBy(enabled, granularity, labels, runs, lookup, result)
    requires k < |runs| && 0 < j < |runs[k]| && Overlapped(labels, runs[k]) && Touches(runs[k][j], p) && m < |runs|
    ensures !Writes(OpOf(Merge(runs[m]), Dispatched(result, warehouse)), Loc(runs[k][0].fileKey, p))
  {
    var after := Dispatched(result, warehouse);
    ManyAreWrites(enabled, labels, runs, k);
    RunOfBatch(enabled, labels, runs, k);
    RunOfBatch(enabled, labels, runs, m);
    assert runs[k][j] in runs[k];
    RunCovers(runs[k], p);
    if m == k {
      RunStagedExact(enabled, labels, runs, granularity, lookup, result, warehouse, k);
      BatchRunStaged(enabled, labels, runs, k, warehouse);
      assert runs[k][0] in runs[k];
      AfterFirst(runs[k], j, p, warehouse);
    } else if runs[m][0].kind == Write && runs[m][0].fileKey == runs[k][0].fileKey {
      RunStagedExact(enabled, labels, runs, granularity, lookup, result, warehouse, m);
      EnteringDisjoint(enabled, labels, runs, m, k);
      if Writes(OpOf(Merge(runs[m]), after), Loc(runs[k][0].fileKey, p)) {
        WritesWithin(Merge(runs[m]), after, p);
        BothTouch(Merge(runs[m]), Merge(runs[k]), p);
      }
    }
  }

  lemma AfterFirst(run: seq<Label>, j: nat, p: nat, warehouse: Warehouse)
    requires OriginalWrites(run) && 0 < j < |run| && Touches(run[j], p) && StagedWrite(run[0], warehouse)
    ensures !Writes(OpOf(run[0], warehouse), Loc(run[0].fileKey, p))
  {
    ChainOrdered(run, 0, j);
    assert run[j] in run && run[0] in run;
  }

  /** If the writes are disjoint and a label of the batch overlaps a run of several
      writes it is not part of, the bytes of all pieces but the first never reach the
      device, whatever the workers do. */
  lemma BytesLost(
      enabled: bool, labels: seq<Label>, runs: seq<seq<Label>>, granularity: string, lookup: Option<Lookup>,
      result: ShuffleResult, warehouse: Warehouse, k: nat, j: nat, p: nat, run: seq<Op>, st: State)
    requires OriginalBatch(labels) && DisjointWrites(labels) && granularity != PER_APPLICATION
    requires PayloadsStaged(labels, warehouse) && ShuffledBy(enabled, granularity, labels, runs, lookup, result)
    requires k < |runs| && 0 < j < |runs[k]| && Overlapped(labels, runs[k]) && Touches(runs[k][j], p)
    requires Interleaving(ThreadsOf(result, Dispatched(result, warehouse)), run)
    ensures Cell(Exec(run, st).store, Loc(runs[k][0].fileKey, p)) == Cell(st.store, Loc(runs[k][0].fileKey, p))
  {
    var after, loc := Dispatched(result, warehouse), Loc(runs[k][0].fileKey, p);
    forall m | 0 <= m < |runs|
      ensures !Writes(Ops(MergeAll(runs), after)[m], loc)
    {
      PieceUnwritten(enabled, labels, runs, granularity, lookup, result, warehouse, k, j, p, m);
    }
    ThreadsComplete(MergeAll(runs), granularity, lookup, result, after);
    InterleavingComplete(ThreadsOf(result, after), run);
    PermutedUnwritten(run, Ops(MergeAll(runs), after), st, loc);
  }

  lemma PermutedUnwritten(run: seq<Op>, ops: seq<Op>, st: State, loc: Loc)
    requires multiset(run) == multiset(ops) && forall i :: 0 <= i < |ops| ==> !Writes(ops[i], loc)
    ensures Cell(Exec(run, st).store, loc) == Cell(st.store, loc)
  {
    forall op | op in run
      ensures !Writes(op, loc)
    {
      InBoth(run, ops, op);
    }
    Unwritten(run, st, loc);
  }

  /** Running the original labels puts every byte of every write on the device. */
  lemma SerialWrites(labels: seq<Label>, serial: seq<Label>, warehouse: Warehouse, l: Label, p: nat, st: State)
    requires OriginalBatch(labels) && DisjointWrites(labels) && PayloadsStaged(labels, warehouse)
    requires multiset(serial) == multiset(labels) && l in labels && l.kind == Write && Touches(l, p)
    ensures Cell(Exec(Ops(serial, warehouse), st).store, Loc(l.fileKey, p)) == Staged(warehouse, l.id)[p - Start(l)]
  {
    var loc, ops := Loc(l.fileKey, p), Ops(serial, warehouse);
    var x := SameElementsFind(serial, labels, l);
    UniqueIdsTransfer(labels, serial);
    forall i | 0 <= i < |ops| && i != x
      ensures !Writes(ops[i], loc)
    {
      InBoth(serial, labels, serial[i]);
      OneWriter(labels, warehouse, serial[i], l, p);
    }
    WrittenOnce(ops, x, st, loc);
  }

  lemma OneWriter(labels: seq<Label>, warehouse: Warehouse, other: Label, l: Label, p: nat)
    requires OriginalBatch(labels) && DisjointWrites(labels) && PayloadsStaged(labels, warehouse)
    requires other in labels && l in labels && other.id != l.id && l.kind == Write && Touches(l, p)
    ensures !Writes(OpOf(other, warehouse), Loc(l.fileKey, p))
  {
    if Writes(OpOf(other, warehouse), Loc(l.fileKey, p)) {
      assert other.fileKey == l.fileKey;
      WritesWithin(other, warehouse, p);
      PiecesApart(labels, other, l, p);
    }
  }

  /** Whatever the workers do, and whatever the device holds, the shuffled batch
      ends as `ops` does. */
  ghost predicate AlwaysEndsAs(result: ShuffleResult, warehouse: Warehouse, ops: seq<Op>) {
    forall run, st :: Interleaving(ThreadsOf(result, warehouse), run) ==> Exec(run, st) == Exec(ops, st)
  }

  /** A batch whose writes are disjoint is executed as if its labels ran one by one
      in ascending id order if and only if no read of the batch overlaps a run of
      more than one write. */
  lemma ShuffleExact(
      enabled: bool, labels: seq<Label>, runs: seq<seq<Label>>, granularity: string, lookup: Option<Lookup>,
      result: ShuffleResult, warehouse: Warehouse, serial: seq<Label>)
    requires OriginalBatch(labels) && DisjointWrites(labels) && granularity != PER_APPLICATION
    requires PayloadsStaged(labels, warehouse) && ShuffledBy(enabled, granularity, labels, runs, lookup, result)
    requires multiset(serial) == multiset(labels) && AscendingIds(serial)
    ensures AlwaysEndsAs(result, Dispatched(result, warehouse), Ops(serial, warehouse)) <==>
      !ReadOverMerged(labels, runs)
  {
    OverlappedByReads(enabled, labels, runs);
    if MergedOverlapped(labels, runs) {
      var k :| 0 <= k < |runs| && |runs[k]| > 1 && Overlapped(labels, runs[k]);
      OverlapLosesBytes(enabled, labels, runs, granularity, lookup, result, warehouse, serial, k);
    } else {
      forall run, st | Interleaving(ThreadsOf(result, Dispatched(result, warehouse)), run)
        ensures Exec(run, st) == Exec(Ops(serial, warehouse), st)
      {
        ShuffleIsSerial(enabled, labels, runs, granularity, lookup, result, warehouse, run, serial, st);
      }
    }
  }

  lemma SecondPiece(enabled: bool, labels: seq<Label>, runs: seq<seq<Label>>, k: nat)
    requires OriginalBatch(labels) && IsAggregation(enabled, labels, runs) && k < |runs| && |runs[k]| > 1
    ensures var l := runs[k][1];
      l in labels && l.kind == Write && l.fileKey == runs[k][0].fileKey && Touches(l, Start(l))
  {
    ManyAreWrites(enabled, labels, runs, k);
    RunOfBatch(enabled, labels, runs, k);
    assert runs[k][1] in runs[k];
    OneFile(runs[k], runs[k][1]);
  }

  function OtherByte(b: byte): byte {
    if b == 0 then 1 else 0
  }

  lemma EndsDifferently(result: ShuffleResult, warehouse: Warehouse, ops: seq<Op>, run: seq<Op>, st: State, loc: Loc)
    requires Interleaving(ThreadsOf(result, warehouse), run)
    requires Cell(Exec(run, st).store, loc) != Cell(Exec(ops, st).store, loc)
    ensures !AlwaysEndsAs(result, warehouse, ops)
  {
    assert Exec(run, st) != Exec(ops, st);
  }

  lemma SecondPieceWritten(
      enabled: bool, labels: seq<Label>, runs: seq<seq<Label>>, warehouse: Warehouse, serial: seq<Label>, k: nat,
      st: State)
    requires OriginalBatch(labels) && DisjointWrites(labels) && PayloadsStaged(labels, warehouse)
    requires IsAggregation(enabled, labels, runs) && k < |runs| && |runs[k]| > 1
    requires multiset(serial) == multiset(labels)
    ensures var loc := Loc(runs[k][1].fileKey, Start(runs[k][1]));
      && Staged(warehouse, runs[k][1].id) != []
      && Cell(Exec(Ops(serial, warehouse), st).store, loc) == Staged(warehouse, runs[k][1].id)[0]
  {
    SecondPiece(enabled, labels, runs, k);
    SerialWrites(labels, serial, warehouse, runs[k][1], Start(runs[k][1]), st);
  }

  lemma SecondPieceLost(
      enabled: bool, labels: seq<Label>, runs: seq<seq<Label>>, granularity: string, lookup: Option<Lookup>,
      result: ShuffleResult, warehouse: Warehouse, k: nat, run: seq<Op>, st: State)
    requires OriginalBatch(labels) && DisjointWrites(labels) && granularity != PER_APPLICATION
    requires PayloadsStaged(labels, warehouse) && ShuffledBy(enabled, granularity, labels, runs, lookup, result)
    requires k < |runs| && |runs[k]| > 1 && Overlapped(labels, runs[k])
    requires Interleaving(ThreadsOf(result, Dispatched(result, warehouse)), run)
    ensures var loc := Loc(runs[k][1].fileKey, Start(runs[k][1]));
      Cell(Exec(run, st).store, loc) == Cell(st.store, loc)
  {
    SecondPiece(enabled, labels, runs, k);
    BytesLost(
      enabled, labels, runs, granularity, lookup, result, warehouse, k, 1, Start(runs[k][1]), run, st);
  }

  lemma OverlapLosesBytes(
      enabled: bool, labels: seq<Label>, runs: seq<seq<Label>>, granularity: string, lookup: Option<Lookup>,
      result: ShuffleResult, warehouse: Warehouse, serial: seq<Label>, k: nat)
    requires OriginalBatch(labels) && DisjointWrites(labels) && granularity != PER_APPLICATION
    requires PayloadsStaged(labels, warehouse) && ShuffledBy(enabled, granularity, labels, runs, lookup, result)
    requires multiset(serial) == multiset(labels)
    requires k < |runs| && |runs[k]| > 1 && Overlapped(labels, runs[k])
    ensures !AlwaysEndsAs(result, Dispatched(result, warehouse), Ops(serial, warehouse))
  {
    var piece, after := runs[k][1], Dispatched(result, warehouse);
    var loc, chunk := Loc(piece.fileKey, Start(piece)), Staged(warehouse, piece.id);
    var st := State(map[loc := if chunk == [] then 0 else OtherByte(chunk[0])], map[]);
    var run := SomeInterleaving(ThreadsOf(result, after));
    SecondPieceWritten(enabled, labels, runs, warehouse, serial, k, st);
    SecondPieceLost(enabled, labels, runs, granularity, lookup, result, warehouse, k, run, st);
    EndsDifferently(result, after, Ops(serial, warehouse), run, st, loc);
  }

  /** The same for what the shuffler returns, with a condition on the batch alone:
      aggregation is off, or no read overlaps one of two touching writes. */
  lemma BatchExact(
      enabled: bool, labels: seq<Label>, granularity: string, lookup: Option<Lookup>, result: ShuffleResult,
      warehouse: Warehouse, serial: seq<Label>)
    requires OriginalBatch(labels) && DisjointWrites(labels) && granularity != PER_APPLICATION
    requires PayloadsStaged(labels, warehouse) && Shuffled(enabled, granularity, labels, lookup, result)
    requires multiset(serial) == multiset(labels) && AscendingIds(serial)
    ensures AlwaysEndsAs(result, Dispatched(result, warehouse), Ops(serial, warehouse)) <==>
      !(enabled && ReadOverTouching(labels))
  {
    var runs :| ShuffledBy(enabled, granularity, labels, runs, lookup, result);
    ShuffleExact(enabled, labels, runs, granularity, lookup, result, warehouse, serial);
    OverlappedByReads(enabled, labels, runs);
    if enabled {
      MergedOverlappedExact(labels, runs);
    } else {
      NothingMerged(labels, runs);
    }
  }
}
