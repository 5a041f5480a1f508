/** Which merged writes the dispatcher puts together: it concatenates the chunks
    of the labels that stayed independent, so a merged write that became a child
    of a supertask is left with its first chunk. */
module Delivery {
  import opened Basics
  import opened FileStore
  import opened Labels
  import opened Aggregate
  import opened Schedule
  import opened Serializability
  import opened AggregationMeaning
  import opened Dispatcher
  import opened Shuffler

  // ---------------------------------------------------------------------------
  // The bytes of a run
  // ---------------------------------------------------------------------------

  predicate Touches(l: Label, p: nat) {
    LabelRange(l).offset <= p < LabelRange(l).offset + LabelRange(l).length
  }

  lemma CommonByte(a: Label, b: Label) returns (p: nat)
    requires WellFormed(a) && WellFormed(b) && RangesOverlap(LabelRange(a), LabelRange(b))
    ensures Touches(a, p) && Touches(b, p)
  {
    p := if LabelRange(a).offset <= LabelRange(b).offset then LabelRange(b).offset else LabelRange(a).offset;
  }

  lemma BothTouch(a: Label, b: Label, p: nat)
    requires WellFormed(a) && WellFormed(b) && Touches(a, p) && Touches(b, p)
    ensures RangesOverlap(LabelRange(a), LabelRange(b))
  {
  }

  ghost predicate OriginalWrites(run: seq<Label>) {
    IsRun(run) && forall l :: l in run ==> IsOriginal(l) && l.kind == Write
  }

  lemma MergedTouches(run: seq<Label>, p: nat)
    requires OriginalWrites(run)
    ensures WellFormed(Merge(run))
    ensures Touches(Merge(run), p) <==> Start(run[0]) <= p < EndOf(run[|run| - 1])
  {
    assert run[0] in run;
    RunSize(run);
  }

  lemma {:induction false} ChainPiece(run: seq<Label>, p: nat) returns (l: Label)
    requires OriginalWrites(run) && Start(run[0]) <= p < EndOf(run[|run| - 1])
    ensures l in run && Touches(l, p)
  {
    var init, last := run[..|run| - 1], run[|run| - 1];
    assert last in run;
    if Start(last) <= p {
      l := last;
    } else {
      RunInit(run);
      l := ChainPiece(init, p);
    }
  }

  lemma {:induction false} ChainHolds(run: seq<Label>, i: nat)
    requires OriginalWrites(run) && i < |run|
    ensures Start(run[0]) <= Start(run[i]) < EndOf(run[i]) <= EndOf(run[|run| - 1])
  {
    var init, last := run[..|run| - 1], run[|run| - 1];
    assert last in run && run[i] in run;
    if |run| > 1 {
      RunInit(run);
      ChainHolds(init, if i < |init| then i else |init| - 1);
    }
  }

  lemma {:induction false} ChainOrdered(run: seq<Label>, i: nat, j: nat)
    requires OriginalWrites(run) && i < j < |run|
    ensures EndOf(run[i]) <= Start(run[j]) < EndOf(run[j])
    decreases j
  {
    assert run[j - 1] in run && run[j] in run;
    OriginalNonEmpty(run[j]);
    if i < j - 1 {
      ChainOrdered(run, i, j - 1);
    }
  }

  /** The pieces of a run do not overlap each other. */
  lemma PiecesTile(run: seq<Label>, i: nat, j: nat)
    requires OriginalWrites(run) && i < j < |run|
    ensures !RangesOverlap(LabelRange(run[i]), LabelRange(run[j]))
  {
    ChainOrdered(run, i, j);
    assert run[i] in run && run[j] in run;
  }

  /** The label of a write run touches exactly the bytes of its pieces. */
  lemma RunCovers(run: seq<Label>, p: nat)
    requires OriginalWrites(run)
    ensures WellFormed(Merge(run))
    ensures Touches(Merge(run), p) <==> exists l :: l in run && Touches(l, p)
  {
    MergedTouches(run, p);
    if Touches(Merge(run), p) {
      var l := ChainPiece(run, p);
    }
    forall l | l in run && Touches(l, p)
      ensures Start(run[0]) <= p < EndOf(run[|run| - 1])
    {
      var i :| 0 <= i < |run| && run[i] == l;
      ChainHolds(run, i);
    }
  }

  /** What a merged label records about its pieces agrees with the range it covers;
      everything else is the first piece's. */
  lemma MergedRecord(run: seq<Label>)
    requires OriginalWrites(run) && |run| > 1
    ensures var m, first, last := Merge(run), run[0], run[|run| - 1];
      && m.kind == Write && m.id == first.id && m.fileKey == first.fileKey && m.appId == first.appId
      && m.attributes == first.attributes && m.replyTo == first.replyTo && m.source == first.source
      && LabelRange(m).offset == LabelRange(first).offset
      && LabelRange(m).offset + LabelRange(m).length == LabelRange(last).offset + LabelRange(last).length
      && m.aggregation == Aggregation(m.children, LabelRange(m).offset, LabelRange(m).length)
      && |m.children| == |run| && forall i :: 0 <= i < |run| ==> m.children[i] == run[i].id
  {
    assert run[0] in run && run[|run| - 1] in run;
    RunSize(run);
  }

  // ---------------------------------------------------------------------------
  // What enters phase 2
  // ---------------------------------------------------------------------------

  lemma RunFacts(run: seq<Label>)
    requires IsRun(run) && forall l :: l in run ==> IsOriginal(l)
    ensures run[0].kind == Write ==> OriginalWrites(run)
    ensures run[0].kind != Write ==> run == [run[0]] && Merge(run) == run[0]
    ensures Merge(run).kind == run[0].kind && Merge(run).fileKey == run[0].fileKey
    ensures WellFormed(Merge(run))
  {
    RunWrites(run);
    assert run[0] in run;
    if run[0].kind == Write {
      MergedTouches(run, 0);
    }
  }

  lemma RunOfBatch(enabled: bool, labels: seq<Label>, runs: seq<seq<Label>>, k: nat)
    requires OriginalBatch(labels) && IsAggregation(enabled, labels, runs) && k < |runs|
    ensures IsRun(runs[k]) && forall l :: l in runs[k] ==> l in labels && IsOriginal(l)
    ensures runs[k][0].kind == Write ==> OriginalWrites(runs[k])
    ensures runs[k][0].kind != Write ==> runs[k] == [runs[k][0]] && Merge(runs[k]) == runs[k][0]
    ensures Merge(runs[k]).kind == runs[k][0].kind && Merge(runs[k]).fileKey == runs[k][0].fileKey
    ensures WellFormed(Merge(runs[k]))
  {
    RunsOfOriginals(enabled, labels, runs);
    RunFacts(runs[k]);
  }

  /** The labels that phase 1 hands on are well-formed and have unique ids. */
  lemma EnteringWellFormed(enabled: bool, labels: seq<Label>, runs: seq<seq<Label>>)
    requires OriginalBatch(labels) && IsAggregation(enabled, labels, runs)
    ensures NonEmptyRuns(runs) && WellFormedBatch(MergeAll(runs))
  {
    MergedIdsUnique(enabled, labels, runs);
    forall k | 0 <= k < |runs|
      ensures WellFormed(MergeAll(runs)[k])
    {
      RunOfBatch(enabled, labels, runs, k);
    }
  }

  lemma PieceTouching(run: seq<Label>, p: nat) returns (l: Label)
    requires OriginalWrites(run) && Touches(Merge(run), p)
    ensures l in run && Touches(l, p)
  {
    RunCovers(run, p);
    l :| l in run && Touches(l, p);
  }

  lemma DifferentRuns(enabled: bool, labels: seq<Label>, runs: seq<seq<Label>>, j: nat, k: nat, a: Label, b: Label)
    requires OriginalBatch(labels) && IsAggregation(enabled, labels, runs)
    requires j < |runs| && k < |runs| && j != k && a in runs[j] && b in runs[k]
    ensures a.id != b.id
  {
    RunsOfOriginals(enabled, labels, runs);
    UniqueAcrossRuns(runs);
  }

  lemma PiecesApart(labels: seq<Label>, a: Label, b: Label, p: nat)
    requires OriginalBatch(labels) && DisjointWrites(labels) && a in labels && b in labels && a.id != b.id
    requires a.kind == Write && b.kind == Write && a.fileKey == b.fileKey
    ensures !(Touches(a, p) && Touches(b, p))
  {
    if Touches(a, p) && Touches(b, p) {
      BothTouch(a, b, p);
    }
  }

  lemma RunsApart(labels: seq<Label>, run: seq<Label>, other: seq<Label>)
    requires OriginalBatch(labels) && DisjointWrites(labels)
    requires OriginalWrites(run) && OriginalWrites(other) && run[0].fileKey == other[0].fileKey
    requires forall a :: a in run ==> a in labels
    requires forall b :: b in other ==> b in labels
    requires forall a, b :: a in run && b in other ==> a.id != b.id
    ensures !RangesOverlap(LabelRange(Merge(run)), LabelRange(Merge(other)))
  {
    RunCovers(run, 0);
    RunCovers(other, 0);
    if RangesOverlap(LabelRange(Merge(run)), LabelRange(Merge(other))) {
      var p := CommonByte(Merge(run), Merge(other));
      var a := PieceTouching(run, p);
      var b := PieceTouching(other, p);
      OneFile(run, a);
      OneFile(other, b);
      PiecesApart(labels, a, b, p);
      assert false;
    }
  }

  lemma OneFile(run: seq<Label>, l: Label)
    requires IsRun(run) && l in run
    ensures l.fileKey == run[0].fileKey
  {
  }

  /** Two labels that enter phase 2 and write do not overlap. */
  lemma EnteringDisjoint(enabled: bool, labels: seq<Label>, runs: seq<seq<Label>>, j: nat, k: nat)
    requires OriginalBatch(labels) && DisjointWrites(labels) && IsAggregation(enabled, labels, runs)
    requires j < |runs| && k < |runs| && j != k && IsRun(runs[j]) && IsRun(runs[k])
    requires runs[j][0].kind == Write && runs[k][0].kind == Write && runs[j][0].fileKey == runs[k][0].fileKey
    ensures !RangesOverlap(LabelRange(Merge(runs[j])), LabelRange(Merge(runs[k])))
  {
    RunOfBatch(enabled, labels, runs, j);
    RunOfBatch(enabled, labels, runs, k);
    forall a, b | a in runs[j] && b in runs[k]
      ensures a.id != b.id
    {
      DifferentRuns(enabled, labels, runs, j, k, a, b);
    }
    RunsApart(labels, runs[j], runs[k]);
  }

  // ---------------------------------------------------------------------------
  // Who is involved
  // ---------------------------------------------------------------------------

  ghost predicate HasHazard(entering: seq<Label>, l: Label, granularity: string) {
    exists e :: e in entering && (Hazardous(e, l, granularity) || Hazardous(l, e, granularity))
  }

  lemma {:induction false} InvolvedOrigin(labels: seq<Label>, id: nat) returns (i: nat)
    requires id in Involved(labels)
    ensures i < |labels| && labels[i].dependencies != []
    ensures id == labels[i].id || id in DependencyIds(labels[i].dependencies)
  {
    var n := |labels| - 1;
    if id in Involved(labels[..n]) {
      i := InvolvedOrigin(labels[..n], id);
    } else {
      i := n;
    }
  }

  ghost predicate NoDependencies(labels: seq<Label>) {
    forall l :: l in labels ==> l.dependencies == []
  }

  lemma RecordedHazard(entering: seq<Label>, annotated: seq<Label>, granularity: string, i: nat, d: Dependency)
    returns (e: Label)
    requires NoDependencies(entering) && IsAnnotated(entering, annotated, granularity)
    requires i < |annotated| && d in annotated[i].dependencies
    ensures e in entering && Hazardous(e, entering[i], granularity) && d.labelId == e.id
    ensures annotated[i].id == entering[i].id
  {
    assert HazardsAppended(entering, entering[i], annotated[i], granularity);
    assert entering[i] in entering;
    assert annotated[i].dependencies[0..] == annotated[i].dependencies;
    e :| e in entering && Hazardous(e, entering[i], granularity) && d == Dependency(e.id, HazardOf(e, entering[i]));
  }

  lemma SameId(labels: seq<Label>, a: Label, b: Label)
    requires UniqueIds(labels) && a in labels && b in labels && a.id == b.id
    ensures a == b
  {
  }

  /** Phase 3 takes exactly the labels that have a hazard with another one. */
  lemma InvolvedExact(entering: seq<Label>, annotated: seq<Label>, granularity: string, x: nat)
    requires UniqueIds(entering) && NoDependencies(entering) && IsAnnotated(entering, annotated, granularity)
    requires x < |entering|
    ensures entering[x].id in Involved(annotated) <==> HasHazard(entering, entering[x], granularity)
  {
    var l := entering[x];
    if l.id in Involved(annotated) {
      var i := InvolvedOrigin(annotated, l.id);
      assert HazardsAppended(entering, entering[i], annotated[i], granularity);
      if l.id == annotated[i].id {
        var e := RecordedHazard(entering, annotated, granularity, i, annotated[i].dependencies[0]);
        SameId(entering, l, entering[i]);
      } else {
        var d :| d in annotated[i].dependencies && d.labelId == l.id;
        var e := RecordedHazard(entering, annotated, granularity, i, d);
        SameId(entering, l, e);
        assert Hazardous(l, entering[i], granularity);
      }
    }
    if HasHazard(entering, l, granularity) {
      var e :| e in entering && (Hazardous(e, l, granularity) || Hazardous(l, e, granularity));
      var y :| 0 <= y < |entering| && entering[y] == e;
      HazardIds(entering, annotated, granularity, x, y);
    }
  }

  lemma HazardIds(entering: seq<Label>, annotated: seq<Label>, granularity: string, x: nat, y: nat)
    requires IsAnnotated(entering, annotated, granularity) && x < |entering| && y < |entering|
    requires Hazardous(entering[y], entering[x], granularity) || Hazardous(entering[x], entering[y], granularity)
    ensures entering[x].id in Involved(annotated)
  {
    assert HazardsAppended(entering, entering[x], annotated[x], granularity);
    if Hazardous(entering[y], entering[x], granularity) {
      HazardInvolved(entering, annotated, granularity, y, x);
    } else {
      HazardInvolved(entering, annotated, granularity, x, y);
    }
  }

  // ---------------------------------------------------------------------------
  // Labels over runs
  // ---------------------------------------------------------------------------

  predicate Overlaps(a: Label, b: Label) {
    a.fileKey == b.fileKey && RangesOverlap(LabelRange(a), LabelRange(b))
  }

  /** A label of the batch outside the run overlaps the run. */
  ghost predicate Overlapped(labels: seq<Label>, run: seq<Label>)
    requires run != []
  {
    exists l :: l in labels && l !in run && Overlaps(l, Merge(run))
  }

  /** A label of the batch overlaps a run of several writes it is not part of. */
  ghost predicate MergedOverlapped(labels: seq<Label>, runs: seq<seq<Label>>)
    requires NonEmptyRuns(runs)
  {
    exists k :: 0 <= k < |runs| && |runs[k]| > 1 && Overlapped(labels, runs[k])
  }

  lemma IndexOfRun(enabled: bool, labels: seq<Label>, runs: seq<seq<Label>>, l: Label) returns (j: nat)
    requires OriginalBatch(labels) && IsAggregation(enabled, labels, runs) && l in labels
    ensures j < |runs| && l in runs[j]
  {
    RunsConserved(enabled, labels, runs);
    assert l in multiset(Flatten(runs));
    FlattenMember(runs, l);
    j :| 0 <= j < |runs| && l in runs[j];
  }

  /** Whatever overlaps the label of a run overlaps one of its pieces. */
  lemma PieceOverlaps(run: seq<Label>, other: Label) returns (l: Label)
    requires IsRun(run) && (forall m :: m in run ==> IsOriginal(m))
    requires WellFormed(other) && Overlaps(Merge(run), other)
    ensures l in run && Overlaps(l, other)
  {
    RunFacts(run);
    assert run[0] in run;
    if run[0].kind == Write {
      var p := CommonByte(Merge(run), other);
      l := PieceTouching(run, p);
      BothTouch(l, other, p);
      OneFile(run, l);
    } else {
      l := run[0];
    }
  }

  lemma OverlapsWhole(run: seq<Label>, other: Label, l: Label)
    requires IsRun(run) && (forall m :: m in run ==> IsOriginal(m))
    requires WellFormed(other) && l in run && Overlaps(l, other)
    ensures Overlaps(Merge(run), other)
  {
    RunFacts(run);
    if run[0].kind == Write {
      var p := CommonByte(l, other);
      RunCovers(run, p);
      BothTouch(Merge(run), other, p);
      OneFile(run, l);
    }
  }

  lemma HazardOverlaps(enabled: bool, labels: seq<Label>, runs: seq<seq<Label>>, j: nat, k: nat)
    requires OriginalBatch(labels) && IsAggregation(enabled, labels, runs) && NonEmptyRuns(runs)
    requires j < |runs| && k < |runs| && j != k && Overlaps(Merge(runs[j]), Merge(runs[k]))
    ensures Overlapped(labels, runs[k])
  {
    RunOfBatch(enabled, labels, runs, j);
    RunOfBatch(enabled, labels, runs, k);
    var l := PieceOverlaps(runs[j], Merge(runs[k]));
    if l in runs[k] {
      DifferentRuns(enabled, labels, runs, j, k, l, l);
    }
  }

  lemma WriteClash(a: Label, w: Label, granularity: string)
    requires w.kind == Write && a.id != w.id && Overlaps(a, w) && granularity != PER_APPLICATION
    ensures Hazardous(a, w, granularity) || Hazardous(w, a, granularity)
  {
  }

  lemma OverlapHazard(enabled: bool, labels: seq<Label>, runs: seq<seq<Label>>, granularity: string, k: nat)
    requires OriginalBatch(labels) && granularity != PER_APPLICATION
    requires IsAggregation(enabled, labels, runs) && NonEmptyRuns(runs)
    requires k < |runs| && runs[k][0].kind == Write && Overlapped(labels, runs[k])
    ensures HasHazard(MergeAll(runs), Merge(runs[k]), granularity)
  {
    RunOfBatch(enabled, labels, runs, k);
    EnteringWellFormed(enabled, labels, runs);
    var l :| l in labels && l !in runs[k] && Overlaps(l, Merge(runs[k]));
    var j := IndexOfRun(enabled, labels, runs, l);
    RunOfBatch(enabled, labels, runs, j);
    OverlapsWhole(runs[j], Merge(runs[k]), l);
    assert MergeAll(runs)[j].id != MergeAll(runs)[k].id;
    WriteClash(MergeAll(runs)[j], MergeAll(runs)[k], granularity);
    assert MergeAll(runs)[j] in MergeAll(runs);
  }

  /** The label of a write run has a hazard exactly if a label of the batch outside
      the run overlaps it. */
  lemma WriteRunHazard(
      enabled: bool, labels: seq<Label>, runs: seq<seq<Label>>, granularity: string, k: nat)
    requires OriginalBatch(labels) && granularity != PER_APPLICATION
    requires IsAggregation(enabled, labels, runs) && NonEmptyRuns(runs)
    requires k < |runs| && runs[k][0].kind == Write
    ensures HasHazard(MergeAll(runs), Merge(runs[k]), granularity) <==> Overlapped(labels, runs[k])
  {
    if HasHazard(MergeAll(runs), Merge(runs[k]), granularity) {
      var e :| e in MergeAll(runs)
            && (Hazardous(e, Merge(runs[k]), granularity) || Hazardous(Merge(runs[k]), e, granularity));
      var j :| 0 <= j < |runs| && MergeAll(runs)[j] == e;
      HazardOverlaps(enabled, labels, runs, j, k);
    }
    if Overlapped(labels, runs[k]) {
      OverlapHazard(enabled, labels, runs, granularity, k);
    }
  }

  // ---------------------------------------------------------------------------
  // The independent labels, as runs
  // ---------------------------------------------------------------------------

  /** The label of the run comes out as an independent label. */
  predicate IsFree(run: seq<Label>, involved: set<nat>, lookup: Option<Lookup>)
    requires run != []
  {
    run[0].id !in involved && RouteOf(Merge(run), lookup).None?
  }

  function FreeRuns(runs: seq<seq<Label>>, involved: set<nat>, lookup: Option<Lookup>): (free: seq<seq<Label>>)
    requires NonEmptyRuns(runs)
    ensures NonEmptyRuns(free)
  {
    if runs == [] then []
    else
      var last := runs[|runs| - 1];
      FreeRuns(runs[..|runs| - 1], involved, lookup) + if IsFree(last, involved, lookup) then [last] else []
  }

  function HeldRuns(runs: seq<seq<Label>>, involved: set<nat>, lookup: Option<Lookup>): (held: seq<seq<Label>>)
    requires NonEmptyRuns(runs)
    ensures NonEmptyRuns(held)
  {
    if runs == [] then []
    else
      var last := runs[|runs| - 1];
      HeldRuns(runs[..|runs| - 1], involved, lookup) + if IsFree(last, involved, lookup) then [] else [last]
  }

  lemma FreeSnoc(init: seq<seq<Label>>, last: seq<Label>, involved: set<nat>, lookup: Option<Lookup>)
    requires NonEmptyRuns(init + [last])
    ensures NonEmptyRuns(init) && last != []
    ensures FreeRuns(init + [last], involved, lookup)
         == FreeRuns(init, involved, lookup) + if IsFree(last, involved, lookup) then [last] else []
    ensures HeldRuns(init + [last], involved, lookup)
         == HeldRuns(init, involved, lookup) + if IsFree(last, involved, lookup) then [] else [last]
  {
    var runs := init + [last];
    assert runs[..|runs| - 1] == init && runs[|runs| - 1] == last;
  }

  /** Every run is free or held. */
  lemma {:induction false} FreeAndHeld(runs: seq<seq<Label>>, involved: set<nat>, lookup: Option<Lookup>)
    requires NonEmptyRuns(runs)
    ensures multiset(FreeRuns(runs, involved, lookup) + HeldRuns(runs, involved, lookup)) == multiset(runs)
  {
    if runs != [] {
      var init, last := runs[..|runs| - 1], runs[|runs| - 1];
      FreeAndHeld(init, involved, lookup);
      assert runs == init + [last];
      FreeSnoc(init, last, involved, lookup);
      AddedOnce(FreeRuns(init, involved, lookup), HeldRuns(init, involved, lookup), last);
    }
  }

  lemma AddedOnce<T>(a: seq<T>, b: seq<T>, x: T)
    ensures multiset((a + [x]) + b) == multiset(a + b) + multiset{x}
    ensures multiset(a + (b + [x])) == multiset(a + b) + multiset{x}
    ensures a + [] == a && b + [] == b
  {
  }

  lemma {:induction false} FreeOrHeld(
      runs: seq<seq<Label>>, involved: set<nat>, lookup: Option<Lookup>, run: seq<Label>)
    requires NonEmptyRuns(runs)
    ensures run in FreeRuns(runs, involved, lookup) <==> run in runs && IsFree(run, involved, lookup)
    ensures run in HeldRuns(runs, involved, lookup) <==> run in runs && !IsFree(run, involved, lookup)
  {
    if runs != [] {
      var init, last := runs[..|runs| - 1], runs[|runs| - 1];
      FreeOrHeld(init, involved, lookup, run);
      assert runs == init + [last];
    }
  }

  lemma UnroutedSnoc(labels: seq<Label>, last: Label, lookup: Option<Lookup>)
    ensures Unrouted(labels + [last], lookup)
         == Unrouted(labels, lookup) + if RouteOf(last, lookup).Some? then [] else [last]
  {
    assert (labels + [last])[..|labels|] == labels;
  }

  lemma MergeAllSnoc(runs: seq<seq<Label>>, run: seq<Label>)
    requires NonEmptyRuns(runs) && run != []
    ensures MergeAll(runs + [run]) == MergeAll(runs) + [Merge(run)]
  {
  }

  /** What phase 2 leaves of the labels of the runs: the ids, and every
      uninvolved label as it was. */
  ghost predicate Annotates(runs: seq<seq<Label>>, annotated: seq<Label>, involved: set<nat>)
    requires NonEmptyRuns(runs)
  {
    && |annotated| == |runs|
    && forall i :: 0 <= i < |runs| ==>
      annotated[i].id == runs[i][0].id && (annotated[i].id !in involved ==> annotated[i] == Merge(runs[i]))
  }

  lemma IndependentLast(labels: seq<Label>, involved: set<nat>, lookup: Option<Lookup>)
    requires labels != []
    ensures var init, last := labels[..|labels| - 1], labels[|labels| - 1];
      Unrouted(Independent(labels, involved), lookup)
         == Unrouted(Independent(init, involved), lookup)
            + if last.id !in involved && RouteOf(last, lookup).None? then [last] else []
  {
    var init, last := labels[..|labels| - 1], labels[|labels| - 1];
    if last.id !in involved {
      UnroutedSnoc(Independent(init, involved), last, lookup);
    } else {
      assert Independent(labels, involved) == Independent(init, involved);
    }
  }

  lemma FreeLast(runs: seq<seq<Label>>, involved: set<nat>, lookup: Option<Lookup>)
    requires NonEmptyRuns(runs) && runs != []
    ensures var init, last := runs[..|runs| - 1], runs[|runs| - 1];
      MergeAll(FreeRuns(runs, involved, lookup))
         == MergeAll(FreeRuns(init, involved, lookup)) + if IsFree(last, involved, lookup) then [Merge(last)] else []
  {
    var init, last := runs[..|runs| - 1], runs[|runs| - 1];
    MergeAllSnoc(FreeRuns(init, involved, lookup), last);
  }

  lemma AnnotatesInit(runs: seq<seq<Label>>, annotated: seq<Label>, involved: set<nat>)
    requires NonEmptyRuns(runs) && runs != [] && Annotates(runs, annotated, involved)
    ensures Annotates(runs[..|runs| - 1], annotated[..|runs| - 1], involved)
  {
  }

  /** The independent labels are the labels of the free runs. */
  lemma {:induction false} IndependentRuns(
      runs: seq<seq<Label>>, annotated: seq<Label>, involved: set<nat>, lookup: Option<Lookup>)
    requires NonEmptyRuns(runs) && Annotates(runs, annotated, involved)
    ensures Unrouted(Independent(annotated, involved), lookup) == MergeAll(FreeRuns(runs, involved, lookup))
    decreases |runs|
  {
    if runs != [] {
      var n := |runs| - 1;
      AnnotatesInit(runs, annotated, involved);
      IndependentRuns(runs[..n], annotated[..n], involved, lookup);
      IndependentLast(annotated, involved, lookup);
      FreeLast(runs, involved, lookup);
    }
  }

  lemma UninvolvedUnchanged(entering: seq<Label>, annotated: seq<Label>, granularity: string, i: nat)
    requires NoDependencies(entering) && IsAnnotated(entering, annotated, granularity) && i < |entering|
    ensures annotated[i].id == entering[i].id
    ensures annotated[i].id !in Involved(annotated) ==> annotated[i] == entering[i]
  {
    assert HazardsAppended(entering, entering[i], annotated[i], granularity);
    assert entering[i] in entering;
    if annotated[i].dependencies != [] {
      InvolvedMember(annotated, annotated[i]);
    }
  }

  // ---------------------------------------------------------------------------
  // What is staged after the dispatcher
  // ---------------------------------------------------------------------------

  /** The warehouse when the dispatcher has handled the result. */
  function Dispatched(result: ShuffleResult, warehouse: Warehouse): Warehouse {
    CombineAll(result.independent, warehouse)
  }

  lemma FreeAndHeldOriginal(runs: seq<seq<Label>>, involved: set<nat>, lookup: Option<Lookup>)
    requires NonEmptyRuns(runs) && OriginalRuns(runs)
    ensures OriginalRuns(FreeRuns(runs, involved, lookup) + HeldRuns(runs, involved, lookup))
  {
    var both := FreeRuns(runs, involved, lookup) + HeldRuns(runs, involved, lookup);
    FreeAndHeld(runs, involved, lookup);
    FlattenPermuted(runs, both);
    UniqueIdsTransfer(Flatten(runs), Flatten(both));
    forall k | 0 <= k < |both|
      ensures IsRun(both[k]) && forall l :: l in both[k] ==> IsOriginal(l)
    {
      assert both[k] in multiset(both);
      assert both[k] in runs;
    }
  }

  lemma CombinedBefore(free: seq<seq<Label>>, held: seq<seq<Label>>, warehouse: Warehouse)
    requires NonEmptyRuns(free) && NonEmptyRuns(held) && OriginalRuns(free + held)
    ensures CombinedUpTo(free + held, |free|, warehouse, CombineAll(MergeAll(free), warehouse))
  {
    CombineRuns(free + held, |free|, warehouse);
    assert MergeAll(free + held)[..|free|] == MergeAll(free);
  }

  lemma FreeCombined(free: seq<seq<Label>>, held: seq<seq<Label>>, warehouse: Warehouse, run: seq<Label>)
    requires NonEmptyRuns(free) && NonEmptyRuns(held) && OriginalRuns(free + held) && run in free
    ensures RunStaged(run, warehouse, CombineAll(MergeAll(free), warehouse))
  {
    CombinedBefore(free, held, warehouse);
    var i :| 0 <= i < |free| && free[i] == run;
    assert (free + held)[i] == run;
  }

  lemma HeldKept(free: seq<seq<Label>>, held: seq<seq<Label>>, warehouse: Warehouse, run: seq<Label>)
    requires NonEmptyRuns(free) && NonEmptyRuns(held) && OriginalRuns(free + held) && run in held
    ensures forall l :: l in run ==>
      Staged(CombineAll(MergeAll(free), warehouse), l.id) == Staged(warehouse, l.id)
  {
    CombinedBefore(free, held, warehouse);
    var i :| 0 <= i < |held| && held[i] == run;
    assert (free + held)[|free| + i] == run;
  }

  /** Putting the free runs together touches no chunk of the others. */
  lemma CombinedOrKept(
      runs: seq<seq<Label>>, involved: set<nat>, lookup: Option<Lookup>, warehouse: Warehouse, k: nat)
    requires NonEmptyRuns(runs) && OriginalRuns(runs) && k < |runs|
    ensures var after := CombineAll(MergeAll(FreeRuns(runs, involved, lookup)), warehouse);
      if IsFree(runs[k], involved, lookup) then RunStaged(runs[k], warehouse, after)
      else forall l :: l in runs[k] ==> Staged(after, l.id) == Staged(warehouse, l.id)
  {
    FreeAndHeldOriginal(runs, involved, lookup);
    FreeOrHeld(runs, involved, lookup, runs[k]);
    var free, held := FreeRuns(runs, involved, lookup), HeldRuns(runs, involved, lookup);
    if IsFree(runs[k], involved, lookup) {
      FreeCombined(free, held, warehouse, runs[k]);
    } else {
      HeldKept(free, held, warehouse, runs[k]);
    }
  }

  lemma PhaseTwoAnnotates(
      enabled: bool, labels: seq<Label>, runs: seq<seq<Label>>, granularity: string, annotated: seq<Label>)
    requires OriginalBatch(labels) && IsAggregation(enabled, labels, runs) && NonEmptyRuns(runs)
    requires IsAnnotated(MergeAll(runs), annotated, granularity)
    ensures NoDependencies(MergeAll(runs)) && Annotates(runs, annotated, Involved(annotated))
  {
    EnteringWellFormed(enabled, labels, runs);
    forall i | 0 <= i < |runs|
      ensures annotated[i].id == runs[i][0].id
      ensures annotated[i].id !in Involved(annotated) ==> annotated[i] == Merge(runs[i])
    {
      UninvolvedUnchanged(MergeAll(runs), annotated, granularity, i);
    }
  }

  lemma WriteRunFree(
      enabled: bool, labels: seq<Label>, runs: seq<seq<Label>>, granularity: string, lookup: Option<Lookup>,
      annotated: seq<Label>, k: nat)
    requires OriginalBatch(labels) && granularity != PER_APPLICATION
    requires IsAggregation(enabled, labels, runs) && NonEmptyRuns(runs)
    requires IsAnnotated(MergeAll(runs), annotated, granularity)
    requires k < |runs| && runs[k][0].kind == Write
    ensures IsFree(runs[k], Involved(annotated), lookup) <==> !Overlapped(labels, runs[k])
  {
    EnteringWellFormed(enabled, labels, runs);
    PhaseTwoAnnotates(enabled, labels, runs, granularity, annotated);
    InvolvedExact(MergeAll(runs), annotated, granularity, k);
    WriteRunHazard(enabled, labels, runs, granularity, k);
    RunOfBatch(enabled, labels, runs, k);
  }

  /** The independent labels of a result are the labels of the free runs, and a
      write run is free exactly if no other label of the batch overlaps it. */
  lemma IndependentsAreFree(
      enabled: bool, labels: seq<Label>, runs: seq<seq<Label>>, granularity: string, lookup: Option<Lookup>,
      result: ShuffleResult) returns (involved: set<nat>)
    requires OriginalBatch(labels) && granularity != PER_APPLICATION
    requires ShuffledBy(enabled, granularity, labels, runs, lookup, result)
    ensures result.independent == MergeAll(FreeRuns(runs, involved, lookup))
    ensures forall k :: 0 <= k < |runs| && runs[k][0].kind == Write ==>
      (IsFree(runs[k], involved, lookup) <==> !Overlapped(labels, runs[k]))
  {
    var annotated :| IsAnnotated(MergeAll(runs), annotated, granularity)
                  && Schedules(annotated, granularity, lookup, result);
    involved := Involved(annotated);
    PhaseTwoAnnotates(enabled, labels, runs, granularity, annotated);
    IndependentRuns(runs, annotated, involved, lookup);
    forall k | 0 <= k < |runs| && runs[k][0].kind == Write
      ensures IsFree(runs[k], involved, lookup) <==> !Overlapped(labels, runs[k])
    {
      WriteRunFree(enabled, labels, runs, granularity, lookup, annotated, k);
    }
  }

  lemma FreeLabel(runs: seq<seq<Label>>, involved: set<nat>, lookup: Option<Lookup>, k: nat)
    requires NonEmptyRuns(runs) && UniqueIds(MergeAll(runs)) && k < |runs|
    ensures IsFree(runs[k], involved, lookup) <==> Merge(runs[k]) in MergeAll(FreeRuns(runs, involved, lookup))
    ensures IsFree(runs[k], involved, lookup) <==>
      exists o :: o in MergeAll(FreeRuns(runs, involved, lookup)) && o.id == runs[k][0].id
  {
    var free := FreeRuns(runs, involved, lookup);
    FreeOrHeld(runs, involved, lookup, runs[k]);
    if IsFree(runs[k], involved, lookup) {
      var i :| 0 <= i < |free| && free[i] == runs[k];
      assert MergeAll(free)[i] == Merge(runs[k]);
    }
    if o :| o in MergeAll(free) && o.id == runs[k][0].id {
      var i :| 0 <= i < |free| && Merge(free[i]) == o;
      FreeOrHeld(runs, involved, lookup, free[i]);
      var j :| 0 <= j < |runs| && runs[j] == free[i];
      assert MergeAll(runs)[j].id == MergeAll(runs)[k].id;
      assert j == k;
    }
  }

  /** The label of a write run is independent exactly if no other label of the batch
      overlaps the run; otherwise no independent label has its id. */
  lemma WriteIndependent(
      enabled: bool, labels: seq<Label>, runs: seq<seq<Label>>, granularity: string, lookup: Option<Lookup>,
      result: ShuffleResult, k: nat)
    requires OriginalBatch(labels) && granularity != PER_APPLICATION
    requires ShuffledBy(enabled, granularity, labels, runs, lookup, result)
    requires k < |runs| && runs[k][0].kind == Write
    ensures Merge(runs[k]) in result.independent <==> !Overlapped(labels, runs[k])
    ensures (exists o :: o in result.independent && o.id == runs[k][0].id) <==> !Overlapped(labels, runs[k])
  {
    var involved := IndependentsAreFree(enabled, labels, runs, granularity, lookup, result);
    MergedIdsUnique(enabled, labels, runs);
    FreeLabel(runs, involved, lookup, k);
  }

  ghost predicate MergedAreIndependent(runs: seq<seq<Label>>, result: ShuffleResult)
    requires NonEmptyRuns(runs)
  {
    forall k :: 0 <= k < |runs| && |runs[k]| > 1 ==> Merge(runs[k]) in result.independent
  }

  lemma ManyAreWrites(enabled: bool, labels: seq<Label>, runs: seq<seq<Label>>, k: nat)
    requires OriginalBatch(labels) && IsAggregation(enabled, labels, runs) && k < |runs| && |runs[k]| > 1
    ensures runs[k][0].kind == Write
  {
    RunsOfOriginals(enabled, labels, runs);
  }

  /** All merged writes are independent exactly if no label of the batch overlaps a
      run of several writes it is not part of. */
  lemma MergedIndependentExact(
      enabled: bool, labels: seq<Label>, runs: seq<seq<Label>>, granularity: string, lookup: Option<Lookup>,
      result: ShuffleResult)
    requires OriginalBatch(labels) && granularity != PER_APPLICATION
    requires ShuffledBy(enabled, granularity, labels, runs, lookup, result)
    ensures MergedAreIndependent(runs, result) <==> !MergedOverlapped(labels, runs)
  {
    forall k | 0 <= k < |runs| && |runs[k]| > 1
      ensures Merge(runs[k]) in result.independent <==> !Overlapped(labels, runs[k])
    {
      ManyAreWrites(enabled, labels, runs, k);
      WriteIndependent(enabled, labels, runs, granularity, lookup, result, k);
    }
  }

  /** After the dispatcher, the chunks of a write run are together under the id of
      its label, or, if another label of the batch overlaps the run, still apart. */
  lemma RunDelivered(
      enabled: bool, labels: seq<Label>, runs: seq<seq<Label>>, granularity: string, lookup: Option<Lookup>,
      result: ShuffleResult, warehouse: Warehouse, k: nat)
    requires OriginalBatch(labels) && granularity != PER_APPLICATION
    requires ShuffledBy(enabled, granularity, labels, runs, lookup, result)
    requires k < |runs| && runs[k][0].kind == Write
    ensures
      if Overlapped(labels, runs[k]) then
        forall l :: l in runs[k] ==> Staged(Dispatched(result, warehouse), l.id) == Staged(warehouse, l.id)
      else RunStaged(runs[k], warehouse, Dispatched(result, warehouse))
  {
    var involved := IndependentsAreFree(enabled, labels, runs, granularity, lookup, result);
    RunsOfOriginals(enabled, labels, runs);
    CombinedOrKept(runs, involved, lookup, warehouse, k);
  }

  // ---------------------------------------------------------------------------
  // The condition, read off the batch
  // ---------------------------------------------------------------------------

  predicate Touching(w: Label, v: Label) {
    w.kind == Write && v.kind == Write && w.fileKey == v.fileKey && EndOf(w) == Start(v)
  }

  predicate ReadOverlaps(r: Label, w: Label) {
    r.kind == Read && Overlaps(r, w)
  }

  /** A read overlaps one of two writes of which the second begins where the first ends. */
  ghost predicate ReadOverTouching(labels: seq<Label>) {
    exists r, w, v ::
      r in labels && w in labels && v in labels && Touching(w, v) && (ReadOverlaps(r, w) || ReadOverlaps(r, v))
  }

  lemma SameByteSameWrite(labels: seq<Label>, a: Label, b: Label, p: nat)
    requires OriginalBatch(labels) && DisjointWrites(labels) && a in labels && b in labels
    requires a.kind == Write && b.kind == Write && a.fileKey == b.fileKey && Touches(a, p) && Touches(b, p)
    ensures a == b
  {
    if a.id == b.id {
      SameId(labels, a, b);
    } else {
      PiecesApart(labels, a, b, p);
      assert false;
    }
  }

  lemma EndTouches(l: Label)
    requires IsOriginal(l) && l.kind == Write
    ensures Touches(l, Start(l)) && EndOf(l) > 0 && Touches(l, EndOf(l) - 1)
  {
  }

  lemma NextIs(labels: seq<Label>, run: seq<Label>, i: nat, v: Label)
    requires OriginalBatch(labels) && DisjointWrites(labels) && OriginalWrites(run)
    requires v in labels && (forall l :: l in run ==> l in labels)
    requires i + 1 < |run| && Touching(run[i], v)
    ensures run[i + 1] == v
  {
    var next := run[i + 1];
    assert next in run && run[i] in run;
    EndTouches(next);
    EndTouches(v);
    OneFile(run, next);
    OneFile(run, run[i]);
    SameByteSameWrite(labels, next, v, Start(v));
  }

  lemma PreviousIs(labels: seq<Label>, run: seq<Label>, j: nat, w: Label)
    requires OriginalBatch(labels) && DisjointWrites(labels) && OriginalWrites(run)
    requires w in labels && (forall l :: l in run ==> l in labels)
    requires 0 < j < |run| && Touching(w, run[j])
    ensures run[j - 1] == w
  {
    var previous := run[j - 1];
    assert previous in run && run[j] in run;
    EndTouches(previous);
    EndTouches(w);
    OneFile(run, previous);
    OneFile(run, run[j]);
    SameByteSameWrite(labels, previous, w, EndOf(w) - 1);
  }

  lemma RunIndex(enabled: bool, labels: seq<Label>, runs: seq<seq<Label>>, l: Label) returns (x: nat, i: nat)
    requires OriginalBatch(labels) && IsAggregation(enabled, labels, runs) && l in labels && l.kind == Write
    ensures x < |runs| && i < |runs[x]| && runs[x][i] == l
    ensures OriginalWrites(runs[x]) && forall m :: m in runs[x] ==> m in labels
  {
    x := IndexOfRun(enabled, labels, runs, l);
    RunOfBatch(enabled, labels, runs, x);
    i :| 0 <= i < |runs[x]| && runs[x][i] == l;
  }

  /** Touching writes of a batch with disjoint writes end up in one run. */
  lemma TouchingTogether(labels: seq<Label>, runs: seq<seq<Label>>, w: Label, v: Label) returns (x: nat)
    requires OriginalBatch(labels) && DisjointWrites(labels) && IsAggregation(true, labels, runs)
    requires w in labels && v in labels && Touching(w, v)
    ensures x < |runs| && OriginalWrites(runs[x]) && w in runs[x] && v in runs[x]
  {
    var i, y, j;
    x, i := RunIndex(true, labels, runs, w);
    y, j := RunIndex(true, labels, runs, v);
    if i + 1 < |runs[x]| {
      NextIs(labels, runs[x], i, v);
    } else if j > 0 {
      PreviousIs(labels, runs[y], j, w);
      x := y;
    } else {
      RunsNotAdjacent(labels, runs, x, y);
      assert false;
    }
  }

  lemma RunsNotAdjacent(labels: seq<Label>, runs: seq<seq<Label>>, x: nat, y: nat)
    requires OriginalBatch(labels) && DisjointWrites(labels) && IsAggregation(true, labels, runs)
    requires x < |runs| && y < |runs| && OriginalWrites(runs[x]) && OriginalWrites(runs[y])
    ensures !Touching(runs[x][|runs[x]| - 1], runs[y][0])
  {
    EnteringWellFormed(true, labels, runs);
    RunSpan(runs[x]);
    RunSpan(runs[y]);
    RunOfBatch(true, labels, runs, x);
    RunOfBatch(true, labels, runs, y);
    assert runs[x][|runs[x]| - 1] in runs[x];
    OneFile(runs[x], runs[x][|runs[x]| - 1]);
    assert MergeAll(runs)[x] == Merge(runs[x]) && MergeAll(runs)[y] == Merge(runs[y]);
    if Touching(runs[x][|runs[x]| - 1], runs[y][0]) {
      NotAdjacent(labels, runs, Merge(runs[x]), Merge(runs[y]));
    }
  }

  lemma NotBothAlone(run: seq<Label>, w: Label, v: Label)
    requires OriginalWrites(run) && w in run && v in run && Touching(w, v)
    ensures |run| > 1
  {
    EndTouches(w);
  }

  lemma NeighbourTouches(run: seq<Label>, i: nat) returns (w: Label, v: Label)
    requires OriginalWrites(run) && |run| > 1 && i < |run|
    ensures w in run && v in run && Touching(w, v) && (w == run[i] || v == run[i])
  {
    if i + 1 < |run| {
      w, v := run[i], run[i + 1];
    } else {
      w, v := run[i - 1], run[i];
    }
    assert w in run && v in run;
  }

  /** With disjoint writes only a read can overlap a run from outside. */
  lemma OverlapIsRead(labels: seq<Label>, run: seq<Label>, l: Label) returns (i: nat)
    requires OriginalBatch(labels) && DisjointWrites(labels)
    requires OriginalWrites(run) && (forall m :: m in run ==> m in labels)
    requires l in labels && l !in run && Overlaps(l, Merge(run))
    ensures i < |run| && ReadOverlaps(l, run[i])
  {
    var m := PieceOverlaps(run, l);
    i :| 0 <= i < |run| && run[i] == m;
    if l.kind == Write {
      if l.id == m.id {
        SameId(labels, l, m);
      }
      assert false;
    }
  }

  /** A read of the batch overlaps a run of more than one write. */
  ghost predicate ReadOverMerged(labels: seq<Label>, runs: seq<seq<Label>>)
    requires NonEmptyRuns(runs)
  {
    exists k, r :: 0 <= k < |runs| && |runs[k]| > 1 && r in labels && ReadOverlaps(r, Merge(runs[k]))
  }

  lemma ReadIsOutside(run: seq<Label>, r: Label)
    requires OriginalWrites(run) && r.kind == Read
    ensures r !in run
  {
  }

  /** With disjoint writes, a merged run is overlapped from outside exactly if a
      read overlaps it. */
  lemma OverlappedByReads(enabled: bool, labels: seq<Label>, runs: seq<seq<Label>>)
    requires OriginalBatch(labels) && DisjointWrites(labels)
    requires IsAggregation(enabled, labels, runs) && NonEmptyRuns(runs)
    ensures MergedOverlapped(labels, runs) <==> ReadOverMerged(labels, runs)
  {
    if MergedOverlapped(labels, runs) {
      var k :| 0 <= k < |runs| && |runs[k]| > 1 && Overlapped(labels, runs[k]);
      MergedRun(enabled, labels, runs, k);
      var l :| l in labels && l !in runs[k] && Overlaps(l, Merge(runs[k]));
      var i := OverlapIsRead(labels, runs[k], l);
    }
    if ReadOverMerged(labels, runs) {
      var k, r :| 0 <= k < |runs| && |runs[k]| > 1 && r in labels && ReadOverlaps(r, Merge(runs[k]));
      MergedRun(enabled, labels, runs, k);
      ReadIsOutside(runs[k], r);
    }
  }

  /** With disjoint writes, all merged writes are independent exactly if no read of
      the batch overlaps a run of more than one write. */
  lemma MergedIndependentReads(
      enabled: bool, labels: seq<Label>, runs: seq<seq<Label>>, granularity: string, lookup: Option<Lookup>,
      result: ShuffleResult)
    requires OriginalBatch(labels) && DisjointWrites(labels) && granularity != PER_APPLICATION
    requires ShuffledBy(enabled, granularity, labels, runs, lookup, result)
    ensures MergedAreIndependent(runs, result) <==> !ReadOverMerged(labels, runs)
  {
    MergedIndependentExact(enabled, labels, runs, granularity, lookup, result);
    OverlappedByReads(enabled, labels, runs);
  }

  lemma MergedRun(enabled: bool, labels: seq<Label>, runs: seq<seq<Label>>, k: nat)
    requires OriginalBatch(labels) && IsAggregation(enabled, labels, runs) && k < |runs| && |runs[k]| > 1
    ensures OriginalWrites(runs[k]) && forall l :: l in runs[k] ==> l in labels
  {
    ManyAreWrites(enabled, labels, runs, k);
    RunOfBatch(enabled, labels, runs, k);
  }

  lemma ReadTouches(labels: seq<Label>, run: seq<Label>)
    requires OriginalBatch(labels) && DisjointWrites(labels)
    requires OriginalWrites(run) && |run| > 1 && (forall l :: l in run ==> l in labels) && Overlapped(labels, run)
    ensures ReadOverTouching(labels)
  {
    var r :| r in labels && r !in run && Overlaps(r, Merge(run));
    var i := OverlapIsRead(labels, run, r);
    var w, v := NeighbourTouches(run, i);
    assert w in labels && v in labels;
    assert ReadOverlaps(r, w) || ReadOverlaps(r, v);
  }

  lemma ReadPieceOverlaps(labels: seq<Label>, run: seq<Label>, r: Label, piece: Label)
    requires OriginalWrites(run) && piece in run && r in labels && IsOriginal(r) && ReadOverlaps(r, piece)
    ensures Overlapped(labels, run)
  {
    ReadIsOutside(run, r);
    OverlapsWhole(run, r, piece);
  }

  lemma MergedUnderTouching(labels: seq<Label>, runs: seq<seq<Label>>)
    requires OriginalBatch(labels) && DisjointWrites(labels) && IsAggregation(true, labels, runs)
    requires NonEmptyRuns(runs) && MergedOverlapped(labels, runs)
    ensures ReadOverTouching(labels)
  {
    var k :| 0 <= k < |runs| && |runs[k]| > 1 && Overlapped(labels, runs[k]);
    MergedRun(true, labels, runs, k);
    ReadTouches(labels, runs[k]);
  }

  lemma TouchingUnderMerged(labels: seq<Label>, runs: seq<seq<Label>>)
    requires OriginalBatch(labels) && DisjointWrites(labels) && ReadOverTouching(labels)
    requires IsAggregation(true, labels, runs) && NonEmptyRuns(runs)
    ensures MergedOverlapped(labels, runs)
  {
    var r, w, v :|
      r in labels && w in labels && v in labels && Touching(w, v) && (ReadOverlaps(r, w) || ReadOverlaps(r, v));
    var x := TouchingTogether(labels, runs, w, v);
    var piece := if ReadOverlaps(r, w) then w else v;
    NotBothAlone(runs[x], w, v);
    ReadPieceOverlaps(labels, runs[x], r, piece);
  }

  /** With aggregation on and disjoint writes, a merged run is overlapped exactly if
      a read overlaps one of two touching writes: a condition on the batch alone. */
  lemma MergedOverlappedExact(labels: seq<Label>, runs: seq<seq<Label>>)
    requires OriginalBatch(labels) && DisjointWrites(labels)
    requires IsAggregation(true, labels, runs) && NonEmptyRuns(runs)
    ensures MergedOverlapped(labels, runs) <==> ReadOverTouching(labels)
  {
    if MergedOverlapped(labels, runs) {
      MergedUnderTouching(labels, runs);
    }
    if ReadOverTouching(labels) {
      TouchingUnderMerged(labels, runs);
    }
  }

  lemma NothingMerged(labels: seq<Label>, runs: seq<seq<Label>>)
    requires IsAggregation(false, labels, runs) && NonEmptyRuns(runs)
    ensures !MergedOverlapped(labels, runs)
  {
  }
}
