/** Phase 2 of the shuffler, one group of labels at a time. */
module Hazards {
  import opened Basics
  import opened Labels
  import opened Schedule
  import opened Sorting

  predicate InRange(indices: seq<nat>, n: nat) {
    forall a :: 0 <= a < |indices| ==> indices[a] < n
  }

  /** `groups` lists every index of `labels` once, under its key. */
  ghost predicate IndexGroups(labels: seq<Label>, granularity: string, groups: map<string, seq<nat>>) {
    && (forall key :: key in groups ==> InRange(groups[key], |labels|) && Distinct(groups[key]))
    && (forall key, x :: key in groups && x in groups[key] ==> GroupKey(labels[x], granularity) == key)
    && (forall x :: 0 <= x < |labels| ==>
          var key := GroupKey(labels[x], granularity); key in groups && x in groups[key])
  }

  ghost predicate StrictlyById(labels: seq<Label>, indices: seq<nat>)
    requires InRange(indices, |labels|)
  {
    forall a, b :: 0 <= a < b < |indices| ==> labels[indices[a]].id < labels[indices[b]].id
  }

  function IdAt(labels: seq<Label>, x: nat): nat {
    if x < |labels| then labels[x].id else 0
  }

  method SortIndices(labels: seq<Label>, indices: seq<nat>) returns (sorted: seq<nat>)
    requires UniqueIds(labels) && InRange(indices, |labels|) && Distinct(indices)
    ensures multiset(sorted) == multiset(indices)
    ensures InRange(sorted, |labels|) && StrictlyById(labels, sorted)
  {
    var leq := (x: nat, y: nat) => IdAt(labels, x) <= IdAt(labels, y);
    sorted := SortBy(indices, leq);
    DistinctTransfer(indices, sorted);
    forall a | 0 <= a < |sorted|
      ensures sorted[a] < |labels|
    {
      assert sorted[a] in multiset(indices);
    }
    forall a, b | 0 <= a < b < |sorted|
      ensures labels[sorted[a]].id < labels[sorted[b]].id
    {
      assert leq(sorted[a], sorted[b]) && sorted[a] != sorted[b];
    }
  }

  /** The hazards that `later` has with the first `n` labels of a sorted group. */
  function HazardsBefore(labels: seq<Label>, indices: seq<nat>, n: nat, later: Label): seq<Dependency>
    requires n <= |indices| && InRange(indices, |labels|)
  {
    if n == 0 then []
    else
      var earlier := labels[indices[n - 1]];
      HazardsBefore(labels, indices, n - 1, later)
      + if Clash(earlier, later) then [Dependency(earlier.id, HazardOf(earlier, later))] else []
  }

  predicate ClashesAs(earlier: Label, later: Label, d: Dependency) {
    Clash(earlier, later) && d == Dependency(earlier.id, HazardOf(earlier, later))
  }

  ghost predicate Below(deps: seq<Dependency>, id: nat) {
    forall a :: 0 <= a < |deps| ==> deps[a].labelId < id
  }

  lemma {:induction false} HazardsBeforeAscending(labels: seq<Label>, indices: seq<nat>, n: nat, later: Label)
    requires n <= |indices| && InRange(indices, |labels|) && StrictlyById(labels, indices)
    ensures AscendingDeps(HazardsBefore(labels, indices, n, later))
    ensures n < |indices| ==> Below(HazardsBefore(labels, indices, n, later), labels[indices[n]].id)
  {
    if n > 0 {
      HazardsBeforeAscending(labels, indices, n - 1, later);
      assert n < |indices| ==> labels[indices[n - 1]].id < labels[indices[n]].id;
    }
  }

  lemma {:induction false} HazardsBeforeMembers(
      labels: seq<Label>, indices: seq<nat>, n: nat, later: Label, d: Dependency)
    requires n <= |indices| && InRange(indices, |labels|)
    ensures d in HazardsBefore(labels, indices, n, later) <==>
      exists m :: 0 <= m < n && ClashesAs(labels[indices[m]], later, d)
  {
    if n > 0 {
      HazardsBeforeMembers(labels, indices, n - 1, later, d);
    }
  }

  lemma ClashIsHazard(labels: seq<Label>, granularity: string, key: string, indices: seq<nat>, m: nat, a: nat)
    requires InRange(indices, |labels|) && StrictlyById(labels, indices) && m < a < |indices|
    requires forall x :: 0 <= x < |labels| ==> (GroupKey(labels[x], granularity) == key <==> x in indices)
    requires Clash(labels[indices[m]], labels[indices[a]])
    ensures labels[indices[m]] in labels && Hazardous(labels[indices[m]], labels[indices[a]], granularity)
  {
    assert indices[a] in indices && indices[m] in indices;
  }

  lemma HazardIsClash(
      labels: seq<Label>, granularity: string, key: string, indices: seq<nat>, a: nat, e: Label)
    returns (m: nat)
    requires InRange(indices, |labels|) && StrictlyById(labels, indices) && a < |indices|
    requires forall x :: 0 <= x < |labels| ==> (GroupKey(labels[x], granularity) == key <==> x in indices)
    requires e in labels && Hazardous(e, labels[indices[a]], granularity)
    ensures m < a && labels[indices[m]] == e
  {
    assert indices[a] in indices;
    var x :| 0 <= x < |labels| && labels[x] == e;
    m :| m < |indices| && indices[m] == x;
  }

  lemma GroupHazards(labels: seq<Label>, granularity: string, key: string, indices: seq<nat>, a: nat)
    requires InRange(indices, |labels|) && StrictlyById(labels, indices) && a < |indices|
    requires forall x :: 0 <= x < |labels| ==> (GroupKey(labels[x], granularity) == key <==> x in indices)
    ensures ExactHazards(labels, labels[indices[a]], granularity,
                         HazardsBefore(labels, indices, a, labels[indices[a]]))
  {
    var later := labels[indices[a]];
    HazardsBeforeAscending(labels, indices, a, later);
    forall d: Dependency
      ensures d in HazardsBefore(labels, indices, a, later) <==>
        exists e :: e in labels && Hazardous(e, later, granularity) && d == Dependency(e.id, HazardOf(e, later))
    {
      HazardsBeforeMembers(labels, indices, a, later, d);
      if m :| 0 <= m < a && ClashesAs(labels[indices[m]], later, d) {
        ClashIsHazard(labels, granularity, key, indices, m, a);
      }
      if e :| e in labels && Hazardous(e, later, granularity) && d == Dependency(e.id, HazardOf(e, later)) {
        var m := HazardIsClash(labels, granularity, key, indices, a, e);
        assert ClashesAs(labels[indices[m]], later, d);
      }
    }
  }

  /** Member `k` of the group once its hazards with the first `n` members are recorded. */
  function Recorded(before: seq<Label>, indices: seq<nat>, k: nat, n: nat): Label
    requires InRange(indices, |before|) && k < |indices| && n <= |indices|
  {
    var l := before[indices[k]];
    l.(dependencies := l.dependencies + HazardsBefore(before, indices, n, l))
  }

  /** With how many members the `k`-th one has been compared, when the members
      before `ii` are done with all later ones and `ii` with those before `jj`. */
  function Compared(k: nat, ii: nat, jj: nat): nat {
    if k < ii then k else if k < jj && ii < k then ii + 1 else ii
  }

  function RecordedSoFar(before: seq<Label>, indices: seq<nat>, ii: nat, jj: nat): (group: seq<Label>)
    requires InRange(indices, |before|) && ii <= |indices|
    ensures |group| == |indices|
    ensures forall k :: 0 <= k < |indices| ==> group[k] == Recorded(before, indices, k, Compared(k, ii, jj))
  {
    seq(|indices|, k requires 0 <= k < |indices| => Recorded(before, indices, k, Compared(k, ii, jj)))
  }

  /** The labels at these indices are the given ones. */
  ghost predicate At(now: seq<Label>, indices: seq<nat>, group: seq<Label>) {
    |group| == |indices| && InRange(indices, |now|) && forall k :: 0 <= k < |indices| ==> now[indices[k]] == group[k]
  }

  ghost predicate OthersUntouched(was: seq<Label>, now: seq<Label>, indices: seq<nat>) {
    |now| == |was| && forall x :: 0 <= x < |now| && x !in indices ==> now[x] == was[x]
  }

  lemma AtUpdated(now: seq<Label>, indices: seq<nat>, group: seq<Label>, k: nat, l: Label)
    requires At(now, indices, group) && Distinct(indices) && k < |indices|
    ensures At(now[indices[k] := l], indices, group[k := l])
    ensures OthersUntouched(now, now[indices[k] := l], indices)
  {
    assert indices[k] in indices;
  }

  lemma OneMoreRecorded(before: seq<Label>, indices: seq<nat>, ii: nat, jj: nat)
    requires InRange(indices, |before|) && ii < jj < |indices|
    ensures RecordedSoFar(before, indices, ii, jj)[jj := Recorded(before, indices, jj, ii + 1)]
         == RecordedSoFar(before, indices, ii, jj + 1)
  {
    var was, now := RecordedSoFar(before, indices, ii, jj), RecordedSoFar(before, indices, ii, jj + 1);
    forall k | 0 <= k < |indices| && k != jj
      ensures was[k] == now[k]
    {
      assert Compared(k, ii, jj) == Compared(k, ii, jj + 1);
    }
  }

  /** Two ways to say how far the comparison has come. */
  lemma NextMember(before: seq<Label>, indices: seq<nat>, ii: nat)
    requires InRange(indices, |before|) && ii < |indices|
    ensures RecordedSoFar(before, indices, ii, ii) == RecordedSoFar(before, indices, ii, ii + 1)
    ensures RecordedSoFar(before, indices, ii, |indices|) == RecordedSoFar(before, indices, ii + 1, ii + 1)
  {
    assert forall k :: 0 <= k < |indices| ==> Compared(k, ii, ii) == Compared(k, ii, ii + 1);
    assert forall k :: 0 <= k < |indices| ==> Compared(k, ii, |indices|) == Compared(k, ii + 1, ii + 1);
  }

  lemma RecordNext(before: seq<Label>, indices: seq<nat>, ii: nat, jj: nat, earlier: Label, was: Label, now: Label)
    requires InRange(indices, |before|) && ii < jj < |indices|
    requires earlier == Recorded(before, indices, ii, ii) && was == Recorded(before, indices, jj, ii)
    requires now == if Clash(earlier, was)
                    then was.(dependencies := was.dependencies + [Dependency(earlier.id, HazardOf(earlier, was))])
                    else was
    ensures now == Recorded(before, indices, jj, ii + 1)
  {
    var e, l := before[indices[ii]], before[indices[jj]];
    assert Clash(e, l) == Clash(earlier, was) && HazardOf(e, l) == HazardOf(earlier, was);
    assert HazardsBefore(before, indices, ii + 1, l)
        == HazardsBefore(before, indices, ii, l) + if Clash(e, l) then [Dependency(e.id, HazardOf(e, l))] else [];
  }

  /** The `jj`-th member has been compared with the `ii`-th. */
  lemma RecordStep(before: seq<Label>, now: seq<Label>, indices: seq<nat>, ii: nat, jj: nat, later: Label)
    requires InRange(indices, |before|) && Distinct(indices) && ii < jj < |indices|
    requires At(now, indices, RecordedSoFar(before, indices, ii, jj))
    requires var e, l := now[indices[ii]], now[indices[jj]];
      later == if Clash(e, l) then l.(dependencies := l.dependencies + [Dependency(e.id, HazardOf(e, l))]) else l
    ensures OthersUntouched(now, now[indices[jj] := later], indices)
    ensures At(now[indices[jj] := later], indices, RecordedSoFar(before, indices, ii, jj + 1))
  {
    RecordNext(before, indices, ii, jj, now[indices[ii]], now[indices[jj]], later);
    AtUpdated(now, indices, RecordedSoFar(before, indices, ii, jj), jj, later);
    OneMoreRecorded(before, indices, ii, jj);
  }

  /** Compares every pair of a group sorted by id and records the hazards. */
  method AnnotateGroup(labels: array<Label>, ghost before: seq<Label>, indices: seq<nat>)
    requires labels.Length == |before| && InRange(indices, |before|) && Distinct(indices)
    requires At(labels[..], indices, RecordedSoFar(before, indices, 0, 0))
    modifies labels
    ensures OthersUntouched(old(labels[..]), labels[..], indices)
    ensures At(labels[..], indices, RecordedSoFar(before, indices, |indices|, |indices|))
  {
    for ii := 0 to |indices|
      invariant OthersUntouched(old(labels[..]), labels[..], indices)
      invariant At(labels[..], indices, RecordedSoFar(before, indices, ii, ii))
    {
      RecordAgainst(labels, before, indices, ii);
    }
  }

  /** Compares member `jj` of a group with the earlier member `ii`. */
  method RecordPair(labels: array<Label>, ghost before: seq<Label>, indices: seq<nat>, ii: nat, jj: nat)
    requires labels.Length == |before| && InRange(indices, |before|) && Distinct(indices) && ii < jj < |indices|
    requires At(labels[..], indices, RecordedSoFar(before, indices, ii, jj))
    modifies labels
    ensures OthersUntouched(old(labels[..]), labels[..], indices)
    ensures At(labels[..], indices, RecordedSoFar(before, indices, ii, jj + 1))
  {
    var earlier, later := labels[indices[ii]], labels[indices[jj]];
    if RangesOverlap(LabelRange(earlier), LabelRange(later)) && !(earlier.kind == Read && later.kind == Read) {
      var hazard := if earlier.kind == Write && later.kind == Read then RAW
                    else if earlier.kind == Write && later.kind == Write then WAW
                    else WAR;
      later := later.(dependencies := later.dependencies + [Dependency(earlier.id, hazard)]);
    }
    RecordStep(before, labels[..], indices, ii, jj, later);
    ghost var now := labels[..];
    labels[indices[jj]] := later;
    assert labels[..] == now[indices[jj] := later];
  }

  /** Compares member `ii` of a group with every later member. */
  method RecordAgainst(labels: array<Label>, ghost before: seq<Label>, indices: seq<nat>, ii: nat)
    requires labels.Length == |before| && InRange(indices, |before|) && Distinct(indices) && ii < |indices|
    requires At(labels[..], indices, RecordedSoFar(before, indices, ii, ii))
    modifies labels
    ensures OthersUntouched(old(labels[..]), labels[..], indices)
    ensures At(labels[..], indices, RecordedSoFar(before, indices, ii + 1, ii + 1))
  {
    NextMember(before, indices, ii);
    for jj := ii + 1 to |indices|
      invariant OthersUntouched(old(labels[..]), labels[..], indices)
      invariant At(labels[..], indices, RecordedSoFar(before, indices, ii, jj))
    {
      RecordPair(labels, before, indices, ii, jj);
    }
  }

  lemma NothingCompared(before: seq<Label>, now: seq<Label>, indices: seq<nat>)
    requires |now| == |before| && InRange(indices, |before|)
    requires forall a :: 0 <= a < |indices| ==> now[indices[a]] == before[indices[a]]
    ensures At(now, indices, RecordedSoFar(before, indices, 0, 0))
  {
    forall k | 0 <= k < |indices|
      ensures now[indices[k]] == Recorded(before, indices, k, 0)
    {
      var l := before[indices[k]];
      assert l.dependencies + [] == l.dependencies;
    }
  }

  /** Once its hazards are recorded, every member of a group is annotated. */
  lemma GroupAnnotated(before: seq<Label>, now: seq<Label>, granularity: string, key: string, indices: seq<nat>, x: nat)
    requires |now| == |before| && InRange(indices, |before|) && StrictlyById(before, indices)
    requires forall y :: 0 <= y < |before| ==> (GroupKey(before[y], granularity) == key <==> y in indices)
    requires At(now, indices, RecordedSoFar(before, indices, |indices|, |indices|))
    requires x < |before| && GroupKey(before[x], granularity) == key
    ensures HazardsAppended(before, before[x], now[x], granularity)
  {
    var a :| 0 <= a < |indices| && indices[a] == x;
    assert now[indices[a]] == Recorded(before, indices, a, a);
    GroupHazards(before, granularity, key, indices, a);
    var deps, hazards := before[x].dependencies, HazardsBefore(before, indices, a, before[x]);
    assert (deps + hazards)[|deps|..] == hazards;
  }

  lemma GroupMembers(
      labels: seq<Label>, granularity: string, groups: map<string, seq<nat>>, key: string, indices: seq<nat>)
    requires IndexGroups(labels, granularity, groups) && key in groups
    requires multiset(indices) == multiset(groups[key])
    ensures forall x: nat :: x in indices <==> x in groups[key]
    ensures forall y :: 0 <= y < |labels| ==> (GroupKey(labels[y], granularity) == key <==> y in indices)
  {
    forall x: nat
      ensures x in indices <==> x in groups[key]
    {
      assert x in multiset(indices) <==> x in multiset(groups[key]);
    }
  }

  /** Lists the indices of each group. */
  method GroupIndices(labels: seq<Label>, granularity: string) returns (groups: map<string, seq<nat>>)
    ensures IndexGroups(labels, granularity, groups)
  {
    groups := map[];
    for i := 0 to |labels|
      invariant IndexGroups(labels[..i], granularity, groups)
    {
      var key := GroupKey(labels[i], granularity);
      var group := if key in groups then groups[key] else [];
      groups := groups[key := group + [i]];
    }
    assert labels[..|labels|] == labels;
  }
}
