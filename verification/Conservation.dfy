/** What the shuffler keeps: every label, which reply addresses it records, and who
    then gets a completion. */
module Conservation {
  import opened Basics
  import opened Labels
  import opened Aggregate
  import opened Schedule
  import opened Serializability
  import opened AggregationMeaning
  import opened Dispatcher
  import opened Shuffler
  import opened Delivery

  /** The ids of the original labels that a label of the result stands for. */
  function CarriedIds(l: Label): seq<nat> {
    if l.aggregation.originalIds == [] then [l.id] else l.aggregation.originalIds
  }

  function CarriedByAll(labels: seq<Label>): (carried: seq<seq<nat>>)
    ensures |carried| == |labels|
    ensures forall i :: 0 <= i < |labels| ==> carried[i] == CarriedIds(labels[i])
  {
    seq(|labels|, i requires 0 <= i < |labels| => CarriedIds(labels[i]))
  }

  /** All labels of the result: supertask children, independents, direct routes. */
  function AllLabels(result: ShuffleResult): seq<Label> {
    Flatten(ChildrenOf(result.supertasks)) + (result.independent + FirstOf(result.directRoute))
  }

  lemma CarriedPermuted(a: seq<Label>, b: seq<Label>)
    requires multiset(BareAll(a)) == multiset(BareAll(b))
    ensures multiset(Flatten(CarriedByAll(a))) == multiset(Flatten(CarriedByAll(b)))
  {
    var f := (l: Label) => CarriedIds(l);
    MapPermuted(f, BareAll(a), BareAll(b));
    assert MapSeq(f, BareAll(a)) == CarriedByAll(a);
    assert MapSeq(f, BareAll(b)) == CarriedByAll(b);
    FlattenPermuted(CarriedByAll(a), CarriedByAll(b));
  }

  /** A run's label carries exactly the ids of the run. */
  lemma {:induction false} RunsCarry(runs: seq<seq<Label>>)
    requires NonEmptyRuns(runs) && OriginalRuns(runs)
    ensures Flatten(CarriedByAll(MergeAll(runs))) == Ids(Flatten(runs))
    decreases |runs|
  {
    if runs != [] {
      var run, rest := runs[0], runs[1..];
      RestOriginal(runs);
      RunsCarry(rest);
      assert run[0] in run;
      assert CarriedIds(Merge(run)) == Ids(run);
      assert CarriedByAll(MergeAll(runs))[1..] == CarriedByAll(MergeAll(rest));
      assert Ids(Flatten(runs)) == Ids(run) + Ids(Flatten(rest));
    }
  }

  lemma RestOriginal(runs: seq<seq<Label>>)
    requires runs != [] && OriginalRuns(runs)
    ensures OriginalRuns(runs[1..])
  {
    assert Flatten(runs[1..]) == Flatten(runs)[|runs[0]|..];
  }

  /** Conservation: across direct routes, independents and supertask children,
      every input id appears exactly once, a merged label standing for its
      original ids. */
  lemma ShuffleConserves(
      enabled: bool, batch: seq<Label>, runs: seq<seq<Label>>, granularity: string, lookup: Option<Lookup>,
      result: ShuffleResult)
    requires OriginalBatch(batch) && IsAggregation(enabled, batch, runs) && NonEmptyRuns(runs)
    requires IsSchedule(MergeAll(runs), granularity, lookup, result)
    ensures multiset(Flatten(CarriedByAll(AllLabels(result)))) == multiset(Ids(batch))
    ensures Distinct(Flatten(CarriedByAll(AllLabels(result))))
  {
    ScheduleComplete(MergeAll(runs), granularity, lookup, result);
    ActivitiesFlattened(result);
    CarriedPermuted(AllLabels(result), MergeAll(runs));
    RunsOfOriginals(enabled, batch, runs);
    RunsCarry(runs);
    RunsConserved(enabled, batch, runs);
    IdsPermuted(Flatten(runs), batch);
    assert Distinct(Ids(batch));
    DistinctTransfer(Ids(batch), Flatten(CarriedByAll(AllLabels(result))));
  }

  lemma IdsPermuted(a: seq<Label>, b: seq<Label>)
    requires multiset(a) == multiset(b)
    ensures multiset(Ids(a)) == multiset(Ids(b))
  {
    var f := (l: Label) => l.id;
    MapPermuted(f, a, b);
    assert Ids(a) == MapSeq(f, a) && Ids(b) == MapSeq(f, b);
  }

  // ---------------------------------------------------------------------------
  // Reply addresses
  // ---------------------------------------------------------------------------

  /** The addresses the shuffler records for a label of the result: its own and
      those in its entry of the fanout table. */
  function Addresses(l: Label, fanout: map<nat, seq<string>>): set<string> {
    {l.replyTo} + if l.id in fanout then (set address | address in fanout[l.id]) else {}
  }

  /** The one case in which phase 1 drops an address: the first label of the
      merged run has none and exactly one other label has one. */
  predicate DropsReply(run: seq<Label>)
    requires run != []
  {
    |run| > 1 && run[0].replyTo == "" && |Replies(run)| == 1
  }

  lemma {:induction false} RepliesMember(run: seq<Label>, address: string)
    ensures address in Replies(run) <==> address != "" && exists l :: l in run && l.replyTo == address
  {
    if run != [] {
      var init, last := run[..|run| - 1], run[|run| - 1];
      assert run == init + [last];
      RepliesMember(init, address);
      if l :| l in run && l.replyTo == address && address != "" {
        assert l in init || l == last;
      }
      if address in Replies(run) {
        if address in Replies(init) {
          var l :| l in init && l.replyTo == address;
          assert l in run;
        } else {
          assert last in run && last.replyTo == address;
        }
      }
    }
  }

  lemma FanoutSnoc(runs: seq<seq<Label>>)
    requires NonEmptyRuns(runs) && runs != []
    ensures var fanout, run := FanoutOf(runs[..|runs| - 1]), runs[|runs| - 1];
      FanoutOf(runs) == if |run| > 1 && |Replies(run)| > 1 then fanout[run[0].id := Replies(run)] else fanout
  {
  }

  lemma LastIsNew(runs: seq<seq<Label>>)
    requires NonEmptyRuns(runs) && UniqueIds(MergeAll(runs)) && runs != []
    ensures forall j :: 0 <= j < |runs| - 1 ==> runs[j][0].id != runs[|runs| - 1][0].id
  {
    forall j | 0 <= j < |runs| - 1
      ensures runs[j][0].id != runs[|runs| - 1][0].id
    {
      assert MergeAll(runs)[j].id != MergeAll(runs)[|runs| - 1].id;
    }
  }

  /** The fanout table holds the replies of a merged run exactly if there are several. */
  lemma {:induction false} FanoutEntry(runs: seq<seq<Label>>, k: nat)
    requires NonEmptyRuns(runs) && UniqueIds(MergeAll(runs)) && k < |runs|
    ensures runs[k][0].id in FanoutOf(runs) <==> |runs[k]| > 1 && |Replies(runs[k])| > 1
    ensures runs[k][0].id in FanoutOf(runs) ==> FanoutOf(runs)[runs[k][0].id] == Replies(runs[k])
  {
    var n := |runs| - 1;
    var init := runs[..n];
    FanoutSnoc(runs);
    assert MergeAll(init) == MergeAll(runs)[..n];
    if k < n {
      FanoutEntry(init, k);
      assert MergeAll(runs)[k].id != MergeAll(runs)[n].id;
    } else {
      LastIsNew(runs);
      NotInFanout(init, runs[n][0].id);
    }
  }

  lemma {:induction false} NotInFanout(runs: seq<seq<Label>>, id: nat)
    requires NonEmptyRuns(runs) && forall j :: 0 <= j < |runs| ==> runs[j][0].id != id
    ensures id !in FanoutOf(runs)
  {
    if runs != [] {
      FanoutSnoc(runs);
      NotInFanout(runs[..|runs| - 1], id);
    }
  }

  /** How many labels of the run want their reply at the address. */
  function AskedAt(run: seq<Label>, address: string): nat {
    if run == [] then 0 else (if run[0].replyTo == address then 1 else 0) + AskedAt(run[1..], address)
  }

  lemma {:induction false} AskedAtSnoc(run: seq<Label>, last: Label, address: string)
    ensures AskedAt(run + [last], address) == AskedAt(run, address) + if last.replyTo == address then 1 else 0
  {
    if run != [] {
      assert (run + [last])[1..] == run[1..] + [last];
      AskedAtSnoc(run[1..], last, address);
    } else {
      assert run + [last] == [last];
    }
  }

  lemma {:induction false} RepliesCount(run: seq<Label>, address: string)
    ensures multiset(Replies(run))[address] == if address == "" then 0 else AskedAt(run, address)
  {
    if run != [] {
      var init, last := run[..|run| - 1], run[|run| - 1];
      RepliesCount(init, address);
      AskedAtSnoc(init, last, address);
      assert run == init + [last];
      CountSnoc(Replies(init), last.replyTo, address);
      assert last.replyTo == "" ==> Replies(run) == Replies(init);
    }
  }

  /** The entry of a run lists each address as often as labels of the run ask for it. */
  lemma FanoutExact(runs: seq<seq<Label>>, k: nat, address: string)
    requires NonEmptyRuns(runs) && UniqueIds(MergeAll(runs)) && k < |runs|
    requires runs[k][0].id in FanoutOf(runs)
    ensures multiset(FanoutOf(runs)[runs[k][0].id])[address]
         == if address == "" then 0 else AskedAt(runs[k], address)
  {
    FanoutEntry(runs, k);
    RepliesCount(runs[k], address);
  }

  ghost predicate RepliesRecorded(run: seq<Label>, fanout: map<nat, seq<string>>)
    requires run != []
  {
    forall l :: l in run && l.replyTo != "" ==> l.replyTo in Addresses(Merge(run), fanout)
  }

  lemma AddressesOfRun(runs: seq<seq<Label>>, k: nat, address: string)
    requires NonEmptyRuns(runs) && UniqueIds(MergeAll(runs)) && k < |runs|
    ensures address in Addresses(Merge(runs[k]), FanoutOf(runs)) <==>
      address == runs[k][0].replyTo || (|runs[k]| > 1 && |Replies(runs[k])| > 1 && address in Replies(runs[k]))
  {
    FanoutEntry(runs, k);
    assert Merge(runs[k]).id == runs[k][0].id && Merge(runs[k]).replyTo == runs[k][0].replyTo;
  }

  /** Whose addresses a run of several labels with at most one address between
      them can have. */
  lemma OneReply(run: seq<Label>)
    requires |run| > 1 && |Replies(run)| <= 1
    ensures (forall l :: l in run && l.replyTo != "" ==> l.replyTo == run[0].replyTo) <==> !DropsReply(run)
  {
    assert run[0] in run;
    RepliesMember(run, run[0].replyTo);
    forall l | l in run && l.replyTo != ""
      ensures |Replies(run)| == 1 && l.replyTo == Replies(run)[0]
    {
      RepliesMember(run, l.replyTo);
    }
    if |Replies(run)| == 1 {
      assert Replies(run)[0] in Replies(run);
      RepliesMember(run, Replies(run)[0]);
    }
  }

  lemma ReplyReached(runs: seq<seq<Label>>, k: nat, l: Label)
    requires NonEmptyRuns(runs) && UniqueIds(MergeAll(runs)) && k < |runs|
    requires l in runs[k] && l.replyTo != ""
    ensures l.replyTo in Addresses(Merge(runs[k]), FanoutOf(runs)) <==>
      l.replyTo == runs[k][0].replyTo || |Replies(runs[k])| > 1
  {
    AddressesOfRun(runs, k, l.replyTo);
    RepliesMember(runs[k], l.replyTo);
    if |runs[k]| == 1 {
      assert l == runs[k][0];
    }
  }

  lemma ManyReplies(runs: seq<seq<Label>>, k: nat)
    requires NonEmptyRuns(runs) && UniqueIds(MergeAll(runs)) && k < |runs|
    requires |runs[k]| == 1 || |Replies(runs[k])| > 1
    ensures RepliesRecorded(runs[k], FanoutOf(runs))
  {
    forall l | l in runs[k] && l.replyTo != ""
      ensures l.replyTo in Addresses(Merge(runs[k]), FanoutOf(runs))
    {
      ReplyReached(runs, k, l);
    }
  }

  lemma FewReplies(runs: seq<seq<Label>>, k: nat)
    requires NonEmptyRuns(runs) && UniqueIds(MergeAll(runs)) && k < |runs|
    requires |Replies(runs[k])| <= 1
    ensures RepliesRecorded(runs[k], FanoutOf(runs)) <==>
      forall l :: l in runs[k] && l.replyTo != "" ==> l.replyTo == runs[k][0].replyTo
  {
    forall l | l in runs[k] && l.replyTo != ""
      ensures l.replyTo in Addresses(Merge(runs[k]), FanoutOf(runs)) <==> l.replyTo == runs[k][0].replyTo
    {
      ReplyReached(runs, k, l);
    }
  }

  /** Every address of a run is recorded, unless `DropsReply`. */
  lemma RunReplies(runs: seq<seq<Label>>, k: nat)
    requires NonEmptyRuns(runs) && UniqueIds(MergeAll(runs)) && k < |runs|
    ensures RepliesRecorded(runs[k], FanoutOf(runs)) <==> !DropsReply(runs[k])
  {
    if |runs[k]| == 1 || |Replies(runs[k])| > 1 {
      ManyReplies(runs, k);
    } else {
      FewReplies(runs, k);
      OneReply(runs[k]);
    }
  }

  /** Some label of the result stands for the id and the address is recorded for it. */
  ghost predicate Recorded(result: ShuffleResult, id: nat, address: string) {
    exists o :: o in AllLabels(result) && id in CarriedIds(o) && address in Addresses(o, result.replyFanout)
  }

  lemma ResultHolds(entering: seq<Label>, granularity: string, lookup: Option<Lookup>, result: ShuffleResult, e: Label)
    returns (o: Label)
    requires IsSchedule(entering, granularity, lookup, result) && e in entering
    ensures o in AllLabels(result) && Bare(o) == Bare(e)
  {
    ScheduleComplete(entering, granularity, lookup, result);
    ActivitiesFlattened(result);
    var i :| 0 <= i < |entering| && entering[i] == e;
    assert BareAll(entering)[i] in multiset(BareAll(AllLabels(result)));
    var j :| 0 <= j < |AllLabels(result)| && BareAll(AllLabels(result))[j] == BareAll(entering)[i];
    o := AllLabels(result)[j];
  }

  /** When every label has a reply address, the shuffler records that address for
      the label of the result that carries it, itself or in its fanout. */
  lemma RepliesConserved(
      enabled: bool, batch: seq<Label>, runs: seq<seq<Label>>, granularity: string, lookup: Option<Lookup>,
      result: ShuffleResult, l: Label)
    requires OriginalBatch(batch) && IsAggregation(enabled, batch, runs) && NonEmptyRuns(runs)
    requires IsSchedule(MergeAll(runs), granularity, lookup, result) && result.replyFanout == FanoutOf(runs)
    requires forall b :: b in batch ==> b.replyTo != ""
    requires l in batch
    ensures Recorded(result, l.id, l.replyTo)
  {
    var k := RunHolding(enabled, batch, runs, l);
    RunReplies(runs, k);
    assert MergeAll(runs)[k] == Merge(runs[k]);
    var o := ResultHolds(MergeAll(runs), granularity, lookup, result, Merge(runs[k]));
    BareAnswers(o, Merge(runs[k]), FanoutOf(runs));
  }

  lemma BareAnswers(a: Label, b: Label, fanout: map<nat, seq<string>>)
    requires Bare(a) == Bare(b)
    ensures CarriedIds(a) == CarriedIds(b) && Addresses(a, fanout) == Addresses(b, fanout)
  {
  }

  lemma RunHolding(enabled: bool, batch: seq<Label>, runs: seq<seq<Label>>, l: Label) returns (k: nat)
    requires OriginalBatch(batch) && IsAggregation(enabled, batch, runs) && NonEmptyRuns(runs)
    requires forall b :: b in batch ==> b.replyTo != ""
    requires l in batch
    ensures UniqueIds(MergeAll(runs))
    ensures k < |runs| && l in runs[k] && l.id in CarriedIds(Merge(runs[k])) && !DropsReply(runs[k])
  {
    RunsOfOriginals(enabled, batch, runs);
    RunsConserved(enabled, batch, runs);
    MergedIdsUnique(enabled, batch, runs);
    assert l in multiset(Flatten(runs));
    FlattenMember(runs, l);
    k :| k < |runs| && l in runs[k];
    CarriedMember(runs[k], l);
    NoReplyDropped(batch, runs[k]);
  }

  lemma CarriedMember(run: seq<Label>, l: Label)
    requires IsRun(run) && l in run && forall m :: m in run ==> IsOriginal(m)
    ensures l.id in CarriedIds(Merge(run))
  {
    var i :| 0 <= i < |run| && run[i] == l;
    assert Ids(run)[i] == l.id;
    assert CarriedIds(Merge(run)) == Ids(run);
  }

  lemma NoReplyDropped(batch: seq<Label>, run: seq<Label>)
    requires run != [] && (forall m :: m in run ==> m in batch) && forall b :: b in batch ==> b.replyTo != ""
    ensures !DropsReply(run)
  {
    assert run[0] in run;
  }

  lemma PairGroup(first: Label, second: Label, key: string)
    requires GroupKey(first, PER_FILE) == key && GroupKey(second, PER_FILE) == key
    ensures WithKey([first, second], PER_FILE, key) == [first, second]
    ensures KeyOrder([first, second], PER_FILE) == [key]
  {
    var batch := [first, second];
    assert batch[..1] == [first] && [first][..0] == [];
    assert WithKey([first], PER_FILE, key) == [first];
    assert KeyOrder([first], PER_FILE) == [key] && key in [key];
  }

  lemma PairWrites(first: Label, second: Label)
    requires first.kind == Write && second.kind == Write
    ensures WritesIn([first, second]) == [first, second] && OthersIn([first, second]) == []
  {
    assert [first, second][..1] == [first] && [first][..0] == [];
    assert WritesIn([first]) == [first] && OthersIn([first]) == [];
  }

  lemma PairSplit(first: Label, second: Label)
    requires Start(second) == EndOf(first)
    ensures SplitFrom([first, second], 0) == [[first, second]]
  {
    var batch := [first, second];
    assert RunEnd(batch, 2) == 2 && RunEnd(batch, 1) == 2;
    assert batch[0..2] == batch && SplitFrom(batch, 2) == [];
  }

  /** A batch of two adjacent writes is one run. */
  lemma TwoAdjacent(first: Label, second: Label)
    requires IsOriginal(first) && IsOriginal(second) && first.kind == Write && second.kind == Write
    requires first.fileKey == second.fileKey && Start(second) == EndOf(first)
    ensures IsAggregation(true, [first, second], [[first, second]])
  {
    var batch, key := [first, second], first.fileKey;
    var sorts := map[key := batch];
    PairGroup(first, second, key);
    PairWrites(first, second);
    PairSplit(first, second);
    OneGroup(batch, key, sorts);
    PairOrdered(first, second);
    assert IsSorting(batch, sorts);
  }

  lemma PairOrdered(first: Label, second: Label)
    requires IsOriginal(first) && Start(second) == EndOf(first) && first.kind == Write
    ensures SortedByOffset([first, second])
  {
  }

  lemma OnlySecondReplies(first: Label, second: Label)
    requires first.replyTo == "" && second.replyTo != ""
    ensures Replies([first, second]) == [second.replyTo]
  {
    assert [first, second][..1] == [first] && [first][..0] == [];
    assert Replies([first]) == [];
  }

  /** If only the second of two adjacent writes asks for a reply, aggregation
      loses that address. */
  lemma ReplyLost(first: Label, second: Label)
    requires IsOriginal(first) && IsOriginal(second) && first.kind == Write && second.kind == Write
    requires first.fileKey == second.fileKey && Start(second) == EndOf(first)
    requires first.replyTo == "" && second.replyTo != ""
    ensures IsAggregation(true, [first, second], [[first, second]])
    ensures !RepliesRecorded([first, second], FanoutOf([[first, second]]))
  {
    TwoAdjacent(first, second);
    var run := [first, second];
    OnlySecondReplies(first, second);
    assert MergeAll([run]) == [Merge(run)];
    RunReplies([run], 0);
  }

  // ---------------------------------------------------------------------------
  // Who gets a completion
  // ---------------------------------------------------------------------------

  /** Where the completion of a run's label goes: the dispatcher reads the fanout
      table only for the merged labels among the independents; every other label
      answers to its own address. */
  function SentTo(l: Label, result: ShuffleResult): set<string> {
    if l in result.independent && IsAggregated(l) && l.id in result.replyFanout
    then set address | address in result.replyFanout[l.id]
    else {l.replyTo}
  }

  ghost predicate RepliesSent(run: seq<Label>, result: ShuffleResult)
    requires run != []
  {
    forall l :: l in run && l.replyTo != "" ==> l.replyTo in SentTo(Merge(run), result)
  }

  /** All labels that want a reply want it at the first label's address. */
  ghost predicate OneAddress(run: seq<Label>)
    requires run != []
  {
    forall l :: l in run && l.replyTo != "" ==> l.replyTo == run[0].replyTo
  }

  lemma FanoutSends(runs: seq<seq<Label>>, result: ShuffleResult, k: nat)
    requires NonEmptyRuns(runs) && UniqueIds(MergeAll(runs)) && k < |runs|
    requires result.replyFanout == FanoutOf(runs) && Merge(runs[k]) in result.independent && |runs[k]| > 1
    ensures RepliesSent(runs[k], result) <==> RepliesRecorded(runs[k], FanoutOf(runs))
  {
    var run := runs[k];
    FanoutEntry(runs, k);
    assert Ids(run) != [] && IsAggregated(Merge(run));
    forall l | l in run && l.replyTo != ""
      ensures l.replyTo in SentTo(Merge(run), result) <==> l.replyTo in Addresses(Merge(run), FanoutOf(runs))
    {
      RepliesMember(run, l.replyTo);
    }
  }

  lemma AloneSends(run: seq<Label>, result: ShuffleResult)
    requires |run| == 1 && run[0].children == []
    ensures RepliesSent(run, result)
  {
  }

  lemma HeldSends(run: seq<Label>, result: ShuffleResult)
    requires |run| > 1 && Merge(run) !in result.independent
    ensures RepliesSent(run, result) <==> OneAddress(run)
  {
  }

  /** Every address of a run gets its completion exactly if the shuffler recorded
      all of them or, when another label of the batch overlaps a run of several
      writes, if there is no address but the first label's. */
  lemma RunRepliesSent(
      enabled: bool, batch: seq<Label>, runs: seq<seq<Label>>, granularity: string, lookup: Option<Lookup>,
      result: ShuffleResult, k: nat)
    requires OriginalBatch(batch) && granularity != PER_APPLICATION
    requires ShuffledBy(enabled, granularity, batch, runs, lookup, result) && k < |runs|
    ensures RepliesSent(runs[k], result) <==>
      if |runs[k]| > 1 && Overlapped(batch, runs[k]) then OneAddress(runs[k]) else !DropsReply(runs[k])
  {
    MergedIdsUnique(enabled, batch, runs);
    RunOfBatch(enabled, batch, runs, k);
    if |runs[k]| == 1 {
      assert runs[k][0] in runs[k];
      AloneSends(runs[k], result);
    } else {
      ManyAreWrites(enabled, batch, runs, k);
      WriteIndependent(enabled, batch, runs, granularity, lookup, result, k);
      if Overlapped(batch, runs[k]) {
        HeldSends(runs[k], result);
      } else {
        FanoutSends(runs, result, k);
        RunReplies(runs, k);
      }
    }
  }
}
