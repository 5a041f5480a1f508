/** The label: the unit of I/O work that clients publish and workers execute. */
module Labels {
  import opened Basics
  import opened FileStore
  import Decimal

  datatype LabelType = Read | Write | Delete | Flush | Composite | Observe

  datatype HazardType = RAW | WAW | WAR

  datatype Pointer =
    | NoPointer
    | MemoryPtr(address: nat, size: nat)
    | FilePath(path: string, offset: nat, length: nat)
    | NetworkEndpoint(host: string, port: nat)

  datatype Dependency = Dependency(labelId: nat, hazard: HazardType)

  datatype Aggregation = Aggregation(originalIds: seq<nat>, mergedOffset: nat, mergedLength: nat)

  /** Scheduling attributes, which the shuffler only copies. */
  datatype Attributes = Attributes(
    operation: string, flags: nat, priority: nat, intent: nat, ttlSeconds: nat, isolation: nat)

  datatype Label = Label(
    id: nat,
    kind: LabelType,
    source: Pointer,
    destination: Pointer,
    dataSize: nat,
    fileKey: string,
    appId: nat,
    attributes: Attributes,
    replyTo: string,
    dependencies: seq<Dependency>,
    children: seq<nat>,
    supertaskId: nat,
    aggregation: Aggregation)

  const NO_AGGREGATION := Aggregation([], 0, 0)

  datatype OffsetRange = OffsetRange(offset: nat, length: nat)

  function GetRange(p: Pointer): OffsetRange {
    if p.FilePath? then OffsetRange(p.offset, p.length) else OffsetRange(0, 0)
  }

  /** The pointer whose range a label touches: Write, Delete and Flush use the
      destination, everything else the source. */
  function Target(l: Label): Pointer {
    if l.kind in {Write, Delete, Flush} then l.destination else l.source
  }

  function LabelRange(l: Label): OffsetRange {
    GetRange(Target(l))
  }

  /** The 64-bit end offsets wrap around, as in the source. */
  predicate RangesOverlap(a: OffsetRange, b: OffsetRange) {
    && a.length != 0 && b.length != 0
    && a.offset < Add64(b.offset, b.length)
    && b.offset < Add64(a.offset, a.length)
  }

  /** A label as the label manager builds it: a read or a write of one non-empty
      file range, whose path, length and size fields agree. */
  predicate WellFormed(l: Label) {
    && l.kind in {Read, Write}
    && Target(l).FilePath?
    && Target(l).path == l.fileKey
    && Target(l).length == l.dataSize
    && 0 < l.dataSize
    && Target(l).offset + l.dataSize < TWO_TO_THE_64
    && l.dependencies == []
  }

  const PER_FILE := "per-file"
  const PER_APPLICATION := "per-application"

  /** The key labels are grouped by: the application, or (for "per-file" and
      every other setting) the file. */
  function GroupKey(l: Label, granularity: string): string {
    if granularity == PER_APPLICATION then Decimal.OfNat(l.appId) else l.fileKey
  }

  predicate SameGroup(a: Label, b: Label, granularity: string) {
    if granularity == PER_APPLICATION then a.appId == b.appId else a.fileKey == b.fileKey
  }

  lemma GroupKeyMeans(a: Label, b: Label, granularity: string)
    ensures GroupKey(a, granularity) == GroupKey(b, granularity) <==> SameGroup(a, b, granularity)
  {
    if Decimal.OfNat(a.appId) == Decimal.OfNat(b.appId) {
      Decimal.OfNatInjective(a.appId, b.appId);
    }
  }

  ghost predicate UniqueIds(labels: seq<Label>) {
    forall i, j :: 0 <= i < j < |labels| ==> labels[i].id != labels[j].id
  }

  lemma UniqueIdsTransfer(s: seq<Label>, t: seq<Label>)
    requires UniqueIds(s) && multiset(s) == multiset(t)
    ensures UniqueIds(t)
  {
    forall i, j | 0 <= i < j < |t|
      ensures t[i].id != t[j].id
    {
      assert t[i] in multiset(s) && t[j] in multiset(s);
      if t[i] == t[j] {
        RepeatedCountsTwice(t, i, j);
        DistinctCountsOnce(s, t[i]);
      }
    }
  }

  ghost predicate WellFormedBatch(labels: seq<Label>) {
    && UniqueIds(labels)
    && forall l :: l in labels ==> WellFormed(l)
  }

  /** Staged data of write labels, by label id. */
  type Warehouse = map<nat, seq<byte>>

  function Staged(warehouse: Warehouse, id: nat): seq<byte> {
    if id in warehouse then warehouse[id] else []
  }

  /** Every write of the batch has its bytes staged. */
  ghost predicate PayloadsStaged(labels: seq<Label>, warehouse: Warehouse) {
    forall l :: l in labels && l.kind == Write ==> |Staged(warehouse, l.id)| == l.dataSize
  }

  function PathOf(p: Pointer): string {
    if p.FilePath? then p.path else ""
  }

  /** What a worker executes for a label: a write moves the staged bytes to the
      destination, a read fetches `dataSize` bytes of the source. */
  function OpOf(l: Label, warehouse: Warehouse): Op {
    if l.kind == Write then
      WriteOp(l.id, PathOf(l.destination), GetRange(l.destination).offset, Staged(warehouse, l.id))
    else
      ReadOp(l.id, PathOf(Target(l)), LabelRange(l).offset, l.dataSize)
  }

  function Ops(labels: seq<Label>, warehouse: Warehouse): (ops: seq<Op>)
    ensures |ops| == |labels|
    ensures forall i :: 0 <= i < |labels| ==> ops[i] == OpOf(labels[i], warehouse)
  {
    seq(|labels|, i requires 0 <= i < |labels| => OpOf(labels[i], warehouse))
  }

  lemma OpsConcat(a: seq<Label>, b: seq<Label>, warehouse: Warehouse)
    ensures Ops(a + b, warehouse) == Ops(a, warehouse) + Ops(b, warehouse)
  {
  }

  lemma OpsPermuted(a: seq<Label>, b: seq<Label>, warehouse: Warehouse)
    requires multiset(a) == multiset(b)
    ensures multiset(Ops(a, warehouse)) == multiset(Ops(b, warehouse))
  {
    var f := (l: Label) => OpOf(l, warehouse);
    MapPermuted(f, a, b);
    assert Ops(a, warehouse) == MapSeq(f, a) && Ops(b, warehouse) == MapSeq(f, b);
  }

  /** The label without what the shuffler writes on it. */
  function Bare(l: Label): Label {
    l.(dependencies := [], supertaskId := 0)
  }

  function BareAll(labels: seq<Label>): (bare: seq<Label>)
    ensures |bare| == |labels|
    ensures forall i :: 0 <= i < |labels| ==> bare[i] == Bare(labels[i])
  {
    seq(|labels|, i requires 0 <= i < |labels| => Bare(labels[i]))
  }

  lemma BareConcat(a: seq<Label>, b: seq<Label>)
    ensures BareAll(a + b) == BareAll(a) + BareAll(b)
  {
  }

  lemma BarePermuted(a: seq<Label>, b: seq<Label>)
    requires multiset(a) == multiset(b)
    ensures multiset(BareAll(a)) == multiset(BareAll(b))
  {
    var f := (l: Label) => Bare(l);
    MapPermuted(f, a, b);
    assert BareAll(a) == MapSeq(f, a) && BareAll(b) == MapSeq(f, b);
  }

  lemma BareSameOps(labels: seq<Label>, warehouse: Warehouse)
    ensures Ops(BareAll(labels), warehouse) == Ops(labels, warehouse)
  {
  }
}
