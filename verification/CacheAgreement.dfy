/** When the buffered regions of a descriptor, laid over the device, are what a
    plain file would hold, and which writes keep it that way. */
module CacheAgreement {
  import opened Basics
  import opened FileStore
  import opened ContentManager

  /** Every byte of the plain file is the buffered one where there is one, and
      the device's everywhere else. */
  ghost predicate Agrees(plain: Store, device: Store, path: string, regions: Regions) {
    && (forall o, at :: Covers(regions, o, at) ==> Cell(plain, Loc(path, at)) == regions[o][at - o])
    && (forall loc: Loc :: loc.path != path || !Buffered(regions, loc.offset) ==> Cell(plain, loc) == Cell(device, loc))
  }

  predicate Apart(o: nat, n: nat, p: nat, m: nat) {
    o + n <= p || p + m <= o
  }

  /** A small write that stays buffered must stay clear of every region that starts
      elsewhere, and must not be shorter than the region it replaces. */
  ghost predicate SmallWriteFits(regions: Regions, offset: nat, n: nat) {
    && (forall o :: o in regions && o != offset ==> Apart(o, |regions[o]|, offset, n))
    && (offset in regions ==> |regions[offset]| <= n)
  }

  /** A large write, which bypasses the buffer, must stay clear of all regions. */
  ghost predicate LargeWriteFits(regions: Regions, offset: nat, n: nat) {
    forall o :: o in regions ==> Apart(o, |regions[o]|, offset, n)
  }

  /** A fitting small write keeps the regions disjoint and the agreement. */
  lemma SmallWriteAgrees(plain: Store, device: Store, path: string, regions: Regions, offset: nat, data: seq<byte>)
    requires Agrees(plain, device, path, regions) && DisjointRegions(regions)
    requires data != [] && SmallWriteFits(regions, offset, |data|)
    ensures DisjointRegions(Put(regions, offset, data))
    ensures Agrees(WriteBytes(plain, path, offset, data), device, path, Put(regions, offset, data))
  {
    var after, put := WriteBytes(plain, path, offset, data), Put(regions, offset, data);
    forall o: nat, at: nat | Covers(put, o, at)
      ensures Cell(after, Loc(path, at)) == put[o][at - o]
    {
      CellWritten(plain, path, offset, data, Loc(path, at));
      if o != offset {
        assert Covers(regions, o, at);
      }
    }
    forall loc: Loc | loc.path != path || !Buffered(put, loc.offset)
      ensures Cell(after, loc) == Cell(device, loc)
    {
      CellWritten(plain, path, offset, data, loc);
      assert !(loc.path == path && Covers(put, offset, loc.offset));
      if loc.path == path {
        forall o
          ensures !Covers(regions, o, loc.offset)
        {
          assert !Covers(put, o, loc.offset);
        }
      }
    }
  }

  /** A fitting large write keeps the agreement. */
  lemma LargeWriteAgrees(plain: Store, device: Store, path: string, regions: Regions, offset: nat, data: seq<byte>)
    requires Agrees(plain, device, path, regions) && LargeWriteFits(regions, offset, |data|)
    ensures Agrees(WriteBytes(plain, path, offset, data), WriteBytes(device, path, offset, data), path, regions)
  {
    forall o, at | Covers(regions, o, at)
      ensures Cell(WriteBytes(plain, path, offset, data), Loc(path, at)) == regions[o][at - o]
    {
      CellWritten(plain, path, offset, data, Loc(path, at));
    }
    forall loc: Loc
      ensures Cell(WriteBytes(plain, path, offset, data), loc) == Cell(WriteBytes(device, path, offset, data), loc)
           || Cell(WriteBytes(plain, path, offset, data), loc) == Cell(plain, loc)
      ensures loc.path != path || !Buffered(regions, loc.offset) ==>
        Cell(WriteBytes(plain, path, offset, data), loc) == Cell(WriteBytes(device, path, offset, data), loc)
    {
      CellWritten(plain, path, offset, data, loc);
      CellWritten(device, path, offset, data, loc);
    }
  }

  /** A hit returns what the plain file holds. */
  lemma HitAgrees(plain: Store, device: Store, path: string, regions: Regions, offset: nat, bytes: seq<byte>)
    requires Agrees(plain, device, path, regions)
    requires AllBuffered(regions, offset, offset + |bytes|)
    requires HoldsBuffered(bytes, regions, offset, offset + |bytes|)
    ensures bytes == ReadBytes(plain, path, offset, |bytes|)
  {
    forall i | 0 <= i < |bytes|
      ensures bytes[i] == ReadBytes(plain, path, offset, |bytes|)[i]
    {
      assert Buffered(regions, offset + i);
      var o :| Covers(regions, o, offset + i);
      assert Cell(plain, Loc(path, offset + i)) == regions[o][offset + i - o];
    }
  }

  /** With nothing buffered, the device reads like the plain file. */
  lemma EmptyAgrees(plain: Store, device: Store, path: string, offset: nat, size: nat)
    requires Agrees(plain, device, path, map[])
    ensures ReadBytes(device, path, offset, size) == ReadBytes(plain, path, offset, size)
  {
    forall at
      ensures !Buffered(map[], at)
    {
    }
  }

  // ---------------------------------------------------------------------------
  // Flushing
  // ---------------------------------------------------------------------------

  predicate InRegion(region: (nat, seq<byte>), at: nat) {
    region.0 <= at < region.0 + |region.1|
  }

  /** Agreement while the regions before `list[i]` are already on the device. */
  ghost predicate AgreesFrom(plain: Store, device: Store, path: string, list: seq<(nat, seq<byte>)>, i: nat) {
    && (forall j, at: nat :: i <= j < |list| && InRegion(list[j], at) ==>
          Cell(plain, Loc(path, at)) == list[j].1[at - list[j].0])
    && (forall loc: Loc :: loc.path != path || (forall j :: i <= j < |list| ==> !InRegion(list[j], loc.offset)) ==>
          Cell(plain, loc) == Cell(device, loc))
  }

  lemma AgreesListed(plain: Store, device: Store, path: string, regions: Regions, list: seq<(nat, seq<byte>)>)
    requires Agrees(plain, device, path, regions) && Lists(list, regions)
    ensures AgreesFrom(plain, device, path, list, 0)
  {
    forall j, at: nat | 0 <= j < |list| && InRegion(list[j], at)
      ensures Cell(plain, Loc(path, at)) == list[j].1[at - list[j].0]
    {
      assert Covers(regions, list[j].0, at);
    }
    forall loc: Loc | forall j :: 0 <= j < |list| ==> !InRegion(list[j], loc.offset)
      ensures !Buffered(regions, loc.offset)
    {
      if o :| Covers(regions, o, loc.offset) {
        var j := ListedIndex(list, regions, o);
        assert InRegion(list[j], loc.offset);
      }
    }
  }

  lemma FlushStep(plain: Store, device: Store, path: string, list: seq<(nat, seq<byte>)>, i: nat)
    requires i < |list| && AgreesFrom(plain, device, path, list, i)
    ensures AgreesFrom(plain, WriteBytes(device, path, list[i].0, list[i].1), path, list, i + 1)
  {
    forall loc: Loc | loc.path != path || (forall j :: i + 1 <= j < |list| ==> !InRegion(list[j], loc.offset))
      ensures Cell(plain, loc) == Cell(WriteBytes(device, path, list[i].0, list[i].1), loc)
    {
      CellWritten(device, path, list[i].0, list[i].1, loc);
      if loc.path == path && InRegion(list[i], loc.offset) {
        assert loc == Loc(path, loc.offset);
      }
    }
  }

  lemma FlushDone(plain: Store, device: Store, path: string, list: seq<(nat, seq<byte>)>)
    requires AgreesFrom(plain, device, path, list, |list|)
    ensures Agrees(plain, device, path, map[])
  {
    forall o, at
      ensures !Covers(map[], o, at)
    {
    }
  }

  /** The device after the regions of `list` were published one by one. */
  function Published(device: Store, path: string, list: seq<(nat, seq<byte>)>): Store {
    if list == [] then device
    else
      var (offset, data) := list[|list| - 1];
      WriteBytes(Published(device, path, list[..|list| - 1]), path, offset, data)
  }

  /** The device after a flush. */
  ghost function Flushed(device: Store, path: string, regions: Regions): Store {
    Published(device, path, Listing(regions))
  }

  lemma {:induction false} PublishedAgrees(
      plain: Store, device: Store, path: string, list: seq<(nat, seq<byte>)>, i: nat)
    requires i <= |list| && AgreesFrom(plain, device, path, list, 0)
    ensures AgreesFrom(plain, Published(device, path, list[..i]), path, list, i)
  {
    if i > 0 {
      PublishedAgrees(plain, device, path, list, i - 1);
      FlushStep(plain, Published(device, path, list[..i - 1]), path, list, i - 1);
      assert list[..i][..i - 1] == list[..i - 1];
    }
  }

  /** A flush moves everything that was buffered to the device. */
  lemma FlushAgrees(plain: Store, device: Store, path: string, regions: Regions)
    requires Agrees(plain, device, path, regions)
    ensures Agrees(plain, Flushed(device, path, regions), path, map[])
  {
    var list := Listing(regions);
    ListingLists(regions);
    AgreesListed(plain, device, path, regions, list);
    PublishedAgrees(plain, device, path, list, |list|);
    assert list[..|list|] == list;
    FlushDone(plain, Flushed(device, path, regions), path, list);
  }

  lemma FlushedLast(device: Store, path: string, regions: Regions)
    requires regions != map[]
    ensures var last := Greatest(regions.Keys);
      Flushed(device, path, regions) == WriteBytes(Flushed(device, path, regions - {last}), path, last, regions[last])
  {
    var init, last := Listing(regions - {Greatest(regions.Keys)}), Greatest(regions.Keys);
    assert Listing(regions) == init + [(last, regions[last])];
    assert (init + [(last, regions[last])])[..|init|] == init;
  }

  /** Of all regions that hold a byte, `o` starts last. */
  ghost predicate TopCover(regions: Regions, o: nat, at: nat) {
    Covers(regions, o, at) && forall p: nat :: Covers(regions, p, at) ==> p <= o
  }

  /** Regions are published in offset order, so the one that starts last wins. */
  lemma {:induction false} FlushedTop(device: Store, path: string, regions: Regions, o: nat, at: nat)
    requires TopCover(regions, o, at)
    ensures Cell(Flushed(device, path, regions), Loc(path, at)) == regions[o][at - o]
    decreases regions.Keys
  {
    var last := Greatest(regions.Keys);
    FlushedLast(device, path, regions);
    CellWritten(Flushed(device, path, regions - {last}), path, last, regions[last], Loc(path, at));
    if o != last {
      var rest := regions - {last};
      assert !Covers(regions, last, at);
      assert Covers(rest, o, at);
      forall p: nat | Covers(rest, p, at)
        ensures p <= o
      {
        assert Covers(regions, p, at);
      }
      FlushedTop(device, path, rest, o, at);
    }
  }

  lemma {:induction false} FlushedElsewhere(device: Store, path: string, regions: Regions, loc: Loc)
    requires loc.path != path || !Buffered(regions, loc.offset)
    ensures Cell(Flushed(device, path, regions), loc) == Cell(device, loc)
    decreases regions.Keys
  {
    if regions != map[] {
      var last := Greatest(regions.Keys);
      FlushedLast(device, path, regions);
      CellWritten(Flushed(device, path, regions - {last}), path, last, regions[last], loc);
      assert !Covers(regions, last, loc.offset) || loc.path != path;
      forall o: nat
        ensures Covers(regions - {last}, o, loc.offset) ==> Covers(regions, o, loc.offset)
      {
      }
      FlushedElsewhere(device, path, regions - {last}, loc);
    }
  }

  // ---------------------------------------------------------------------------
  // What a read returns
  // ---------------------------------------------------------------------------

  /** A read is answered from the buffer, or from the device after a flush. */
  ghost function Answer(device: Store, path: string, regions: Regions, offset: nat, count: nat): (bytes: seq<byte>)
    ensures |bytes| == count
  {
    var hit := Hit(Listing(regions), offset, count);
    if count == 0 then []
    else if hit.Some? then hit.value
    else ReadBytes(Flushed(device, path, regions), path, offset, count)
  }

  /** Every read returns what the plain file holds. */
  ghost predicate ReadsLike(plain: Store, device: Store, path: string, regions: Regions) {
    forall offset: nat, count: nat ::
      Answer(device, path, regions, offset, count) == ReadBytes(plain, path, offset, count)
  }

  lemma AgreeingAnswer(plain: Store, device: Store, path: string, regions: Regions, offset: nat, count: nat)
    requires DisjointRegions(regions) && Agrees(plain, device, path, regions)
    ensures Answer(device, path, regions, offset, count) == ReadBytes(plain, path, offset, count)
  {
    HitTidy(regions, offset, count);
    var hit := Hit(Listing(regions), offset, count);
    if count > 0 && hit.Some? {
      HitAgrees(plain, device, path, regions, offset, hit.value);
    } else {
      FlushAgrees(plain, device, path, regions);
      EmptyAgrees(plain, Flushed(device, path, regions), path, offset, count);
    }
  }

  /** Disjoint regions that agree with the plain file make every read right. */
  lemma AgreeingReads(plain: Store, device: Store, path: string, regions: Regions)
    requires DisjointRegions(regions) && Agrees(plain, device, path, regions)
    ensures ReadsLike(plain, device, path, regions)
  {
    forall offset: nat, count: nat
      ensures Answer(device, path, regions, offset, count) == ReadBytes(plain, path, offset, count)
    {
      AgreeingAnswer(plain, device, path, regions, offset, count);
    }
  }

  /** A one-byte hit comes from the region that starts last at or before the byte. */
  lemma HitOne(list: seq<(nat, seq<byte>)>, at: nat)
    requires ByOffset(list) && Hit(list, at, 1).Some?
    ensures var k := First(list, at);
      && k < |list| && InRegion(list[k], at) && (k + 1 < |list| ==> at < list[k + 1].0)
      && Hit(list, at, 1).value == [list[k].1[at - list[k].0]]
  {
    var k := First(list, at);
    FirstSplits(list, at);
    assert Scan(list, k, at, Zeros(1)).1 > 0;
    assert k < |list| && InRegion(list[k], at);
    var bytes := CopyRegion(list[k], at, Zeros(1));
    assert Scan(list, k + 1, at, bytes) == (bytes, 0);
  }

  lemma {:induction false} FirstSplits(list: seq<(nat, seq<byte>)>, offset: nat)
    requires ByOffset(list)
    ensures IsFirst(list, offset, First(list, offset))
    decreases |list|
  {
    if list != [] && list[|list| - 1].0 > offset {
      FirstSplits(list[..|list| - 1], offset);
    }
  }

  lemma LastStart(list: seq<(nat, seq<byte>)>, regions: Regions, k: nat, at: nat)
    requires Lists(list, regions) && k < |list| && InRegion(list[k], at)
    requires k + 1 < |list| ==> at < list[k + 1].0
    ensures TopCover(regions, list[k].0, at)
  {
    forall p: nat | Covers(regions, p, at)
      ensures p <= list[k].0
    {
      var i := ListedIndex(list, regions, p);
      assert forall j :: k + 1 < j < |list| ==> list[k + 1].0 < list[j].0;
    }
  }

  lemma HitTop(list: seq<(nat, seq<byte>)>, regions: Regions, at: nat) returns (o: nat)
    requires Lists(list, regions) && Hit(list, at, 1).Some?
    ensures TopCover(regions, o, at) && Hit(list, at, 1).value == [regions[o][at - o]]
  {
    HitOne(list, at);
    LastStart(list, regions, First(list, at), at);
    o := list[First(list, at)].0;
  }

  /** A one-byte read returns what a flush would put on the device. */
  lemma OneByte(device: Store, path: string, regions: Regions, at: nat)
    ensures Answer(device, path, regions, at, 1) == [Cell(Flushed(device, path, regions), Loc(path, at))]
  {
    if Hit(Listing(regions), at, 1).Some? {
      ListingLists(regions);
      var o := HitTop(Listing(regions), regions, at);
      FlushedTop(device, path, regions, o, at);
    }
  }

  // ---------------------------------------------------------------------------
  // A whole write
  // ---------------------------------------------------------------------------

  function FileAfterWrite(plain: Store, path: string, offset: nat, data: seq<byte>): Store {
    if data == [] then plain else WriteBytes(plain, path, offset, data)
  }

  /** `total_bytes` after buffering `n` bytes. */
  ghost function SizeAfter(regions: Regions, offset: nat, n: nat): int {
    TotalSize(regions) - (if offset in regions then |regions[offset]| else 0) + n
  }

  /** The buffered regions after a whole write: a large one bypasses the buffer, and
      a small one that fills it has it flushed. */
  ghost function RegionsAfterWrite(regions: Regions, offset: nat, data: seq<byte>, min: nat): Regions {
    if data == [] || |data| >= min then regions
    else if SizeAfter(regions, offset, |data|) >= min then map[]
    else Put(regions, offset, data)
  }

  ghost function DeviceAfterWrite(
      device: Store, path: string, regions: Regions, offset: nat, data: seq<byte>, min: nat): Store
  {
    if data == [] then device
    else if |data| >= min then WriteBytes(device, path, offset, data)
    else if SizeAfter(regions, offset, |data|) >= min then Flushed(device, path, Put(regions, offset, data))
    else device
  }

  /** A small write that fills the buffer is published with it, in offset order, so
      only regions that start later, and a longer replaced one, are in its way. */
  ghost predicate OverflowFits(regions: Regions, offset: nat, n: nat) {
    && (forall o :: o in regions && offset < o ==> offset + n <= o)
    && (offset in regions ==> |regions[offset]| <= n)
  }

  /** A write of `n` bytes that the cache handles correctly. */
  ghost predicate WriteFits(regions: Regions, offset: nat, n: nat, min: nat) {
    n == 0
    || if n >= min then LargeWriteFits(regions, offset, n)
       else if SizeAfter(regions, offset, n) >= min then OverflowFits(regions, offset, n)
       else SmallWriteFits(regions, offset, n)
  }

  lemma OverflowCovered(regions: Regions, offset: nat, data: seq<byte>, o: nat, at: nat)
    requires DisjointRegions(regions) && data != [] && OverflowFits(regions, offset, |data|)
    requires Covers(Put(regions, offset, data), o, at) && (o == offset || !(offset <= at < offset + |data|))
    ensures TopCover(Put(regions, offset, data), o, at)
  {
    var put := Put(regions, offset, data);
    forall p: nat | Covers(put, p, at)
      ensures p <= o
    {
      assert p == offset || p in regions;
    }
  }

  lemma OverflowUncovered(regions: Regions, offset: nat, data: seq<byte>, at: nat)
    requires OverflowFits(regions, offset, |data|) && !Buffered(Put(regions, offset, data), at)
    ensures !Buffered(regions, at) && !(offset <= at < offset + |data|)
  {
    var put := Put(regions, offset, data);
    assert !Covers(put, offset, at);
    forall o: nat
      ensures !Covers(regions, o, at)
    {
      assert !Covers(put, o, at);
    }
  }

  lemma OverflowCell(
      plain: Store, device: Store, path: string, regions: Regions, offset: nat, data: seq<byte>, loc: Loc)
    requires Agrees(plain, device, path, regions) && DisjointRegions(regions)
    requires data != [] && OverflowFits(regions, offset, |data|)
    ensures Cell(WriteBytes(plain, path, offset, data), loc)
         == Cell(Flushed(device, path, Put(regions, offset, data)), loc)
  {
    var put, at := Put(regions, offset, data), loc.offset;
    CellWritten(plain, path, offset, data, loc);
    if loc.path != path || !Buffered(put, at) {
      FlushedElsewhere(device, path, put, loc);
      if loc.path == path {
        OverflowUncovered(regions, offset, data, at);
      }
    } else {
      assert loc == Loc(path, at);
      var o :| Covers(put, o, at);
      var top := if offset <= at < offset + |data| then offset else o;
      OverflowCovered(regions, offset, data, top, at);
      FlushedTop(device, path, put, top, at);
      assert top != offset ==> Covers(regions, top, at);
    }
  }

  lemma SameCellsAgree(plain: Store, device: Store, path: string)
    requires forall loc: Loc :: Cell(plain, loc) == Cell(device, loc)
    ensures Agrees(plain, device, path, map[])
  {
  }

  /** A fitting small write that fills the buffer leaves the plain file on the device. */
  lemma OverflowAgrees(plain: Store, device: Store, path: string, regions: Regions, offset: nat, data: seq<byte>)
    requires Agrees(plain, device, path, regions) && DisjointRegions(regions)
    requires data != [] && OverflowFits(regions, offset, |data|)
    ensures Agrees(WriteBytes(plain, path, offset, data),
                   Flushed(device, path, Put(regions, offset, data)), path, map[])
  {
    var after, flushed := WriteBytes(plain, path, offset, data), Flushed(device, path, Put(regions, offset, data));
    forall loc: Loc
      ensures Cell(after, loc) == Cell(flushed, loc)
    {
      OverflowCell(plain, device, path, regions, offset, data, loc);
    }
    SameCellsAgree(after, flushed, path);
  }

  /** A fitting write keeps the regions disjoint and the agreement. */
  lemma WriteAgrees(
      plain: Store, device: Store, path: string, regions: Regions, offset: nat, data: seq<byte>, min: nat)
    requires Agrees(plain, device, path, regions) && DisjointRegions(regions)
    requires WriteFits(regions, offset, |data|, min)
    ensures DisjointRegions(RegionsAfterWrite(regions, offset, data, min))
    ensures Agrees(FileAfterWrite(plain, path, offset, data),
                   DeviceAfterWrite(device, path, regions, offset, data, min), path,
                   RegionsAfterWrite(regions, offset, data, min))
  {
    if data == [] {
    } else if |data| >= min {
      LargeWriteAgrees(plain, device, path, regions, offset, data);
    } else if SizeAfter(regions, offset, |data|) >= min {
      OverflowAgrees(plain, device, path, regions, offset, data);
    } else {
      SmallWriteAgrees(plain, device, path, regions, offset, data);
    }
  }

  // ---------------------------------------------------------------------------
  // The rule is exact
  // ---------------------------------------------------------------------------

  ghost function SomeRegion(regions: Regions): (o: nat)
    requires regions != map[]
    ensures o in regions
  {
    var o :| o in regions;
    o
  }

  /** The plain file that agrees with a device and a set of regions. */
  ghost function LaidOver(device: Store, path: string, regions: Regions): Store
    decreases regions.Keys
  {
    if regions == map[] then device
    else
      var o := SomeRegion(regions);
      WriteBytes(LaidOver(device, path, regions - {o}), path, o, regions[o])
  }

  lemma LaidOne(plain: Store, device: Store, path: string, regions: Regions, o: nat)
    requires DisjointRegions(regions) && o in regions && Agrees(plain, device, path, regions - {o})
    ensures Agrees(WriteBytes(plain, path, o, regions[o]), device, path, regions)
  {
    var rest := regions - {o};
    assert SmallWriteFits(rest, o, |regions[o]|);
    SmallWriteAgrees(plain, device, path, rest, o, regions[o]);
    assert Put(rest, o, regions[o]) == regions;
  }

  lemma DeviceAgrees(device: Store, path: string)
    ensures Agrees(device, device, path, map[])
  {
    forall at
      ensures !Buffered(map[], at)
    {
    }
  }

  lemma {:induction false} LaidOverAgrees(device: Store, path: string, regions: Regions)
    requires DisjointRegions(regions)
    ensures Agrees(LaidOver(device, path, regions), device, path, regions)
    decreases regions.Keys
  {
    if regions == map[] {
      DeviceAgrees(device, path);
    } else {
      var o := SomeRegion(regions);
      LaidOverAgrees(device, path, regions - {o});
      LaidOne(LaidOver(device, path, regions - {o}), device, path, regions, o);
    }
  }

  lemma AgreeingFile(device: Store, path: string, regions: Regions) returns (plain: Store)
    requires DisjointRegions(regions)
    ensures Agrees(plain, device, path, regions)
  {
    plain := LaidOver(device, path, regions);
    LaidOverAgrees(device, path, regions);
  }

  function Other(b: byte): byte {
    if b == 0 then 1 else 0
  }

  lemma TailUncovered(regions: Regions, offset: nat, data: seq<byte>)
    requires DisjointRegions(regions) && offset in regions && |data| < |regions[offset]|
    ensures !Buffered(Put(regions, offset, data), offset + |data|)
  {
    var put, at := Put(regions, offset, data), offset + |data|;
    assert Covers(regions, offset, at);
    forall o: nat
      ensures !Covers(put, o, at)
    {
      assert Covers(regions, o, at) ==> o == offset;
    }
  }


  /** After the whole write every read returns what the plain file holds, whatever
      the file and the device held before. */
  ghost predicate WriteSafe(regions: Regions, path: string, offset: nat, n: nat, min: nat) {
    forall plain, device, data: seq<byte> :: |data| == n && Agrees(plain, device, path, regions) ==>
      ReadsLike(FileAfterWrite(plain, path, offset, data),
                DeviceAfterWrite(device, path, regions, offset, data, min), path,
                RegionsAfterWrite(regions, offset, data, min))
  }

  /** A byte that a flush would get wrong is read wrong. */
  lemma WrongByte(plain: Store, device: Store, path: string, regions: Regions, at: nat)
    requires Cell(Flushed(device, path, regions), Loc(path, at)) != Cell(plain, Loc(path, at))
    ensures !ReadsLike(plain, device, path, regions)
  {
    OneByte(device, path, regions, at);
    assert ReadBytes(plain, path, at, 1)[0] == Cell(plain, Loc(path, at));
  }

  /** One file, one device and one byte that comes out wrong make a write unsafe. */
  lemma WrongAfter(
      plain: Store, device: Store, path: string, regions: Regions, offset: nat, data: seq<byte>, min: nat, at: nat)
    requires Agrees(plain, device, path, regions)
    requires Cell(Flushed(DeviceAfterWrite(device, path, regions, offset, data, min), path,
                          RegionsAfterWrite(regions, offset, data, min)), Loc(path, at))
          != Cell(FileAfterWrite(plain, path, offset, data), Loc(path, at))
    ensures !WriteSafe(regions, path, offset, |data|, min)
  {
    WrongByte(FileAfterWrite(plain, path, offset, data), DeviceAfterWrite(device, path, regions, offset, data, min),
              path, RegionsAfterWrite(regions, offset, data, min), at);
  }

  lemma FlushedNothing(device: Store, path: string)
    ensures Flushed(device, path, map[]) == device
  {
  }

  lemma OnlyCover(regions: Regions, o: nat, at: nat)
    requires DisjointRegions(regions) && Covers(regions, o, at)
    ensures TopCover(regions, o, at)
  {
  }

  function Constant(n: nat, b: byte): (data: seq<byte>)
    ensures |data| == n && forall i :: 0 <= i < n ==> data[i] == b
  {
    seq(n, _ => b)
  }

  /** A write that bypasses the buffer is hidden by any region it overlaps. */
  lemma LargeHidden(regions: Regions, path: string, offset: nat, n: nat, min: nat, o: nat)
    requires DisjointRegions(regions) && n >= min && o in regions && !Apart(o, |regions[o]|, offset, n) && n > 0
    ensures !WriteSafe(regions, path, offset, n, min)
  {
    var at := if o < offset then offset else o;
    var plain := AgreeingFile(map[], path, regions);
    var data := Constant(n, Other(regions[o][at - o]));
    CellWritten(plain, path, offset, data, Loc(path, at));
    OnlyCover(regions, o, at);
    FlushedTop(WriteBytes(map[], path, offset, data), path, regions, o, at);
    WrongAfter(plain, map[], path, regions, offset, data, min, at);
  }

  /** What the first read that misses after a small write finds on the device. */
  lemma FirstFound(device: Store, path: string, regions: Regions, offset: nat, data: seq<byte>, min: nat)
    requires 0 < |data| < min
    ensures Flushed(DeviceAfterWrite(device, path, regions, offset, data, min), path,
                    RegionsAfterWrite(regions, offset, data, min))
         == Flushed(device, path, Put(regions, offset, data))
  {
    FlushedNothing(Flushed(device, path, Put(regions, offset, data)), path);
  }

  lemma WrongInPut(
      plain: Store, device: Store, path: string, regions: Regions, offset: nat, data: seq<byte>, min: nat, at: nat)
    requires Agrees(plain, device, path, regions) && 0 < |data| < min
    requires Cell(Flushed(device, path, Put(regions, offset, data)), Loc(path, at))
          != Cell(WriteBytes(plain, path, offset, data), Loc(path, at))
    ensures !WriteSafe(regions, path, offset, |data|, min)
  {
    FirstFound(device, path, regions, offset, data, min);
    WrongAfter(plain, device, path, regions, offset, data, min, at);
  }

  /** A small write is hidden by a region that starts inside it. */
  lemma LaterHidden(regions: Regions, path: string, offset: nat, n: nat, min: nat, o: nat)
    requires DisjointRegions(regions) && 0 < n < min && o in regions && offset < o < offset + n
    ensures !WriteSafe(regions, path, offset, n, min)
  {
    var plain := AgreeingFile(map[], path, regions);
    var data := Constant(n, Other(regions[o][0]));
    var put := Put(regions, offset, data);
    CellWritten(plain, path, offset, data, Loc(path, o));
    assert TopCover(put, o, o);
    FlushedTop(map[], path, put, o, o);
    WrongInPut(plain, map[], path, regions, offset, data, min, o);
  }

  lemma TailOnDevice(device: Store, path: string, regions: Regions, offset: nat, data: seq<byte>)
    requires DisjointRegions(regions) && offset in regions && |data| < |regions[offset]|
    ensures Cell(Flushed(device, path, Put(regions, offset, data)), Loc(path, offset + |data|))
         == Cell(device, Loc(path, offset + |data|))
  {
    TailUncovered(regions, offset, data);
    FlushedElsewhere(device, path, Put(regions, offset, data), Loc(path, offset + |data|));
  }

  lemma TailLost(plain: Store, device: Store, path: string, regions: Regions, offset: nat, data: seq<byte>)
    requires DisjointRegions(regions) && offset in regions && |data| < |regions[offset]|
    requires Agrees(plain, device, path, regions)
    requires Cell(device, Loc(path, offset + |data|)) != regions[offset][|data|]
    ensures Cell(Flushed(device, path, Put(regions, offset, data)), Loc(path, offset + |data|))
         != Cell(WriteBytes(plain, path, offset, data), Loc(path, offset + |data|))
  {
    CellWritten(plain, path, offset, data, Loc(path, offset + |data|));
    assert Covers(regions, offset, offset + |data|);
    TailOnDevice(device, path, regions, offset, data);
  }

  /** A small write that replaces a longer region forgets its tail. */
  lemma TailForgotten(regions: Regions, path: string, offset: nat, n: nat, min: nat)
    requires DisjointRegions(regions) && 0 < n < min && offset in regions && n < |regions[offset]|
    ensures !WriteSafe(regions, path, offset, n, min)
  {
    var loc, data := Loc(path, offset + n), Zeros(n);
    var device: Store := map[loc := Other(regions[offset][n])];
    var plain := AgreeingFile(device, path, regions);
    TailLost(plain, device, path, regions, offset, data);
    WrongInPut(plain, device, path, regions, offset, data, min, offset + n);
  }

  // ---------------------------------------------------------------------------
  // The scan counts overlapped bytes twice
  // ---------------------------------------------------------------------------

  /** The first byte from `from` on that is not buffered. */
  lemma FirstGap(regions: Regions, from: nat) returns (gap: nat)
    ensures from <= gap && AllBuffered(regions, from, gap) && !Buffered(regions, gap)
  {
    gap := from;
    var ahead := regions.Keys;
    while Buffered(regions, gap)
      invariant from <= gap && AllBuffered(regions, from, gap)
      invariant forall o :: o in regions && gap < o + |regions[o]| ==> o in ahead
      decreases |ahead|
    {
      var o: nat :| Covers(regions, o, gap);
      forall at | gap <= at < o + |regions[o]|
        ensures Buffered(regions, at)
      {
        assert Covers(regions, o, at);
      }
      ahead := ahead - {o};
      gap := o + |regions[o]|;
    }
  }

  ghost predicate InSome(list: seq<(nat, seq<byte>)>, k: nat, at: nat) {
    exists i :: k <= i < |list| && InRegion(list[i], at)
  }

  /** From the k-th region on: non-empty, from `frontier` on, in order and apart. */
  ghost predicate Chained(list: seq<(nat, seq<byte>)>, k: nat, frontier: nat) {
    && (forall i :: k <= i < |list| ==> frontier <= list[i].0 && list[i].1 != [])
    && (forall i, j :: k <= i < j < |list| ==> list[i].0 + |list[i].1| <= list[j].0)
  }

  /** Every byte from `frontier` up to `gap` is in a region, and the one at `gap` is not. */
  ghost predicate FilledTo(list: seq<(nat, seq<byte>)>, k: nat, frontier: nat, gap: nat) {
    (forall at: nat :: frontier <= at < gap ==> InSome(list, k, at)) && !InSome(list, k, gap)
  }

  lemma ChainHead(list: seq<(nat, seq<byte>)>, k: nat, frontier: nat, gap: nat)
    requires k < |list| && Chained(list, k, frontier) && list[k].0 <= gap && FilledTo(list, k, frontier, gap)
    ensures list[k].0 == frontier && frontier + |list[k].1| <= gap
    ensures Chained(list, k + 1, frontier + |list[k].1|) && FilledTo(list, k + 1, frontier + |list[k].1|, gap)
  {
    assert !InRegion(list[k], gap);
    assert frontier < gap ==> InSome(list, k, frontier);
    var next := k + 1;
    forall at: nat | frontier + |list[k].1| <= at < gap
      ensures InSome(list, next, at)
    {
      assert InSome(list, k, at);
      var i :| k <= i < |list| && InRegion(list[i], at);
      assert i != k;
    }
  }

  lemma ChainOver(list: seq<(nat, seq<byte>)>, k: nat, frontier: nat, gap: nat)
    requires k <= |list| && Chained(list, k, frontier) && frontier <= gap && FilledTo(list, k, frontier, gap)
    requires k < |list| ==> gap < list[k].0
    ensures frontier == gap
  {
    assert frontier < gap ==> InSome(list, k, frontier);
  }

  /** Over a chain up to a gap the scan counts the bytes of the chain, and leaves the
      byte at the gap alone. */
  lemma {:induction false} ScanChain(
      list: seq<(nat, seq<byte>)>, k: nat, offset: nat, bytes: seq<byte>, frontier: nat, gap: nat)
    requires k <= |list| && offset <= frontier <= gap && offset + |bytes| == gap + 1
    requires Chained(list, k, frontier) && FilledTo(list, k, frontier, gap)
    ensures Scan(list, k, offset, bytes).1 == gap - frontier
    ensures Scan(list, k, offset, bytes).0[gap - offset] == bytes[gap - offset]
    decreases |list| - k
  {
    if k == |list| || gap < list[k].0 {
      ChainOver(list, k, frontier, gap);
    } else {
      ChainHead(list, k, frontier, gap);
      ScanChain(list, k + 1, offset, CopyRegion(list[k], offset, bytes), frontier + |list[k].1|, gap);
    }
  }

  /** A region and the write that starts inside it, with nothing else before the end
      of both. */
  ghost predicate StartsInside(regions: Regions, o: nat, offset: nat, n: nat) {
    && DisjointRegions(regions) && o in regions && n > 0
    && o < offset < o + |regions[o]|
    && forall p :: p in regions && offset < p ==> offset + n <= p
  }

  function EndOfBoth(regions: Regions, o: nat, offset: nat, n: nat): nat
    requires o in regions
  {
    if o + |regions[o]| > offset + n then o + |regions[o]| else offset + n
  }

  lemma NothingBetween(regions: Regions, o: nat, offset: nat, data: seq<byte>, p: nat)
    requires StartsInside(regions, o, offset, |data|) && p in Put(regions, offset, data) && o < p
    ensures offset <= p
  {
    assert p == offset || p in regions;
  }

  lemma PutFollows(
      list: seq<(nat, seq<byte>)>, regions: Regions, o: nat, offset: nat, data: seq<byte>) returns (i: nat)
    requires StartsInside(regions, o, offset, |data|) && Lists(list, Put(regions, offset, data))
    ensures i + 1 < |list| && list[i] == (o, regions[o]) && list[i + 1] == (offset, data)
  {
    i := ListedIndex(list, Put(regions, offset, data), o);
    var m := ListedIndex(list, Put(regions, offset, data), offset);
    forall j | i < j < |list|
      ensures offset <= list[j].0
    {
      NothingBetween(regions, o, offset, data, list[j].0);
    }
    assert i < m && list[i + 1].0 <= list[m].0;
  }

  lemma PutChained(list: seq<(nat, seq<byte>)>, regions: Regions, o: nat, offset: nat, data: seq<byte>, i: nat)
    requires StartsInside(regions, o, offset, |data|) && Lists(list, Put(regions, offset, data))
    requires i + 1 < |list| && list[i] == (o, regions[o]) && list[i + 1] == (offset, data)
    ensures Chained(list, i + 2, EndOfBoth(regions, o, offset, |data|))
  {
    forall j | i + 2 <= j < |list|
      ensures list[j].0 in regions && regions[list[j].0] == list[j].1 && offset < list[j].0
    {
      assert list[i + 1].0 < list[j].0;
      assert list[j].0 in Put(regions, offset, data);
    }
    assert forall j, m :: i + 2 <= j < m < |list| ==> list[j].0 < list[m].0;
  }

  lemma PutFilled(
      list: seq<(nat, seq<byte>)>, regions: Regions, o: nat, offset: nat, data: seq<byte>, i: nat, gap: nat)
    requires StartsInside(regions, o, offset, |data|) && Lists(list, Put(regions, offset, data))
    requires i + 1 < |list| && list[i] == (o, regions[o]) && list[i + 1] == (offset, data)
    requires o <= gap && AllBuffered(Put(regions, offset, data), o, gap) && !Buffered(Put(regions, offset, data), gap)
    ensures EndOfBoth(regions, o, offset, |data|) <= gap
    ensures FilledTo(list, i + 2, EndOfBoth(regions, o, offset, |data|), gap)
  {
    var put, end := Put(regions, offset, data), EndOfBoth(regions, o, offset, |data|);
    assert !Covers(put, o, gap) && !Covers(put, offset, gap);
    var next := i + 2;
    forall at: nat | end <= at < gap
      ensures InSome(list, next, at)
    {
      assert Buffered(put, at);
      var p: nat :| Covers(put, p, at);
      var j := ListedIndex(list, put, p);
      LaterListed(list, put, i, j, at, end);
      assert InRegion(list[j], at);
    }
    forall j | i + 2 <= j < |list|
      ensures !InRegion(list[j], gap)
    {
      assert !Covers(put, list[j].0, gap);
    }
  }

  /** A region that holds a byte behind the first two comes after them. */
  lemma LaterListed(list: seq<(nat, seq<byte>)>, put: Regions, i: nat, j: nat, at: nat, end: nat)
    requires ByOffset(list) && i + 1 < |list| && j < |list| && InRegion(list[j], at) && end <= at
    requires list[i].0 + |list[i].1| <= end && list[i + 1].0 + |list[i + 1].1| <= end
    requires forall m :: 0 <= m < i ==> list[m].0 + |list[m].1| <= end
    ensures i + 2 <= j
  {
  }

  /** The first byte behind an overlap that is not buffered is read as 0, in a hit. */
  lemma ScanOverlapped(
      list: seq<(nat, seq<byte>)>, regions: Regions, o: nat, offset: nat, data: seq<byte>, i: nat, gap: nat)
    requires StartsInside(regions, o, offset, |data|) && i + 1 < |list|
    requires list[i] == (o, regions[o]) && list[i + 1] == (offset, data)
    requires EndOfBoth(regions, o, offset, |data|) <= gap
    requires Chained(list, i + 2, EndOfBoth(regions, o, offset, |data|))
    requires FilledTo(list, i + 2, EndOfBoth(regions, o, offset, |data|), gap)
    ensures Scan(list, i, o, Zeros(gap + 1 - o)).1 > gap - o
    ensures Scan(list, i, o, Zeros(gap + 1 - o)).0[gap - o] == 0
  {
    var none := Zeros(gap + 1 - o);
    var once := CopyRegion(list[i], o, none);
    var twice := CopyRegion(list[i + 1], o, once);
    ScanChain(list, i + 2, o, twice, EndOfBoth(regions, o, offset, |data|), gap);
    assert OverlapLength(list[i], o, |none|) == |regions[o]|;
    assert OverlapLength(list[i + 1], o, |none|) == |data|;
    assert once[gap - o] == 0 && twice[gap - o] == 0;
  }

  lemma ScanFromOverlap(
      list: seq<(nat, seq<byte>)>, regions: Regions, o: nat, offset: nat, data: seq<byte>, gap: nat)
    requires StartsInside(regions, o, offset, |data|) && Lists(list, Put(regions, offset, data)) && o <= gap
    requires AllBuffered(Put(regions, offset, data), o, gap) && !Buffered(Put(regions, offset, data), gap)
    ensures Scan(list, First(list, o), o, Zeros(gap + 1 - o)).1 > gap - o
    ensures Scan(list, First(list, o), o, Zeros(gap + 1 - o)).0[gap - o] == 0
  {
    var i := PutFollows(list, regions, o, offset, data);
    PutChained(list, regions, o, offset, data, i);
    PutFilled(list, regions, o, offset, data, i, gap);
    FirstIs(list, o, i);
    ScanOverlapped(list, regions, o, offset, data, i, gap);
  }

  lemma FalseHit(regions: Regions, o: nat, offset: nat, data: seq<byte>, gap: nat)
    requires StartsInside(regions, o, offset, |data|) && o <= gap
    requires AllBuffered(Put(regions, offset, data), o, gap) && !Buffered(Put(regions, offset, data), gap)
    ensures var hit := Hit(Listing(Put(regions, offset, data)), o, gap + 1 - o);
      hit.Some? && hit.value[gap - o] == 0
  {
    ListingLists(Put(regions, offset, data));
    ScanFromOverlap(Listing(Put(regions, offset, data)), regions, o, offset, data, gap);
  }

  lemma GapUnbuffered(regions: Regions, o: nat, offset: nat, data: seq<byte>, gap: nat)
    requires StartsInside(regions, o, offset, |data|) && !Buffered(Put(regions, offset, data), gap)
    ensures !Buffered(regions, gap) && !(offset <= gap < offset + |data|)
  {
    var put := Put(regions, offset, data);
    assert !Covers(put, offset, gap);
    forall p: nat
      ensures !Covers(regions, p, gap)
    {
      assert !Covers(put, p, gap);
      assert offset !in regions;
    }
  }

  lemma GapKept(
      plain: Store, device: Store, path: string, regions: Regions, o: nat, offset: nat, data: seq<byte>, gap: nat)
    requires StartsInside(regions, o, offset, |data|) && !Buffered(Put(regions, offset, data), gap)
    requires Agrees(plain, device, path, regions)
    ensures Cell(WriteBytes(plain, path, offset, data), Loc(path, gap)) == Cell(device, Loc(path, gap))
  {
    GapUnbuffered(regions, o, offset, data, gap);
    CellWritten(plain, path, offset, data, Loc(path, gap));
  }

  lemma AnswerOfHit(device: Store, path: string, regions: Regions, o: nat, count: nat)
    requires count > 0 && Hit(Listing(regions), o, count).Some?
    ensures Answer(device, path, regions, o, count) == Hit(Listing(regions), o, count).value
  {
  }

  lemma WrongAnswer(
      plain: Store, device: Store, path: string, regions: Regions, o: nat, count: nat, i: nat, bytes: seq<byte>)
    requires bytes == Answer(device, path, regions, o, count) && i < count
    requires bytes[i] != Cell(plain, Loc(path, o + i))
    ensures !ReadsLike(plain, device, path, regions)
  {
    assert ReadBytes(plain, path, o, count)[i] == Cell(plain, Loc(path, o + i));
  }

  lemma FalseAnswer(plain: Store, device: Store, path: string, regions: Regions, o: nat, count: nat, i: nat)
    requires i < count && Hit(Listing(regions), o, count).Some? && Hit(Listing(regions), o, count).value[i] == 0
    requires Cell(plain, Loc(path, o + i)) != 0
    ensures !ReadsLike(plain, device, path, regions)
  {
    AnswerOfHit(device, path, regions, o, count);
    WrongAnswer(plain, device, path, regions, o, count, i, Hit(Listing(regions), o, count).value);
  }

  /** Reading from the region to the gap behind it answers 0 for a byte that the file
      has. */
  lemma GapReadsZero(
      plain: Store, device: Store, path: string, regions: Regions, o: nat, offset: nat, data: seq<byte>, gap: nat)
    requires StartsInside(regions, o, offset, |data|) && o <= gap
    requires AllBuffered(Put(regions, offset, data), o, gap) && !Buffered(Put(regions, offset, data), gap)
    requires Agrees(plain, device, path, regions) && Cell(device, Loc(path, gap)) != 0
    ensures !ReadsLike(WriteBytes(plain, path, offset, data), device, path, Put(regions, offset, data))
  {
    FalseHit(regions, o, offset, data, gap);
    GapKept(plain, device, path, regions, o, offset, data, gap);
    var after, put := WriteBytes(plain, path, offset, data), Put(regions, offset, data);
    FalseAnswer(after, device, path, put, o, gap + 1 - o, gap - o);
  }

  /** A small write that stays buffered inside a region that starts earlier makes the
      buffer answer for a byte that it does not hold. */
  lemma EarlierCountsTwice(regions: Regions, path: string, offset: nat, n: nat, min: nat, o: nat)
    requires StartsInside(regions, o, offset, n) && n < min && SizeAfter(regions, offset, n) < min
    ensures !WriteSafe(regions, path, offset, n, min)
  {
    var data := Zeros(n);
    var gap := FirstGap(Put(regions, offset, data), o);
    var device: Store := map[Loc(path, gap) := 1];
    var plain := AgreeingFile(device, path, regions);
    GapReadsZero(plain, device, path, regions, o, offset, data, gap);
    assert DeviceAfterWrite(device, path, regions, offset, data, min) == device;
  }

  lemma FitsIsSafe(regions: Regions, path: string, offset: nat, n: nat, min: nat)
    requires DisjointRegions(regions) && WriteFits(regions, offset, n, min)
    ensures WriteSafe(regions, path, offset, n, min)
  {
    forall plain, device, data: seq<byte> | |data| == n && Agrees(plain, device, path, regions)
      ensures ReadsLike(FileAfterWrite(plain, path, offset, data),
                        DeviceAfterWrite(device, path, regions, offset, data, min), path,
                        RegionsAfterWrite(regions, offset, data, min))
    {
      WriteAgrees(plain, device, path, regions, offset, data, min);
      AgreeingReads(FileAfterWrite(plain, path, offset, data),
                    DeviceAfterWrite(device, path, regions, offset, data, min), path,
                    RegionsAfterWrite(regions, offset, data, min));
    }
  }

  lemma SmallMisfit(regions: Regions, path: string, offset: nat, n: nat, min: nat)
    requires DisjointRegions(regions) && 0 < n < min && !WriteFits(regions, offset, n, min)
    ensures !WriteSafe(regions, path, offset, n, min)
  {
    if offset in regions && n < |regions[offset]| {
      TailForgotten(regions, path, offset, n, min);
    } else if o: nat :| o in regions && offset < o < offset + n {
      LaterHidden(regions, path, offset, n, min, o);
    } else {
      var o: nat :| o in regions && o != offset && !Apart(o, |regions[o]|, offset, n);
      EarlierCountsTwice(regions, path, offset, n, min, o);
    }
  }

  /** For disjoint regions, a write is safe if and only if it fits: exactly then every
      read after it returns what a plain file would hold. */
  lemma WriteExact(regions: Regions, path: string, offset: nat, n: nat, min: nat)
    requires DisjointRegions(regions)
    ensures WriteSafe(regions, path, offset, n, min) <==> WriteFits(regions, offset, n, min)
  {
    if WriteFits(regions, offset, n, min) {
      FitsIsSafe(regions, path, offset, n, min);
    } else if n >= min {
      var o: nat :| o in regions && !Apart(o, |regions[o]|, offset, n);
      LargeHidden(regions, path, offset, n, min, o);
    } else {
      SmallMisfit(regions, path, offset, n, min);
    }
  }
}
