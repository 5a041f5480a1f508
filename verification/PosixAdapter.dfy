/** The POSIX adapter: reads and writes of one open descriptor, through the
    small-I/O cache and the label manager. */
module PosixAdapter {
  import opened Basics
  import opened FileStore
  import opened CacheAgreement
  import opened ContentManager
  import LM = LabelManager

  class FileState {
    const filepath: string
    var offset: nat

    constructor (filepath: string)
      ensures this.filepath == filepath && offset == 0
    {
      this.filepath, this.offset := filepath, 0;
    }
  }

  /** The buffered regions of a descriptor. */
  function RegionsOf(caches: map<int, FdCache>, fd: int): Regions {
    if fd in caches then caches[fd].regions else map[]
  }

  /** The buffered regions after a read of disjoint regions. */
  ghost function RegionsAfterRead(regions: Regions, offset: nat, n: nat): Regions {
    if n == 0 || AllBuffered(regions, offset, offset + n) then regions else map[]
  }

  /** A read that the buffer does not answer flushes it. */
  ghost predicate Flushes(regions: Regions, offset: nat, n: nat) {
    n > 0 && Hit(Listing(regions), offset, n).None?
  }

  lemma FlushesExact(regions: Regions, offset: nat, n: nat)
    requires DisjointRegions(regions)
    ensures RegionsAfterRead(regions, offset, n) == if Flushes(regions, offset, n) then map[] else regions
  {
    HitTidy(regions, offset, n);
  }

  class Adapter {
    const fd: int
    const state: FileState
    const content: ContentManager
    const labels: LM.LabelManager
    const labelMinSize: nat

    /** What a plain file system would hold now. */
    ghost var plain: Store

    ghost function Regions(): Regions
      reads content
    {
      RegionsOf(content.caches, fd)
    }

    /** One read-through descriptor. */
    ghost predicate Ready()
      reads this, content, labels
    {
      && content.Valid() && content.minLabelSize == labelMinSize && content.defaultPolicy == ReadThrough
      && labels.maxLabelSize > 0
      && state.filepath != ""
      && (fd in content.caches ==>
            content.caches[fd].filepath == state.filepath && content.caches[fd].policy == ReadThrough)
    }

    /** The buffered regions are disjoint and, laid over the device, the plain file. */
    ghost predicate Valid()
      reads this, content, labels
    {
      && Ready()
      && DisjointRegions(Regions())
      && Agrees(plain, labels.device, state.filepath, Regions())
    }

    constructor (fd: int, state: FileState, content: ContentManager, labels: LM.LabelManager)
      requires content.Valid() && content.defaultPolicy == ReadThrough && fd !in content.caches
      requires labels.maxLabelSize > 0 && state.filepath != ""
      ensures Valid() && plain == labels.device && Regions() == map[]
      ensures this.fd == fd && this.state == state && this.content == content && this.labels == labels
      ensures this.labelMinSize == content.minLabelSize
    {
      this.fd, this.state, this.content, this.labels := fd, state, content, labels;
      this.labelMinSize := content.minLabelSize;
      this.plain := labels.device;
      new;
      NothingBuffered();
    }

    /** Publishes every buffered region, by offset, and empties the buffer. */
    method FlushAndPublish()
      requires Ready()
      modifies content, labels
      ensures Ready() && Regions() == map[]
      ensures labels.device == Flushed(old(labels.device), state.filepath, old(Regions()))
      ensures old(Valid()) ==> Valid()
    {
      ghost var regions := Regions();
      EmptyFlush(state.filepath);
      if Valid() {
        FlushAgrees(plain, labels.device, state.filepath, regions);
      }
      var flushed := content.Flush(fd);
      PublishRegions(flushed, regions);
    }

    /** Publishes flushed regions one by one. */
    method PublishRegions(flushed: seq<FlushRegion>, ghost regions: Regions)
      requires labels.maxLabelSize > 0 && ListsFlush(flushed, state.filepath, regions)
      modifies labels
      ensures labels.device == Flushed(old(labels.device), state.filepath, regions)
    {
      ghost var list := Listing(regions);
      for i := 0 to |flushed|
        invariant labels.device == Published(old(labels.device), state.filepath, list[..i])
      {
        assert list[..i + 1][..i] == list[..i];
        var published, ids := labels.PublishWrite(flushed[i].filepath, flushed[i].offset, flushed[i].data);
      }
      assert list[..|list|] == list;
    }

    /** Buffers a small write and publishes what that makes overflow. */
    method BufferWrite(data: seq<byte>, offset: nat)
      requires Ready() && 0 < |data| < labelMinSize
      modifies content, labels
      ensures Ready()
      ensures labels.device
           == DeviceAfterWrite(old(labels.device), state.filepath, old(Regions()), offset, data, labelMinSize)
      ensures Regions() == RegionsAfterWrite(old(Regions()), offset, data, labelMinSize)
    {
      ghost var put := Put(Regions(), offset, data);
      TotalSizePut(Regions(), offset, data);
      var flushed := content.CacheWrite(fd, state.filepath, offset, data);
      if flushed != [] {
        PublishRegions(flushed, put);
      } else {
        NonEmptyFlush(flushed, state.filepath, put, offset);
      }
    }

    /** Writes `data` at `offset`; small writes are buffered. A write that fits keeps
        the buffer and the device in agreement with the plain file. */
    method DoWrite(data: seq<byte>, offset: nat, updateOffset: bool) returns (written: nat)
      requires Ready()
      modifies this, state, content, labels
      ensures Ready()
      ensures written == |data|
      ensures plain == FileAfterWrite(old(plain), state.filepath, offset, data)
      ensures labels.device
           == DeviceAfterWrite(old(labels.device), state.filepath, old(Regions()), offset, data, labelMinSize)
      ensures Regions() == RegionsAfterWrite(old(Regions()), offset, data, labelMinSize)
      ensures old(Valid()) && WriteFits(old(Regions()), offset, |data|, labelMinSize) ==> Valid()
      ensures state.offset == if updateOffset && data != [] then offset + |data| else old(state.offset)
    {
      if |data| == 0 {
        return 0;
      }
      if Valid() && WriteFits(Regions(), offset, |data|, labelMinSize) {
        WriteAgrees(plain, labels.device, state.filepath, Regions(), offset, data, labelMinSize);
      }
      plain := WriteBytes(plain, state.filepath, offset, data);
      if |data| < labelMinSize {
        BufferWrite(data, offset);
      } else {
        var published, ids := labels.PublishWrite(state.filepath, offset, data);
      }
      if updateOffset {
        state.offset := offset + |data|;
      }
      written := |data|;
    }

    /** Reads `count` bytes at `offset`: from the buffer if it answers, else from the
        device after flushing. In agreement, that is what the plain file holds. */
    method DoRead(count: nat, offset: nat, updateOffset: bool) returns (bytes: seq<byte>)
      requires Ready()
      modifies state, content, labels
      ensures Ready()
      ensures bytes == Answer(old(labels.device), state.filepath, old(Regions()), offset, count)
      ensures Regions() == if Flushes(old(Regions()), offset, count) then map[] else old(Regions())
      ensures labels.device == if Flushes(old(Regions()), offset, count)
        then Flushed(old(labels.device), state.filepath, old(Regions())) else old(labels.device)
      ensures old(Valid()) ==>
        && Valid() && bytes == ReadBytes(plain, state.filepath, offset, count)
        && Regions() == RegionsAfterRead(old(Regions()), offset, count)
      ensures state.offset == if updateOffset && count > 0 then offset + count else old(state.offset)
    {
      if count == 0 {
        return [];
      }
      if Valid() {
        AgreeingAnswer(plain, labels.device, state.filepath, Regions(), offset, count);
        FlushesExact(Regions(), offset, count);
      }
      var cached := content.CacheRead(fd, offset, count);
      if cached.Some? && |cached.value| == count {
        bytes := cached.value;
        if updateOffset {
          state.offset := offset + count;
        }
        return;
      }
      EmptyMisses(offset, count);
      FlushAndPublish();
      var pending, ids := labels.PublishRead(state.filepath, offset, count);
      LM.CollectChunks(pending, state.filepath, offset, count, labels.maxLabelSize, labels.device);
      var result := labels.WaitRead(pending);
      var size := Min(|result.value|, count);
      bytes := result.value[..size];
      if updateOffset {
        state.offset := offset + size;
      }
    }
  }

  /** An empty buffer answers nothing. */
  lemma EmptyMisses(offset: nat, count: nat)
    requires count > 0
    ensures Hit(Listing(map[]), offset, count).None?
  {
  }

  lemma NothingBuffered()
    ensures forall at: nat :: !Buffered(map[], at)
  {
  }

  lemma EmptyFlush(filepath: string)
    ensures ListsFlush([], filepath, map[])
  {
  }

  /** A flush of at least one region is not empty. */
  lemma NonEmptyFlush(flushed: seq<FlushRegion>, filepath: string, regions: Regions, o: nat)
    requires o in regions && flushed == []
    ensures !ListsFlush(flushed, filepath, regions)
  {
    ListingLists(regions);
    var i := ListedIndex(Listing(regions), regions, o);
  }

  // ---------------------------------------------------------------------------
  // Whole runs
  // ---------------------------------------------------------------------------

  datatype Call = WriteAt(offset: nat, data: seq<byte>) | ReadAt(offset: nat, count: nat) | Fsync

  /** Every write of the script fits the regions that are buffered when it is made. */
  ghost predicate Fits(script: seq<Call>, regions: Regions, min: nat) {
    if script == [] then true
    else
      match script[0]
      case WriteAt(offset, data) =>
        && WriteFits(regions, offset, |data|, min)
        && Fits(script[1..], RegionsAfterWrite(regions, offset, data, min), min)
      case ReadAt(offset, count) => Fits(script[1..], RegionsAfterRead(regions, offset, count), min)
      case Fsync => Fits(script[1..], map[], min)
  }

  /** The bytes that the reads of a script return on a plain file. */
  ghost function PlainReads(script: seq<Call>, plain: Store, path: string): seq<seq<byte>> {
    if script == [] then []
    else
      match script[0]
      case WriteAt(offset, data) =>
        PlainReads(script[1..], FileAfterWrite(plain, path, offset, data), path)
      case ReadAt(offset, count) =>
        [ReadBytes(plain, path, offset, count)] + PlainReads(script[1..], plain, path)
      case Fsync => PlainReads(script[1..], plain, path)
  }

  /** Over any run of writes, reads and flushes that fit, every read returns what
      a plain file would hold. */
  method Replay(adapter: Adapter, script: seq<Call>) returns (answers: seq<seq<byte>>)
    requires adapter.Valid() && Fits(script, adapter.Regions(), adapter.labelMinSize)
    modifies adapter, adapter.state, adapter.content, adapter.labels
    ensures adapter.Valid()
    ensures answers == PlainReads(script, old(adapter.plain), adapter.state.filepath)
  {
    answers := [];
    for i := 0 to |script|
      invariant adapter.Valid() && Fits(script[i..], adapter.Regions(), adapter.labelMinSize)
      invariant PlainReads(script, old(adapter.plain), adapter.state.filepath)
             == answers + PlainReads(script[i..], adapter.plain, adapter.state.filepath)
    {
      assert script[i..][1..] == script[i + 1..];
      match script[i] {
        case WriteAt(offset, data) =>
          var written := adapter.DoWrite(data, offset, false);
        case ReadAt(offset, count) =>
          var bytes := adapter.DoRead(count, offset, false);
          answers := answers + [bytes];
        case Fsync =>
          adapter.FlushAndPublish();
      }
    }
  }
}
