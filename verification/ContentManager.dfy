/** The small-I/O cache: a write-back buffer of byte regions per descriptor. */
module ContentManager {
  import opened Basics

  /** Buffered regions by start offset (a std::map, which iterates by offset). */
  type Regions = map<nat, seq<byte>>

  datatype ReadPolicy = ReadThrough | WriteOnly

  datatype FdCache = FdCache(filepath: string, policy: ReadPolicy, regions: Regions, totalBytes: nat)

  datatype FlushRegion = FlushRegion(filepath: string, offset: nat, data: seq<byte>)

  // ---------------------------------------------------------------------------
  // Regions
  // ---------------------------------------------------------------------------

  ghost function TotalSize(regions: Regions): nat
    decreases regions.Keys
  {
    if regions == map[] then 0
    else
      var o :| o in regions;
      |regions[o]| + TotalSize(regions - {o})
  }

  /** The total does not depend on the order of summation. */
  lemma {:induction false} TotalSizePick(regions: Regions, o: nat)
    requires o in regions
    ensures TotalSize(regions) == |regions[o]| + TotalSize(regions - {o})
    decreases regions.Keys
  {
    var p :| p in regions && TotalSize(regions) == |regions[p]| + TotalSize(regions - {p});
    if p != o {
      TotalSizePick(regions - {p}, o);
      TotalSizePick(regions - {o}, p);
      assert regions - {p} - {o} == regions - {o} - {p};
    }
  }

  lemma TotalSizePut(regions: Regions, o: nat, data: seq<byte>)
    ensures TotalSize(regions[o := data])
         == TotalSize(regions) - (if o in regions then |regions[o]| else 0) + |data|
  {
    TotalSizePick(regions[o := data], o);
    assert regions[o := data] - {o} == regions - {o};
    if o in regions {
      TotalSizePick(regions, o);
    } else {
      assert regions - {o} == regions;
    }
  }

  /** Buffered regions are non-empty and do not overlap. */
  ghost predicate DisjointRegions(regions: Regions) {
    && (forall o :: o in regions ==> regions[o] != [])
    && (forall o, p :: o in regions && p in regions && o < p ==> o + |regions[o]| <= p)
  }

  predicate Covers(regions: Regions, o: nat, at: nat) {
    o in regions && o <= at < o + |regions[o]|
  }

  ghost predicate Buffered(regions: Regions, at: nat) {
    exists o :: Covers(regions, o, at)
  }

  ghost predicate AllBuffered(regions: Regions, from: nat, end: nat) {
    forall at :: from <= at < end ==> Buffered(regions, at)
  }

  /** `list` is the content of the region map in iteration order. */
  ghost predicate Lists(list: seq<(nat, seq<byte>)>, regions: Regions) {
    && (forall i, j :: 0 <= i < j < |list| ==> list[i].0 < list[j].0)
    && (forall i :: 0 <= i < |list| ==> list[i].0 in regions && regions[list[i].0] == list[i].1)
    && (forall o :: o in regions ==> exists i :: 0 <= i < |list| && list[i].0 == o)
  }

  ghost predicate IsGreatest(keys: set<nat>, m: nat) {
    m in keys && forall o :: o in keys ==> o <= m
  }

  lemma {:induction false} GreatestExists(keys: set<nat>)
    requires keys != {}
    ensures exists m :: IsGreatest(keys, m)
    decreases keys
  {
    var some := SomeMember(keys);
    var rest := keys - {some};
    if rest == {} {
      forall o | o in keys
        ensures o <= some
      {
        assert o !in rest;
      }
      assert IsGreatest(keys, some);
    } else {
      GreatestExists(rest);
      var m :| IsGreatest(rest, m);
      var greatest := if m > some then m else some;
      forall o | o in keys
        ensures o <= greatest
      {
        assert o == some || o in rest;
      }
      assert IsGreatest(keys, greatest);
    }
  }

  ghost function Greatest(keys: set<nat>): (m: nat)
    requires keys != {}
    ensures IsGreatest(keys, m)
  {
    GreatestExists(keys);
    var m :| IsGreatest(keys, m);
    m
  }

  /** The content of the region map in iteration order. */
  ghost function Listing(regions: Regions): seq<(nat, seq<byte>)>
    decreases regions.Keys
  {
    if regions == map[] then []
    else
      var last := Greatest(regions.Keys);
      Listing(regions - {last}) + [(last, regions[last])]
  }

  lemma {:induction false} ListingLists(regions: Regions)
    ensures Lists(Listing(regions), regions)
    decreases regions.Keys
  {
    if regions != map[] {
      var last := Greatest(regions.Keys);
      ListingLists(regions - {last});
      ListsExtended(Listing(regions - {last}), regions, last);
    }
  }

  lemma ListsExtended(list: seq<(nat, seq<byte>)>, regions: Regions, last: nat)
    requires IsGreatest(regions.Keys, last) && Lists(list, regions - {last})
    ensures Lists(list + [(last, regions[last])], regions)
  {
    var longer := list + [(last, regions[last])];
    forall o | o in regions
      ensures exists i :: 0 <= i < |longer| && longer[i].0 == o
    {
      if o == last {
        assert longer[|list|].0 == o;
      } else {
        assert o in regions - {last};
        var i :| 0 <= i < |list| && list[i].0 == o;
        assert longer[i].0 == o;
      }
    }
  }

  lemma LastListed(list: seq<(nat, seq<byte>)>, regions: Regions)
    requires Lists(list, regions) && regions != map[]
    ensures list != [] && list[|list| - 1] == (Greatest(regions.Keys), regions[Greatest(regions.Keys)])
  {
    var last := Greatest(regions.Keys);
    var i :| 0 <= i < |list| && list[i].0 == last;
    assert list[|list| - 1].0 in regions.Keys;
    assert list[|list| - 1].0 <= last;
  }

  lemma ListsShortened(list: seq<(nat, seq<byte>)>, regions: Regions, last: nat)
    requires Lists(list, regions) && list != [] && list[|list| - 1].0 == last
    ensures Lists(list[..|list| - 1], regions - {last})
  {
    var init, rest := list[..|list| - 1], regions - {last};
    forall o | o in rest
      ensures exists j :: 0 <= j < |init| && init[j].0 == o
    {
      var j :| 0 <= j < |list| && list[j].0 == o;
      assert init[j].0 == o;
    }
  }

  lemma ListingStep(list: seq<(nat, seq<byte>)>, regions: Regions)
    requires regions != map[] && list != []
    requires list[..|list| - 1] == Listing(regions - {Greatest(regions.Keys)})
    requires list[|list| - 1] == (Greatest(regions.Keys), regions[Greatest(regions.Keys)])
    ensures list == Listing(regions)
  {
    assert list == list[..|list| - 1] + [list[|list| - 1]];
  }

  /** The iteration order is unique. */
  lemma {:induction false} ListsUnique(list: seq<(nat, seq<byte>)>, regions: Regions)
    requires Lists(list, regions)
    ensures list == Listing(regions)
    decreases regions.Keys
  {
    if list == [] {
      assert regions.Keys == {};
      assert regions == map[];
    } else {
      assert list[|list| - 1].0 in regions;
      var last := Greatest(regions.Keys);
      LastListed(list, regions);
      ListsShortened(list, regions, last);
      ListsUnique(list[..|list| - 1], regions - {last});
      ListingStep(list, regions);
    }
  }

  /** `list` holds the regions before all the `rest`. */
  ghost predicate ListsBefore(list: seq<(nat, seq<byte>)>, regions: Regions, rest: set<nat>) {
    && (forall i, j :: 0 <= i < j < |list| ==> list[i].0 < list[j].0)
    && (forall i :: 0 <= i < |list| ==> list[i].0 in regions && regions[list[i].0] == list[i].1)
    && (forall i, o :: 0 <= i < |list| && o in rest ==> list[i].0 < o)
    && (forall o :: o in regions && o !in rest ==> exists i :: 0 <= i < |list| && list[i].0 == o)
  }

  lemma ListNext(list: seq<(nat, seq<byte>)>, regions: Regions, rest: set<nat>, least: nat)
    requires ListsBefore(list, regions, rest) && rest <= regions.Keys
    requires least in rest && forall o :: o in rest ==> least <= o
    ensures ListsBefore(list + [(least, regions[least])], regions, rest - {least})
  {
    var longer := list + [(least, regions[least])];
    forall o | o in regions && o !in rest - {least}
      ensures exists i :: 0 <= i < |longer| && longer[i].0 == o
    {
      if o == least {
        assert longer[|list|].0 == o;
      } else {
        var i :| 0 <= i < |list| && list[i].0 == o;
        assert longer[i].0 == o;
      }
    }
  }

  method ListRegions(regions: Regions) returns (list: seq<(nat, seq<byte>)>)
    ensures Lists(list, regions)
  {
    list := [];
    var rest := regions.Keys;
    while rest != {}
      invariant rest <= regions.Keys && ListsBefore(list, regions, rest)
      decreases |rest|
    {
      var least := LeastKey(rest);
      ListNext(list, regions, rest, least);
      list := list + [(least, regions[least])];
      rest := rest - {least};
    }
  }

  method LeastKey(keys: set<nat>) returns (least: nat)
    requires keys != {}
    ensures least in keys && forall o :: o in keys ==> least <= o
  {
    least :| least in keys;
    var rest := keys - {least};
    while rest != {}
      invariant least in keys && rest <= keys
      invariant forall o :: o in keys && o !in rest ==> least <= o
      decreases |rest|
    {
      var o :| o in rest;
      if o < least {
        least := o;
      }
      rest := rest - {o};
    }
  }

  // ---------------------------------------------------------------------------
  // Counting covered bytes
  // ---------------------------------------------------------------------------

  ghost function CountBuffered(regions: Regions, from: nat, end: nat): nat
    decreases end
  {
    if from >= end then 0
    else CountBuffered(regions, from, end - 1) + if Buffered(regions, end - 1) then 1 else 0
  }

  /** The count reaches the length of the range exactly when every byte is buffered. */
  lemma {:induction false} CountFull(regions: Regions, from: nat, end: nat)
    requires from <= end
    ensures CountBuffered(regions, from, end) <= end - from
    ensures CountBuffered(regions, from, end) == end - from <==> AllBuffered(regions, from, end)
    decreases end
  {
    if from < end {
      CountFull(regions, from, end - 1);
    }
  }

  lemma {:induction false} CountSplit(regions: Regions, from: nat, mid: nat, end: nat)
    requires from <= mid <= end
    ensures CountBuffered(regions, from, end) == CountBuffered(regions, from, mid) + CountBuffered(regions, mid, end)
    decreases end
  {
    if mid < end {
      CountSplit(regions, from, mid, end - 1);
    }
  }

  lemma {:induction false} CountNone(regions: Regions, from: nat, end: nat)
    requires forall at :: from <= at < end ==> !Buffered(regions, at)
    ensures CountBuffered(regions, from, end) == 0
    decreases end
  {
    if from < end {
      CountNone(regions, from, end - 1);
    }
  }

  // ---------------------------------------------------------------------------
  // Reading
  // ---------------------------------------------------------------------------

  /** memcpy of `src` into `buffer` at position `at`. */
  function Blit(buffer: seq<byte>, at: nat, src: seq<byte>): (result: seq<byte>)
    requires at + |src| <= |buffer|
    ensures |result| == |buffer|
    ensures forall i :: 0 <= i < |buffer| ==> result[i] == if at <= i < at + |src| then src[i - at] else buffer[i]
  {
    buffer[..at] + src + buffer[at + |src|..]
  }

  /** `result` holds the buffered bytes of the range, wherever there are some. */
  ghost predicate HoldsBuffered(result: seq<byte>, regions: Regions, from: nat, end: nat)
    requires from <= end <= from + |result|
  {
    forall o, at :: from <= at < end && Covers(regions, o, at) ==> result[at - from] == regions[o][at - o]
  }

  /** Everything buffered from `frontier` up to `end` is in a region from `list[k]` on. */
  ghost predicate RestCovers(list: seq<(nat, seq<byte>)>, k: nat, regions: Regions, frontier: nat, end: nat) {
    forall o, at :: frontier <= at < end && Covers(regions, o, at) ==> k < |list| && list[k].0 <= o
  }

  lemma ListedIndex(list: seq<(nat, seq<byte>)>, regions: Regions, o: nat) returns (i: nat)
    requires Lists(list, regions) && o in regions
    ensures i < |list| && list[i].0 == o && list[i].1 == regions[o]
  {
    i :| i < |list| && list[i].0 == o;
  }

  /** The scan may start at the last region that begins at or before the offset. */
  lemma ScanStart(list: seq<(nat, seq<byte>)>, regions: Regions, k: nat, offset: nat, end: nat)
    requires Lists(list, regions) && DisjointRegions(regions)
    requires k > 0 ==> k < |list| && list[k].0 <= offset
    ensures RestCovers(list, k, regions, offset, end)
  {
    forall o, at | offset <= at < end && Covers(regions, o, at)
      ensures k < |list| && list[k].0 <= o
    {
      var i := ListedIndex(list, regions, o);
      assert forall x, y :: 0 <= x < y < |list| ==> list[x].0 < list[y].0;
    }
  }

  /** A region that is passed by leaves only later regions. */
  lemma ScanNext(list: seq<(nat, seq<byte>)>, regions: Regions, k: nat, frontier: nat, next: nat, end: nat)
    requires Lists(list, regions) && k < |list| && RestCovers(list, k, regions, frontier, end)
    requires frontier <= next && (list[k].0 + |list[k].1| <= next || end <= next)
    ensures RestCovers(list, k + 1, regions, next, end)
  {
    forall o, at | next <= at < end && Covers(regions, o, at)
      ensures k + 1 < |list| && list[k + 1].0 <= o
    {
      var i := ListedIndex(list, regions, o);
      assert list[k].0 <= list[i].0;
      assert i != k;
      assert k < i;
      if k + 1 < i {
        assert list[k + 1].0 < list[i].0;
      }
    }
  }

  /** One overlapping region adds exactly its bytes to the count. */
  lemma OverlapCounts(
      list: seq<(nat, seq<byte>)>, regions: Regions, k: nat, offset: nat, frontier: nat, start: nat, stop: nat,
      end: nat)
    requires k < |list| && list[k].0 in regions && regions[list[k].0] == list[k].1
    requires RestCovers(list, k, regions, frontier, end) && stop <= end
    requires offset <= frontier <= start <= stop
    requires list[k].0 <= start && stop <= list[k].0 + |list[k].1|
    requires frontier < start ==> start == list[k].0
    ensures CountBuffered(regions, offset, stop) == CountBuffered(regions, offset, frontier) + (stop - start)
  {
    var rs := list[k].0;
    forall at | frontier <= at < start
      ensures !Buffered(regions, at)
    {
      assert forall o :: Covers(regions, o, at) ==> rs <= o;
    }
    assert regions[rs] == list[k].1;
    forall at | start <= at < stop
      ensures Buffered(regions, at)
    {
      assert Covers(regions, rs, at);
    }
    CountSplit(regions, offset, frontier, stop);
    CountSplit(regions, frontier, start, stop);
    CountNone(regions, frontier, start);
    CountFull(regions, start, stop);
  }

  /** One overlapping region adds exactly its bytes to the result. */
  lemma OverlapHolds(
      list: seq<(nat, seq<byte>)>, regions: Regions, k: nat, offset: nat, frontier: nat, start: nat, stop: nat,
      end: nat, before: seq<byte>, after: seq<byte>)
    requires DisjointRegions(regions) && k < |list| && list[k].0 in regions && regions[list[k].0] == list[k].1
    requires RestCovers(list, k, regions, frontier, end) && stop <= end
    requires offset <= frontier <= start <= stop <= offset + |before|
    requires list[k].0 <= start && stop <= list[k].0 + |list[k].1|
    requires frontier < start ==> start == list[k].0
    requires HoldsBuffered(before, regions, offset, frontier)
    requires after == Blit(before, start - offset, list[k].1[start - list[k].0..stop - list[k].0])
    ensures HoldsBuffered(after, regions, offset, stop)
  {
    var rs := list[k].0;
    assert regions[rs] == list[k].1;
    forall o, at | offset <= at < stop && Covers(regions, o, at)
      ensures after[at - offset] == regions[o][at - o]
    {
      if frontier <= at {
        assert start <= at;
        assert o == rs;
      }
    }
  }

  /** Behind the last overlapping region nothing of the range is buffered. */
  lemma ScanDone(list: seq<(nat, seq<byte>)>, regions: Regions, k: nat, offset: nat, frontier: nat, end: nat)
    requires RestCovers(list, k, regions, frontier, end) && offset <= frontier <= end
    requires k < |list| ==> list[k].0 >= end
    ensures CountBuffered(regions, offset, end) == CountBuffered(regions, offset, frontier)
    ensures forall o, at :: frontier <= at < end ==> !Covers(regions, o, at)
  {
    assert forall o, at :: frontier <= at < end ==> !Covers(regions, o, at);
    CountSplit(regions, offset, frontier, end);
    CountNone(regions, frontier, end);
  }

  /** The scan starts at the last region that begins at or before the offset. */
  predicate IsFirst(list: seq<(nat, seq<byte>)>, offset: nat, k: nat) {
    && k <= |list|
    && (k > 0 ==> k < |list| && list[k].0 <= offset)
    && (k + 1 < |list| ==> offset < list[k + 1].0)
  }

  function First(list: seq<(nat, seq<byte>)>, offset: nat): (k: nat)
    ensures k <= |list| && (k > 0 ==> k < |list| && list[k].0 <= offset)
  {
    if list == [] then 0
    else
      var last := |list| - 1;
      if list[last].0 <= offset then last else First(list[..last], offset)
  }

  ghost predicate ByOffset(list: seq<(nat, seq<byte>)>) {
    forall i, j :: 0 <= i < j < |list| ==> list[i].0 < list[j].0
  }

  lemma {:induction false} FirstIs(list: seq<(nat, seq<byte>)>, offset: nat, k: nat)
    requires ByOffset(list) && IsFirst(list, offset, k)
    ensures First(list, offset) == if list == [] then 0 else k
    decreases |list|
  {
    if list != [] {
      var last := |list| - 1;
      if list[last].0 <= offset {
        assert forall i :: 0 <= i < last ==> list[i].0 < list[last].0;
      } else {
        FirstIs(list[..last], offset, if k == last + 1 then last else k);
      }
    }
  }

  method FirstCandidate(list: seq<(nat, seq<byte>)>, offset: nat) returns (k: nat)
    requires ByOffset(list)
    ensures k == First(list, offset)
  {
    k := 0;
    while k < |list| && list[k].0 <= offset
      invariant k <= |list|
      invariant k > 0 ==> list[k - 1].0 <= offset
    {
      k := k + 1;
    }
    if k > 0 {
      k := k - 1;
    }
    FirstIs(list, offset, k);
  }

  function OverlapStart(region: (nat, seq<byte>), offset: nat): nat {
    if region.0 > offset then region.0 else offset
  }

  function OverlapStop(region: (nat, seq<byte>), reqEnd: nat): nat {
    if region.0 + |region.1| < reqEnd then region.0 + |region.1| else reqEnd
  }

  predicate InRange(region: (nat, seq<byte>), offset: nat, size: nat) {
    region.0 < offset + size && offset < region.0 + |region.1|
  }

  /** The overlap of a region with the range, copied to its place. */
  function CopyRegion(region: (nat, seq<byte>), offset: nat, bytes: seq<byte>): (result: seq<byte>)
    requires InRange(region, offset, |bytes|)
    ensures |result| == |bytes|
  {
    var start, stop := OverlapStart(region, offset), OverlapStop(region, offset + |bytes|);
    Blit(bytes, start - offset, region.1[start - region.0..stop - region.0])
  }

  function OverlapLength(region: (nat, seq<byte>), offset: nat, size: nat): nat
    requires InRange(region, offset, size)
  {
    OverlapStop(region, offset + size) - OverlapStart(region, offset)
  }

  /** What the copy loop does from the k-th region on: the bytes it ends with and
      the lengths it adds up, counting a byte once for every region that holds it. */
  function Scan(list: seq<(nat, seq<byte>)>, k: nat, offset: nat, bytes: seq<byte>): (result: (seq<byte>, nat))
    requires k <= |list|
    ensures |result.0| == |bytes|
    decreases |list| - k
  {
    if k == |list| || list[k].0 >= offset + |bytes| then (bytes, 0)
    else if list[k].0 + |list[k].1| <= offset then Scan(list, k + 1, offset, bytes)
    else
      var rest := Scan(list, k + 1, offset, CopyRegion(list[k], offset, bytes));
      (rest.0, OverlapLength(list[k], offset, |bytes|) + rest.1)
  }

  function Zeros(n: nat): (s: seq<byte>)
    ensures |s| == n && forall i :: 0 <= i < n ==> s[i] == 0
  {
    seq(n, _ => 0)
  }

  /** What the buffer answers to a read; a partial hit is no hit. */
  function Hit(list: seq<(nat, seq<byte>)>, offset: nat, size: nat): (result: Option<seq<byte>>)
    ensures result.Some? ==> |result.value| == size
  {
    var (bytes, covered) := Scan(list, First(list, offset), offset, Zeros(size));
    if covered == 0 || covered < size then None else Some(bytes)
  }

  /** Everything before `frontier` is done, everything behind is from the k-th region on. */
  ghost predicate ScanAt(regions: Regions, k: nat, offset: nat, frontier: nat, end: nat) {
    && k <= |Listing(regions)| && offset <= frontier <= end
    && (k < |Listing(regions)| ==> frontier <= offset || frontier <= Listing(regions)[k].0)
    && RestCovers(Listing(regions), k, regions, frontier, end)
  }

  lemma ListingAt(regions: Regions, k: nat)
    requires k < |Listing(regions)|
    ensures Listing(regions)[k].0 in regions && regions[Listing(regions)[k].0] == Listing(regions)[k].1
  {
    ListingLists(regions);
  }

  lemma ScanBegins(regions: Regions, offset: nat, end: nat)
    requires DisjointRegions(regions) && offset <= end
    ensures ScanAt(regions, First(Listing(regions), offset), offset, offset, end)
  {
    ListingLists(regions);
    ScanStart(Listing(regions), regions, First(Listing(regions), offset), offset, end);
  }

  lemma ScanSkips(regions: Regions, k: nat, offset: nat, frontier: nat, end: nat)
    requires DisjointRegions(regions) && ScanAt(regions, k, offset, frontier, end) && k < |Listing(regions)|
    requires Listing(regions)[k].0 + |Listing(regions)[k].1| <= offset
    ensures ScanAt(regions, k + 1, offset, frontier, end)
  {
    ListingLists(regions);
    ScanFrontier(Listing(regions), regions, k);
    ScanNext(Listing(regions), regions, k, frontier, frontier, end);
  }

  lemma ScanTakes(regions: Regions, k: nat, offset: nat, frontier: nat, size: nat)
    requires DisjointRegions(regions) && ScanAt(regions, k, offset, frontier, offset + size)
    requires k < |Listing(regions)| && InRange(Listing(regions)[k], offset, size)
    ensures ScanAt(regions, k + 1, offset, OverlapStop(Listing(regions)[k], offset + size), offset + size)
    ensures CountBuffered(regions, offset, OverlapStop(Listing(regions)[k], offset + size))
         == CountBuffered(regions, offset, frontier) + OverlapLength(Listing(regions)[k], offset, size)
  {
    var list := Listing(regions);
    var start, stop := OverlapStart(list[k], offset), OverlapStop(list[k], offset + size);
    ListingLists(regions);
    ScanFrontier(list, regions, k);
    ScanNext(list, regions, k, frontier, stop, offset + size);
    OverlapCounts(list, regions, k, offset, frontier, start, stop, offset + size);
  }

  lemma ScanPlaces(regions: Regions, k: nat, offset: nat, frontier: nat, bytes: seq<byte>)
    requires DisjointRegions(regions) && ScanAt(regions, k, offset, frontier, offset + |bytes|)
    requires k < |Listing(regions)| && InRange(Listing(regions)[k], offset, |bytes|)
    requires HoldsBuffered(bytes, regions, offset, frontier)
    ensures offset <= OverlapStop(Listing(regions)[k], offset + |bytes|)
    ensures HoldsBuffered(CopyRegion(Listing(regions)[k], offset, bytes), regions, offset,
                          OverlapStop(Listing(regions)[k], offset + |bytes|))
  {
    var list := Listing(regions);
    ListingAt(regions, k);
    OverlapHolds(list, regions, k, offset, frontier, OverlapStart(list[k], offset),
                 OverlapStop(list[k], offset + |bytes|), offset + |bytes|, bytes, CopyRegion(list[k], offset, bytes));
  }

  /** Over disjoint regions the scan counts exactly the buffered bytes. */
  lemma {:induction false} ScanCounts(regions: Regions, k: nat, offset: nat, frontier: nat, bytes: seq<byte>)
    requires DisjointRegions(regions) && ScanAt(regions, k, offset, frontier, offset + |bytes|)
    ensures CountBuffered(regions, offset, frontier) + Scan(Listing(regions), k, offset, bytes).1
         == CountBuffered(regions, offset, offset + |bytes|)
    decreases |Listing(regions)| - k
  {
    var list, end := Listing(regions), offset + |bytes|;
    if k == |list| || list[k].0 >= end {
      ScanDone(list, regions, k, offset, frontier, end);
    } else if list[k].0 + |list[k].1| <= offset {
      ScanSkips(regions, k, offset, frontier, end);
      ScanCounts(regions, k + 1, offset, frontier, bytes);
    } else {
      ScanTakes(regions, k, offset, frontier, |bytes|);
      ScanCounts(regions, k + 1, offset, OverlapStop(list[k], end), CopyRegion(list[k], offset, bytes));
    }
  }

  /** Over disjoint regions the scan places every buffered byte. */
  lemma {:induction false} ScanHolds(regions: Regions, k: nat, offset: nat, frontier: nat, bytes: seq<byte>)
    requires DisjointRegions(regions) && ScanAt(regions, k, offset, frontier, offset + |bytes|)
    requires HoldsBuffered(bytes, regions, offset, frontier)
    ensures HoldsBuffered(Scan(Listing(regions), k, offset, bytes).0, regions, offset, offset + |bytes|)
    decreases |Listing(regions)| - k
  {
    var list, end := Listing(regions), offset + |bytes|;
    if k == |list| || list[k].0 >= end {
      ScanDone(list, regions, k, offset, frontier, end);
    } else if list[k].0 + |list[k].1| <= offset {
      ScanSkips(regions, k, offset, frontier, end);
      ScanHolds(regions, k + 1, offset, frontier, bytes);
    } else {
      ScanTakes(regions, k, offset, frontier, |bytes|);
      ScanPlaces(regions, k, offset, frontier, bytes);
      ScanHolds(regions, k + 1, offset, OverlapStop(list[k], end), CopyRegion(list[k], offset, bytes));
    }
  }

  /** The scan of a read, for disjoint regions. */
  lemma ScanWhole(regions: Regions, offset: nat, size: nat)
    requires DisjointRegions(regions)
    ensures var result := Scan(Listing(regions), First(Listing(regions), offset), offset, Zeros(size));
      && result.1 == CountBuffered(regions, offset, offset + size)
      && HoldsBuffered(result.0, regions, offset, offset + size)
  {
    var first := First(Listing(regions), offset);
    ScanBegins(regions, offset, offset + size);
    ScanCounts(regions, first, offset, offset, Zeros(size));
    ScanHolds(regions, first, offset, offset, Zeros(size));
  }

  /** Over disjoint regions the buffer answers exactly if it holds every byte, and
      then with those bytes. */
  lemma HitTidy(regions: Regions, offset: nat, size: nat)
    requires DisjointRegions(regions)
    ensures Hit(Listing(regions), offset, size).Some? <==> size > 0 && AllBuffered(regions, offset, offset + size)
    ensures Hit(Listing(regions), offset, size).Some? ==>
      HoldsBuffered(Hit(Listing(regions), offset, size).value, regions, offset, offset + size)
  {
    ScanWhole(regions, offset, size);
    CountFull(regions, offset, offset + size);
  }

  /** Copies the overlap of every region with the range and adds up the lengths. */
  method CopyOverlaps(list: seq<(nat, seq<byte>)>, first: nat, offset: nat, size: nat)
    returns (bytes: seq<byte>, covered: nat)
    requires first <= |list|
    ensures |bytes| == size && (bytes, covered) == Scan(list, first, offset, Zeros(size))
  {
    var reqEnd := offset + size;
    bytes, covered := Zeros(size), 0;
    var k := first;
    ghost var whole := Scan(list, first, offset, bytes);
    while k < |list|
      invariant k <= |list| && |bytes| == size
      invariant whole.0 == Scan(list, k, offset, bytes).0
      invariant whole.1 == covered + Scan(list, k, offset, bytes).1
    {
      var regStart, regEnd := list[k].0, list[k].0 + |list[k].1|;
      if regStart >= reqEnd {
        break;
      }
      if regEnd > offset {
        var start := if regStart > offset then regStart else offset;
        var stop := if regEnd < reqEnd then regEnd else reqEnd;
        assert CopyRegion(list[k], offset, bytes)
            == Blit(bytes, start - offset, list[k].1[start - regStart..stop - regStart]);
        bytes := Blit(bytes, start - offset, list[k].1[start - regStart..stop - regStart]);
        covered := covered + (stop - start);
      }
      k := k + 1;
    }
  }

  lemma ScanFrontier(list: seq<(nat, seq<byte>)>, regions: Regions, k: nat)
    requires Lists(list, regions) && DisjointRegions(regions) && k < |list|
    ensures k + 1 < |list| ==> list[k].0 + |list[k].1| <= list[k + 1].0
  {
    if k + 1 < |list| {
      assert list[k].0 < list[k + 1].0;
      assert list[k].0 in regions && list[k + 1].0 in regions;
    }
  }

  /** Reads a range out of the buffered regions; a partial hit is no hit. */
  method ReadRegions(regions: Regions, offset: nat, size: nat) returns (result: Option<seq<byte>>)
    ensures result == Hit(Listing(regions), offset, size)
    ensures DisjointRegions(regions) ==>
      (result.Some? <==> size > 0 && AllBuffered(regions, offset, offset + size))
    ensures DisjointRegions(regions) && result.Some? ==>
      |result.value| == size && HoldsBuffered(result.value, regions, offset, offset + size)
  {
    var list := ListRegions(regions);
    ListsUnique(list, regions);
    if DisjointRegions(regions) {
      HitTidy(regions, offset, size);
    }
    var first := FirstCandidate(list, offset);
    var bytes, covered := CopyOverlaps(list, first, offset, size);
    if covered == 0 || covered < size {
      result := None;
    } else {
      result := Some(bytes);
    }
  }

  // ---------------------------------------------------------------------------
  // The cache
  // ---------------------------------------------------------------------------

  /** The regions after buffering a small write: the region with the same start
      is replaced, and a full buffer is flushed. */
  function Put(regions: Regions, offset: nat, data: seq<byte>): Regions {
    regions[offset := data]
  }

  ghost predicate IsFlushOf(flushed: seq<FlushRegion>, filepath: string, list: seq<(nat, seq<byte>)>) {
    && |flushed| == |list|
    && forall i :: 0 <= i < |list| ==> flushed[i] == FlushRegion(filepath, list[i].0, list[i].1)
  }

  ghost predicate ListsFlush(flushed: seq<FlushRegion>, filepath: string, regions: Regions) {
    IsFlushOf(flushed, filepath, Listing(regions))
  }

  method FlushLocked(cache: FdCache) returns (emptied: FdCache, flushed: seq<FlushRegion>)
    ensures emptied == cache.(regions := map[], totalBytes := 0)
    ensures ListsFlush(flushed, cache.filepath, cache.regions)
  {
    var list := ListRegions(cache.regions);
    ListsUnique(list, cache.regions);
    flushed := [];
    for i := 0 to |list|
      invariant |flushed| == i
      invariant forall j :: 0 <= j < i ==> flushed[j] == FlushRegion(cache.filepath, list[j].0, list[j].1)
    {
      flushed := flushed + [FlushRegion(cache.filepath, list[i].0, list[i].1)];
    }
    assert IsFlushOf(flushed, cache.filepath, list);
    emptied := cache.(regions := map[], totalBytes := 0);
  }

  const EMPTY_CACHE := FdCache("", ReadThrough, map[], 0)

  /** The cache entry that a write to a descriptor finds or creates. */
  function Opened(caches: map<int, FdCache>, fd: int, filepath: string, policy: ReadPolicy): FdCache {
    var cache := if fd in caches then caches[fd] else EMPTY_CACHE;
    if cache.filepath == "" then cache.(filepath := filepath, policy := policy) else cache
  }

  class ContentManager {
    const minLabelSize: nat
    const defaultPolicy: ReadPolicy
    var caches: map<int, FdCache>

    /** `totalBytes` is the sum of the region sizes. Between calls it stays below
        a positive `minLabelSize`. */
    ghost predicate Valid()
      reads this
    {
      forall fd :: fd in caches ==>
        && caches[fd].totalBytes == TotalSize(caches[fd].regions)
        && (minLabelSize > 0 ==> caches[fd].totalBytes < minLabelSize)
    }

    constructor (minLabelSize: nat, defaultPolicy: ReadPolicy)
      ensures Valid() && caches == map[]
      ensures this.minLabelSize == minLabelSize && this.defaultPolicy == defaultPolicy
    {
      this.minLabelSize, this.defaultPolicy, this.caches := minLabelSize, defaultPolicy, map[];
    }

    method CacheWrite(fd: int, filepath: string, offset: nat, data: seq<byte>) returns (flushed: seq<FlushRegion>)
      requires Valid()
      modifies this
      ensures Valid()
      ensures
        var cache := Opened(old(caches), fd, filepath, defaultPolicy);
        var regions := Put(cache.regions, offset, data);
        if TotalSize(regions) >= minLabelSize then
          && ListsFlush(flushed, cache.filepath, regions)
          && caches == old(caches)[fd := cache.(regions := map[], totalBytes := 0)]
        else
          && flushed == []
          && caches == old(caches)[fd := cache.(regions := regions, totalBytes := TotalSize(regions))]
      ensures fd in old(caches) && old(caches)[fd].filepath != "" ==>
        caches[fd].filepath == old(caches)[fd].filepath && caches[fd].policy == old(caches)[fd].policy
      ensures fd !in old(caches) ==> caches[fd].filepath == filepath && caches[fd].policy == defaultPolicy
    {
      var cache := if fd in caches then caches[fd] else EMPTY_CACHE;
      if cache.filepath == "" {
        cache := cache.(filepath := filepath, policy := defaultPolicy);
      }
      TotalSizePut(cache.regions, offset, data);
      var total := cache.totalBytes;
      if offset in cache.regions {
        TotalSizePick(cache.regions, offset);
        total := total - |cache.regions[offset]|;
      }
      cache := cache.(regions := cache.regions[offset := data], totalBytes := total + |data|);
      flushed := [];
      if cache.totalBytes >= minLabelSize {
        cache, flushed := FlushLocked(cache);
      }
      caches := caches[fd := cache];
    }

    /** Hits exactly when every requested byte is buffered. */
    method CacheRead(fd: int, offset: nat, size: nat) returns (result: Option<seq<byte>>)
      requires Valid()
      ensures result == if fd in caches && caches[fd].policy == ReadThrough
        then Hit(Listing(caches[fd].regions), offset, size) else None
      ensures fd in caches && caches[fd].policy == ReadThrough && DisjointRegions(caches[fd].regions) ==>
        && (result.Some? <==> size > 0 && AllBuffered(caches[fd].regions, offset, offset + size))
        && (result.Some? ==>
              |result.value| == size && HoldsBuffered(result.value, caches[fd].regions, offset, offset + size))
    {
      if fd !in caches || caches[fd].policy == WriteOnly {
        return None;
      }
      result := ReadRegions(caches[fd].regions, offset, size);
    }

    method Flush(fd: int) returns (flushed: seq<FlushRegion>)
      requires Valid()
      modifies this
      ensures Valid()
      ensures fd !in old(caches) ==> flushed == [] && caches == old(caches)
      ensures fd in old(caches) ==>
        && ListsFlush(flushed, old(caches)[fd].filepath, old(caches)[fd].regions)
        && caches == old(caches)[fd := old(caches)[fd].(regions := map[], totalBytes := 0)]
    {
      if fd !in caches {
        return [];
      }
      var cache;
      cache, flushed := FlushLocked(caches[fd]);
      caches := caches[fd := cache];
    }
  }
}
