/** The label manager: large reads and writes are split into labels of bounded
    size, and the replies of the read labels are put back together. */
module LabelManager {
  import opened Basics
  import opened FileStore
  import opened Labels

  datatype Chunk = Chunk(offset: nat, length: nat)

  /** The ranges of the labels that cover `size` bytes from `offset` on. */
  function Chunks(offset: nat, size: nat, max: nat): seq<Chunk>
    requires max > 0
    decreases size
  {
    if size == 0 then []
    else [Chunk(offset, Min(size, max))] + Chunks(offset + Min(size, max), size - Min(size, max), max)
  }

  /** The number of labels, computed in 64-bit arithmetic. */
  function LabelCount(size: nat, max: nat): nat
    requires 0 < max
  {
    if size == 0 then 0 else (size + max - 1) % TWO_TO_THE_64 / max
  }

  /** The chunks cover the range from left to right without gap or overlap, none
      is empty or longer than `max`, and all but the last are full. */
  ghost predicate Tiles(chunks: seq<Chunk>, offset: nat, size: nat, max: nat) {
    && (chunks == [] <==> size == 0)
    && (chunks != [] ==> chunks[0].offset == offset)
    && (chunks != [] ==> chunks[|chunks| - 1].offset + chunks[|chunks| - 1].length == offset + size)
    && (forall i, j :: 0 <= i < j < |chunks| && j == i + 1 ==> chunks[j].offset == chunks[i].offset + chunks[i].length)
    && (forall i :: 0 <= i < |chunks| ==> 0 < chunks[i].length <= max)
    && (forall i :: 0 <= i < |chunks| - 1 ==> chunks[i].length == max)
  }

  lemma {:induction false} ChunksTile(offset: nat, size: nat, max: nat)
    requires max > 0
    ensures Tiles(Chunks(offset, size, max), offset, size, max)
    decreases size
  {
    if size > 0 {
      var n := Min(size, max);
      ChunksTile(offset + n, size - n, max);
    }
  }

  lemma {:induction false} ChunksApart(chunks: seq<Chunk>, offset: nat, size: nat, max: nat, i: nat, j: nat)
    requires Tiles(chunks, offset, size, max) && i < j < |chunks|
    ensures chunks[i].offset + chunks[i].length <= chunks[j].offset
    decreases j
  {
    if i + 1 < j {
      ChunksApart(chunks, offset, size, max, i, j - 1);
    }
  }

  lemma ChunksInside(chunks: seq<Chunk>, offset: nat, size: nat, max: nat, i: nat)
    requires Tiles(chunks, offset, size, max) && i < |chunks|
    ensures offset <= chunks[i].offset && chunks[i].offset + chunks[i].length <= offset + size
  {
    if 0 < i {
      ChunksApart(chunks, offset, size, max, 0, i);
    }
    if i < |chunks| - 1 {
      ChunksApart(chunks, offset, size, max, i, |chunks| - 1);
    }
  }

  /** The chunk count is the quotient rounded up: one chunk less is too few. */
  lemma {:induction false} ChunksNumber(offset: nat, size: nat, max: nat)
    requires max > 0
    ensures var n := |Chunks(offset, size, max)|; size <= n * max < size + max
    decreases size
  {
    if size > 0 {
      var m := Min(size, max);
      var rest := Chunks(offset + m, size - m, max);
      ChunksNumber(offset + m, size - m, max);
      assert (1 + |rest|) * max == max + |rest| * max;
    }
  }

  lemma DivUnique(x: nat, m: nat, q: nat)
    requires m > 0 && q * m <= x < q * m + m
    ensures x / m == q
  {
    var d := x / m;
    assert d * m <= x < d * m + m;
    assert d < q ==> (d + 1) * m <= q * m;
    assert d > q ==> (q + 1) * m <= d * m;
  }

  /** The label count is the number of chunks unless the sum wraps around; then
      it is 0. */
  lemma LabelCountExact(offset: nat, size: nat, max: nat)
    requires 0 < max < TWO_TO_THE_64 && size < TWO_TO_THE_64
    ensures LabelCount(size, max) == |Chunks(offset, size, max)| <==> size == 0 || size + max <= TWO_TO_THE_64
    ensures size > 0 && size + max > TWO_TO_THE_64 ==> LabelCount(size, max) == 0
  {
    ChunksNumber(offset, size, max);
    var n, sum := |Chunks(offset, size, max)|, size + max - 1;
    if size > 0 {
      if sum < TWO_TO_THE_64 {
        assert sum % TWO_TO_THE_64 == sum;
        DivUnique(sum, max, n);
      } else {
        assert sum % TWO_TO_THE_64 == sum - TWO_TO_THE_64;
        DivUnique(sum - TWO_TO_THE_64, max, 0);
      }
    }
  }

  // ---------------------------------------------------------------------------
  // Labels and replies
  // ---------------------------------------------------------------------------

  function WriteLabel(id: nat, path: string, chunk: Chunk, appId: nat): Label {
    Label(id, Write, MemoryPtr(0, chunk.length), FilePath(path, chunk.offset, chunk.length), chunk.length,
          path, appId, Attributes("write", 1, 0, 0, 0, 0), "", [], [], 0, NO_AGGREGATION)
  }

  function ReadLabel(id: nat, path: string, chunk: Chunk, appId: nat): Label {
    Label(id, Read, FilePath(path, chunk.offset, chunk.length), MemoryPtr(0, chunk.length), chunk.length,
          path, appId, Attributes("read", 1, 0, 0, 0, 0), "", [], [], 0, NO_AGGREGATION)
  }

  lemma WriteLabelAsks(id: nat, path: string, chunk: Chunk, appId: nat, warehouse: Warehouse)
    ensures OpOf(WriteLabel(id, path, chunk, appId), warehouse)
         == WriteOp(id, path, chunk.offset, Staged(warehouse, id))
    ensures 0 < chunk.length && chunk.offset + chunk.length < TWO_TO_THE_64 ==>
      WellFormed(WriteLabel(id, path, chunk, appId))
  {
  }

  /** Executing the label of a chunk reads the range of the chunk. */
  lemma ReadLabelAsks(id: nat, path: string, chunk: Chunk, appId: nat, warehouse: Warehouse)
    ensures OpOf(ReadLabel(id, path, chunk, appId), warehouse) == ReadOp(id, path, chunk.offset, chunk.length)
    ensures 0 < chunk.length && chunk.offset + chunk.length < TWO_TO_THE_64 ==>
      WellFormed(ReadLabel(id, path, chunk, appId))
  {
  }

  /** The device after a worker executed a write label with this chunk staged. */
  function Stored(l: Label, chunk: seq<byte>, device: Store): Store {
    Step(OpOf(l, map[l.id := chunk]), State(device, map[])).store
  }

  /** What a worker that executes a read label puts into the reply. */
  function Fetched(l: Label, device: Store): seq<byte>
    requires l.kind == Read
  {
    Step(OpOf(l, map[]), State(device, map[])).results[l.id]
  }

  /** A reply: none before the timeout, or the completion of the label. */
  datatype Reply = NoReply | Complete(data: seq<byte>) | Failed(error: string)

  datatype Pending = Pending(request: Label, reply: Reply)

  lemma WriteNext(store: Store, path: string, offset: nat, data: seq<byte>, pos: nat, n: nat)
    requires pos + n <= |data|
    ensures WriteBytes(WriteBytes(store, path, offset, data[..pos]), path, offset + pos, data[pos..pos + n])
         == WriteBytes(store, path, offset, data[..pos + n])
  {
    WriteTwice(store, path, offset, data[..pos], data[pos..pos + n]);
    assert data[..pos] + data[pos..pos + n] == data[..pos + n];
  }

  /** Executing the next label of a split write extends what is written. */
  lemma StoredNext(
      store: Store, path: string, offset: nat, data: seq<byte>, pos: nat, n: nat, id: nat, appId: nat)
    requires pos + n <= |data|
    ensures Stored(WriteLabel(id, path, Chunk(offset + pos, n), appId), data[pos..pos + n],
                   WriteBytes(store, path, offset, data[..pos]))
         == WriteBytes(store, path, offset, data[..pos + n])
  {
    var chunk := data[pos..pos + n];
    WriteLabelAsks(id, path, Chunk(offset + pos, n), appId, map[id := chunk]);
    WriteNext(store, path, offset, data, pos, n);
  }

  lemma IssuedSnoc(ids: seq<nat>, last: nat, id: nat)
    requires IssuedAfter(ids, last) && LastOf(ids, last) < id
    ensures IssuedAfter(ids + [id], last) && LastOf(ids + [id], last) == id
  {
  }

  /** Ids that were issued one after the other: ascending, and above `last`. */
  ghost predicate IssuedAfter(ids: seq<nat>, last: nat) {
    && (forall i :: 0 <= i < |ids| ==> last < ids[i])
    && (forall i, j :: 0 <= i < j < |ids| ==> ids[i] < ids[j])
  }

  function LastOf(ids: seq<nat>, last: nat): nat {
    if ids == [] then last else ids[|ids| - 1]
  }

  /** The label manager above a device that applies every published label at once. */
  class LabelManager {
    const maxLabelSize: nat
    const appId: nat
    var device: Store
    var lastId: nat

    constructor (maxLabelSize: nat, appId: nat, device: Store)
      ensures this.maxLabelSize == maxLabelSize && this.appId == appId && this.device == device && lastId == 0
    {
      this.maxLabelSize, this.appId, this.device, this.lastId := maxLabelSize, appId, device, 0;
    }

    /** Some id above all ids issued before; how far above depends on the clock. */
    method GenerateLabelId() returns (id: nat)
      modifies this`lastId
      ensures old(lastId) < id && lastId == id
    {
      id :| lastId < id;
      lastId := id;
    }

    /** Splits a write into labels. `remaining` is what is left to publish. */
    method PublishWrite(path: string, offset: nat, data: seq<byte>) returns (labels: seq<Label>, ghost ids: seq<nat>)
      requires maxLabelSize > 0
      modifies this
      ensures device == WriteBytes(old(device), path, offset, data)
      ensures |ids| == |Chunks(offset, |data|, maxLabelSize)|
      ensures labels == WriteLabels(ids, path, Chunks(offset, |data|, maxLabelSize), appId)
      ensures IssuedAfter(ids, old(lastId)) && lastId == LastOf(ids, old(lastId))
    {
      labels, ids := [], [];
      var remaining: nat, pos: nat := |data|, 0;
      ghost var chunks := Chunks(offset, |data|, maxLabelSize);
      WriteNothing(device, path, offset);
      while remaining > 0
        invariant pos + remaining == |data| && |labels| == |ids|
        invariant IssuedAfter(ids, old(lastId)) && lastId == LastOf(ids, old(lastId))
        invariant |labels| <= |chunks| && chunks[|labels|..] == Chunks(offset + pos, remaining, maxLabelSize)
        invariant forall i :: 0 <= i < |labels| ==> labels[i] == WriteLabel(ids[i], path, chunks[i], appId)
        invariant device == WriteBytes(old(device), path, offset, data[..pos])
        decreases remaining
      {
        var chunkSize := Min(remaining, maxLabelSize);
        var chunk := data[pos..pos + chunkSize];
        ghost var rest := Chunks(offset + pos, remaining, maxLabelSize);
        assert chunks[|labels|] == rest[0] == Chunk(offset + pos, chunkSize);
        assert chunks[|labels| + 1..] == rest[1..];
        var id := GenerateLabelId();
        var l := WriteLabel(id, path, Chunk(offset + pos, chunkSize), appId);
        labels := labels + [l];
        IssuedSnoc(ids, old(lastId), id);
        ids := ids + [id];
        StoredNext(old(device), path, offset, data, pos, chunkSize, id, appId);
        device := Stored(l, chunk, device);
        pos := pos + chunkSize;
        remaining := remaining - chunkSize;
      }
      assert data[..pos] == data;
    }

    /** Splits a read into labels; each is answered with what executing it returns. */
    method PublishRead(path: string, offset: nat, size: nat) returns (pending: seq<Pending>, ghost ids: seq<nat>)
      requires maxLabelSize > 0
      modifies this`lastId
      ensures |pending| == |ids| == |Chunks(offset, size, maxLabelSize)|
      ensures forall i :: 0 <= i < |pending| ==>
        pending[i].request == ReadLabel(ids[i], path, Chunks(offset, size, maxLabelSize)[i], appId)
      ensures Answers(pending, Chunks(offset, size, maxLabelSize), path, device)
      ensures offset + size < TWO_TO_THE_64 ==> forall i :: 0 <= i < |pending| ==> WellFormed(pending[i].request)
      ensures IssuedAfter(ids, old(lastId)) && lastId == LastOf(ids, old(lastId))
    {
      pending, ids := [], [];
      var remaining: nat, pos: nat := size, 0;
      ghost var chunks := Chunks(offset, size, maxLabelSize);
      while remaining > 0
        invariant pos + remaining == size && |pending| == |ids|
        invariant IssuedAfter(ids, old(lastId)) && lastId == LastOf(ids, old(lastId))
        invariant |pending| <= |chunks| && chunks[|pending|..] == Chunks(offset + pos, remaining, maxLabelSize)
        invariant forall i :: 0 <= i < |pending| ==> pending[i].request == ReadLabel(ids[i], path, chunks[i], appId)
        invariant Answers(pending, chunks[..|pending|], path, device)
        decreases remaining
      {
        var chunkSize := Min(remaining, maxLabelSize);
        ghost var rest := Chunks(offset + pos, remaining, maxLabelSize);
        assert chunks[|pending|] == rest[0] == Chunk(offset + pos, chunkSize);
        assert chunks[|pending| + 1..] == rest[1..];
        var chunk := Chunk(offset + pos, chunkSize);
        var id := GenerateLabelId();
        var l := ReadLabel(id, path, chunk, appId);
        ReadAnswered(id, path, chunk, appId, device);
        assert chunks[..|pending| + 1] == chunks[..|pending|] + [chunk];
        pending := pending + [Pending(l, Complete(Fetched(l, device)))];
        IssuedSnoc(ids, old(lastId), id);
        ids := ids + [id];
        pos := pos + chunkSize;
        remaining := remaining - chunkSize;
      }
      assert chunks[..|pending|] == chunks;
      RequestsWellFormed(pending, ids, path, offset, size, maxLabelSize, appId);
    }

    /** Concatenates the data of the replies in order; a label without a reply
        contributes nothing and the first failure is reported. */
    method WaitRead(pending: seq<Pending>) returns (result: Result<seq<byte>, string>)
      ensures result == Collect(pending)
      ensures Gathers(result, pending)
    {
      CollectMeans(pending);
      var data: seq<byte> := [];
      assert pending[0..] == pending;
      PrependNothing(Collect(pending));
      for i := 0 to |pending|
        invariant Collect(pending) == Prepend(data, Collect(pending[i..]))
      {
        assert pending[i..][1..] == pending[i + 1..];
        match pending[i].reply {
          case NoReply =>
          case Failed(error) => return Err(error);
          case Complete(bytes) =>
            PrependTwice(data, bytes, Collect(pending[i + 1..]));
            data := data + bytes;
        }
      }
      assert pending[|pending|..] == [] && data + [] == data;
      result := Ok(data);
    }
  }

  lemma WriteNothing(store: Store, path: string, offset: nat)
    ensures WriteBytes(store, path, offset, []) == store
  {
  }

  function Collect(pending: seq<Pending>): Result<seq<byte>, string> {
    if pending == [] then Ok([])
    else
      match pending[0].reply
      case NoReply => Collect(pending[1..])
      case Failed(error) => Err(error)
      case Complete(bytes) => Prepend(bytes, Collect(pending[1..]))
  }

  /** The data of each reply; a label without one has none. */
  function DataOf(pending: seq<Pending>): (parts: seq<seq<byte>>)
    ensures |parts| == |pending|
    ensures forall i :: 0 <= i < |pending| ==>
      parts[i] == if pending[i].reply.Complete? then pending[i].reply.data else []
  {
    seq(|pending|, i requires 0 <= i < |pending| =>
      if pending[i].reply.Complete? then pending[i].reply.data else [])
  }

  /** The first reply that failed has this error. */
  ghost predicate FirstFailure(pending: seq<Pending>, error: string) {
    exists i :: 0 <= i < |pending| && pending[i].reply == Failed(error)
             && forall j :: 0 <= j < i ==> !pending[j].reply.Failed?
  }

  lemma FailureLater(pending: seq<Pending>, error: string)
    requires pending != [] && !pending[0].reply.Failed? && FirstFailure(pending[1..], error)
    ensures FirstFailure(pending, error)
  {
    var rest := pending[1..];
    var i :| 0 <= i < |rest| && rest[i].reply == Failed(error) && forall j :: 0 <= j < i ==> !rest[j].reply.Failed?;
    forall j | 0 <= j < i + 1
      ensures !pending[j].reply.Failed?
    {
      assert j > 0 ==> pending[j] == rest[j - 1];
    }
    assert pending[i + 1].reply == Failed(error);
  }

  /** An error exactly if some reply failed, and then the first one, otherwise the
      data of all completed replies. */
  ghost predicate Gathers(result: Result<seq<byte>, string>, pending: seq<Pending>) {
    if result.Ok? then
      (forall i :: 0 <= i < |pending| ==> !pending[i].reply.Failed?) && result.value == Flatten(DataOf(pending))
    else FirstFailure(pending, result.error)
  }

  lemma {:induction false} CollectMeans(pending: seq<Pending>)
    ensures Gathers(Collect(pending), pending)
  {
    if pending != [] {
      var rest := pending[1..];
      CollectMeans(rest);
      assert DataOf(pending)[1..] == DataOf(rest);
      if Collect(pending).Err? {
        if !pending[0].reply.Failed? {
          FailureLater(pending, Collect(pending).error);
        }
      } else {
        assert forall i :: 0 < i < |pending| ==> pending[i] == rest[i - 1];
      }
    }
  }

  // ---------------------------------------------------------------------------
  // Split and reassemble
  // ---------------------------------------------------------------------------

  /** `pending` holds read labels that ask for the given chunks, each with the reply
      that executing it on the device gives. */
  ghost predicate Answers(pending: seq<Pending>, chunks: seq<Chunk>, path: string, device: Store) {
    && |pending| == |chunks|
    && forall i :: 0 <= i < |chunks| ==> AnsweredFor(pending[i], chunks[i], path, device)
  }

  ghost predicate AnsweredFor(p: Pending, chunk: Chunk, path: string, device: Store) {
    && p.request.kind == Read
    && OpOf(p.request, map[]) == ReadOp(p.request.id, path, chunk.offset, chunk.length)
    && p.reply == Complete(Fetched(p.request, device))
  }

  lemma ReadAnswered(id: nat, path: string, chunk: Chunk, appId: nat, device: Store)
    ensures var l := ReadLabel(id, path, chunk, appId);
      AnsweredFor(Pending(l, Complete(Fetched(l, device))), chunk, path, device)
  {
    ReadLabelAsks(id, path, chunk, appId, map[]);
  }

  lemma RequestsWellFormed(
      pending: seq<Pending>, ids: seq<nat>, path: string, offset: nat, size: nat, max: nat, appId: nat)
    requires max > 0 && |pending| == |ids| == |Chunks(offset, size, max)|
    requires forall i :: 0 <= i < |pending| ==>
      pending[i].request == ReadLabel(ids[i], path, Chunks(offset, size, max)[i], appId)
    ensures offset + size < TWO_TO_THE_64 ==> forall i :: 0 <= i < |pending| ==> WellFormed(pending[i].request)
  {
    var chunks := Chunks(offset, size, max);
    ChunksTile(offset, size, max);
    forall i | 0 <= i < |pending|
      ensures offset + size < TWO_TO_THE_64 ==> WellFormed(pending[i].request)
    {
      ChunksInside(chunks, offset, size, max, i);
      ReadLabelAsks(ids[i], path, chunks[i], appId, map[]);
    }
  }

  /** The answers to a split read concatenate to the unsplit read. */
  lemma {:induction false} CollectChunks(
      pending: seq<Pending>, path: string, offset: nat, size: nat, max: nat, device: Store)
    requires max > 0 && Answers(pending, Chunks(offset, size, max), path, device)
    ensures Collect(pending) == Ok(ReadBytes(device, path, offset, size))
    decreases size
  {
    if size == 0 {
      assert pending == [];
      assert ReadBytes(device, path, offset, 0) == [];
    } else {
      var n := Min(size, max);
      var chunks := Chunks(offset, size, max);
      assert chunks[0] == Chunk(offset, n) && chunks[1..] == Chunks(offset + n, size - n, max);
      assert AnsweredFor(pending[0], chunks[0], path, device);
      assert pending[0].reply == Complete(ReadBytes(device, path, offset, n));
      CollectChunks(pending[1..], path, offset + n, size - n, max, device);
      ReadTwice(device, path, offset, n, size - n);
    }
  }

  lemma ReadWritten(store: Store, path: string, offset: nat, data: seq<byte>, from: nat, size: nat)
    requires offset <= from && from + size <= offset + |data|
    ensures ReadBytes(WriteBytes(store, path, offset, data), path, from, size)
         == data[from - offset..from - offset + size]
  {
    PatchCells(path, offset, data);
    var after := WriteBytes(store, path, offset, data);
    forall i | 0 <= i < size
      ensures ReadBytes(after, path, from, size)[i] == data[from - offset + i]
    {
      assert Loc(path, from + i) in Patch(path, offset, data);
      assert Cell(after, Loc(path, from + i)) == data[from - offset + i];
    }
  }

  /** Split and reassemble: any sub-range of a written range, read through labels
      that are split from its own offset, is exactly that slice of the data. */
  lemma SplitReassemble(
      store: Store, path: string, offset: nat, data: seq<byte>, from: nat, size: nat, max: nat, pending: seq<Pending>)
    requires max > 0 && offset <= from && from + size <= offset + |data|
    requires Answers(pending, Chunks(from, size, max), path, WriteBytes(store, path, offset, data))
    ensures Collect(pending) == Ok(data[from - offset..from - offset + size])
  {
    CollectChunks(pending, path, from, size, max, WriteBytes(store, path, offset, data));
    ReadWritten(store, path, offset, data, from, size);
  }

  /** The labels of one split write, with the given ids. */
  function WriteLabels(ids: seq<nat>, path: string, chunks: seq<Chunk>, appId: nat): (labels: seq<Label>)
    requires |ids| == |chunks|
    ensures |labels| == |chunks|
    ensures forall i :: 0 <= i < |chunks| ==> labels[i] == WriteLabel(ids[i], path, chunks[i], appId)
  {
    seq(|chunks|, i requires 0 <= i < |chunks| => WriteLabel(ids[i], path, chunks[i], appId))
  }
}
