/** The abstract device: a store of bytes addressed by file path and offset,
    and the effect of executing labels on it one at a time. */
module FileStore {
  import opened Basics

  datatype Loc = Loc(path: string, offset: nat)

  /** Bytes that were written; every other byte reads as zero. */
  type Store = map<Loc, byte>

  function Cell(store: Store, loc: Loc): byte {
    if loc in store then store[loc] else 0
  }

  /** The bytes that one write puts on the device. */
  function Patch(path: string, offset: nat, data: seq<byte>): Store {
    if data == [] then map[]
    else
      var last := |data| - 1;
      Patch(path, offset, data[..last])[Loc(path, offset + last) := data[last]]
  }

  lemma {:induction false} PatchCells(path: string, offset: nat, data: seq<byte>)
    ensures forall loc: Loc :: loc in Patch(path, offset, data) <==>
      loc.path == path && offset <= loc.offset < offset + |data|
    ensures forall loc: Loc :: loc in Patch(path, offset, data) ==>
      Patch(path, offset, data)[loc] == data[loc.offset - offset]
  {
    if data != [] {
      PatchCells(path, offset, data[..|data| - 1]);
    }
  }

  function WriteBytes(store: Store, path: string, offset: nat, data: seq<byte>): Store {
    store + Patch(path, offset, data)
  }

  function ReadBytes(store: Store, path: string, offset: nat, length: nat): seq<byte> {
    seq(length, i requires 0 <= i => Cell(store, Loc(path, offset + i)))
  }

  lemma CellWritten(store: Store, path: string, offset: nat, data: seq<byte>, loc: Loc)
    ensures Cell(WriteBytes(store, path, offset, data), loc)
         == if loc.path == path && offset <= loc.offset < offset + |data| then data[loc.offset - offset]
            else Cell(store, loc)
  {
    PatchCells(path, offset, data);
  }

  lemma MergeAssociative(m: Store, a: Store, b: Store)
    ensures (m + a) + b == m + (a + b)
  {
  }

  lemma PatchCell(path: string, offset: nat, data: seq<byte>, loc: Loc)
    ensures loc in Patch(path, offset, data) <==> loc.path == path && offset <= loc.offset < offset + |data|
    ensures loc in Patch(path, offset, data) ==> Patch(path, offset, data)[loc] == data[loc.offset - offset]
  {
    PatchCells(path, offset, data);
  }

  lemma PatchConcat(path: string, offset: nat, a: seq<byte>, b: seq<byte>)
    ensures Patch(path, offset, a + b) == Patch(path, offset, a) + Patch(path, offset + |a|, b)
  {
    var whole, parts := Patch(path, offset, a + b), Patch(path, offset, a) + Patch(path, offset + |a|, b);
    forall loc: Loc
      ensures loc in whole <==> loc in parts
      ensures loc in whole ==> whole[loc] == parts[loc]
    {
      PatchCell(path, offset, a + b, loc);
      PatchCell(path, offset, a, loc);
      PatchCell(path, offset + |a|, b, loc);
    }
    assert whole == parts;
  }

  /** Two adjacent writes are one write of the concatenated bytes. */
  lemma WriteTwice(store: Store, path: string, offset: nat, a: seq<byte>, b: seq<byte>)
    ensures WriteBytes(WriteBytes(store, path, offset, a), path, offset + |a|, b)
         == WriteBytes(store, path, offset, a + b)
  {
    PatchConcat(path, offset, a, b);
    MergeAssociative(store, Patch(path, offset, a), Patch(path, offset + |a|, b));
  }

  /** Two adjacent reads are one read of the whole range. */
  lemma ReadTwice(store: Store, path: string, offset: nat, a: nat, b: nat)
    ensures ReadBytes(store, path, offset, a) + ReadBytes(store, path, offset + a, b)
         == ReadBytes(store, path, offset, a + b)
  {
  }

  // ---------------------------------------------------------------------------
  // Executed operations
  // ---------------------------------------------------------------------------

  /** What a worker does for one label: a write of staged bytes, or a read. */
  datatype Op =
    | WriteOp(id: nat, path: string, offset: nat, data: seq<byte>)
    | ReadOp(id: nat, path: string, offset: nat, length: nat)
  {
    function Length(): nat {
      if WriteOp? then |data| else length
    }
  }

  /** The device together with the bytes each finished read returned. */
  datatype State = State(store: Store, results: map<nat, seq<byte>>)

  function Step(op: Op, st: State): State {
    match op
    case WriteOp(_, path, offset, data) => st.(store := WriteBytes(st.store, path, offset, data))
    case ReadOp(id, path, offset, length) =>
      st.(results := st.results[id := ReadBytes(st.store, path, offset, length)])
  }

  lemma StepTwice(first: nat, second: nat, path: string, offset: nat, a: seq<byte>, b: seq<byte>, st: State)
    ensures Step(WriteOp(second, path, offset + |a|, b), Step(WriteOp(first, path, offset, a), st))
         == Step(WriteOp(first, path, offset, a + b), st)
  {
    WriteTwice(st.store, path, offset, a, b);
    var once := Step(WriteOp(first, path, offset, a), st);
    assert once.store == WriteBytes(st.store, path, offset, a) && once.results == st.results;
  }

  function Exec(run: seq<Op>, st: State): State {
    if run == [] then st else Exec(run[1..], Step(run[0], st))
  }

  /** Some byte is touched by both operations and at least one writes it. */
  predicate Conflict(a: Op, b: Op) {
    && a.path == b.path
    && !(a.ReadOp? && b.ReadOp?)
    && 0 < a.Length() && 0 < b.Length()
    && a.offset < b.offset + b.Length()
    && b.offset < a.offset + a.Length()
  }

  lemma ExecOne(op: Op, st: State)
    ensures Exec([op], st) == Step(op, st)
  {
    assert [op][1..] == [];
  }

  lemma {:induction false} ExecConcat(a: seq<Op>, b: seq<Op>, st: State)
    ensures Exec(a + b, st) == Exec(b, Exec(a, st))
    decreases |a|
  {
    if a == [] {
      assert a + b == b;
    } else {
      assert (a + b)[1..] == a[1..] + b;
      ExecConcat(a[1..], b, Step(a[0], st));
    }
  }

  /** The operation writes the byte at `loc`. */
  predicate Writes(op: Op, loc: Loc) {
    op.WriteOp? && loc.path == op.path && op.offset <= loc.offset < op.offset + |op.data|
  }

  /** The operation reads the byte at `loc`. */
  predicate Reads(op: Op, loc: Loc) {
    op.ReadOp? && loc.path == op.path && op.offset <= loc.offset < op.offset + op.length
  }

  lemma StepCell(op: Op, st: State, loc: Loc)
    ensures Cell(Step(op, st).store, loc)
         == if Writes(op, loc) then op.data[loc.offset - op.offset] else Cell(st.store, loc)
  {
    if op.WriteOp? {
      CellWritten(st.store, op.path, op.offset, op.data, loc);
    }
  }

  /** A byte that no operation writes keeps its value. */
  lemma {:induction false} Unwritten(run: seq<Op>, st: State, loc: Loc)
    requires forall op :: op in run ==> !Writes(op, loc)
    ensures Cell(Exec(run, st).store, loc) == Cell(st.store, loc)
    decreases |run|
  {
    if run != [] {
      StepCell(run[0], st, loc);
      Unwritten(run[1..], Step(run[0], st), loc);
    }
  }

  /** A byte that one operation writes ends up as that operation writes it. */
  lemma WrittenOnce(run: seq<Op>, x: nat, st: State, loc: Loc)
    requires x < |run| && Writes(run[x], loc)
    requires forall i :: 0 <= i < |run| && i != x ==> !Writes(run[i], loc)
    ensures Cell(Exec(run, st).store, loc) == run[x].data[loc.offset - run[x].offset]
  {
    var before, after := run[..x], run[x + 1..];
    var mid := Exec(before, st);
    assert run == before + ([run[x]] + after);
    ExecConcat(before, [run[x]] + after, st);
    assert ([run[x]] + after)[1..] == after;
    StepCell(run[x], mid, loc);
    Unwritten(after, Step(run[x], mid), loc);
  }

  /** A run that amounts to one write, followed by the adjacent write, is one write. */
  lemma ExtendWrite(run: seq<Op>, id: nat, path: string, offset: nat, data: seq<byte>, next: Op, st: State)
    requires Exec(run, st) == Step(WriteOp(id, path, offset, data), st)
    requires next.WriteOp? && next.path == path && next.offset == offset + |data|
    ensures Exec(run + [next], st) == Step(WriteOp(id, path, offset, data + next.data), st)
  {
    ExecConcat(run, [next], st);
    ExecOne(next, Exec(run, st));
    StepTwice(id, next.id, path, offset, data, next.data, st);
  }

  lemma ReadIgnoresDisjointWrite(store: Store, r: Op, w: Op)
    requires r.ReadOp? && w.WriteOp? && !Conflict(r, w)
    ensures ReadBytes(WriteBytes(store, w.path, w.offset, w.data), r.path, r.offset, r.length)
         == ReadBytes(store, r.path, r.offset, r.length)
  {
    PatchCells(w.path, w.offset, w.data);
    var after := WriteBytes(store, w.path, w.offset, w.data);
    forall i | 0 <= i < r.length
      ensures ReadBytes(after, r.path, r.offset, r.length)[i] == ReadBytes(store, r.path, r.offset, r.length)[i]
    {
      var loc := Loc(r.path, r.offset + i);
      assert loc !in Patch(w.path, w.offset, w.data);
      assert Cell(after, loc) == Cell(store, loc);
    }
  }

  lemma WritesCommute(store: Store, a: Op, b: Op)
    requires a.WriteOp? && b.WriteOp? && !Conflict(a, b)
    ensures WriteBytes(WriteBytes(store, a.path, a.offset, a.data), b.path, b.offset, b.data)
         == WriteBytes(WriteBytes(store, b.path, b.offset, b.data), a.path, a.offset, a.data)
  {
    PatchCells(a.path, a.offset, a.data);
    PatchCells(b.path, b.offset, b.data);
    var pa, pb := Patch(a.path, a.offset, a.data), Patch(b.path, b.offset, b.data);
    assert forall loc: Loc :: !(loc in pa && loc in pb);
    assert (store + pa) + pb == (store + pb) + pa;
  }

  /** Operations that do not conflict may run in either order. */
  lemma Commute(a: Op, b: Op, st: State)
    requires a.id != b.id && !Conflict(a, b)
    ensures Step(b, Step(a, st)) == Step(a, Step(b, st))
  {
    match (a, b)
    case (WriteOp(_, _, _, _), WriteOp(_, _, _, _)) =>
      WritesCommute(st.store, a, b);
    case (WriteOp(_, _, _, _), ReadOp(_, _, _, _)) =>
      ReadIgnoresDisjointWrite(st.store, b, a);
    case (ReadOp(_, _, _, _), WriteOp(_, _, _, _)) =>
      ReadIgnoresDisjointWrite(st.store, a, b);
    case (ReadOp(_, _, _, _), ReadOp(_, _, _, _)) =>
      var ab, ba := Step(b, Step(a, st)).results, Step(a, Step(b, st)).results;
      assert ab == ba;
  }

  /** An operation may be moved in front of operations it does not conflict with. */
  lemma {:induction false} MoveToFront(before: seq<Op>, op: Op, st: State)
    requires forall b :: b in before ==> b.id != op.id && !Conflict(op, b)
    ensures Exec(before + [op], st) == Exec([op] + before, st)
    decreases |before|
  {
    if before == [] {
      assert before + [op] == [op] + before;
    } else {
      var first, rest := before[0], before[1..];
      assert (before + [op])[1..] == rest + [op];
      MoveToFront(rest, op, Step(first, st));
      assert ([op] + rest)[1..] == rest;
      assert ([op] + before)[1..] == before;
      Commute(op, first, st);
    }
  }

  /** No two operations share an id. */
  ghost predicate UniqueOps(run: seq<Op>) {
    forall i, j :: 0 <= i < j < |run| ==> run[i].id != run[j].id
  }

  /** Nowhere in `run` does `later` come before `earlier`. */
  ghost predicate NoInversion(run: seq<Op>, earlier: Op, later: Op) {
    forall p, q :: 0 <= p < q < |run| ==> !(run[p] == later && run[q] == earlier)
  }

  /** Every conflicting pair of `serial` keeps its order in `run`. */
  ghost predicate KeepsConflictOrder(run: seq<Op>, serial: seq<Op>) {
    forall i, j :: 0 <= i < j < |serial| && Conflict(serial[i], serial[j]) ==>
      NoInversion(run, serial[i], serial[j])
  }

  lemma RemoveKeepsOrder(run: seq<Op>, k: nat, serial: seq<Op>)
    requires k < |run| && serial != []
    requires KeepsConflictOrder(run, serial)
    ensures KeepsConflictOrder(run[..k] + run[k + 1..], serial[1..])
  {
    var rest := run[..k] + run[k + 1..];
    forall i, j | 0 <= i < j < |serial[1..]| && Conflict(serial[1..][i], serial[1..][j])
      ensures NoInversion(rest, serial[1..][i], serial[1..][j])
    {
      assert NoInversion(run, serial[i + 1], serial[j + 1]);
      forall p, q | 0 <= p < q < |rest|
        ensures !(rest[p] == serial[j + 1] && rest[q] == serial[i + 1])
      {
        var p', q' := if p < k then p else p + 1, if q < k then q else q + 1;
        assert rest[p] == run[p'] && rest[q] == run[q'];
      }
    }
  }

  /** What runs before the serial run's first operation neither is it nor
      conflicts with it. */
  lemma BeforeFirst(run: seq<Op>, serial: seq<Op>, k: nat, b: Op)
    requires UniqueOps(serial) && serial != []
    requires multiset(run) == multiset(serial)
    requires KeepsConflictOrder(run, serial)
    requires k < |run| && run[k] == serial[0] && b in run[..k]
    ensures b.id != serial[0].id && !Conflict(serial[0], b)
  {
    var p :| 0 <= p < k && run[p] == b;
    assert b in multiset(run);
    assert b in multiset(serial);
    var j :| 0 <= j < |serial| && serial[j] == b;
    if j == 0 {
      RepeatedCountsTwice(run, p, k);
      assert Distinct(serial);
      DistinctCountsOnce(serial, b);
      assert false;
    } else {
      assert Conflict(serial[0], serial[j]) ==> NoInversion(run, serial[0], serial[j]);
    }
  }

  /** Pulling the serial run's first operation to the front of `run` changes nothing. */
  lemma PullFirst(run: seq<Op>, serial: seq<Op>, k: nat, st: State)
    requires UniqueOps(serial) && serial != []
    requires multiset(run) == multiset(serial)
    requires KeepsConflictOrder(run, serial)
    requires k < |run| && run[k] == serial[0]
    ensures Exec(run, st) == Exec(run[..k] + run[k + 1..], Step(serial[0], st))
  {
    var first, before, after := serial[0], run[..k], run[k + 1..];
    forall b | b in before
      ensures b.id != first.id && !Conflict(first, b)
    {
      BeforeFirst(run, serial, k, b);
    }
    assert run == before + [first] + after;
    ExecWithout(before, first, after, st);
  }

  lemma ExecWithout(before: seq<Op>, op: Op, after: seq<Op>, st: State)
    requires forall b :: b in before ==> b.id != op.id && !Conflict(op, b)
    ensures Exec(before + [op] + after, st) == Exec(before + after, Step(op, st))
  {
    MoveToFront(before, op, st);
    ExecConcat(before + [op], after, st);
    assert ([op] + before)[1..] == before;
    ExecConcat(before, after, Step(op, st));
  }

  /** Conflict serializability: a run that keeps the order of all conflicting
      pairs of `serial` returns the same bytes to every read and leaves the same
      device behind. */
  lemma {:induction false} ConflictSerializable(run: seq<Op>, serial: seq<Op>, st: State)
    requires UniqueOps(serial)
    requires multiset(run) == multiset(serial)
    requires KeepsConflictOrder(run, serial)
    ensures Exec(run, st) == Exec(serial, st)
    decreases |serial|
  {
    if serial == [] {
      assert |run| == |multiset(run)| == 0;
    } else {
      var k := SameElementsFind(run, serial, serial[0]);
      PullFirst(run, serial, k, st);
      RemoveKeepsOrder(run, k, serial);
      SameElementsRemove(run, k, serial);
      ConflictSerializable(run[..k] + run[k + 1..], serial[1..], Step(serial[0], st));
    }
  }
}
