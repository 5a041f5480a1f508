/** The byte form of a list of labels: a count, and each label after its length. */
module Pack {
  import opened Basics

  type Data = seq<byte>

  // ---------------------------------------------------------------------------
  // 32-bit little-endian numbers
  // ---------------------------------------------------------------------------

  /** A 32-bit cast keeps the low 32 bits. */
  function ToBytes(n: nat): (b: seq<byte>)
    ensures |b| == 4
  {
    [(n % 256) as byte, (n / 256 % 256) as byte, (n / 256 / 256 % 256) as byte, (n / 256 / 256 / 256 % 256) as byte]
  }

  function FromBytes(b: seq<byte>): (n: nat)
    requires |b| == 4
    ensures n < TWO_TO_THE_32
  {
    b[0] as nat + 256 * (b[1] as nat + 256 * (b[2] as nat + 256 * b[3] as nat))
  }

  lemma Digits(n: nat) returns (q: nat)
    ensures
      n == n % 256
           + 256 * (n / 256 % 256 + 256 * (n / 256 / 256 % 256 + 256 * (n / 256 / 256 / 256 % 256 + 256 * q)))
  {
    var a := n / 256;
    var b := a / 256;
    var c := b / 256;
    q := c / 256;
  }

  /** The low byte comes first. */
  lemma BytesWeigh(n: nat)
    requires n < TWO_TO_THE_32
    ensures var b := ToBytes(n);
      n == b[0] as nat + 0x100 * b[1] as nat + 0x1_0000 * b[2] as nat + 0x100_0000 * b[3] as nat
  {
    BytesBack(n);
  }

  lemma BytesBack(n: nat)
    ensures FromBytes(ToBytes(n)) == n % TWO_TO_THE_32
  {
    var q := Digits(n);
    var low := FromBytes(ToBytes(n));
    assert n == low + TWO_TO_THE_32 * q;
  }

  /** The number at a position. */
  function NumberAt(buf: seq<byte>, pos: nat): (n: nat)
    requires pos + 4 <= |buf|
    ensures n < TWO_TO_THE_32
  {
    FromBytes(buf[pos..pos + 4])
  }

  // ---------------------------------------------------------------------------
  // Packing
  // ---------------------------------------------------------------------------

  /** A label after its length. */
  function Framed(data: Data): (frame: seq<byte>)
    ensures |frame| == 4 + |data|
  {
    ToBytes(|data|) + data
  }

  function Packed(labels: seq<Data>): seq<byte> {
    ToBytes(|labels|) + Body(labels)
  }

  function Body(labels: seq<Data>): seq<byte> {
    if labels == [] then [] else Framed(labels[0]) + Body(labels[1..])
  }

  lemma {:induction false} BodySnoc(labels: seq<Data>, last: Data)
    ensures Body(labels + [last]) == Body(labels) + Framed(last)
  {
    if labels == [] {
      assert labels + [last] == [last] && [last][1..] == [];
    } else {
      assert (labels + [last])[1..] == labels[1..] + [last];
      BodySnoc(labels[1..], last);
    }
  }

  function TotalSize(labels: seq<Data>): nat {
    if labels == [] then 4 else TotalSize(labels[..|labels| - 1]) + 4 + |labels[|labels| - 1]|
  }

  lemma {:induction false} TotalSizeIs(labels: seq<Data>)
    ensures TotalSize(labels) == |Packed(labels)|
  {
    if labels != [] {
      var k := |labels| - 1;
      TotalSizeIs(labels[..k]);
      assert labels == labels[..k] + [labels[k]];
      BodySnoc(labels[..k], labels[k]);
    }
  }

  /** Copies `data` into the buffer at `pos`. */
  method CopyTo(buf: array<byte>, pos: nat, data: seq<byte>)
    requires pos + |data| <= buf.Length
    modifies buf
    ensures buf[..pos + |data|] == old(buf[..pos]) + data
  {
    for i := 0 to |data|
      invariant buf[..pos + i] == old(buf[..pos]) + data[..i]
    {
      buf[pos + i] := data[i];
      assert buf[..pos + i + 1] == buf[..pos + i] + [data[i]];
    }
    assert data[..|data|] == data;
  }

  method WriteLabel(buf: array<byte>, pos: nat, data: Data) returns (pos': nat)
    requires pos + 4 + |data| <= buf.Length
    modifies buf
    ensures pos' == pos + 4 + |data| && buf[..pos'] == old(buf[..pos]) + Framed(data)
  {
    CopyTo(buf, pos, ToBytes(|data|));
    CopyTo(buf, pos + 4, data);
    pos' := pos + 4 + |data|;
  }

  /** The buffer holds the count and the first `i` labels, and there is room for the rest. */
  ghost predicate PackedUpTo(filled: seq<byte>, labels: seq<Data>, i: nat, total: nat)
    requires i <= |labels|
  {
    && filled == ToBytes(|labels|) + Body(labels[..i])
    && |filled| + |Body(labels[i..])| == total
  }

  lemma PackedStep(filled: seq<byte>, labels: seq<Data>, i: nat, total: nat)
    requires i < |labels| && PackedUpTo(filled, labels, i, total)
    ensures |filled + Framed(labels[i])| <= total
    ensures PackedUpTo(filled + Framed(labels[i]), labels, i + 1, total)
  {
    assert labels[..i + 1] == labels[..i] + [labels[i]] && labels[i..][1..] == labels[i + 1..];
    BodySnoc(labels[..i], labels[i]);
  }

  method PackLabels(labels: seq<Data>) returns (buf: array<byte>)
    ensures fresh(buf) && buf[..] == Packed(labels)
  {
    var total := 4;
    for i := 0 to |labels|
      invariant total == TotalSize(labels[..i])
    {
      assert labels[..i + 1][..i] == labels[..i];
      total := total + 4 + |labels[i]|;
    }
    assert labels[..|labels|] == labels;
    TotalSizeIs(labels);
    buf := new byte[total](_ => 0);
    var pos: nat := 0;
    CopyTo(buf, pos, ToBytes(|labels|));
    pos := pos + 4;
    assert labels[..0] == [] && labels[0..] == labels;
    for i := 0 to |labels|
      invariant pos <= total == buf.Length && fresh(buf) && PackedUpTo(buf[..pos], labels, i, total)
    {
      PackedStep(buf[..pos], labels, i, total);
      pos := WriteLabel(buf, pos, labels[i]);
    }
    assert labels[..|labels|] == labels && labels[|labels|..] == [];
    assert buf[..] == buf[..pos];
  }

  // ---------------------------------------------------------------------------
  // Unpacking
  // ---------------------------------------------------------------------------

  /** Up to `count` labels from position `pos` on; a label that is cut off ends the list. */
  function Entries(buf: seq<byte>, pos: nat, count: nat): (labels: seq<Data>)
    requires pos <= |buf|
    ensures |labels| <= count
    decreases count
  {
    if count == 0 || pos + 4 > |buf| then [] else
      var len := NumberAt(buf, pos);
      if pos + 4 + len > |buf| then [] else
        [buf[pos + 4..pos + 4 + len]] + Entries(buf, pos + 4 + len, count - 1)
  }

  function Unpacked(buf: seq<byte>): seq<Data> {
    if |buf| < 4 then [] else Entries(buf, 4, NumberAt(buf, 0))
  }

  lemma EntryAt(buf: seq<byte>, pos: nat, count: nat, data: Data)
    requires count > 0 && pos + 4 + |data| <= |buf|
    requires NumberAt(buf, pos) == |data| && buf[pos + 4..pos + 4 + |data|] == data
    ensures Entries(buf, pos, count) == [data] + Entries(buf, pos + 4 + |data|, count - 1)
  {
  }

  lemma NextEntry(buf: seq<byte>, pos: nat, count: nat, result: seq<Data>, data: Data)
    requires count > 0 && pos + 4 + |data| <= |buf|
    requires NumberAt(buf, pos) == |data| && buf[pos + 4..pos + 4 + |data|] == data
    ensures result + Entries(buf, pos, count) == (result + [data]) + Entries(buf, pos + 4 + |data|, count - 1)
  {
    EntryAt(buf, pos, count, data);
    ConcatAssociates(result, [data], Entries(buf, pos + 4 + |data|, count - 1));
  }

  method UnpackLabels(packed: seq<byte>) returns (result: seq<Data>)
    ensures result == Unpacked(packed)
  {
    if |packed| < 4 {
      return [];
    }
    var count := NumberAt(packed, 0);
    var pos: nat := 4;
    result := [];
    var i: nat := 0;
    while i < count
      invariant i <= count && pos <= |packed|
      invariant result + Entries(packed, pos, count - i) == Unpacked(packed)
    {
      if pos + 4 > |packed| {
        break;
      }
      var len := NumberAt(packed, pos);
      if pos + 4 + len > |packed| {
        break;
      }
      var entry := packed[pos + 4..pos + 4 + len];
      NextEntry(packed, pos, count - i, result, entry);
      result := result + [entry];
      pos := pos + 4 + len;
      i := i + 1;
    }
    assert result + [] == result;
  }

  // ---------------------------------------------------------------------------
  // Round trip and prefixes
  // ---------------------------------------------------------------------------

  /** The count and all lengths fit in 32 bits. */
  ghost predicate Fits(labels: seq<Data>) {
    |labels| < TWO_TO_THE_32 && forall l :: l in labels ==> |l| < TWO_TO_THE_32
  }

  lemma SliceBack(pre: seq<byte>, h: seq<byte>, data: Data, after: seq<byte>, k: nat)
    requires |pre| + |h| <= k <= |pre + (h + data) + after|
    ensures (pre + (h + data) + after)[..k][|pre|..|pre| + |h|] == h
    ensures |pre| + |h| + |data| <= k ==>
      (pre + (h + data) + after)[..k][|pre| + |h|..|pre| + |h| + |data|] == data
  {
    var whole := pre + (h + data) + after;
    assert forall i :: |pre| <= i < |pre| + |h| ==> whole[i] == h[i - |pre|];
    assert forall i :: |pre| + |h| <= i < |pre| + |h| + |data| ==> whole[i] == data[i - |pre| - |h|];
  }

  lemma FrameAt(pre: seq<byte>, data: Data, after: seq<byte>, k: nat)
    requires |pre| + 4 <= k <= |pre + Framed(data) + after| && |data| < TWO_TO_THE_32
    ensures NumberAt((pre + Framed(data) + after)[..k], |pre|) == |data|
    ensures |pre| + 4 + |data| <= k ==>
      (pre + Framed(data) + after)[..k][|pre| + 4..|pre| + 4 + |data|] == data
  {
    SliceBack(pre, ToBytes(|data|), data, after, k);
    BytesBack(|data|);
  }

  /** From `pos` on, the buffer holds these labels as far as it goes. */
  ghost predicate Holds(buf: seq<byte>, pos: nat, labels: seq<Data>)
    decreases |labels|
  {
    labels != [] ==>
      var next := pos + 4 + |labels[0]|;
      && (pos + 4 <= |buf| ==> NumberAt(buf, pos) == |labels[0]|)
      && (next <= |buf| ==> buf[pos + 4..next] == labels[0] && Holds(buf, next, labels[1..]))
  }

  lemma HoldsFirst(buf: seq<byte>, pos: nat, first: Data, rest: seq<Data>)
    requires pos + 4 <= |buf| ==> NumberAt(buf, pos) == |first|
    requires pos + 4 + |first| <= |buf| ==>
      buf[pos + 4..pos + 4 + |first|] == first && Holds(buf, pos + 4 + |first|, rest)
    ensures Holds(buf, pos, [first] + rest)
  {
    assert ([first] + rest)[1..] == rest;
  }

  lemma {:induction false} BodyHeld(pre: seq<byte>, labels: seq<Data>, k: nat)
    requires |pre| <= k <= |pre + Body(labels)|
    requires forall l :: l in labels ==> |l| < TWO_TO_THE_32
    ensures Holds((pre + Body(labels))[..k], |pre|, labels)
    decreases |labels|
  {
    if labels != [] {
      var first, rest := labels[0], labels[1..];
      ConcatAssociates(pre, Framed(first), Body(rest));
      if |pre| + 4 <= k {
        FrameAt(pre, first, Body(rest), k);
      }
      if |pre| + 4 + |first| <= k {
        BodyHeld(pre + Framed(first), rest, k);
      }
      HoldsFirst((pre + Body(labels))[..k], |pre|, first, rest);
      assert [first] + rest == labels;
    }
  }

  /** How many labels lie wholly in the first `room` bytes of a body. */
  function Within(labels: seq<Data>, room: nat): (j: nat)
    ensures j <= |labels|
  {
    if labels == [] || 4 + |labels[0]| > room then 0 else 1 + Within(labels[1..], room - 4 - |labels[0]|)
  }

  lemma {:induction false} WithinMeans(labels: seq<Data>, room: nat)
    ensures |Body(labels[..Within(labels, room)])| <= room
    ensures Within(labels, room) < |labels| ==> room < |Body(labels[..Within(labels, room) + 1])|
  {
    if labels != [] {
      if 4 + |labels[0]| > room {
        BodyHead(labels, 0);
      } else {
        var rest, left := labels[1..], room - 4 - |labels[0]|;
        WithinMeans(rest, left);
        BodyHead(labels, Within(rest, left));
        if Within(rest, left) < |rest| {
          BodyHead(labels, Within(rest, left) + 1);
        }
      }
    }
  }

  /** Exactly the labels that lie wholly in the buffer are found. */
  lemma {:induction false} EntriesHeld(buf: seq<byte>, pos: nat, labels: seq<Data>)
    requires pos <= |buf| && Holds(buf, pos, labels)
    ensures Entries(buf, pos, |labels|) == labels[..Within(labels, |buf| - pos)]
    decreases |labels|
  {
    if labels != [] {
      var next := pos + 4 + |labels[0]|;
      if next <= |buf| {
        EntriesHeld(buf, next, labels[1..]);
        EntryAt(buf, pos, |labels|, labels[0]);
        Reassembled(labels, Within(labels[1..], |buf| - next));
      }
    }
  }

  lemma Reassembled<T>(s: seq<T>, j: nat)
    requires j < |s|
    ensures [s[0]] + s[1..][..j] == s[..j + 1]
  {
  }

  lemma BodyHead(labels: seq<Data>, i: nat)
    requires i < |labels|
    ensures |Body(labels[..i + 1])| == |Framed(labels[0])| + |Body(labels[1..][..i])|
  {
    assert labels[..i + 1][1..] == labels[1..][..i];
  }

  lemma HeaderAt(labels: seq<Data>, k: nat)
    requires 4 <= k <= |Packed(labels)|
    ensures NumberAt(Packed(labels)[..k], 0) == |labels| % TWO_TO_THE_32
  {
    SliceBack([], ToBytes(|labels|), [], Body(labels), k);
    assert [] + (ToBytes(|labels|) + []) + Body(labels) == Packed(labels);
    BytesBack(|labels|);
  }

  lemma {:induction false} EntriesShort(buf: seq<byte>, pos: nat, count: nat)
    requires pos <= |buf|
    ensures forall l :: l in Entries(buf, pos, count) ==> |l| < TWO_TO_THE_32
    decreases count
  {
    if count > 0 && pos + 4 <= |buf| {
      var len := NumberAt(buf, pos);
      if pos + 4 + len <= |buf| {
        EntriesShort(buf, pos + 4 + len, count - 1);
      }
    }
  }

  /** Cutting off a packed list leaves exactly the labels before the cut. */
  lemma UnpackedCut(labels: seq<Data>, k: nat)
    requires Fits(labels) && 4 <= k <= |Packed(labels)|
    ensures Unpacked(Packed(labels)[..k]) == labels[..Within(labels, k - 4)]
  {
    HeaderAt(labels, k);
    BodyHeld(ToBytes(|labels|), labels, k);
    EntriesHeld(Packed(labels)[..k], 4, labels);
    UnpackedWith(Packed(labels)[..k], |labels|);
  }

  lemma UnpackedWith(buf: seq<byte>, count: nat)
    requires |buf| >= 4 && NumberAt(buf, 0) == count
    ensures Unpacked(buf) == Entries(buf, 4, count)
  {
  }

  lemma {:induction false} WithinAll(labels: seq<Data>)
    ensures Within(labels, |Body(labels)|) == |labels|
  {
    if labels != [] {
      WithinAll(labels[1..]);
    }
  }

  /** Unpacking gives back what was packed exactly when everything fits. */
  lemma RoundTrip(labels: seq<Data>)
    ensures Unpacked(Packed(labels)) == labels <==> Fits(labels)
  {
    var packed := Packed(labels);
    assert packed[..|packed|] == packed;
    if Fits(labels) {
      UnpackedCut(labels, |packed|);
      WithinAll(labels);
      assert labels[..|labels|] == labels;
    } else {
      EntriesShort(packed, 4, NumberAt(packed, 0));
    }
  }

  lemma {:induction false} EntriesOfPrefix(a: seq<byte>, b: seq<byte>, pos: nat, count: nat)
    requires a <= b && pos <= |a|
    ensures Entries(a, pos, count) <= Entries(b, pos, count)
    decreases count
  {
    if count > 0 && pos + 4 <= |a| {
      assert a[pos..pos + 4] == b[pos..pos + 4];
      var len := NumberAt(a, pos);
      if pos + 4 + len <= |a| {
        assert a[pos + 4..pos + 4 + len] == b[pos + 4..pos + 4 + len];
        EntriesOfPrefix(a, b, pos + 4 + len, count - 1);
      }
    }
  }

  /** Cutting off any buffer only cuts off the list. */
  lemma UnpackedOfPrefix(a: seq<byte>, b: seq<byte>)
    requires a <= b
    ensures Unpacked(a) <= Unpacked(b)
  {
    if |a| >= 4 {
      assert a[0..4] == b[0..4];
      EntriesOfPrefix(a, b, 4, NumberAt(a, 0));
    }
  }
}
