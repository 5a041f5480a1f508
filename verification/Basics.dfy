/** Value types and sequence facts that every other module uses. */
module Basics {

  newtype byte = x: int | 0 <= x < 256

  datatype Option<+T> = None | Some(value: T)

  datatype Result<+T, +E> = Ok(value: T) | Err(error: E)

  /** Puts elements that were already read in front of a result. */
  function Prepend<T, E>(front: seq<T>, rest: Result<seq<T>, E>): Result<seq<T>, E> {
    match rest
    case Ok(more) => Ok(front + more)
    case Err(error) => Err(error)
  }

  lemma PrependNothing<T, E>(rest: Result<seq<T>, E>)
    ensures Prepend([], rest) == rest
  {
    if rest.Ok? {
      assert [] + rest.value == rest.value;
    }
  }

  lemma PrependTwice<T, E>(a: seq<T>, b: seq<T>, rest: Result<seq<T>, E>)
    ensures Prepend(a + b, rest) == Prepend(a, Prepend(b, rest))
  {
    if rest.Ok? {
      assert (a + b) + rest.value == a + (b + rest.value);
    }
  }

  const TWO_TO_THE_31 := 0x8000_0000
  const TWO_TO_THE_32 := 0x1_0000_0000
  const TWO_TO_THE_64 := 0x1_0000_0000_0000_0000

  /** Unsigned 64-bit addition, which wraps around. */
  function Add64(a: nat, b: nat): nat {
    (a + b) % TWO_TO_THE_64
  }

  function Min(a: nat, b: nat): nat {
    if a <= b then a else b
  }

  lemma SomeMember<T>(s: set<T>) returns (x: T)
    requires s != {}
    ensures x in s
  {
    x :| x in s;
  }

  lemma SomeKey<K, V>(m: map<K, V>, v: V) returns (k: K)
    requires v in m.Values
    ensures k in m && m[k] == v
  {
    k :| k in m && m[k] == v;
  }

  lemma ConcatAssociates<T>(a: seq<T>, b: seq<T>, c: seq<T>)
    ensures a + (b + c) == (a + b) + c
  {
  }

  function Flatten<T>(parts: seq<seq<T>>): seq<T> {
    if parts == [] then [] else parts[0] + Flatten(parts[1..])
  }

  lemma {:induction false} FlattenAppend<T>(a: seq<seq<T>>, b: seq<seq<T>>)
    ensures Flatten(a + b) == Flatten(a) + Flatten(b)
  {
    if a == [] {
      assert a + b == b;
    } else {
      assert (a + b)[1..] == a[1..] + b;
      FlattenAppend(a[1..], b);
    }
  }

  /** An element of a flattened sequence sits in one of the parts. */
  lemma {:induction false} FlattenMember<T>(parts: seq<seq<T>>, x: T)
    ensures x in Flatten(parts) <==> exists k :: 0 <= k < |parts| && x in parts[k]
  {
    if parts != [] {
      FlattenMember(parts[1..], x);
      if k :| 0 <= k < |parts[1..]| && x in parts[1..][k] {
        assert x in parts[k + 1];
      }
      if k :| 0 <= k < |parts| && x in parts[k] {
        if k > 0 {
          assert x in parts[1..][k - 1];
        }
      }
    }
  }

  lemma FlattenHead<T>(parts: seq<seq<T>>)
    requires parts != []
    ensures multiset(Flatten(parts)) == multiset(parts[0]) + multiset(Flatten(parts[1..]))
  {
  }

  /** Taking the first element out of one part takes exactly it out of the whole. */
  lemma {:induction false} FlattenTake<T>(parts: seq<seq<T>>, k: nat)
    requires k < |parts| && parts[k] != []
    ensures multiset(Flatten(parts)) == multiset(Flatten(parts[k := parts[k][1..]])) + multiset{parts[k][0]}
  {
    var updated, tail := parts[k := parts[k][1..]], parts[1..];
    if k == 0 {
      assert updated[1..] == tail;
      assert Flatten(parts) == [parts[0][0]] + Flatten(updated);
    } else {
      assert updated[1..] == tail[k - 1 := tail[k - 1][1..]];
      FlattenTake(tail, k - 1);
      FlattenHead(updated);
      FlattenHead(parts);
    }
  }

  /** Two equal elements of a duplicate-free sequence are at the same place. */
  ghost predicate Distinct<T>(s: seq<T>) {
    forall i, j :: 0 <= i < j < |s| ==> s[i] != s[j]
  }

  lemma RemovedElement<T>(s: seq<T>, k: nat)
    requires k < |s|
    ensures multiset(s) == multiset(s[..k] + s[k + 1..]) + multiset{s[k]}
  {
    assert s == s[..k] + [s[k]] + s[k + 1..];
  }

  lemma Cancel<T>(a: multiset<T>, b: multiset<T>, x: T)
    requires a + multiset{x} == b + multiset{x}
    ensures a == b
  {
    assert a == (a + multiset{x}) - multiset{x};
    assert b == (b + multiset{x}) - multiset{x};
  }

  lemma CountSnoc<T>(s: seq<T>, x: T, y: T)
    ensures multiset(s + [x])[y] == multiset(s)[y] + if x == y then 1 else 0
  {
  }

  lemma SameElementsFind<T>(s: seq<T>, t: seq<T>, x: T) returns (k: nat)
    requires multiset(s) == multiset(t) && x in t
    ensures k < |s| && s[k] == x
  {
    assert x in multiset(s);
    k :| k < |s| && s[k] == x;
  }

  lemma SameElementsRemove<T>(s: seq<T>, k: nat, t: seq<T>)
    requires multiset(s) == multiset(t) && t != [] && k < |s| && s[k] == t[0]
    ensures multiset(s[..k] + s[k + 1..]) == multiset(t[1..])
  {
    RemovedElement(s, k);
    RemovedElement(t, 0);
    assert t[..0] + t[1..] == t[1..];
    Cancel(multiset(s[..k] + s[k + 1..]), multiset(t[1..]), t[0]);
  }

  lemma SameElementsTail<T>(s: seq<T>, t: seq<T>)
    requires multiset(s) == multiset(t) && s != [] && t != [] && s[0] == t[0]
    ensures multiset(s[1..]) == multiset(t[1..])
  {
    SameElementsRemove(s, 0, t);
    assert s[..0] + s[1..] == s[1..];
  }

  /** A repeated element is counted twice. */
  lemma RepeatedCountsTwice<T>(s: seq<T>, i: nat, j: nat)
    requires i < j < |s| && s[i] == s[j]
    ensures multiset(s)[s[i]] >= 2
  {
    assert s == s[..j] + [s[j]] + s[j + 1..];
    assert s[..j][i] == s[i];
    assert s[i] in multiset(s[..j]);
  }

  lemma {:induction false} DistinctCountsOnce<T>(s: seq<T>, x: T)
    requires Distinct(s) && x in s
    ensures multiset(s)[x] == 1
  {
    var i :| 0 <= i < |s| && s[i] == x;
    assert s == s[..i] + [x] + s[i + 1..];
    assert x !in s[..i] && x !in s[i + 1..];
    assert x !in multiset(s[..i]) && x !in multiset(s[i + 1..]);
  }

  /** Being duplicate-free only depends on the multiset of elements. */
  lemma DistinctTransfer<T>(s: seq<T>, t: seq<T>)
    requires Distinct(s) && multiset(s) == multiset(t)
    ensures Distinct(t)
  {
    forall i, j | 0 <= i < j < |t|
      ensures t[i] != t[j]
    {
      if t[i] == t[j] {
        RepeatedCountsTwice(t, i, j);
        assert t[i] in multiset(s);
        DistinctCountsOnce(s, t[i]);
      }
    }
  }

  // ---------------------------------------------------------------------------
  // Mapping
  // ---------------------------------------------------------------------------

  function MapSeq<A, B>(f: A -> B, s: seq<A>): (t: seq<B>)
    ensures |t| == |s|
    ensures forall i :: 0 <= i < |s| ==> t[i] == f(s[i])
  {
    seq(|s|, i requires 0 <= i < |s| => f(s[i]))
  }

  /** Mapping commutes with reordering. */
  lemma {:induction false} MapPermuted<A, B>(f: A -> B, a: seq<A>, b: seq<A>)
    requires multiset(a) == multiset(b)
    ensures multiset(MapSeq(f, a)) == multiset(MapSeq(f, b))
    decreases |a|
  {
    if a == [] {
      assert |multiset(b)| == |b|;
    } else {
      assert |a| == |multiset(a)| == |multiset(b)| == |b|;
      var k := SameElementsFind(b, a, a[0]);
      SameElementsRemove(b, k, a);
      var rest := b[..k] + b[k + 1..];
      MapPermuted(f, a[1..], rest);
      RemovedElement(MapSeq(f, b), k);
      assert MapSeq(f, b)[..k] + MapSeq(f, b)[k + 1..] == MapSeq(f, rest);
      assert MapSeq(f, a) == [f(a[0])] + MapSeq(f, a[1..]);
    }
  }

  /** Flattening commutes with reordering. */
  lemma {:induction false} FlattenPermuted<T>(a: seq<seq<T>>, b: seq<seq<T>>)
    requires multiset(a) == multiset(b)
    ensures multiset(Flatten(a)) == multiset(Flatten(b))
    decreases |a|
  {
    if a == [] {
      assert |multiset(b)| == |b|;
    } else {
      var k := SameElementsFind(b, a, a[0]);
      SameElementsRemove(b, k, a);
      FlattenPermuted(a[1..], b[..k] + b[k + 1..]);
      FlattenWithout(b, k);
      FlattenHead(a);
    }
  }

  lemma SplitAround<T>(s: seq<T>, k: nat)
    requires k < |s|
    ensures s[..k] + ([s[k]] + s[k + 1..]) == s
  {
  }

  lemma FlattenWithout<T>(parts: seq<seq<T>>, k: nat)
    requires k < |parts|
    ensures multiset(Flatten(parts)) == multiset(parts[k]) + multiset(Flatten(parts[..k] + parts[k + 1..]))
  {
    SplitAround(parts, k);
    FlattenPart(parts[..k], parts[k], parts[k + 1..]);
  }

  lemma FlattenPart<T>(a: seq<seq<T>>, part: seq<T>, b: seq<seq<T>>)
    ensures multiset(Flatten(a + ([part] + b))) == multiset(part) + multiset(Flatten(a + b))
  {
    FlattenAppend(a, [part] + b);
    FlattenAppend(a, b);
    assert ([part] + b)[1..] == b;
  }
}
