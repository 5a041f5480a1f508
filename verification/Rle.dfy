/** The run-length codec among the built-in functions. Its output is a list of
    (byte, count) pairs, each count in one byte. */
module Rle {
  import opened Basics

  // ---------------------------------------------------------------------------
  // Decoding
  // ---------------------------------------------------------------------------

  function Run(value: byte, count: nat): (run: seq<byte>)
    ensures |run| == count && forall i :: 0 <= i < count ==> run[i] == value
  {
    seq(count, i => value)
  }

  /** What a list of pairs stands for. */
  function Decoded(pairs: seq<byte>): seq<byte>
    requires |pairs| % 2 == 0
  {
    if pairs == [] then [] else Run(pairs[0], pairs[1] as nat) + Decoded(pairs[2..])
  }

  lemma DecodedCons(value: byte, count: byte, pairs: seq<byte>)
    requires |pairs| % 2 == 0
    ensures Decoded([value, count] + pairs) == Run(value, count as nat) + Decoded(pairs)
  {
    assert ([value, count] + pairs)[2..] == pairs;
  }

  lemma {:induction false} DecodedAppend(a: seq<byte>, b: seq<byte>)
    requires |a| % 2 == 0 && |b| % 2 == 0
    ensures Decoded(a + b) == Decoded(a) + Decoded(b)
  {
    if a == [] {
      assert a + b == b;
    } else {
      assert (a + b)[2..] == a[2..] + b;
      DecodedAppend(a[2..], b);
    }
  }

  const ODD_LENGTH := "RLE data must have even length (byte,count pairs)"

  method Decompress(input: seq<byte>) returns (result: Result<seq<byte>, string>)
    ensures result == if |input| % 2 == 0 then Ok(Decoded(input)) else Err(ODD_LENGTH)
  {
    if |input| == 0 {
      return Ok([]);
    }
    if |input| % 2 != 0 {
      return Err(ODD_LENGTH);
    }
    var out := [];
    var i := 0;
    while i < |input|
      invariant i <= |input| && i % 2 == 0
      invariant out == Decoded(input[..i])
    {
      DecodedAppend(input[..i], input[i..i + 2]);
      assert input[..i] + input[i..i + 2] == input[..i + 2];
      assert Decoded(input[i..i + 2]) == Run(input[i], input[i + 1] as nat);
      out := out + Run(input[i], input[i + 1] as nat);
      i := i + 2;
    }
    assert input[..i] == input;
    return Ok(out);
  }

  // ---------------------------------------------------------------------------
  // Encoding
  // ---------------------------------------------------------------------------

  const MAX_RUN := 255

  /** `n` is the length of the longest run at the front of `x`, up to 255. */
  ghost predicate IsRun(x: seq<byte>, n: nat) {
    && 1 <= n <= |x| && n <= MAX_RUN
    && (forall i :: 0 <= i < n ==> x[i] == x[0])
    && (n < |x| && n < MAX_RUN ==> x[n] != x[0])
  }

  /** How many of the leading bytes, up to `limit`, repeat the first one. */
  function Leading(x: seq<byte>, limit: nat): (n: nat)
    requires x != [] && limit >= 1
    ensures 1 <= n <= |x| && n <= limit
    decreases |x|
  {
    if |x| > 1 && limit > 1 && x[1] == x[0] then 1 + Leading(x[1..], limit - 1) else 1
  }

  lemma {:induction false} LeadingEqual(x: seq<byte>, limit: nat)
    requires x != [] && limit >= 1
    ensures var n := Leading(x, limit);
      && (forall i :: 0 <= i < n ==> x[i] == x[0])
      && (n < |x| && n < limit ==> x[n] != x[0])
    decreases |x|
  {
    if |x| > 1 && limit > 1 && x[1] == x[0] {
      LeadingEqual(x[1..], limit - 1);
      var n := Leading(x, limit);
      forall i | 0 <= i < n
        ensures x[i] == x[0]
      {
        if i > 0 {
          assert x[i] == x[1..][i - 1] == x[1..][0];
        }
      }
    }
  }

  lemma LeadingIsRun(x: seq<byte>)
    requires x != []
    ensures IsRun(x, Leading(x, MAX_RUN))
  {
    LeadingEqual(x, MAX_RUN);
  }

  lemma RunsAgree(x: seq<byte>, m: nat, n: nat)
    requires IsRun(x, m) && IsRun(x, n)
    ensures m == n
  {
  }

  /** Every run is taken as long as possible. */
  function Greedy(x: seq<byte>): (pairs: seq<byte>)
    ensures |pairs| % 2 == 0
  {
    if x == [] then [] else
      var n := Leading(x, MAX_RUN);
      [x[0], n as byte] + Greedy(x[n..])
  }

  /** A short run is one pair: the byte, then how often. */
  lemma RunEncoded(value: byte, count: byte)
    requires count > 0
    ensures Greedy(Run(value, count as nat)) == [value, count]
  {
    var x := Run(value, count as nat);
    assert IsRun(x, |x|);
    GreedyRun(x, |x|);
  }

  lemma GreedyRun(x: seq<byte>, n: nat)
    requires IsRun(x, n)
    ensures Greedy(x) == [x[0], n as byte] + Greedy(x[n..])
  {
    LeadingIsRun(x);
    RunsAgree(x, n, Leading(x, MAX_RUN));
  }

  lemma SuffixIsRun(x: seq<byte>, i: nat, n: nat)
    requires i < i + n <= |x| && n <= MAX_RUN && forall k :: i <= k < i + n ==> x[k] == x[i]
    requires i + n < |x| && n < MAX_RUN ==> x[i + n] != x[i]
    ensures IsRun(x[i..], n) && x[i..][0] == x[i] && x[i..][n..] == x[i + n..]
  {
    assert forall k :: 0 <= k < |x[i..]| ==> x[i..][k] == x[i + k];
  }

  lemma GreedyStep(x: seq<byte>, i: nat, n: nat, out: seq<byte>)
    requires i < i + n <= |x| && n <= MAX_RUN && forall k :: i <= k < i + n ==> x[k] == x[i]
    requires i + n < |x| && n < MAX_RUN ==> x[i + n] != x[i]
    ensures out + Greedy(x[i..]) == (out + [x[i], n as byte]) + Greedy(x[i + n..])
  {
    SuffixIsRun(x, i, n);
    GreedyRun(x[i..], n);
    ConcatAssociates(out, [x[i], n as byte], Greedy(x[i + n..]));
  }

  method Compress(input: seq<byte>) returns (out: seq<byte>)
    ensures out == Greedy(input)
  {
    if input == [] {
      return [];
    }
    out := [];
    var i := 0;
    while i < |input|
      invariant i <= |input|
      invariant out + Greedy(input[i..]) == Greedy(input)
      decreases |input| - i
    {
      var val, run := input[i], 1;
      while i + run < |input| && input[i + run] == val && run < MAX_RUN
        invariant 1 <= run <= MAX_RUN && i + run <= |input|
        invariant forall k :: i <= k < i + run ==> input[k] == val
      {
        run := run + 1;
      }
      GreedyStep(input, i, run, out);
      out := out + [val, run as byte];
      i := i + run;
    }
  }

  lemma RunIsPrefix(x: seq<byte>, n: nat)
    requires IsRun(x, n)
    ensures Run(x[0], n) == x[..n]
  {
  }

  /** One pair more gives back one run more. */
  lemma RunDecoded(x: seq<byte>, n: nat, pairs: seq<byte>)
    requires IsRun(x, n) && |pairs| % 2 == 0 && Decoded(pairs) == x[n..]
    ensures Decoded([x[0], n as byte] + pairs) == x
  {
    DecodedCons(x[0], n as byte, pairs);
    RunIsPrefix(x, n);
  }

  /** Decompressing what was compressed gives the input back. */
  lemma {:induction false} Lossless(x: seq<byte>)
    ensures Decoded(Greedy(x)) == x
  {
    if x != [] {
      var n := Leading(x, MAX_RUN);
      LeadingIsRun(x);
      var rest := x[n..];
      Lossless(rest);
      GreedyRun(x, n);
      RunDecoded(x, n, Greedy(rest));
    }
  }

  // ---------------------------------------------------------------------------
  // Optimality
  // ---------------------------------------------------------------------------

  /** Dropping a byte from the front never needs more pairs. */
  lemma {:induction false} DropOne(x: seq<byte>)
    requires x != []
    ensures |Greedy(x[1..])| <= |Greedy(x)|
    decreases |x|
  {
    var n := Leading(x, MAX_RUN);
    LeadingIsRun(x);
    if n > 1 {
      if n == |x| || x[n] != x[0] {
        assert IsRun(x[1..], n - 1);
        GreedyRun(x[1..], n - 1);
        assert x[1..][n - 1..] == x[n..];
      } else {
        // The run after the first byte reaches one byte further.
        assert IsRun(x[1..], n);
        GreedyRun(x[1..], n);
        assert x[1..][n..] == x[n..][1..];
        DropOne(x[n..]);
      }
    }
  }

  lemma {:induction false} DropMany(x: seq<byte>, k: nat)
    requires k <= |x|
    ensures |Greedy(x[k..])| <= |Greedy(x)|
    decreases k
  {
    if k == 0 {
      assert x[0..] == x;
    } else {
      DropOne(x);
      DropMany(x[1..], k - 1);
      assert x[1..][k - 1..] == x[k..];
    }
  }

  /** Taking a shorter run than possible saves nothing. */
  lemma PartialRun(x: seq<byte>, c: nat)
    requires c <= |x| && c <= MAX_RUN && forall i :: 0 <= i < c ==> x[i] == x[0]
    ensures |Greedy(x)| <= 2 + |Greedy(x[c..])|
  {
    if x != [] {
      var n := Leading(x, MAX_RUN);
      LeadingIsRun(x);
      assert c <= n;
      DropMany(x[c..], n - c);
      assert x[c..][n - c..] == x[n..];
    }
  }

  /** No list of pairs that decodes to the same bytes, whatever its counts, is
      shorter than the greedy one. */
  lemma {:induction false} Optimal(pairs: seq<byte>)
    requires |pairs| % 2 == 0
    ensures |Greedy(Decoded(pairs))| <= |pairs|
  {
    if pairs != [] {
      Optimal(pairs[2..]);
      var x, c := Decoded(pairs), pairs[1] as nat;
      assert x == Run(pairs[0], c) + Decoded(pairs[2..]);
      PartialRun(x, c);
      assert x[c..] == Decoded(pairs[2..]);
    }
  }
}
