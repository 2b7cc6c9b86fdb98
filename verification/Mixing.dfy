/** What a mix is: a sum, as near to the true one as 16 bits allow (src/processing/mix.c:12-43,
    src/processing/transcode.c:147-157). */
module Mixing {
  import opened Bytes
  import opened Protocol
  import opened SampleLoops
  import opened Pipeline
  import opened Requests
  import opened SentFiles

  function Distance(a: int, b: int): nat { if a < b then b - a else a - b }

  predicate Fits16(n: int) { -32768 <= n <= 32767 }

  /** The sum itself where it fits, and otherwise the nearest sample value there is. */
  lemma SumOrNearest(a: int, b: int, v: int16)
    ensures Distance(SatAdd(a, b), a + b) <= Distance(v, a + b)
    ensures Fits16(a + b) ==> SatAdd(a, b) == a + b
  {
  }

  /** A buffer's sample, silence past its end. */
  function SampleOrZero(x: seq<int16>, i: nat): int { if i < |x| then x[i] else 0 }

  /** The true sum at a sample. */
  function SumAt(acc: seq<int16>, xs: seq<seq<int16>>, i: nat): int
    requires i < |acc|
  {
    if xs == [] then acc[i] else SumAt(acc, xs[..|xs| - 1], i) + SampleOrZero(xs[|xs| - 1], i)
  }

  /** No sum on the way to it leaves 16 bits. */
  predicate NeverSaturates(acc: seq<int16>, xs: seq<seq<int16>>, i: nat)
    requires i < |acc|
  {
    forall n :: 0 <= n <= |xs| ==> Fits16(SumAt(acc, xs[..n], i))
  }

  /** Each further buffer is added: the result is the sample value nearest to the mix so far plus its sample,
      over the length of the first buffer. */
  lemma MixNearest(acc: seq<int16>, xs: seq<seq<int16>>, x: seq<int16>, i: nat, v: int16)
    requires i < |acc|
    ensures var sum := MixAll(acc, xs)[i] + SampleOrZero(x, i);
            Distance(MixAll(acc, xs + [x])[i], sum) <= Distance(v, sum)
  {
    hide SatAdd, MixAll;
    MixAllSnoc(acc, xs, x);
    if i < |x| {
      SumOrNearest(MixAll(acc, xs)[i], x[i], v);
    }
  }

  /** Where nothing saturates the mix is the sum of all buffers. */
  lemma {:induction false} MixIsSum(acc: seq<int16>, xs: seq<seq<int16>>, i: nat)
    requires i < |acc| && NeverSaturates(acc, xs, i)
    ensures MixAll(acc, xs)[i] == SumAt(acc, xs, i)
    decreases |xs|
  {
    hide SatAdd;
    assert xs[..|xs|] == xs;
    if xs != [] {
      var n := |xs| - 1;
      var before, x := xs[..n], xs[n];
      assert forall k :: 0 <= k <= n ==> before[..k] == xs[..k];
      MixIsSum(acc, before, i);
      assert xs == before + [x];
      MixAllSnoc(acc, before, x);
      SumOrNearest(MixAll(acc, before)[i], SampleOrZero(x, i), 0);
    }
  }

  // ---------------------------------------------------------------- the order of the buffers

  lemma {:induction false} SumAppend(acc: seq<int16>, xs: seq<seq<int16>>, x: seq<int16>, ys: seq<seq<int16>>, i: nat)
    requires i < |acc|
    ensures SumAt(acc, xs + [x] + ys, i) == SumAt(acc, xs + ys, i) + SampleOrZero(x, i)
    decreases |ys|
  {
    if ys == [] {
      assert xs + [x] + ys == xs + [x] && xs + ys == xs && (xs + [x])[..|xs|] == xs;
    } else {
      var n := |ys| - 1;
      assert (xs + [x] + ys)[..|xs| + 1 + n] == xs + [x] + ys[..n];
      assert (xs + ys)[..|xs| + n] == xs + ys[..n];
      SumAppend(acc, xs, x, ys[..n], i);
    }
  }

  lemma {:induction false} SumOfPermutation(acc: seq<int16>, xs: seq<seq<int16>>, ys: seq<seq<int16>>, i: nat)
    requires i < |acc| && multiset(xs) == multiset(ys)
    ensures SumAt(acc, xs, i) == SumAt(acc, ys, i)
    decreases |xs|
  {
    if xs == [] {
      NothingLeft(ys);
    } else {
      hide SumAt, SampleOrZero;
      var n := |xs| - 1;
      var k := WithoutOne(xs, ys);
      assert xs == xs[..n] + [xs[n]] + [] && xs[..n] + [] == xs[..n];
      SumAppend(acc, xs[..n], xs[n], [], i);
      SumAppend(acc, ys[..k], ys[k], ys[k + 1..], i);
      SumOfPermutation(acc, xs[..n], ys[..k] + ys[k + 1..], i);
    }
  }

  lemma NothingLeft(ys: seq<seq<int16>>)
    requires multiset([]) == multiset(ys)
    ensures ys == []
  {
    assert |multiset(ys)| == |ys|;
  }

  /** The last buffer of one order is somewhere in the other, and without it they are still permutations. */
  lemma WithoutOne(xs: seq<seq<int16>>, ys: seq<seq<int16>>) returns (k: nat)
    requires xs != [] && multiset(xs) == multiset(ys)
    ensures k < |ys| && ys[k] == xs[|xs| - 1] && ys == ys[..k] + [ys[k]] + ys[k + 1..]
    ensures multiset(xs[..|xs| - 1]) == multiset(ys[..k] + ys[k + 1..])
  {
    var n := |xs| - 1;
    Taken(xs, n);
    assert xs[..n] + xs[n + 1..] == xs[..n];
    k := IndexOf(ys, xs[n]);
    Taken(ys, k);
    Cancel(multiset(xs[..n]), multiset(ys[..k] + ys[k + 1..]), xs[n]);
  }

  lemma Taken(xs: seq<seq<int16>>, k: nat)
    requires k < |xs|
    ensures xs == xs[..k] + [xs[k]] + xs[k + 1..] && xs[k] in multiset(xs)
    ensures multiset(xs) == multiset(xs[..k] + xs[k + 1..]) + multiset{xs[k]}
  {
    var a, b := xs[..k], xs[k + 1..];
    assert xs == a + [xs[k]] + b;
    Join(a, [xs[k]]);
    Join(a + [xs[k]], b);
    Join(a, b);
  }

  lemma Join(a: seq<seq<int16>>, b: seq<seq<int16>>)
    ensures multiset(a + b) == multiset(a) + multiset(b)
  {
  }

  lemma Cancel(a: multiset<seq<int16>>, b: multiset<seq<int16>>, x: seq<int16>)
    requires a + multiset{x} == b + multiset{x}
    ensures a == b
  {
    forall e ensures a[e] == b[e] {
      assert (a + multiset{x})[e] == (b + multiset{x})[e];
    }
  }

  lemma IndexOf(ys: seq<seq<int16>>, x: seq<int16>) returns (k: nat)
    requires x in multiset(ys)
    ensures k < |ys| && ys[k] == x
  {
    k :| 0 <= k < |ys| && ys[k] == x;
  }

  /** Permuting the later buffers changes the mix only where something saturates, */
  lemma MixOrder(acc: seq<int16>, xs: seq<seq<int16>>, ys: seq<seq<int16>>, i: nat)
    requires i < |acc| && multiset(xs) == multiset(ys)
    requires NeverSaturates(acc, xs, i) && NeverSaturates(acc, ys, i)
    ensures MixAll(acc, xs)[i] == MixAll(acc, ys)[i]
  {
    hide MixAll;
    MixIsSum(acc, xs, i);
    MixIsSum(acc, ys, i);
    SumOfPermutation(acc, xs, ys, i);
  }

  /** and there it does change it. */
  lemma OrderMatters()
    ensures MixAll([32767], [[1], [-1]]) == [32766] && MixAll([32767], [[-1], [1]]) == [32767]
  {
    assert MixAll([32767], [[1], [-1]]) == MixAll(MixInto([32767], [1]), [[-1]]);
    assert MixAll([32767], [[-1], [1]]) == MixAll(MixInto([32767], [-1]), [[1]]);
    assert MixInto([32767], [1]) == [32767] && MixInto([32767], [-1]) == [32766] && MixInto([32766], [1]) == [32767];
    assert MixAll([32767], [[-1]]) == MixAll([32766], []) && MixAll([32766], [[1]]) == MixAll([32767], []);
  }

  // ---------------------------------------------------------------- of a request

  /** A request with two buffers: as many samples as the first one has, each the sample value nearest to the
      sum of the two. */
  lemma TwoBuffers(s: Settings, b1: Buffer, b2: Buffer, i: nat, v: int16)
    requires s.channels > 0 && i < |DecodeBuffer(s, b1.data)|
    ensures |MixOf(s, [b1, b2])| == |DecodeBuffer(s, b1.data)|
    ensures var sum := DecodeBuffer(s, b1.data)[i] + SampleOrZero(DecodeBuffer(s, b2.data), i);
            && Distance(MixOf(s, [b1, b2])[i], sum) <= Distance(v, sum)
            && (Fits16(sum) ==> MixOf(s, [b1, b2])[i] == sum)
  {
    hide DecodeBuffer, MixOf, SatAdd;
    var x, y := DecodeBuffer(s, b1.data), DecodeBuffer(s, b2.data);
    MixOfTwo(s, b1, b2);
    SumOrNearest(x[i], SampleOrZero(y, i), v);
  }
}
