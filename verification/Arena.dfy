/** The bump arena (src/util/arena.c) and the VAD state's placement in it (src/processing/vad_gru.c:14-35). */
module Arenas {
  import opened Bytes

  /** align_up(curr, 8): where the next block starts. */
  function BlockStart(curr: nat): (r: nat)
    ensures r % 8 == 0 && curr <= r < curr + 8
  {
    (curr + 7) / 8 * 8
  }

  /** An allocation succeeds exactly when its block ends within the arena. */
  predicate Allocates(curr: nat, size: nat, limit: nat) {
    limit > 0 && BlockStart(curr) + size <= limit
  }

  /** In the arena's own terms: the first multiple of 8 from the cursor on leaves room for the block. From an
      empty cursor every size up to the whole arena fits. */
  lemma AllocatesExactly(curr: nat, size: nat, limit: nat)
    ensures Allocates(curr, size, limit) <==>
            limit > 0 && exists p: nat :: p % 8 == 0 && curr <= p && p + size <= limit
    ensures Allocates(0, size, limit) <==> 0 < limit && size <= limit
  {
    if exists p: nat :: p % 8 == 0 && curr <= p && p + size <= limit {
      var p: nat :| p % 8 == 0 && curr <= p && p + size <= limit;
      assert BlockStart(curr) <= p;
    }
    if Allocates(curr, size, limit) {
      var p := BlockStart(curr);
      assert p % 8 == 0 && curr <= p && p + size <= limit;
    }
  }

  lemma AllocatesWithin(curr: nat, size: nat, limit: nat)
    requires Allocates(curr, size, limit)
    ensures curr <= BlockStart(curr) <= BlockStart(curr) + size <= limit
  {
  }

  const VAD_STATE_SIZE := 96

  class Arena {
    const buf: array<byte>
    /** The buffer's machine address. */
    const base: nat
    var curr: nat

    constructor (buf: array<byte>, base: nat)
      ensures this.buf == buf && this.base == base && curr == 0
    {
      this.buf, this.base := buf, base;
      curr := 0;
    }

    method Alloc(size: nat) returns (ptr: Option<nat>)
      modifies this`curr
      ensures ptr.Some? <==> Allocates(old(curr), size, buf.Length)
      ensures if ptr.Some? then ptr.value == BlockStart(old(curr)) && curr == ptr.value + size else curr == old(curr)
    {
      if buf.Length == 0 {
        return None;
      }
      var alignedCurr := BlockStart(curr);
      if alignedCurr + size > buf.Length {
        return None;
      }
      curr := alignedCurr + size;
      ptr := Some(alignedCurr);
    }

    method Reset()
      modifies this`curr
      ensures curr == 0
    {
      curr := 0;
    }

    /** vad_gru_init's placement: pad to 32 bytes by address, then allocate. With an 8-aligned buffer
        the state's address is a multiple of 32. */
    method AllocVadState() returns (ptr: Option<nat>)
      requires base % 8 == 0
      modifies this`curr
      ensures ptr.Some? ==> (base + ptr.value) % 32 == 0 && old(curr) <= ptr.value < old(curr) + 32
      ensures ptr.Some? ==> curr == ptr.value + VAD_STATE_SIZE <= buf.Length
      ensures ptr.None? ==> old(curr) + 31 + VAD_STATE_SIZE > buf.Length && old(curr) <= curr < old(curr) + 32
    {
      var offset := (base + curr) % 32;
      var pad := if offset == 0 then 0 else 32 - offset;
      if pad > 0 {
        curr := curr + pad;
      }
      PaddedAligned(base, curr);
      ptr := Alloc(VAD_STATE_SIZE);
    }
  }

  lemma PaddedAligned(base: nat, curr: nat)
    requires base % 8 == 0 && (base + curr) % 32 == 0
    ensures BlockStart(curr) == curr
  {
    assert curr % 8 == 0;
    BlockStartAligned(curr);
  }

  lemma BlockStartAligned(curr: nat)
    requires curr % 8 == 0
    ensures BlockStart(curr) == curr
  {
  }

  /** Where a sequence of allocations puts its blocks. */
  function Placement(curr: nat, sizes: seq<nat>): (starts: seq<nat>)
    ensures |starts| == |sizes|
    decreases |sizes|
  {
    if sizes == [] then []
    else [BlockStart(curr)] + Placement(BlockStart(curr) + sizes[0], sizes[1..])
  }

  predicate InOrder(curr: nat, sizes: seq<nat>, starts: seq<nat>) {
    && |starts| == |sizes|
    && (forall i :: 0 <= i < |sizes| ==> starts[i] % 8 == 0 && curr <= starts[i])
    && (forall i, j :: 0 <= i < j < |sizes| ==> starts[i] + sizes[i] <= starts[j])
  }

  /** Blocks allocated one after another are aligned, in order and disjoint. */
  lemma {:induction false} PlacementDisjoint(curr: nat, sizes: seq<nat>)
    ensures InOrder(curr, sizes, Placement(curr, sizes))
    decreases |sizes|
  {
    if sizes != [] {
      var start := BlockStart(curr);
      PlacementDisjoint(start + sizes[0], sizes[1..]);
      InOrderCons(curr, start, sizes[0], sizes[1..], Placement(start + sizes[0], sizes[1..]));
      assert sizes == [sizes[0]] + sizes[1..];
    }
  }

  lemma InOrderCons(curr: nat, start: nat, size: nat, sizes: seq<nat>, starts: seq<nat>)
    requires curr <= start && start % 8 == 0 && InOrder(start + size, sizes, starts)
    ensures InOrder(curr, [size] + sizes, [start] + starts)
  {
    var sizes', starts' := [size] + sizes, [start] + starts;
    forall i | 0 <= i < |sizes'| ensures starts'[i] % 8 == 0 && curr <= starts'[i] {
      if i > 0 {
        assert starts'[i] == starts[i - 1];
      }
    }
    forall i, j | 0 <= i < j < |sizes'| ensures starts'[i] + sizes'[i] <= starts'[j] {
      assert starts'[j] == starts[j - 1];
      if i > 0 {
        assert starts'[i] == starts[i - 1] && sizes'[i] == sizes[i - 1];
      }
    }
  }
}
