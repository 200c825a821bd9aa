/**
 * The running checksum of a SQLite write-ahead log: section 4.2 of the SQLite Database
 * File Format. It is composable, and no change to a single 8-byte block goes unnoticed.
 */
module WalChecksum {
  import opened Bytes

  const BLOCK: nat := 8

  /** A whole number of blocks. */
  predicate Aligned(n: nat) {
    n == 0 || (n >= BLOCK && Aligned(n - BLOCK))
  }

  lemma {:induction false} AlignedParts(m: nat, n: nat)
    requires Aligned(m)
    ensures Aligned(n) <==> Aligned(m + n)
  {
    if m != 0 { AlignedParts(m - BLOCK, n); }
  }

  lemma {:induction false} AlignedIsMultiple(n: nat)
    ensures Aligned(n) <==> n % BLOCK == 0
  {
    if n >= BLOCK { AlignedIsMultiple(n - BLOCK); }
  }

  /** The block at an offset. */
  function BlockAt(b: seq<Byte>, at: nat): (block: seq<Byte>)
    requires at + BLOCK <= |b|
    ensures |block| == BLOCK
  {
    [b[at], b[at + 1], b[at + 2], b[at + 3], b[at + 4], b[at + 5], b[at + 6], b[at + 7]]
  }

  datatype Sum = Sum(first: Word, second: Word)

  function Step(sum: Sum, x: Word, y: Word): Sum {
    var first := Wrap(sum.first + x + sum.second);
    Sum(first, Wrap(sum.second + y + first))
  }

  /** How a block is mixed into a sum. */
  type Mixer = (Sum, seq<Byte>) -> Sum

  function BlockMixer(bigEndian: bool): Mixer {
    (sum, block) => StepBlock(sum, block, bigEndian)
  }

  function StepBlock(sum: Sum, block: seq<Byte>, bigEndian: bool): Sum {
    if |block| == BLOCK then Step(sum, WordAt(block, 0, bigEndian), WordAt(block, 4, bigEndian)) else sum
  }

  /** The checksum of whole blocks, carried on from an earlier one. */
  function Checksum(mix: Mixer, bytes: seq<Byte>, prior: Sum): Sum
    requires Aligned(|bytes|)
  {
    if bytes == [] then prior else
      mix(Checksum(mix, bytes[..|bytes| - BLOCK], prior), BlockAt(bytes, |bytes| - BLOCK))
  }

  // ---------------------------------------------------------------------- the loop

  lemma UpToBlock(bytes: seq<Byte>, offset: nat)
    requires offset + BLOCK <= |bytes|
    ensures var b := bytes[..offset + BLOCK];
      b[..offset] == bytes[..offset] && BlockAt(b, offset) == BlockAt(bytes, offset)
  {
  }

  lemma NextBlock(mix: Mixer, bytes: seq<Byte>, offset: nat, prior: Sum)
    requires Aligned(offset) && offset + BLOCK <= |bytes|
    ensures Aligned(offset + BLOCK)
    ensures Checksum(mix, bytes[..offset + BLOCK], prior) ==
      mix(Checksum(mix, bytes[..offset], prior), BlockAt(bytes, offset))
  {
    UpToBlock(bytes, offset);
  }

  method AddBlock(sum: Sum, bytes: seq<Byte>, offset: nat, bigEndian: bool) returns (next: Sum)
    requires offset + BLOCK <= |bytes|
    ensures next == BlockMixer(bigEndian)(sum, BlockAt(bytes, offset))
  {
    var x, y := WordAt(bytes, offset, bigEndian), WordAt(bytes, offset + 4, bigEndian);
    ghost var block := BlockAt(bytes, offset);
    assert FourAt(block, 0) == FourAt(bytes, offset) && FourAt(block, 4) == FourAt(bytes, offset + 4);
    var first := Wrap(sum.first + x + sum.second);
    var second := Wrap(sum.second + y + first);
    next := Sum(first, second);
  }

  /** The sum of the blocks before an offset, with whole blocks after it. */
  ghost predicate Summed(mix: Mixer, bytes: seq<Byte>, prior: Sum, offset: nat, sum: Sum) {
    offset <= |bytes| && Aligned(offset) && Aligned(|bytes| - offset) && sum == Checksum(mix, bytes[..offset], prior)
  }

  lemma OneMoreBlock(mix: Mixer, bytes: seq<Byte>, prior: Sum, offset: nat, sum: Sum)
    requires offset < |bytes| && Summed(mix, bytes, prior, offset, sum)
    ensures offset + BLOCK <= |bytes|
    ensures Summed(mix, bytes, prior, offset + BLOCK, mix(sum, BlockAt(bytes, offset)))
  {
    NextBlock(mix, bytes, offset, prior);
  }

  method ComputeChecksum(bytes: seq<Byte>, bigEndian: bool, prior: Sum) returns (sum: Sum)
    requires Aligned(|bytes|)
    ensures sum == Checksum(BlockMixer(bigEndian), bytes, prior)
  {
    ghost var mix := BlockMixer(bigEndian);
    sum := prior;
    var offset := 0;
    while offset < |bytes|
      invariant Summed(mix, bytes, prior, offset, sum)
    {
      OneMoreBlock(mix, bytes, prior, offset, sum);
      sum := AddBlock(sum, bytes, offset, bigEndian);
      offset := offset + BLOCK;
    }
    assert bytes[..offset] == bytes;
  }

  // ---------------------------------------------------------------- what it is good for

  /** Summing two stretches one after the other is summing them joined. */
  lemma {:induction false} ChecksumComposes(mix: Mixer, a: seq<Byte>, b: seq<Byte>, prior: Sum)
    requires Aligned(|a|) && Aligned(|b|)
    ensures Aligned(|a + b|)
    ensures Checksum(mix, a + b, prior) == Checksum(mix, b, Checksum(mix, a, prior))
  {
    AlignedParts(|a|, |b|);
    if b == [] {
      assert a + b == a;
    } else {
      ChecksumComposes(mix, a, b[..|b| - BLOCK], prior);
      LastBlock(a, b);
    }
  }

  lemma LastBlock(a: seq<Byte>, b: seq<Byte>)
    requires |b| >= BLOCK
    ensures (a + b)[..|a + b| - BLOCK] == a + b[..|b| - BLOCK]
    ensures BlockAt(a + b, |a + b| - BLOCK) == BlockAt(b, |b| - BLOCK)
  {
  }

  lemma StepKeepsSumsApart(s: Sum, t: Sum, x: Word, y: Word)
    requires Step(s, x, y) == Step(t, x, y)
    ensures s == t
  {
    var first := Step(s, x, y).first;
    WrapCancels(y + first, s.second, t.second);
    WrapCancels(x + s.second, s.first, t.first);
  }

  lemma StepKeepsBlocksApart(s: Sum, x: Word, y: Word, u: Word, v: Word)
    requires Step(s, x, y) == Step(s, u, v)
    ensures x == u && y == v
  {
    WrapCancels(s.first + s.second, x, u);
    WrapCancels(s.second + Step(s, x, y).first, y, v);
  }

  /** From one sum, different blocks lead to different sums; so do different sums, over one block. */
  predicate KeepsApart(mix: Mixer, s: Sum, t: Sum, a: seq<Byte>, b: seq<Byte>) {
    |a| == |b| == BLOCK && mix(s, a) == mix(t, b) ==> (s == t <==> a == b)
  }

  ghost predicate Injective(mix: Mixer) {
    forall s, t, a, b {:trigger KeepsApart(mix, s, t, a, b)} :: KeepsApart(mix, s, t, a, b)
  }

  lemma BlockMixerIsInjective(bigEndian: bool)
    ensures Injective(BlockMixer(bigEndian))
  {
    var mix := BlockMixer(bigEndian);
    forall s, t, a, b ensures KeepsApart(mix, s, t, a, b) {
      if |a| == |b| == BLOCK && mix(s, a) == mix(t, b) { StepBlockIsInjective(s, t, a, b, bigEndian); }
    }
  }

  lemma StepBlockIsInjective(s: Sum, t: Sum, a: seq<Byte>, b: seq<Byte>, bigEndian: bool)
    requires |a| == |b| == BLOCK && StepBlock(s, a, bigEndian) == StepBlock(t, b, bigEndian)
    ensures s == t <==> a == b
  {
    if a == b { StepKeepsSumsApart(s, t, WordAt(a, 0, bigEndian), WordAt(a, 4, bigEndian)); }
    if s == t {
      StepKeepsBlocksApart(s, WordAt(a, 0, bigEndian), WordAt(a, 4, bigEndian),
        WordAt(b, 0, bigEndian), WordAt(b, 4, bigEndian));
      WordIsItsBytes(FourAt(a, 0), FourAt(b, 0), bigEndian);
      WordIsItsBytes(FourAt(a, 4), FourAt(b, 4), bigEndian);
      assert a == FourAt(a, 0) + FourAt(a, 4) && b == FourAt(b, 0) + FourAt(b, 4);
    }
  }

  /** Different sums stay different over the same bytes. */
  lemma {:induction false} CarriesDifference(mix: Mixer, bytes: seq<Byte>, s: Sum, t: Sum)
    requires Injective(mix) && Aligned(|bytes|) && s != t
    ensures Checksum(mix, bytes, s) != Checksum(mix, bytes, t)
  {
    if bytes != [] {
      var front, block := bytes[..|bytes| - BLOCK], BlockAt(bytes, |bytes| - BLOCK);
      CarriesDifference(mix, front, s, t);
      assert KeepsApart(mix, Checksum(mix, front, s), Checksum(mix, front, t), block, block);
    }
  }

  /** Equally long and different in the block at the given offset, and nowhere else. */
  ghost predicate OneBlockApart(a: seq<Byte>, b: seq<Byte>, at: nat) {
    && |a| == |b| && at + BLOCK <= |a| && a != b
    && a[..at] == b[..at] && a[at + BLOCK..] == b[at + BLOCK..]
  }

  lemma SameBlockSameBytes(a: seq<Byte>, b: seq<Byte>, at: nat)
    requires |a| == |b| && at + BLOCK <= |a| && BlockAt(a, at) == BlockAt(b, at)
    requires a[..at] == b[..at] && a[at + BLOCK..] == b[at + BLOCK..]
    ensures a == b
  {
    assert a == a[..at] + BlockAt(a, at) + a[at + BLOCK..];
    assert b == b[..at] + BlockAt(b, at) + b[at + BLOCK..];
  }

  lemma BlocksDiffer(a: seq<Byte>, b: seq<Byte>, at: nat)
    requires OneBlockApart(a, b, at)
    ensures BlockAt(a, at) != BlockAt(b, at)
  {
    if BlockAt(a, at) == BlockAt(b, at) { SameBlockSameBytes(a, b, at); }
  }

  lemma ApartAt(a: seq<Byte>, b: seq<Byte>, at: nat, i: nat)
    requires OneBlockApart(a, b, at) && i < |a| && (i < at || at + BLOCK <= i)
    ensures a[i] == b[i]
  {
    if i < at {
      assert a[..at][i] == b[..at][i];
    } else {
      assert a[at + BLOCK..][i - at - BLOCK] == b[at + BLOCK..][i - at - BLOCK];
    }
  }

  lemma ApartElsewhere(a: seq<Byte>, b: seq<Byte>, at: nat, lo: nat, hi: nat)
    requires OneBlockApart(a, b, at) && lo <= hi <= |a| && (hi <= at || at + BLOCK <= lo)
    ensures a[lo..hi] == b[lo..hi]
  {
    forall i | 0 <= i < hi - lo ensures a[lo..hi][i] == b[lo..hi][i] {
      ApartAt(a, b, at, lo + i);
    }
  }

  /** The stretch that holds the changed block, seen on its own. */
  lemma ApartWithin(a: seq<Byte>, b: seq<Byte>, at: nat, lo: nat, hi: nat)
    requires OneBlockApart(a, b, at) && lo <= at && at + BLOCK <= hi <= |a|
    ensures OneBlockApart(a[lo..hi], b[lo..hi], at - lo)
  {
    var c, d, k := a[lo..hi], b[lo..hi], at - lo;
    forall i | 0 <= i < k ensures c[..k][i] == d[..k][i] {
      ApartAt(a, b, at, lo + i);
    }
    assert c[..k] == d[..k];
    ApartElsewhere(a, b, at, at + BLOCK, hi);
    assert c[k + BLOCK..] == a[at + BLOCK..hi] && d[k + BLOCK..] == b[at + BLOCK..hi];
    BlocksDiffer(a, b, at);
    assert BlockAt(c, k) == BlockAt(a, at) && BlockAt(d, k) == BlockAt(b, at);
  }

  lemma ApartInPrefix(a: seq<Byte>, b: seq<Byte>, at: nat, hi: nat)
    requires OneBlockApart(a, b, at) && at + BLOCK <= hi <= |a|
    ensures OneBlockApart(a[..hi], b[..hi], at)
  {
    ApartWithin(a, b, at, 0, hi);
    assert a[0..hi] == a[..hi] && b[0..hi] == b[..hi];
  }

  /** A change to one block, and nothing else, changes the sum. */
  lemma OneBlockDetected(mix: Mixer, a: seq<Byte>, b: seq<Byte>, at: nat, prior: Sum)
    requires Injective(mix) && Aligned(|a|) && Aligned(at) && OneBlockApart(a, b, at)
    ensures Checksum(mix, a, prior) != Checksum(mix, b, prior)
  {
    var before := SplitSum(mix, a, at, prior);
    var same := SplitSum(mix, b, at, prior);
    BlocksDiffer(a, b, at);
    assert KeepsApart(mix, before, same, BlockAt(a, at), BlockAt(b, at));
    CarriesDifference(mix, a[at + BLOCK..], mix(before, BlockAt(a, at)), mix(same, BlockAt(b, at)));
  }

  lemma SplitSum(mix: Mixer, a: seq<Byte>, at: nat, prior: Sum) returns (before: Sum)
    requires Aligned(|a|) && Aligned(at) && at + BLOCK <= |a|
    ensures before == Checksum(mix, a[..at], prior)
    ensures Aligned(|a[at + BLOCK..]|)
    ensures Checksum(mix, a, prior) == Checksum(mix, a[at + BLOCK..], mix(before, BlockAt(a, at)))
  {
    before := Checksum(mix, a[..at], prior);
    NextBlock(mix, a, at, prior);
    var front, rest := a[..at + BLOCK], a[at + BLOCK..];
    assert a == front + rest;
    AlignedParts(at + BLOCK, |rest|);
    ChecksumComposes(mix, front, rest, prior);
  }
}
