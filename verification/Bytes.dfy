/** Byte buffers and the words read out of them. */
module Bytes {
  type Byte = x: int | 0 <= x < 256

  const WORD_LIMIT: int := 0x1_0000_0000
  type Word = x: int | 0 <= x < WORD_LIMIT

  /** The low 32 bits, as an unsigned number. */
  function Wrap(x: nat): Word {
    if x < WORD_LIMIT then x else Wrap(x - WORD_LIMIT)
  }

  lemma {:induction false} WrapIsModulo(x: nat)
    ensures Wrap(x) == x % WORD_LIMIT
  {
    if x >= WORD_LIMIT { WrapIsModulo(x - WORD_LIMIT); }
  }

  lemma WrapCancels(a: nat, x: Word, y: Word)
    requires Wrap(a + x) == Wrap(a + y)
    ensures x == y
  {
    WrapIsModulo(a + x);
    WrapIsModulo(a + y);
  }

  function BigEndian(b: seq<Byte>): nat {
    if b == [] then 0 else BigEndian(b[..|b| - 1]) * 256 + b[|b| - 1]
  }

  function LittleEndian(b: seq<Byte>): nat {
    if b == [] then 0 else LittleEndian(b[1..]) * 256 + b[0]
  }

  lemma BigEndianGrows(front: seq<Byte>, last: Byte)
    ensures BigEndian(front + [last]) == BigEndian(front) * 256 + last
  {
    assert (front + [last])[..|front|] == front;
  }

  lemma LittleEndianGrows(first: Byte, rest: seq<Byte>)
    ensures LittleEndian([first] + rest) == LittleEndian(rest) * 256 + first
  {
    assert ([first] + rest)[1..] == rest;
  }

  lemma FourBigEndian(a: Byte, b: Byte, c: Byte, d: Byte)
    ensures BigEndian([a, b, c, d]) == 0x100_0000 * a as int + 0x1_0000 * b as int + 0x100 * c as int + d
  {
    BigEndianGrows([], a);
    BigEndianGrows([a], b);
    BigEndianGrows([a, b], c);
    BigEndianGrows([a, b, c], d);
    assert [] + [a] == [a] && [a] + [b] == [a, b] && [a, b] + [c] == [a, b, c] && [a, b, c] + [d] == [a, b, c, d];
  }

  lemma FourLittleEndian(a: Byte, b: Byte, c: Byte, d: Byte)
    ensures LittleEndian([a, b, c, d]) == 0x100_0000 * d as int + 0x1_0000 * c as int + 0x100 * b as int + a
  {
    LittleEndianGrows(d, []);
    LittleEndianGrows(c, [d]);
    LittleEndianGrows(b, [c, d]);
    LittleEndianGrows(a, [b, c, d]);
    assert [d] + [] == [d] && [c] + [d] == [c, d] && [b] + [c, d] == [b, c, d] && [a] + [b, c, d] == [a, b, c, d];
  }

  lemma FourBytes(b: seq<Byte>)
    requires |b| == 4
    ensures BigEndian(b) == 0x100_0000 * b[0] + 0x1_0000 * b[1] + 0x100 * b[2] + b[3] < WORD_LIMIT
    ensures LittleEndian(b) == 0x100_0000 * b[3] + 0x1_0000 * b[2] + 0x100 * b[1] + b[0] < WORD_LIMIT
  {
    assert b == [b[0], b[1], b[2], b[3]];
    FourBigEndian(b[0], b[1], b[2], b[3]);
    FourLittleEndian(b[0], b[1], b[2], b[3]);
  }

  function Word4(b: seq<Byte>, bigEndian: bool): Word
    requires |b| == 4
  {
    FourBytes(b);
    if bigEndian then BigEndian(b) else LittleEndian(b)
  }

  function FourAt(b: seq<Byte>, at: nat): (four: seq<Byte>)
    requires at + 4 <= |b|
  {
    [b[at], b[at + 1], b[at + 2], b[at + 3]]
  }

  /** The unsigned 32-bit word stored at an offset. */
  function WordAt(b: seq<Byte>, at: nat, bigEndian: bool): Word
    requires at + 4 <= |b|
  {
    Word4(FourAt(b, at), bigEndian)
  }

  lemma {:induction false} BigEndianInjective(a: seq<Byte>, b: seq<Byte>)
    requires |a| == |b| && BigEndian(a) == BigEndian(b)
    ensures a == b
  {
    if a != [] {
      var n := |a| - 1;
      BigEndianInjective(a[..n], b[..n]);
      assert a == a[..n] + [a[n]] && b == b[..n] + [b[n]];
    }
  }

  lemma {:induction false} LittleEndianInjective(a: seq<Byte>, b: seq<Byte>)
    requires |a| == |b| && LittleEndian(a) == LittleEndian(b)
    ensures a == b
  {
    if a != [] {
      LittleEndianInjective(a[1..], b[1..]);
      assert a == [a[0]] + a[1..] && b == [b[0]] + b[1..];
    }
  }

  /** Four bytes and the word they hold determine each other. */
  lemma WordIsItsBytes(a: seq<Byte>, b: seq<Byte>, bigEndian: bool)
    requires |a| == |b| == 4 && Word4(a, bigEndian) == Word4(b, bigEndian)
    ensures a == b
  {
    if bigEndian { BigEndianInjective(a, b); } else { LittleEndianInjective(a, b); }
  }

  lemma SliceWithin(b: seq<Byte>, from: nat, to: nat, lo: nat, hi: nat)
    requires lo <= hi && from + hi <= to <= |b|
    ensures b[from..to][lo..hi] == b[from + lo..from + hi]
  {
    var inner := b[from..to];
    forall i | 0 <= i < hi - lo ensures inner[lo..hi][i] == b[from + lo..from + hi][i] {
      assert inner[lo + i] == b[from + lo + i];
    }
  }

  lemma SharedSlice(a: seq<Byte>, b: seq<Byte>, n: nat, lo: nat, hi: nat)
    requires n <= |a| && n <= |b| && a[..n] == b[..n] && lo <= hi <= n
    ensures a[lo..hi] == b[lo..hi]
  {
    assert a[..n][lo..hi] == a[lo..hi] && b[..n][lo..hi] == b[lo..hi];
  }

  lemma SharedPrefix(a: seq<Byte>, b: seq<Byte>, n: nat, k: nat)
    requires k <= n <= |a| && n <= |b| && a[..n] == b[..n]
    ensures a[..k] == b[..k]
  {
    assert a[..n][..k] == a[..k] && b[..n][..k] == b[..k];
  }
}
