// Bytes, and integers stored in them.
module Bytes {
  import opened Options

  type byte = b: int | 0 <= b < 256

  // The number of values that fit into `width` bytes.
  function Range(width: nat): (r: nat)
    ensures r > 0
  {
    if width == 0 then 1 else 256 * Range(width - 1)
  }

  lemma Ranges()
    ensures Range(1) == 0x100 && Range(2) == 0x1_0000 && Range(4) == 0x1_0000_0000
    ensures Range(8) == 0x1_0000_0000_0000_0000
  {
    assert Range(3) == 256 * Range(2) && Range(5) == 256 * Range(4) && Range(7) == 256 * Range(6);
    assert Range(6) == 256 * Range(5) && Range(8) == 256 * Range(7);
  }

  // Little endian; what does not fit into `width` bytes is cut off.
  function LE(n: nat, width: nat): (r: seq<byte>)
    ensures |r| == width
  {
    if width == 0 then [] else [n % 256] + LE(n / 256, width - 1)
  }

  function FromLE(b: seq<byte>): nat {
    if b == [] then 0 else b[0] + 256 * FromLE(b[1..])
  }

  lemma {:induction false} FromLEBounded(b: seq<byte>)
    ensures FromLE(b) < Range(|b|)
  {
    if b != [] {
      FromLEBounded(b[1..]);
    }
  }

  lemma {:induction false} LERoundTrip(n: nat, width: nat)
    requires n < Range(width)
    ensures FromLE(LE(n, width)) == n
  {
    if width > 0 {
      LERoundTrip(n / 256, width - 1);
      assert LE(n, width)[1..] == LE(n / 256, width - 1);
    }
  }

  // Big endian.
  function BE(n: nat, width: nat): (r: seq<byte>)
    ensures |r| == width
  {
    if width == 0 then [] else BE(n / 256, width - 1) + [n % 256]
  }

  function FromBE(b: seq<byte>): nat {
    if b == [] then 0 else 256 * FromBE(b[..|b| - 1]) + b[|b| - 1]
  }

  lemma {:induction false} FromBEBounded(b: seq<byte>)
    ensures FromBE(b) < Range(|b|)
  {
    if b != [] {
      FromBEBounded(b[..|b| - 1]);
    }
  }

  lemma {:induction false} BERoundTrip(n: nat, width: nat)
    requires n < Range(width)
    ensures FromBE(BE(n, width)) == n
  {
    if width > 0 {
      BERoundTrip(n / 256, width - 1);
      assert BE(n, width)[..width - 1] == BE(n / 256, width - 1);
    }
  }

  // The next little-endian integer of a record, and what follows it.
  function Take(b: seq<byte>, width: nat): (nat, seq<byte>)
    requires width <= |b|
  {
    (FromLE(b[..width]), b[width..])
  }

  lemma TakeStored(n: nat, width: nat, rest: seq<byte>)
    requires n < Range(width)
    ensures Take(LE(n, width) + rest, width) == (n, rest)
  {
    LERoundTrip(n, width);
    assert (LE(n, width) + rest)[..width] == LE(n, width);
    assert (LE(n, width) + rest)[width..] == rest;
  }

  // Fields are read one after the other.
  lemma TakeFrom(b: seq<byte>, pos: nat, width: nat)
    requires pos + width <= |b|
    ensures Take(b[pos..], width) == (FromLE(b[pos..pos + width]), b[pos + width..])
  {
    assert b[pos..][..width] == b[pos..pos + width];
    assert b[pos..][width..] == b[pos + width..];
  }

  // The weight of every byte of a stored integer: the first is the lowest in little endian, the
  // highest in big endian.
  lemma TwoWeights(b: seq<byte>)
    requires |b| == 2
    ensures FromLE(b) == b[0] + 0x100 * (b[1] as int) && FromBE(b) == 0x100 * (b[0] as int) + b[1]
  {
    assert FromLE(b[1..]) == b[1] + 256 * FromLE(b[1..][1..]);
    assert FromBE(b[..1]) == 256 * FromBE(b[..1][..0]) + b[0];
  }

  lemma FourWeights(b: seq<byte>)
    requires |b| == 4
    ensures var w0: int, w1: int, w2: int, w3: int := b[0], b[1], b[2], b[3];
            && FromLE(b) == w0 + 0x100 * w1 + 0x1_0000 * w2 + 0x100_0000 * w3
            && FromBE(b) == 0x100_0000 * w0 + 0x1_0000 * w1 + 0x100 * w2 + w3
  {
    TwoWeights(b[2..]);
    TwoWeights(b[..2]);
    assert b[1..][1..] == b[2..] && b[..3][..2] == b[..2];
    assert FromLE(b[1..]) == b[1] + 256 * FromLE(b[2..]);
    assert FromBE(b[..3]) == 256 * FromBE(b[..2]) + b[2];
  }

  lemma Associate(x: int, y: int, z: int)
    ensures x * (y * z) == (x * y) * z
  {
  }

  // The later bytes of a longer integer weigh more.
  lemma {:induction false} LaterWeights(b: seq<byte>, k: nat)
    requires k <= |b|
    ensures FromLE(b) == FromLE(b[..k]) + Range(k) * FromLE(b[k..])
  {
    if k == 0 {
      assert b[0..] == b;
    } else {
      LaterWeights(b[1..], k - 1);
      assert b[1..][..k - 1] == b[..k][1..] && b[1..][k - 1..] == b[k..];
      Associate(256, Range(k - 1), FromLE(b[k..]));
    }
  }

  // A part of a file, if the file is long enough.
  function ReadAt(file: seq<byte>, offset: nat, length: nat): (r: Option<seq<byte>>)
    ensures r.Some? ==> |r.value| == length
  {
    if offset + length <= |file| then Some(file[offset..offset + length]) else None
  }

  // `bytes` stand at `pos`.
  predicate At(data: seq<byte>, pos: nat, bytes: seq<byte>) {
    pos + |bytes| <= |data| && data[pos..pos + |bytes|] == bytes
  }

  lemma AtSplit(data: seq<byte>, pos: nat, a: seq<byte>, b: seq<byte>)
    requires At(data, pos, a + b)
    ensures At(data, pos, a) && At(data, pos + |a|, b)
  {
    assert (a + b)[..|a|] == a && (a + b)[|a|..] == b;
    assert data[pos..pos + |a + b|][..|a|] == data[pos..pos + |a|];
    assert data[pos..pos + |a + b|][|a|..] == data[pos + |a|..pos + |a| + |b|];
  }

  lemma AtByte(data: seq<byte>, pos: nat, bytes: seq<byte>, k: nat)
    requires At(data, pos, bytes) && k < |bytes|
    ensures data[pos + k] == bytes[k]
  {
    assert data[pos..pos + |bytes|][k] == data[pos + k];
  }

  lemma FieldAt(data: seq<byte>, pos: nat, n: nat, width: nat)
    requires n < Range(width) && At(data, pos, LE(n, width))
    ensures pos + width <= |data| && FromLE(data[pos..pos + width]) == n
  {
    LERoundTrip(n, width);
  }
}
