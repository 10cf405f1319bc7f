// The streaming SHA-1 of the program, refined against FIPS 180-4.
module Sha1 {
  import opened Arithmetic
  import opened Bytes

  type word = bv32
  type byte = bv8

  // ---------- FIPS 180-4 ----------

  // Addition modulo 2^32.
  function Plus(x: word, y: word): word {
    x + y
  }

  function Sum(a: word, f: word, e: word, k: word, w: word): word {
    a + f + e + k + w
  }

  // Section 3.2: rotation to the left.
  function Rotl1(x: word): word {
    (x << 1) | (x >> 31)
  }

  function Rotl5(x: word): word {
    (x << 5) | (x >> 27)
  }

  function Rotl30(x: word): word {
    (x << 30) | (x >> 2)
  }

  // A rotation by one moves all bits up and brings the top bit back at the bottom.
  lemma RotatedOnce(x: word)
    ensures Rotl1(x) >> 1 == x & 0x7fff_ffff && Rotl1(x) & 1 == x >> 31
  {
  }

  // The others are five and thirty of it.
  lemma RotatedFive(x: word)
    ensures Rotl5(x) == Rotl1(Rotl1(Rotl1(Rotl1(Rotl1(x)))))
  {
    OneMore(x);
    hide Rotl1;
  }

  lemma OneMore(x: word)
    ensures Rotl1(x) == (x << 1) | (x >> 31) && Rotl1((x << 1) | (x >> 31)) == (x << 2) | (x >> 30)
    ensures Rotl1((x << 2) | (x >> 30)) == (x << 3) | (x >> 29)
    ensures Rotl1((x << 3) | (x >> 29)) == (x << 4) | (x >> 28)
    ensures Rotl1((x << 4) | (x >> 28)) == Rotl5(x)
  {
  }

  lemma RotatedThirty(x: word)
    ensures Rotl30(x) == Rotl5(Rotl5(Rotl5(Rotl5(Rotl5(Rotl5(x))))))
  {
    FiveMore(x);
    hide Rotl5;
  }

  lemma FiveMore(x: word)
    ensures Rotl5(x) == (x << 5) | (x >> 27) && Rotl5((x << 5) | (x >> 27)) == (x << 10) | (x >> 22)
    ensures Rotl5((x << 10) | (x >> 22)) == (x << 15) | (x >> 17)
    ensures Rotl5((x << 15) | (x >> 17)) == (x << 20) | (x >> 12)
    ensures Rotl5((x << 20) | (x >> 12)) == (x << 25) | (x >> 7)
    ensures Rotl5((x << 25) | (x >> 7)) == Rotl30(x)
  {
  }

  // Section 4.1.1.
  function Ch(x: word, y: word, z: word): word {
    (x & y) ^ (!x & z)
  }

  function Parity(x: word, y: word, z: word): word {
    x ^ y ^ z
  }

  function Maj(x: word, y: word, z: word): word {
    (x & y) ^ (x & z) ^ (y & z)
  }

  function F(t: nat, x: word, y: word, z: word): word {
    if t < 20 then Ch(x, y, z) else if t < 40 then Parity(x, y, z) else if t < 60 then Maj(x, y, z) else Parity(x, y, z)
  }

  // Section 4.2.1.
  function K(t: nat): word {
    if t < 20 then 0x5a827999 else if t < 40 then 0x6ed9eba1 else if t < 60 then 0x8f1bbcdc else 0xca62c1d6
  }

  datatype Hash = Hash(a: word, b: word, c: word, d: word, e: word)

  // Section 5.3.1.
  const INITIAL: Hash := Hash(0x67452301, 0xefcdab89, 0x98badcfe, 0x10325476, 0xc3d2e1f0)

  function Xor4(a: word, b: word, c: word, d: word): word {
    a ^ b ^ c ^ d
  }

  // Section 6.1.2, step 1.
  function Schedule(block: seq<word>, t: nat): word
    requires |block| == 16
  {
    if t < 16 then block[t]
    else Rotl1(Xor4(Schedule(block, t - 3), Schedule(block, t - 8), Schedule(block, t - 14), Schedule(block, t - 16)))
  }

  // Section 6.1.2, step 3: one round.
  function Round(h: Hash, t: nat, w: word): Hash {
    Hash(Sum(Rotl5(h.a), F(t, h.b, h.c, h.d), h.e, K(t), w), h.a, Rotl30(h.b), h.c, h.d)
  }

  function Rounds(h: Hash, block: seq<word>, t: nat): Hash
    requires |block| == 16
  {
    if t == 0 then h else Round(Rounds(h, block, t - 1), t - 1, Schedule(block, t - 1))
  }

  // Section 6.1.2: one message block.
  function Compress(h: Hash, block: seq<word>): Hash
    requires |block| == 16
  {
    var r := Rounds(h, block, 80);
    Hash(Plus(h.a, r.a), Plus(h.b, r.b), Plus(h.c, r.c), Plus(h.d, r.d), Plus(h.e, r.e))
  }

  // A word from four bytes, the first one most significant.
  function Word(a: byte, b: byte, c: byte, d: byte): word {
    ((a as word) << 24) | ((b as word) << 16) | ((c as word) << 8) | (d as word)
  }

  // Section 5.2.1: the sixteen words of a block.
  function Block(data: seq<byte>): (r: seq<word>)
    requires |data| == 64
    ensures |r| == 16
  {
    seq(16, j requires 0 <= j < 16 => Word(data[4 * j], data[4 * j + 1], data[4 * j + 2], data[4 * j + 3]))
  }

  // The hash after a whole number of blocks.
  function HashBlocks(data: seq<byte>): Hash
    requires |data| % 64 == 0
  {
    if data == [] then INITIAL
    else Compress(HashBlocks(data[..|data| - 64]), Block(data[|data| - 64..]))
  }

  // The length in bits as 64 bits, big endian.  (The standard stops at 2^64 bits; beyond
  // that the program's counter wraps round.)
  function LengthBytes(length: nat): (r: seq<byte>)
    ensures |r| == 8
  {
    var bits := 8 * length % 0x1_0000_0000_0000_0000;
    [ByteOf(bits / 0x100_0000_0000_0000 % 256), ByteOf(bits / 0x1_0000_0000_0000 % 256),
     ByteOf(bits / 0x100_0000_0000 % 256), ByteOf(bits / 0x1_0000_0000 % 256),
     ByteOf(bits / 0x100_0000 % 256), ByteOf(bits / 0x1_0000 % 256),
     ByteOf(bits / 0x100 % 256), ByteOf(bits % 256)]
  }

  function ByteOf(n: nat): byte
    requires n < 256
  {
    n as byte
  }

  // They are the number of bits, stored in big endian.
  lemma LengthStored(length: nat)
    ensures forall i :: 0 <= i < 8 ==>
              LengthBytes(length)[i] == ByteOf(BE(8 * length % 0x1_0000_0000_0000_0000, 8)[i])
  {
    hide ByteOf;
    EightDigits(8 * length % 0x1_0000_0000_0000_0000);
  }

  lemma EightDigits(n: nat)
    ensures BE(n, 8) == [
              n / 0x100_0000_0000_0000 % 256, n / 0x1_0000_0000_0000 % 256, n / 0x100_0000_0000 % 256,
              n / 0x1_0000_0000 % 256, n / 0x100_0000 % 256, n / 0x1_0000 % 256, n / 0x100 % 256, n % 256]
  {
    hide BE;
    Longer(n, 1, 7);
    Longer(n, 0x100, 6);
    Longer(n, 0x1_0000, 5);
    Longer(n, 0x100_0000, 4);
    Longer(n, 0x1_0000_0000, 3);
    Longer(n, 0x100_0000_0000, 2);
    Longer(n, 0x1_0000_0000_0000, 1);
    Longer(n, 0x100_0000_0000_0000, 0);
  }

  lemma Longer(n: nat, unit: nat, width: nat)
    requires unit > 0
    ensures BE(n / unit, width + 1) == BE(n / (unit * 256), width) + [n / unit % 256] && BE(n, 0) == []
  {
    var q := n / unit / 256;
    var r := n - q * (unit * 256);
    assert n == unit * (n / unit) + n % unit && n / unit == 256 * q + n / unit % 256;
    assert r == unit * (n / unit % 256) + n % unit by { Spread(unit, q, n / unit % 256); }
    Small(unit, n / unit % 256, n % unit);
    Remainder(n, q, unit * 256, r);
  }

  lemma Spread(unit: nat, q: nat, t: nat)
    ensures unit * (256 * q + t) == q * (unit * 256) + unit * t
  {
  }

  lemma Small(unit: nat, t: nat, r: nat)
    requires t < 256 && r < unit
    ensures unit * t + r < unit * 256
  {
    assert unit * t <= unit * 255;
  }

  function Zeros(n: nat): (r: seq<byte>)
    ensures |r| == n
  {
    if n == 0 then [] else Zeros(n - 1) + [0]
  }

  // Section 5.1.1: a 1 bit, the smallest number of 0 bits that leaves room for the length at
  // the end of a block, the length.
  function Pad(message: seq<byte>): (r: seq<byte>)
    ensures |r| % 64 == 0
  {
    PadLength(|message|);
    message + [0x80] + Zeros((55 - |message|) % 64) + LengthBytes(|message|)
  }

  lemma PadLength(n: nat)
    ensures (n + 1 + (55 - n) % 64 + 8) % 64 == 0
  {
    var q := (55 - n) / 64;
    assert 55 - n == 64 * q + (55 - n) % 64;
    assert n + 1 + (55 - n) % 64 + 8 == 64 * (1 - q);
  }

  function WordBytes(x: word): (r: seq<byte>)
    ensures |r| == 4
  {
    [(x >> 24) as byte, ((x >> 16) & 0xff) as byte, ((x >> 8) & 0xff) as byte, (x & 0xff) as byte]
  }

  function Digest(message: seq<byte>): seq<byte> {
    var h := HashBlocks(Pad(message));
    WordBytes(h.a) + WordBytes(h.b) + WordBytes(h.c) + WordBytes(h.d) + WordBytes(h.e)
  }

  // ---------- the program's formulas ----------

  function ChWritten(b: word, c: word, d: word): word {
    ((c ^ d) & b) ^ d
  }

  function MajWritten(b: word, c: word, d: word): word {
    (b & c) | (d & (b | c))
  }

  lemma ChBits(b: word, c: word, d: word)
    ensures ((c ^ d) & b) ^ d == (b & c) ^ (!b & d)
  {
  }

  lemma MajBits(b: word, c: word, d: word)
    ensures (b & c) | (d & (b | c)) == (b & c) ^ (b & d) ^ (c & d)
  {
  }

  lemma ChAsWritten(b: word, c: word, d: word)
    ensures ChWritten(b, c, d) == Ch(b, c, d)
  {
    ChBits(b, c, d);
  }

  lemma MajAsWritten(b: word, c: word, d: word)
    ensures MajWritten(b, c, d) == Maj(b, c, d)
  {
    MajBits(b, c, d);
  }

  lemma SumSwap(a: word, f: word, e: word, k: word, w: word)
    ensures Sum(a, f, e, w, k) == Sum(a, f, e, k, w)
  {
  }

  // The program adds the scheduled word before the constant.
  lemma OneRound(h: Hash, t: nat, f: word, w: word)
    requires f == F(t, h.b, h.c, h.d)
    ensures Round(h, t, w) == Hash(Sum(Rotl5(h.a), f, h.e, w, K(t)), h.a, Rotl30(h.b), h.c, h.d)
  {
    hide Sum, F, K, Rotl5, Rotl30;
    SumSwap(Rotl5(h.a), f, h.e, K(t), w);
  }

  lemma Functions(t: nat, b: word, c: word, d: word)
    ensures t < 20 ==> F(t, b, c, d) == ChWritten(b, c, d) && K(t) == 0x5a827999
    ensures 20 <= t < 40 ==> F(t, b, c, d) == Parity(b, c, d) && K(t) == 0x6ed9eba1
    ensures 40 <= t < 60 ==> F(t, b, c, d) == MajWritten(b, c, d) && K(t) == 0x8f1bbcdc
    ensures 60 <= t ==> F(t, b, c, d) == Parity(b, c, d) && K(t) == 0xca62c1d6
  {
    hide Ch, Maj, Parity, ChWritten, MajWritten;
    ChAsWritten(b, c, d);
    MajAsWritten(b, c, d);
  }

  // Shifting a byte into a word from the right.
  function Feed(x: word, b: byte): word {
    (x << 8) | (b as word)
  }

  // What a word holds after some bytes have been shifted in; `x` is what it held before.
  function Fed(x: word, data: seq<byte>): word {
    if data == [] then x else Feed(Fed(x, data[..|data| - 1]), data[|data| - 1])
  }

  // Four bytes push out whatever was there before.
  lemma FourFed(x: word, a: byte, b: byte, c: byte, d: byte)
    ensures Feed(Feed(Feed(Feed(x, a), b), c), d) == Word(a, b, c, d)
  {
  }

  lemma FedWord(x: word, data: seq<byte>)
    requires |data| == 4
    ensures Fed(x, data) == Word(data[0], data[1], data[2], data[3])
  {
    hide Feed, Word;
    var d3, d2, d1 := data[..3], data[..2], data[..1];
    assert d3[..2] == d2 && d2[..1] == d1 && d1[..0] == [];
    assert Fed(x, d1) == Feed(x, data[0]);
    assert Fed(x, d2) == Feed(Feed(x, data[0]), data[1]);
    assert Fed(x, d3) == Feed(Feed(Feed(x, data[0]), data[1]), data[2]);
    FourFed(x, data[0], data[1], data[2], data[3]);
  }

  function Top(x: word): byte {
    (x >> 24) as byte
  }

  function Shl8(x: word): word {
    x << 8
  }

  lemma Top1(x: word)
    ensures Top(Shl8(x)) == ((x >> 16) & 0xff) as byte
  {
  }

  lemma Top2(x: word)
    ensures Top(Shl8(Shl8(x))) == ((x >> 8) & 0xff) as byte
  {
  }

  lemma Top3(x: word)
    ensures Top(Shl8(Shl8(Shl8(x)))) == (x & 0xff) as byte
  {
  }

  lemma TopBytes(x: word)
    ensures WordBytes(x) == [Top(x), Top(Shl8(x)), Top(Shl8(Shl8(x))), Top(Shl8(Shl8(Shl8(x))))]
  {
    hide Shl8;
    Top1(x);
    Top2(x);
    Top3(x);
  }

  // ---------- the program ----------

  // The first `lenW` bytes of the block being collected are in W; `stale` is what the word
  // that is being filled held before its first byte arrived.
  predicate Collected(w: seq<word>, partial: seq<byte>, stale: word)
    requires |w| == 80 && |partial| < 64
  {
    && (forall j :: 0 <= j < |partial| / 4 ==>
          w[j] == Word(partial[4 * j], partial[4 * j + 1], partial[4 * j + 2], partial[4 * j + 3]))
    && w[|partial| / 4] == Fed(stale, partial[|partial| - |partial| % 4..])
  }

  // One more byte is shifted in.
  lemma CollectOne(w: seq<word>, partial: seq<byte>, stale: word, b: byte)
    requires |w| == 80 && |partial| < 63 && Collected(w, partial, stale)
    ensures var v := w[|partial| / 4 := Feed(w[|partial| / 4], b)];
            Collected(v, partial + [b], if |partial| % 4 == 3 then v[|partial| / 4 + 1] else stale)
  {
    hide Word, Feed;
    var v := w[|partial| / 4 := Feed(w[|partial| / 4], b)];
    var q := partial + [b];
    LastBytes(w, partial, stale, b);
    if |partial| % 4 == 3 {
      assert |q| / 4 == |partial| / 4 + 1 && |q| % 4 == 0;
      assert q[|q|..] == [];
      forall j | 0 <= j < |q| / 4 ensures v[j] == Word(q[4 * j], q[4 * j + 1], q[4 * j + 2], q[4 * j + 3]) {
        if j == |partial| / 4 {
          FedWord(stale, q[4 * j..4 * j + 4]);
          assert q[4 * j..4 * j + 4] == q[|partial| - |partial| % 4..];
        } else {
          assert v[j] == w[j] && 4 * j + 3 < |partial|;
        }
      }
    } else {
      assert |q| / 4 == |partial| / 4;
      assert q[|q| - |q| % 4..] == q[|partial| - |partial| % 4..];
    }
  }

  // The word that is being filled, after one more byte.
  lemma LastBytes(w: seq<word>, partial: seq<byte>, stale: word, b: byte)
    requires |w| == 80 && |partial| < 64 && Collected(w, partial, stale)
    ensures var q := partial + [b];
            var start := |partial| - |partial| % 4;
            Feed(w[|partial| / 4], b) == Fed(stale, q[start..])
  {
    hide Feed, Word;
    var q := partial + [b];
    var start := |partial| - |partial| % 4;
    assert q[start..] == partial[start..] + [b];
    assert (partial[start..] + [b])[..|partial| - start] == partial[start..];
  }

  // The sixty-fourth byte completes the block.
  lemma CollectLast(w: seq<word>, partial: seq<byte>, stale: word, b: byte)
    requires |w| == 80 && |partial| == 63 && Collected(w, partial, stale)
    ensures w[15 := Feed(w[15], b)][..16] == Block(partial + [b])
  {
    hide Word, Feed;
    LastBytes(w, partial, stale, b);
    var q := partial + [b];
    assert q[60..] == q[60..64];
    FedWord(stale, q[60..64]);
  }

  class Sha1Context {
    const H: array<word>
    const W: array<word>
    var lenW: nat
    var sizeHi: nat
    var sizeLo: nat
    // all bytes taken in since the last initialisation
    ghost var message: seq<byte>
    ghost var stale: word

    ghost predicate Shape() {
      H.Length == 5 && W.Length == 80 && H != W
    }

    ghost function Current(): Hash
      reads H
      requires H.Length == 5
    {
      Hash(H[0], H[1], H[2], H[3], H[4])
    }

    // All full blocks are hashed, the rest is collected.
    ghost predicate Absorbed()
      reads this`lenW, this`message, this`stale, H, W
    {
      && Shape()
      && lenW == |message| % 64
      && Current() == HashBlocks(message[..|message| - lenW])
      && Collected(W[..], message[|message| - lenW..], stale)
    }

    ghost predicate Valid()
      reads this, H, W
    {
      && Absorbed()
      && sizeHi < 0x1_0000_0000 && sizeLo < 0x1_0000_0000
      && sizeHi * 0x1_0000_0000 + sizeLo == 8 * |message| % 0x1_0000_0000_0000_0000
    }

    constructor ()
      ensures Valid() && message == [] && fresh(H) && fresh(W)
    {
      H := new word[5];
      W := new word[80];
      new;
      Init();
    }

    method Reset()
      requires Shape()
      modifies this`lenW, this`message, this`stale, H, W
      ensures Absorbed() && message == []
    {
      hide HashBlocks, Collected;
      lenW := 0;
      H[0] := 0x67452301;
      H[1] := 0xefcdab89;
      H[2] := 0x98badcfe;
      H[3] := 0x10325476;
      H[4] := 0xc3d2e1f0;
      for i := 0 to 80
        modifies W
      {
        W[i] := 0;
      }
      message := [];
      stale := W[0];
      assert message[..0] == [] && message[0..] == [];
      NothingCollected(W[..]);
      NothingHashed();
    }

    method Init()
      requires Shape()
      modifies this, H, W
      ensures Valid() && message == []
    {
      hide Absorbed;
      Reset();
      sizeHi, sizeLo := 0, 0;
    }

    // The message schedule, in place behind the sixteen words of the block.
    method ExpandWords()
      requires Shape()
      modifies W
      ensures forall k :: 0 <= k < 80 ==> W[k] == Schedule(old(W[..16]), k)
    {
      hide Xor4, Rotl1;
      ghost var block := W[..16];
      for t := 16 to 80
        modifies W
        invariant forall k :: 0 <= k < t ==> W[k] == Schedule(block, k)
      {
        W[t] := Rotl1(Xor4(W[t - 3], W[t - 8], W[t - 14], W[t - 16]));
      }
    }

    method AllRounds(ghost block: seq<word>) returns (A: word, B: word, C: word, D: word, E: word)
      requires Shape() && |block| == 16
      requires forall k :: 0 <= k < 80 ==> W[k] == Schedule(block, k)
      ensures Hash(A, B, C, D, E) == Rounds(Current(), block, 80)
    {
      hide Sum, Rotl5, Rotl30, F, K, ChWritten, MajWritten, Parity, Round, Rounds, Schedule;
      A, B, C, D, E := H[0], H[1], H[2], H[3], H[4];
      ghost var h := Current();
      NoRound(h, block);
      for t := 0 to 20
        modifies {}
        invariant Hash(A, B, C, D, E) == Rounds(h, block, t)
      {
        var f := ChWritten(B, C, D);
        Functions(t, B, C, D);
        OneRound(Hash(A, B, C, D, E), t, f, W[t]);
        NextRound(h, block, t);
        var TEMP := Sum(Rotl5(A), f, E, W[t], 0x5a827999);
        E, D, C, B, A := D, C, Rotl30(B), A, TEMP;
      }
      for t := 20 to 40
        modifies {}
        invariant Hash(A, B, C, D, E) == Rounds(h, block, t)
      {
        var f := Parity(B, C, D);
        Functions(t, B, C, D);
        OneRound(Hash(A, B, C, D, E), t, f, W[t]);
        NextRound(h, block, t);
        var TEMP := Sum(Rotl5(A), f, E, W[t], 0x6ed9eba1);
        E, D, C, B, A := D, C, Rotl30(B), A, TEMP;
      }
      for t := 40 to 60
        modifies {}
        invariant Hash(A, B, C, D, E) == Rounds(h, block, t)
      {
        var f := MajWritten(B, C, D);
        Functions(t, B, C, D);
        OneRound(Hash(A, B, C, D, E), t, f, W[t]);
        NextRound(h, block, t);
        var TEMP := Sum(Rotl5(A), f, E, W[t], 0x8f1bbcdc);
        E, D, C, B, A := D, C, Rotl30(B), A, TEMP;
      }
      for t := 60 to 80
        modifies {}
        invariant Hash(A, B, C, D, E) == Rounds(h, block, t)
      {
        var f := Parity(B, C, D);
        Functions(t, B, C, D);
        OneRound(Hash(A, B, C, D, E), t, f, W[t]);
        NextRound(h, block, t);
        var TEMP := Sum(Rotl5(A), f, E, W[t], 0xca62c1d6);
        E, D, C, B, A := D, C, Rotl30(B), A, TEMP;
      }
    }

    method HashBlock()
      requires Shape()
      modifies H, W
      ensures Current() == Compress(old(Current()), old(W[..16]))
    {
      hide Plus, Rounds, Schedule;
      ghost var block := W[..16];
      ExpandWords();
      var A, B, C, D, E := AllRounds(block);
      H[0] := Plus(H[0], A);
      H[1] := Plus(H[1], B);
      H[2] := Plus(H[2], C);
      H[3] := Plus(H[3], D);
      H[4] := Plus(H[4], E);
    }

    method Update(data: seq<byte>)
      requires Valid()
      modifies this, H, W
      ensures Valid() && message == old(message) + data
    {
      for i := 0 to |data|
        invariant Valid() && message == old(message) + data[..i]
      {
        TakeByte(data[i]);
        assert data[..i + 1] == data[..i] + [data[i]];
      }
      assert data[..|data|] == data;
    }

    method ShiftIn(b: byte)
      requires Shape() && lenW < 64
      modifies W
      ensures W[..] == old(W[..])[lenW / 4 := Feed(old(W[..])[lenW / 4], b)]
    {
      W[lenW / 4] := Feed(W[lenW / 4], b);
    }

    method Absorb(b: byte)
      requires Absorbed()
      modifies this`lenW, this`message, this`stale, H, W
      ensures Absorbed() && message == old(message) + [b]
    {
      hide Feed, Fed, Compress, Word, Block, Collected, HashBlocks;
      MessageGrows(message, lenW, b);
      ghost var partial := message[|message| - lenW..];
      ghost var words := W[..];
      ShiftIn(b);
      lenW := lenW + 1;
      if lenW % 64 == 0 {
        CollectLast(words, partial, stale, b);
        assert W[..16] == W[..][..16];
        HashBlock();
        lenW := 0;
        stale := W[0];
        NothingCollected(W[..]);
      } else {
        CollectOne(words, partial, stale, b);
        stale := if |partial| % 4 == 3 then W[..][|partial| / 4 + 1] else stale;
      }
      message := message + [b];
    }

    // Eight bits more, with a carry into the upper word.
    static method CountEight(hi: nat, lo: nat, ghost n: nat) returns (h: nat, l: nat)
      requires hi < 0x1_0000_0000 && lo < 0x1_0000_0000
      requires hi * 0x1_0000_0000 + lo == 8 * n % 0x1_0000_0000_0000_0000
      ensures h < 0x1_0000_0000 && l < 0x1_0000_0000
      ensures h * 0x1_0000_0000 + l == 8 * (n + 1) % 0x1_0000_0000_0000_0000
    {
      l := (lo + 8) % 0x1_0000_0000;
      h := (hi + if l < 8 then 1 else 0) % 0x1_0000_0000;
    }

    // The body of the loop of SHA1_Update.
    method TakeByte(b: byte)
      requires Valid()
      modifies this, H, W
      ensures Valid() && message == old(message) + [b]
    {
      hide Absorbed;
      ghost var n := |message|;
      Absorb(b);
      sizeHi, sizeLo := CountEight(sizeHi, sizeLo, n);
    }

    // A 0x80 byte, zeros up to the place of the length, the length.
    method AppendPadding()
      requires Valid()
      modifies this, H, W
      ensures Valid() && message == Pad(old(message))
    {
      hide Collected, HashBlocks, LengthBytes, CounterAsBytes;
      var padlen := CounterAsBytes(sizeHi, sizeLo);
      CounterBytes(sizeHi, sizeLo, |message|);
      ghost var m := message;
      Update([0x80]);
      ghost var k := 0;
      while lenW != 56
        invariant Valid() && message == m + [0x80] + Zeros(k)
        invariant k <= (55 - |m|) % 64
        decreases (55 - |m|) % 64 - k
      {
        RoomLeft(|m|, k);
        Update([0x00]);
        k := k + 1;
      }
      RoomLeft(|m|, k);
      Update(padlen);
    }

    method Final() returns (hash: array<byte>)
      requires Valid()
      modifies this, H, W
      ensures hash.Length == 20 && hash[..] == Digest(old(message))
      ensures Valid() && message == [] && fresh(hash)
    {
      hide Collected, HashBlocks, WordBytes, Pad;
      AppendPadding();
      assert message[..|message|] == message;
      hash := new byte[20];
      Output(hash);
      Init();
    }

    // Writes the five words out, most significant byte first, shifting them away.
    method Output(hash: array<byte>)
      requires Shape() && hash.Length == 20 && hash as object != H as object && hash as object != W as object
      modifies H, hash
      ensures var h := old(Current());
              hash[..] == WordBytes(h.a) + WordBytes(h.b) + WordBytes(h.c) + WordBytes(h.d) + WordBytes(h.e)
    {
      hide WordBytes, Top, Shl8, Progress;
      ghost var h := H[..];
      NoByteOut(h, hash[..]);
      for i := 0 to 20
        modifies H, hash
        invariant Progress(h, H[..], hash[..], i)
      {
        ByteOut(h, H[..], hash[..], i);
        ghost var hs, out := H[..], hash[..];
        hash[i] := Top(H[i / 4]);
        H[i / 4] := Shl8(H[i / 4]);
        assert H[..] == hs[i / 4 := Shl8(hs[i / 4])] && hash[..] == out[i := Top(hs[i / 4])];
      }
      AllBytesOut(h, H[..], hash[..]);
    }
  }

  // The first i bytes of the words h are out; the words hs are shifted accordingly.
  predicate Progress(h: seq<word>, hs: seq<word>, out: seq<byte>, i: nat) {
    && |h| == |hs| == 5 && |out| == 20 && i <= 20
    && (forall j :: 0 <= j < 5 ==> hs[j] == Shifted(h[j], BytesOut(i, j)))
    && (forall j :: 0 <= j < i ==> out[j] == WordBytes(h[j / 4])[j % 4])
  }

  lemma NoByteOut(h: seq<word>, out: seq<byte>)
    requires |h| == 5 && |out| == 20
    ensures Progress(h, h, out, 0)
  {
  }

  lemma ByteOut(h: seq<word>, hs: seq<word>, out: seq<byte>, i: nat)
    requires Progress(h, hs, out, i) && i < 20
    ensures Progress(h, hs[i / 4 := Shl8(hs[i / 4])], out[i := Top(hs[i / 4])], i + 1)
  {
    hide WordBytes, Top, Shl8;
    ShiftedBytes(h[i / 4], i % 4);
  }

  lemma AllBytesOut(h: seq<word>, hs: seq<word>, out: seq<byte>)
    requires Progress(h, hs, out, 20)
    ensures out == WordBytes(h[0]) + WordBytes(h[1]) + WordBytes(h[2]) + WordBytes(h[3]) + WordBytes(h[4])
  {
    hide WordBytes, Shifted;
  }

  function Shifted(x: word, n: nat): word {
    if n == 0 then x else Shl8(Shifted(x, n - 1))
  }

  // How many bytes of word j are among the first i bytes.
  function BytesOut(i: nat, j: nat): nat {
    if i / 4 > j then 4 else if i / 4 == j then i % 4 else 0
  }

  lemma ShiftedBytes(x: word, n: nat)
    requires n < 4
    ensures Top(Shifted(x, n)) == WordBytes(x)[n]
  {
    hide Top, Shl8, WordBytes;
    TopBytes(x);
    assert n >= 1 ==> Shifted(x, 1) == Shl8(x);
    assert n >= 2 ==> Shifted(x, 2) == Shl8(Shl8(x));
    assert n >= 3 ==> Shifted(x, 3) == Shl8(Shl8(Shl8(x)));
  }

  lemma NoRound(h: Hash, block: seq<word>)
    requires |block| == 16
    ensures Rounds(h, block, 0) == h
  {
  }

  lemma NextRound(h: Hash, block: seq<word>, t: nat)
    requires |block| == 16
    ensures Rounds(h, block, t + 1) == Round(Rounds(h, block, t), t, Schedule(block, t))
  {
    hide Round, Schedule;
  }

  lemma NothingHashed()
    ensures HashBlocks([]) == INITIAL
  {
  }

  lemma NothingCollected(w: seq<word>)
    requires |w| == 80
    ensures Collected(w, [], w[0])
  {
  }

  function CounterAsBytes(hi: nat, lo: nat): seq<byte> {
    [ByteOf(hi / 0x100_0000 % 256), ByteOf(hi / 0x1_0000 % 256), ByteOf(hi / 0x100 % 256), ByteOf(hi % 256),
     ByteOf(lo / 0x100_0000 % 256), ByteOf(lo / 0x1_0000 % 256), ByteOf(lo / 0x100 % 256), ByteOf(lo % 256)]
  }

  // How the split of the message into blocks and rest changes with one more byte.
  lemma MessageGrows(message: seq<byte>, lenW: nat, b: byte)
    requires lenW == |message| % 64
    ensures var all := message + [b];
            if lenW == 63 then
              && |all| % 64 == 0
              && all[..|all| - 0] == all && all[|all| - 0..] == []
              && HashBlocks(all) == Compress(HashBlocks(message[..|message| - lenW]),
                 Block(message[|message| - lenW..] + [b]))
            else
              && |all| % 64 == lenW + 1
              && all[..|all| - (lenW + 1)] == message[..|message| - lenW]
              && all[|all| - (lenW + 1)..] == message[|message| - lenW..] + [b]
  {
    hide Compress, Block;
    var all := message + [b];
    if lenW == 63 {
      assert all[..|all| - 64] == message[..|message| - lenW];
      assert all[|all| - 64..] == message[|message| - lenW..] + [b];
    }
  }

  // The two counter words are the eight length bytes.
  lemma CounterDigits(hi: nat, lo: nat, bits: nat)
    requires hi < 0x1_0000_0000 && lo < 0x1_0000_0000 && bits == hi * 0x1_0000_0000 + lo
    ensures bits / 0x100_0000_0000_0000 == hi / 0x100_0000 && bits / 0x1_0000_0000_0000 == hi / 0x1_0000
    ensures bits / 0x100_0000_0000 == hi / 0x100 && bits / 0x1_0000_0000 == hi
  {
  }

  // A multiple of 256 does not change the last byte.
  lemma LastByte(k: nat, a: nat)
    ensures (256 * k + a) % 256 == a % 256
  {
  }

  lemma LowQuotients(hi: nat, lo: nat, bits: nat)
    requires lo < 0x1_0000_0000 && bits == hi * 0x1_0000_0000 + lo
    ensures bits / 0x100_0000 == 256 * hi + lo / 0x100_0000
    ensures bits / 0x1_0000 == 256 * (hi * 0x100) + lo / 0x1_0000
    ensures bits / 0x100 == 256 * (hi * 0x1_0000) + lo / 0x100
    ensures bits == 256 * (hi * 0x100_0000) + lo
  {
  }

  lemma CounterBytes(hi: nat, lo: nat, length: nat)
    requires hi < 0x1_0000_0000 && lo < 0x1_0000_0000
    requires hi * 0x1_0000_0000 + lo == 8 * length % 0x1_0000_0000_0000_0000
    ensures LengthBytes(length) == CounterAsBytes(hi, lo)
  {
    hide ByteOf;
    var bits := 8 * length % 0x1_0000_0000_0000_0000;
    CounterDigits(hi, lo, bits);
    LowQuotients(hi, lo, bits);
    LastByte(hi, lo / 0x100_0000);
    LastByte(hi * 0x100, lo / 0x1_0000);
    LastByte(hi * 0x1_0000, lo / 0x100);
    LastByte(hi * 0x100_0000, lo);
  }

  // After the 0x80 byte and k zeros there is room for just the length exactly when k is the
  // number of zeros of the padding.
  lemma RoomLeft(n: nat, k: nat)
    requires k <= (55 - n) % 64
    ensures (n + 1 + k) % 64 == 56 <==> k == (55 - n) % 64
  {
    var q := (55 - n) / 64;
    assert 55 - n == 64 * q + (55 - n) % 64;
    var m := (n + 1 + k) / 64;
    assert n + 1 + k == 64 * m + (n + 1 + k) % 64;
  }

  // The digest does not depend on how the message was cut into pieces.
  method DigestOfPieces(pieces: seq<seq<byte>>) returns (hash: array<byte>)
    ensures hash[..] == Digest(Concat(pieces))
  {
    var c := new Sha1Context();
    for i := 0 to |pieces|
      invariant c.Valid() && c.message == Concat(pieces[..i]) && fresh(c) && fresh(c.H) && fresh(c.W)
    {
      c.Update(pieces[i]);
      assert pieces[..i + 1][..i] == pieces[..i];
    }
    assert pieces[..|pieces|] == pieces;
    hash := c.Final();
  }

  function Concat(pieces: seq<seq<byte>>): seq<byte> {
    if pieces == [] then [] else Concat(pieces[..|pieces| - 1]) + pieces[|pieces| - 1]
  }
}
