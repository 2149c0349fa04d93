// The 64-bit multiply-and-xor digest used for record and frame integrity. It is
// not claimed to be collision-free; what it does guarantee is that every step is
// injective, so changing any single byte always changes the digest.

module Digest {
  import opened Core
  import opened Bytes

  const OFFSET_BASIS: nat := 1469598103934665603
  const PRIME: nat := 0x100000001B3
  const PRIME_INVERSE: nat := 0xCE965057AFF6957B

  /** Bitwise exclusive or of the n low bits. */
  function Xor(a: nat, b: nat, n: nat): nat {
    if n == 0 then 0 else (a % 2 + b % 2) % 2 + 2 * Xor(a / 2, b / 2, n - 1)
  }

  lemma {:induction false} XorFits(a: nat, b: nat, n: nat)
    ensures Xor(a, b, n) < Pow2(n)
  {
    if n > 0 {
      XorFits(a / 2, b / 2, n - 1);
    }
  }

  lemma {:induction false} XorCommutes(a: nat, b: nat, n: nat)
    ensures Xor(a, b, n) == Xor(b, a, n)
  {
    if n > 0 {
      XorCommutes(a / 2, b / 2, n - 1);
    }
  }

  lemma {:induction false} SplitsAlike(bit: nat, bit': nat, b: nat, rest: nat, rest': nat)
    requires bit < 2 && bit' < 2 && b < 2 && (bit + b) % 2 + 2 * rest == (bit' + b) % 2 + 2 * rest'
    ensures bit == bit' && rest == rest'
  {
  }

  lemma {:induction false} XorInjective(a: nat, a': nat, b: nat, n: nat)
    requires a < Pow2(n) && a' < Pow2(n) && Xor(a, b, n) == Xor(a', b, n)
    ensures a == a'
  {
    if n > 0 {
      SplitsAlike(a % 2, a' % 2, b % 2, Xor(a / 2, b / 2, n - 1), Xor(a' / 2, b / 2, n - 1));
      XorInjective(a / 2, a' / 2, b / 2, n - 1);
    }
  }

  /** hash ^ b: only the low byte changes. */
  function XorByte(hash: u64, b: byte): nat {
    hash / 256 * 256 + Xor(hash % 256, b, 8)
  }

  function Step(hash: u64, b: byte): u64 {
    (XorByte(hash, b) * PRIME) % U64_END
  }

  /** The digest of a byte string, continued from a seed. */
  function DigestOf(seed: u64, data: seq<byte>): u64 {
    if data == [] then seed else Step(DigestOf(seed, data[..|data| - 1]), data[|data| - 1])
  }

  function Checksum(data: seq<byte>): u64 {
    DigestOf(OFFSET_BASIS, data)
  }

  method Fnv1a64(data: seq<byte>, seed: u64) returns (hash: u64)
    ensures hash == DigestOf(seed, data)
  {
    hash := seed;
    for i := 0 to |data|
      invariant hash == DigestOf(seed, data[..i])
    {
      assert data[..i + 1][..i] == data[..i];
      hash := Step(hash, data[i]);
    }
    assert data[..|data|] == data;
  }

  lemma {:induction false} ByteWidth()
    ensures Pow2(8) == 256
  {
    assert Pow2(4) == 16;
    assert Pow2(8) == 16 * Pow2(4) by {
      assert Pow2(6) == 4 * Pow2(4);
    }
  }

  lemma {:induction false} XorByteFits(hash: u64, b: byte)
    ensures XorByte(hash, b) < U64_END
    ensures XorByte(hash, b) / 256 == hash / 256 && XorByte(hash, b) % 256 == Xor(hash % 256, b, 8)
  {
    ByteWidth();
    XorFits(hash % 256, b, 8);
  }

  /** Multiplying by the odd prime loses nothing modulo 2^64. */
  lemma {:induction false} PrimeIsInvertible(x: u64)
    ensures ((x * PRIME) % U64_END * PRIME_INVERSE) % U64_END == x
  {
    var q := x * PRIME / U64_END;
    assert x * PRIME == q * U64_END + (x * PRIME) % U64_END;
    var k := x * 887285111055 - q * PRIME_INVERSE;
    assert (x * PRIME) % U64_END * PRIME_INVERSE == x + k * U64_END;
    MultipleDropsOut(x, k);
  }

  lemma {:induction false} MultipleDropsOut(x: u64, k: int)
    ensures (x + k * U64_END) % U64_END == x
  {
  }

  lemma {:induction false} StepInjectiveInHash(h: u64, h': u64, b: byte)
    requires Step(h, b) == Step(h', b)
    ensures h == h'
  {
    XorByteFits(h, b);
    XorByteFits(h', b);
    PrimeIsInvertible(XorByte(h, b));
    PrimeIsInvertible(XorByte(h', b));
    assert XorByte(h, b) == XorByte(h', b);
    ByteWidth();
    XorInjective(h % 256, h' % 256, b, 8);
  }

  lemma {:induction false} StepInjectiveInByte(h: u64, b: byte, b': byte)
    requires Step(h, b) == Step(h, b')
    ensures b == b'
  {
    XorByteFits(h, b);
    XorByteFits(h, b');
    PrimeIsInvertible(XorByte(h, b));
    PrimeIsInvertible(XorByte(h, b'));
    assert XorByte(h, b) == XorByte(h, b');
    ByteWidth();
    XorCommutes(h % 256, b, 8);
    XorCommutes(h % 256, b', 8);
    XorInjective(b, b', h % 256, 8);
  }

  lemma {:induction false} DigestConcat(seed: u64, a: seq<byte>, b: seq<byte>)
    ensures DigestOf(seed, a + b) == DigestOf(DigestOf(seed, a), b)
  {
    if b == [] {
      assert a + b == a;
    } else {
      DigestConcat(seed, a, b[..|b| - 1]);
      assert (a + b)[..|a + b| - 1] == a + b[..|b| - 1];
    }
  }

  /** Different digests stay different however the data goes on. */
  lemma {:induction false} DigestInjectiveInSeed(h: u64, h': u64, data: seq<byte>)
    requires DigestOf(h, data) == DigestOf(h', data)
    ensures h == h'
  {
    if data != [] {
      var n := |data| - 1;
      StepInjectiveInHash(DigestOf(h, data[..n]), DigestOf(h', data[..n]), data[n]);
      DigestInjectiveInSeed(h, h', data[..n]);
    }
  }

  /** A single changed byte always changes the digest. */
  lemma {:induction false} SingleByteChangesDigest(seed: u64, data: seq<byte>, i: nat, b: byte)
    requires i < |data| && b != data[i]
    ensures DigestOf(seed, data[i := b]) != DigestOf(seed, data)
  {
    var front, back := data[..i], data[i + 1..];
    assert data == front + [data[i]] + back && data[i := b] == front + [b] + back;
    DigestConcat(seed, front + [data[i]], back);
    DigestConcat(seed, front + [b], back);
    assert (front + [data[i]])[..i] == front && (front + [b])[..i] == front;
    if DigestOf(seed, data[i := b]) == DigestOf(seed, data) {
      DigestInjectiveInSeed(DigestOf(seed, front + [data[i]]), DigestOf(seed, front + [b]), back);
      StepInjectiveInByte(DigestOf(seed, front), data[i], b);
    }
  }
}
