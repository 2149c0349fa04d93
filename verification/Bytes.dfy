// Little-endian fixed-width encoding: what a writer appends, what a reader at
// an offset finds, and that the second recovers the first.

module Bytes {
  import opened Core

  type byte = x: nat | x < 256

  function Pow256(n: nat): (p: nat)
    ensures p > 0
  {
    if n == 0 then 1 else 256 * Pow256(n - 1)
  }

  /** The n low bytes of v, least significant first. */
  function Le(v: nat, n: nat): (b: seq<byte>)
    ensures |b| == n
  {
    if n == 0 then [] else [v % 256] + Le(v / 256, n - 1)
  }

  function FromLe(b: seq<byte>): nat {
    if b == [] then 0 else b[0] + 256 * FromLe(b[1..])
  }

  lemma {:induction false} FromLeOfLe(v: nat, n: nat)
    requires v < Pow256(n)
    ensures FromLe(Le(v, n)) == v
  {
    if n > 0 {
      FromLeOfLe(v / 256, n - 1);
      assert Le(v, n)[1..] == Le(v / 256, n - 1);
    }
  }

  /** Byte i holds the digit of weight 256 to the i. */
  lemma {:induction false} LeDigits(v: nat, n: nat, i: nat)
    requires i < n
    ensures Le(v, n)[i] == v / Pow256(i) % 256
  {
    if i > 0 {
      LeDigits(v / 256, n - 1, i - 1);
      DivideTwice(v, 256, Pow256(i - 1));
    }
  }

  lemma {:induction false} DivideTwice(x: nat, a: nat, b: nat)
    requires a > 0 && b > 0
    ensures a * b > 0 && x / a / b == x / (a * b)
  {
    var (q, r) := (x / a, x % a);
    var (p, s) := (q / b, q % b);
    Nested(x, a, b, q, r, p, s);
    QuotientOf(x, a * b, p, a * s + r);
  }

  lemma {:induction false} Nested(x: nat, a: nat, b: nat, q: nat, r: nat, p: nat, s: nat)
    requires x == a * q + r && r < a && q == b * p + s && s < b
    ensures x == (a * b) * p + (a * s + r) && a * s + r < a * b
  {
    Regroup(a, b, p, s);
    BelowProduct(a, b, s, r);
  }

  lemma {:induction false} Regroup(a: nat, b: nat, q: nat, r: nat)
    ensures a * (b * q + r) == (a * b) * q + a * r
  {
  }

  lemma {:induction false} BelowProduct(a: nat, b: nat, q: nat, r: nat)
    requires q < b && r < a
    ensures 0 < a * b && a * q + r < a * b
  {
    assert a * (q + 1) == a * q + a;
    assert a * (b - (q + 1)) >= 0;
    assert a * (q + 1) + a * (b - (q + 1)) == a * b;
  }

  lemma {:induction false} QuotientOf(x: nat, d: nat, q: nat, r: nat)
    requires d > 0 && x == d * q + r && r < d
    ensures x / d == q
  {
    var (p, s) := (x / d, x % d);
    assert x == d * p + s;
    assert p < q ==> d * q >= d * (p + 1) == d * p + d;
    assert p > q ==> d * p >= d * (q + 1) == d * q + d;
  }

  lemma {:induction false} LeInjective(v: nat, w: nat, n: nat)
    requires v < Pow256(n) && w < Pow256(n) && Le(v, n) == Le(w, n)
    ensures v == w
  {
    FromLeOfLe(v, n);
    FromLeOfLe(w, n);
  }

  lemma {:induction false} LeOfFromLe(b: seq<byte>)
    ensures FromLe(b) < Pow256(|b|)
    ensures Le(FromLe(b), |b|) == b
  {
    if b != [] {
      LeOfFromLe(b[1..]);
      assert FromLe(b) / 256 == FromLe(b[1..]) && FromLe(b) % 256 == b[0];
      assert b == [b[0]] + b[1..];
    }
  }

  lemma {:induction false} WidthsInBytes()
    ensures Pow256(1) == 256 && Pow256(2) == U16_END && Pow256(4) == U32_END && Pow256(8) == U64_END
  {
    assert Pow256(4) == 256 * Pow256(3) == 256 * (256 * Pow256(2));
    assert Pow256(8) == 256 * (256 * (256 * (256 * Pow256(4)))) by {
      assert Pow256(6) == 256 * (256 * Pow256(4));
    }
  }

  /** The unsigned value stored at an offset. */
  function At(data: seq<byte>, offset: nat, n: nat): nat
    requires offset + n <= |data|
  {
    FromLe(data[offset..offset + n])
  }

  lemma {:induction false} AtFits(data: seq<byte>, offset: nat, n: nat)
    requires offset + n <= |data|
    ensures At(data, offset, n) < Pow256(n)
  {
    LeOfFromLe(data[offset..offset + n]);
  }

  /** What was appended after `front` is what a reader finds there. */
  lemma {:induction false} ReadBack(front: seq<byte>, v: nat, n: nat, data: seq<byte>)
    requires v < Pow256(n) && front + Le(v, n) <= data
    ensures |front| + n <= |data| && At(data, |front|, n) == v && front <= data
  {
    FromLeOfLe(v, n);
    assert data[|front|..|front| + n] == Le(v, n) by {
      assert data[..|front| + n] == front + Le(v, n);
      assert data[|front|..|front| + n] == data[..|front| + n][|front|..];
    }
    assert data[..|front|] == data[..|front| + n][..|front|] == front;
  }

  /** Appending the word found after a prefix of the data extends the prefix. */
  lemma {:induction false} AppendWord(front: seq<byte>, data: seq<byte>, n: nat) returns (longer: seq<byte>)
    requires |front| + n <= |data| && front == data[..|front|]
    ensures longer == front + Le(At(data, |front|, n), n) && |longer| == |front| + n && longer == data[..|longer|]
  {
    longer := front + Le(At(data, |front|, n), n);
    LeOfFromLe(data[|front|..|front| + n]);
  }

  lemma {:induction false} ReadBackBlob(front: seq<byte>, text: seq<byte>, data: seq<byte>)
    requires front + text <= data
    ensures |front| + |text| <= |data| && data[|front|..|front| + |text|] == text && front <= data
  {
    assert data[..|front| + |text|] == front + text;
    assert data[|front|..|front| + |text|] == data[..|front| + |text|][|front|..];
    assert data[..|front|] == data[..|front| + |text|][..|front|] == front;
  }

  // --- In-place stores ----------------------------------------------------------

  /** store_le: writes n bytes at an offset and touches nothing else. */
  method StoreLe(out: array<byte>, offset: nat, value: nat, n: nat)
    requires offset + n <= out.Length
    modifies out
    ensures out[..offset + n] == old(out[..offset]) + Le(value, n)
    ensures forall k :: offset + n <= k < out.Length ==> out[k] == old(out[k])
  {
    var rest := value;
    for i := 0 to n
      invariant out[..offset + i] + Le(rest, n - i) == old(out[..offset]) + Le(value, n)
      invariant forall k :: offset + i <= k < out.Length ==> out[k] == old(out[k])
    {
      ghost var before := out[..offset + i];
      out[offset + i] := rest % 256;
      assert out[..offset + i + 1] == before + [rest % 256];
      assert before + ([rest % 256] + Le(rest / 256, n - i - 1)) == before + [rest % 256] + Le(rest / 256, n - i - 1);
      rest := rest / 256;
    }
    assert out[..offset + n] + [] == out[..offset + n];
  }

  // --- Append-only writer ----------------------------------------------------------

  function PutBlob(b: seq<byte>, text: seq<byte>): seq<byte> {
    b + Le(|text|, 4) + text
  }

  class ByteWriter {
    var buffer: seq<byte>

    constructor ()
      ensures buffer == []
    {
      buffer := [];
    }

    /** Fixed-width little-endian append, one byte per round. */
    method Word(value: nat, n: nat)
      modifies this
      ensures buffer == old(buffer) + Le(value, n)
    {
      var rest := value;
      for i := 0 to n
        invariant buffer + Le(rest, n - i) == old(buffer) + Le(value, n)
      {
        assert buffer + ([rest % 256] + Le(rest / 256, n - i - 1)) == buffer + [rest % 256] + Le(rest / 256, n - i - 1);
        buffer := buffer + [rest % 256];
        rest := rest / 256;
      }
      assert buffer + [] == buffer;
    }

    method Blob(text: seq<byte>)
      modifies this
      ensures buffer == PutBlob(old(buffer), text)
    {
      Word(|text|, 4);
      buffer := buffer + text;
    }
  }

  // --- Bounds-checked reader ----------------------------------------------------------

  class ByteReader {
    const data: seq<byte>
    var offset: nat

    ghost predicate Valid()
      reads this
    {
      offset <= |data|
    }

    constructor (data: seq<byte>)
      ensures Valid() && this.data == data && offset == 0
    {
      this.data := data;
      offset := 0;
    }

    predicate Empty()
      requires Valid()
      reads this
    {
      offset == |data|
    }

    /** Reads an n-byte word, or leaves the cursor alone when it does not fit. */
    method Word(n: nat) returns (ok: bool, value: nat)
      requires Valid()
      modifies this
      ensures Valid() && (ok <==> old(offset) + n <= |data|)
      ensures ok ==> offset == old(offset) + n && value == At(data, old(offset), n)
      ensures !ok ==> offset == old(offset)
    {
      if |data| - offset < n {
        return false, 0;
      }
      value := 0;
      var i := n;
      while i > 0
        invariant 0 <= i <= n
        invariant value == FromLe(data[offset + i..offset + n])
        decreases i
      {
        i := i - 1;
        assert data[offset + i..offset + n][1..] == data[offset + i + 1..offset + n];
        value := data[offset + i] + 256 * value;
      }
      ok := true;
      offset := offset + n;
    }

    method Blob(maxSize: nat) returns (ok: bool, text: seq<byte>)
      requires Valid()
      modifies this
      ensures Valid()
      ensures ok <==> ReadBlob(data, old(offset), maxSize).Some?
      ensures ok ==> ReadBlob(data, old(offset), maxSize) == Some((text, offset))
    {
      var length;
      ok, length := Word(4);
      if !ok || length > maxSize || |data| - offset < length {
        return false, [];
      }
      text := data[offset..offset + length];
      offset := offset + length;
    }
  }

  /** A length-prefixed blob at an offset, with the offset after it. */
  function ReadBlob(data: seq<byte>, offset: nat, maxSize: nat): Option<(seq<byte>, nat)> {
    if offset + 4 > |data| then None
    else
      var length := At(data, offset, 4);
      if length > maxSize || offset + 4 + length > |data| then None
      else Some((data[offset + 4..offset + 4 + length], offset + 4 + length))
  }

  lemma {:induction false} ReadBackPutBlob(front: seq<byte>, text: seq<byte>, maxSize: nat, data: seq<byte>)
    requires |text| <= maxSize && |text| < U32_END && PutBlob(front, text) <= data
    ensures ReadBlob(data, |front|, maxSize) == Some((text, |PutBlob(front, text)|)) && front <= data
  {
    WidthsInBytes();
    ReadBackBlob(front + Le(|text|, 4), text, data);
    ReadBack(front, |text|, 4, data);
  }
}
