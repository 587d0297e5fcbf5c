/** Big-endian packing of unsigned integers into bytes, as Python's
    struct.pack('>%dH' ...), ('>%dL' ...) and ('>%dQ' ...) lay them out,
    and the matching unpacking. */
module Packing {
  import opened Bits

  type Byte = b: int | 0 <= b < 256

  /** 256^n. */
  function Pow256(n: nat): (p: nat)
    ensures p >= 1
  {
    if n == 0 then 1 else 256 * Pow256(n - 1)
  }

  lemma {:induction false} Pow256IsPow2(n: nat)
    ensures Pow256(n) == Pow2(8 * n)
  {
    if n > 0 {
      Pow256IsPow2(n - 1);
      Pow2Add(8, 8 * (n - 1));
      assert Pow2(8) == 256;
    }
  }

  lemma Pow256Table()
    ensures Pow256(2) == 0x1_0000 && Pow256(4) == 0x1_0000_0000
    ensures Pow256(8) == 0x1_0000_0000_0000_0000
  {
    assert Pow256(4) == 0x1_0000_0000;
    assert Pow256(6) == 0x1_0000_0000_0000;
  }

  /** One value in `size` big-endian bytes: the low byte comes last. */
  function EncodeBE(x: nat, size: nat): (bs: seq<Byte>)
    ensures |bs| == size
  {
    if size == 0 then [] else EncodeBE(x / 256, size - 1) + [x % 256]
  }

  /** The value of a big-endian byte string. */
  function DecodeBE(bs: seq<Byte>): (x: nat)
    ensures x < Pow256(|bs|)
  {
    if bs == [] then 0 else DecodeBE(bs[..|bs| - 1]) * 256 + bs[|bs| - 1]
  }

  lemma {:induction false} DecodeEncode(x: nat, size: nat)
    requires x < Pow256(size)
    ensures DecodeBE(EncodeBE(x, size)) == x
  {
    if size > 0 {
      var bs, q, r := EncodeBE(x, size), x / 256, x % 256;
      assert x == 256 * q + r;
      assert q < Pow256(size - 1);
      assert bs[..size - 1] == EncodeBE(q, size - 1) && bs[size - 1] == r;
      DecodeEncode(q, size - 1);
      assert DecodeBE(bs) == DecodeBE(bs[..size - 1]) * 256 + r;
    }
  }

  lemma {:induction false} EncodeDecode(bs: seq<Byte>)
    ensures EncodeBE(DecodeBE(bs), |bs|) == bs
  {
    if bs != [] {
      var init := bs[..|bs| - 1];
      var x := DecodeBE(bs);
      assert x / 256 == DecodeBE(init) && x % 256 == bs[|bs| - 1];
      EncodeDecode(init);
    }
  }

  /** Byte j from the end of the encoding is digit j of x in base 256. */
  lemma {:induction false} EncodeBEDigit(x: nat, size: nat, j: nat)
    requires j < size
    ensures EncodeBE(x, size)[size - 1 - j] == (x / Pow256(j)) % 256
  {
    if j > 0 {
      EncodeBEDigit(x / 256, size - 1, j - 1);
      DivDiv256(x, j - 1);
    }
  }

  lemma DivDiv256(x: nat, j: nat)
    ensures (x / 256) / Pow256(j) == x / Pow256(j + 1)
  {
    var p := Pow256(j);
    var a, b := (x / 256) / p, (x / 256) % p;
    assert x / 256 == p * a + b;
    assert x == (256 * p) * a + (256 * b + x % 256);
    DivUnique(x, 256 * p, a, 256 * b + x % 256);
  }

  /** Every value fits in `size` bytes: struct.pack accepts the list. */
  predicate Fits(xs: seq<nat>, size: nat)
  {
    forall i :: 0 <= i < |xs| ==> xs[i] < Pow256(size)
  }

  /** struct.pack('>%d' + code, *xs) for an unsigned code of `size` bytes. */
  function PackBE(xs: seq<nat>, size: nat): (bs: seq<Byte>)
    ensures |bs| == size * |xs|
  {
    if xs == [] then [] else EncodeBE(xs[0], size) + PackBE(xs[1..], size)
  }

  /** struct.unpack of consecutive `size`-byte big-endian values; a trailing
      partial value is not read. */
  function UnpackBE(bs: seq<Byte>, size: nat): (xs: seq<nat>)
    requires size > 0
    ensures Fits(xs, size)
    decreases |bs|
  {
    if |bs| < size then [] else [DecodeBE(bs[..size])] + UnpackBE(bs[size..], size)
  }

  /** Unpacking what was packed gives the values back. */
  lemma {:induction false} UnpackPack(xs: seq<nat>, size: nat)
    requires size > 0 && Fits(xs, size)
    ensures UnpackBE(PackBE(xs, size), size) == xs
  {
    if xs != [] {
      var bs := PackBE(xs, size);
      assert bs[..size] == EncodeBE(xs[0], size);
      assert bs[size..] == PackBE(xs[1..], size);
      DecodeEncode(xs[0], size);
      assert Fits(xs[1..], size) by {
        forall i | 0 <= i < |xs| - 1 ensures xs[1..][i] < Pow256(size) {
          assert xs[1..][i] == xs[i + 1];
        }
      }
      UnpackPack(xs[1..], size);
    }
  }

  /** Unpacking gives one value per full group of `size` bytes. */
  lemma {:induction false} UnpackLength(bs: seq<Byte>, size: nat, n: nat)
    requires size > 0 && |bs| == size * n
    ensures |UnpackBE(bs, size)| == n
  {
    if n > 0 {
      MulPred(size, n);
      UnpackLength(bs[size..], size, n - 1);
    } else {
      assert |bs| == 0;
    }
  }

  lemma MulPred(a: nat, n: nat)
    requires n > 0
    ensures a * n == a + a * (n - 1)
  {
  }

  /** Byte j of value k sits at index 8k + j of a '>%dQ' packing. */
  lemma {:induction false} PackQuadAt(xs: seq<nat>, k: nat, j: nat)
    requires k < |xs| && j < 8
    ensures 8 * k + j < |PackBE(xs, 8)|
    ensures PackBE(xs, 8)[8 * k + j] == EncodeBE(xs[k], 8)[j]
  {
    var bs, rest := PackBE(xs, 8), PackBE(xs[1..], 8);
    assert bs == EncodeBE(xs[0], 8) + rest;
    if k > 0 {
      PackQuadAt(xs[1..], k - 1, j);
      assert bs[8 + (8 * (k - 1) + j)] == rest[8 * (k - 1) + j];
    }
  }

  /** Word k of a 4-byte unpacking is bytes 4k .. 4k + 3 read big-endian. */
  lemma {:induction false} UnpackWordAt(bs: seq<Byte>, k: nat)
    requires 4 * k + 4 <= |bs|
    ensures k < |UnpackBE(bs, 4)|
    ensures UnpackBE(bs, 4)[k] == DecodeBE(bs[4 * k..4 * k + 4])
  {
    var rest := bs[4..];
    assert UnpackBE(bs, 4) == [DecodeBE(bs[..4])] + UnpackBE(rest, 4);
    if k > 0 {
      UnpackWordAt(rest, k - 1);
      assert rest[4 * (k - 1)..4 * (k - 1) + 4] == bs[4 * k..4 * k + 4];
    }
  }

  /** struct.unpack('>%dl', ...): each group of 4 bytes read as a
      two's-complement 32-bit value, whose low 32 bits are the unsigned word. */
  function UnpackSigned32(bs: seq<Byte>): (xs: seq<int>)
    ensures |xs| == |UnpackBE(bs, 4)|
    ensures forall i :: 0 <= i < |xs| ==>
      -0x8000_0000 <= xs[i] < 0x8000_0000 && xs[i] % 0x1_0000_0000 == UnpackBE(bs, 4)[i]
  {
    var us := UnpackBE(bs, 4);
    assert Pow256(4) == 0x1_0000_0000;
    seq(|us|, i requires 0 <= i < |us| => Signed(us[i]))
  }
}
