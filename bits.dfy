/**
 * Integers as bit patterns: powers of two, little-endian decoding, and the
 * binary digits that set_mem writes into memory (bin(v) without its "0b"
 * prefix, left-padded to the block width, then reversed so the least
 * significant bit comes first).
 */
module Bits {

  function Pow2(k: nat): (r: nat)
    ensures r >= 1
  {
    if k == 0 then 1 else 2 * Pow2(k - 1)
  }

  lemma {:induction false} Pow2Monotone(a: nat, b: nat)
    requires a <= b
    ensures Pow2(a) <= Pow2(b)
    decreases b
  {
    if a < b {
      Pow2Monotone(a, b - 1);
    }
  }

  /** The number a bit vector denotes when bits[0] is the least significant bit. */
  function ValueOf(bits: seq<bool>): nat {
    if bits == [] then 0 else (if bits[0] then 1 else 0) + 2 * ValueOf(bits[1..])
  }

  /** A single bit denotes 0 or 1. */
  lemma ValueOfSingle(b: bool)
    ensures ValueOf([b]) == if b then 1 else 0
  {
    assert [b][1..] == [];
  }

  /** n bits denote a number below 2^n. */
  lemma {:induction false} ValueOfBound(bits: seq<bool>)
    ensures ValueOf(bits) < Pow2(|bits|)
    decreases |bits|
  {
    if bits != [] {
      ValueOfBound(bits[1..]);
    }
  }

  /** Appending a most significant bit adds its weight 2^|bits|. */
  lemma {:induction false} ValueOfSnoc(bits: seq<bool>, b: bool)
    ensures ValueOf(bits + [b]) == ValueOf(bits) + (if b then Pow2(|bits|) else 0)
    decreases |bits|
  {
    if bits != [] {
      assert (bits + [b])[1..] == bits[1..] + [b];
      ValueOfSnoc(bits[1..], b);
    }
  }

  function Zeros(k: nat): (r: seq<bool>)
    ensures |r| == k && forall i :: 0 <= i < k ==> !r[i]
  {
    seq(k, _ => false)
  }

  function Reverse<T>(s: seq<T>): (r: seq<T>)
    ensures |r| == |s|
  {
    if s == [] then [] else Reverse(s[1..]) + [s[0]]
  }

  lemma {:induction false} ReverseConcat<T>(a: seq<T>, b: seq<T>)
    ensures Reverse(a + b) == Reverse(b) + Reverse(a)
    decreases |a|
  {
    if a == [] {
      assert a + b == b;
    } else {
      assert (a + b)[1..] == a[1..] + b;
      ReverseConcat(a[1..], b);
    }
  }

  /** The digits of bin(v) after its "0b" prefix: most significant first, no leading zero except for 0 itself. */
  function Binary(v: nat): (r: seq<bool>)
    ensures |r| >= 1 && r[0] == (v != 0)
  {
    if v < 2 then [v == 1] else Binary(v / 2) + [v % 2 == 1]
  }

  /** Reading the digits of bin(v) back to front gives v. */
  lemma {:induction false} BinaryValue(v: nat)
    ensures ValueOf(Reverse(Binary(v))) == v
    decreases v
  {
    if v >= 2 {
      ReverseConcat(Binary(v / 2), [v % 2 == 1]);
      assert Reverse([v % 2 == 1]) == [v % 2 == 1];
      var rest := Reverse(Binary(v / 2));
      assert ([v % 2 == 1] + rest)[1..] == rest;
      BinaryValue(v / 2);
    }
  }

  /** bin(v) left-padded with zeros to `width` digits; unchanged when it is already that long or longer. */
  function Padded(v: nat, width: nat): (r: seq<bool>)
    ensures |r| == if |Binary(v)| < width then width else |Binary(v)|
    ensures forall i :: 0 <= i < |r| - |Binary(v)| ==> !r[i]
  {
    var b := Binary(v);
    if |b| < width then Zeros(width - |b|) + b else b
  }

  lemma {:induction false} ReverseZeros(k: nat)
    ensures Reverse(Zeros(k)) == Zeros(k)
    decreases k
  {
    if k > 0 {
      assert Zeros(k)[1..] == Zeros(k - 1);
      ReverseZeros(k - 1);
    }
  }

  /**
   * The bits set_mem writes for v in blocks of `width` bits: the binary
   * digits of v, least significant first, followed by zeros up to `width`
   * bits; never cut short, so a value of more than `width` digits keeps
   * all of them.
   */
  function LsbFirst(v: nat, width: nat): (r: seq<bool>)
    ensures |r| >= 1
    decreases v + width
  {
    if v < 2 && width <= 1 then [v == 1]
    else [v % 2 == 1] + LsbFirst(v / 2, if width == 0 then 0 else width - 1)
  }

  /** Zero in k >= 1 bits is k zero bits. */
  lemma {:induction false} LsbFirstZero(k: nat)
    requires k >= 1
    ensures LsbFirst(0, k) == Zeros(k)
    decreases k
  {
    if k >= 2 {
      LsbFirstZero(k - 1);
      assert [false] + Zeros(k - 1) == Zeros(k);
    }
  }

  /**
   * What set_mem computes, bin(v) without its prefix, left-padded with
   * zeros to `width` digits and reversed, is LsbFirst(v, width).
   */
  lemma {:induction false} LsbFirstAsWritten(v: nat, width: nat)
    ensures Reverse(Padded(v, width)) == LsbFirst(v, width)
    decreases v
  {
    if v < 2 {
      SingleBitAsWritten(v, width);
    } else {
      var w' := if width == 0 then 0 else width - 1;
      var bit := v % 2 == 1;
      LsbFirstAsWritten(v / 2, w');
      PaddedSnoc(v, width);
      ReverseConcat(Padded(v / 2, w'), [bit]);
      assert Reverse([bit]) == [bit];
    }
  }

  /** A one-digit value: the padding zeros, reversed, follow the digit. */
  lemma SingleBitAsWritten(v: nat, width: nat)
    requires v < 2
    ensures Reverse(Padded(v, width)) == LsbFirst(v, width)
  {
    var bit := v == 1;
    assert Binary(v) == [bit];
    assert Reverse([bit]) == [bit];
    if width >= 2 {
      PaddedSingleBit(v, width);
    } else {
      assert Padded(v, width) == [bit];
    }
  }

  lemma PaddedSingleBit(v: nat, width: nat)
    requires v < 2 && width >= 2
    ensures Reverse(Padded(v, width)) == LsbFirst(v, width)
  {
    var bit := v == 1;
    assert Binary(v) == [bit];
    assert Padded(v, width) == Zeros(width - 1) + [bit];
    assert LsbFirst(v, width) == [bit] + LsbFirst(0, width - 1);
    ReverseConcat(Zeros(width - 1), [bit]);
    assert Reverse([bit]) == [bit];
    ReverseZeros(width - 1);
    LsbFirstZero(width - 1);
  }

  /** Padding v to width is padding v / 2 to one digit less, then v's last digit. */
  lemma PaddedSnoc(v: nat, width: nat)
    requires v >= 2
    ensures Padded(v, width) == Padded(v / 2, if width == 0 then 0 else width - 1) + [v % 2 == 1]
  {
    var w' := if width == 0 then 0 else width - 1;
    var b := Binary(v / 2);
    var bit := v % 2 == 1;
    assert Binary(v) == b + [bit];
    if |b| + 1 < width {
      assert Padded(v, width) == Zeros(width - |b| - 1) + b + [bit];
      assert Padded(v / 2, w') == Zeros(width - |b| - 1) + b;
    } else {
      assert Padded(v, width) == b + [bit];
      assert Padded(v / 2, w') == b;
    }
  }

  /** A value that fits in `width` >= 1 bits is written as exactly `width` bits that decode back to it. */
  lemma {:induction false} LsbFirstRoundTrip(v: nat, width: nat)
    requires 1 <= width && v < Pow2(width)
    ensures |LsbFirst(v, width)| == width
    ensures ValueOf(LsbFirst(v, width)) == v
    decreases width
  {
    if !(v < 2 && width <= 1) {
      var rest := LsbFirst(v / 2, width - 1);
      LsbFirstRoundTrip(v / 2, width - 1);
      assert ([v % 2 == 1] + rest)[1..] == rest;
    }
  }

  /**
   * A value that does not fit in `width` bits is written with more than
   * `width` bits, and the last of them is a 1.
   */
  lemma {:induction false} LsbFirstOverflow(v: nat, width: nat)
    requires v >= Pow2(width)
    ensures |LsbFirst(v, width)| > width
    ensures LsbFirst(v, width)[|LsbFirst(v, width)| - 1]
    decreases v
  {
    if !(v < 2 && width <= 1) {
      var w' := if width == 0 then 0 else width - 1;
      LsbFirstOverflow(v / 2, w');
    }
  }

  /** Bit j of v, least significant first. */
  function Bit(v: nat, j: nat): bool
    decreases j
  {
    if j == 0 then v % 2 == 1 else Bit(v / 2, j - 1)
  }

  /** Every bit set_mem writes for v is the bit of v at that position. */
  lemma {:induction false} LsbFirstBit(v: nat, width: nat, j: nat)
    requires j < |LsbFirst(v, width)|
    ensures LsbFirst(v, width)[j] == Bit(v, j)
    decreases j
  {
    if j > 0 {
      LsbFirstBit(v / 2, if width == 0 then 0 else width - 1, j - 1);
    }
  }

  /** The number of 1 bits in a bit vector. */
  function Ones(bits: seq<bool>): nat
    decreases |bits|
  {
    if bits == [] then 0 else (if bits[0] then 1 else 0) + Ones(bits[1..])
  }

  lemma {:induction false} OnesSnoc(bits: seq<bool>, b: bool)
    ensures Ones(bits + [b]) == Ones(bits) + (if b then 1 else 0)
    decreases |bits|
  {
    if bits != [] {
      assert (bits + [b])[1..] == bits[1..] + [b];
      OnesSnoc(bits[1..], b);
    }
  }

  /** The number of 1 digits in the binary form of v. */
  function Popcount(v: nat): nat
    decreases v
  {
    if v == 0 then 0 else v % 2 + Popcount(v / 2)
  }

  /** The 1 bits set_mem writes for v are the 1 digits of v, whatever the padding. */
  lemma {:induction false} OnesLsbFirst(v: nat, width: nat)
    ensures Ones(LsbFirst(v, width)) == Popcount(v)
    decreases v + width
  {
    if !(v < 2 && width <= 1) {
      var rest := LsbFirst(v / 2, if width == 0 then 0 else width - 1);
      OnesLsbFirst(v / 2, if width == 0 then 0 else width - 1);
      assert ([v % 2 == 1] + rest)[1..] == rest;
    }
  }
}
