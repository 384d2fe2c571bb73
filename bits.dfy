/** Arithmetic of the 4-byte NEC frame: bits arrive least-significant first
    and are packed eight to a byte. */
module Bits {

  function Pow2(n: nat): (p: nat)
    ensures p >= 1
  {
    if n == 0 then 1 else 2 * Pow2(n - 1)
  }

  function Min(a: int, b: int): (m: int)
  {
    if a <= b then a else b
  }

  /** The value of a bit string read least-significant bit first: the sum of
      2^j over the positions j that are set.  An n-bit string never weighs
      2^n or more. */
  function Weight(bits: seq<bool>): (w: nat)
    ensures w < Pow2(|bits|)
  {
    if bits == [] then 0 else (if bits[0] then 1 else 0) + 2 * Weight(bits[1..])
  }

  /** The `n` low bits of `v`, least-significant first. */
  function ToBits(v: nat, n: nat): (bits: seq<bool>)
    ensures |bits| == n
  {
    if n == 0 then [] else [v % 2 == 1] + ToBits(v / 2, n - 1)
  }

  /** The bits of byte `k` of a frame: positions 8k .. 8k+7, as far as they
      have arrived. */
  function Field(bits: seq<bool>, k: nat): (f: seq<bool>)
    ensures |f| <= 8
  {
    bits[Min(8 * k, |bits|)..Min(8 * k + 8, |bits|)]
  }

  /** The value of byte `k` once the bits received so far are packed: the
      sum of 2^(i mod 8) over the set bits i of that byte, which fits in a
      `uint8_t`. */
  function ByteValue(bits: seq<bool>, k: nat): (v: nat)
    ensures v < 256
  {
    var f := Field(bits, k);
    Pow2Monotone(|f|, 8);
    Pow2Eight();
    Weight(f)
  }

  lemma Pow2Eight()
    ensures Pow2(8) == 256
  {
    assert Pow2(4) == 16;
  }

  /** Appending bit b at position |bits| adds 2^|bits| exactly when b is set. */
  lemma {:induction false} WeightAppend(bits: seq<bool>, b: bool)
    ensures Weight(bits + [b]) == Weight(bits) + (if b then Pow2(|bits|) else 0)
  {
    if bits == [] {
      assert [b][1..] == [];
    } else {
      assert (bits + [b])[1..] == bits[1..] + [b];
      WeightAppend(bits[1..], b);
    }
  }

  /** Flipping bit j moves the value by exactly 2^j. */
  lemma {:induction false} WeightFlip(bits: seq<bool>, j: nat)
    requires j < |bits|
    ensures Weight(bits[j := !bits[j]]) as int
            == Weight(bits) as int + (if bits[j] then -(Pow2(j) as int) else Pow2(j) as int)
  {
    if j > 0 {
      assert bits[j := !bits[j]][1..] == bits[1..][j - 1 := !bits[j]];
      WeightFlip(bits[1..], j - 1);
    }
  }

  /** Decomposing a value into n bits and weighing them gives it back. */
  lemma {:induction false} WeightToBits(v: nat, n: nat)
    requires v < Pow2(n)
    ensures Weight(ToBits(v, n)) == v
  {
    if n > 0 {
      assert ToBits(v, n)[1..] == ToBits(v / 2, n - 1);
      WeightToBits(v / 2, n - 1);
    }
  }

  /** Receiving one more bit extends the byte it belongs to by that bit and
      leaves every other byte as it was. */
  lemma FieldAppend(bits: seq<bool>, b: bool, k: nat)
    ensures k == |bits| / 8 ==>
              |Field(bits, k)| == |bits| % 8 && Field(bits + [b], k) == Field(bits, k) + [b]
    ensures k != |bits| / 8 ==> Field(bits + [b], k) == Field(bits, k)
  {
    var n, ext := |bits|, bits + [b];
    var lo, hi := 8 * k, 8 * k + 8;
    if k == n / 8 {
      assert lo <= n < hi;
      assert Field(bits, k) == bits[lo..n] && Field(ext, k) == ext[lo..n + 1];
      assert ext[lo..n + 1] == bits[lo..n] + [b];
    } else if k < n / 8 {
      assert hi <= n;
      assert Field(bits, k) == bits[lo..hi] && Field(ext, k) == ext[lo..hi];
      assert ext[lo..hi] == bits[lo..hi];
    } else {
      assert lo > n;
      assert Field(bits, k) == [] && Field(ext, k) == [];
    }
  }

  /** Pow2 is monotone. */
  lemma {:induction false} Pow2Monotone(m: nat, n: nat)
    requires m <= n
    ensures Pow2(m) <= Pow2(n)
  {
    if m < n {
      Pow2Monotone(m, n - 1);
    }
  }

  /** Receiving bit b at position i adds 2^(i % 8) to byte i / 8 exactly
      when b is set, and leaves every other byte alone.  Before the bit
      arrives, that byte is below 2^(i % 8). */
  lemma ByteValueAppend(bits: seq<bool>, b: bool, k: nat)
    ensures ByteValue(bits + [b], k)
            == if k == |bits| / 8 then ByteValue(bits, k) + (if b then Pow2(|bits| % 8) else 0)
               else ByteValue(bits, k)
    ensures k == |bits| / 8 ==> ByteValue(bits, k) < Pow2(|bits| % 8)
  {
    FieldAppend(bits, b, k);
    WeightAppend(Field(bits, k), b);
  }

  /** `1 << j` as a byte is 2^j. */
  lemma ShiftValue(j: nat)
    requires j < 8
    ensures ((1 as bv8) << j) as int == Pow2(j)
  {
    if j == 0 { assert Pow2(0) == 1; }
    else if j == 1 { assert Pow2(1) == 2; }
    else if j == 2 { assert Pow2(2) == 4; }
    else if j == 3 { assert Pow2(3) == 8; }
    else if j == 4 { assert Pow2(4) == 16; }
    else if j == 5 { assert Pow2(5) == 32; }
    else if j == 6 { assert Pow2(6) == 64; }
    else { assert Pow2(7) == 128; }
  }

  /** OR with a single bit above every bit of `v` is addition. */
  lemma OrBelow(v: bv8, j: nat)
    requires j < 8 && v as int < ((1 as bv8) << j) as int
    ensures (v | ((1 as bv8) << j)) as int == v as int + ((1 as bv8) << j) as int
  {
  }

  /** Setting bit j of a byte whose value is below 2^j adds 2^j: the
      bitwise OR of the decoder never meets a bit that is already set. */
  lemma SetBit(v: bv8, j: nat)
    requires j < 8 && v as int < Pow2(j)
    ensures (v | ((1 as bv8) << j)) as int == v as int + Pow2(j)
  {
    ShiftValue(j);
    OrBelow(v, j);
  }

  /** Bit j of a bit string's value is the j-th bit of the string. */
  lemma {:induction false} WeightBit(bits: seq<bool>, j: nat)
    requires j < |bits|
    ensures (Weight(bits) / Pow2(j)) % 2 == 1 <==> bits[j]
  {
    var low, high := if bits[0] then 1 else 0, Weight(bits[1..]);
    var w := Weight(bits);
    assert w == low + 2 * high;
    if j == 0 {
      assert Pow2(0) == 1;
      assert (w / 1) % 2 == low;
    } else {
      var p := Pow2(j - 1);
      assert Pow2(j) == 2 * p;
      WeightBit(bits[1..], j - 1);
      HalfQuotient(low, high, p);
      assert bits[1..][j - 1] == bits[j];
    }
  }

  /** Bit i of a frame is bit i % 8 of byte i / 8, and nowhere else: no other
      byte depends on it. */
  lemma ByteBit(bits: seq<bool>, i: nat, k: nat)
    requires i < |bits|
    ensures (ByteValue(bits, i / 8) / Pow2(i % 8)) % 2 == 1 <==> bits[i]
    ensures k != i / 8 ==> ByteValue(bits[i := !bits[i]], k) == ByteValue(bits, k)
  {
    assert Field(bits, i / 8)[i % 8] == bits[i];
    WeightBit(Field(bits, i / 8), i % 8);
    if k != i / 8 {
      assert Field(bits[i := !bits[i]], k) == Field(bits, k);
    }
  }

  lemma HalfQuotient(b: nat, w: nat, p: nat)
    requires b < 2 && p >= 1
    ensures (b + 2 * w) / (2 * p) == w / p
  {
    var q, r := w / p, w % p;
    assert w == q * p + r;
    assert b + 2 * w == q * (2 * p) + (2 * r + b);
    DivUnique(b + 2 * w, 2 * p, q, 2 * r + b);
  }

  /** Quotient and remainder are unique. */
  lemma DivUnique(a: nat, d: nat, q: nat, r: nat)
    requires d >= 1 && a == q * d + r && r < d
    ensures a / d == q
  {
    var q', r' := a / d, a % d;
    assert (q' - q) * d == r - r';
    if q' > q {
      MulAtLeast(q' - q, d);
    } else if q' < q {
      MulAtLeast(q - q', d);
    }
  }

  lemma MulAtLeast(k: int, d: int)
    requires k >= 1 && d >= 1
    ensures k * d >= d
  {
  }
}
