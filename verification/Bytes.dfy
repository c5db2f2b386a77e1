/** Fixed-width big-endian byte strings and the 256-bit work adder.

    The program stores identifiers, difficulties and cumulative work as byte arrays and compares
    them lexicographically.  This module shows that such an array is determined by its big-endian
    value, that lexicographic comparison is numeric comparison, and that the ripple-carry adder is
    checked addition. */
module Bytes {
  import opened Basics

  type ByteString = seq<U8>
  type ChainWork = b: ByteString | |b| == 32 witness seq(32, _ => 0)

  function Pow256(n: nat): (p: nat)
    ensures p >= 1
  {
    if n == 0 then 1 else 256 * Pow256(n - 1)
  }

  function BigEndian(b: ByteString): nat {
    if b == [] then 0 else 256 * BigEndian(b[..|b| - 1]) + b[|b| - 1]
  }

  function Encode(value: nat, width: nat): (b: ByteString)
    ensures |b| == width
  {
    if width == 0 then [] else Encode(value / 256, width - 1) + [value % 256]
  }

  lemma {:induction false} BigEndianBound(b: ByteString)
    ensures BigEndian(b) < Pow256(|b|)
  {
    if b != [] {
      BigEndianBound(b[..|b| - 1]);
    }
  }

  /** Decoding undoes encoding exactly when the value fits the width. */
  lemma {:induction false} EncodeRoundTrip(value: nat, width: nat)
    ensures BigEndian(Encode(value, width)) == value <==> value < Pow256(width)
  {
    if width == 0 {
    } else {
      var b := Encode(value, width);
      assert b[..width - 1] == Encode(value / 256, width - 1);
      EncodeRoundTrip(value / 256, width - 1);
      BigEndianBound(b);
    }
  }

  /** A byte string is the encoding of its own value: the encoding is onto. */
  lemma {:induction false} DecodeRoundTrip(b: ByteString)
    ensures Encode(BigEndian(b), |b|) == b
  {
    if b != [] {
      var front := b[..|b| - 1];
      DecodeRoundTrip(front);
      assert b == front + [b[|b| - 1]];
      assert BigEndian(b) / 256 == BigEndian(front);
    }
  }

  lemma BigEndianInjective(a: ByteString, b: ByteString)
    requires |a| == |b| && BigEndian(a) == BigEndian(b)
    ensures a == b
  {
    DecodeRoundTrip(a);
    DecodeRoundTrip(b);
  }

  /** The order of `std::array<std::uint8_t, N>`. */
  predicate LexLess(a: ByteString, b: ByteString)
    requires |a| == |b|
  {
    a != [] && (a[0] < b[0] || (a[0] == b[0] && LexLess(a[1..], b[1..])))
  }

  lemma {:induction false} BigEndianFirst(b: ByteString)
    requires b != []
    ensures BigEndian(b) == b[0] * Pow256(|b| - 1) + BigEndian(b[1..])
  {
    if |b| > 1 {
      var front, p := b[..|b| - 1], Pow256(|b| - 2);
      BigEndianFirst(front);
      assert b[1..][..|b| - 2] == front[1..];
      assert Pow256(|b| - 1) == 256 * p;
      Reassociate(b[0], p);
    }
  }

  lemma Reassociate(x: nat, p: nat)
    ensures 256 * (x * p) == x * (256 * p)
  {
  }

  lemma {:induction false} LexLessIsNumeric(a: ByteString, b: ByteString)
    requires |a| == |b|
    ensures LexLess(a, b) <==> BigEndian(a) < BigEndian(b)
  {
    if a != [] {
      BigEndianFirst(a);
      BigEndianFirst(b);
      BigEndianBound(a[1..]);
      BigEndianBound(b[1..]);
      LexLessIsNumeric(a[1..], b[1..]);
      LeadingDigit(a[0], BigEndian(a[1..]), b[0], BigEndian(b[1..]), Pow256(|a| - 1));
    }
  }

  lemma LeadingDigit(x: nat, xs: nat, y: nat, ys: nat, p: nat)
    requires xs < p && ys < p
    ensures x * p + xs < y * p + ys <==> x < y || (x == y && xs < ys)
  {
    if x < y {
      assert (x + 1) * p <= y * p;
    } else if y < x {
      assert (y + 1) * p <= x * p;
    }
  }

  lemma Pow256Of32()
    ensures Pow256(8) == U64_MAX + 1 && Pow256(16) == TWO_128 && Pow256(32) == TWO_256
  {
    assert Pow256(4) == 0x1_0000_0000;
    assert Pow256(8) == U64_MAX + 1;
    assert Pow256(12) == 0x1_0000_0000_0000_0000_0000_0000;
    assert Pow256(16) == TWO_128;
    assert Pow256(20) == 0x1_0000_0000 * TWO_128;
    assert Pow256(24) == 0x1_0000_0000_0000_0000 * TWO_128;
    assert Pow256(28) == 0x1_0000_0000_0000_0000_0000_0000 * TWO_128;
  }

  /** `add_chain_work_checked`: add from the last byte to the first, carrying.  Success means the sum
      fits, and then the result is the sum; otherwise the result is the sum modulo 2^256. */
  method AddChainWorkChecked(left: ChainWork, right: ChainWork) returns (ok: bool, result: ChainWork)
    ensures ok <==> BigEndian(left) + BigEndian(right) < TWO_256
    ensures BigEndian(result) + (if ok then 0 else TWO_256) == BigEndian(left) + BigEndian(right)
  {
    var carry := 0;
    var sums: ByteString := [];
    var i := 32;
    NothingAdded(left, right);
    hide BigEndian, Pow256;
    while i > 0
      invariant 0 <= i <= 32 && |sums| == 32 - i && 0 <= carry <= 1
      invariant carry * Pow256(32 - i) + BigEndian(sums)
             == BigEndian(left[i..]) + BigEndian(right[i..])
    {
      i := i - 1;
      var sum := left[i] + right[i] + carry;
      SuffixStep(left[i], left[i + 1..], right[i], right[i + 1..], sums, carry);
      assert [left[i]] + left[i + 1..] == left[i..] && [right[i]] + right[i + 1..] == right[i..];
      sums := [sum % 256] + sums;
      carry := sum / 256;
    }
    Pow256Of32();
    assert left[0..] == left && right[0..] == right;
    result := sums;
    ok := carry == 0;
    BigEndianBound(result);
  }

  lemma NothingAdded(left: ChainWork, right: ChainWork)
    ensures BigEndian(left[32..]) == 0 && BigEndian(right[32..]) == 0 && BigEndian([]) == 0 && Pow256(0) == 1
  {
  }

  lemma SuffixStep(x: U8, xs: ByteString, y: U8, ys: ByteString, sums: ByteString, carry: nat)
    requires |xs| == |ys| == |sums|
    requires carry * Pow256(|xs|) + BigEndian(sums) == BigEndian(xs) + BigEndian(ys)
    ensures var sum := x + y + carry;
      (sum / 256) * Pow256(|xs| + 1) + BigEndian([sum % 256] + sums)
      == BigEndian([x] + xs) + BigEndian([y] + ys)
  {
    var digit: U8 := (x + y + carry) % 256;
    BigEndianPrepend(x, xs);
    BigEndianPrepend(y, ys);
    BigEndianPrepend(digit, sums);
    CarryStep(x, y, carry, Pow256(|xs|));
  }

  lemma BigEndianPrepend(x: U8, xs: ByteString)
    ensures BigEndian([x] + xs) == x * Pow256(|xs|) + BigEndian(xs)
  {
    BigEndianFirst([x] + xs);
    assert ([x] + xs)[1..] == xs;
  }

  lemma CarryStep(x: nat, y: nat, carry: nat, p: nat)
    ensures var sum := x + y + carry;
      x * p + y * p + carry * p == (sum / 256) * (256 * p) + (sum % 256) * p
  {
    var sum := x + y + carry;
    var q, d := sum / 256, sum % 256;
    assert x * p + y * p + carry * p == sum * p;
    assert sum == q * 256 + d;
    assert sum * p == (q * 256) * p + d * p;
    assert (q * 256) * p == q * (256 * p);
  }
}
