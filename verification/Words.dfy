/** Machine words as bits, least significant first, and the largest power of two below a count. */
module Words {
  import opened Basics

  const WORD_BITS: nat := 64

  type Word = w: seq<bool> | |w| == WORD_BITS witness seq(64, _ => false)

  function Pow2(k: nat): (p: nat)
    ensures p >= 1
  {
    if k == 0 then 1 else 2 * Pow2(k - 1)
  }

  function Value(w: seq<bool>): nat {
    if w == [] then 0 else (if w[0] then 1 else 0) + 2 * Value(w[1..])
  }

  function Bits(n: nat, width: nat): (w: seq<bool>)
    ensures |w| == width
  {
    if width == 0 then [] else [n % 2 == 1] + Bits(n / 2, width - 1)
  }

  lemma {:induction false} BitsValue(n: nat, width: nat)
    requires n < Pow2(width)
    ensures Value(Bits(n, width)) == n
  {
    if width > 0 {
      BitsValue(n / 2, width - 1);
      assert Bits(n, width)[1..] == Bits(n / 2, width - 1);
    }
  }

  lemma WordRange()
    ensures Pow2(WORD_BITS) == U64_MAX + 1
  {
    assert Pow2(4) == 0x10;
    assert Pow2(8) == 0x100;
    assert Pow2(12) == 0x1000;
    assert Pow2(16) == 0x1_0000;
    assert Pow2(20) == 0x10_0000;
    assert Pow2(24) == 0x100_0000;
    assert Pow2(28) == 0x1000_0000;
    assert Pow2(32) == 0x1_0000_0000;
    assert Pow2(36) == 0x10_0000_0000;
    assert Pow2(40) == 0x100_0000_0000;
    assert Pow2(44) == 0x1000_0000_0000;
    assert Pow2(48) == 0x1_0000_0000_0000;
    assert Pow2(52) == 0x10_0000_0000_0000;
    assert Pow2(56) == 0x100_0000_0000_0000;
    assert Pow2(60) == 0x1000_0000_0000_0000;
  }

  /** Bit `t` is the highest one set. */
  ghost predicate IsTop(w: seq<bool>, t: nat) {
    t < |w| && w[t] && forall i | t < i < |w| :: !w[i]
  }

  lemma {:induction false} TopExists(w: seq<bool>) returns (t: nat)
    requires Value(w) > 0
    ensures IsTop(w, t)
  {
    if Value(w[1..]) > 0 {
      var rest := TopExists(w[1..]);
      t := rest + 1;
      assert forall i | t < i < |w| :: w[i] == w[1..][i - 1];
    } else {
      t := 0;
      NoBits(w[1..]);
      assert forall i | 0 < i < |w| :: w[i] == w[1..][i - 1];
    }
  }

  lemma {:induction false} NoBits(w: seq<bool>)
    requires Value(w) == 0
    ensures forall i | 0 <= i < |w| :: !w[i]
  {
    if w != [] {
      NoBits(w[1..]);
      assert forall i | 0 < i < |w| :: w[i] == w[1..][i - 1];
    }
  }

  lemma {:induction false} ZeroValue(w: seq<bool>)
    requires forall i | 0 <= i < |w| :: !w[i]
    ensures Value(w) == 0
  {
    if w != [] {
      ZeroValue(w[1..]);
    }
  }

  /** The highest bit bounds the value within a factor of two. */
  lemma {:induction false} TopBounds(w: seq<bool>, t: nat)
    requires IsTop(w, t)
    ensures Pow2(t) <= Value(w) < Pow2(t + 1)
  {
    var rest := w[1..];
    assert forall i | 0 <= i < |rest| :: rest[i] == w[i + 1];
    if t == 0 {
      ZeroValue(rest);
    } else {
      TopBounds(rest, t - 1);
    }
  }

  lemma {:induction false} SingleBit(w: seq<bool>, t: nat)
    requires t < |w| && forall i | 0 <= i < |w| :: w[i] <==> i == t
    ensures Value(w) == Pow2(t)
  {
    var rest := w[1..];
    assert forall i | 0 <= i < |rest| :: rest[i] == w[i + 1];
    if t == 0 {
      ZeroValue(rest);
    } else {
      SingleBit(rest, t - 1);
    }
  }

  function Or(a: Word, b: Word): Word {
    seq(WORD_BITS, i requires 0 <= i < WORD_BITS => a[i] || b[i])
  }

  function AndNot(a: Word, b: Word): Word {
    seq(WORD_BITS, i requires 0 <= i < WORD_BITS => a[i] && !b[i])
  }

  function ShiftRight(a: Word, k: nat): Word {
    seq(WORD_BITS, i requires 0 <= i < WORD_BITS => i + k < WORD_BITS && a[i + k])
  }

  /** Copy the top bit into every bit below it, doubling the distance each time. */
  method Smear(x: Word, ghost top: nat) returns (word: Word)
    requires IsTop(x, top)
    ensures forall i | 0 <= i < WORD_BITS :: word[i] <==> i <= top
  {
    word := x;
    var shift := 1;
    while shift < WORD_BITS
      invariant shift > 0
      invariant forall i | top < i < WORD_BITS :: !word[i]
      invariant forall i | 0 <= i <= top && top < i + shift :: word[i]
      decreases WORD_BITS - shift
    {
      word := Or(word, ShiftRight(word, shift));
      shift := shift * 2;
    }
  }

  /** The largest power of two not above `x`: smear the top bit, then drop every bit that has another
      one above it. */
  method TopPowerOfTwo(x: U64) returns (p: nat, ghost k: nat)
    requires x > 0
    ensures p == Pow2(k) && p <= x < 2 * p && k < WORD_BITS
  {
    WordRange();
    var word: Word := Bits(x, WORD_BITS);
    BitsValue(x, WORD_BITS);
    k := TopExists(word);
    TopBounds(word, k);
    Pow2Next(k);
    hide Bits, Value, Pow2;
    word := Smear(word, k);
    word := AndNot(word, ShiftRight(word, 1));
    SingleBit(word, k);
    p := Value(word);
  }

  lemma Pow2Next(k: nat)
    ensures Pow2(k + 1) == 2 * Pow2(k)
  {
  }
}
