/** Unsigned machine words as naturals: exclusive or, shifts, and their bits as a stream. */
module Bitwise {

  /** a ^ b. */
  function Xor(a: nat, b: nat): nat
    decreases a + b
  {
    if a == 0 && b == 0 then 0
    else 2 * Xor(a / 2, b / 2) + (if a % 2 == b % 2 then 0 else 1)
  }

  /** One bit as a number. */
  function Bit(b: bool): (n: nat)
    ensures n <= 1
  {
    if b then 1 else 0
  }

  /** x << n, in unbounded width. */
  function Shl(x: nat, n: nat): nat {
    if n == 0 then x else 2 * Shl(x, n - 1)
  }

  /** x >> n. */
  function Shr(x: nat, n: nat): nat {
    if n == 0 then x else Shr(x, n - 1) / 2
  }

  lemma {:induction false} XorZero(a: nat)
    ensures Xor(a, 0) == a
    ensures Xor(0, a) == a
  {
    if a > 0 {
      XorZero(a / 2);
    }
  }

  lemma {:induction false} XorSelf(a: nat)
    ensures Xor(a, a) == 0
  {
    if a > 0 {
      XorSelf(a / 2);
    }
  }

  lemma {:induction false} XorCommutes(a: nat, b: nat)
    ensures Xor(a, b) == Xor(b, a)
    decreases a + b
  {
    if a != 0 || b != 0 {
      XorCommutes(a / 2, b / 2);
    }
  }

  lemma {:induction false} XorAssociates(a: nat, b: nat, c: nat)
    ensures Xor(Xor(a, b), c) == Xor(a, Xor(b, c))
    decreases a + b + c
  {
    if a != 0 || b != 0 || c != 0 {
      XorAssociates(a / 2, b / 2, c / 2);
    }
  }

  /** Adding the same word twice changes nothing. */
  lemma XorCancels(a: nat, b: nat)
    ensures Xor(Xor(a, b), b) == a
  {
    XorAssociates(a, b, b);
    XorSelf(b);
    XorZero(a);
  }

  lemma XorHalves(a: nat, b: nat)
    ensures Xor(a, b) / 2 == Xor(a / 2, b / 2)
    ensures Xor(a, b) % 2 == 1 <==> a % 2 != b % 2
  {
  }

  lemma {:induction false} XorBound(a: nat, b: nat, n: nat)
    requires a < Shl(1, n) && b < Shl(1, n)
    ensures Xor(a, b) < Shl(1, n)
  {
    if n > 0 {
      XorBound(a / 2, b / 2, n - 1);
    }
  }

  // ---------------------------------------------------------------------------
  // Words as bits on the wire, most significant first
  // ---------------------------------------------------------------------------

  /** The number whose binary digits these are. */
  function Value(bits: seq<bool>): nat {
    if bits == [] then 0 else 2 * Value(bits[..|bits| - 1]) + Bit(bits[|bits| - 1])
  }

  /** The low n bits of w in transmission order. */
  function BitsOf(w: nat, n: nat): (bits: seq<bool>)
    ensures |bits| == n
  {
    if n == 0 then [] else BitsOf(w / 2, n - 1) + [w % 2 == 1]
  }

  lemma ValuePush(bits: seq<bool>, bit: bool)
    ensures Value(bits + [bit]) == 2 * Value(bits) + Bit(bit)
  {
    assert (bits + [bit])[..|bits|] == bits;
  }

  lemma {:induction false} ValueBound(bits: seq<bool>)
    ensures Value(bits) < Shl(1, |bits|)
  {
    if bits != [] {
      ValueBound(bits[..|bits| - 1]);
    }
  }

  lemma {:induction false} ValueOfBits(w: nat, n: nat)
    requires w < Shl(1, n)
    ensures Value(BitsOf(w, n)) == w
  {
    if n > 0 {
      ValueOfBits(w / 2, n - 1);
      ValuePush(BitsOf(w / 2, n - 1), w % 2 == 1);
    }
  }

  lemma {:induction false} ShlScale(a: nat, n: nat)
    ensures Shl(a, n) == a * Shl(1, n)
  {
    if n > 0 {
      ShlScale(a, n - 1);
    }
  }

  lemma {:induction false} ShlAdd(x: nat, m: nat, n: nat)
    ensures Shl(x, m + n) == Shl(Shl(x, m), n)
  {
    if n > 0 {
      ShlAdd(x, m, n - 1);
    }
  }

  /** The size of a 26-bit word. */
  lemma BlockSize()
    ensures Shl(1, 26) == 0x400_0000
  {
    assert Shl(1, 13) == 0x2000;
    ShlAdd(1, 13, 13);
    ShlScale(Shl(1, 13), 13);
  }

  lemma {:induction false} ValueConcat(a: seq<bool>, b: seq<bool>)
    ensures Value(a + b) == Shl(Value(a), |b|) + Value(b)
  {
    if b == [] {
      assert a + b == a;
    } else {
      var n := |b| - 1;
      ValueConcat(a, b[..n]);
      assert a + b == (a + b[..n]) + [b[n]];
      ValuePush(a + b[..n], b[n]);
    }
  }

  lemma DoubleMod(x: nat, b: nat)
    ensures (2 * (x % 0x400_0000) + b) % 0x400_0000 == (2 * x + b) % 0x400_0000
  {
    var q := x / 0x400_0000;
    assert 2 * x + b == 2 * (x % 0x400_0000) + b + 0x400_0000 * (2 * q);
    ModShift(2 * (x % 0x400_0000) + b, 2 * q);
  }

  lemma {:induction false} ModShift(x: nat, q: nat)
    ensures (x + 0x400_0000 * q) % 0x400_0000 == x % 0x400_0000
  {
    if q > 0 {
      ModShift(x, q - 1);
      assert x + 0x400_0000 * q == (x + 0x400_0000 * (q - 1)) + 0x400_0000;
    }
  }

  lemma ModWithin(x: nat)
    ensures (x % 0x1_0000_0000) % 0x400_0000 == x % 0x400_0000
  {
    var q := x / 0x1_0000_0000;
    assert x == x % 0x1_0000_0000 + 0x400_0000 * (64 * q);
    ModShift(x % 0x1_0000_0000, 64 * q);
  }
}
