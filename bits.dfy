/** Bits of non-negative integers: the model of C#'s `&`, `|` and `<<` on the
    non-negative int values the swizzler works with. */
module Bits {

  import opened Numerics


  function Pow2(n: nat): (p: nat)
    ensures p >= 1
  {
    if n == 0 then 1 else 2 * Pow2(n - 1)
  }

  /** Bit `p` of `v`. */
  function Bit(v: nat, p: nat): bool
  {
    if p == 0 then v % 2 == 1 else Bit(v / 2, p - 1)
  }

  /** `a | b`. */
  function Or(a: nat, b: nat): nat
    decreases a + b
  {
    if a == 0 && b == 0 then 0
    else 2 * Or(a / 2, b / 2) + (if a % 2 == 1 || b % 2 == 1 then 1 else 0)
  }

  /** `a & b`. */
  function And(a: nat, b: nat): nat
    decreases a + b
  {
    if a == 0 || b == 0 then 0
    else 2 * And(a / 2, b / 2) + (if a % 2 == 1 && b % 2 == 1 then 1 else 0)
  }

  /** The number of set bits of `m` below position `p`. */
  function Rank(m: nat, p: nat): nat
  {
    if p == 0 then 0 else m % 2 + Rank(m / 2, p - 1)
  }

  /** Parallel bit deposit: the `i`-th set bit of `m`, counting from the least
      significant, receives bit `i` of `v`; every other bit is clear. */
  function Deposit(v: nat, m: nat): nat
  {
    if m == 0 then 0
    else if m % 2 == 1 then 2 * Deposit(v / 2, m / 2) + v % 2
    else 2 * Deposit(v, m / 2)
  }

  lemma {:induction false} BitOr(a: nat, b: nat, p: nat)
    ensures Bit(Or(a, b), p) == (Bit(a, p) || Bit(b, p))
    decreases p
  {
    if p > 0 && !(a == 0 && b == 0) {
      BitOr(a / 2, b / 2, p - 1);
    } else if p > 0 {
      BitOfZero(p);
    }
  }

  lemma {:induction false} BitAnd(a: nat, b: nat, p: nat)
    ensures Bit(And(a, b), p) == (Bit(a, p) && Bit(b, p))
    decreases p
  {
    if p > 0 && !(a == 0 || b == 0) {
      BitAnd(a / 2, b / 2, p - 1);
    } else if p > 0 {
      BitOfZero(p);
      BitOfZero(p - 1);
    }
  }

  lemma {:induction false} BitOfZero(p: nat)
    ensures !Bit(0, p)
  {
    if p > 0 {
      BitOfZero(p - 1);
    }
  }

  lemma {:induction false} BitPow2(k: nat, p: nat)
    ensures Bit(Pow2(k), p) <==> p == k
  {
    if p == 0 {
    } else if k == 0 {
      BitOfZero(p - 1);
    } else {
      BitPow2(k - 1, p - 1);
    }
  }

  /** A number below `2^n` has no bit at `n` or above. */
  lemma {:induction false} BitAbove(v: nat, n: nat, p: nat)
    requires v < Pow2(n) && p >= n
    ensures !Bit(v, p)
  {
    if n == 0 {
      BitOfZero(p);
    } else {
      BitAbove(v / 2, n - 1, p - 1);
    }
  }

  /** Numbers with the same bits are equal. */
  lemma {:induction false} BitsDetermine(a: nat, b: nat)
    requires forall p: nat :: Bit(a, p) == Bit(b, p)
    ensures a == b
    decreases a + b
  {
    assert Bit(a, 0) == Bit(b, 0);
    if a != 0 || b != 0 {
      forall p: nat
        ensures Bit(a / 2, p) == Bit(b / 2, p)
      {
        assert Bit(a, p + 1) == Bit(b, p + 1);
      }
      BitsDetermine(a / 2, b / 2);
    }
  }

  /** Bits of a number below `2^n` lie below `n`; conversely. */
  lemma {:induction false} BelowPow2(v: nat, n: nat)
    requires forall p: nat :: Bit(v, p) ==> p < n
    ensures v < Pow2(n)
  {
    if n == 0 {
      if v != 0 {
        BitOfZero(0);
        var p := LowestBit(v);
      }
    } else {
      forall p: nat | Bit(v / 2, p)
        ensures p < n - 1
      {
        assert Bit(v, p + 1);
      }
      BelowPow2(v / 2, n - 1);
    }
  }

  /** A non-zero number has a set bit. */
  lemma {:induction false} LowestBit(v: nat) returns (p: nat)
    requires v != 0
    ensures Bit(v, p)
    decreases v
  {
    if v % 2 == 1 {
      p := 0;
    } else {
      var q := LowestBit(v / 2);
      p := q + 1;
    }
  }

  /** Bits of `v mod 2^32` below 32 are the bits of `v` (two's complement for a negative `v`). */
  lemma {:induction false} BitOfMod(v: nat, n: nat, p: nat)
    requires p < n
    ensures Bit(v % Pow2(n), p) == Bit(v, p)
  {
    assert Pow2(n) == 2 * Pow2(n - 1);
    if p == 0 {
      ParityOfMod(v, Pow2(n - 1));
    } else {
      var m := v % Pow2(n);
      HalfOfMod(v, Pow2(n - 1));
      assert m / 2 == (v / 2) % Pow2(n - 1);
      assert Bit(m, p) == Bit(m / 2, p - 1);
      BitOfMod(v / 2, n - 1, p - 1);
    }
  }

  lemma HalfOfMod(v: nat, half: nat)
    requires half >= 1
    ensures (v % (2 * half)) / 2 == (v / 2) % half
  {
    var q, r := v / (2 * half), v % (2 * half);
    assert v == q * (2 * half) + r;
    assert q * (2 * half) == 2 * (q * half);
    assert v / 2 == q * half + r / 2;
    DivUnique(v / 2, half, q);
  }

  lemma ParityOfMod(v: nat, half: nat)
    requires half >= 1
    ensures (v % (2 * half)) % 2 == v % 2
  {
    var q, r := v / (2 * half), v % (2 * half);
    assert v == q * (2 * half) + r;
    assert q * (2 * half) == 2 * (q * half);
    DivUnique(v, 2, q * half + r / 2);
  }

  /** Doubling moves every bit up one place. */
  lemma BitOfDouble(v: nat, p: nat)
    ensures Bit(2 * v, p + 1) == Bit(v, p) && !Bit(2 * v, 0)
  {
  }

  lemma Pow2Value32()
    ensures Pow2(30) == TWO_30 && Pow2(32) == TWO_32
  {
    assert Pow2(10) == 1024;
    assert Pow2(20) == Pow2(10) * Pow2(10) by { Pow2Add(10, 10); }
    assert Pow2(30) == Pow2(20) * Pow2(10) by { Pow2Add(20, 10); }
    assert Pow2(32) == Pow2(30) * 4 by { Pow2Add(30, 2); }
  }

  lemma {:induction false} Pow2Add(a: nat, b: nat)
    ensures Pow2(a + b) == Pow2(a) * Pow2(b)
  {
    if b > 0 {
      Pow2Add(a, b - 1);
    }
  }

  lemma {:induction false} Pow2Monotone(a: nat, b: nat)
    requires a <= b
    ensures Pow2(a) <= Pow2(b)
    decreases b
  {
    if a < b {
      Pow2Monotone(a, b - 1);
    }
  }

  /** Rank counts bit `p` when moving from `p` to `p + 1`. */
  lemma {:induction false} RankStep(m: nat, p: nat)
    ensures Rank(m, p + 1) == Rank(m, p) + (if Bit(m, p) then 1 else 0)
  {
    if p > 0 {
      RankStep(m / 2, p - 1);
    }
  }

  /** Rank only looks at the bits below `p`. */
  lemma {:induction false} RankAgrees(a: nat, b: nat, p: nat)
    requires forall q: nat :: q < p ==> Bit(a, q) == Bit(b, q)
    ensures Rank(a, p) == Rank(b, p)
  {
    if p > 0 {
      RankAgrees(a, b, p - 1);
      RankStep(a, p - 1);
      RankStep(b, p - 1);
    }
  }

  lemma {:induction false} RankAtMost(m: nat, p: nat)
    ensures Rank(m, p) <= p
  {
    if p > 0 {
      RankAtMost(m / 2, p - 1);
    }
  }

  /** Deposit is parallel bit deposit, bit by bit. */
  lemma {:induction false} DepositBits(v: nat, m: nat, p: nat)
    ensures Bit(Deposit(v, m), p) <==> Bit(m, p) && Bit(v, Rank(m, p))
    decreases p
  {
    if m == 0 {
      BitOfZero(p);
    } else if p > 0 {
      if m % 2 == 1 {
        DepositBits(v / 2, m / 2, p - 1);
        assert Bit(v, Rank(m, p)) == Bit(v / 2, Rank(m / 2, p - 1));
      } else {
        DepositBits(v, m / 2, p - 1);
      }
    }
  }

  /** Deposit never sets a bit outside its mask. */
  lemma DepositWithinMask(v: nat, m: nat)
    ensures And(Deposit(v, m), m) == Deposit(v, m)
  {
    forall p: nat
      ensures Bit(And(Deposit(v, m), m), p) == Bit(Deposit(v, m), p)
    {
      BitAnd(Deposit(v, m), m, p);
      DepositBits(v, m, p);
    }
    BitsDetermine(And(Deposit(v, m), m), Deposit(v, m));
  }

  /** `a & 2^p` keeps exactly bit `p` of `a`. */
  lemma AndPow2(a: nat, p: nat)
    ensures And(a, Pow2(p)) == if Bit(a, p) then Pow2(p) else 0
  {
    var r := if Bit(a, p) then Pow2(p) else 0;
    forall q: nat
      ensures Bit(And(a, Pow2(p)), q) == Bit(r, q)
    {
      BitAnd(a, Pow2(p), q);
      BitPow2(p, q);
      BitOfZero(q);
    }
    BitsDetermine(And(a, Pow2(p)), r);
  }

  /** `v << 1` on a 32-bit pattern: every bit moves up one place and bit 31 falls off. */
  lemma ShiftLeft32(v: nat, q: nat)
    requires q < 32
    ensures Bit((v * 2) % TWO_32, q) == (q > 0 && Bit(v, q - 1))
  {
    Pow2Value32();
    BitOfMod(v * 2, 32, q);
    if q > 0 {
      BitOfDouble(v, q - 1);
    }
  }
}
