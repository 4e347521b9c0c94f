/** The integer operators of JavaScript that the codec uses, bit by bit.

    `&`, `|` and `>>>` are defined on non-negative operands only; `<<` wraps to a signed 32-bit
    number.  A caller that shifts a value into an `|` therefore has to show that the sign bit
    stays clear.  `Bit(v, i)` is bit `i` of `v`, counted from the least significant end. */
module Int32 {

  predicate Bit(v: nat, i: nat) {
    if i == 0 then v % 2 == 1 else Bit(v / 2, i - 1)
  }

  function And(v: nat, w: nat): nat {
    if v == 0 then 0 else 2 * And(v / 2, w / 2) + (if v % 2 == 1 && w % 2 == 1 then 1 else 0)
  }

  function Or(v: nat, w: nat): nat
    decreases v + w
  {
    if v == 0 && w == 0 then 0 else 2 * Or(v / 2, w / 2) + (if v % 2 == 1 || w % 2 == 1 then 1 else 0)
  }

  /** `v` times two to the `k`. */
  function Scale(v: nat, k: nat): (r: nat)
    ensures r >= v
    ensures r == 0 <==> v == 0
  {
    if k == 0 then v else 2 * Scale(v, k - 1)
  }

  function ToInt32(x: int): int {
    (x + 0x8000_0000) % 0x1_0000_0000 - 0x8000_0000
  }

  /** `v << k` */
  function ShiftLeft(v: nat, k: nat): int {
    ToInt32(Scale(v, k))
  }

  /** `v >>> k` */
  function ShiftRight(v: nat, k: nat): nat
    decreases k
  {
    if k == 0 then v else ShiftRight(v / 2, k - 1)
  }

  /** A shift that does not reach the sign bit multiplies. */
  lemma ShiftLeftInRange(v: nat, k: nat)
    requires Scale(v, k) < 0x8000_0000
    ensures ShiftLeft(v, k) == Scale(v, k)
  {}

  lemma {:induction false} BitAnd(v: nat, w: nat, i: nat)
    ensures Bit(And(v, w), i) <==> Bit(v, i) && Bit(w, i)
    decreases i
  {
    if v == 0 {
      BitZero(i);
    } else if i > 0 {
      BitAnd(v / 2, w / 2, i - 1);
    }
  }

  lemma {:induction false} BitOr(v: nat, w: nat, i: nat)
    ensures Bit(Or(v, w), i) <==> Bit(v, i) || Bit(w, i)
    decreases i
  {
    if v == 0 && w == 0 {
      BitZero(i);
    } else if i > 0 {
      BitOr(v / 2, w / 2, i - 1);
    }
  }

  lemma {:induction false} BitZero(i: nat)
    ensures !Bit(0, i)
    decreases i
  {
    if i > 0 {
      BitZero(i - 1);
    }
  }

  lemma {:induction false} BitShiftRight(v: nat, k: nat, i: nat)
    ensures Bit(ShiftRight(v, k), i) <==> Bit(v, k + i)
    decreases k
  {
    if k > 0 {
      BitShiftRight(v / 2, k - 1, i);
    }
  }

  lemma {:induction false} BitScale(v: nat, k: nat, i: nat)
    ensures Bit(Scale(v, k), i) <==> i >= k && Bit(v, i - k)
    decreases k
  {
    if k > 0 && i > 0 {
      BitScale(v, k - 1, i - 1);
    }
  }

  /** A number below two to the `n` has no bit at `n` or above. */
  lemma {:induction false} BitAbove(v: nat, n: nat, i: nat)
    requires v < Scale(1, n) && i >= n
    ensures !Bit(v, i)
    decreases n, i
  {
    if n == 0 {
      BitZero(i);
    } else {
      BitAbove(v / 2, n - 1, i - 1);
    }
  }

  /** The mask of `n` low ones, two to the `n` less one. */
  lemma {:induction false} BitMask(n: nat, i: nat)
    ensures Bit(Scale(1, n) - 1, i) <==> i < n
    decreases n
  {
    if n == 0 {
      BitZero(i);
    } else if i > 0 {
      assert (Scale(1, n) - 1) / 2 == Scale(1, n - 1) - 1;
      BitMask(n - 1, i - 1);
    }
  }

  /** Keeping the `n` low bits gives a number below two to the `n`. */
  lemma {:induction false} AndBound(v: nat, w: nat, n: nat)
    requires w < Scale(1, n)
    ensures And(v, w) < Scale(1, n)
    decreases n
  {
    if v != 0 && n > 0 {
      AndBound(v / 2, w / 2, n - 1);
    } else if v != 0 {
      AndZero(v);
    }
  }

  lemma {:induction false} AndZero(v: nat)
    ensures And(v, 0) == 0
  {
    if v != 0 {
      AndZero(v / 2);
    }
  }

  /** An `|` of a multiple of two to the `n` with a number below two to the `n` adds them. */
  lemma {:induction false} OrAdds(v: nat, w: nat, n: nat)
    requires w < Scale(1, n)
    ensures Or(Scale(v, n), w) == Scale(v, n) + w
    decreases n
  {
    if n == 0 {
      OrZero(v);
    } else {
      OrAdds(v, w / 2, n - 1);
    }
  }

  lemma {:induction false} OrZero(v: nat)
    ensures Or(v, 0) == v
  {
    if v != 0 {
      OrZero(v / 2);
    }
  }

  /** Masking with two to the `n` less one takes the remainder. */
  lemma {:induction false} AndMask(v: nat, n: nat)
    ensures And(v, Scale(1, n) - 1) == v % Scale(1, n)
    decreases n
  {
    if n == 0 {
      AndZero(v);
    } else if v != 0 {
      assert (Scale(1, n) - 1) / 2 == Scale(1, n - 1) - 1;
      AndMask(v / 2, n - 1);
      ModDouble(v, Scale(1, n - 1));
    }
  }

  /** The same for a mask whose power of two is known. */
  lemma AndBelow(v: nat, n: nat, m: nat)
    requires m == Scale(1, n)
    ensures And(v, m - 1) == v % m
  {
    AndMask(v, n);
  }

  lemma AndKeeps(v: nat, n: nat, m: nat)
    requires m == Scale(1, n) && v < m
    ensures And(v, m - 1) == v
  {
    AndBelow(v, n, m);
    DivModUnique(v, m, 0, v);
  }

  lemma ModDouble(v: nat, m: nat)
    requires m > 0
    ensures v % (2 * m) == 2 * (v / 2 % m) + v % 2
  {
    var q, r := v / 2 / m, v / 2 % m;
    assert v == 2 * (q * m + r) + v % 2;
    assert v == (2 * m) * q + (2 * r + v % 2);
    DivModUnique(v, 2 * m, q, 2 * r + v % 2);
  }

  lemma DivModUnique(v: nat, m: nat, q: nat, r: nat)
    requires v == m * q + r && r < m
    ensures v % m == r && v / m == q
  {
    var d := v / m - q;
    assert m * d == r - v % m;
    MultipleIsFar(m, d);
  }

  lemma MultipleIsFar(m: nat, d: int)
    ensures (d >= 1 ==> m * d >= m) && (d <= -1 ==> m * d + m <= 0)
  {
    if d >= 1 {
      assert m * (d - 1) >= 0;
    } else if d <= -1 {
      assert m * (-d - 1) >= 0;
    }
  }
}
