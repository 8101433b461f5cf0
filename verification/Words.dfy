/** Machine words as mathematical integers, and the bit operations the C sources apply to them.

    And and Or are defined bit by bit. The lemmas below turn the particular masks and
    disjoint unions the sources use into remainders and sums. */
module Words {
  const TWO63: int := 0x8000_0000_0000_0000
  const TWO64: int := 0x1_0000_0000_0000_0000
  const ULONG_MAX: int := TWO64 - 1
  const LONG_MAX: int := TWO63 - 1

  type ulong = x: int | 0 <= x < TWO64
  type long = x: int | -TWO63 <= x < TWO63
  type byte = x: int | 0 <= x < 256

  datatype Option<+T> = None | Some(value: T)

  function Pow2(n: nat): (p: nat)
    ensures p >= 1
  {
    if n == 0 then 1 else 2 * Pow2(n - 1)
  }

  ghost predicate IsPow2(x: int) {
    exists k: nat :: x == Pow2(k)
  }

  function And(x: nat, y: nat): (r: nat)
    ensures r <= x && r <= y
  {
    if x == 0 then 0
    else 2 * And(x / 2, y / 2) + (if x % 2 == 1 && y % 2 == 1 then 1 else 0)
  }

  function Or(x: nat, y: nat): nat {
    if x == 0 then y
    else 2 * Or(x / 2, y / 2) + (if x % 2 == 1 || y % 2 == 1 then 1 else 0)
  }

  function Xor(x: nat, y: nat): nat
    decreases x + y
  {
    if x == 0 && y == 0 then 0
    else 2 * Xor(x / 2, y / 2) + (if x % 2 != y % 2 then 1 else 0)
  }

  function Not64(x: ulong): ulong {
    ULONG_MAX - x
  }

  function Shl(x: nat, n: nat): nat {
    if n == 0 then x else 2 * Shl(x, n - 1)
  }

  function Shl64(x: ulong, n: nat): ulong {
    Shl(x, n) % TWO64
  }

  function Shr(x: nat, n: nat): (r: nat)
    ensures r <= x
  {
    if n == 0 then x else Shr(x / 2, n - 1)
  }

  /** The low k bits of x. */
  ghost function Low(x: nat, k: nat): (r: nat)
    ensures r < Pow2(k) && r <= x
  {
    if k == 0 then 0 else 2 * Low(x / 2, k - 1) + x % 2
  }

  /** The index of the most significant set bit, for x > 0. */
  function FindMsb(x: nat): (b: nat)
    requires x > 0
    ensures Pow2(b) <= x < Pow2(b + 1)
  {
    if x == 1 then 0 else FindMsb(x / 2) + 1
  }

  // ----- powers of two

  lemma {:induction false} Pow2Mono(a: nat, b: nat)
    requires a <= b
    ensures Pow2(a) <= Pow2(b)
    ensures a < b ==> 2 * Pow2(a) <= Pow2(b)
    decreases b - a
  {
    if a < b {
      Pow2Mono(a, b - 1);
    }
  }

  lemma {:induction false} Pow2Add(a: nat, b: nat)
    ensures Pow2(a + b) == Pow2(a) * Pow2(b)
  {
    if a > 0 {
      Pow2Add(a - 1, b);
    }
  }

  lemma Pow2Consts()
    ensures Pow2(0) == 1 && Pow2(1) == 2 && Pow2(2) == 4 && Pow2(3) == 8 && Pow2(4) == 16
    ensures Pow2(5) == 32 && Pow2(6) == 64 && Pow2(7) == 128
    ensures Pow2(62) == 0x4000_0000_0000_0000 && Pow2(63) == TWO63 && Pow2(64) == TWO64
  {
    Pow2Step(0, 1);
    Pow2Step(8, 0x100);
    Pow2Step(16, 0x1_0000);
    Pow2Step(24, 0x100_0000);
    Pow2Step(32, 0x1_0000_0000);
    Pow2Step(40, 0x100_0000_0000);
    Pow2Step(48, 0x1_0000_0000_0000);
    Pow2Step(56, 0x100_0000_0000_0000);
  }

  /** The width of a word as a variable, which the verifier does not unfold Pow2 at. */
  lemma SixtyFour() returns (w: nat)
    ensures w == 64 && Pow2(w) == TWO64
  {
    w := 64;
    Pow2Consts();
  }

  lemma Pow2Step(n: nat, p: nat)
    requires Pow2(n) == p
    ensures Pow2(n + 1) == 2 * p && Pow2(n + 2) == 4 * p && Pow2(n + 3) == 8 * p && Pow2(n + 4) == 16 * p
    ensures Pow2(n + 5) == 32 * p && Pow2(n + 6) == 64 * p && Pow2(n + 7) == 128 * p && Pow2(n + 8) == 256 * p
  {
    assert Pow2(n + 2) == 4 * p;
    assert Pow2(n + 4) == 16 * p;
    assert Pow2(n + 6) == 64 * p;
  }

  // ----- masks and shifts

  /** Masking with 2^k - 1 keeps the low k bits. */
  lemma {:induction false} AndMask(x: nat, k: nat)
    ensures And(x, Pow2(k) - 1) == Low(x, k)
  {
    if k > 0 {
      AndMask(x / 2, k - 1);
      AndUnfold(x, Pow2(k) - 1);
    }
  }

  lemma AndUnfold(x: nat, y: nat)
    ensures And(x, y) == 2 * And(x / 2, y / 2) + (if x % 2 == 1 && y % 2 == 1 then 1 else 0)
  {
  }

  /** Masking with y = 2^d - 2^k keeps the bits in [k,d). */
  lemma {:induction false} AndHigh(x: nat, d: nat, k: nat, y: nat)
    requires k <= d && y + Pow2(k) == Pow2(d)
    ensures And(x, y) == Low(x, d) - Low(x, k)
  {
    if k == 0 {
      AndMask(x, d);
    } else {
      AndHigh(x / 2, d - 1, k - 1, y / 2);
      AndEven(x, y);
      LowUnfold(x, d);
      LowUnfold(x, k);
    }
  }

  lemma AndEven(x: nat, y: nat)
    requires y % 2 == 0
    ensures And(x, y) == 2 * And(x / 2, y / 2)
  {
  }

  lemma LowUnfold(x: nat, k: nat)
    requires k > 0
    ensures Low(x, k) == 2 * Low(x / 2, k - 1) + x % 2
  {
  }

  /** A union of words with no common bit is their sum. */
  lemma {:induction false} OrDisjoint(hi: nat, lo: nat, k: nat)
    requires lo < Pow2(k) && Low(hi, k) == 0
    ensures Or(hi, lo) == hi + lo && Or(lo, hi) == hi + lo
    ensures Low(hi + lo, k) == lo
  {
    OrZero(hi);
    if k > 0 {
      OrDisjoint(hi / 2, lo / 2, k - 1);
      assert (hi + lo) / 2 == hi / 2 + lo / 2;
    }
  }

  lemma {:induction false} OrZero(x: nat)
    ensures Or(x, 0) == x
  {
    if x > 0 {
      OrZero(x / 2);
    }
  }

  lemma {:induction false} LowSmall(x: nat, k: nat)
    requires x < Pow2(k)
    ensures Low(x, k) == x
  {
    if k > 0 {
      LowSmall(x / 2, k - 1);
    }
  }

  lemma {:induction false} LowLow(x: nat, a: nat, b: nat)
    requires b <= a
    ensures Low(Low(x, a), b) == Low(x, b)
  {
    if b > 0 {
      LowLow(x / 2, a - 1, b - 1);
      assert Low(x, a) / 2 == Low(x / 2, a - 1);
    }
  }

  lemma {:induction false} LowShl(x: nat, a: nat, b: nat)
    ensures Low(Shl(x, a), a + b) == Shl(Low(x, b), a)
    ensures Low(Shl(x, a), a) == 0
  {
    if a > 0 {
      LowShl(x, a - 1, b);
    }
  }

  lemma {:induction false} ShrLow(x: nat, a: nat, b: nat)
    ensures Shr(Low(x, a + b), a) == Low(Shr(x, a), b)
  {
    if a > 0 {
      ShrLow(x / 2, a - 1, b);
      assert Low(x, a + b) / 2 == Low(x / 2, a + b - 1);
    }
  }

  lemma {:induction false} ShlBound(x: nat, a: nat, b: nat, n: nat)
    requires x < Pow2(b) && n == a + b
    ensures Shl(x, a) + Pow2(a) <= Pow2(n)
  {
    if a > 0 {
      ShlBound(x, a - 1, b, n - 1);
    }
  }

  /** Every word is its high bits above its low bits. */
  lemma {:induction false} Split(x: nat, k: nat)
    ensures x == Shl(Shr(x, k), k) + Low(x, k)
  {
    if k > 0 {
      Split(x / 2, k - 1);
    }
  }

  lemma {:induction false} ShlMul(x: nat, k: nat)
    ensures Shl(x, k) == x * Pow2(k)
  {
    if k > 0 {
      ShlMul(x, k - 1);
    }
  }

  lemma LowIsMod(x: nat, k: nat)
    ensures Low(x, k) == x % Pow2(k) && Shr(x, k) == x / Pow2(k)
  {
    Split(x, k);
    ShlMul(Shr(x, k), k);
    DivModUnique(x, Pow2(k), Shr(x, k), Low(x, k));
  }

  // ----- exclusive or

  lemma {:induction false} XorZero(x: nat)
    ensures Xor(x, 0) == x
  {
    if x > 0 {
      XorZero(x / 2);
    }
  }

  lemma {:induction false} XorOnes(x: nat, w: nat)
    requires x < Pow2(w)
    ensures Xor(x, Pow2(w) - 1) == Pow2(w) - 1 - x
  {
    if w > 0 {
      var y := Pow2(w) - 1;
      assert y % 2 == 1 && y / 2 == Pow2(w - 1) - 1;
      XorOnes(x / 2, w - 1);
      XorOdd(x, y);
    }
  }

  lemma XorOdd(x: nat, y: nat)
    requires y % 2 == 1 && Xor(x / 2, y / 2) == y / 2 - x / 2
    ensures Xor(x, y) == y - x
  {
    XorUnfold(x, y);
  }

  lemma XorUnfold(x: nat, y: nat)
    ensures Xor(x, y) == 2 * Xor(x / 2, y / 2) + (if x % 2 != y % 2 then 1 else 0)
  {
  }

  lemma {:induction false} XorCommutes(x: nat, y: nat)
    ensures Xor(x, y) == Xor(y, x)
    decreases x + y
  {
    if x != 0 || y != 0 {
      XorCommutes(x / 2, y / 2);
    }
  }

  // ----- remainders

  lemma MulGrows(e: int, d: int)
    requires d > 0
    ensures e >= 1 ==> e * d >= d
    ensures e <= -1 ==> e * d <= -d
  {
  }

  lemma DivModUnique(x: int, d: int, q: int, r: int)
    requires d > 0 && 0 <= r < d && x == q * d + r
    ensures x / d == q && x % d == r
  {
    var e := x / d - q;
    assert e * d == r - x % d;
    MulGrows(e, d);
  }

  lemma IncMod(x: nat, d: nat)
    requires x < d
    ensures (x + 1) % d == if x + 1 == d then 0 else x + 1
  {
    if x + 1 == d {
      DivModUnique(x + 1, d, 1, 0);
    } else {
      DivModUnique(x + 1, d, 0, x + 1);
    }
  }

  lemma ModCongruent(x: int, y: int, d: int)
    requires d > 0
    ensures x % d == y % d <==> (x - y) % d == 0
  {
    var q, r := y / d, y % d;
    var p, s := x / d, x % d;
    assert x - y == (p - q) * d + (s - r);
    if s >= r {
      DivModUnique(x - y, d, p - q, s - r);
    } else {
      assert x - y == (p - q - 1) * d + (s - r + d);
      DivModUnique(x - y, d, p - q - 1, s - r + d);
    }
  }

  lemma ModShift(x: int, d: int, k: int)
    requires d > 0
    ensures (x + k * d) % d == x % d
  {
    assert x + k * d == (x / d + k) * d + x % d;
    DivModUnique(x + k * d, d, x / d + k, x % d);
  }

  lemma ModOfMod(x: int, m: int, d: int)
    requires m > 0 && d > 0 && m * d > 0
    ensures (x % (m * d)) % d == x % d
  {
    var p := m * d;
    var q, r := x / p, x % p;
    assert x == q * p + r;
    MulAssoc(q, m, d);
    ModShift(r, d, q * m);
  }

  lemma MulAssoc(x: int, y: int, z: int)
    ensures x * (y * z) == (x * y) * z
  {
  }

  // ----- sequence numbers

  /** 64-bit wrap-around of an unbounded sequence number. */
  function Wrap(x: int): ulong {
    x % TWO64
  }

  /** fd_seq_diff: the signed 64-bit value of the wrapped difference. */
  function SeqDiff(a: ulong, b: ulong): long {
    var d := (a - b) % TWO64;
    if d < TWO63 then d else d - TWO64
  }

  /** The signed difference of two wrapped numbers is their true difference exactly when that
      difference fits in 64 signed bits. */
  lemma SeqDiffExact(x: int, y: int)
    ensures SeqDiff(Wrap(x), Wrap(y)) == x - y <==> -TWO63 <= x - y < TWO63
  {
    assert (Wrap(x) - Wrap(y)) % TWO64 == (x - y) % TWO64;
  }

  lemma WrapInjective(x: int, y: int)
    requires Wrap(x) == Wrap(y) && -TWO64 < x - y < TWO64
    ensures x == y
  {
  }

  /** Wrapping does not change a remainder modulo a smaller power of two. */
  lemma WrapMod(x: int, k: nat)
    requires k <= 64
    ensures Wrap(x) % Pow2(k) == x % Pow2(k)
  {
    Pow2Consts();
    Pow2Add(64 - k, k);
    ModOfMod(x, Pow2(64 - k), Pow2(k));
  }
}
