/** The integer hashes fd_uint_hash and fd_ulong_hash and their inverses, as one family of steps
    on words of w bits: xor with the word shifted right, and multiplication by an odd number. */
module Hashes {
  import opened Words

  /** x ^= x >> k */
  function Fold(x: nat, k: nat): nat {
    Xor(x, Shr(x, k))
  }

  /** x ^= (x >> k) ^ (x >> (2 * k)) */
  function Fold2(x: nat, k: nat): nat {
    Xor(x, Xor(Shr(x, k), Shr(x, 2 * k)))
  }

  const TWO32: int := 0x1_0000_0000

  /** The two hashes, on words of w bits with m = 2^w. */
  function Hash(x: nat, k: nat, j: nat, a: nat, b: nat, m: nat): nat
    requires m > 0
  {
    Fold(Fold(Fold(x, k) * a % m, j) * b % m, k)
  }

  function Unhash(x: nat, k: nat, j: nat, b: nat, a: nat, m: nat): nat
    requires m > 0
  {
    Fold(Fold2(Fold(x, k) * b % m, j) * a % m, k)
  }

  function Hash32(x: nat): nat {
    Hash(x, 16, 13, 0x85eb_ca6b, 0xc2b2_ae35, TWO32)
  }

  function Unhash32(x: nat): nat {
    Unhash(x, 16, 13, 0x7ed1_b41d, 0xa5cb_9243, TWO32)
  }

  function Hash64(x: nat): nat {
    Hash(x, 33, 33, 0xff51_afd7_ed55_8ccd, 0xc4ce_b9fe_1a85_ec53, TWO64)
  }

  function Unhash64(x: nat): nat {
    Unhash(x, 33, 33, 0x9cb4_b2f8_1293_37db, 0x4f74_430c_22a5_4005, TWO64)
  }

  /** fd_uint_hash. */
  method UintHash(x: nat) returns (h: nat)
    ensures h == Hash32(x)
  {
    h := x;
    h := Xor(h, Shr(h, 16));
    h := h * 0x85eb_ca6b % TWO32;
    h := Xor(h, Shr(h, 13));
    h := h * 0xc2b2_ae35 % TWO32;
    h := Xor(h, Shr(h, 16));
  }

  /** fd_uint_hash_inverse. */
  method UintHashInverse(x: nat) returns (h: nat)
    ensures h == Unhash32(x)
  {
    h := x;
    h := Xor(h, Shr(h, 16));
    h := h * 0x7ed1_b41d % TWO32;
    h := Xor(h, Xor(Shr(h, 13), Shr(h, 26)));
    h := h * 0xa5cb_9243 % TWO32;
    h := Xor(h, Shr(h, 16));
  }

  /** fd_ulong_hash. */
  method UlongHash(x: ulong) returns (h: nat)
    ensures h == Hash64(x)
  {
    h := x;
    h := Xor(h, Shr(h, 33));
    h := h * 0xff51_afd7_ed55_8ccd % TWO64;
    h := Xor(h, Shr(h, 33));
    h := h * 0xc4ce_b9fe_1a85_ec53 % TWO64;
    h := Xor(h, Shr(h, 33));
  }

  /** fd_ulong_hash_inverse. */
  method UlongHashInverse(x: ulong) returns (h: nat)
    ensures h == Unhash64(x)
  {
    h := x;
    h := Xor(h, Shr(h, 33));
    h := h * 0x9cb4_b2f8_1293_37db % TWO64;
    FoldIsFold2(h);
    h := Xor(h, Shr(h, 33));
    h := h * 0x4f74_430c_22a5_4005 % TWO64;
    h := Xor(h, Shr(h, 33));
  }

  // ----- exclusive or with a shifted word

  lemma {:induction false} XorShr(x: nat, y: nat, k: nat)
    ensures Shr(Xor(x, y), k) == Xor(Shr(x, k), Shr(y, k))
  {
    if k > 0 {
      XorUnfold(x, y);
      XorShr(x / 2, y / 2, k - 1);
    }
  }

  lemma {:induction false} ShrShr(x: nat, j: nat, k: nat)
    ensures Shr(Shr(x, j), k) == Shr(x, j + k)
  {
    if j > 0 {
      ShrShr(x / 2, j - 1, k);
    }
  }

  lemma {:induction false} XorAssoc(x: nat, y: nat, z: nat)
    ensures Xor(Xor(x, y), z) == Xor(x, Xor(y, z))
    decreases x + y + z
  {
    if x + y + z > 0 {
      XorAssoc(x / 2, y / 2, z / 2);
      XorDigit(x, y);
      XorDigit(y, z);
      XorUnfold(Xor(x, y), z);
      XorUnfold(x, Xor(y, z));
    }
  }

  lemma XorDigit(x: nat, y: nat)
    ensures Xor(x, y) / 2 == Xor(x / 2, y / 2) && (Xor(x, y) % 2 == 1 <==> x % 2 != y % 2)
  {
    XorUnfold(x, y);
  }

  lemma {:induction false} XorSelf(x: nat)
    ensures Xor(x, x) == 0
  {
    if x > 0 {
      XorSelf(x / 2);
    }
  }

  lemma {:induction false} ShrOut(x: nat, w: nat, k: nat)
    requires x < Pow2(w) && w <= k
    ensures Shr(x, k) == 0
    decreases k
  {
    if k > 0 {
      ShrOut(x / 2, if w == 0 then 0 else w - 1, k - 1);
    }
  }

  lemma {:induction false} XorBound(x: nat, y: nat, w: nat)
    requires x < Pow2(w) && y < Pow2(w)
    ensures Xor(x, y) < Pow2(w)
  {
    XorUnfold(x, y);
    if w > 0 {
      XorBound(x / 2, y / 2, w - 1);
    }
  }

  lemma FoldBound(x: nat, k: nat, w: nat)
    requires x < Pow2(w)
    ensures Fold(x, k) < Pow2(w) && Fold2(x, k) < Pow2(w)
  {
    XorBound(x, Shr(x, k), w);
    XorBound(Shr(x, k), Shr(x, 2 * k), w);
    XorBound(x, Xor(Shr(x, k), Shr(x, 2 * k)), w);
  }

  /** a ^ b ^ (b ^ c) == a ^ c */
  lemma Cancel(a: nat, b: nat, c: nat)
    ensures Xor(Xor(a, b), Xor(b, c)) == Xor(a, c)
  {
    XorAssoc(a, b, Xor(b, c));
    XorAssoc(b, b, c);
    XorSelf(b);
    XorCommutes(0, c);
    XorZero(c);
  }

  /** Folding by half a word or more undoes itself. */
  lemma FoldTwice(x: nat, k: nat, w: nat)
    requires x < Pow2(w) && 2 * k >= w
    ensures Fold(Fold(x, k), k) == x
  {
    XorShr(x, Shr(x, k), k);
    ShrShr(x, k, k);
    ShrOut(x, w, k + k);
    Cancel(x, Shr(x, k), 0);
    XorZero(x);
  }

  lemma CancelTwo(x: nat, y: nat, z: nat)
    ensures Xor(Xor(x, y), Xor(Xor(y, z), z)) == x
  {
    Cancel(y, z, 0);
    XorZero(z);
    XorZero(y);
    Cancel(x, y, 0);
    XorZero(x);
  }

  lemma CancelOne(x: nat, y: nat)
    ensures Xor(Xor(x, y), y) == x
  {
    Cancel(x, y, 0);
    XorZero(y);
    XorZero(x);
  }

  /** Folding by a third of a word or more is undone by Fold2, on either side. */
  lemma FoldFold2(x: nat, k: nat, w: nat)
    requires x < Pow2(w) && 3 * k >= w
    ensures Fold2(Fold(x, k), k) == x && Fold(Fold2(x, k), k) == x
  {
    var y, z := Shr(x, k), Shr(x, 2 * k);
    Shifts(x, k, w);
    XorShr(x, y, k);
    XorShr(x, y, 2 * k);
    CancelTwo(x, y, z);
    XorShr(x, Xor(y, z), k);
    XorShr(y, z, k);
    CancelOne(x, Xor(y, z));
  }

  lemma Shifts(x: nat, k: nat, w: nat)
    requires x < Pow2(w) && 3 * k >= w
    ensures var y, z := Shr(x, k), Shr(x, 2 * k);
            Shr(y, k) == z && Shr(z, k) == 0 == Shr(y, 2 * k) && Xor(z, 0) == z
  {
    ShrShr(x, k, k);
    ShrShr(x, k, 2 * k);
    ShrShr(x, 2 * k, k);
    ShrOut(x, w, 3 * k);
    XorZero(Shr(x, 2 * k));
  }

  // ----- multiplication by an odd number

  /** Multiplying by c and then by its inverse d gives the word back. */
  lemma MulBack(x: nat, c: nat, d: nat, m: nat, q: nat)
    requires x < m && c * d == q * m + 1
    ensures (x * c % m) * d % m == x
  {
    var r, p := x * c % m, x * c / m;
    assert x * c == p * m + r;
    assert r * d == (x * q - p * d) * m + x by {
      assert r * d == (x * c) * d - (p * m) * d;
      assert (x * c) * d == x * (c * d) == x * (q * m) + x;
      assert x * (q * m) == (x * q) * m;
      assert (p * m) * d == (p * d) * m;
      assert (x * q - p * d) * m == (x * q) * m - (p * d) * m;
    }
    DivModUnique(r * d, m, x * q - p * d, x);
  }

  // ----- the hashes and their inverses

  /** Hashing and then unhashing with the inverse factors c of a and d of b. */
  lemma HashBack(x: nat, k: nat, j: nat, a: nat, b: nat, c: nat, d: nat, p: nat, q: nat, w: nat, m: nat)
    requires m == Pow2(w) && x < m && 2 * k >= w && 3 * j >= w
    requires a * c == p * m + 1 && b * d == q * m + 1
    ensures Hash(x, k, j, a, b, m) < m && Unhash(Hash(x, k, j, a, b, m), k, j, d, c, m) == x
  {
    var x1 := Fold(x, k);
    var x2 := x1 * a % m;
    var x3 := Fold(x2, j);
    var x4 := x3 * b % m;
    FoldBound(x, k, w);
    FoldBound(x2, j, w);
    FoldBound(x4, k, w);
    FoldTwice(x4, k, w);
    MulBack(x3, b, d, m, q);
    FoldFold2(x2, j, w);
    MulBack(x1, a, c, m, p);
    FoldTwice(x, k, w);
  }

  /** Unhashing and then hashing. */
  lemma UnhashBack(x: nat, k: nat, j: nat, a: nat, b: nat, c: nat, d: nat, p: nat, q: nat, w: nat, m: nat)
    requires m == Pow2(w) && x < m && 2 * k >= w && 3 * j >= w
    requires c * a == p * m + 1 && d * b == q * m + 1
    ensures Unhash(x, k, j, d, c, m) < m && Hash(Unhash(x, k, j, d, c, m), k, j, a, b, m) == x
  {
    var x1 := Fold(x, k);
    var x2 := x1 * d % m;
    var x3 := Fold2(x2, j);
    var x4 := x3 * c % m;
    FoldBound(x, k, w);
    FoldBound(x2, j, w);
    FoldBound(x4, k, w);
    FoldTwice(x4, k, w);
    MulBack(x3, c, a, m, p);
    FoldFold2(x2, j, w);
    MulBack(x1, d, b, m, q);
    FoldTwice(x, k, w);
  }

  lemma Width32() returns (w: nat)
    ensures w == 32 && Pow2(w) == TWO32
  {
    w := 32;
    Pow2Step(0, 1);
    Pow2Step(8, 0x100);
    Pow2Step(16, 0x1_0000);
    Pow2Step(24, 0x100_0000);
  }

  /** Folding by 33 leaves no third term in 64 bits. */
  lemma FoldIsFold2(x: ulong)
    ensures Fold2(x, 33) == Fold(x, 33)
  {
    var w := SixtyFour();
    ShrOut(x, w, 2 * 33);
    XorZero(Shr(x, 33));
  }

  /** Each 32-bit function undoes the other, on all 32-bit words. */
  lemma Hash32Inverse(x: nat)
    requires x < TWO32
    ensures Hash32(x) < TWO32 && Unhash32(Hash32(x)) == x
    ensures Unhash32(x) < TWO32 && Hash32(Unhash32(x)) == x
  {
    var w := Width32();
    HashBack(x, 16, 13, 0x85eb_ca6b, 0xc2b2_ae35, 0xa5cb_9243, 0x7ed1_b41d, 1455126516, 1618177690, w, TWO32);
    UnhashBack(x, 16, 13, 0x85eb_ca6b, 0xc2b2_ae35, 0xa5cb_9243, 0x7ed1_b41d, 1455126516, 1618177690, w, TWO32);
  }

  /** Each 64-bit function undoes the other, on all 64-bit words. */
  lemma Hash64Inverse(x: ulong)
    ensures Hash64(x) < TWO64 && Unhash64(Hash64(x)) == x
    ensures Unhash64(x) < TWO64 && Hash64(Unhash64(x)) == x
  {
    var w := SixtyFour();
    HashBack(x, 33, 33, 0xff51_afd7_ed55_8ccd, 0xc4ce_b9fe_1a85_ec53, 0x4f74_430c_22a5_4005, 0x9cb4_b2f8_1293_37db,
             5710046619856821070, 8680939279959119233, w, TWO64);
    UnhashBack(x, 33, 33, 0xff51_afd7_ed55_8ccd, 0xc4ce_b9fe_1a85_ec53, 0x4f74_430c_22a5_4005, 0x9cb4_b2f8_1293_37db,
               5710046619856821070, 8680939279959119233, w, TWO64);
  }

  lemma HashZero(x: nat, k: nat, j: nat, a: nat, b: nat, m: nat)
    requires x == 0 && m > 0
    ensures Hash(x, k, j, a, b, m) == 0
  {
    var x2 := Fold(x, k) * a % m;
    ZeroStep(x, k, a, m);
    var x4 := Fold(x2, j) * b % m;
    ZeroStep(x2, j, b, m);
    ShrZero(k);
  }

  lemma ZeroStep(x: nat, k: nat, a: nat, m: nat)
    requires x == 0 && m > 0
    ensures Fold(x, k) * a % m == 0
  {
    ShrZero(k);
    DivModUnique(0, m, 0, 0);
  }

  /** Zero as a variable, which the verifier does not unfold the hash at. */
  lemma Zero() returns (z: nat)
    ensures z == 0
  {
    z := 0;
  }

  lemma {:induction false} ShrZero(k: nat)
    ensures Shr(0, k) == 0 && Fold(0, k) == 0
  {
    if k > 0 {
      ShrZero(k - 1);
    }
  }

  /** Only zero hashes to zero and no two words share a hash, so a tag hashed from a non-zero
      number is never the null tag of a tag cache. */
  lemma Hash64Permutes(x: ulong, y: ulong)
    ensures Hash64(x) == 0 <==> x == 0
    ensures Hash64(x) == Hash64(y) <==> x == y
  {
    Hash64Inverse(x);
    Hash64Inverse(y);
    HashZeroIs(x);
  }

  lemma HashZeroIs(x: ulong)
    ensures Hash64(x) == 0 <==> x == 0
  {
    var z := Zero();
    HashZero(z, 33, 33, 0xff51_afd7_ed55_8ccd, 0xc4ce_b9fe_1a85_ec53, TWO64);
    Hash64Inverse(x);
    Hash64Inverse(z);
  }

  lemma Hash32Permutes(x: nat, y: nat)
    requires x < TWO32 && y < TWO32
    ensures Hash32(x) == 0 <==> x == 0
    ensures Hash32(x) == Hash32(y) <==> x == y
  {
    var z := Zero();
    HashZero(z, 16, 13, 0x85eb_ca6b, 0xc2b2_ae35, TWO32);
    Hash32Inverse(x);
    Hash32Inverse(y);
    Hash32Inverse(z);
  }

  /** What the hashes are, from both ends: the last fold undone, they are two rounds of folding and
      multiplying by the constants of the Murmur3 finalizer. */
  lemma Hash32Is(x: nat, y: nat)
    requires x < TWO32 && y == Fold(x, 16) * 0x85eb_ca6b % TWO32
    ensures Fold(Hash32(x), 16) == Fold(y, 13) * 0xc2b2_ae35 % TWO32
  {
    var w := Width32();
    FoldTwice(Fold(y, 13) * 0xc2b2_ae35 % TWO32, 16, w);
  }

  lemma Hash64Is(x: ulong, y: nat)
    requires y == Fold(x, 33) * 0xff51_afd7_ed55_8ccd % TWO64
    ensures Fold(Hash64(x), 33) == Fold(y, 33) * 0xc4ce_b9fe_1a85_ec53 % TWO64
  {
    var w := SixtyFour();
    FoldTwice(Fold(y, 33) * 0xc4ce_b9fe_1a85_ec53 % TWO64, 33, w);
  }
}
