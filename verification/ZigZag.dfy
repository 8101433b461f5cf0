/** Zig-zag encoding of signed integers: fd_*_zz_enc and fd_*_zz_dec, at every width. */
module ZigZag {
  import opened Words

  /** A signed value of w bits. */
  predicate Fits(x: int, w: nat) {
    w > 0 && 0 <= x + Pow2(w - 1) && x < Pow2(w - 1)
  }

  /** The cast to the unsigned type of w bits, and back. */
  function ToUnsigned(x: int, w: nat): nat
    requires 0 <= x + Pow2(w)
  {
    if x < 0 then x + Pow2(w) else x
  }

  function ToSigned(u: nat, w: nat): int
    requires w > 0
  {
    if u < Pow2(w - 1) then u else u - Pow2(w)
  }

  /** The arithmetic shift x >> (w - 1) of a signed value. */
  function Sign(x: int, w: nat): (s: int)
    requires Fits(x, w)
  {
    if x < 0 then -1 else 0
  }

  /** u << 1 within w bits. */
  function Twice(u: nat, w: nat): nat
    requires u < Pow2(w)
  {
    if 2 * u < Pow2(w) then 2 * u else 2 * u - Pow2(w)
  }

  /** (x >> (w - 1)) ^ (x << 1), in unsigned arithmetic. */
  function ZzEnc(x: int, w: nat): nat
    requires Fits(x, w)
  {
    Xor(ToUnsigned(Sign(x, w), w), Twice(ToUnsigned(x, w), w))
  }

  /** (x >> 1) ^ -(x & 1), in unsigned arithmetic and then cast. */
  function ZzDec(u: nat, w: nat): int
    requires w > 0
  {
    ToSigned(Xor(u / 2, ToUnsigned(-(u % 2), w)), w)
  }

  /** Exclusive or with no bits or with all w of them. */
  lemma XorMask(x: nat, mask: nat, w: nat, all: bool)
    requires x < Pow2(w) && mask == if all then Pow2(w) - 1 else 0
    ensures Xor(x, mask) == Xor(mask, x) == if all then mask - x else x
  {
    XorCommutes(x, mask);
    XorZero(x);
    XorOnes(x, w);
  }

  /** Numbers of small magnitude get small codes, the sign in the lowest bit. */
  lemma ZzEncIs(x: int, w: nat)
    requires Fits(x, w)
    ensures ZzEnc(x, w) == if x < 0 then -2 * x - 1 else 2 * x
    ensures ZzEnc(x, w) < Pow2(w)
  {
    XorMask(Twice(ToUnsigned(x, w), w), ToUnsigned(Sign(x, w), w), w, x < 0);
  }

  lemma ZzDecIs(u: nat, w: nat)
    requires w > 0 && u < Pow2(w)
    ensures ZzDec(u, w) == if u % 2 == 1 then -(u / 2) - 1 else u / 2
    ensures Fits(ZzDec(u, w), w)
  {
    XorMask(u / 2, ToUnsigned(-(u % 2), w), w, u % 2 == 1);
  }

  /** Encoding and decoding are mutually inverse, at every width. */
  lemma ZigZagRoundTrip(x: int, w: nat)
    requires Fits(x, w)
    ensures ZzDec(ZzEnc(x, w), w) == x
  {
    var u := ZzEnc(x, w);
    ZzEncIs(x, w);
    ZzDecIs(u, w);
  }

  lemma ZigZagOnto(u: nat, w: nat)
    requires w > 0 && u < Pow2(w)
    ensures Fits(ZzDec(u, w), w) && ZzEnc(ZzDec(u, w), w) == u
  {
    ZzDecIs(u, w);
    ZzEncIs(ZzDec(u, w), w);
  }

  /** x is less than 2^k in magnitude exactly when its code is less than 2^(k+1). */
  lemma ZigZagSmall(x: int, w: nat, k: nat)
    requires Fits(x, w)
    ensures 0 <= x + Pow2(k) && x < Pow2(k) <==> ZzEnc(x, w) < Pow2(k + 1)
  {
    var u := ZzEnc(x, w);
    ZzEncIs(x, w);
    SmallCode(x, u, Pow2(k));
  }

  lemma SmallCode(x: int, u: nat, p: nat)
    requires u == if x < 0 then -2 * x - 1 else 2 * x
    ensures 0 <= x + p && x < p <==> u < 2 * p
  {
  }
}
