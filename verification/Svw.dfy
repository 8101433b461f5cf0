/** Symmetric variable-width integers: fd_ulong_svw_*.

    A 64-bit integer is stored in 1, 2, 3, 4, 5, 8 or 9 bytes, the width marked in the low bits
    of the first byte and in the high bits of the last one. */
module Svw {
  import opened Words

  function EncSz(x: ulong): nat {
    if x < 0x40 then 1
    else if x < 0x400 then 2
    else if x < 0x4_0000 then 3
    else if x < 0x100_0000 then 4
    else if x < 0x1_0000_0000 then 5
    else if x < 0x100_0000_0000_0000 then 8
    else 9
  }

  predicate Width(csz: int) {
    1 <= csz <= 5 || csz == 8 || csz == 9
  }

  /** n bytes of v, the least significant first: FD_STORE. */
  function StoreLE(v: nat, n: nat): (s: seq<byte>)
    ensures |s| == n
  {
    if n == 0 then [] else [v % 256] + StoreLE(v / 256, n - 1)
  }

  /** fd_ulong_load_n. */
  function LoadLE(s: seq<byte>): nat {
    if s == [] then 0 else s[0] + 256 * LoadLE(s[1..])
  }

  /** The layout of each width: WordSz bytes hold a word of marks and shifted low bits, and for
      the odd widths one more byte holds a mark and the remaining high bits. */
  function WordSz(csz: nat): nat {
    if csz == 3 || csz == 5 || csz == 9 then csz - 1 else csz
  }

  function Marks(csz: nat): nat {
    if csz == 1 then 0
    else if csz == 2 then 0x8001
    else if csz == 3 then 0x5
    else if csz == 4 then 0xc000_0003
    else if csz == 5 then 0xb
    else if csz == 8 then 0xe000_0000_0000_0007
    else 0xf
  }

  function Shift(csz: nat): nat {
    if csz == 1 then 1 else if csz <= 3 then 3 else 4
  }

  /** The cast to the type of the word. */
  function Cast(csz: nat, v: nat): nat {
    if csz == 1 then v % 0x100 else if csz <= 3 then v % 0x1_0000 else if csz <= 5 then v % 0x1_0000_0000 else v % TWO64
  }

  function TailMark(csz: nat): nat {
    if csz == 3 then 0xa0 else if csz == 5 then 0xd0 else 0xf0
  }

  function TailShift(csz: nat): nat {
    if csz == 3 then 13 else if csz == 5 then 28 else 60
  }

  function TailMask(csz: nat): nat {
    if csz == 3 then 0x1f else if csz == 5 then 0x0f else 0xff
  }

  function WordMask(csz: nat): nat {
    if csz == 1 then 127 else if csz == 2 then 1023 else if csz == 4 then 16777215 else 72057594037927935
  }

  function EncWord(csz: nat, x: ulong): nat
    requires Width(csz)
  {
    Cast(csz, Or(Marks(csz), Shl64(x, Shift(csz))))
  }

  function EncByte(csz: nat, x: ulong): byte {
    Or(TailMark(csz), Shr(x, TailShift(csz))) % 0x100
  }

  /** fd_ulong_svw_enc_fixed. */
  function EncFixed(csz: nat, x: ulong): (s: seq<byte>)
    requires Width(csz)
    ensures |s| == csz
  {
    StoreLE(EncWord(csz, x), WordSz(csz)) + if WordSz(csz) < csz then [EncByte(csz, x)] else []
  }

  /** fd_ulong_svw_enc. */
  function Enc(x: ulong): seq<byte> {
    EncFixed(EncSz(x), x)
  }

  /** The bits a word holds once its low marks are shifted out, with those of the last byte. The
      masks for csz 1 and 9, absent from the source, change nothing. */
  function Join(csz: nat, lo: nat, last: byte): ulong {
    (if WordSz(csz) == csz then And(lo, WordMask(csz))
     else Or(lo, Shl64(And(last, TailMask(csz)), TailShift(csz)))) % TWO64
  }

  /** fd_ulong_svw_dec_fixed. */
  function DecFixed(b: seq<byte>, csz: nat): ulong
    requires Width(csz) && |b| == csz
  {
    Join(csz, Shr(LoadLE(b[..WordSz(csz)]), Shift(csz)), b[csz - 1])
  }

  /** The lookup of fd_ulong_svw_dec_tail_sz, on the last byte of an encoding. */
  function TailSz(b: byte): nat {
    And(Shr(0x9854_3322_1111_1111, Shl(Shr(b, 4), 2)), 15)
  }

  /** The size table documented for fd_ulong_svw_dec_sz, on the low nibble of the first byte. */
  function FrontSz(b: byte): nat {
    And(Shr(0x9131_5121_8131_4121, Shl(And(b, 15), 2)), 15)
  }

  // ----- the arithmetic behind the bit operations

  /** A word made of marks above and below the shifted bits of a number. */
  lemma {:induction false} OrMarks(hi: nat, mid: nat, lo: nat, a: nat, b: nat)
    requires a <= b && Low(hi, b) == 0 && mid < Pow2(b) && Low(mid, a) == 0 && lo < Pow2(a)
    ensures Or(hi + lo, mid) == hi + mid + lo
  {
    if a == 0 {
      OrDisjoint(hi, mid, b);
    } else {
      OrMarks(hi / 2, mid / 2, lo / 2, a - 1, b - 1);
      OrUnfold(hi + lo, mid);
      assert (hi + lo) / 2 == hi / 2 + lo / 2;
    }
  }

  lemma OrUnfold(x: nat, y: nat)
    ensures Or(x, y) == 2 * Or(x / 2, y / 2) + (if x % 2 == 1 || y % 2 == 1 then 1 else 0)
  {
    OrZero(y / 2);
  }

  /** The exponents of the masks and shifts used below. A caller gets k as a variable, as the
      verifier would unfold Pow2 and the bit operations at a literal step by step. */
  lemma Exponents(e: nat) returns (k: nat)
    requires e in {1, 3, 4, 5, 7, 8, 10, 13, 21, 24, 28, 36, 56, 60, 64}
    ensures k == e
    ensures Pow2(k) == match e {
              case 1 => 2 case 3 => 8 case 4 => 16 case 5 => 0x20 case 7 => 0x80 case 8 => 0x100
              case 10 => 0x400 case 13 => 0x2000 case 21 => 0x20_0000 case 24 => 0x100_0000
              case 28 => 0x1000_0000 case 36 => 0x10_0000_0000 case 56 => 0x100_0000_0000_0000
              case 60 => 0x1000_0000_0000_0000 case _ => TWO64 }
  {
    k := e;
    Pow2Step(0, 1);
    Pow2Step(8, 0x100);
    Pow2Step(16, 0x1_0000);
    Pow2Step(24, 0x100_0000);
    Pow2Step(32, 0x1_0000_0000);
    Pow2Step(40, 0x100_0000_0000);
    Pow2Step(48, 0x1_0000_0000_0000);
    Pow2Step(56, 0x100_0000_0000_0000);
  }

  /** The values a fixed width can hold. */
  function Cap(csz: nat): nat
    requires Width(csz)
  {
    if csz == 1 then 0x40
    else if csz == 2 then 0x400
    else if csz == 3 then 0x4_0000
    else if csz == 4 then 0x100_0000
    else if csz == 5 then 0x1_0000_0000
    else if csz == 8 then 0x100_0000_0000_0000
    else TWO64
  }

  /** Marks(csz) = hi + lo, lo below the shift p = 2^k and hi above the shifted bits. */
  lemma Layout(csz: nat) returns (hi: nat, lo: nat, p: nat, b: nat, q: nat, k: nat)
    requires Width(csz)
    ensures Marks(csz) == hi + lo && k == Shift(csz) && lo < p == Pow2(k)
    ensures q == Pow2(b) <= TWO64 && k <= b && hi % q == 0
    ensures p == Factor(csz)
    ensures csz < 9 ==> Scale(Cap(csz), p) <= q
    ensures csz == 9 ==> hi == 0 && q == TWO64
  {
    k := Exponents(Shift(csz));
    b := Exponents(if csz == 1 then 13 else if csz == 2 then 13 else if csz == 3 then 21 else if csz == 4 then 28
                   else if csz == 5 then 36 else if csz == 8 then 60 else 64);
    p, q := Pow2(k), Pow2(b);
    lo := if csz == 1 then 0 else if csz == 2 then 1 else if csz == 3 then 5 else if csz == 4 then 3
          else if csz == 5 then 0xb else if csz == 8 then 7 else 0xf;
    hi := Marks(csz) - lo;
  }

  function Scale(x: nat, p: nat): nat {
    if p == 2 then 2 * x else if p == 8 then 8 * x else 16 * x
  }

  lemma ScaleMul(x: nat, p: nat)
    requires p in {2, 8, 16}
    ensures Scale(x, p) == x * p && (Scale(x, p) % TWO64) % p == 0
  {
    if p == 2 {
    } else if p == 8 {
    } else {
    }
  }

  /** x shifted left within 64 bits. */
  lemma Shifted(x: ulong, k: nat, p: nat) returns (y: nat)
    requires p == Pow2(k) && p in {2, 8, 16}
    ensures y == Scale(x, p) % TWO64 == Shl64(x, k) && Low(y, k) == 0
  {
    y := Scale(x, p) % TWO64;
    ScaleMul(x, p);
    ShlMul(x, k);
    LowIsMod(y, k);
  }

  /** The factor 2^Shift. */
  function Factor(csz: nat): nat {
    if csz == 1 then 2 else if csz <= 3 then 8 else 16
  }

  lemma FitsWord(csz: nat, x: nat, q: nat, p: nat)
    requires Width(csz) && x < Cap(csz) && p in {2, 8, 16}
    requires (csz < 9 ==> Scale(Cap(csz), p) <= q) && (csz == 9 ==> q == TWO64)
    ensures Scale(x, p) % TWO64 < q
  {
  }

  lemma MarksOr(csz: nat, x: ulong)
    requires Width(csz) && x < Cap(csz)
    ensures var y := Scale(x, Factor(csz)) % TWO64;
            Or(Marks(csz), Shl64(x, Shift(csz))) == Marks(csz) + y
  {
    var hi, lo, p, b, q, k := Layout(csz);
    var y := Shifted(x, k, p);
    FitsWord(csz, x, q, p);
    assert Low(hi, b) == 0 by {
      LowIsMod(hi, b);
    }
    OrMarks(hi, y, lo, k, b);
  }

  lemma WordValue(csz: nat, x: ulong)
    requires Width(csz) && x < Cap(csz)
    ensures EncWord(csz, x) == Cast(csz, Marks(csz) + Scale(x, Factor(csz)) % TWO64)
  {
    MarksOr(csz, x);
  }

  /** The high bits of x kept in the last byte of an odd width. */
  function High(csz: nat, x: nat): nat {
    if csz == 3 then x / 0x2000 else if csz == 5 then x / 0x1000_0000 else x / 0x1000_0000_0000_0000
  }

  lemma HighValue(csz: nat, x: nat, k: nat)
    requires csz in {3, 5, 9} && k == TailShift(csz)
    requires Pow2(k) == if csz == 3 then 0x2000 else if csz == 5 then 0x1000_0000 else 0x1000_0000_0000_0000
    ensures Shr(x, k) == High(csz, x)
  {
    LowIsMod(x, k);
  }

  lemma TailClear(csz: nat, b: nat)
    requires csz in {3, 5, 9} && Pow2(b) == if csz == 3 then 0x20 else 0x10
    ensures Low(TailMark(csz), b) == 0
  {
    LowIsMod(TailMark(csz), b);
  }

  lemma TailOr(csz: nat, h: nat)
    requires csz in {3, 5, 9} && h < if csz == 3 then 0x20 else 0x10
    ensures Or(TailMark(csz), h) == TailMark(csz) + h < 0x100
  {
    var b := Exponents(if csz == 3 then 5 else 4);
    TailClear(csz, b);
    OrDisjoint(TailMark(csz), h, b);
  }

  lemma HighBound(csz: nat, x: ulong)
    requires csz in {3, 5, 9} && x < Cap(csz)
    ensures High(csz, x) < if csz == 3 then 0x20 else 0x10
  {
  }

  lemma ByteValue(csz: nat, x: ulong)
    requires csz in {3, 5, 9} && x < Cap(csz)
    ensures EncByte(csz, x) == TailMark(csz) + High(csz, x) < 0x100
  {
    var k := Exponents(TailShift(csz));
    HighValue(csz, x, k);
    HighBound(csz, x);
    TailOr(csz, High(csz, x));
  }

  function Pow256(n: nat): nat {
    if n == 0 then 1 else 256 * Pow256(n - 1)
  }

  lemma {:induction false} LoadStore(v: nat, n: nat)
    requires v < Pow256(n)
    ensures LoadLE(StoreLE(v, n)) == v
  {
    if n > 0 {
      LoadStore(v / 256, n - 1);
    }
  }

  lemma Pow256Table()
    ensures Pow256(1) == 0x100 && Pow256(2) == 0x1_0000 && Pow256(4) == 0x1_0000_0000 && Pow256(8) == TWO64
  {
    assert Pow256(4) == 0x1_0000_0000;
    assert Pow256(6) == 0x1_0000_0000_0000;
  }

  // ----- decoding inverts encoding

  lemma WordBytes(csz: nat, x: ulong)
    requires Width(csz)
    ensures LoadLE(EncFixed(csz, x)[..WordSz(csz)]) == EncWord(csz, x)
  {
    Pow256Table();
    LoadStore(EncWord(csz, x), WordSz(csz));
    assert EncFixed(csz, x)[..WordSz(csz)] == StoreLE(EncWord(csz, x), WordSz(csz));
  }

  function Unscale(w: nat, p: nat): nat {
    if p == 2 then w / 2 else if p == 8 then w / 8 else w / 16
  }

  lemma UnscaleShr(w: nat, k: nat, p: nat)
    requires p == Pow2(k) && p in {2, 8, 16}
    ensures Shr(w, k) == Unscale(w, p)
  {
    LowIsMod(w, k);
  }

  function Masked(csz: nat, lo: nat): nat {
    if csz == 1 then lo % 128
    else if csz == 2 then lo % 1024
    else if csz == 4 then lo % 16777216
    else lo % 72057594037927936
  }

  /** lo is x, or its low bits when another byte holds the rest. */
  predicate HoldsBits(csz: nat, x: nat, lo: nat) {
    if csz == 3 then lo == x % 0x2000
    else if csz == 5 then lo == x % 0x1000_0000
    else if csz == 9 then lo == x % 0x1000_0000_0000_0000
    else Masked(csz, lo) == x
  }

  /** What shifting the marks out of the word leaves, in exact arithmetic. */
  function WordBits(csz: nat, x: nat): nat {
    Unscale(Cast(csz, Marks(csz) + Scale(x, Factor(csz)) % TWO64), Factor(csz))
  }

  /** What the word holds of x, in exact arithmetic. */
  lemma WordHolds(csz: nat, x: ulong)
    requires Width(csz) && x < Cap(csz)
    ensures HoldsBits(csz, x, WordBits(csz, x))
  {
    if csz == 1 {
      Holds1(x);
    } else if csz == 2 {
      Holds2(x);
    } else if csz == 3 {
      Holds3(x);
    } else if csz == 4 {
      Holds4(x);
    } else if csz == 5 {
      Holds5(x);
    } else if csz == 8 {
      Holds8(x);
    } else {
      Holds9(x);
    }
  }

  lemma Holds1(x: nat)
    requires x < Cap(1)
    ensures HoldsBits(1, x, WordBits(1, x))
  {
    assert (((2 * x) % TWO64) % 0x100) / 2 == x;
  }

  lemma Holds2(x: nat)
    requires x < Cap(2)
    ensures HoldsBits(2, x, WordBits(2, x))
  {
    Bits2(x);
  }

  lemma Bits2(x: nat)
    requires x < 0x400
    ensures (((0x8001 + (8 * x) % TWO64) % 0x1_0000) / 8) % 1024 == x
  {
  }

  lemma Holds3(x: nat)
    requires x < Cap(3)
    ensures HoldsBits(3, x, WordBits(3, x))
  {
    assert ((0x5 + (8 * x) % TWO64) % 0x1_0000) / 8 == x % 0x2000;
  }

  lemma Holds4(x: nat)
    requires x < Cap(4)
    ensures HoldsBits(4, x, WordBits(4, x))
  {
    assert (((0xc000_0003 + (16 * x) % TWO64) % 0x1_0000_0000) / 16) % 16777216 == x;
  }

  lemma Holds5(x: nat)
    requires x < Cap(5)
    ensures HoldsBits(5, x, WordBits(5, x))
  {
    assert ((0xb + (16 * x) % TWO64) % 0x1_0000_0000) / 16 == x % 0x1000_0000;
  }

  lemma Holds8(x: nat)
    requires x < Cap(8)
    ensures HoldsBits(8, x, WordBits(8, x))
  {
    assert (((0xe000_0000_0000_0007 + (16 * x) % TWO64) % TWO64) / 16) % 72057594037927936 == x;
  }

  lemma Holds9(x: nat)
    requires x < Cap(9)
    ensures HoldsBits(9, x, WordBits(9, x))
  {
    assert ((0xf + (16 * x) % TWO64) % TWO64) / 16 == x % 0x1000_0000_0000_0000;
  }

  lemma WordDecodes(csz: nat, x: ulong)
    requires Width(csz) && x < Cap(csz)
    ensures HoldsBits(csz, x, Shr(EncWord(csz, x), Shift(csz)))
  {
    var k := Exponents(Shift(csz));
    WordValue(csz, x);
    WordHolds(csz, x);
    UnscaleShr(EncWord(csz, x), k, Factor(csz));
  }

  /** What the last byte of an odd width contributes to x. */
  function Rest(csz: nat, x: nat): nat {
    if csz == 3 then x - x % 0x2000 else if csz == 5 then x - x % 0x1000_0000 else x - x % 0x1000_0000_0000_0000
  }

  lemma TailAnd(csz: nat, b: nat)
    requires csz in {3, 5, 9}
    ensures And(b, TailMask(csz)) == if csz == 3 then b % 0x20 else if csz == 5 then b % 0x10 else b % 0x100
  {
    var m := Exponents(if csz == 3 then 5 else if csz == 5 then 4 else 8);
    AndMask(b, m);
    TailLow(csz, b, m);
  }

  lemma TailMasked(csz: nat, x: ulong, y: byte)
    requires csz in {3, 5, 9} && x < Cap(csz) && y == TailMark(csz) + High(csz, x)
    ensures And(y, TailMask(csz)) == if csz == 9 then 0xf0 + High(csz, x) else High(csz, x)
  {
    HighBound(csz, x);
    TailAnd(csz, y);
    TailMod(csz, High(csz, x), y);
  }

  lemma TailMod(csz: nat, h: nat, y: nat)
    requires csz in {3, 5, 9} && h < (if csz == 3 then 0x20 else 0x10) && y == TailMark(csz) + h
    ensures (if csz == 3 then y % 0x20 else if csz == 5 then y % 0x10 else y % 0x100) ==
            if csz == 9 then 0xf0 + h else h
  {
  }

  lemma TailLow(csz: nat, b: nat, m: nat)
    requires csz in {3, 5, 9} && Pow2(m) == if csz == 3 then 0x20 else if csz == 5 then 0x10 else 0x100
    ensures Low(b, m) == if csz == 3 then b % 0x20 else if csz == 5 then b % 0x10 else b % 0x100
  {
    LowIsMod(b, m);
  }

  function TailScale(csz: nat, h: nat): nat {
    if csz == 3 then 0x2000 * h else if csz == 5 then 0x1000_0000 * h else 0x1000_0000_0000_0000 * h
  }

  lemma TailShl(csz: nat, h: nat, k: nat)
    requires csz in {3, 5, 9}
    requires Pow2(k) == if csz == 3 then 0x2000 else if csz == 5 then 0x1000_0000 else 0x1000_0000_0000_0000
    ensures Shl(h, k) == TailScale(csz, h)
  {
    ShlMul(h, k);
  }

  lemma TailDecodes(csz: nat, x: ulong, y: byte)
    requires csz in {3, 5, 9} && x < Cap(csz) && y == TailMark(csz) + High(csz, x)
    ensures Shl64(And(y, TailMask(csz)), TailShift(csz)) == Rest(csz, x)
  {
    TailMasked(csz, x, y);
    var k := Exponents(TailShift(csz));
    TailShl(csz, if csz == 9 then 0xf0 + High(csz, x) else High(csz, x), k);
    TailArith(csz, x);
  }

  lemma TailArith(csz: nat, x: ulong)
    requires csz in {3, 5, 9} && x < Cap(csz)
    ensures TailScale(csz, if csz == 9 then 0xf0 + High(csz, x) else High(csz, x)) % TWO64 == Rest(csz, x)
  {
    if csz == 9 {
      var h := x / 0x1000_0000_0000_0000;
      assert 0x1000_0000_0000_0000 * (0xf0 + h) == 0xf * TWO64 + 0x1000_0000_0000_0000 * h;
    }
  }

  lemma OrRest(csz: nat, x: nat, lo: nat)
    requires csz in {3, 5, 9} && HoldsBits(csz, x, lo)
    ensures Or(lo, Rest(csz, x)) == x
  {
    var k := Exponents(TailShift(csz));
    RestClear(csz, x, k);
    OrDisjoint(Rest(csz, x), lo, k);
  }

  lemma RestClear(csz: nat, x: nat, k: nat)
    requires csz in {3, 5, 9}
    requires Pow2(k) == if csz == 3 then 0x2000 else if csz == 5 then 0x1000_0000 else 0x1000_0000_0000_0000
    ensures Low(Rest(csz, x), k) == 0
  {
    LowIsMod(Rest(csz, x), k);
  }

  lemma MaskedWord(csz: nat, lo: nat)
    requires csz in {1, 2, 4, 8}
    ensures And(lo, WordMask(csz)) == Masked(csz, lo)
  {
    var k := Exponents(if csz == 1 then 7 else if csz == 2 then 10 else if csz == 4 then 24 else 56);
    AndMask(lo, k);
    WordLow(csz, lo, k);
  }

  lemma WordLow(csz: nat, lo: nat, k: nat)
    requires csz in {1, 2, 4, 8} && Pow2(k) == WordMask(csz) + 1
    ensures Low(lo, k) == Masked(csz, lo)
  {
    LowIsMod(lo, k);
  }

  lemma JoinTailed(csz: nat, x: ulong, lo: nat, y: byte)
    requires csz in {3, 5, 9} && x < Cap(csz)
    requires HoldsBits(csz, x, lo) && y == TailMark(csz) + High(csz, x)
    ensures Join(csz, lo, y) == x
  {
    TailDecodes(csz, x, y);
    OrRest(csz, x, lo);
    JoinUnfold(csz, y, lo, Rest(csz, x), x);
  }

  lemma JoinUnfold(csz: nat, y: byte, lo: nat, rest: nat, x: ulong)
    requires csz in {3, 5, 9} && rest == Shl64(And(y, TailMask(csz)), TailShift(csz)) && Or(lo, rest) == x
    ensures Join(csz, lo, y) == x
  {
  }

  lemma JoinWhole(csz: nat, x: ulong, lo: nat, y: byte)
    requires csz in {1, 2, 4, 8} && x < Cap(csz) && HoldsBits(csz, x, lo)
    ensures Join(csz, lo, y) == x
  {
    MaskedWord(csz, lo);
  }

  /** Decoding at a width inverts encoding at that width, for every number the width can hold. */
  lemma FixedRoundTrip(csz: nat, x: ulong)
    requires Width(csz) && x < Cap(csz)
    ensures DecFixed(EncFixed(csz, x), csz) == x
  {
    var b := EncFixed(csz, x);
    WordBytes(csz, x);
    WordDecodes(csz, x);
    if WordSz(csz) == csz {
      JoinWhole(csz, x, Shr(EncWord(csz, x), Shift(csz)), b[csz - 1]);
    } else {
      ByteValue(csz, x);
      JoinTailed(csz, x, Shr(EncWord(csz, x), Shift(csz)), b[csz - 1]);
    }
  }

  // ----- sizes

  /** Digit h of t in base 16. */
  function Digit(t: nat, h: nat): nat {
    if h == 0 then t % 16 else Digit(t / 16, h - 1)
  }

  lemma {:induction false} Lookup(t: nat, h: nat)
    ensures And(Shr(t, 4 * h), 15) == Digit(t, h)
  {
    if h == 0 {
      var k := Exponents(4);
      AndMask(t, k);
      LowIsMod(t, k);
    } else {
      Lookup(t / 16, h - 1);
      ShrFour(t, 4 * (h - 1));
    }
  }

  lemma ShrFour(t: nat, n: nat)
    ensures Shr(t, n + 4) == Shr(t / 16, n)
  {
    assert Shr(t, n + 4) == Shr(t / 2, n + 3) == Shr(t / 2 / 2, n + 2) == Shr(t / 2 / 2 / 2, n + 1);
  }

  function TailWidth(h: nat): nat {
    if h < 8 then 1 else if h < 10 then 2 else if h < 12 then 3 else if h == 12 then 4
    else if h == 13 then 5 else if h == 14 then 8 else 9
  }

  function FrontWidth(l: nat): nat {
    if l == 1 || l == 9 then 2 else if l == 5 || l == 13 then 3
    else if l == 3 then 4 else if l == 11 then 5 else if l == 7 then 8 else if l == 15 then 9 else 1
  }

  /** A size table as the number whose base 16 digits it lists. */
  function Pack(ds: seq<nat>): nat {
    if ds == [] then 0 else ds[0] + 16 * Pack(ds[1..])
  }

  lemma {:induction false} PackDigit(ds: seq<nat>, h: nat)
    requires h < |ds| && forall i :: 0 <= i < |ds| ==> ds[i] < 16
    ensures Digit(Pack(ds), h) == ds[h]
  {
    var u := Pack(ds[1..]);
    assert Pack(ds) % 16 == ds[0] && Pack(ds) / 16 == u;
    if h > 0 {
      PackDigit(ds[1..], h - 1);
    }
  }

  lemma PackFour(ds: seq<nat>, n: nat) returns (rest: seq<nat>)
    requires |ds| >= 4 && n == ds[0] + 16 * ds[1] + 256 * ds[2] + 4096 * ds[3]
    ensures rest == ds[4..] && Pack(ds) == n + 0x1_0000 * Pack(rest)
  {
    var d1 := ds[1..];
    var d2 := d1[1..];
    var d3 := d2[1..];
    rest := ds[4..];
    assert d3[1..] == rest;
    assert Pack(d3) == ds[3] + 16 * Pack(rest);
    assert Pack(d2) == ds[2] + 16 * Pack(d3);
    assert Pack(d1) == ds[1] + 16 * Pack(d2);
  }

  lemma PackTable(ds: seq<nat>, a: nat, b: nat, c: nat, d: nat)
    requires |ds| == 16
    requires a == ds[0] + 16 * ds[1] + 256 * ds[2] + 4096 * ds[3]
    requires b == ds[4] + 16 * ds[5] + 256 * ds[6] + 4096 * ds[7]
    requires c == ds[8] + 16 * ds[9] + 256 * ds[10] + 4096 * ds[11]
    requires d == ds[12] + 16 * ds[13] + 256 * ds[14] + 4096 * ds[15]
    ensures Pack(ds) == a + 0x1_0000 * b + 0x1_0000_0000 * c + 0x1_0000_0000_0000 * d
  {
    var r1 := PackFour(ds, a);
    var r2 := PackFour(r1, b);
    var r3 := PackFour(r2, c);
    var r4 := PackFour(r3, d);
    assert Pack(r4) == 0;
  }

  lemma TableDigit(ds: seq<nat>, t: nat, h: nat, a: nat, b: nat, c: nat, d: nat)
    requires |ds| == 16 && h < 16 && forall i :: 0 <= i < 16 ==> ds[i] < 16
    requires a == ds[0] + 16 * ds[1] + 256 * ds[2] + 4096 * ds[3]
    requires b == ds[4] + 16 * ds[5] + 256 * ds[6] + 4096 * ds[7]
    requires c == ds[8] + 16 * ds[9] + 256 * ds[10] + 4096 * ds[11]
    requires d == ds[12] + 16 * ds[13] + 256 * ds[14] + 4096 * ds[15]
    requires t == a + 0x1_0000 * b + 0x1_0000_0000 * c + 0x1_0000_0000_0000 * d
    ensures And(Shr(t, 4 * h), 15) == ds[h]
  {
    PackTable(ds, a, b, c, d);
    PackDigit(ds, h);
    Lookup(t, h);
  }

  /** Both lookups as the tables in the sources' comments give them. */
  lemma SizeTables(b: byte)
    ensures TailSz(b) == TailWidth(b / 16) && Width(TailSz(b))
    ensures FrontSz(b) == FrontWidth(b % 16) && Width(FrontSz(b))
  {
    var k := Exponents(4);
    HighNibble(b, k);
    LowNibble(b, k);
    TailLookup(0x9854_3322_1111_1111, b / 16);
    FrontLookup(0x9131_5121_8131_4121, b % 16);
  }

  lemma TailLookup(t: nat, h: nat)
    requires h < 16 && t == 0x9854_3322_1111_1111
    ensures And(Shr(t, 4 * h), 15) == TailWidth(h)
  {
    TableDigit([1, 1, 1, 1, 1, 1, 1, 1, 2, 2, 3, 3, 4, 5, 8, 9], t, h, 0x1111, 0x1111, 0x3322, 0x9854);
  }

  lemma FrontLookup(t: nat, h: nat)
    requires h < 16 && t == 0x9131_5121_8131_4121
    ensures And(Shr(t, 4 * h), 15) == FrontWidth(h)
  {
    TableDigit([1, 2, 1, 4, 1, 3, 1, 8, 1, 2, 1, 5, 1, 3, 1, 9], t, h, 0x4121, 0x8131, 0x5121, 0x9131);
  }

  lemma HighNibble(b: byte, k: nat)
    requires k == 4 && Pow2(k) == 16
    ensures Shl(Shr(b, k), 2) == 4 * (b / 16)
  {
    LowIsMod(b, k);
    assert Shl(b / 16, 2) == 2 * Shl(b / 16, 1);
  }

  lemma LowNibble(b: byte, k: nat)
    requires k == 4 && Pow2(k) == 16
    ensures Shl(And(b, 15), 2) == 4 * (b % 16)
  {
    AndMask(b, k);
    LowIsMod(b, k);
    assert Shl(b % 16, 2) == 2 * Shl(b % 16, 1);
  }

  // ----- the marks at both ends

  lemma {:induction false} StoreEnds(v: nat, n: nat)
    requires 0 < n && v < Pow256(n)
    ensures StoreLE(v, n)[0] == v % 256
    ensures v / Pow256(n - 1) < 256 && StoreLE(v, n)[n - 1] == v / Pow256(n - 1)
  {
    if n > 1 {
      StoreEnds(v / 256, n - 1);
      DivDiv(v, Pow256(n - 2));
    }
  }

  lemma DivDiv(v: nat, p: nat)
    requires p > 0
    ensures 256 * p > 0 && v / 256 / p == v / (256 * p)
  {
    var q := v / 256 / p;
    var r := v / 256 % p;
    assert v == 256 * (q * p + r) + v % 256;
    assert 256 * (q * p) == q * (256 * p);
    DivModUnique(v, 256 * p, q, 256 * r + v % 256);
  }

  /** The low and high halves of the first byte of an encoding. */
  function FirstLow(csz: nat, x: nat): nat {
    if csz == 1 then 2 * x % 16 else if csz == 2 then 1 + 8 * (x % 2) else if csz == 3 then 5 + 8 * (x % 2)
    else Marks(csz) % 16
  }

  function FirstHigh(csz: nat, x: nat): nat {
    if csz == 1 then x / 8 else if csz <= 3 then x % 32 / 2 else x % 16
  }

  lemma Mod256(csz: nat, m: nat, y: nat, w: nat)
    requires w == Cast(csz, m + y % TWO64)
    ensures w % 256 == (m + y) % 256
  {
    var v := m + y % TWO64;
    if csz == 1 {
    } else if csz <= 3 {
      ModOfMod(v, 0x100, 256);
    } else if csz <= 5 {
      ModOfMod(v, 0x100_0000, 256);
    } else {
      ModOfMod(v, 0x100_0000_0000_0000, 256);
    }
    Word256(m, y);
  }

  lemma Word256(m: nat, y: nat)
    ensures (m + y % TWO64) % 256 == (m + y) % 256
  {
    ModShift(m + y % TWO64, 256, 0x100_0000_0000_0000 * (y / TWO64));
  }

  lemma FirstBits(csz: nat, x: nat, c: nat)
    requires Width(csz) && x < Cap(csz) && c == (Marks(csz) + Scale(x, Factor(csz))) % 256
    ensures c % 16 == FirstLow(csz, x) && c / 16 == FirstHigh(csz, x)
  {
    if csz == 1 {
      assert c == 2 * x;
    } else if csz == 2 {
      Eights(x, 1, 0x80, c);
    } else if csz == 3 {
      Eights(x, 5, 0, c);
    } else {
      MarkNibbles(csz);
      Sixteens(x, FirstLow(csz, x), Marks(csz) / 256, Marks(csz), c);
    }
  }

  lemma MarkNibbles(csz: nat)
    requires csz in {4, 5, 8, 9}
    ensures Marks(csz) == 256 * (Marks(csz) / 256) + Marks(csz) % 16 && Factor(csz) == 16
  {
  }

  lemma Eights(x: nat, m: nat, h: nat, c: nat)
    requires m < 8 && c == (256 * h + m + 8 * x) % 256
    ensures c % 16 == m + 8 * (x % 2) && c / 16 == x % 32 / 2
  {
    var y := x % 32;
    DivModUnique(256 * h + m + 8 * x, 256, h + x / 32, m + 8 * y);
    EightsNibbles(x, y, m);
  }

  lemma EightsNibbles(x: nat, y: nat, m: nat)
    requires y == x % 32 && m < 8
    ensures (m + 8 * y) % 16 == m + 8 * (x % 2) && (m + 8 * y) / 16 == y / 2
  {
    assert y % 2 == x % 2;
    DivModUnique(m + 8 * y, 16, y / 2, m + 8 * (y % 2));
  }

  lemma Sixteens(x: nat, m: nat, h: nat, marks: nat, c: nat)
    requires m < 16 && marks == 256 * h + m && c == (marks + 16 * x) % 256
    ensures c % 16 == m && c / 16 == x % 16
  {
    var y := x % 16;
    DivModUnique(256 * h + m + 16 * x, 256, h + x / 16, m + 16 * y);
  }

  lemma FirstArith(csz: nat, x: ulong, w: nat)
    requires Width(csz) && x < Cap(csz)
    requires w == Cast(csz, Marks(csz) + Scale(x, Factor(csz)) % TWO64)
    ensures w % 256 % 16 == FirstLow(csz, x) && w % 256 / 16 == FirstHigh(csz, x)
  {
    Mod256(csz, Marks(csz), Scale(x, Factor(csz)), w);
    FirstBits(csz, x, w % 256);
  }

  lemma FirstByte(csz: nat, x: ulong) returns (b: byte)
    requires Width(csz) && x < Cap(csz)
    ensures b == EncFixed(csz, x)[0] && b % 16 == FirstLow(csz, x) && b / 16 == FirstHigh(csz, x)
  {
    var w := EncWord(csz, x);
    WordValue(csz, x);
    FirstArith(csz, x, w);
    b := w % 256;
    WordFits(csz, x);
    StoreEnds(w, WordSz(csz));
  }

  lemma WordFits(csz: nat, x: ulong)
    requires Width(csz)
    ensures EncWord(csz, x) < Pow256(WordSz(csz))
  {
    Pow256Table();
  }

  /** The weight of the last byte of a word. */
  function Top(csz: nat): nat {
    if csz == 1 then 1 else if csz == 2 then 0x100 else if csz == 4 then 0x100_0000 else 0x100_0000_0000_0000
  }

  lemma LastArith(csz: nat, x: ulong, w: nat)
    requires csz in {1, 2, 4, 8} && x < Cap(csz)
    requires w == Cast(csz, Marks(csz) + Scale(x, Factor(csz)) % TWO64)
    ensures TailWidth(w / Top(csz) / 16) == csz
  {
    if csz == 1 {
      Last1(x, w);
    } else if csz == 2 {
      Last2(x, w);
    } else if csz == 4 {
      Last4(x, w);
    } else {
      Last8(x, w);
    }
  }

  lemma Last1(x: nat, w: nat)
    requires x < 0x40 && w == (2 * x) % TWO64 % 0x100
    ensures w / 1 / 16 < 8
  {
    assert w == 2 * x;
  }

  lemma Last2(x: nat, w: nat)
    requires x < 0x400 && w == (0x8001 + (8 * x) % TWO64) % 0x1_0000
    ensures 8 <= w / 0x100 / 16 < 10
  {
    assert w == 0x8001 + 8 * x;
  }

  lemma Last4(x: nat, w: nat)
    requires x < 0x100_0000
    requires w == (0xc000_0003 + (16 * x) % TWO64) % 0x1_0000_0000
    ensures w / 0x100_0000 / 16 == 12
  {
    assert w == 0xc000_0003 + 16 * x;
  }

  lemma Last8(x: nat, w: nat)
    requires x < 0x100_0000_0000_0000
    requires w == (0xe000_0000_0000_0007 + (16 * x) % TWO64) % TWO64
    ensures w / 0x100_0000_0000_0000 / 16 == 14
  {
    assert w == 0xe000_0000_0000_0007 + 16 * x;
  }

  lemma LastByte(csz: nat, x: ulong)
    requires Width(csz) && x < Cap(csz)
    ensures TailSz(EncFixed(csz, x)[csz - 1]) == csz
  {
    SizeTables(EncFixed(csz, x)[csz - 1]);
    if WordSz(csz) == csz {
      var w := EncWord(csz, x);
      WordValue(csz, x);
      WordFits(csz, x);
      StoreEnds(w, csz);
      LastPower(csz);
      LastArith(csz, x, w);
    } else {
      ByteValue(csz, x);
      HighBound(csz, x);
      LastMark(csz, High(csz, x));
    }
  }

  lemma LastPower(csz: nat)
    requires csz in {1, 2, 4, 8}
    ensures Pow256(csz - 1) == Top(csz)
  {
    Pow256Table();
  }

  lemma LastMark(csz: nat, h: nat)
    requires csz in {3, 5, 9} && h < if csz == 3 then 0x20 else 0x10
    ensures TailWidth((TailMark(csz) + h) / 16) == csz
  {
  }

  // ----- finding the size from the first byte

  /** Where fd_ulong_svw_dec_sz gets a size from: the lookup it performs, or the one its comment
      documents. The two differ, see HeadSize. */
  datatype Rule = AsWritten | Documented

  function HeadSz(rule: Rule, b: byte): nat {
    if rule == AsWritten then TailSz(b) else FrontSz(b)
  }

  /** The encodings whose first byte happens to carry the right marks in its high half. */
  predicate ReadsForward(csz: nat, x: nat) {
    if csz == 1 then true
    else if csz == 2 then 16 <= x % 32 < 20
    else if csz == 3 then 20 <= x % 32 < 24
    else if csz == 4 then x % 16 == 12
    else if csz == 5 then x % 16 == 13
    else if csz == 8 then x % 16 == 14
    else x % 16 == 15
  }

  /** The documented lookup always finds the width of an encoding in its first byte. The lookup
      as written finds it exactly when ReadsForward holds. */
  lemma HeadSize(csz: nat, x: ulong)
    requires Width(csz) && x < Cap(csz)
    ensures HeadSz(Documented, EncFixed(csz, x)[0]) == csz
    ensures HeadSz(AsWritten, EncFixed(csz, x)[0]) == csz <==> ReadsForward(csz, x)
  {
    var b := FirstByte(csz, x);
    SizeTables(b);
    HeadNibbles(csz, x);
  }

  lemma HeadNibbles(csz: nat, x: nat)
    requires Width(csz) && x < Cap(csz)
    ensures FrontWidth(FirstLow(csz, x)) == csz
    ensures TailWidth(FirstHigh(csz, x)) == csz <==> ReadsForward(csz, x)
  {
  }

  /** The lookup as written misses the size of x. */
  predicate Misread(x: ulong) {
    HeadSz(Documented, Enc(x)[0]) == |Enc(x)| && HeadSz(AsWritten, Enc(x)[0]) != |Enc(x)|
  }

  lemma MisreadTwo(csz: nat, x: ulong)
    requires csz == EncSz(x) == 2 && x % 32 < 16
    ensures Misread(x)
  {
    HeadSize(csz, x);
  }

  lemma Misread64()
    ensures Misread(64)
  {
    MisreadTwo(2, 64);
  }

  /** enc_sz is the least width that holds x. */
  lemma EncSzLeast(csz: nat, x: ulong)
    requires Width(csz)
    ensures Width(EncSz(x))
    ensures x < Cap(csz) <==> EncSz(x) <= csz
  {
  }

  // ----- what a misread number looks like

  lemma {:induction false} OrAtLeast(x: nat, y: nat)
    ensures Or(x, y) >= x
  {
    if x > 0 {
      OrAtLeast(x / 2, y / 2);
    }
  }

  lemma {:induction false} OrBelow(x: nat, y: nat, k: nat)
    requires x < Pow2(k) && y < Pow2(k)
    ensures Or(x, y) < Pow2(k)
  {
    if k > 0 {
      OrUnfold(x, y);
      OrBelow(x / 2, y / 2, k - 1);
    }
  }

  lemma {:induction false} LoadBelow(s: seq<byte>)
    ensures LoadLE(s) < Pow256(|s|)
  {
    if s != [] {
      LoadBelow(s[1..]);
    }
  }

  lemma {:induction false} LoadTop(s: seq<byte>)
    requires s != []
    ensures LoadLE(s) >= s[|s| - 1] * Pow256(|s| - 1)
  {
    if |s| > 1 {
      LoadTop(s[1..]);
      Times256(s[|s| - 1], Pow256(|s| - 2), LoadLE(s[1..]));
    }
  }

  lemma Times256(t: nat, p: nat, v: nat)
    requires v >= t * p
    ensures 256 * v >= t * (256 * p)
  {
  }

  lemma {:induction false} LoadPrefix(s: seq<byte>, n: nat) returns (m: nat)
    requires n <= |s|
    ensures m == LoadLE(s[n..]) && LoadLE(s) == LoadLE(s[..n]) + Pow256(n) * m
  {
    if n == 0 {
      m := LoadLE(s);
      assert s[0..] == s;
    } else {
      assert s[1..][n - 1..] == s[n..];
      m := LoadPrefix(s[1..], n - 1);
      assert s[1..][..n - 1] == s[..n][1..];
      var p := Pow256(n - 1);
      assert 256 * (p * m) == (256 * p) * m;
    }
  }

  /** The least number whose default width is more than f bytes. */
  function Reach(f: nat): nat
    requires Width(f) && f < 9
  {
    if f == 1 then 128 else Cap(f)
  }

  lemma JoinMasked(f: nat, lo: nat, last: byte)
    requires f in {1, 2, 4, 8}
    ensures Join(f, lo, last) == Masked(f, lo)
  {
    MaskedWord(f, lo);
  }

  lemma TailPart(f: nat, last: byte) returns (y: nat)
    requires f in {3, 5, 9}
    ensures y == Shl64(And(last, TailMask(f)), TailShift(f)) < TWO64
    ensures f < 9 ==> y < Cap(f)
  {
    var k := Exponents(TailShift(f));
    var a := And(last, TailMask(f));
    TailShl(f, a, k);
    y := Shl64(a, TailShift(f));
    TailBound(f, a);
  }

  lemma TailBound(f: nat, a: nat)
    requires f in {3, 5, 9} && a <= TailMask(f)
    ensures f < 9 ==> TailScale(f, a) < Cap(f)
  {
  }

  lemma CapPower(f: nat) returns (k: nat)
    requires f in {3, 5, 9}
    ensures Pow2(k) == Cap(f)
  {
    if f == 9 {
      k := SixtyFour();
    } else {
      var j := Exponents(if f == 3 then 13 else 28);
      k := j + if f == 3 then 5 else 4;
      assert Pow2(j + 4) == 2 * Pow2(j + 3) == 4 * Pow2(j + 2) == 8 * Pow2(j + 1) == 16 * Pow2(j);
    }
  }

  lemma JoinOr(f: nat, lo: nat, last: byte)
    requires f in {3, 5, 9} && lo < Cap(f)
    ensures lo <= Join(f, lo, last) < Cap(f)
  {
    var y := TailPart(f, last);
    var k := CapPower(f);
    OrBelow(lo, y, k);
    OrAtLeast(lo, y);
    JoinIsOr(f, lo, last, y);
  }

  lemma JoinIsOr(f: nat, lo: nat, last: byte, y: nat)
    requires f in {3, 5, 9} && y == Shl64(And(last, TailMask(f)), TailShift(f)) && Or(lo, y) < TWO64
    ensures Join(f, lo, last) == Or(lo, y)
  {
  }

  /** The word shifted right by the marks of width f. */
  lemma Unmarked(f: nat, s: seq<byte>) returns (w: nat, lo: nat)
    requires Width(f) && |s| == f
    ensures w == LoadLE(s[..WordSz(f)]) < Pow256(WordSz(f))
    ensures lo == Unscale(w, Factor(f)) && DecFixed(s, f) == Join(f, lo, s[f - 1])
  {
    w := LoadLE(s[..WordSz(f)]);
    LoadBelow(s[..WordSz(f)]);
    var k := Exponents(Shift(f));
    UnscaleShr(w, k, Factor(f));
    lo := Shr(w, k);
  }

  lemma UnmarkedBelow(f: nat, w: nat)
    requires f in {3, 5, 9} && w < Pow256(WordSz(f))
    ensures Unscale(w, Factor(f)) < Cap(f)
  {
    Pow256Table();
  }

  lemma MaskedBelow(f: nat, lo: nat)
    requires f in {1, 2, 4, 8}
    ensures Masked(f, lo) < Reach(f)
  {
  }

  /** A read of f bytes never gives more than f bytes can hold. */
  lemma ReadBelow(f: nat, s: seq<byte>)
    requires Width(f) && f < 9 && |s| == f
    ensures DecFixed(s, f) < Reach(f)
  {
    var w, lo := Unmarked(f, s);
    if WordSz(f) == f {
      JoinMasked(f, lo, s[f - 1]);
      MaskedBelow(f, lo);
    } else {
      UnmarkedBelow(f, w);
      JoinOr(f, lo, s[f - 1]);
    }
  }

  /** With a mark in its highest byte, a word stays large after shifting and masking. */
  lemma MaskKeeps(w: nat, high: nat, p: nat, n: nat, m: nat, q: nat)
    requires p == 16 * n && n > 0 && q > 0 && high < p && w == high + p * m
    ensures w / 16 % (n * q) >= high / 16
  {
    var lo := w / 16;
    assert w == (high / 16 + n * m) * 16 + high % 16 by {
      assert p * m == (n * m) * 16;
    }
    DivModUnique(w, 16, high / 16 + n * m, high % 16);
    DivModUnique(lo, n, m, high / 16);
    assert q * n > 0;
    ModOfMod(lo, q, n);
    var r := lo % (q * n);
    assert r / n >= 0 by {
      if r / n <= -1 {
        MulGrows(r / n, n);
      }
    }
    MulGrows(r / n, n);
  }

  /** Reading more bytes than an encoding has takes its last mark for a digit. */
  lemma ReadAbove(csz: nat, f: nat, e: seq<byte>, s: seq<byte>)
    requires Width(csz) && Width(f) && 2 <= csz < f && |e| == csz && |s| == f && s[..csz] == e && e[csz - 1] >= 128
    ensures DecFixed(s, f) >= 8 * Pow256(csz - 1)
  {
    var w, lo := Unmarked(f, s);
    var b := s[..WordSz(f)];
    assert b[..csz] == e;
    var m := LoadPrefix(b, csz);
    LoadTop(e);
    LoadBelow(e);
    Marked(e[csz - 1], Pow256(csz - 1), LoadLE(e));
    if WordSz(f) == f {
      JoinMasked(f, lo, s[f - 1]);
      MaskedAbove(csz, f, w, LoadLE(e), m);
    } else {
      UnmarkedBelow(f, w);
      JoinOr(f, lo, s[f - 1]);
      UnscaleAbove(f, w, LoadLE(e), Pow256(csz), m, Pow256(csz - 1));
    }
  }

  lemma Marked(t: nat, p: nat, w: nat)
    requires t >= 128 && w >= t * p
    ensures w >= 128 * p
  {
    assert (t - 128) * p >= 0;
  }

  lemma UnscaleAbove(f: nat, w: nat, high: nat, p: nat, m: nat, top: nat)
    requires f in {3, 5, 9} && w == high + p * m && high >= 128 * top
    ensures Unscale(w, Factor(f)) >= 8 * top
  {
    assert p * m >= 0;
  }

  lemma MaskedAbove(csz: nat, f: nat, w: nat, high: nat, m: nat)
    requires 2 <= csz < f && Width(csz) && f in {4, 8}
    requires w == high + Pow256(csz) * m && 128 * Pow256(csz - 1) <= high < Pow256(csz)
    ensures Masked(f, Unscale(w, Factor(f))) >= 8 * Pow256(csz - 1)
  {
    var n, q := MaskParts(csz, f);
    MaskKeeps(w, high, Pow256(csz), n, m, q);
  }

  lemma MaskParts(csz: nat, f: nat) returns (n: nat, q: nat)
    requires 2 <= csz < f && Width(csz) && f in {4, 8}
    ensures n > 0 && q > 0 && Pow256(csz) == 16 * n
    ensures n * q == if f == 4 then 16777216 else 72057594037927936
  {
    Pow256Table();
    assert Pow256(3) == 0x100_0000 && Pow256(5) == 0x100_0000_0000;
    n := Pow256(csz) / 16;
    q := (if f == 4 then 16777216 else 72057594037927936) / n;
  }

  /** Nothing encoded at its default width is read right with a wrong size. */
  lemma WrongSize(csz: nat, x: ulong, f: nat, s: seq<byte>)
    requires csz == EncSz(x) && Width(f) && f != csz && |s| == f && f == TailSz(EncFixed(csz, x)[0])
    requires s[..if f < csz then f else csz] == EncFixed(csz, x)[..if f < csz then f else csz]
    ensures DecFixed(s, f) != x
  {
    var e := EncFixed(csz, x);
    if f < csz {
      ReadBelow(f, s);
      if csz == 2 {
        var b := FirstByte(csz, x);
        assert s[0] == s[..f][0] == b;
        OneOfTwo(x, s, b);
      } else {
        Beyond(csz, x, f);
      }
    } else {
      LastByte(csz, x);
      SizeTables(e[csz - 1]);
      if csz == 1 {
        HeadSize(csz, x);
      } else {
        assert s[..csz] == e;
        ReadAbove(csz, f, e, s);
        Below(csz, x);
      }
    }
  }

  lemma Beyond(csz: nat, x: ulong, f: nat)
    requires csz == EncSz(x) && Width(f) && f < csz && csz > 2
    ensures x >= Reach(f)
  {
  }

  lemma Below(csz: nat, x: ulong)
    requires csz == EncSz(x) && 1 < csz < 9
    ensures x < 8 * Pow256(csz - 1)
  {
    Pow256Table();
    assert Pow256(3) == 0x100_0000 && Pow256(7) == 0x100_0000_0000_0000;
  }

  lemma OneOfTwo(x: ulong, s: seq<byte>, b: byte)
    requires 64 <= x < 1024 && |s| == 1 && s[0] == b && b % 16 == 1 + 8 * (x % 2) && b / 16 == x % 32 / 2
    ensures DecFixed(s, 1) != x
  {
    var w, lo := Unmarked(1, s);
    assert s[..1] == s && s[1..] == [];
    assert w == s[0] + 256 * LoadLE(s[1..]) == b;
    JoinMasked(1, lo, s[0]);
    HalfByte(x, b);
  }

  lemma HalfByte(x: nat, b: nat)
    requires 64 <= x && b < 256 && b % 16 == 1 + 8 * (x % 2) && b / 16 == x % 32 / 2
    ensures b / 2 % 128 != x
  {
    var y := x % 32;
    assert y % 2 == x % 2;
    FirstOf(y, b);
    NotFourfold(x, x / 32, y);
  }

  lemma FirstOf(y: nat, b: nat)
    requires y < 32 && b % 16 == 1 + 8 * (y % 2) && b / 16 == y / 2
    ensures b / 2 % 128 == 4 * y
  {
    assert b == 1 + 8 * y;
  }

  lemma NotFourfold(x: nat, q: nat, y: nat)
    requires x == 32 * q + y && q >= 2 && y < 32
    ensures 4 * y != x
  {
  }

  lemma SecondByte(csz: nat, x: ulong)
    requires csz == 2 && x < Cap(csz)
    ensures EncFixed(csz, x)[1] == 0x80 + x / 32
  {
    var w := EncWord(csz, x);
    WordValue(csz, x);
    WordFits(csz, x);
    StoreEnds(w, csz);
    LastPower(csz);
    SecondOf(x, w);
  }

  lemma SecondOf(x: nat, w: nat)
    requires x < 0x400 && w == (0x8001 + (8 * x) % TWO64) % 0x1_0000
    ensures w / 0x100 == 0x80 + x / 32
  {
    assert w == 0x8001 + 8 * x;
  }

  /** Five bytes of which all but the first are zero. */
  lemma OneThenZeros(f: nat, s: seq<byte>)
    requires f == 5 && |s| == f && s[0] == 0x80 && forall i :: 1 <= i < f ==> s[i] == 0
    ensures DecFixed(s, f) == 8
  {
    var w, lo := Unmarked(f, s);
    var b := s[..WordSz(f)];
    Zeros(b[1..]);
    assert LoadLE(b) == b[0] + 256 * LoadLE(b[1..]);
    var y := TailPart(f, s[f - 1]);
    ZeroTail(f, s[f - 1], y);
    OrZero(lo);
    JoinIsOr(f, lo, s[f - 1], y);
  }

  lemma {:induction false} Zeros(s: seq<byte>)
    requires forall i :: 0 <= i < |s| ==> s[i] == 0
    ensures LoadLE(s) == 0
  {
    if s != [] {
      Zeros(s[1..]);
    }
  }

  lemma ZeroTail(f: nat, last: byte, y: nat)
    requires f == 5 && last == 0 && y == Shl64(And(last, TailMask(f)), TailShift(f))
    ensures y == 0
  {
    var k := Exponents(TailShift(f));
    TailShl(f, 0, k);
  }

  // ----- the documented layout

  /** The bytes of an encoding as one number, the way the comments beside the encoder draw it: a
      mark, the bits of x, a mark. */
  function Drawn(csz: nat, x: nat): nat {
    if csz == 1 then 2 * x
    else if csz == 2 then 0x1 + 0x8 * x + 0x8000
    else if csz == 3 then 0x5 + 0x8 * x + 0xa0_0000
    else if csz == 4 then 0x3 + 0x10 * x + 0xc000_0000
    else if csz == 5 then 0xb + 0x10 * x + 0xd0_0000_0000
    else if csz == 8 then 0x7 + 0x10 * x + 0xe000_0000_0000_0000
    else 0xf + 0x10 * x + 0xf0_0000_0000_0000_0000
  }

  lemma WordDrawn(csz: nat, x: ulong, w: nat)
    requires csz in {1, 2, 4, 8} && x < Cap(csz) && w == Cast(csz, Marks(csz) + Scale(x, Factor(csz)) % TWO64)
    ensures w == Drawn(csz, x)
  {
  }

  lemma TailDrawn(csz: nat, x: ulong, w: nat, y: nat, p: nat)
    requires csz in {3, 5, 9} && x < Cap(csz) && w == Cast(csz, Marks(csz) + Scale(x, Factor(csz)) % TWO64)
    requires y == TailMark(csz) + High(csz, x)
    requires p == if csz == 3 then 0x1_0000 else if csz == 5 then 0x1_0000_0000 else TWO64
    ensures w + p * y == Drawn(csz, x)
  {
    if csz == 3 {
      TailDrawn3(x, w);
    } else if csz == 5 {
      TailDrawn5(x, w);
    } else {
      TailDrawn9(x, w);
    }
  }

  lemma TailDrawn3(x: nat, w: nat)
    requires x < 0x4_0000 && w == (0x5 + (8 * x) % TWO64) % 0x1_0000
    ensures w + 0x1_0000 * (0xa0 + x / 0x2000) == 0x5 + 0x8 * x + 0xa0_0000
  {
    KeepLow(x, 0x5, 8, 0x2000, 0x1_0000);
  }

  lemma TailDrawn5(x: nat, w: nat)
    requires x < 0x1_0000_0000 && w == (0xb + (16 * x) % TWO64) % 0x1_0000_0000
    ensures w + 0x1_0000_0000 * (0xd0 + x / 0x1000_0000) == 0xb + 0x10 * x + 0xd0_0000_0000
  {
    KeepLow(x, 0xb, 16, 0x1000_0000, 0x1_0000_0000);
  }

  lemma TailDrawn9(x: nat, w: nat)
    requires x < TWO64 && w == (0xf + (16 * x) % TWO64) % TWO64
    ensures w + TWO64 * (0xf0 + x / 0x1000_0000_0000_0000) == 0xf + 0x10 * x + 0xf0_0000_0000_0000_0000
  {
    KeepLow(x, 0, 16, 0x1000_0000_0000_0000, TWO64);
  }

  /** The low bits of x behind a mark, cut off at the end of the word. */
  lemma KeepLow(x: nat, mark: nat, f: nat, d: nat, p: nat)
    requires mark < f && f > 0 && d > 0 && p == f * d
    ensures p > 0 && (mark + f * x) % p == mark + f * (x % d)
  {
    var q, r := x / d, x % d;
    assert f * x == q * p + f * r by {
      assert x == d * q + r;
      assert f * (d * q) == q * (f * d);
    }
    assert f * r + f <= p by {
      MulGrows(d - r, f);
      assert (d - r) * f == p - f * r;
    }
    DivModUnique(mark + f * x, p, q, mark + f * r);
  }

  /** Every encoding is laid out as documented. */
  lemma AsDrawn(csz: nat, x: ulong)
    requires Width(csz) && x < Cap(csz)
    ensures LoadLE(EncFixed(csz, x)) == Drawn(csz, x)
  {
    var e, n := EncFixed(csz, x), WordSz(csz);
    WordBytes(csz, x);
    WordValue(csz, x);
    var m := LoadPrefix(e, n);
    if n == csz {
      assert e[..n] == e;
      WordDrawn(csz, x, EncWord(csz, x));
    } else {
      ByteValue(csz, x);
      OneByte(e[n..]);
      Pow256Table();
      TailDrawn(csz, x, EncWord(csz, x), e[n], Pow256(n));
    }
  }

  lemma OneByte(s: seq<byte>)
    requires |s| == 1
    ensures LoadLE(s) == s[0]
  {
    assert s[1..] == [];
  }

  /** A number below 64 is one byte, twice the number. */
  lemma OneByteIs(csz: nat, x: ulong)
    requires csz == 1 && x < 64
    ensures EncFixed(csz, x) == [2 * x]
  {
    var e := EncFixed(csz, x);
    AsDrawn(csz, x);
    OneByte(e);
  }

  /** What a width can hold: a number is read back, and its width found from the end, exactly when
      it is below Cap. */
  lemma CapExact(csz: nat, x: ulong)
    requires Width(csz)
    ensures DecFixed(EncFixed(csz, x), csz) == x && TailSz(EncFixed(csz, x)[csz - 1]) == csz <==> x < Cap(csz)
  {
    if x < Cap(csz) {
      FixedRoundTrip(csz, x);
      LastByte(csz, x);
    } else {
      ReadBelow(csz, EncFixed(csz, x));
      if csz == 1 && x < 128 {
        TooWide(csz, x);
      }
    }
  }

  lemma TooWide(csz: nat, x: ulong)
    requires csz == 1 && 64 <= x < 128
    ensures TailSz(EncFixed(csz, x)[csz - 1]) != csz
  {
    ShlMul(x, Shift(csz));
    assert Pow2(Shift(csz)) == 2;
    assert EncWord(csz, x) == 2 * x;
    assert EncFixed(csz, x)[0] == 2 * x;
    SizeTables(2 * x);
  }

  // ----- encoding in place

  /** b with the bytes e written at off. */
  function Put(b: seq<byte>, off: nat, e: seq<byte>): (r: seq<byte>)
    requires off + |e| <= |b|
    ensures |r| == |b| && r[off..off + |e|] == e
    ensures forall i :: 0 <= i < |b| && !(off <= i < off + |e|) ==> r[i] == b[i]
  {
    b[..off] + e + b[off + |e|..]
  }

  /** FD_STORE: n bytes of v at off. */
  method Store(b: array<byte>, off: nat, v: nat, n: nat)
    requires off + n <= b.Length
    modifies b
    ensures b[..] == Put(old(b[..]), off, StoreLE(v, n))
  {
    var i, u := 0, v;
    ghost var e := StoreLE(v, n);
    while i < n
      invariant 0 <= i <= n
      invariant StoreLE(u, n - i) == e[i..]
      invariant forall j :: 0 <= j < i ==> b[off + j] == e[j]
      invariant forall j :: 0 <= j < b.Length && !(off <= j < off + i) ==> b[j] == old(b[j])
    {
      b[off + i] := u % 256;
      assert e[i..][0] == e[i] && e[i..][1..] == e[i + 1..];
      u, i := u / 256, i + 1;
    }
    assert b[..off] == old(b[..off]) && b[off..off + n] == e && b[off + n..] == old(b[off + n..]);
    Thirds(b[..], off, off + n);
  }

  lemma Thirds(s: seq<byte>, i: nat, j: nat)
    requires i <= j <= |s|
    ensures s == s[..i] + s[i..j] + s[j..]
  {
  }

  /** fd_ulong_svw_enc_fixed: overwrites exactly csz bytes. */
  method SvwEncFixed(b: array<byte>, off: nat, csz: nat, x: ulong) returns (next: nat)
    requires Width(csz) && off + csz <= b.Length
    modifies b
    ensures next == off + csz
    ensures b[..] == Put(old(b[..]), off, EncFixed(csz, x))
  {
    Store(b, off, EncWord(csz, x), WordSz(csz));
    if csz == 3 || csz == 5 || csz == 9 {
      b[off + csz - 1] := EncByte(csz, x);
    }
    next := off + csz;
  }

  /** fd_ulong_svw_enc: appends x at off. */
  method SvwEnc(b: array<byte>, off: nat, x: ulong) returns (next: nat)
    requires off + EncSz(x) <= b.Length
    modifies b
    ensures next == off + EncSz(x)
    ensures b[..] == Put(old(b[..]), off, Enc(x))
  {
    if x < 0x40 {
      next := SvwEncFixed(b, off, 1, x);
    } else if x < 0x400 {
      next := SvwEncFixed(b, off, 2, x);
    } else if x < 0x4_0000 {
      next := SvwEncFixed(b, off, 3, x);
    } else if x < 0x100_0000 {
      next := SvwEncFixed(b, off, 4, x);
    } else if x < 0x1_0000_0000 {
      next := SvwEncFixed(b, off, 5, x);
    } else if x < 0x100_0000_0000_0000 {
      next := SvwEncFixed(b, off, 8, x);
    } else {
      next := SvwEncFixed(b, off, 9, x);
    }
  }
}
