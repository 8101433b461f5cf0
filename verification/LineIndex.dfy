/** Where the metadata of a sequence number lives in an mcache: fd_mcache_line_idx. */
module LineIndex {
  import opened Words

  const LG_BLOCK: nat := 7
  const BLOCK: nat := 128

  /** An mcache depth and an interleave the index is defined for. */
  ghost predicate Geometry(depth: int, lg: int) {
    0 <= lg <= LG_BLOCK && BLOCK <= depth <= TWO63 && IsPow2(depth)
  }

  /** Both branches of fd_mcache_line_idx; lg is FD_MCACHE_LG_INTERLEAVE. */
  function LineIdx(s: ulong, depth: ulong, lg: nat): nat
    requires depth >= BLOCK && lg <= LG_BLOCK
  {
    if lg == 0 then And(s, depth - 1)
    else
      var blockMask := BLOCK - 1;
      var pageMask := And(depth - 1, Not64(blockMask));
      var page := And(s, pageMask);
      var bank := And(Shl64(s, lg), blockMask);
      var idx := Shr(And(s, blockMask), LG_BLOCK - lg);
      Or(Or(page, bank), idx)
  }

  // ----- the index for an arbitrary block of 2^g lines

  /** The low g bits of s rotated left by lg. */
  ghost function Rotated(s: nat, g: nat, lg: nat): nat
    requires lg <= g
  {
    Shl(Low(s, g - lg), lg) + Low(Shr(s, g - lg), lg)
  }

  /** The bits [g,k) of s kept in place and its low g bits rotated. */
  ghost function Place(s: nat, k: nat, g: nat, lg: nat): nat
    requires lg <= g <= k
  {
    LowMono(s, g, k);
    Low(s, k) - Low(s, g) + Rotated(s, g, lg)
  }

  lemma {:induction false} LowMono(s: nat, a: nat, b: nat)
    requires a <= b
    ensures Low(s, a) <= Low(s, b)
  {
    if a > 0 {
      LowMono(s / 2, a - 1, b - 1);
    }
  }

  lemma {:induction false} LowOnes(k: nat, j: nat)
    requires j <= k
    ensures Low(Pow2(k) - 1, j) == Pow2(j) - 1
  {
    if j > 0 {
      LowOnes(k - 1, j - 1);
    }
  }

  lemma {:induction false} Cleared(x: nat, j: nat)
    ensures Low(x - Low(x, j), j) == 0
  {
    if j > 0 {
      Cleared(x / 2, j - 1);
      assert (x - Low(x, j)) / 2 == x / 2 - Low(x / 2, j - 1);
    }
  }

  lemma {:induction false} LowSum(x: nat, y: nat, j: nat)
    requires Low(x, j) == 0 && Low(y, j) == 0
    ensures Low(x + y, j) == 0
  {
    if j > 0 {
      LowSum(x / 2, y / 2, j - 1);
      assert (x + y) / 2 == x / 2 + y / 2;
    }
  }

  lemma {:induction false} Join(hi: nat, lo: nat, k: nat)
    requires lo < Pow2(k)
    ensures Shr(Shl(hi, k) + lo, k) == hi && Low(Shl(hi, k) + lo, k) == lo
  {
    if k > 0 {
      Join(hi, lo / 2, k - 1);
      assert (Shl(hi, k) + lo) / 2 == Shl(hi, k - 1) + lo / 2;
    }
  }

  lemma PagePart(s: nat, k: nat, g: nat)
    requires g <= k
    ensures Low(s, g) <= Low(s, k) && Low(Low(s, k) - Low(s, g), g) == 0
  {
    LowMono(s, g, k);
    LowLow(s, k, g);
    Cleared(Low(s, k), g);
  }

  lemma PageOf(s: nat, k: nat, g: nat) returns (x: nat)
    requires g <= k
    ensures x == Low(s, k) - Low(s, g) && Low(x, g) == 0
  {
    PagePart(s, k, g);
    x := Low(s, k) - Low(s, g);
  }

  /** page, bank and idx have no bit in common. */
  lemma Union(page: nat, bank: nat, idx: nat, g: nat, lg: nat)
    requires lg <= g && Low(page, g) == 0 && bank < Pow2(g) && Low(bank, lg) == 0 && idx < Pow2(lg)
    ensures Or(page, bank) == page + bank && Or(page + bank, idx) == page + bank + idx
  {
    OrDisjoint(page, bank, g);
    NoLowBits(page, bank, g, lg);
    OrDisjoint(page + bank, idx, lg);
  }

  lemma NoLowBits(page: nat, bank: nat, g: nat, lg: nat)
    requires lg <= g && Low(page, g) == 0 && Low(bank, lg) == 0
    ensures Low(page + bank, lg) == 0
  {
    LowLow(page, g, lg);
    LowSum(page, bank, lg);
  }

  lemma BankOf(s: nat, g: nat, lg: nat) returns (bank: nat)
    requires lg <= g
    ensures bank == Shl(Low(s, g - lg), lg) && bank < Pow2(g) && Low(bank, lg) == 0
  {
    bank := Shl(Low(s, g - lg), lg);
    ShlBound(Low(s, g - lg), lg, g - lg, g);
    LowShl(Low(s, g - lg), lg, 0);
  }

  lemma PageMask(k: nat, g: nat, w: nat, notBlock: nat)
    requires g <= k <= w && notBlock + Pow2(g) == Pow2(w)
    ensures And(Pow2(k) - 1, notBlock) + Pow2(g) == Pow2(k)
  {
    Pow2Mono(k, w);
    AndHigh(Pow2(k) - 1, w, g, notBlock);
    LowSmall(Pow2(k) - 1, w);
    LowOnes(k, g);
  }

  lemma Bank(s: nat, g: nat, lg: nat, w: nat)
    requires lg <= g <= w
    ensures And(Low(Shl(s, lg), w), Pow2(g) - 1) == Shl(Low(s, g - lg), lg)
  {
    AndMask(Low(Shl(s, lg), w), g);
    LowLow(Shl(s, lg), w, g);
    LowShl(s, lg, g - lg);
  }

  lemma BankIdx(s: nat, g: nat, lg: nat)
    requires lg <= g
    ensures Shr(And(s, Pow2(g) - 1), g - lg) == Low(Shr(s, g - lg), lg)
  {
    AndMask(s, g);
    ShrLow(s, g - lg, lg);
  }

  lemma PlaceValue(s: nat, k: nat, g: nat, lg: nat, w: nat, notBlock: nat) returns (page: nat, bank: nat, idx: nat)
    requires lg <= g <= k <= w && notBlock + Pow2(g) == Pow2(w)
    ensures page == And(s, And(Pow2(k) - 1, notBlock))
    ensures bank == And(Low(Shl(s, lg), w), Pow2(g) - 1)
    ensures idx == Shr(And(s, Pow2(g) - 1), g - lg)
    ensures Or(page, bank) == page + bank && Or(page + bank, idx) == Place(s, k, g, lg)
  {
    PageMask(k, g, w, notBlock);
    AndHigh(s, k, g, And(Pow2(k) - 1, notBlock));
    page := PageOf(s, k, g);
    bank := BankOf(s, g, lg);
    Bank(s, g, lg, w);
    BankIdx(s, g, lg);
    idx := Low(Shr(s, g - lg), lg);
    Union(page, bank, idx, g, lg);
  }

  lemma PlaceNone(s: nat, k: nat, g: nat)
    requires g <= k
    ensures And(s, Pow2(k) - 1) == Place(s, k, g, 0)
  {
    AndMask(s, k);
    assert Rotated(s, g, 0) == Low(s, g);
  }

  lemma Digits(a: nat, m: nat, lg: nat)
    ensures Low(a, m + lg) == Shl(Low(Shr(a, m), lg), m) + Low(a, m)
  {
    Split(Low(a, m + lg), m);
    ShrLow(a, m, lg);
    LowLow(a, m + lg, m);
  }

  lemma Unjoin(h: nat, l: nat, h': nat, l': nat, k: nat)
    requires l < Pow2(k) && l' < Pow2(k)
    ensures Shl(h, k) + l == Shl(h', k) + l' <==> h == h' && l == l'
  {
    Join(h, l, k);
    Join(h', l', k);
  }

  lemma RotatedParts(a: nat, g: nat, lg: nat) returns (h: nat, l: nat)
    requires lg <= g
    ensures h < Pow2(g - lg) && l < Pow2(lg)
    ensures Rotated(a, g, lg) == Shl(h, lg) + l && Low(a, g) == Shl(l, g - lg) + h
  {
    h, l := Low(a, g - lg), Low(Shr(a, g - lg), lg);
    Digits(a, g - lg, lg);
  }

  lemma RotatedBound(a: nat, g: nat, lg: nat)
    requires lg <= g
    ensures Rotated(a, g, lg) < Pow2(g)
  {
    var h, l := RotatedParts(a, g, lg);
    ShlBound(h, lg, g - lg, g);
  }

  /** The rotation is a bijection on the low g bits. */
  lemma RotatedBijective(a: nat, b: nat, g: nat, lg: nat)
    requires lg <= g
    ensures Rotated(a, g, lg) == Rotated(b, g, lg) <==> Low(a, g) == Low(b, g)
  {
    var h, l := RotatedParts(a, g, lg);
    var h', l' := RotatedParts(b, g, lg);
    Unjoin(h, l, h', l', lg);
    Unjoin(l, h, l', h', g - lg);
  }

  lemma SumParts(x: nat, r: nat, y: nat, t: nat, g: nat)
    requires Low(x, g) == 0 && Low(y, g) == 0 && r < Pow2(g) && t < Pow2(g)
    ensures x + r == y + t <==> x == y && r == t
  {
    OrDisjoint(x, r, g);
    OrDisjoint(y, t, g);
  }

  lemma HighDigits(s: nat, k: nat, g: nat) returns (h: nat)
    requires g <= k
    ensures h < Pow2(k - g) && Low(s, k) == Shl(h, g) + Low(s, g)
  {
    h := Low(Shr(s, g), k - g);
    Digits(s, g, k - g);
  }

  lemma PageBound(s: nat, k: nat, g: nat)
    requires g <= k
    ensures Low(s, k) - Low(s, g) + Pow2(g) <= Pow2(k)
  {
    var h := HighDigits(s, k, g);
    ShlBound(h, g, k - g, k);
  }

  lemma PlaceCorrect(a: nat, b: nat, k: nat, g: nat, lg: nat)
    requires lg <= g <= k
    ensures Place(a, k, g, lg) < Pow2(k)
    ensures Place(a, k, g, lg) == Place(b, k, g, lg) <==> Low(a, k) == Low(b, k)
  {
    RotatedBound(a, g, lg);
    RotatedBound(b, g, lg);
    RotatedBijective(a, b, g, lg);
    PageBound(a, k, g);
    PageSum(a, Rotated(a, g, lg), b, Rotated(b, g, lg), k, g);
    if Low(a, k) == Low(b, k) {
      LowDetermines(a, b, k, g);
    }
  }

  lemma LowDetermines(a: nat, b: nat, k: nat, g: nat)
    requires g <= k && Low(a, k) == Low(b, k)
    ensures Low(a, g) == Low(b, g)
  {
    LowLow(a, k, g);
    LowLow(b, k, g);
  }

  lemma PageSum(a: nat, r: nat, b: nat, t: nat, k: nat, g: nat)
    requires g <= k && r < Pow2(g) && t < Pow2(g)
    ensures Low(a, k) - Low(a, g) + r == Low(b, k) - Low(b, g) + t <==>
            Low(a, k) - Low(a, g) == Low(b, k) - Low(b, g) && r == t
  {
    var x := PageOf(a, k, g);
    var y := PageOf(b, k, g);
    SumParts(x, r, y, t, g);
  }

  // ----- the index itself

  ghost function Exponent(depth: int, lg: int): (k: nat)
    requires Geometry(depth, lg)
    ensures 7 <= k <= 63 && depth == Pow2(k)
  {
    var k: nat :| depth == Pow2(k);
    assert 7 <= k <= 63 by {
      Pow2Consts();
      if k < 7 {
        Pow2Mono(k, 7);
      } else if k > 63 {
        Pow2Mono(63, k);
      }
    }
    k
  }

  lemma Masks(s: ulong, depth: ulong, k: nat, lg: nat, g: nat, w: nat) returns (page: nat, bank: nat, idx: nat)
    requires lg <= g == LG_BLOCK && g <= k <= w && Pow2(g) == BLOCK && Pow2(w) == TWO64 && depth == Pow2(k)
    ensures page == And(s, And(depth - 1, Not64(BLOCK - 1)))
    ensures bank == And(Shl64(s, lg), BLOCK - 1)
    ensures idx == Shr(And(s, BLOCK - 1), LG_BLOCK - lg)
    ensures Or(page, bank) == page + bank && Or(page + bank, idx) == Place(s, k, g, lg)
  {
    LowIsMod(Shl(s, lg), w);
    page, bank, idx := PlaceValue(s, k, g, lg, w, Not64(BLOCK - 1));
  }

  lemma LineIdxUnion(s: ulong, depth: ulong, lg: nat, page: nat, bank: nat, idx: nat)
    requires 0 < lg <= LG_BLOCK && depth >= BLOCK
    requires page == And(s, And(depth - 1, Not64(BLOCK - 1)))
    requires bank == And(Shl64(s, lg), BLOCK - 1)
    requires idx == Shr(And(s, BLOCK - 1), LG_BLOCK - lg)
    requires Or(page, bank) == page + bank
    ensures LineIdx(s, depth, lg) == Or(page + bank, idx)
  {
  }

  lemma LineIdxValue(s: ulong, depth: ulong, k: nat, lg: nat, g: nat, w: nat)
    requires lg <= g == LG_BLOCK && g <= k <= w && Pow2(g) == BLOCK && Pow2(w) == TWO64 && depth == Pow2(k)
    requires depth >= BLOCK
    ensures LineIdx(s, depth, lg) == Place(s, k, g, lg)
  {
    if lg == 0 {
      PlaceNone(s, k, g);
    } else {
      var page, bank, idx := Masks(s, depth, k, lg, g, w);
      LineIdxUnion(s, depth, lg, page, bank, idx);
    }
  }

  /** The index is a line of the mcache, and two numbers share a line exactly when they are
      congruent modulo depth, so any `depth` consecutive numbers have lines of their own. */
  lemma LineIdxCorrect(a: ulong, b: ulong, depth: ulong, lg: nat)
    requires Geometry(depth, lg)
    ensures LineIdx(a, depth, lg) < depth
    ensures LineIdx(a, depth, lg) == LineIdx(b, depth, lg) <==> a % depth == b % depth
  {
    var k := Exponent(depth, lg);
    var g, w := BlockBits();
    LineIdxValue(a, depth, k, lg, g, w);
    LineIdxValue(b, depth, k, lg, g, w);
    PlaceCorrect(a, b, k, g, lg);
    LowIsMod(a, k);
    LowIsMod(b, k);
  }

  /** Which line it is: within its block of 128 a number keeps its block and has its low 7 bits
      rotated left by the interleave. */
  lemma LineIdxRotates(s: ulong, depth: ulong, lg: nat)
    requires Geometry(depth, lg)
    ensures LineIdx(s, depth, lg) ==
            s % depth - s % BLOCK + (s % Pow2(LG_BLOCK - lg)) * Pow2(lg) + s % BLOCK / Pow2(LG_BLOCK - lg)
  {
    var k := Exponent(depth, lg);
    var g, w := BlockBits();
    LineIdxValue(s, depth, k, lg, g, w);
    LowIsMod(s, k);
    LowIsMod(s, g);
    RotatedIs(s, g, lg);
  }

  lemma RotatedIs(s: nat, g: nat, lg: nat)
    requires lg <= g
    ensures Rotated(s, g, lg) == (s % Pow2(g - lg)) * Pow2(lg) + Low(s, g) / Pow2(g - lg)
  {
    LowIsMod(s, g - lg);
    ShlMul(Low(s, g - lg), lg);
    ShrLow(s, g - lg, lg);
    LowIsMod(Low(s, g), g - lg);
  }

  /** So with interleave lg sequential numbers are 2^lg lines apart, except where 2^(7-lg) divides
      the second. */
  lemma LineIdxSpacing(s: ulong, depth: ulong, lg: nat)
    requires Geometry(depth, lg) && s + 1 < TWO64 && (s + 1) % Pow2(LG_BLOCK - lg) != 0
    ensures LineIdx(s + 1, depth, lg) == LineIdx(s, depth, lg) + Pow2(lg)
  {
    LineIdxRotates(s, depth, lg);
    LineIdxRotates(s + 1, depth, lg);
    var p, m := Chunk(depth, lg);
    Parts(s, p, Pow2(lg), m, depth);
    Spaced(s % p, Pow2(lg));
  }

  lemma Chunk(depth: ulong, lg: nat) returns (p: nat, m: nat)
    requires Geometry(depth, lg)
    ensures p == Pow2(LG_BLOCK - lg) && p * Pow2(lg) == BLOCK && p * m == depth && m > 0
  {
    var g, w := BlockBits();
    var k := Exponent(depth, lg);
    Pow2Add(g - lg, lg);
    Pow2Add(g - lg, k - (g - lg));
    p, m := Pow2(g - lg), Pow2(k - (g - lg));
  }

  lemma Parts(s: nat, p: nat, q: nat, m: nat, depth: nat)
    requires p > 0 && q > 0 && m > 0 && p * q == BLOCK && p * m == depth && (s + 1) % p != 0
    ensures depth > 0 && (s + 1) % p == s % p + 1
    ensures (s + 1) % BLOCK == s % BLOCK + 1 && (s + 1) % depth == s % depth + 1
    ensures (s + 1) % BLOCK / p == s % BLOCK / p
  {
    MulGrows(m, p);
    Successor(s, p, 1);
    Successor(s, p, q);
    Successor(s, p, m);
    var t, b := s / BLOCK, s % BLOCK;
    assert b + 1 + (t * q) * p == s + 1 by {
      assert (t * q) * p == t * (p * q);
    }
    ModShift(b + 1, p, t * q);
    SameQuotient(b, p);
  }

  lemma Spaced(a: nat, q: nat)
    ensures (a + 1) * q == a * q + q
  {
  }

  /** A number whose successor p does not divide stays in its multiple of p, and of any multiple. */
  lemma Successor(s: nat, p: nat, m: nat)
    requires p > 0 && m > 0 && (s + 1) % p != 0 && p * m > 0
    ensures (s + 1) % (p * m) == s % (p * m) + 1
  {
    var d := p * m;
    var q, r := s / d, s % d;
    assert s == q * d + r;
    if r + 1 == d {
      assert s + 1 == (q + 1) * d == ((q + 1) * m) * p;
      DivModUnique(s + 1, p, (q + 1) * m, 0);
    } else {
      DivModUnique(s + 1, d, q, r + 1);
    }
  }

  lemma SameQuotient(b: nat, p: nat)
    requires p > 0 && (b + 1) % p != 0
    ensures (b + 1) / p == b / p
  {
    var q, r := b / p, b % p;
    assert b == q * p + r;
    if r + 1 == p {
      DivModUnique(b + 1, p, q + 1, 0);
    } else {
      DivModUnique(b + 1, p, q, r + 1);
    }
  }

  lemma BlockBits() returns (g: nat, w: nat)
    ensures g == LG_BLOCK && w == 64 && Pow2(g) == BLOCK && Pow2(w) == TWO64
  {
    Pow2Consts();
    g, w := LG_BLOCK, 64;
  }

  /** The line of an unbounded sequence number. */
  function Idx(q: int, depth: ulong, lg: nat): nat
    requires depth >= BLOCK && lg <= LG_BLOCK
  {
    LineIdx(Wrap(q), depth, lg)
  }

  lemma IdxCorrect(p: int, q: int, depth: ulong, lg: nat)
    requires Geometry(depth, lg)
    ensures Idx(p, depth, lg) < depth
    ensures Idx(p, depth, lg) == Idx(q, depth, lg) <==> (p - q) % depth == 0
  {
    LineIdxCorrect(Wrap(p), Wrap(q), depth, lg);
    var k := Exponent(depth, lg);
    WrapMod(p, k);
    WrapMod(q, k);
    ModCongruent(p, q, depth);
  }
}
