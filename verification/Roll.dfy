/** Unbiased sampling below n by rejection: fd_chacha20rng_ulong_roll. */
module Rolls {
  import opened Words
  import Svw

  datatype Mode = ModeMod | ModeShift

  /** The greatest low product a draw may have and still be accepted. */
  function Zone(mode: Mode, n: ulong): ulong
    requires n > 0
  {
    if mode == ModeMod then ULONG_MAX - ((ULONG_MAX - n + 1) % TWO64) % n
    else (Shl64(n, 63 - Msb(n)) - 1) % TWO64
  }

  /** fd_ulong_find_msb. */
  function Msb(n: ulong): (b: nat)
    requires n > 0
    ensures b <= 63 && Pow2(b) <= n < Pow2(b + 1)
  {
    MsbBound(n);
    FindMsb(n)
  }

  lemma MsbBound(n: ulong)
    requires n > 0
    ensures FindMsb(n) <= 63
  {
    var k := SixtyFour();
    if FindMsb(n) >= k {
      Pow2Mono(k, FindMsb(n));
    }
  }

  function Hi(v: ulong, n: ulong): nat {
    v * n / TWO64
  }

  function Lo(v: ulong, n: ulong): nat {
    v * n % TWO64
  }

  predicate Accepts(zone: ulong, n: ulong, v: ulong) {
    Lo(v, n) <= zone
  }

  // ----- the zone

  lemma {:induction false} SplitShift(n: nat, a: nat, b: nat)
    requires Pow2(b) <= n < 2 * Pow2(b)
    ensures Pow2(a + b) <= n * Pow2(a) < 2 * Pow2(a + b)
  {
    if a > 0 {
      SplitShift(n, a - 1, b);
      Doubled(n, Pow2(a - 1), Pow2(a));
    }
  }

  lemma Doubled(n: nat, p: nat, q: nat)
    requires q == 2 * p
    ensures n * q == 2 * (n * p)
  {
  }

  lemma ShiftExponent(n: ulong, e: nat)
    requires n > 0 && e == 63 - Msb(n)
    ensures TWO63 <= n * Pow2(e) < TWO64
  {
    var k := SixtyFour();
    assert 2 * Pow2(k - 1) == TWO64;
    SplitShift(n, e, Msb(n));
    assert e + Msb(n) == k - 1;
  }

  lemma ShiftedWord(n: ulong, e: nat, p: nat)
    requires p == Pow2(e) && 1 <= n * p < TWO64
    ensures (Shl64(n, e) - 1) % TWO64 == n * p - 1
  {
    ShlMul(n, e);
  }

  /** With MODE_SHIFT, k is the smallest power of two with k*n >= 2^63. */
  lemma ShiftZone(n: ulong) returns (e: nat)
    requires n > 0
    ensures Zone(ModeShift, n) + 1 == n * Pow2(e) && TWO63 <= n * Pow2(e) < TWO64
    ensures e > 0 ==> n * Pow2(e - 1) < TWO63
  {
    var p;
    e, p := ShiftFactor(n);
    ShiftedWord(n, e, p);
    if e > 0 {
      HalfProduct(n, e);
    }
  }

  lemma ShiftFactor(n: ulong) returns (e: nat, p: nat)
    requires n > 0
    ensures p == Pow2(e) && Zone(ModeShift, n) == (Shl64(n, e) - 1) % TWO64
    ensures TWO63 <= n * p < TWO64
  {
    e := 63 - Msb(n);
    p := Pow2(e);
    ShiftExponent(n, e);
  }

  lemma HalfProduct(n: nat, e: nat)
    requires e > 0 && n * Pow2(e) < TWO64
    ensures n * Pow2(e - 1) < TWO63
  {
    Doubled(n, Pow2(e - 1), Pow2(e));
  }

  /** With MODE_MOD, k is the largest number with k*n <= 2^64. */
  lemma ModZone(n: ulong) returns (k: nat)
    requires n > 0
    ensures k >= 1 && Zone(ModeMod, n) + 1 == k * n && TWO63 <= k * n <= TWO64 < (k + 1) * n
  {
    var r := (TWO64 - n) % n;
    var q := (TWO64 - n) / n;
    k := q + 1;
    assert q >= 0 by {
      if q <= -1 {
        MulGrows(q, n);
      }
    }
    assert k * n == TWO64 - r;
    assert (k + 1) * n == k * n + n;
    MulGrows(k, n);
  }

  /** In both modes the zone is a multiple of n at least half as large as 2^64. */
  lemma ZoneMultiple(mode: Mode, n: ulong) returns (k: nat)
    requires n > 0
    ensures k >= 1 && Zone(mode, n) + 1 == k * n && TWO63 <= k * n <= TWO64
  {
    if mode == ModeMod {
      k := ModZone(n);
    } else {
      var e := ShiftZone(n);
      k := Pow2(e);
    }
  }

  // ----- counting

  /** The draws accepted with result r. */
  ghost function Draws(zone: ulong, n: ulong, r: int): set<int>
    requires n > 0
  {
    set v | 0 <= v < TWO64 && Accepts(zone, n, v) && Hi(v, n) == r
  }

  /** The draws accepted with a result below m. */
  ghost function DrawsBelow(zone: ulong, n: ulong, m: int): set<int>
    requires n > 0
  {
    set v | 0 <= v < TWO64 && Accepts(zone, n, v) && Hi(v, n) < m
  }

  ghost function Range(a: int, k: nat): (s: set<int>)
    ensures forall v :: v in s <==> a <= v < a + k
  {
    if k == 0 then {} else Range(a, k - 1) + {a + k - 1}
  }

  lemma {:induction false} RangeSize(a: int, k: nat)
    ensures |Range(a, k)| == k
  {
    if k > 0 {
      RangeSize(a, k - 1);
    }
  }

  lemma MulOrder(x: int, y: int, n: int)
    requires n > 0
    ensures x < y <==> x * n < y * n
  {
    var e := y - x;
    assert e * n == y * n - x * n;
    MulGrows(e, n);
  }

  lemma Product(v: ulong, n: ulong, r: int, z: nat)
    requires z <= TWO64
    ensures Lo(v, n) < z && Hi(v, n) == r <==> r * TWO64 <= v * n < r * TWO64 + z
  {
    var p := v * n;
    if r * TWO64 <= p < r * TWO64 + z {
      DivModUnique(p, TWO64, r, p - r * TWO64);
    }
  }

  /** Which draws give which result: v is accepted with result r exactly when v*n lies in the
      closed interval from r*2^64 to r*2^64 + zone. */
  lemma AcceptedWith(zone: ulong, n: ulong, v: ulong, r: int)
    ensures Accepts(zone, n, v) && Hi(v, n) == r <==> r * TWO64 <= v * n <= r * TWO64 + zone
  {
    Product(v, n, r, zone + 1);
  }

  /** The least v with v * n >= t. */
  lemma Ceiling(t: nat, n: nat) returns (a: nat)
    requires n > 0
    ensures forall v: int :: v >= a <==> v * n >= t
  {
    a := (t + n - 1) / n;
    forall v: int ensures v >= a <==> v * n >= t {
      var r := (t + n - 1) % n;
      assert a * n == t + n - 1 - r;
      if v >= a {
        assert v * n >= t by {
          if v > a { MulOrder(a, v, n); }
        }
      } else {
        assert (a - 1) * n == a * n - n;
        if v < a - 1 { MulOrder(v, a - 1, n); }
      }
    }
  }

  /** The draws accepted with result r < n are k consecutive numbers. */
  lemma DrawsInterval(zone: ulong, n: ulong, r: nat, k: nat) returns (a: nat)
    requires 0 < n && r < n && zone + 1 == k * n <= TWO64
    ensures a + k <= TWO64 && Draws(zone, n, r) == Range(a, k)
  {
    var t := r * TWO64;
    a := Ceiling(t, n);
    Inside(n, r, k, a);
    forall v: int | 0 <= v < TWO64 ensures v in Draws(zone, n, r) <==> a <= v < a + k {
      Product(v, n, r, k * n);
      assert (v - k) * n == v * n - k * n;
      assert v - k >= a <==> (v - k) * n >= t;
    }
  }

  lemma Inside(n: ulong, r: nat, k: nat, a: nat)
    requires 0 < n && r < n && k * n <= TWO64
    requires forall v: int :: v >= a <==> v * n >= r * TWO64
    ensures a + k <= TWO64
  {
    var v := TWO64 - k;
    assert v * n == TWO64 * n - k * n;
    assert (r + 1) * TWO64 <= n * TWO64;
    assert v >= a;
  }

  /** Exact uniformity: every result below n is given by the same number k of draws. */
  lemma Uniform(zone: ulong, n: ulong, r: nat, k: nat)
    requires 0 < n && r < n && zone + 1 == k * n <= TWO64
    ensures |Draws(zone, n, r)| == k
  {
    var a := DrawsInterval(zone, n, r, k);
    RangeSize(a, k);
  }

  /** No draw gives a result outside [0, n). */
  lemma InRange(v: ulong, n: ulong)
    requires n > 0
    ensures 0 <= Hi(v, n) < n
  {
    assert v * n < TWO64 * n by { MulOrder(v, TWO64, n); }
    Product(v, n, Hi(v, n), TWO64);
    MulOrder(Hi(v, n), n, TWO64);
  }

  lemma {:induction false} CountBelow(zone: ulong, n: ulong, m: nat, k: nat)
    requires 0 < n && m <= n && zone + 1 == k * n <= TWO64
    ensures |DrawsBelow(zone, n, m)| == m * k
  {
    if m == 0 {
      assert DrawsBelow(zone, n, 0) == {};
    } else {
      CountBelow(zone, n, m - 1, k);
      Uniform(zone, n, m - 1, k);
      BelowStep(zone, n, m - 1);
      assert m * k == (m - 1) * k + k;
    }
  }

  lemma BelowStep(zone: ulong, n: ulong, m: nat)
    requires n > 0
    ensures |DrawsBelow(zone, n, m + 1)| == |DrawsBelow(zone, n, m)| + |Draws(zone, n, m)|
  {
    assert DrawsBelow(zone, n, m + 1) == DrawsBelow(zone, n, m) + Draws(zone, n, m);
  }

  /** Of the 2^64 possible draws exactly k*n, at least half, are accepted, k for each result. */
  lemma AcceptedTotal(mode: Mode, n: ulong) returns (k: nat)
    requires n > 0
    ensures |set v | 0 <= v < TWO64 && Accepts(Zone(mode, n), n, v)| == k * n >= TWO63
    ensures forall r: nat :: r < n ==> |Draws(Zone(mode, n), n, r)| == k
  {
    k := ZoneMultiple(mode, n);
    CountAll(Zone(mode, n), n, k);
  }

  lemma CountAll(zone: ulong, n: ulong, k: nat)
    requires 0 < n && zone + 1 == k * n <= TWO64
    ensures |set v | 0 <= v < TWO64 && Accepts(zone, n, v)| == k * n
    ensures forall r: nat :: r < n ==> |Draws(zone, n, r)| == k
  {
    CountBelow(zone, n, n, k);
    var all := set v | 0 <= v < TWO64 && Accepts(zone, n, v);
    forall v | v in all ensures v in DrawsBelow(zone, n, n) {
      InRange(v, n);
    }
    assert all == DrawsBelow(zone, n, n);
    forall r: nat | r < n ensures |Draws(zone, n, r)| == k {
      Uniform(zone, n, r, k);
    }
  }

  // ----- the loop

  /** The position of the first draw accepted from i on. */
  function FirstAccepted(zone: ulong, n: ulong, draws: seq<ulong>, i: nat): Option<nat>
    requires n > 0 && i <= |draws|
    decreases |draws| - i
  {
    if i == |draws| then None
    else if Accepts(zone, n, draws[i]) then Some(i)
    else FirstAccepted(zone, n, draws, i + 1)
  }

  lemma {:induction false} FirstAcceptedIs(zone: ulong, n: ulong, draws: seq<ulong>, i: nat)
    requires n > 0 && i <= |draws|
    ensures var f := FirstAccepted(zone, n, draws, i);
            var end := if f.Some? then f.value else |draws|;
            i <= end <= |draws| && (forall j :: i <= j < end ==> !Accepts(zone, n, draws[j]))
            && (f.Some? ==> end < |draws| && Accepts(zone, n, draws[end]))
    decreases |draws| - i
  {
    if i < |draws| && !Accepts(zone, n, draws[i]) {
      FirstAcceptedIs(zone, n, draws, i + 1);
    }
  }

  const BLOCK_SZ := 64

  /** Word i of a byte stream, and all its words. */
  function WordAt(s: seq<byte>, i: nat): ulong
    requires 8 * i + 8 <= |s|
  {
    Svw.LoadBelow(s[8 * i..8 * i + 8]);
    Svw.Pow256Table();
    Svw.LoadLE(s[8 * i..8 * i + 8])
  }

  function WordsOf(s: seq<byte>): (w: seq<ulong>)
    ensures |w| == |s| / 8
  {
    seq(|s| / 8, i requires 0 <= i < |s| / 8 => WordAt(s, i))
  }

  /** A word that lies in the ring buffer lies there in one piece. */
  lemma WordInBuffer(b: seq<byte>, s: seq<byte>, off: nat)
    requires |b| > 0 && |b| % BLOCK_SZ == 0 && off % 8 == 0 && off + 8 <= |s|
    requires forall j :: off <= j < off + 8 ==> b[Slot(j, |b|)] == s[j]
    ensures var o := off % |b|;
            o + 8 <= |b| && off / 8 < |s| / 8 && Svw.LoadLE(b[o..o + 8]) == WordsOf(s)[off / 8]
  {
    var o, i := Slot(off, |b|), off / 8;
    InOnePiece(off, o, 0, |b|);
    assert 8 * i == off;
    assert WordsOf(s)[i] == WordAt(s, i);
    var x, y := b[o..o + 8], s[off..off + 8];
    forall k | 0 <= k < 8 ensures x[k] == y[k] {
      InOnePiece(off, o, k, |b|);
      assert b[Slot(off + k, |b|)] == s[off + k];
    }
    assert x == y;
  }

  lemma InOnePiece(off: nat, o: nat, k: nat, size: nat)
    requires size > 0 && size % BLOCK_SZ == 0 && off % 8 == 0 && o == off % size && k < 8
    ensures o + 8 <= size && Slot(off + k, size) == o + k
  {
    var q, e := off / size, size / 8;
    assert size == 8 * (8 * (size / BLOCK_SZ));
    assert off == q * size + o;
    ModOfMod(off, e, 8);
    WholeEights(o, e);
    DivModUnique(off + k, size, q, o + k);
  }

  lemma WholeEights(o: nat, e: nat)
    requires o % 8 == 0 && o < e * 8
    ensures o + 8 <= e * 8
  {
  }

  /** Where byte j of the stream lies in the ring buffer. */
  function Slot(j: nat, size: nat): (i: nat)
    requires size > 0
    ensures i < size
  {
    j % size
  }

  lemma Apart(j: nat, i: nat, size: nat)
    requires j < i < j + size
    ensures Slot(j, size) != Slot(i, size)
  {
    ModCongruent(i, j, size);
    DivModUnique(i - j, size, 0, i - j);
  }

  lemma WholeBlocks(fill: nat, size: nat)
    requires fill % BLOCK_SZ == 0 && size % BLOCK_SZ == 0
    ensures (fill + size) % BLOCK_SZ == 0
  {
    var a, b := fill / BLOCK_SZ, size / BLOCK_SZ;
    DivModUnique(fill + size, BLOCK_SZ, a + b, 0);
  }

  lemma NextWord(off: nat)
    requires off % 8 == 0
    ensures (off + 8) % 8 == 0 && (off + 8) / 8 == off / 8 + 1
  {
  }

  /** Words are never cut off by the end of a block. */
  lemma WholeWords(off: nat, end: nat)
    requires off % 8 == 0 && end % BLOCK_SZ == 0 && off <= end
    ensures off < end <==> off / 8 < end / 8
    ensures off < end <==> off + 8 <= end
  {
    var w, e := off / 8, end / BLOCK_SZ;
    assert off == 8 * w && end == 8 * (8 * e);
    DivModUnique(end, 8, 8 * e, 0);
  }

  /** A generator with its ring buffer of bytes generated ahead. stream is what its key generates,
      block after block; it is finite here, and where the source would generate more None is
      returned. */
  class Rng {
    const mode: Mode
    const stream: seq<byte>
    const buf: array<byte>
    var bufOff: nat
    var bufFill: nat

    /** buf, of some whole number of blocks, holds the bytes of the stream generated and not
        consumed yet. */
    ghost predicate Valid()
      reads this, buf
    {
      && buf.Length > 0 && buf.Length % BLOCK_SZ == 0 && |stream| % BLOCK_SZ == 0
      && bufOff % 8 == 0 && bufFill % BLOCK_SZ == 0
      && bufOff <= bufFill <= |stream| && bufFill <= bufOff + buf.Length
      && forall j :: bufOff <= j < bufFill ==> buf[Slot(j, buf.Length)] == stream[j]
    }

    constructor (mode: Mode, stream: seq<byte>, blocks: nat)
      requires |stream| % BLOCK_SZ == 0 && blocks > 0
      ensures Valid() && bufOff == 0 && this.mode == mode && this.stream == stream
      ensures fresh(buf) && buf.Length == blocks * BLOCK_SZ
    {
      this.mode, this.stream, bufOff, bufFill := mode, stream, 0, 0;
      buf := new byte[blocks * BLOCK_SZ];
    }

    /** The refill: up to a whole buffer of further blocks, when everything was consumed. */
    method Refill()
      requires Valid() && bufOff == bufFill
      modifies this`bufFill, buf
      ensures Valid() && (bufFill == bufOff <==> bufOff == |stream|)
    {
      var n := if |stream| - bufFill < buf.Length then |stream| - bufFill else buf.Length;
      for k := 0 to n
        invariant bufFill == old(bufFill)
        invariant forall j :: bufFill <= j < bufFill + k ==> buf[Slot(j, buf.Length)] == stream[j]
      {
        forall j | bufFill <= j < bufFill + k ensures Slot(j, buf.Length) != Slot(bufFill + k, buf.Length) {
          Apart(j, bufFill + k, buf.Length);
        }
        buf[Slot(bufFill + k, buf.Length)] := stream[bufFill + k];
      }
      WholeBlocks(bufFill, buf.Length);
      bufFill := bufFill + n;
    }

    /** fd_chacha20rng_ulong. */
    method Draw() returns (x: Option<ulong>)
      requires Valid()
      modifies this, buf
      ensures Valid()
      ensures var words, i := WordsOf(stream), old(bufOff) / 8;
              if i < |words| then x == Some(words[i]) && bufOff == old(bufOff) + 8
              else x == None && bufOff == old(bufOff) == |stream|
    {
      WholeWords(bufOff, bufFill);
      WholeWords(bufOff, |stream|);
      if bufFill - bufOff < 8 {
        Refill();
        WholeWords(bufOff, bufFill);
        if bufFill - bufOff < 8 { return None; }
      }
      WordInBuffer(buf[..], stream, bufOff);
      NextWord(bufOff);
      var o := bufOff % buf.Length;
      x := Some(Svw.LoadLE(buf[..][o..o + 8]));
      bufOff := bufOff + 8;
    }

    /** fd_chacha20rng_ulong_roll: consumes draws up to and including the first accepted one. */
    method Roll(n: ulong) returns (r: Option<ulong>)
      requires Valid() && n > 0
      modifies this, buf
      ensures Valid()
      ensures var words := WordsOf(stream);
              match FirstAccepted(Zone(mode, n), n, words, old(bufOff) / 8)
              case None => r == None && bufOff == |stream|
              case Some(i) => i < |words| && r == Some(Hi(words[i], n)) && 0 <= r.value < n && bufOff == 8 * (i + 1)
    {
      var zone := Zone(mode, n);
      ghost var words := WordsOf(stream);
      while true
        invariant Valid() && old(bufOff) <= bufOff
        invariant FirstAccepted(zone, n, words, bufOff / 8) == FirstAccepted(zone, n, words, old(bufOff) / 8)
        decreases |stream| - bufOff
      {
        var v := Draw();
        if v == None { return None; }
        var res := v.value * n;
        var hi, lo := res / TWO64, res % TWO64;
        InRange(v.value, n);
        if lo <= zone { return Some(hi); }
      }
    }
  }
}
