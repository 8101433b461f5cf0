/** Integer codes that can be read from either end, and streams of encoded integers.

    A code is its functions; what is proved of streams here and of pods in Pods holds for every
    lawful code. SvwCode is the code of fd_ulong_svw_*. */
module Codes {
  import opened Words
  import Svw

  /** sz is the width a number is encoded in by default, ok says which widths hold it, enc is its
      encoding at a width, size finds the width from the first byte, tail finds it from the last
      one and read decodes all the bytes. visible marks the encodings whose size is found. */
  datatype Code = Code(sz: ulong -> nat, ok: (nat, ulong) -> bool, enc: (nat, ulong) -> seq<byte>,
                       size: byte -> nat, tail: byte -> nat, read: seq<byte> -> ulong,
                       visible: (nat, ulong) -> bool)

  ghost predicate Encodes(c: Code, csz: nat, x: ulong) {
    csz >= 1 && |c.enc(csz, x)| == csz && c.read(c.enc(csz, x)) == x
    && c.tail(c.enc(csz, x)[csz - 1]) == csz
    && (c.size(c.enc(csz, x)[0]) == csz <==> c.visible(csz, x))
  }

  ghost predicate StartsAlike(s: seq<byte>, e: seq<byte>) {
    forall i :: 0 <= i < |s| && i < |e| ==> s[i] == e[i]
  }

  /** Where the size found for the default encoding of x is wrong, the bytes so many do not read
      as x, whatever follows the encoding. */
  ghost predicate Tells(c: Code, x: ulong) {
    var e := c.enc(c.sz(x), x);
    e != [] && c.size(e[0]) != |e| ==>
      forall s :: StartsAlike(s, e) && |s| == c.size(e[0]) ==> c.read(s) != x
  }

  /** Three numbers up to x >= 3, at the default width of x, take no more than x bytes. */
  ghost predicate Lawful(c: Code) {
    (forall csz: nat, x: ulong :: c.ok(csz, x) ==> Encodes(c, csz, x))
    && (forall csz: nat, x: ulong, y: ulong :: c.ok(csz, x) && y <= x ==> c.ok(csz, y))
    && (forall b: byte :: c.size(b) >= 1) && (forall b: byte :: c.tail(b) >= 1)
    && (forall x: ulong :: c.ok(c.sz(x), x) && (x >= 3 ==> 3 * c.sz(x) <= x))
    && (forall x: ulong :: Tells(c, x))
  }

  // ----- the symmetric variable-width code

  /** fd_ulong_svw_*, its sizes found from the front by rule. */
  function SvwCode(rule: Svw.Rule): Code {
    Code(
      x => Svw.EncSz(x),
      (csz: nat, x: ulong) => Svw.Width(csz) && x < Svw.Cap(csz),
      (csz: nat, x: ulong) => if Svw.Width(csz) then Svw.EncFixed(csz, x) else [],
      b => Svw.HeadSz(rule, b),
      b => Svw.TailSz(b),
      (s: seq<byte>) => if Svw.Width(|s|) then Svw.DecFixed(s, |s|) else 0,
      (csz: nat, x: ulong) => rule == Svw.Documented || Svw.ReadsForward(csz, x))
  }

  lemma SvwEncodes(rule: Svw.Rule, csz: nat, x: ulong)
    requires Svw.Width(csz) && x < Svw.Cap(csz)
    ensures Encodes(SvwCode(rule), csz, x)
  {
    Svw.FixedRoundTrip(csz, x);
    Svw.HeadSize(csz, x);
    Svw.LastByte(csz, x);
  }

  lemma SvwSizes(rule: Svw.Rule, b: byte)
    ensures SvwCode(rule).size(b) >= 1 && SvwCode(rule).tail(b) >= 1
  {
    Svw.SizeTables(b);
  }

  lemma SvwDefault(x: ulong)
    ensures Svw.Width(Svw.EncSz(x)) && x < Svw.Cap(Svw.EncSz(x))
    ensures x >= 3 ==> 3 * Svw.EncSz(x) <= x
  {
  }

  lemma SvwTells(rule: Svw.Rule, x: ulong)
    ensures Tells(SvwCode(rule), x)
  {
    var csz := Svw.EncSz(x);
    var e := Svw.EncFixed(csz, x);
    var f := Svw.HeadSz(rule, e[0]);
    SvwDefault(x);
    Svw.HeadSize(csz, x);
    SvwSizes(rule, e[0]);
    if f != csz {
      Svw.SizeTables(e[0]);
      forall s: seq<byte> | StartsAlike(s, e) && |s| == f ensures SvwCode(rule).read(s) != x {
        var n := if f < csz then f else csz;
        assert s[..n] == e[..n];
        Svw.WrongSize(csz, x, f, s);
      }
    }
  }

  /** Under either lookup the symmetric variable-width code is lawful. Every encoding is visible
      under the documented lookup, those of ReadsForward under the one as written. */
  lemma SvwLawful(rule: Svw.Rule)
    ensures Lawful(SvwCode(rule))
  {
    var c := SvwCode(rule);
    forall csz: nat, x: ulong | c.ok(csz, x) ensures Encodes(c, csz, x) {
      SvwEncodes(rule, csz, x);
    }
    forall b: byte ensures c.size(b) >= 1 && c.tail(b) >= 1 {
      SvwSizes(rule, b);
    }
    forall x: ulong ensures c.ok(c.sz(x), x) && (x >= 3 ==> 3 * c.sz(x) <= x) {
      SvwDefault(x);
    }
    forall x: ulong ensures Tells(c, x) {
      SvwTells(rule, x);
    }
  }

  // ----- decoding from either end

  datatype Read = Read(x: ulong, rest: seq<byte>)

  /** fd_ulong_svw_dec_tail on the bytes up to the cursor. None where it would read before the
      first of them. */
  function DecTail(c: Code, b: seq<byte>): Option<Read> {
    if b == [] then None else
    var csz := c.tail(b[|b| - 1]);
    if csz > |b| then None else Some(Read(c.read(b[|b| - csz..]), b[..|b| - csz]))
  }

  /** fd_ulong_svw_dec on the bytes from the cursor. None where it would read past the last. */
  function Dec(c: Code, b: seq<byte>): Option<Read> {
    if b == [] then None else
    var csz := c.size(b[0]);
    if csz > |b| then None else Some(Read(c.read(b[..csz]), b[csz..]))
  }

  /** Whatever precedes it, an encoding is read from its end, and the cursor stops at its start. */
  lemma DecTailEnc(c: Code, pre: seq<byte>, csz: nat, x: ulong)
    requires Lawful(c) && c.ok(csz, x)
    ensures DecTail(c, pre + c.enc(csz, x)) == Some(Read(x, pre))
  {
    var e := c.enc(csz, x);
    var b := pre + e;
    assert Encodes(c, csz, x);
    assert b[|b| - 1] == e[csz - 1];
    assert b[|b| - csz..] == e && b[..|b| - csz] == pre;
  }

  /** Whatever follows it, an encoding is read from its start exactly when its size is visible. */
  lemma DecEnc(c: Code, csz: nat, x: ulong, post: seq<byte>)
    requires Lawful(c) && c.ok(csz, x)
    ensures Dec(c, c.enc(csz, x) + post) == Some(Read(x, post)) <==> c.visible(csz, x)
  {
    var e := c.enc(csz, x);
    var b := e + post;
    assert Encodes(c, csz, x);
    assert b[0] == e[0] && b[..csz] == e && b[csz..] == post;
    var found := c.size(b[0]);
    if found != csz && found <= |b| {
      assert |b[found..]| != |post|;
    }
  }

  /** Read from its start, a number at its default width gives itself exactly when its size is
      visible. */
  lemma DecDefault(c: Code, x: ulong, post: seq<byte>)
    requires Lawful(c)
    ensures var d := Dec(c, Default(c, x) + post);
            (d.Some? && d.value.x == x <==> c.visible(c.sz(x), x))
            && (c.visible(c.sz(x), x) ==> d == Some(Read(x, post)))
  {
    var e := Default(c, x);
    DefaultEncodes(c, x);
    DecEnc(c, c.sz(x), x, post);
    assert Tells(c, x);
    var f := c.size(e[0]);
    if f != |e| && f <= |e + post| {
      assert StartsAlike((e + post)[..f], e);
    }
  }

  // ----- streams

  function Default(c: Code, x: ulong): seq<byte> {
    c.enc(c.sz(x), x)
  }

  /** The encodings of xs, appended one after the other. */
  function Stream(c: Code, xs: seq<ulong>): seq<byte> {
    if xs == [] then [] else Stream(c, xs[..|xs| - 1]) + Default(c, xs[|xs| - 1])
  }

  /** Reading backward until the start of the stream. None if a read would cross it. */
  ghost function DecAllTail(c: Code, b: seq<byte>): Option<seq<ulong>>
    requires Lawful(c)
    decreases |b|
  {
    if b == [] then Some([]) else
    match DecTail(c, b)
    case None => None
    case Some(r) =>
      match DecAllTail(c, r.rest)
      case None => None
      case Some(xs) => Some([r.x] + xs)
  }

  /** Reading forward to the end of the stream. None if a read would cross it. */
  ghost function DecAll(c: Code, b: seq<byte>): Option<seq<ulong>>
    requires Lawful(c)
    decreases |b|
  {
    if b == [] then Some([]) else
    match Dec(c, b)
    case None => None
    case Some(r) =>
      match DecAll(c, r.rest)
      case None => None
      case Some(xs) => Some([r.x] + xs)
  }

  function Reversed(xs: seq<ulong>): seq<ulong> {
    if xs == [] then [] else [xs[|xs| - 1]] + Reversed(xs[..|xs| - 1])
  }

  lemma {:induction false} ReversedAt(xs: seq<ulong>, i: nat)
    ensures |Reversed(xs)| == |xs|
    ensures i < |xs| ==> Reversed(xs)[i] == xs[|xs| - 1 - i]
  {
    if xs != [] {
      ReversedAt(xs[..|xs| - 1], if i == 0 then 0 else i - 1);
    }
  }

  lemma ReversedInjective(xs: seq<ulong>, ys: seq<ulong>)
    requires Reversed(xs) == Reversed(ys)
    ensures xs == ys
  {
    ReversedAt(xs, 0);
    ReversedAt(ys, 0);
    forall i | 0 <= i < |xs| ensures xs[i] == ys[i] {
      ReversedAt(xs, |xs| - 1 - i);
      ReversedAt(ys, |xs| - 1 - i);
    }
  }

  lemma DefaultEncodes(c: Code, x: ulong)
    requires Lawful(c)
    ensures c.ok(c.sz(x), x) && Encodes(c, c.sz(x), x) && Default(c, x) != []
  {
    assert c.ok(c.sz(x), x);
  }

  /** A stream read from its end gives its numbers in reverse and stops exactly at its start. */
  lemma {:induction false} BackwardStream(c: Code, xs: seq<ulong>)
    requires Lawful(c)
    ensures DecAllTail(c, Stream(c, xs)) == Some(Reversed(xs))
  {
    if xs != [] {
      var pre, x := xs[..|xs| - 1], xs[|xs| - 1];
      DefaultEncodes(c, x);
      DecTailEnc(c, Stream(c, pre), c.sz(x), x);
      BackwardStream(c, pre);
    }
  }

  /** No two lists of numbers have the same stream. */
  lemma StreamInjective(c: Code, xs: seq<ulong>, ys: seq<ulong>)
    requires Lawful(c) && Stream(c, xs) == Stream(c, ys)
    ensures xs == ys
  {
    BackwardStream(c, xs);
    BackwardStream(c, ys);
    ReversedInjective(xs, ys);
  }

  lemma {:induction false} StreamCons(c: Code, x: ulong, xs: seq<ulong>)
    ensures Stream(c, [x] + xs) == Default(c, x) + Stream(c, xs)
  {
    var n := |xs|;
    if n == 0 {
      assert Stream(c, [x]) == Stream(c, [x][..0]) + Default(c, x);
    } else {
      StreamCons(c, x, xs[..n - 1]);
      assert ([x] + xs)[..n] == [x] + xs[..n - 1];
    }
  }

  predicate AllVisible(c: Code, xs: seq<ulong>) {
    forall i :: 0 <= i < |xs| ==> c.visible(c.sz(xs[i]), xs[i])
  }

  /** A stream read from its start gives its numbers in order exactly when all sizes are visible. */
  lemma {:induction false} ForwardStream(c: Code, xs: seq<ulong>)
    requires Lawful(c)
    ensures DecAll(c, Stream(c, xs)) == Some(xs) <==> AllVisible(c, xs)
  {
    if xs != [] {
      var x, post := xs[0], xs[1..];
      assert xs == [x] + post;
      StreamCons(c, x, post);
      DefaultEncodes(c, x);
      DecDefault(c, x, Stream(c, post));
      ForwardStream(c, post);
      HeadAndRest(x, post, DecAll(c, Stream(c, post)));
      assert AllVisible(c, xs) <==> c.visible(c.sz(x), x) && AllVisible(c, post);
    }
  }

  lemma HeadAndRest(x: ulong, post: seq<ulong>, ys: Option<seq<ulong>>)
    ensures ys.Some? ==> ([x] + ys.value == [x] + post <==> ys.value == post)
  {
    if ys.Some? && [x] + ys.value == [x] + post {
      assert ([x] + ys.value)[1..] == ys.value && ([x] + post)[1..] == post;
    }
  }

  /** Symmetric variable-width streams: read backward always right, read forward by the
      documented lookup always right, and by the lookup as written exactly when every number in
      it satisfies ReadsForward. */
  lemma SvwStreams(xs: seq<ulong>)
    ensures Lawful(SvwCode(Svw.AsWritten)) && Lawful(SvwCode(Svw.Documented))
    ensures var c := SvwCode(Svw.AsWritten); DecAllTail(c, Stream(c, xs)) == Some(Reversed(xs))
    ensures var c := SvwCode(Svw.Documented); DecAll(c, Stream(c, xs)) == Some(xs)
    ensures var c := SvwCode(Svw.AsWritten);
            DecAll(c, Stream(c, xs)) == Some(xs) <==>
              forall i :: 0 <= i < |xs| ==> Svw.ReadsForward(Svw.EncSz(xs[i]), xs[i])
  {
    SvwLawful(Svw.AsWritten);
    SvwLawful(Svw.Documented);
    BackwardStream(SvwCode(Svw.AsWritten), xs);
    ForwardStream(SvwCode(Svw.Documented), xs);
    ForwardStream(SvwCode(Svw.AsWritten), xs);
  }
}
