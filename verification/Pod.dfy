/** Pods: self-describing key-value stores laid out with variable-width integers.

    A pod is a header of three integers of one width (max, used, cnt) and cnt entries. The
    layout and its readers are stated for any lawful integer code; Codes.SvwLawful shows that the
    symmetric variable-width code is one. */
module Pods {
  import opened Words
  import opened Codes
  import Svw
  import ZigZag

  const FOOTPRINT_MIN := 3

  // ----- layout

  /** A key-value pair; kw and vw are the widths of its two sizes. */
  datatype Entry = Entry(kw: nat, key: seq<byte>, typ: byte, vw: nat, val: seq<byte>)

  predicate EntryOk(c: Code, e: Entry) {
    |e.key| < TWO64 && |e.val| < TWO64 && c.ok(e.kw, |e.key|) && c.ok(e.vw, |e.val|)
  }

  function EntryBytes(c: Code, e: Entry): seq<byte>
    requires EntryOk(c, e)
  {
    c.enc(e.kw, |e.key|) + e.key + [e.typ] + c.enc(e.vw, |e.val|) + e.val
  }

  predicate EntriesOk(c: Code, es: seq<Entry>) {
    forall i :: 0 <= i < |es| ==> EntryOk(c, es[i])
  }

  function Body(c: Code, es: seq<Entry>): seq<byte>
    requires EntriesOk(c, es)
  {
    if es == [] then [] else EntryBytes(c, es[0]) + Body(c, es[1..])
  }

  datatype Pod = Pod(csz: nat, max: ulong, es: seq<Entry>)

  function UsedBytes(c: Code, p: Pod): nat
    requires EntriesOk(c, p.es)
  {
    3 * p.csz + |Body(c, p.es)|
  }

  ghost predicate PodOk(c: Code, p: Pod) {
    Lawful(c) && c.ok(p.csz, p.max) && EntriesOk(c, p.es) && UsedBytes(c, p) <= p.max
  }

  /** Every entry takes at least three bytes. */
  lemma {:induction false} CntBound(c: Code, es: seq<Entry>)
    requires Lawful(c) && EntriesOk(c, es)
    ensures 3 * |es| <= |Body(c, es)|
  {
    if es != [] {
      assert Encodes(c, es[0].kw, |es[0].key|) && Encodes(c, es[0].vw, |es[0].val|);
      CntBound(c, es[1..]);
    }
  }

  function Header(c: Code, csz: nat, max: ulong, used: ulong, cnt: ulong): seq<byte> {
    c.enc(csz, max) + c.enc(csz, used) + c.enc(csz, cnt)
  }

  ghost function PodBytes(c: Code, p: Pod): seq<byte>
    requires PodOk(c, p)
  {
    CntBound(c, p.es);
    Header(c, p.csz, p.max, UsedBytes(c, p), |p.es|) + Body(c, p.es)
  }

  /** The bytes of b from base on start with the pod p. */
  ghost predicate PodAt(c: Code, b: seq<byte>, base: nat, p: Pod) {
    PodOk(c, p) && base + UsedBytes(c, p) <= |b| && b[base..base + UsedBytes(c, p)] == PodBytes(c, p)
  }

  predicate EntryVisible(c: Code, e: Entry)
    requires EntryOk(c, e)
  {
    c.visible(e.kw, |e.key|) && c.visible(e.vw, |e.val|)
  }

  predicate EntriesVisible(c: Code, es: seq<Entry>)
    requires EntriesOk(c, es)
  {
    forall i :: 0 <= i < |es| ==> EntryVisible(c, es[i])
  }

  predicate PodVisible(c: Code, p: Pod)
    requires EntriesOk(c, p.es)
  {
    c.visible(p.csz, p.max) && EntriesVisible(c, p.es)
  }

  /** The layout where every size is a single byte: max, used and cnt, and then for each entry the
      size of the key, the key, the type, the size of the value and the value. */
  lemma SmallLayout(rule: Svw.Rule, csz: nat, max: ulong, used: ulong, cnt: ulong, e: Entry)
    requires csz == 1 && max < 64 && used < 64 && cnt < 64
    requires e.kw == csz && e.vw == csz && |e.key| < 64 && |e.val| < 64
    ensures Header(SvwCode(rule), csz, max, used, cnt) == [2 * max, 2 * used, 2 * cnt]
    ensures EntryOk(SvwCode(rule), e)
    ensures EntryBytes(SvwCode(rule), e) == [2 * |e.key|] + e.key + [e.typ] + [2 * |e.val|] + e.val
  {
    Svw.OneByteIs(csz, max);
    Svw.OneByteIs(csz, used);
    Svw.OneByteIs(csz, cnt);
    Svw.OneByteIs(csz, |e.key|);
    Svw.OneByteIs(csz, |e.val|);
  }

  // ----- reading

  datatype Size = Size(width: nat, value: ulong)

  /** A number at an offset, csz bytes wide. None where it would read outside b. */
  function ReadAt(c: Code, b: seq<byte>, at: nat, csz: nat): Option<ulong> {
    if at + csz > |b| then None else Some(c.read(b[at..at + csz]))
  }

  function Max(c: Code, b: seq<byte>): Option<ulong> {
    if b == [] then None else ReadAt(c, b, 0, c.size(b[0]))
  }

  function Used(c: Code, b: seq<byte>): Option<ulong> {
    if b == [] then None else ReadAt(c, b, c.size(b[0]), c.size(b[0]))
  }

  function Cnt(c: Code, b: seq<byte>): Option<ulong> {
    if b == [] then None else ReadAt(c, b, 2 * c.size(b[0]), c.size(b[0]))
  }

  function Avail(c: Code, b: seq<byte>): Option<ulong> {
    var max, used := Max(c, b), Used(c, b);
    if max.Some? && used.Some? then Some((max.value as int - used.value as int) % TWO64) else None
  }

  lemma HeaderParts(c: Code, csz: nat, max: ulong, used: ulong, cnt: ulong, rest: seq<byte>)
    requires |c.enc(csz, max)| == |c.enc(csz, used)| == |c.enc(csz, cnt)| == csz >= 1
    ensures var b := Header(c, csz, max, used, cnt) + rest;
            |b| == 3 * csz + |rest| && b[0] == c.enc(csz, max)[0] && b[3 * csz..] == rest
            && b[0..csz] == c.enc(csz, max) && b[csz..2 * csz] == c.enc(csz, used)
            && b[2 * csz..3 * csz] == c.enc(csz, cnt)
  {
  }

  /** Fields written at the width of max are read back, for all cnt <= used <= max. */
  lemma HeaderFields(c: Code, csz: nat, max: ulong, used: ulong, cnt: ulong, rest: seq<byte>)
    requires Lawful(c) && c.ok(csz, max) && cnt <= used <= max && c.visible(csz, max)
    ensures var b := Header(c, csz, max, used, cnt) + rest;
            Max(c, b) == Some(max) && Used(c, b) == Some(used) && Cnt(c, b) == Some(cnt)
            && Avail(c, b) == Some(max - used)
  {
    assert c.ok(csz, used) && c.ok(csz, cnt);
    assert Encodes(c, csz, max) && Encodes(c, csz, used) && Encodes(c, csz, cnt);
    HeaderParts(c, csz, max, used, cnt, rest);
  }

  function SizeAt(c: Code, b: seq<byte>, at: nat): Option<Size> {
    if at >= |b| then None else
    var csz := c.size(b[at]);
    match ReadAt(c, b, at, csz)
    case None => None
    case Some(x) => Some(Size(csz, x))
  }

  /** What fd_pod_info_t says of an entry, its pointers as offsets. */
  datatype Info = Info(keySz: ulong, key: nat, valType: byte, valSz: ulong, val: nat)

  /** fd_pod_iter_info. None where it would read outside b. */
  function InfoAt(c: Code, b: seq<byte>, cursor: nat): Option<Info> {
    match SizeAt(c, b, cursor)
    case None => None
    case Some(k) =>
      var t := cursor + k.width + k.value;
      if t >= |b| then None else
      match SizeAt(c, b, t + 1)
      case None => None
      case Some(v) => Some(Info(k.value, cursor + k.width, b[t], v.value, t + 1 + v.width))
  }

  /** The cursor after fd_pod_iter_next. */
  function NextAt(c: Code, b: seq<byte>, cursor: nat): Option<nat> {
    match SizeAt(c, b, cursor)
    case None => None
    case Some(k) =>
      var t := cursor + k.width + k.value + 1;
      match SizeAt(c, b, t)
      case None => None
      case Some(v) => Some(t + v.width + v.value)
  }

  datatype Iter = Iter(cursor: nat, stop: nat)

  /** fd_pod_iter_init, pod the offset of a pod or None for NULL. */
  function IterInit(c: Code, b: seq<byte>, pod: Option<nat>): Option<Iter> {
    match pod
    case None => Some(Iter(0, 0))
    case Some(base) =>
      if base >= |b| then None else
      var used := Used(c, b[base..]);
      if used.None? then None else Some(Iter(base + 3 * c.size(b[base]), base + used.value))
  }

  function IterDone(iter: Iter): bool {
    iter.cursor >= iter.stop
  }

  /** Whatever bytes it reads, the iterator moves at least three bytes forward. */
  lemma Advances(c: Code, b: seq<byte>, cursor: nat)
    requires Lawful(c) && NextAt(c, b, cursor).Some?
    ensures NextAt(c, b, cursor).value >= cursor + 3
  {
  }

  lemma SizeAtEnc(c: Code, b: seq<byte>, at: nat, csz: nat, x: ulong)
    requires Lawful(c) && c.ok(csz, x) && at + csz <= |b| && b[at..at + csz] == c.enc(csz, x)
    ensures SizeAt(c, b, at) == Some(Size(csz, x)) <==> c.visible(csz, x)
  {
    assert Encodes(c, csz, x);
    assert b[at] == b[at..at + csz][0];
  }

  /** At its default width a number is read exactly when its size is visible. */
  lemma SizeAtDefault(c: Code, b: seq<byte>, at: nat, x: ulong)
    requires Lawful(c) && at + |Default(c, x)| <= |b| && b[at..at + |Default(c, x)|] == Default(c, x)
    ensures var d := SizeAt(c, b, at);
            (d.Some? && d.value.value == x <==> c.visible(c.sz(x), x))
            && (c.visible(c.sz(x), x) ==> d == Some(Size(c.sz(x), x)))
  {
    var e := Default(c, x);
    DefaultEncodes(c, x);
    SizeAtEnc(c, b, at, c.sz(x), x);
    assert Tells(c, x);
    assert b[at] == b[at..at + |e|][0];
    var f := c.size(b[at]);
    if f != |e| && at + f <= |b| {
      Slices(b, at, e);
      assert StartsAlike(b[at..at + f], e);
    }
  }

  /** The accessors find max exactly when its size is visible. */
  lemma MaxExact(c: Code, max: ulong, rest: seq<byte>)
    requires Lawful(c)
    ensures Max(c, Default(c, max) + rest) == Some(max) <==> c.visible(c.sz(max), max)
  {
    var b := Default(c, max) + rest;
    DefaultEncodes(c, max);
    assert b[0..|Default(c, max)|] == Default(c, max);
    SizeAtDefault(c, b, 0, max);
  }

  function InfoOf(e: Entry, at: nat): Info
    requires |e.key| < TWO64 && |e.val| < TWO64
  {
    Info(|e.key|, at + e.kw, e.typ, |e.val|, at + e.kw + |e.key| + 1 + e.vw)
  }

  /** Where the parts of a concatenation lie. */
  lemma Parts(b: seq<byte>, at: nat, k: seq<byte>, key: seq<byte>, typ: byte, v: seq<byte>, val: seq<byte>)
    requires var s := k + key + [typ] + v + val; at + |s| <= |b| && b[at..at + |s|] == s
    ensures var t := at + |k| + |key|;
            b[at..at + |k|] == k && b[at + |k|..t] == key && b[t] == typ
            && b[t + 1..t + 1 + |v|] == v && b[t + 1 + |v|..t + 1 + |v| + |val|] == val
  {
    var s := k + key + [typ] + v + val;
    var n := |k| + |key|;
    assert s[..|k|] == k && s[|k|..n] == key && s[n] == typ;
    assert s[n + 1..n + 1 + |v|] == v && s[n + 1 + |v|..] == val;
    Slices(b, at, s);
  }

  lemma Slices(b: seq<byte>, at: nat, s: seq<byte>)
    requires at + |s| <= |b| && b[at..at + |s|] == s
    ensures forall i :: 0 <= i < |s| ==> b[at + i] == s[i]
    ensures forall i, j :: 0 <= i <= j <= |s| ==> b[at + i..at + j] == s[i..j]
  {
    forall i | 0 <= i < |s| ensures b[at + i] == s[i] {
      assert b[at..at + |s|][i] == b[at + i];
    }
  }

  /** An entry lies at an offset of b. */
  predicate EntryAt(c: Code, b: seq<byte>, at: nat, e: Entry) {
    EntryOk(c, e) && at + |EntryBytes(c, e)| <= |b| && b[at..at + |EntryBytes(c, e)|] == EntryBytes(c, e)
  }

  lemma EntryParts(c: Code, b: seq<byte>, at: nat, e: Entry)
    requires Lawful(c) && EntryAt(c, b, at, e)
    ensures |EntryBytes(c, e)| == e.kw + |e.key| + 1 + e.vw + |e.val|
    ensures e.kw >= 1 && e.vw >= 1 && b[at + e.kw + |e.key|] == e.typ && Shows(b, InfoOf(e, at), e)
    ensures var t := at + e.kw + |e.key| + 1;
            b[at..at + e.kw] == c.enc(e.kw, |e.key|) && b[t..t + e.vw] == c.enc(e.vw, |e.val|)
  {
    assert Encodes(c, e.kw, |e.key|) && Encodes(c, e.vw, |e.val|);
    Parts(b, at, c.enc(e.kw, |e.key|), e.key, e.typ, c.enc(e.vw, |e.val|), e.val);
  }

  /** The iterator reports an entry as it was laid out exactly when both its sizes are visible,
      and then moves to the byte after it. */
  lemma EntryInfo(c: Code, b: seq<byte>, at: nat, e: Entry)
    requires Lawful(c) && EntryAt(c, b, at, e)
    ensures InfoAt(c, b, at) == Some(InfoOf(e, at)) <==> EntryVisible(c, e)
    ensures EntryVisible(c, e) ==> NextAt(c, b, at) == Some(at + |EntryBytes(c, e)|)
  {
    EntryParts(c, b, at, e);
    SizeAtEnc(c, b, at, e.kw, |e.key|);
    SizeAtEnc(c, b, at + e.kw + |e.key| + 1, e.vw, |e.val|);
    SizesFound(c, b, at, Size(e.kw, |e.key|), Size(e.vw, |e.val|));
  }

  /** An info is right exactly when both sizes are found where they are. */
  lemma SizesFound(c: Code, b: seq<byte>, at: nat, k: Size, v: Size)
    requires at + k.width + k.value < |b|
    ensures var t := at + k.width + k.value;
            var found := SizeAt(c, b, at) == Some(k) && SizeAt(c, b, t + 1) == Some(v);
            (InfoAt(c, b, at) == Some(Info(k.value, at + k.width, b[t], v.value, t + 1 + v.width)) <==> found)
            && (found ==> NextAt(c, b, at) == Some(t + 1 + v.width + v.value))
  {
  }

  /** An entry at default widths that has a size not visible is not reported right. */
  lemma EntryMisread(c: Code, b: seq<byte>, at: nat, e: Entry)
    requires Lawful(c) && EntryAt(c, b, at, e) && e.kw == c.sz(|e.key|) && e.vw == c.sz(|e.val|) && !EntryVisible(c, e)
    ensures InfoAt(c, b, at).Some? ==> !Shows(b, InfoAt(c, b, at).value, e)
  {
    EntryParts(c, b, at, e);
    SizeAtDefault(c, b, at, |e.key|);
    SizeAtDefault(c, b, at + e.kw + |e.key| + 1, |e.val|);
  }

  /** An info that points at the key and the value of an entry. */
  predicate Shows(b: seq<byte>, info: Info, e: Entry) {
    info.key + info.keySz <= |b| && b[info.key..info.key + info.keySz] == e.key
    && info.valType == e.typ
    && info.val + info.valSz <= |b| && b[info.val..info.val + info.valSz] == e.val
  }

  predicate Listed(b: seq<byte>, infos: seq<Info>, es: seq<Entry>) {
    |infos| == |es| && forall i :: 0 <= i < |es| ==> Shows(b, infos[i], es[i])
  }

  lemma PodHeader(c: Code, b: seq<byte>, base: nat, p: Pod) returns (rest: seq<byte>)
    requires PodAt(c, b, base, p)
    ensures |p.es| <= UsedBytes(c, p) && b[base..] == Header(c, p.csz, p.max, UsedBytes(c, p), |p.es|) + rest
    ensures b[base + 3 * p.csz..base + UsedBytes(c, p)] == Body(c, p.es)
    ensures base < |b| && p.csz >= 1 && b[base] == c.enc(p.csz, p.max)[0] && Encodes(c, p.csz, p.max)
  {
    CntBound(c, p.es);
    var used := UsedBytes(c, p);
    assert Encodes(c, p.csz, p.max) && Encodes(c, p.csz, used) && Encodes(c, p.csz, |p.es|);
    var head := Header(c, p.csz, p.max, used, |p.es|);
    rest := Cut(b, base, head, Body(c, p.es));
    HeaderParts(c, p.csz, p.max, used, |p.es|, rest);
    assert b[base] == b[base..][0];
  }

  lemma Cut(b: seq<byte>, base: nat, head: seq<byte>, body: seq<byte>) returns (rest: seq<byte>)
    requires base + |head| + |body| <= |b| && b[base..base + |head| + |body|] == head + body
    ensures b[base..] == head + rest && b[base + |head|..base + |head| + |body|] == body
  {
    var n := base + |head| + |body|;
    rest := body + b[n..];
    assert b[base..] == b[base..n] + b[n..];
    Slices(b, base, head + body);
    assert (head + body)[|head|..] == body;
  }

  /** Wherever a pod lies, an iteration starts at its first entry and is to stop after its last
      exactly when its header is visible; then the accessors are right, too. */
  lemma InitAt(c: Code, b: seq<byte>, base: nat, p: Pod)
    requires PodAt(c, b, base, p)
    ensures IterInit(c, b, Some(base)) == Some(Iter(base + 3 * p.csz, base + UsedBytes(c, p))) <==>
            c.visible(p.csz, p.max)
    ensures c.visible(p.csz, p.max) ==>
              && Max(c, b[base..]) == Some(p.max) && Used(c, b[base..]) == Some(UsedBytes(c, p))
              && Cnt(c, b[base..]) == Some(|p.es|) && Avail(c, b[base..]) == Some(p.max - UsedBytes(c, p))
  {
    var rest := PodHeader(c, b, base, p);
    if c.visible(p.csz, p.max) {
      HeaderFields(c, p.csz, p.max, UsedBytes(c, p), |p.es|, rest);
    }
  }

  lemma EntryFront(c: Code, b: seq<byte>, iter: Iter, es: seq<Entry>)
    requires EntriesOk(c, es) && iter.cursor < iter.stop <= |b| && b[iter.cursor..iter.stop] == Body(c, es)
    ensures es != [] && EntryAt(c, b, iter.cursor, es[0]) && iter.cursor + |EntryBytes(c, es[0])| <= iter.stop
    ensures b[iter.cursor + |EntryBytes(c, es[0])|..iter.stop] == Body(c, es[1..])
  {
    var s := b[iter.cursor..iter.stop];
    var n := |EntryBytes(c, es[0])|;
    assert s[..n] == EntryBytes(c, es[0]) && s[n..] == Body(c, es[1..]);
    Slices(b, iter.cursor, s);
  }

  /** What the documented loop collects, and its last cursor. */
  datatype Walked = Walked(infos: seq<Info>, cursor: nat)

  /** The documented loop from iter on. None where it would read outside b. */
  ghost function Walk(c: Code, b: seq<byte>, iter: Iter): Option<Walked>
    requires Lawful(c)
    decreases if iter.cursor < iter.stop then iter.stop - iter.cursor else 0
  {
    if IterDone(iter) then Some(Walked([], iter.cursor)) else
    var info, next := InfoAt(c, b, iter.cursor), NextAt(c, b, iter.cursor);
    if info.None? || next.None? then None else
    assert next.value > iter.cursor by { Advances(c, b, iter.cursor); }
    Prepend([info.value], Walk(c, b, iter.(cursor := next.value)))
  }

  function Prepend(infos: seq<Info>, w: Option<Walked>): Option<Walked> {
    if w.None? then None else Some(Walked(infos + w.value.infos, w.value.cursor))
  }

  ghost function Listing(c: Code, b: seq<byte>, pod: Option<nat>): Option<Walked>
    requires Lawful(c)
  {
    var iter := IterInit(c, b, pod);
    if iter.None? then None else Walk(c, b, iter.value)
  }

  lemma PrependNone(w: Option<Walked>)
    ensures Prepend([], w) == w
  {
    if w.Some? {
      assert [] + w.value.infos == w.value.infos;
    }
  }

  lemma PrependTwice(xs: seq<Info>, info: Info, w: Option<Walked>)
    ensures Prepend(xs, Prepend([info], w)) == Prepend(xs + [info], w)
  {
    if w.Some? {
      assert xs + ([info] + w.value.infos) == xs + [info] + w.value.infos;
    }
  }

  /** The documented loop, on any bytes. */
  method List(c: Code, b: seq<byte>, pod: Option<nat>) returns (r: Option<Walked>)
    requires Lawful(c)
    ensures r == Listing(c, b, pod)
  {
    var start := IterInit(c, b, pod);
    if start.None? {
      return None;
    }
    var iter, infos: seq<Info> := start.value, [];
    PrependNone(Walk(c, b, iter));
    while !IterDone(iter)
      invariant Listing(c, b, pod) == Prepend(infos, Walk(c, b, iter))
      decreases iter.stop - iter.cursor
    {
      var info := InfoAt(c, b, iter.cursor);
      var next := NextAt(c, b, iter.cursor);
      if info.None? || next.None? {
        return None;
      }
      PrependTwice(infos, info.value, Walk(c, b, iter.(cursor := next.value)));
      infos := infos + [info.value];
      iter := iter.(cursor := next.value);
    }
    assert infos + [] == infos;
    return Some(Walked(infos, iter.cursor));
  }

  /** One turn of the documented loop on a visible entry. */
  lemma Turn(c: Code, b: seq<byte>, iter: Iter, es: seq<Entry>) returns (info: Info, next: nat)
    requires Lawful(c) && EntriesOk(c, es) && iter.cursor < iter.stop <= |b|
    requires b[iter.cursor..iter.stop] == Body(c, es)
    requires es != [] && EntryVisible(c, es[0])
    ensures InfoAt(c, b, iter.cursor) == Some(info) && NextAt(c, b, iter.cursor) == Some(next)
    ensures iter.cursor + 3 <= next <= iter.stop && info == InfoOf(es[0], iter.cursor) && Shows(b, info, es[0])
    ensures next == iter.cursor + |EntryBytes(c, es[0])| && b[next..iter.stop] == Body(c, es[1..])
  {
    EntryFront(c, b, iter, es);
    EntryParts(c, b, iter.cursor, es[0]);
    EntryInfo(c, b, iter.cursor, es[0]);
    info, next := InfoOf(es[0], iter.cursor), iter.cursor + |EntryBytes(c, es[0])|;
  }

  lemma ListedCons(b: seq<byte>, info: Info, infos: seq<Info>, es: seq<Entry>)
    requires es != []
    ensures Listed(b, [info] + infos, es) <==> Shows(b, info, es[0]) && Listed(b, infos, es[1..])
  {
    var all := [info] + infos;
    if Listed(b, all, es) {
      assert Shows(b, all[0], es[0]);
      forall i | 0 <= i < |es| - 1 ensures Shows(b, infos[i], es[1..][i]) {
        assert Shows(b, all[i + 1], es[i + 1]);
      }
    }
  }

  lemma VisibleCons(c: Code, es: seq<Entry>)
    requires EntriesOk(c, es) && es != []
    ensures EntriesOk(c, es[1..])
    ensures EntriesVisible(c, es) <==> EntryVisible(c, es[0]) && EntriesVisible(c, es[1..])
  {
  }

  predicate DefaultWidths(c: Code, es: seq<Entry>)
    requires EntriesOk(c, es)
  {
    forall i :: 0 <= i < |es| ==> es[i].kw == c.sz(|es[i].key|) && es[i].vw == c.sz(|es[i].val|)
  }

  /** What the loop is to collect from entries laid out from an offset on. */
  function InfosOf(c: Code, es: seq<Entry>, at: nat): seq<Info>
    requires EntriesOk(c, es)
  {
    if es == [] then [] else [InfoOf(es[0], at)] + InfosOf(c, es[1..], at + |EntryBytes(c, es[0])|)
  }

  /** From a cursor on the loop reports every entry where it lies and ends at the stop exactly
      when all the entries are visible, whatever their widths. */
  lemma {:induction false} WalkExact(c: Code, b: seq<byte>, iter: Iter, es: seq<Entry>)
    requires Lawful(c) && EntriesOk(c, es) && iter.cursor <= iter.stop <= |b|
    requires b[iter.cursor..iter.stop] == Body(c, es)
    ensures Walk(c, b, iter) == Some(Walked(InfosOf(c, es, iter.cursor), iter.stop)) <==> EntriesVisible(c, es)
    decreases |es|
  {
    CntBound(c, es);
    if es == [] {
      assert iter.cursor == iter.stop;
    } else {
      var next := iter.cursor + |EntryBytes(c, es[0])|;
      EntryFront(c, b, iter, es);
      if EntryVisible(c, es[0]) {
        VisibleCons(c, es);
        ExactVisible(c, b, iter, es, es[1..], next);
        WalkExact(c, b, Iter(next, iter.stop), es[1..]);
      } else {
        ExactMisread(c, b, iter, es);
      }
    }
  }

  /** Past a visible entry the loop is right exactly when it is right from the next entry on. */
  lemma ExactVisible(c: Code, b: seq<byte>, iter: Iter, es: seq<Entry>, rem: seq<Entry>, next: nat)
    requires Lawful(c) && EntriesOk(c, es) && es != [] && rem == es[1..] && iter.cursor < iter.stop
    requires EntryAt(c, b, iter.cursor, es[0]) && EntryVisible(c, es[0]) && next == iter.cursor + |EntryBytes(c, es[0])|
    ensures Walk(c, b, iter) == Some(Walked(InfosOf(c, es, iter.cursor), iter.stop)) <==>
            Walk(c, b, Iter(next, iter.stop)) == Some(Walked(InfosOf(c, rem, next), iter.stop))
  {
    InfosCons(c, es, iter.cursor, next);
    WalkEntry(c, b, iter, es[0], next);
    PrependSame(InfoOf(es[0], iter.cursor), InfosOf(c, rem, next), iter.stop, Walk(c, b, Iter(next, iter.stop)));
  }

  /** What the loop collects from a visible entry on. */
  lemma WalkEntry(c: Code, b: seq<byte>, iter: Iter, e: Entry, next: nat)
    requires Lawful(c) && iter.cursor < iter.stop
    requires EntryAt(c, b, iter.cursor, e) && EntryVisible(c, e) && next == iter.cursor + |EntryBytes(c, e)|
    ensures Walk(c, b, iter) == Prepend([InfoOf(e, iter.cursor)], Walk(c, b, Iter(next, iter.stop)))
  {
    EntryInfo(c, b, iter.cursor, e);
    assert iter.(cursor := next) == Iter(next, iter.stop);
  }

  lemma InfosCons(c: Code, es: seq<Entry>, at: nat, next: nat)
    requires EntriesOk(c, es) && es != [] && next == at + |EntryBytes(c, es[0])|
    ensures InfosOf(c, es, at) == [InfoOf(es[0], at)] + InfosOf(c, es[1..], next)
  {
  }

  lemma ExactMisread(c: Code, b: seq<byte>, iter: Iter, es: seq<Entry>)
    requires Lawful(c) && EntriesOk(c, es) && es != [] && EntryAt(c, b, iter.cursor, es[0]) && iter.cursor < iter.stop
    requires !EntryVisible(c, es[0])
    ensures Walk(c, b, iter) != Some(Walked(InfosOf(c, es, iter.cursor), iter.stop))
  {
    EntryInfo(c, b, iter.cursor, es[0]);
    WalkFirst(c, b, iter);
  }

  lemma PrependSame(info: Info, infos: seq<Info>, stop: nat, w: Option<Walked>)
    ensures Prepend([info], w) == Some(Walked([info] + infos, stop)) <==> w == Some(Walked(infos, stop))
  {
    if w.Some? && [info] + w.value.infos == [info] + infos {
      assert ([info] + w.value.infos)[1..] == w.value.infos && ([info] + infos)[1..] == infos;
    }
  }

  lemma WalkFirst(c: Code, b: seq<byte>, iter: Iter)
    requires Lawful(c) && iter.cursor < iter.stop
    ensures var w := Walk(c, b, iter);
            w.Some? ==> w.value.infos != [] && InfoAt(c, b, iter.cursor) == Some(w.value.infos[0])
  {
  }

  /** The infos of entries that lie where they should point at the entries' keys and values. */
  lemma {:induction false} InfosListed(c: Code, b: seq<byte>, iter: Iter, es: seq<Entry>)
    requires Lawful(c) && EntriesOk(c, es) && iter.cursor <= iter.stop <= |b|
    requires b[iter.cursor..iter.stop] == Body(c, es)
    ensures Listed(b, InfosOf(c, es, iter.cursor), es)
    decreases |es|
  {
    CntBound(c, es);
    if es != [] {
      var next := FrontShown(c, b, iter, es);
      InfosCons(c, es, iter.cursor, next);
      InfosListed(c, b, Iter(next, iter.stop), es[1..]);
      ListedCons(b, InfoOf(es[0], iter.cursor), InfosOf(c, es[1..], next), es);
    }
  }

  lemma FrontShown(c: Code, b: seq<byte>, iter: Iter, es: seq<Entry>) returns (next: nat)
    requires Lawful(c) && EntriesOk(c, es) && es != [] && iter.cursor <= iter.stop <= |b|
    requires b[iter.cursor..iter.stop] == Body(c, es)
    ensures next == iter.cursor + |EntryBytes(c, es[0])| <= iter.stop
    ensures Shows(b, InfoOf(es[0], iter.cursor), es[0]) && b[next..iter.stop] == Body(c, es[1..])
  {
    CntBound(c, es);
    EntryFront(c, b, iter, es);
    EntryParts(c, b, iter.cursor, es[0]);
    next := iter.cursor + |EntryBytes(c, es[0])|;
  }

  /** At default widths even the keys and values listed are right only when all the entries are
      visible. */
  lemma {:induction false} WalkContent(c: Code, b: seq<byte>, iter: Iter, es: seq<Entry>)
    requires Lawful(c) && EntriesOk(c, es) && DefaultWidths(c, es) && iter.cursor <= iter.stop <= |b|
    requires b[iter.cursor..iter.stop] == Body(c, es)
    ensures var w := Walk(c, b, iter);
            w.Some? && Listed(b, w.value.infos, es) ==> EntriesVisible(c, es)
    decreases |es|
  {
    CntBound(c, es);
    if es != [] {
      VisibleCons(c, es);
      EntryFront(c, b, iter, es);
      if EntryVisible(c, es[0]) {
        var info, next := WalkTurn(c, b, iter, es);
        var on := Iter(next, iter.stop);
        WalkContent(c, b, on, es[1..]);
        ListedMore(b, info, Walk(c, b, on), es);
      } else {
        WalkMisread(c, b, iter, es);
      }
    }
  }

  lemma WalkTurn(c: Code, b: seq<byte>, iter: Iter, es: seq<Entry>) returns (info: Info, next: nat)
    requires Lawful(c) && EntriesOk(c, es) && iter.cursor < iter.stop <= |b|
    requires b[iter.cursor..iter.stop] == Body(c, es)
    requires es != [] && EntryVisible(c, es[0])
    ensures info == InfoOf(es[0], iter.cursor) && next == iter.cursor + |EntryBytes(c, es[0])|
    ensures next <= iter.stop && Shows(b, info, es[0]) && b[next..iter.stop] == Body(c, es[1..])
    ensures Walk(c, b, iter) == Prepend([info], Walk(c, b, Iter(next, iter.stop)))
  {
    info, next := Turn(c, b, iter, es);
    assert iter.(cursor := next) == Iter(next, iter.stop);
  }

  lemma ListedMore(b: seq<byte>, info: Info, w: Option<Walked>, es: seq<Entry>)
    requires es != [] && Shows(b, info, es[0])
    ensures var v := Prepend([info], w);
            v.Some? == w.Some?
            && (w.Some? ==> v.value.cursor == w.value.cursor
                            && (Listed(b, v.value.infos, es) <==> Listed(b, w.value.infos, es[1..])))
  {
    if w.Some? {
      ListedCons(b, info, w.value.infos, es);
    }
  }

  lemma WalkMisread(c: Code, b: seq<byte>, iter: Iter, es: seq<Entry>)
    requires Lawful(c) && EntriesOk(c, es) && es != [] && EntryAt(c, b, iter.cursor, es[0]) && iter.cursor < iter.stop
    requires !EntryVisible(c, es[0])
    ensures var w := Walk(c, b, iter);
            DefaultWidths(c, es) && w.Some? ==> !Listed(b, w.value.infos, es)
  {
    if DefaultWidths(c, es) {
      EntryMisread(c, b, iter.cursor, es[0]);
      var info, next := InfoAt(c, b, iter.cursor), NextAt(c, b, iter.cursor);
      if info.Some? && next.Some? {
        var w := Walk(c, b, iter.(cursor := next.value));
        if w.Some? {
          ListedCons(b, info.value, w.value.infos, es);
        }
      }
    }
  }

  /** Where the entries of a pod begin and end. */
  function Span(c: Code, base: nat, p: Pod): Iter
    requires EntriesOk(c, p.es)
  {
    Iter(base + 3 * p.csz, base + UsedBytes(c, p))
  }

  lemma SpanBody(c: Code, b: seq<byte>, base: nat, p: Pod)
    requires PodAt(c, b, base, p)
    ensures var span := Span(c, base, p);
            span.cursor <= span.stop <= |b| && b[span.cursor..span.stop] == Body(c, p.es)
  {
    var rest := PodHeader(c, b, base, p);
  }

  lemma InitSpan(c: Code, b: seq<byte>, base: nat, p: Pod)
    requires PodAt(c, b, base, p)
    ensures IterInit(c, b, Some(base)) == Some(Span(c, base, p)) <==> c.visible(p.csz, p.max)
    ensures IterInit(c, b, Some(base)) == Some(Span(c, base, p)) ==>
              Listing(c, b, Some(base)) == Walk(c, b, Span(c, base, p))
  {
    InitAt(c, b, base, p);
  }

  /** Parsing inverts the layout. Wherever a pod lies, the documented loop starts at its first
      entry, reports every entry where it lies and ends exactly at the stop if and only if all the
      pod's sizes are visible; the infos then point at the keys and values in order. */
  lemma PodListing(c: Code, b: seq<byte>, base: nat, p: Pod)
    requires PodAt(c, b, base, p)
    ensures var span := Span(c, base, p);
            var infos := InfosOf(c, p.es, span.cursor);
            (PodVisible(c, p) <==> IterInit(c, b, Some(base)) == Some(span)
                                   && Listing(c, b, Some(base)) == Some(Walked(infos, span.stop)))
            && Listed(b, infos, p.es)
  {
    var span := Span(c, base, p);
    SpanBody(c, b, base, p);
    InitSpan(c, b, base, p);
    WalkExact(c, b, span, p.es);
    InfosListed(c, b, span, p.es);
  }

  /** Behind a visible header, and at default widths, a listing of the right keys and values in
      order is impossible unless all sizes are visible. */
  lemma PodContent(c: Code, b: seq<byte>, base: nat, p: Pod)
    requires PodAt(c, b, base, p) && c.visible(p.csz, p.max) && DefaultWidths(c, p.es)
    ensures var r := Listing(c, b, Some(base));
            r.Some? && Listed(b, r.value.infos, p.es) ==> PodVisible(c, p)
  {
    SpanBody(c, b, base, p);
    InitSpan(c, b, base, p);
    WalkContent(c, b, Span(c, base, p), p.es);
  }

  /** Behind a misread header an empty pod can still be listed as empty, by accident: of 90, say,
      the size found is 5, and what is taken for used lies before the first entry. */
  lemma EmptyByAccident(csz: nat, max: ulong, c: Code) returns (b: seq<byte>)
    requires csz == Svw.EncSz(max) == 2 && max % 32 == 26 && c == SvwCode(Svw.AsWritten)
    ensures var p := Pod(csz, max, []);
            && PodAt(c, b, 0, p) && !c.visible(csz, max)
            && Listing(c, b, Some(0)) == Some(Walked([], 15)) && Listed(b, [], p.es)
            && IterInit(c, b, Some(0)) != Some(Span(c, 0, p))
  {
    SvwLawful(Svw.AsWritten);
    MaxMisread(csz, max, c);
    NoEntries(csz, c);
    b := MisreadPod(c, csz, max);
  }

  lemma MaxMisread(csz: nat, max: ulong, c: Code)
    requires csz == Svw.EncSz(max) == 2 && max % 32 == 26 && c == SvwCode(Svw.AsWritten)
    ensures c.sz(max) == csz && |c.enc(csz, max)| == csz && c.size(c.enc(csz, max)[0]) == 5 && !c.visible(csz, max)
  {
    var first := Svw.FirstByte(csz, max);
    Svw.SizeTables(first);
  }

  lemma NoEntries(csz: nat, c: Code)
    requires csz == 2 && c == SvwCode(Svw.AsWritten)
    ensures |c.enc(csz, 0)| == csz && c.enc(csz, 0)[1] == 0x80
    ensures forall s: seq<byte> :: |s| == 5 && s[0] == 0x80 && s[1..] == [0, 0, 0, 0] ==> c.read(s) == 8
  {
    Svw.SecondByte(csz, 0);
    forall s: seq<byte> | |s| == 5 && s[0] == 0x80 && s[1..] == [0, 0, 0, 0] ensures c.read(s) == 8 {
      assert forall i :: 1 <= i < 5 ==> s[i] == s[1..][i - 1];
      Svw.OneThenZeros(5, s);
    }
  }

  lemma MisreadPod(c: Code, csz: nat, max: ulong) returns (b: seq<byte>)
    requires Lawful(c) && csz == c.sz(max) == 2 && max >= FOOTPRINT_MIN && |c.enc(csz, max)| == |c.enc(csz, 0)| == csz
    requires c.size(c.enc(csz, max)[0]) == 5 && c.enc(csz, 0)[1] == 0x80
    requires forall s: seq<byte> :: |s| == 5 && s[0] == 0x80 && s[1..] == [0, 0, 0, 0] ==> c.read(s) == 8
    ensures PodAt(c, b, 0, Pod(csz, max, []))
    ensures IterInit(c, b, Some(0)) == Some(Iter(15, 8)) && Listing(c, b, Some(0)) == Some(Walked([], 15))
  {
    NewFits(c, csz, max);
    b := c.enc(csz, max) + c.enc(csz, 3 * csz) + c.enc(csz, 0) + [0, 0, 0, 0];
    EmptyPod(c, b, Pod(csz, max, []), [0, 0, 0, 0]);
    assert b[5..10][1..] == [0, 0, 0, 0];
    MisreadInit(c, b);
  }

  lemma MisreadInit(c: Code, b: seq<byte>)
    requires Lawful(c) && |b| == 10 && c.size(b[0]) == 5 && c.read(b[5..10]) == 8
    ensures IterInit(c, b, Some(0)) == Some(Iter(15, 8)) && Listing(c, b, Some(0)) == Some(Walked([], 15))
  {
    assert b[0..] == b;
  }

  /** There is nothing to list for NULL. */
  lemma NullListing(c: Code, b: seq<byte>)
    requires Lawful(c)
    ensures Listing(c, b, None) == Some(Walked([], 0))
  {
  }

  lemma SameEntry(e: Entry, f: Entry, at: nat, b: seq<byte>, info: Info)
    requires |e.key| < TWO64 && |e.val| < TWO64 && |f.key| < TWO64 && |f.val| < TWO64
    requires info == InfoOf(e, at) == InfoOf(f, at) && Shows(b, info, e) && Shows(b, info, f)
    ensures e == f
  {
  }

  lemma {:induction false} SameBody(c: Code, b: seq<byte>, iter: Iter, es: seq<Entry>, fs: seq<Entry>)
    requires Lawful(c) && EntriesOk(c, es) && EntriesOk(c, fs) && iter.cursor <= iter.stop <= |b|
    requires b[iter.cursor..iter.stop] == Body(c, es) == Body(c, fs)
    requires EntriesVisible(c, es)
    requires EntriesVisible(c, fs)
    ensures es == fs
    decreases |es|
  {
    CntBound(c, es);
    CntBound(c, fs);
    if iter.cursor < iter.stop {
      VisibleCons(c, es);
      VisibleCons(c, fs);
      var i, n := Turn(c, b, iter, es);
      var j, m := Turn(c, b, iter, fs);
      SameEntry(es[0], fs[0], iter.cursor, b, i);
      SameBody(c, b, Iter(n, iter.stop), es[1..], fs[1..]);
      assert es == [es[0]] + es[1..] && fs == [fs[0]] + fs[1..];
    }
  }

  /** No two pods have the same bytes. */
  lemma PodInjective(c: Code, b: seq<byte>, base: nat, p: Pod, q: Pod)
    requires PodAt(c, b, base, p) && PodVisible(c, p) && PodAt(c, b, base, q) && PodVisible(c, q)
    ensures p == q
  {
    var _ := PodHeader(c, b, base, p);
    var _ := PodHeader(c, b, base, q);
    InitAt(c, b, base, p);
    InitAt(c, b, base, q);
    SameBody(c, b, Iter(base + 3 * p.csz, base + UsedBytes(c, p)), p.es, q.es);
  }

  // ----- writing

  /** x written at a width over the bytes at off. */
  method EncodeAt(rule: Svw.Rule, b: array<byte>, off: nat, csz: nat, x: ulong)
    requires SvwCode(rule).ok(csz, x) && off + csz <= b.Length
    modifies b
    ensures var e := SvwCode(rule).enc(csz, x); |e| == csz && b[..] == Svw.Put(old(b[..]), off, e)
  {
    var _ := Svw.SvwEncFixed(b, off, csz, x);
  }

  lemma PutThree(b: seq<byte>, csz: nat, x: seq<byte>, y: seq<byte>, z: seq<byte>)
    requires |x| == |y| == |z| == csz && 3 * csz <= |b|
    ensures Svw.Put(Svw.Put(Svw.Put(b, 0, x), csz, y), 2 * csz, z) == x + y + z + b[3 * csz..]
  {
    assert b[csz..][csz..][csz..] == b[3 * csz..];
    assert Svw.Put(b, 0, x) == x + b[csz..];
    PutAfter(x, b[csz..], y);
    PutAfter(x + y, b[csz..][csz..], z);
  }

  lemma PutAfter(x: seq<byte>, rest: seq<byte>, y: seq<byte>)
    requires |y| <= |rest|
    ensures Svw.Put(x + rest, |x|, y) == x + y + rest[|y|..]
  {
    assert (x + rest)[|x| + |y|..] == rest[|y|..];
  }

  lemma EmptyPod(c: Code, b: seq<byte>, p: Pod, rest: seq<byte>)
    requires PodOk(c, p) && p.es == []
    requires |c.enc(p.csz, p.max)| == |c.enc(p.csz, 3 * p.csz)| == |c.enc(p.csz, 0)| == p.csz
    requires b == c.enc(p.csz, p.max) + c.enc(p.csz, 3 * p.csz) + c.enc(p.csz, 0) + rest
    ensures PodAt(c, b, 0, p) && b[3 * p.csz..] == rest
  {
    assert b[0..3 * p.csz] == Header(c, p.csz, p.max, 3 * p.csz, 0);
  }

  /** There is an empty pod of every size but 0, 1 and 2. */
  lemma SomeEmptyPod(c: Code, max: ulong)
    requires Lawful(c)
    ensures max < 3 <==> forall csz :: !PodOk(c, Pod(csz, max, []))
  {
    if max < 3 {
      forall csz: nat ensures !PodOk(c, Pod(csz, max, [])) {
        if c.ok(csz, max) {
          assert Encodes(c, csz, max);
        }
      }
    } else {
      assert c.ok(c.sz(max), max);
      assert PodOk(c, Pod(c.sz(max), max, []));
    }
  }

  lemma NewFits(c: Code, csz: nat, max: ulong)
    requires Lawful(c) && csz == c.sz(max) && max >= FOOTPRINT_MIN
    ensures 3 * csz <= max && c.ok(csz, max) && c.ok(csz, 3 * csz) && c.ok(csz, 0)
    ensures |c.enc(csz, max)| == |c.enc(csz, 3 * csz)| == |c.enc(csz, 0)| == csz
  {
    assert c.ok(csz, max);
    assert c.ok(csz, 3 * csz) && c.ok(csz, 0);
    assert Encodes(c, csz, max) && Encodes(c, csz, 3 * csz) && Encodes(c, csz, 0);
  }

  lemma NewWritten(c: Code, before: seq<byte>, after: seq<byte>, csz: nat, max: ulong)
    requires Lawful(c) && csz == c.sz(max) && FOOTPRINT_MIN <= max <= |before|
    requires |c.enc(csz, max)| == |c.enc(csz, 3 * csz)| == |c.enc(csz, 0)| == csz && 3 * csz <= max
    requires after ==
             Svw.Put(Svw.Put(Svw.Put(before, 0, c.enc(csz, max)), csz, c.enc(csz, 3 * csz)), 2 * csz, c.enc(csz, 0))
    ensures PodAt(c, after, 0, Pod(csz, max, [])) && after[3 * csz..] == before[3 * csz..]
  {
    PutThree(before, csz, c.enc(csz, max), c.enc(csz, 3 * csz), c.enc(csz, 0));
    EmptyPod(c, after, Pod(csz, max, []), before[3 * csz..]);
  }

  /** fd_pod_new: an empty pod of size max, or null. */
  method New(rule: Svw.Rule, shmem: array?<byte>, max: ulong) returns (pod: array?<byte>)
    requires shmem != null ==> max <= shmem.Length
    modifies shmem
    ensures pod == null <==> shmem == null || max < 3
    ensures pod == null <==> shmem == null || forall csz :: !PodOk(SvwCode(rule), Pod(csz, max, []))
    ensures shmem != null && pod == null ==> shmem[..] == old(shmem[..])
    ensures pod != null ==> pod == shmem && PodAt(SvwCode(rule), pod[..], 0, Pod(Svw.EncSz(max), max, []))
    ensures pod != null ==> pod[3 * Svw.EncSz(max)..] == old(shmem[3 * Svw.EncSz(max)..])
  {
    SvwLawful(rule);
    SomeEmptyPod(SvwCode(rule), max);
    if shmem == null { return null; }
    var footprint := if max >= FOOTPRINT_MIN then max else 0;
    if footprint == 0 { return null; }
    var csz := Svw.EncSz(max);
    ghost var b := shmem[..];
    NewFits(SvwCode(rule), csz, max);
    EncodeAt(rule, shmem, 0, csz, max);
    EncodeAt(rule, shmem, csz, csz, 3 * csz);
    EncodeAt(rule, shmem, 2 * csz, csz, 0);
    NewWritten(SvwCode(rule), b, shmem[..], csz, max);
    return shmem;
  }

  lemma PodFront(c: Code, b: seq<byte>, p: Pod)
    requires PodAt(c, b, 0, p) && c.visible(p.csz, p.max)
    ensures b != [] && c.size(b[0]) == p.csz && 3 * p.csz <= |b| && |c.enc(p.csz, p.max)| == p.csz
    ensures b == Svw.Put(b, 0, c.enc(p.csz, p.max))
    ensures PodOk(c, p.(es := [])) && c.ok(p.csz, 3 * p.csz) && c.ok(p.csz, 0)
  {
    var rest := PodHeader(c, b, 0, p);
    PodHead(c, b, p, rest);
    PutSame(b, c.enc(p.csz, p.max));
  }

  lemma PodHead(c: Code, b: seq<byte>, p: Pod, rest: seq<byte>)
    requires PodOk(c, p) && |p.es| <= UsedBytes(c, p)
    requires b == Header(c, p.csz, p.max, UsedBytes(c, p), |p.es|) + rest
    ensures |c.enc(p.csz, p.max)| == p.csz <= |b| && b[..p.csz] == c.enc(p.csz, p.max)
  {
    assert Encodes(c, p.csz, p.max) && Encodes(c, p.csz, UsedBytes(c, p)) && Encodes(c, p.csz, |p.es|);
    HeaderParts(c, p.csz, p.max, UsedBytes(c, p), |p.es|, rest);
  }

  lemma PutSame(b: seq<byte>, e: seq<byte>)
    requires |e| <= |b| && b[..|e|] == e
    ensures Svw.Put(b, 0, e) == b
  {
  }

  /** What fd_pod_reset writes: used and cnt at the width found for max. */
  function ResetBytes(rule: Svw.Rule, b: seq<byte>): seq<byte>
    requires b != [] && 3 * Svw.HeadSz(rule, b[0]) <= |b|
  {
    Svw.SizeTables(b[0]);
    var csz := Svw.HeadSz(rule, b[0]);
    Svw.Put(Svw.Put(b, csz, Svw.EncFixed(csz, 3 * csz)), 2 * csz, Svw.EncFixed(csz, 0))
  }

  lemma ResetFits(csz: nat)
    requires Svw.Width(csz)
    ensures 3 * csz < Svw.Cap(csz)
  {
  }

  lemma ResetEmpties(c: Code, b: seq<byte>, after: seq<byte>, p: Pod)
    requires PodAt(c, b, 0, p) && c.visible(p.csz, p.max) && 3 * p.csz <= |b|
    requires |c.enc(p.csz, 3 * p.csz)| == |c.enc(p.csz, 0)| == p.csz
    requires after == Svw.Put(Svw.Put(b, p.csz, c.enc(p.csz, 3 * p.csz)), 2 * p.csz, c.enc(p.csz, 0))
    ensures PodAt(c, after, 0, p.(es := [])) && after[3 * p.csz..] == b[3 * p.csz..]
  {
    PodFront(c, b, p);
    PutThree(b, p.csz, c.enc(p.csz, p.max), c.enc(p.csz, 3 * p.csz), c.enc(p.csz, 0));
    EmptyPod(c, after, p.(es := []), b[3 * p.csz..]);
  }

  lemma ResetVisible(rule: Svw.Rule, b: seq<byte>, p: Pod)
    requires PodAt(SvwCode(rule), b, 0, p) && SvwCode(rule).visible(p.csz, p.max)
    ensures b != [] && Svw.HeadSz(rule, b[0]) == p.csz && 3 * p.csz <= |b|
    ensures PodAt(SvwCode(rule), ResetBytes(rule, b), 0, p.(es := []))
    ensures ResetBytes(rule, b)[3 * p.csz..] == b[3 * p.csz..]
  {
    var c := SvwCode(rule);
    PodFront(c, b, p);
    ResetEmpties(c, b, ResetBytes(rule, b), p);
  }

  /** fd_pod_reset: used and cnt are overwritten at the width found for max. Where that is the
      width of max the result is the same pod with no entries, its bytes past the header as before. */
  method Reset(rule: Svw.Rule, pod: array?<byte>, ghost p: Pod) returns (r: array?<byte>)
    requires pod != null ==> pod.Length > 0 && 3 * Svw.HeadSz(rule, pod[0]) <= pod.Length
    modifies pod
    ensures r == pod
    ensures pod != null ==> pod[..] == ResetBytes(rule, old(pod[..]))
    ensures pod != null && PodAt(SvwCode(rule), old(pod[..]), 0, p) && SvwCode(rule).visible(p.csz, p.max) ==>
              PodAt(SvwCode(rule), pod[..], 0, p.(es := [])) && pod[3 * p.csz..] == old(pod[3 * p.csz..])
  {
    if pod == null { return null; }
    ghost var b := pod[..];
    Svw.SizeTables(pod[0]);
    var csz := Svw.HeadSz(rule, pod[0]);
    ResetFits(csz);
    EncodeAt(rule, pod, csz, csz, 3 * csz);
    EncodeAt(rule, pod, 2 * csz, csz, 0);
    if PodAt(SvwCode(rule), b, 0, p) && SvwCode(rule).visible(p.csz, p.max) {
      ResetVisible(rule, b, p);
    }
    return pod;
  }

  /** Under the lookup as written a reset can destroy a pod: with the max of half the two-byte
      numbers, 64 among them, it overwrites the second byte of max. */
  lemma ResetDestroys(csz: nat, max: ulong, b: seq<byte>, es: seq<Entry>)
    requires csz == Svw.EncSz(max) == 2 && max % 32 < 16
    requires PodAt(SvwCode(Svw.AsWritten), b, 0, Pod(csz, max, es))
    ensures b != [] && Svw.HeadSz(Svw.AsWritten, b[0]) == 1 && 3 <= |b|
    ensures forall fs :: !PodAt(SvwCode(Svw.AsWritten), ResetBytes(Svw.AsWritten, b), 0, Pod(csz, max, fs))
  {
    var c := SvwCode(Svw.AsWritten);
    PodStart(c, b, Pod(csz, max, es));
    var first := Svw.FirstByte(csz, max);
    Svw.SizeTables(first);
    Svw.SecondByte(csz, max);
    var six := UsedByte(Svw.HeadSz(Svw.AsWritten, b[0]));
    var after := ResetBytes(Svw.AsWritten, b);
    forall fs ensures !PodAt(c, after, 0, Pod(csz, max, fs)) {
      if PodAt(c, after, 0, Pod(csz, max, fs)) {
        PodStart(c, after, Pod(csz, max, fs));
      }
    }
  }

  lemma PodStart(c: Code, b: seq<byte>, p: Pod)
    requires PodAt(c, b, 0, p)
    ensures 3 * p.csz <= |b| && |c.enc(p.csz, p.max)| == p.csz >= 1
    ensures forall i :: 0 <= i < p.csz ==> b[i] == c.enc(p.csz, p.max)[i]
  {
    var rest := PodHeader(c, b, 0, p);
    PodHead(c, b, p, rest);
    assert forall i :: 0 <= i < p.csz ==> b[i] == b[..p.csz][i];
  }

  lemma UsedByte(f: nat) returns (x: byte)
    requires f == 1
    ensures x == Svw.EncFixed(f, 3 * f)[0] == 6
  {
    x := Svw.FirstByte(f, 3 * f);
  }

  // ----- 128-bit values

  type uint128 = x: int | 0 <= x < TWO64 * TWO64

  /** A 128-bit value is its low half followed by its high half. */
  function WideBytes(c: Code, lo: ulong, hi: ulong): seq<byte> {
    Default(c, lo) + Default(c, hi)
  }

  /** The encoding step of fd_pod_insert_uint128. */
  method PutWide(rule: Svw.Rule, b: array<byte>, off: nat, v: uint128) returns (next: nat)
    requires off + |WideBytes(SvwCode(rule), v % TWO64, v / TWO64)| <= b.Length
    modifies b
    ensures next == off + |WideBytes(SvwCode(rule), v % TWO64, v / TWO64)|
    ensures b[..] == Svw.Put(old(b[..]), off, WideBytes(SvwCode(rule), v % TWO64, v / TWO64))
    ensures WideBytes(SvwCode(rule), v % TWO64, v / TWO64) == Svw.Enc(v % TWO64) + Svw.Enc(v / TWO64)
  {
    var lo, hi := v % TWO64, v / TWO64;
    ghost var c := SvwCode(rule);
    DefaultIsEnc(rule, lo);
    DefaultIsEnc(rule, hi);
    PutTwo(b[..], off, Default(c, lo), Default(c, hi));
    next := Svw.SvwEnc(b, off, lo);
    next := Svw.SvwEnc(b, next, hi);
  }

  lemma DefaultIsEnc(rule: Svw.Rule, x: ulong)
    ensures Default(SvwCode(rule), x) == Svw.Enc(x) && |Svw.Enc(x)| == Svw.EncSz(x)
  {
  }

  lemma PutTwo(b: seq<byte>, off: nat, x: seq<byte>, y: seq<byte>)
    requires off + |x| + |y| <= |b|
    ensures Svw.Put(Svw.Put(b, off, x), off + |x|, y) == Svw.Put(b, off, x + y)
  {
  }

  /** The decoding step of fd_pod_query_uint128. */
  function GetWide(c: Code, b: seq<byte>): Option<uint128> {
    match SizeAt(c, b, 0)
    case None => None
    case Some(lo) =>
      match SizeAt(c, b, lo.width)
      case None => None
      case Some(hi) => Some(lo.value as int + TWO64 * hi.value)
  }

  lemma WideParts(c: Code, lo: ulong, hi: ulong, post: seq<byte>)
    requires Lawful(c)
    ensures GetWide(c, WideBytes(c, lo, hi) + post) == Some(lo as int + TWO64 * hi)
            <==> c.visible(c.sz(lo), lo) && c.visible(c.sz(hi), hi)
  {
    var n, m := c.sz(lo), c.sz(hi);
    DefaultEncodes(c, lo);
    DefaultEncodes(c, hi);
    var b := WideBytes(c, lo, hi) + post;
    assert b[0..n] == Default(c, lo) && b[n..n + m] == Default(c, hi);
    WideAt(c, b, lo, hi);
  }

  lemma WideAt(c: Code, b: seq<byte>, lo: ulong, hi: ulong)
    requires Lawful(c) && |Default(c, lo)| == c.sz(lo) && |Default(c, hi)| == c.sz(hi)
    requires c.sz(lo) + c.sz(hi) <= |b|
    requires b[0..c.sz(lo)] == Default(c, lo) && b[c.sz(lo)..c.sz(lo) + c.sz(hi)] == Default(c, hi)
    ensures GetWide(c, b) == Some(lo as int + TWO64 * hi) <==> c.visible(c.sz(lo), lo) && c.visible(c.sz(hi), hi)
  {
    SizeAtDefault(c, b, 0, lo);
    SizeAtDefault(c, b, c.sz(lo), hi);
  }

  /** A 128-bit value is read back exactly when the sizes of both its halves are visible. */
  lemma WideRoundTrip(c: Code, v: uint128, lo: ulong, hi: ulong, post: seq<byte>)
    requires Lawful(c) && lo == v % TWO64 && hi == v / TWO64
    ensures GetWide(c, WideBytes(c, lo, hi) + post) == Some(v) <==> c.visible(c.sz(lo), lo) && c.visible(c.sz(hi), hi)
  {
    WideParts(c, lo, hi, post);
  }

  /** A signed 128-bit value is zig-zag encoded, at the width w = 128, and then laid out. */
  lemma SignedWideRoundTrip(c: Code, x: int, w: nat, u: int, lo: ulong, hi: ulong, post: seq<byte>)
    requires Lawful(c) && Pow2(w) == TWO64 * TWO64 && ZigZag.Fits(x, w) && u == ZigZag.ZzEnc(x, w)
    requires lo == u % TWO64 && hi == u / TWO64
    ensures GetWide(c, WideBytes(c, lo, hi) + post) == Some(u) <==> c.visible(c.sz(lo), lo) && c.visible(c.sz(hi), hi)
    ensures ZigZag.ZzDec(u, w) == x
  {
    ZigZag.ZzEncIs(x, w);
    ZigZag.ZigZagRoundTrip(x, w);
    WideParts(c, lo, hi, post);
  }
}
