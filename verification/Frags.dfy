/** Fragment metadata, one cache line of an mcache, and the stores a publisher makes to it. */
module Frags {
  import opened Words

  datatype Field = SeqNo | Sig | Chunk | Sz | Ctl | TsOrig | TsPub

  const BODY: set<Field> := {Sig, Chunk, Sz, Ctl, TsOrig, TsPub}

  datatype Frag = Frag(seqNo: ulong, sig: ulong, chunk: ulong, sz: ulong, ctl: ulong, tsOrig: ulong, tsPub: ulong)

  function Get(f: Frag, x: Field): ulong {
    match x
    case SeqNo => f.seqNo
    case Sig => f.sig
    case Chunk => f.chunk
    case Sz => f.sz
    case Ctl => f.ctl
    case TsOrig => f.tsOrig
    case TsPub => f.tsPub
  }

  /** The fields in w taken from b, the others from a: one atomic access to the fields in w. */
  function Merge(a: Frag, b: Frag, w: set<Field>): (r: Frag)
    ensures forall x :: Get(r, x) == Get(if x in w then b else a, x)
  {
    Frag(if SeqNo in w then b.seqNo else a.seqNo,
         if Sig in w then b.sig else a.sig,
         if Chunk in w then b.chunk else a.chunk,
         if Sz in w then b.sz else a.sz,
         if Ctl in w then b.ctl else a.ctl,
         if TsOrig in w then b.tsOrig else a.tsOrig,
         if TsPub in w then b.tsPub else a.tsPub)
  }

  ghost predicate AgreeOn(a: Frag, b: Frag, w: set<Field>) {
    forall x :: x in w ==> Get(a, x) == Get(b, x)
  }

  lemma AgreeOnAll(a: Frag, b: Frag)
    requires AgreeOn(a, b, BODY) && a.seqNo == b.seqNo
    ensures a == b
  {
    assert Get(a, Sig) == Get(b, Sig) && Get(a, Chunk) == Get(b, Chunk) && Get(a, Sz) == Get(b, Sz);
    assert Get(a, Ctl) == Get(b, Ctl) && Get(a, TsOrig) == Get(b, TsOrig) && Get(a, TsPub) == Get(b, TsPub);
  }

  /** The metadata fd_mcache_publish stores for its arguments: the narrow fields truncate. */
  function Meta(s: ulong, sig: ulong, chunk: ulong, sz: ulong, ctl: ulong, tsOrig: ulong, tsPub: ulong): Frag {
    Frag(s, sig, chunk % 0x1_0000_0000, sz % 0x1_0000, ctl % 0x1_0000, tsOrig % 0x1_0000_0000, tsPub % 0x1_0000_0000)
  }

  /** A field of the given number of values holds an argument: exactly when it is in range, and
      otherwise its remainder. */
  predicate Holds(field: ulong, arg: ulong, values: nat)
    requires values > 0
  {
    field < values && field == arg % values && (arg < values ==> field == arg)
  }

  /** Each field of a fragment holds its own argument. */
  predicate Carries(f: Frag, s: ulong, sig: ulong, chunk: ulong, sz: ulong, ctl: ulong, tsOrig: ulong, tsPub: ulong) {
    && f.seqNo == s && f.sig == sig
    && Holds(f.chunk, chunk, 0x1_0000_0000) && Holds(f.sz, sz, 0x1_0000) && Holds(f.ctl, ctl, 0x1_0000)
    && Holds(f.tsOrig, tsOrig, 0x1_0000_0000) && Holds(f.tsPub, tsPub, 0x1_0000_0000)
  }

  lemma MetaCarries(s: ulong, sig: ulong, chunk: ulong, sz: ulong, ctl: ulong, tsOrig: ulong, tsPub: ulong)
    ensures Carries(Meta(s, sig, chunk, sz, ctl, tsOrig, tsPub), s, sig, chunk, sz, ctl, tsOrig, tsPub)
  {
  }

  /** A cache line. num is the unbounded number whose 64-bit value the sequence field holds. */
  datatype Line = Line(frag: Frag, num: int)

  /** The first store of publishing f as number n: mark the line as being written. The SSE
      form stores some body fields in the same access. */
  function BeginLine(l: Line, f: Frag, n: int, w: set<Field>): Line {
    Line(Merge(l.frag, f.(seqNo := Wrap(n - 1)), w + {SeqNo}), n - 1)
  }

  /** A store to some of the body fields. */
  function WriteLine(l: Line, f: Frag, w: set<Field>): Line {
    l.(frag := Merge(l.frag, f, w))
  }

  /** The last store: the line now holds number n. */
  function EndLine(l: Line, n: int): Line {
    Line(l.frag.(seqNo := Wrap(n)), n)
  }
}
