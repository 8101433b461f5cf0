/** An mcache in memory: fd_mcache_publish, fd_mcache_publish_sse and fd_mcache_query, as a
    producer with nobody else running sees them. The class keeps the sliding window of Link. */
module Mcaches {
  import opened Words
  import opened LineIndex
  import opened Frags
  import L = Link

  /** A whole publish, from the first store to the last, adds one fragment to the log. */
  lemma PublishSteps(c: L.Cfg, s: L.State, f: Frag, w: set<Field>)
    requires L.ProducerInv(c, s) && s.writer.Idle? && f.seqNo == Wrap(L.Next(c, s)) && w <= BODY
    ensures c.idx(L.Next(c, s)) < c.depth
    ensures L.Enabled(c, s, L.Begin(f, w))
    ensures var b := L.Apply(c, s, L.Begin(f, w));
            && L.Shaped(c, b) && L.Enabled(c, b, L.Write(BODY - w))
            && var d := L.Apply(c, b, L.Write(BODY - w));
            && L.Shaped(c, d) && L.Enabled(c, d, L.Finish)
            && L.Apply(c, d, L.Finish) == Published(c, s, f)
    ensures L.ProducerInv(c, Published(c, s, f))
  {
    var n := L.Next(c, s);
    assert L.SharesLine(c, n, n);
    L.ProducerKeeps(c, s, L.Begin(f, w));
    var b := L.Apply(c, s, L.Begin(f, w));
    L.ProducerKeeps(c, b, L.Write(BODY - w));
    var d := L.Apply(c, b, L.Write(BODY - w));
    assert w + (BODY - w) == BODY;
    L.ProducerKeeps(c, d, L.Finish);
    assert L.LineOk(c, d, n);
    AgreeOnAll(EndLine(L.LineOf(c, d.lines, n), n).frag, f);
    assert L.Apply(c, d, L.Finish).lines == Published(c, s, f).lines;
  }

  /** The state after publishing f. */
  ghost function Published(c: L.Cfg, s: L.State, f: Frag): L.State
    requires L.Shaped(c, s)
  {
    var n := L.Next(c, s);
    assert L.SharesLine(c, n, n);
    L.State(s.lines[c.idx(n) := Line(f, n)], s.log + [f], L.Idle, s.rx)
  }

  class Mcache {
    const depth: ulong
    const lg: nat
    const seq0: ulong
    const mcache: array<Frag>
    /** History: the lines with the numbers behind their sequence fields, and the fragments
        published so far. */
    ghost var lines: seq<Line>
    ghost var log: seq<Frag>

    ghost function Cfg(): L.Cfg
      requires Geometry(depth, lg)
    {
      L.MCacheCfg(depth, lg, seq0)
    }

    ghost function Abs(): L.State
      reads this
    {
      L.State(lines, log, L.Idle, [])
    }

    ghost predicate Valid()
      reads this, mcache
    {
      && Geometry(depth, lg) && mcache.Length == depth == |lines|
      && (forall j :: 0 <= j < mcache.Length ==> mcache[j] == lines[j].frag)
      && L.ProducerInv(Cfg(), Abs())
    }

    /** A new mcache, as fd_mcache_new documents it: nothing can be found in it yet. */
    constructor (depth: ulong, lg: nat, seq0: ulong)
      requires Geometry(depth, lg)
      ensures Valid() && log == [] && this.depth == depth && this.lg == lg && this.seq0 == seq0
      ensures L.Init(Cfg(), Abs()) && fresh(mcache)
    {
      this.depth, this.lg, this.seq0, this.log := depth, lg, seq0, [];
      var blank := Frag(0, 0, 0, 0, 0, 0, 0);
      mcache := new Frag[depth](_ => blank);
      lines := seq(depth, _ => Line(blank, 0));
      new;
      ghost var c := Cfg();
      L.MCacheCfgOk(depth, lg, seq0);
      for k := 0 to depth
        invariant mcache.Length == depth == |lines| && log == [] && fresh(mcache)
        invariant forall j :: 0 <= j < mcache.Length ==> mcache[j] == lines[j].frag
        invariant forall p :: seq0 <= p < seq0 + k ==> L.InitialLine(c, L.LineOf(c, lines, p), p)
      {
        var q := seq0 + k;
        assert L.SharesLine(c, q, q);
        var i := LineIdx(Wrap(q), depth, lg);
        ghost var before := lines;
        mcache[i] := blank.(seqNo := Wrap(q - 1));
        lines := lines[i := Line(blank.(seqNo := Wrap(q - 1)), q - 1)];
        forall p | seq0 <= p < seq0 + k + 1
          ensures L.InitialLine(c, L.LineOf(c, lines, p), p)
        {
          assert L.SharesLine(c, p, q);
          if p < q {
            L.NotCongruent(p, q, depth);
            assert L.InitialLine(c, L.LineOf(c, before, p), p);
          }
        }
      }
      L.InitInv(c, Abs());
    }

    /** The sequence number to publish next. */
    ghost function Next(): int
      reads this
    {
      seq0 + |log|
    }

    /** fd_mcache_publish, in sequence. */
    method Publish(s: ulong, sig: ulong, chunk: ulong, sz: ulong, ctl: ulong, tsOrig: ulong, tsPub: ulong)
      requires Valid() && s == Wrap(Next())
      modifies this, mcache
      ensures Valid() && log == old(log) + [Meta(s, sig, chunk, sz, ctl, tsOrig, tsPub)]
      ensures Carries(log[|old(log)|], s, sig, chunk, sz, ctl, tsOrig, tsPub)
    {
      ghost var c, a, n, f := Cfg(), Abs(), Next(), Meta(s, sig, chunk, sz, ctl, tsOrig, tsPub);
      PublishSteps(c, a, f, {});
      assert L.SharesLine(c, n, n);
      var i := LineIdx(s, depth, lg);
      assert i == c.idx(n);
      mcache[i] := mcache[i].(seqNo := Wrap(s - 1));
      mcache[i] := mcache[i].(sig := sig);
      mcache[i] := mcache[i].(chunk := chunk % 0x1_0000_0000);
      mcache[i] := mcache[i].(sz := sz % 0x1_0000);
      mcache[i] := mcache[i].(ctl := ctl % 0x1_0000);
      mcache[i] := mcache[i].(tsOrig := tsOrig % 0x1_0000_0000);
      mcache[i] := mcache[i].(tsPub := tsPub % 0x1_0000_0000);
      mcache[i] := mcache[i].(seqNo := s);
      lines := lines[i := Line(f, n)];
      log := log + [f];
      assert Abs() == Published(c, a, f);
      MetaCarries(s, sig, chunk, sz, ctl, tsOrig, tsPub);
    }

    /** fd_mcache_publish_sse, in sequence: two 16-byte stores, then the sequence field. */
    method PublishSse(s: ulong, sig: ulong, chunk: ulong, sz: ulong, ctl: ulong, tsOrig: ulong, tsPub: ulong)
      requires Valid() && s == Wrap(Next())
      modifies this, mcache
      ensures Valid() && log == old(log) + [Meta(s, sig, chunk, sz, ctl, tsOrig, tsPub)]
      ensures Carries(log[|old(log)|], s, sig, chunk, sz, ctl, tsOrig, tsPub)
    {
      ghost var c, a, n, f := Cfg(), Abs(), Next(), Meta(s, sig, chunk, sz, ctl, tsOrig, tsPub);
      PublishSteps(c, a, f, {Sig});
      assert L.SharesLine(c, n, n);
      var i := LineIdx(s, depth, lg);
      assert i == c.idx(n);
      mcache[i] := mcache[i].(seqNo := Wrap(s - 1), sig := sig);
      mcache[i] := mcache[i].(chunk := chunk % 0x1_0000_0000, sz := sz % 0x1_0000, ctl := ctl % 0x1_0000,
                              tsOrig := tsOrig % 0x1_0000_0000, tsPub := tsPub % 0x1_0000_0000);
      mcache[i] := mcache[i].(seqNo := s);
      lines := lines[i := Line(f, n)];
      log := log + [f];
      assert Abs() == Published(c, a, f);
      MetaCarries(s, sig, chunk, sz, ctl, tsOrig, tsPub);
    }

    /** fd_mcache_query. */
    method Query(s: ulong, ghost q: int) returns (found: ulong)
      requires Valid() && s == Wrap(q)
      requires -TWO63 + depth <= Next() - q <= TWO63 - depth
      ensures found == s <==> Next() - depth <= q < Next() && seq0 <= q
      ensures SeqDiff(found, s) < 0 <==> q >= Next()
      ensures SeqDiff(found, s) > 0 <==> q < Next() - depth || q < seq0
    {
      L.QueryWindow(Cfg(), Abs(), q);
      assert L.SharesLine(Cfg(), q, q);
      var i := LineIdx(s, depth, lg);
      found := mcache[i].seqNo;
    }
  }
}
