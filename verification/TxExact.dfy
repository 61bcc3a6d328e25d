/**
 * Exactly when the uplink round trip is lossless: the receiver gives back what was submitted if and only
 * if every packet is one it accepts and it does not expect downlink padding that the encoder never adds.
 */
module TxExact {
  import opened Bytes
  import opened QmapFrame
  import opened PullLoop
  import opened QmapDecode
  import opened TxMachine

  ghost predicate NonEmpty(xs: seq<Sent>) {
    forall i :: 0 <= i < |xs| ==> |xs[i].payload| > 0
  }

  /** The channel is registered with the receiver and the payload has a 16-bit length. */
  ghost predicate Known(c: Channel, cfg: Config) {
    c.chan < cfg.mode <= |cfg.slots| && cfg.slots[c.chan].Some?
  }

  ghost predicate Bounded(xs: seq<Sent>) {
    forall i :: 0 <= i < |xs| ==> 0 < |xs[i].payload| < 0x1_0000
  }

  /** What the receiver makes of one packet if it takes it at all. */
  ghost predicate CameAs(cfg: Config, x: Sent, p: Packet) {
    && |x.payload| > 0 && x.payload[0] / 16 in {4, 6}
    && |x.payload| + PadFor(|x.payload|, |x.tail|) < 0x1_0000
    && cfg.dlPad <= |x.payload| && |p.payload| == |x.payload| - cfg.dlPad
  }

  // One frame ----------------------------------------------------------------------------------

  /** The frame of a packet is rejected or taken, never skipped. */
  lemma FrameTakenOrRefused(c: Channel, cfg: Config, stale: byte, x: Sent, more: seq<byte>)
    requires c.Valid() && cfg.Valid() && Known(c, cfg) && 0 < |x.payload| < 0x1_0000
    ensures var st := Rounds(cfg, stale)(c.Wire(x) + more);
      st.Leave? || (st.Move? && st.n == |c.Wire(x)| && st.out.Some? && CameAs(cfg, x, st.out.value))
  {
    var f := c.FrameOf(x);
    if |f.body| < 0x1_0000 {
      assert Clean(f);
      RoundIsJudge(cfg, stale, f, more);
      assert f.body[0] == f.body[..|x.payload|][0] == x.payload[0];
    } else {
      LongFrameRefused(c, cfg, stale, x, more);
    }
  }

  /** Padding can push the length past 16 bits; the frame then claims to be shorter than its padding. */
  lemma LongFrameRefused(c: Channel, cfg: Config, stale: byte, x: Sent, more: seq<byte>)
    requires c.Valid() && cfg.Valid() && Known(c, cfg) && |x.payload| < 0x1_0000 <= |c.FrameOf(x).body|
    ensures Rounds(cfg, stale)(c.Wire(x) + more) == Leave(Aborted)
  {
    var f := c.FrameOf(x);
    var w, s := f.Wire(), f.Wire() + more;
    assert f.pad > 0 && |f.body| == 0x1_0000;
    WireBytes(f);
    assert s[0] == w[0] && s[1] == w[1] && s[2] == w[2] && s[3] == w[3];
    assert ReadHeader(s) == ReadHeader(w) == Header(false, f.HeaderLen(), f.pad, MUX_ID_BASE + c.chan, 0);
  }

  // One buffer ---------------------------------------------------------------------------------

  /** The packets of a buffer are those of the frames before the first refused one. */
  ghost predicate PrefixCame(cfg: Config, xs: seq<Sent>, ps: seq<Packet>) {
    |ps| <= |xs| && forall i :: 0 <= i < |ps| ==> CameAs(cfg, xs[i], ps[i])
  }

  lemma {:induction false} BatchPrefix(c: Channel, cfg: Config, stale: byte, xs: seq<Sent>)
    requires c.Valid() && cfg.Valid() && Known(c, cfg) && Bounded(xs)
    ensures PrefixCame(cfg, xs, Decode(cfg, stale, c.Wires(xs)).pkts)
  {
    var r := Rounds(cfg, stale);
    if xs == [] {
      assert r([]) == Leave(Drained);
    } else {
      var w, more := c.Wire(xs[0]), c.Wires(xs[1..]);
      FrameTakenOrRefused(c, cfg, stale, xs[0], more);
      BatchPrefix(c, cfg, stale, xs[1..]);
      var st := r(w + more);
      if st.Move? {
        LoopFront(r, w, more);
        PrefixCons(cfg, xs, st.out.value, Decode(cfg, stale, more).pkts);
      }
    }
  }

  lemma PrefixCons(cfg: Config, xs: seq<Sent>, p: Packet, ps: seq<Packet>)
    requires xs != [] && CameAs(cfg, xs[0], p) && PrefixCame(cfg, xs[1..], ps)
    ensures PrefixCame(cfg, xs, [p] + ps)
  {
    forall i | 0 <= i < |[p] + ps| ensures CameAs(cfg, xs[i], ([p] + ps)[i]) {
      if i > 0 {
        assert CameAs(cfg, xs[1..][i - 1], ps[i - 1]);
      }
    }
  }

  // All buffers --------------------------------------------------------------------------------

  /** No more packets come than were sent, and if as many come, each comes as its own. */
  ghost predicate AllCame(cfg: Config, xs: seq<Sent>, ps: seq<Packet>) {
    |ps| <= |xs| && (|ps| == |xs| ==> forall i :: 0 <= i < |ps| ==> CameAs(cfg, xs[i], ps[i]))
  }

  lemma AllCameAppend(cfg: Config, a: seq<Sent>, ps: seq<Packet>, b: seq<Sent>, qs: seq<Packet>)
    requires AllCame(cfg, a, ps) && AllCame(cfg, b, qs)
    ensures AllCame(cfg, a + b, ps + qs)
  {
    if |ps + qs| == |a + b| {
      forall i | 0 <= i < |ps + qs| ensures CameAs(cfg, (a + b)[i], (ps + qs)[i]) {
        if i < |a| {
          assert CameAs(cfg, a[i], ps[i]);
        } else {
          assert CameAs(cfg, b[i - |a|], qs[i - |a|]);
        }
      }
    }
  }

  lemma {:induction false} BusCame(c: Channel, cfg: Config, stale: byte, bus: seq<seq<byte>>, batches: seq<seq<Sent>>)
    requires c.Valid() && cfg.Valid() && Known(c, cfg) && Carries(c, bus, batches) && Bounded(Flatten(batches))
    ensures AllCame(cfg, Flatten(batches), DecodeEach(cfg, stale, bus))
  {
    if bus == [] {
    } else {
      var first, others := batches[0], Flatten(batches[1..]);
      BoundedParts(first, others);
      BatchPrefix(c, cfg, stale, first);
      BusCame(c, cfg, stale, bus[1..], batches[1..]);
      AllCameAppend(cfg, first, Decode(cfg, stale, bus[0]).pkts, others, DecodeEach(cfg, stale, bus[1..]));
    }
  }

  lemma BoundedParts(a: seq<Sent>, b: seq<Sent>)
    requires Bounded(a + b)
    ensures Bounded(a) && Bounded(b)
  {
    forall i | 0 <= i < |a| ensures 0 < |a[i].payload| < 0x1_0000 {
      assert (a + b)[i] == a[i];
    }
    forall i | 0 <= i < |b| ensures 0 < |b[i].payload| < 0x1_0000 {
      assert (a + b)[|a| + i] == b[i];
    }
  }

  /** Whatever is decoded names a registered channel and fits its MTU. */
  ghost predicate Accepted(cfg: Config, p: Packet) {
    p.chan < cfg.mode <= |cfg.slots| && cfg.slots[p.chan].Some? && |p.payload| <= cfg.slots[p.chan].value
  }

  lemma {:induction false} DecodedAccepted(cfg: Config, stale: byte, bufs: seq<seq<byte>>)
    requires cfg.Valid()
    ensures forall i :: 0 <= i < |DecodeEach(cfg, stale, bufs)| ==> Accepted(cfg, DecodeEach(cfg, stale, bufs)[i])
  {
    if bufs == [] {
    } else {
      DecodeSound(cfg, stale, bufs[0]);
      var at, ps := Starts(Rounds(cfg, stale), bufs[0], 0), Decode(cfg, stale, bufs[0]).pkts;
      forall i | 0 <= i < |ps| ensures Accepted(cfg, ps[i]) {
        assert CutFrom(cfg, bufs[0], at[i], ps[i]);
      }
      DecodedAccepted(cfg, stale, bufs[1..]);
    }
  }

  lemma {:induction false} PacketsAt(c: Channel, xs: seq<Sent>, i: nat)
    requires NonEmpty(xs) && i < |xs|
    ensures |Packets(c, xs)| == |xs| && Packets(c, xs)[i] == AsPacket(c.chan, xs[i].payload)
  {
    if |xs| == 1 {
    } else {
      PacketsAt(c, xs[1..], if i == 0 then 0 else i - 1);
    }
  }

  // The exact condition ------------------------------------------------------------------------

  /** Every packet is one the receiver accepts, and no downlink padding is expected of any. */
  ghost predicate Lossless(c: Channel, cfg: Config, xs: seq<Sent>) {
    AllSendable(c, cfg, xs) && (cfg.dlPad == 0 || xs == [])
  }

  lemma BusIff(c: Channel, cfg: Config, stale: byte, bus: seq<seq<byte>>, batches: seq<seq<Sent>>)
    requires c.Valid() && cfg.Valid() && Carries(c, bus, batches) && NonEmpty(Flatten(batches))
    ensures DecodeEach(cfg, stale, bus) == Packets(c, Flatten(batches)) <==> Lossless(c, cfg, Flatten(batches))
  {
    var xs := Flatten(batches);
    if Lossless(c, cfg, xs) {
      if xs == [] {
        NothingComes(cfg, stale, c, bus, batches);
      } else {
        DecodeBus(c, cfg, stale, bus, batches);
      }
    } else if DecodeEach(cfg, stale, bus) == Packets(c, xs) {
      ReturnedAreSendable(c, cfg, stale, bus, batches);
    }
  }

  lemma {:induction false} NothingComes(cfg: Config, stale: byte, c: Channel, bus: seq<seq<byte>>,
                                        batches: seq<seq<Sent>>)
    requires c.Valid() && cfg.Valid() && Carries(c, bus, batches) && Flatten(batches) == []
    ensures DecodeEach(cfg, stale, bus) == []
  {
    if bus == [] {
    } else {
      assert batches[0] == [] && bus[0] == [];
      assert Rounds(cfg, stale)([]) == Leave(Drained);
      NothingComes(cfg, stale, c, bus[1..], batches[1..]);
    }
  }

  lemma ReturnedAreSendable(c: Channel, cfg: Config, stale: byte, bus: seq<seq<byte>>, batches: seq<seq<Sent>>)
    requires c.Valid() && cfg.Valid() && Carries(c, bus, batches) && NonEmpty(Flatten(batches))
    requires DecodeEach(cfg, stale, bus) == Packets(c, Flatten(batches))
    ensures Lossless(c, cfg, Flatten(batches))
  {
    var xs, ps := Flatten(batches), DecodeEach(cfg, stale, bus);
    DecodedAccepted(cfg, stale, bus);
    forall i | 0 <= i < |xs| ensures Known(c, cfg) && |xs[i].payload| <= cfg.slots[c.chan].value {
      PacketsAt(c, xs, i);
      assert Accepted(cfg, ps[i]);
    }
    if xs != [] {
      BusCame(c, cfg, stale, bus, batches);
      forall i | 0 <= i < |xs| ensures Sendable(cfg, c.chan, xs[i].payload, xs[i].tail) && cfg.dlPad == 0 {
        PacketsAt(c, xs, i);
        assert CameAs(cfg, xs[i], ps[i]);
      }
      assert Sendable(cfg, c.chan, xs[0].payload, xs[0].tail);
    }
  }

  /**
   * For every reachable state, every receiver and all packets that are not empty: decoding the
   * detached buffers, the held one and the packet in hand gives back exactly what was submitted if and
   * only if the receiver accepts every packet and expects no downlink padding.
   */
  lemma EndToEndIff(c: Channel, cfg: Config, stale: byte, s: State)
    requires c.Valid() && cfg.Valid() && Reachable(c, s) && NonEmpty(s.sent)
    ensures DecodeEach(cfg, stale, s.bus) + Decode(cfg, stale, s.priv.Bytes()).pkts
              + DecodeEach(cfg, stale, HandBuffers(c, s)) == Packets(c, s.sent)
       <==> Lossless(c, cfg, s.sent)
  {
    ReachableInv(c, s);
    var bufs := s.bus + [s.priv.Bytes()] + HandBuffers(c, s);
    var batches := s.batches + [s.held] + (if s.sub.Looping? then [[s.sub.x]] else []);
    AllCarried(c, s);
    DecodeEachAppend(cfg, stale, s.bus + [s.priv.Bytes()], HandBuffers(c, s));
    DecodeEachAppend(cfg, stale, s.bus, [s.priv.Bytes()]);
    DecodeEachOne(cfg, stale, s.priv.Bytes());
    BusIff(c, cfg, stale, bufs, batches);
  }

  /** All buffers with what they carry, up to the packet in hand. */
  lemma AllCarried(c: Channel, s: State)
    requires c.Valid() && Inv(c, s)
    ensures var bufs := s.bus + [s.priv.Bytes()] + HandBuffers(c, s);
      var batches := s.batches + [s.held] + (if s.sub.Looping? then [[s.sub.x]] else []);
      Carries(c, bufs, batches) && Flatten(batches) == s.sent
  {
    FlattenSnoc(s.batches, s.held);
    if s.sub.Looping? {
      WiresOne(c, s.sub.x);
      FlattenSnoc(s.batches + [s.held], [s.sub.x]);
    } else {
      Units(s.batches + [s.held]);
      Units(Flatten(s.batches) + s.held);
    }
  }
}
