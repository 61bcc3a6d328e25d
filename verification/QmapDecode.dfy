/** The downlink decoder of the Quectel driver and what it means on a stream of frames. */
module QmapDecode {
  import opened Bytes
  import opened QmapFrame
  import opened PullLoop

  /** A decoded packet: the channel index, the protocol and the network-layer bytes. */
  datatype Packet = Packet(chan: nat, ipv6: bool, payload: seq<byte>)

  /**
   * The receiving device: `slots[i]` is the MTU of channel `i`, or `None` while that channel has no
   * network device. `dlPad` is the negotiated minimum downlink padding (zero for version 1).
   */
  datatype Config = Config(mode: nat, slots: seq<Option<nat>>, dlPad: nat)
  {
    ghost predicate Valid() {
      && mode <= |slots| <= MAX_CHANNELS
      && dlPad < 0x8000_0000
      && forall i :: 0 <= i < |slots| && slots[i].Some? ==> slots[i].value <= 0xFFFF
    }

    ghost predicate AllRegistered() {
      mode <= |slots| && forall i :: 0 <= i < mode ==> slots[i].Some?
    }
  }

  // One header ---------------------------------------------------------------------------------

  /** The fields of the header at the front of the input. */
  datatype Header = Header(cd: bool, len: nat, pad: nat, mux: byte, pktLen: nat)

  function ReadHeader(s: seq<byte>): Header
    requires |s| >= HEADER_LEN
  {
    Header(s[0] / 128 == 1,
           if s[0] / 64 % 2 == 1 then HEADER_LEN + CSUM_HEADER_LEN else HEADER_LEN,
           s[0] % 64, s[1], (s[2] as int) * 256 + s[3])
  }

  // One round of the loop ----------------------------------------------------------------------

  /**
   * What the header alone decides: leave, skip the frame, or go on and look at the payload, whose
   * length is then `len`. Channel and length are compared as unsigned numbers, so a channel id
   * below 0x81 and a pad count above the packet length both leave.
   */
  datatype Admission = Refuse | Skip | Admit(chan: nat, len: nat)

  function Admitted(cfg: Config, h: Header, avail: nat): (a: Admission)
    requires cfg.Valid()
  {
    var skbLen := U32(h.pktLen - h.pad - cfg.dlPad);
    var chan := U32(h.mux as int - MUX_ID_BASE as int);
    if chan >= cfg.mode then Refuse
    else if cfg.slots[chan].None? then Skip
    else if skbLen > cfg.slots[chan].value then Refuse
    else if avail < h.pktLen + h.len then Refuse
    else if h.cd then Skip
    else Admit(chan, skbLen)
  }

  lemma AdmittedMeaning(cfg: Config, h: Header, avail: nat)
    requires cfg.Valid() && h.pad < 64 && h.pktLen < 0x1_0000
    ensures var a := Admitted(cfg, h, avail);
      && (a.Admit? ==>
           && h.mux == MUX_ID_BASE + a.chan && a.chan < cfg.mode
           && cfg.slots[a.chan].Some? && a.len <= cfg.slots[a.chan].value
           && a.len + h.pad + cfg.dlPad == h.pktLen
           && h.pktLen + h.len <= avail && !h.cd)
      && (a.Skip? && avail < h.pktLen + h.len ==>
           MUX_ID_BASE <= h.mux < MUX_ID_BASE + cfg.mode && cfg.slots[h.mux - MUX_ID_BASE].None?)
  {
  }

  /**
   * The loop body on the unread input `s`. `stale` is the memory byte just after the input; it is
   * looked at only for an empty 8-byte-header frame that ends the input.
   */
  function Round(cfg: Config, stale: byte, s: seq<byte>): Step<Packet>
    requires cfg.Valid()
  {
    if |s| <= HEADER_LEN then Leave(Drained)
    else
      var h := ReadHeader(s);
      match Admitted(cfg, h, |s|)
      case Refuse => Leave(Aborted)
      case Skip => Move(h.pktLen + h.len, None)
      case Admit(chan, len) =>
        var nibble := (if h.len < |s| then s[h.len] else stale) / 16;
        AdmittedMeaning(cfg, h, |s|);
        if nibble == 4 || nibble == 6 then
          Move(h.pktLen + h.len, Some(Packet(chan, nibble == 6, s[h.len..h.len + len])))
        else Leave(Aborted)
  }

  function Rounds(cfg: Config, stale: byte): seq<byte> -> Step<Packet>
    requires cfg.Valid()
  {
    s => Round(cfg, stale, s)
  }

  /** The packets the driver's loop decodes from `s`, and how it ends. */
  function Decode(cfg: Config, stale: byte, s: seq<byte>): Decoded<Packet>
    requires cfg.Valid()
  {
    Loop(Rounds(cfg, stale), s)
  }

  /**
   * The driver's loop, with the packets queued on a chain. `allocs` is how many packet buffers the
   * kernel can still hand out; the first refusal abandons the rest of the input.
   */
  method PacketDecode(cfg: Config, stale: byte, skbIn: seq<byte>, allocs: nat)
    returns (chain: seq<Packet>)
    requires cfg.Valid()
    requires !ReachesStuck(Rounds(cfg, stale), skbIn)
    ensures var pkts := Decode(cfg, stale, skbIn).pkts;
      chain == pkts[..Min(allocs, |pkts|)]
  {
    chain := Run(Rounds(cfg, stale), skbIn, allocs);
  }

  // Termination --------------------------------------------------------------------------------

  /** A frame on which the loop makes no progress: it names an empty slot and is cut short. */
  ghost predicate Stuck(cfg: Config, s: seq<byte>) {
    && |s| > HEADER_LEN
    && var h := ReadHeader(s);
       && MUX_ID_BASE <= h.mux < MUX_ID_BASE + cfg.mode
       && cfg.mode <= |cfg.slots| && cfg.slots[h.mux - MUX_ID_BASE].None?
       && |s| < h.pktLen + h.len
  }

  lemma StuckIff(cfg: Config, stale: byte, s: seq<byte>)
    requires cfg.Valid()
    ensures var st := Rounds(cfg, stale)(s);
      Stuck(cfg, s) <==> st.Move? && !Progress(st, s)
  {
    if |s| > HEADER_LEN {
      AdmittedMeaning(cfg, ReadHeader(s), |s|);
    }
  }

  /** The inputs reached by pulling whole frames include a truncated frame for an empty slot. */
  ghost predicate Truncated(cfg: Config, stale: byte, s: seq<byte>)
    requires cfg.Valid()
    decreases |s|
  {
    var st := Round(cfg, stale, s);
    Stuck(cfg, s) || (Progress(st, s) && Truncated(cfg, stale, s[st.n..]))
  }

  /**
   * The decoder's loop ends exactly when it never gets to a truncated frame for an empty slot. On
   * such a frame the pull does nothing and the same round repeats for ever.
   */
  lemma DecodeTerminatesIff(cfg: Config, stale: byte, s: seq<byte>)
    requires cfg.Valid()
    ensures (exists n: nat :: After(Rounds(cfg, stale), s, n) == None) <==> !Truncated(cfg, stale, s)
    ensures Decode(cfg, stale, s).fate.Spinning? <==> Truncated(cfg, stale, s)
  {
    TruncatedIsStuck(cfg, stale, s);
    TerminatesIff(Rounds(cfg, stale), s);
    SpinningIff(Rounds(cfg, stale), s);
  }

  lemma {:induction false} TruncatedIsStuck(cfg: Config, stale: byte, s: seq<byte>)
    requires cfg.Valid()
    ensures Truncated(cfg, stale, s) <==> ReachesStuck(Rounds(cfg, stale), s)
    decreases |s|
  {
    StuckIff(cfg, stale, s);
    var st := Round(cfg, stale, s);
    assert st == Rounds(cfg, stale)(s);
    if !Progress(st, s) {
    } else {
      TruncatedIsStuck(cfg, stale, s[st.n..]);
    }
  }

  /** With every slot below `mode` registered the loop ends on every input. */
  lemma {:induction false} RegisteredTerminates(cfg: Config, stale: byte, s: seq<byte>)
    requires cfg.Valid() && cfg.AllRegistered()
    ensures !Truncated(cfg, stale, s)
    decreases |s|
  {
    var st := Round(cfg, stale, s);
    if !Progress(st, s) {
    } else {
      RegisteredTerminates(cfg, stale, s[st.n..]);
    }
  }

  /** Five bytes that keep the loop spinning on a device whose only channel is not registered. */
  lemma SpinExample(stale: byte)
    ensures Truncated(Config(1, [None], 0), stale, [0, 0x81, 0, 9, 0])
  {
    assert Stuck(Config(1, [None], 0), [0, 0x81, 0, 9, 0]);
  }

  // Soundness on arbitrary input ---------------------------------------------------------------

  /** Packet `p` is cut out of the frame that starts at `at`, inside that frame and the input. */
  ghost predicate CutFrom(cfg: Config, s: seq<byte>, at: nat, p: Packet) {
    && at + HEADER_LEN < |s|
    && var h := ReadHeader(s[at..]);
       && at + h.len + h.pktLen <= |s|
       && |p.payload| + h.pad + cfg.dlPad == h.pktLen
       && p.payload == s[at + h.len..at + h.len + |p.payload|]
       && h.mux == MUX_ID_BASE + p.chan && !h.cd
       && p.chan < cfg.mode <= |cfg.slots|
       && cfg.slots[p.chan].Some? && |p.payload| <= cfg.slots[p.chan].value
  }

  /**
   * Every delivered packet is a slice of the input inside its own frame, with the padding cut off;
   * the frames are distinct and in input order; the channel is the one the frame names.
   */
  lemma DecodeSound(cfg: Config, stale: byte, s: seq<byte>)
    requires cfg.Valid()
    ensures var at, ps := Starts(Rounds(cfg, stale), s, 0), Decode(cfg, stale, s).pkts;
      && |at| == |ps|
      && (forall i :: 0 <= i < |at| ==> CutFrom(cfg, s, at[i], ps[i]))
      && (forall i, j :: 0 <= i < j < |at| ==>
            at[i] + ReadHeader(s[at[i]..]).len + ReadHeader(s[at[i]..]).pktLen <= at[j])
  {
    var r := Rounds(cfg, stale);
    assert s[0..] == s;
    LoopIsLined(r, s, 0);
    var at, ps := Starts(r, s, 0), Decode(cfg, stale, s).pkts;
    forall i | 0 <= i < |at|
      ensures CutFrom(cfg, s, at[i], ps[i])
      ensures r(s[at[i]..]).n == ReadHeader(s[at[i]..]).len + ReadHeader(s[at[i]..]).pktLen
    {
      assert EmittedAt(r, s, at[i], ps[i]);
      CutHere(cfg, stale, s, at[i], ps[i]);
    }
  }

  lemma CutHere(cfg: Config, stale: byte, w: seq<byte>, at: nat, p: Packet)
    requires cfg.Valid()
    requires EmittedAt(Rounds(cfg, stale), w, at, p)
    ensures CutFrom(cfg, w, at, p)
    ensures Rounds(cfg, stale)(w[at..]).n == ReadHeader(w[at..]).len + ReadHeader(w[at..]).pktLen
  {
    var f := w[at..];
    var h := ReadHeader(f);
    AdmittedMeaning(cfg, h, |f|);
    assert f[h.len..h.len + |p.payload|] == w[at + h.len..at + h.len + |p.payload|];
  }

  // What a stream of frames means --------------------------------------------------------------

  /** Judgement of one frame, read off the frame itself rather than off its bytes. */
  datatype Verdict = Reject | Ignore | Take(pkt: Packet)

  function Judge(cfg: Config, f: Frame): Verdict
    requires cfg.Valid() && |f.body| > 0
  {
    if !(MUX_ID_BASE <= f.mux < MUX_ID_BASE + cfg.mode) then Reject
    else
      var chan := f.mux - MUX_ID_BASE;
      var len := |f.body| - f.pad - cfg.dlPad;
      var nibble := f.body[0] / 16;
      if cfg.slots[chan].None? then Ignore
      else if len < 0 || len > cfg.slots[chan].value then Reject
      else if f.cd then Ignore
      else if nibble != 4 && nibble != 6 then Reject
      else Take(Packet(chan, nibble == 6, f.body[..len]))
  }

  ghost predicate Clean(f: Frame) {
    f.WellFormed() && |f.body| > 0
  }

  ghost predicate AllClean(fs: seq<Frame>) {
    forall i :: 0 <= i < |fs| ==> Clean(fs[i])
  }

  /** The packets of the frames before the first rejected one. */
  function Taken(cfg: Config, fs: seq<Frame>): seq<Packet>
    requires cfg.Valid() && AllClean(fs)
  {
    if fs == [] then []
    else match Judge(cfg, fs[0])
      case Reject => []
      case Ignore => Taken(cfg, fs[1..])
      case Take(p) => [p] + Taken(cfg, fs[1..])
  }

  ghost predicate NoneRejected(cfg: Config, fs: seq<Frame>)
    requires cfg.Valid() && AllClean(fs)
  {
    fs == [] || (!Judge(cfg, fs[0]).Reject? && NoneRejected(cfg, fs[1..]))
  }

  /** The header fields of a printed frame read back as they were written. */
  lemma HeaderReadsBack(f: Frame, rest: seq<byte>)
    requires Clean(f)
    ensures var s := f.Wire() + rest;
      && |s| > HEADER_LEN
      && ReadHeader(s) == Header(f.cd, f.HeaderLen(), f.pad, f.mux, |f.body|)
      && |f.Wire()| == f.HeaderLen() + |f.body|
      && s[|f.Wire()|..] == rest
      && s[f.HeaderLen()..|f.Wire()|] == f.body
  {
    var s := f.Wire() + rest;
    var h := f.HeaderLen();
    assert s[0] == f.FlagByte() && s[1] == f.mux;
    assert s[2] == |f.body| / 256 && s[3] == |f.body| % 256;
    assert f.Wire()[h..] == f.body;
    assert s[h..|f.Wire()|] == f.body;
  }

  function AsStep(v: Verdict, n: nat): Step<Packet> {
    match v
    case Reject => Leave(Aborted)
    case Ignore => Move(n, None)
    case Take(p) => Move(n, Some(p))
  }

  lemma AdmissionIsJudge(cfg: Config, f: Frame, avail: nat)
    requires cfg.Valid() && Clean(f) && f.HeaderLen() + |f.body| <= avail
    ensures var a := Admitted(cfg, Header(f.cd, f.HeaderLen(), f.pad, f.mux, |f.body|), avail);
      match a
      case Refuse => Judge(cfg, f).Reject?
      case Skip => Judge(cfg, f).Ignore?
      case Admit(chan, len) =>
        && len <= |f.body|
        && Judge(cfg, f) ==
           if f.body[0] / 16 in {4, 6} then Take(Packet(chan, f.body[0] / 16 == 6, f.body[..len]))
           else Reject
  {
    AdmittedMeaning(cfg, Header(f.cd, f.HeaderLen(), f.pad, f.mux, |f.body|), avail);
  }

  lemma RoundIsJudge(cfg: Config, stale: byte, f: Frame, rest: seq<byte>)
    requires cfg.Valid() && Clean(f)
    ensures Rounds(cfg, stale)(f.Wire() + rest) == AsStep(Judge(cfg, f), |f.Wire()|)
  {
    var s := f.Wire() + rest;
    HeaderReadsBack(f, rest);
    var h := f.HeaderLen();
    assert s[h] == s[h..|f.Wire()|][0] == f.body[0];
    AdmissionIsJudge(cfg, f, |s|);
    var a := Admitted(cfg, ReadHeader(s), |s|);
    if a.Admit? {
      assert s[h..h + a.len] == s[h..|f.Wire()|][..a.len];
    }
  }

  /**
   * Decoding printed frames: the packets are those of the frames before the first rejected one, and
   * when none is rejected decoding goes on with whatever follows.
   */
  lemma {:induction false} DecodeFrames(cfg: Config, stale: byte, fs: seq<Frame>, rest: seq<byte>)
    requires cfg.Valid() && AllClean(fs)
    ensures var d := Decode(cfg, stale, WireAll(fs) + rest);
      if NoneRejected(cfg, fs) then
        && d.pkts == Taken(cfg, fs) + Decode(cfg, stale, rest).pkts
        && d.fate == Decode(cfg, stale, rest).fate
      else
        d == Decoded(Taken(cfg, fs), Aborted)
  {
    if fs == [] {
      Units(rest);
      Units(Decode(cfg, stale, rest).pkts);
    } else {
      var f, r := fs[0], Rounds(cfg, stale);
      var more := WireAll(fs[1..]) + rest;
      Assoc(f.Wire(), WireAll(fs[1..]), rest);
      RoundIsJudge(cfg, stale, f, more);
      DecodeFrames(cfg, stale, fs[1..], rest);
      var st := r(f.Wire() + more);
      if !Judge(cfg, f).Reject? {
        LoopFront(r, f.Wire(), more);
        Assoc(Emitted(st), Taken(cfg, fs[1..]), Decode(cfg, stale, rest).pkts);
        Units(Taken(cfg, fs[1..]));
      }
    }
  }

  // Compositionality on arbitrary bytes --------------------------------------------------------

  /**
   * `a` is made of whole frames, none of them rejected, and the byte that decides the protocol of
   * each lies inside `a`.
   */
  ghost predicate WholeFrames(cfg: Config, stale: byte, a: seq<byte>)
    requires cfg.Valid()
    decreases |a|
  {
    a == [] ||
    (&& |a| > HEADER_LEN && ReadHeader(a).len < |a|
     && Progress(Round(cfg, stale, a), a)
     && WholeFrames(cfg, stale, a[Round(cfg, stale, a).n..]))
  }

  /** decode(a ++ b) == decode(a) ++ decode(b) whenever `a` is whole frames. */
  lemma DecodeConcat(cfg: Config, stale: byte, a: seq<byte>, b: seq<byte>)
    requires cfg.Valid() && WholeFrames(cfg, stale, a)
    ensures Decode(cfg, stale, a).fate.Drained?
    ensures Decode(cfg, stale, a + b).pkts == Decode(cfg, stale, a).pkts + Decode(cfg, stale, b).pkts
    ensures Decode(cfg, stale, a + b).fate == Decode(cfg, stale, b).fate
  {
    WholeFramesAreWhole(cfg, stale, a);
    LoopConcat(Rounds(cfg, stale), a, b);
  }

  lemma {:induction false} WholeFramesAreWhole(cfg: Config, stale: byte, a: seq<byte>)
    requires cfg.Valid() && WholeFrames(cfg, stale, a)
    ensures Whole(Rounds(cfg, stale), a)
    decreases |a|
  {
    if a == [] {
    } else {
      var r := Rounds(cfg, stale);
      WholeFramesAreWhole(cfg, stale, a[r(a).n..]);
      forall b ensures r(a + b) == r(a) {
        RoundIsLocal(cfg, stale, a, b);
      }
    }
  }

  lemma RoundIsLocal(cfg: Config, stale: byte, a: seq<byte>, b: seq<byte>)
    requires cfg.Valid()
    requires |a| > HEADER_LEN && ReadHeader(a).len < |a| && Progress(Round(cfg, stale, a), a)
    ensures Round(cfg, stale, a + b) == Round(cfg, stale, a)
  {
    var h := ReadHeader(a);
    assert ReadHeader(a + b) == h;
    AdmittedMeaning(cfg, h, |a|);
    var ad := Admitted(cfg, h, |a|);
    assert Admitted(cfg, h, |a + b|) == ad;
    if ad.Admit? {
      assert (a + b)[h.len..h.len + ad.len] == a[h.len..h.len + ad.len];
    }
  }

  // Encoder and decoder ------------------------------------------------------------------------

  /** The payloads that survive the round trip over channel `chan`. */
  ghost predicate Sendable(cfg: Config, chan: nat, payload: seq<byte>, tail: seq<byte>) {
    && chan < cfg.mode <= |cfg.slots|
    && cfg.slots[chan].Some?
    && 0 < |payload| <= cfg.slots[chan].value
    && |payload| + PadFor(|payload|, |tail|) < 0x1_0000
    && payload[0] / 16 in {4, 6}
  }

  function AsPacket(chan: nat, payload: seq<byte>): Packet
    requires |payload| > 0
  {
    Packet(chan, payload[0] / 16 == 6, payload)
  }

  lemma FramedIsTaken(cfg: Config, v: Version, chan: nat, payload: seq<byte>, tail: seq<byte>)
    requires cfg.Valid() && cfg.dlPad == 0
    requires Sendable(cfg, chan, payload, tail)
    ensures var f := Framed(v, MUX_ID_BASE + chan, payload, tail);
      Clean(f) && Judge(cfg, f) == Take(AsPacket(chan, payload))
  {
    var f := Framed(v, MUX_ID_BASE + chan, payload, tail);
    assert f.body[..|payload|][0] == payload[0];
  }

  /** The first packet decoded from the encoding of `payload` is `payload`, on its channel. */
  ghost predicate ComesBack(cfg: Config, v: Version, chan: nat, payload: seq<byte>, tail: seq<byte>,
                            stale: byte)
    requires cfg.Valid() && chan < MAX_CHANNELS
  {
    var d := Decode(cfg, stale, Framed(v, MUX_ID_BASE + chan, payload, tail).Wire());
    |d.pkts| > 0 && d.pkts[0].chan == chan && d.pkts[0].payload == payload
  }

  /**
   * Exactly the sendable payloads come back: for every tail memory and whatever byte follows the
   * input, decoding the encoded packet gives that packet.
   */
  lemma RoundTripIff(cfg: Config, v: Version, chan: nat, payload: seq<byte>, tail: seq<byte>)
    requires cfg.Valid() && cfg.dlPad == 0 && chan < MAX_CHANNELS
    ensures Sendable(cfg, chan, payload, tail) <==>
            forall stale: byte :: ComesBack(cfg, v, chan, payload, tail, stale)
  {
    if Sendable(cfg, chan, payload, tail) {
      forall stale: byte ensures ComesBack(cfg, v, chan, payload, tail, stale) {
        SendableRoundTrip(cfg, v, chan, payload, tail, stale);
      }
    } else if ComesBack(cfg, v, chan, payload, tail, 0) {
      ReturnedIsSendable(cfg, v, chan, payload, tail);
    }
  }

  lemma SendableRoundTrip(cfg: Config, v: Version, chan: nat, payload: seq<byte>, tail: seq<byte>,
                          stale: byte)
    requires cfg.Valid() && cfg.dlPad == 0
    requires Sendable(cfg, chan, payload, tail)
    ensures Decode(cfg, stale, Framed(v, MUX_ID_BASE + chan, payload, tail).Wire())
         == Decoded([AsPacket(chan, payload)], Drained)
  {
    var f := Framed(v, MUX_ID_BASE + chan, payload, tail);
    FramedIsTaken(cfg, v, chan, payload, tail);
    RoundIsJudge(cfg, stale, f, []);
    LoopFront(Rounds(cfg, stale), f.Wire(), []);
    Units(f.Wire());
    assert Rounds(cfg, stale)([]) == Leave(Drained);
    Units([AsPacket(chan, payload)]);
  }

  lemma ReturnedIsSendable(cfg: Config, v: Version, chan: nat, payload: seq<byte>, tail: seq<byte>)
    requires cfg.Valid() && cfg.dlPad == 0 && chan < MAX_CHANNELS
    requires ComesBack(cfg, v, chan, payload, tail, 0)
    ensures Sendable(cfg, chan, payload, tail)
  {
    var f := Framed(v, MUX_ID_BASE + chan, payload, tail);
    var w, hdr, pad := f.Wire(), f.HeaderLen(), PadFor(|payload|, |tail|);
    assert f.pad == pad && f.mux == MUX_ID_BASE + chan && hdr >= HEADER_LEN;
    FramedHeader(v, chan, payload, tail);
    ReturnedFromFront(cfg, w, hdr, pad, chan, payload);
    assert |payload| > 0 && w[hdr] == payload[0];
  }

  lemma ReturnedFromFront(cfg: Config, w: seq<byte>, hdr: nat, pad: nat, chan: nat, payload: seq<byte>)
    requires cfg.Valid() && cfg.dlPad == 0 && chan < MAX_CHANNELS
    requires |w| == hdr + |payload| + pad && hdr >= HEADER_LEN
    requires |w| >= HEADER_LEN &&
             ReadHeader(w) == Header(false, hdr, pad, MUX_ID_BASE + chan, U16(|payload| + pad))
    requires var d := Decode(cfg, 0, w);
      |d.pkts| > 0 && d.pkts[0].chan == chan && d.pkts[0].payload == payload
    ensures hdr < |w| && w[hdr] / 16 in {4, 6}
    ensures chan < cfg.mode <= |cfg.slots| && cfg.slots[chan].Some?
    ensures |payload| <= cfg.slots[chan].value && |payload| + pad < 0x1_0000
  {
    DecodeSound(cfg, 0, w);
    FirstIsDelivered(cfg, w, hdr, pad, chan, |payload|);
    CutAtFront(cfg, w, hdr, pad, chan, Decode(cfg, 0, w).pkts[0]);
  }

  lemma CutAtFront(cfg: Config, w: seq<byte>, hdr: nat, pad: nat, chan: nat, p: Packet)
    requires |w| == hdr + |p.payload| + pad && HEADER_LEN < |w|
    requires CutFrom(cfg, w, 0, p) && p.chan == chan && cfg.dlPad == 0
    requires ReadHeader(w) == Header(false, hdr, pad, MUX_ID_BASE + chan, U16(|p.payload| + pad))
    ensures chan < cfg.mode <= |cfg.slots| && cfg.slots[chan].Some?
    ensures |p.payload| <= cfg.slots[chan].value && |p.payload| + pad < 0x1_0000
  {
    assert w[0..] == w;
  }

  lemma FirstIsDelivered(cfg: Config, w: seq<byte>, hdr: nat, pad: nat, chan: nat, len: nat)
    requires cfg.Valid() && cfg.dlPad == 0
    requires chan < cfg.mode && cfg.slots[chan].Some?
    requires hdr >= HEADER_LEN && |w| == hdr + len + pad && |w| > HEADER_LEN
    requires ReadHeader(w) == Header(false, hdr, pad, MUX_ID_BASE + chan, U16(len + pad))
    requires Loop(Rounds(cfg, 0), w).pkts != []
    ensures |Starts(Rounds(cfg, 0), w, 0)| > 0 && Starts(Rounds(cfg, 0), w, 0)[0] == 0
    ensures hdr < |w| && w[hdr] / 16 in {4, 6}
  {
    assert w[0..] == w;
    assert Admitted(cfg, ReadHeader(w), |w|).Admit? by {
      assert Rounds(cfg, 0)(w) != Leave(Aborted);
    }
  }

  /** Where the fields of a frame lie on the wire. */
  lemma WireBytes(f: Frame)
    requires f.pad < 64 && (f.ext.Some? ==> |f.ext.value| == CSUM_HEADER_LEN)
    ensures var w := f.Wire();
      && |w| == f.HeaderLen() + |f.body|
      && ReadHeader(w) == Header(f.cd, f.HeaderLen(), f.pad, f.mux, U16(|f.body|))
      && (|f.body| > 0 ==> w[f.HeaderLen()] == f.body[0])
  {
    var w := f.Wire();
    assert w[0] == f.FlagByte() && w[1] == f.mux;
    assert w[2] == |f.body| / 256 % 256 && w[3] == |f.body| % 256;
  }

  lemma FramedHeader(v: Version, chan: nat, payload: seq<byte>, tail: seq<byte>)
    requires chan < MAX_CHANNELS
    ensures var f := Framed(v, MUX_ID_BASE + chan, payload, tail);
      var w := f.Wire();
      && |w| == f.HeaderLen() + |payload| + f.pad
      && ReadHeader(w) == Header(false, f.HeaderLen(), f.pad, f.mux, U16(|payload| + f.pad))
      && (|payload| > 0 ==> w[f.HeaderLen()] == payload[0])
  {
    var f := Framed(v, MUX_ID_BASE + chan, payload, tail);
    WireBytes(f);
    if |payload| > 0 {
      assert f.body[0] == f.body[..|payload|][0];
    }
  }
}
