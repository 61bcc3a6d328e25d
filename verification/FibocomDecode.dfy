/**
 * What the Fibocom driver's receive loop decodes. Whether a packet shares the input buffer or is copied
 * depends on a running headroom counter, and a frame with more padding than bytes is cut wrongly when
 * it is shared: the window handed out runs to the end of the input.
 */
module FibocomDecode {
  import opened Bytes
  import opened QmapFrame
  import opened PullLoop
  import opened QmapDecode

  const ETH_HLEN: nat := 14
  const MAX_PAYLOAD: int := 1500

  /** `nets[i]` is the hardware address of channel `i`, or `None` while it is not registered. */
  datatype Device = Device(mode: nat, nets: seq<Option<seq<byte>>>)
  {
    ghost predicate Valid() {
      && mode <= |nets| <= MAX_CHANNELS
      && forall i :: 0 <= i < |nets| && nets[i].Some? ==> |nets[i].value| == 6
    }
  }

  /**
   * A packet handed out: where its frame starts in the input, whether it shares the input buffer, and
   * whether it is loose, that is shared and not trimmed.
   */
  datatype Item = Item(pkt: Packet, at: nat, shared: bool, loose: bool)

  // One round ----------------------------------------------------------------------------------

  function PktLen(s: seq<byte>): nat
    requires |s| >= HEADER_LEN
  {
    (s[2] as int) * 256 + s[3]
  }

  function Pad(s: seq<byte>): nat
    requires |s| >= HEADER_LEN
  {
    s[0] % 64
  }

  /**
   * The loop body on the unread input `s`, which starts `at` bytes into the input, with `room` bytes of
   * headroom. Trimming to a negative length does nothing; copying a negative length crashes.
   */
  function FRound(dev: Device, room: nat, at: nat, s: seq<byte>): (st: Step<Item>)
    requires dev.Valid()
    ensures st.Move? ==> |s| > HEADER_LEN && HEADER_LEN <= st.n == PktLen(s) + HEADER_LEN <= |s|
  {
    if |s| <= HEADER_LEN then Leave(Drained)
    else
      var skbLen: int := PktLen(s) - Pad(s);
      var n := PktLen(s) + HEADER_LEN;
      var chan := U32(s[1] as int - MUX_ID_BASE as int);
      var nibble := s[HEADER_LEN] / 16;
      if skbLen > MAX_PAYLOAD then Leave(Aborted)
      else if |s| < n then Leave(Aborted)
      else if s[0] / 128 == 1 then Move(n, None)
      else if nibble != 4 && nibble != 6 then Leave(Aborted)
      else if chan >= dev.mode then Leave(Aborted)
      else if dev.nets[chan].None? then Move(n, None)
      else if skbLen >= 0 then
        Move(n, Some(Item(Packet(chan, nibble == 6, s[HEADER_LEN..HEADER_LEN + skbLen]), at, room >= ETH_HLEN, false)))
      else if room >= ETH_HLEN then
        Move(n, Some(Item(Packet(chan, nibble == 6, s[HEADER_LEN..]), at, true, true)))
      else Leave(Crashed)
  }

  /** The headroom after a round: the padding behind a shared packet, or the frame just copied. */
  function NextRoom(room: nat, st: Step<Item>, s: seq<byte>): nat
    requires |s| >= HEADER_LEN
  {
    if st.Leave? || st.out.None? then room
    else if st.out.value.shared then Pad(s)
    else PktLen(s)
  }

  type Body = (nat, nat, seq<byte>) -> Step<Item>

  function FRounds(dev: Device): Body
    requires dev.Valid()
  {
    (room: nat, at: nat, s: seq<byte>) => FRound(dev, room, at, s)
  }

  /** A round that goes on: it pulls part of the input and had a header to read. */
  predicate Pulls(st: Step<Item>, s: seq<byte>) {
    Progress(st, s) && |s| >= HEADER_LEN
  }

  /** The pull loop with a running headroom. */
  function RoomLoop(body: Body, room: nat, at: nat, s: seq<byte>): Decoded<Item>
    decreases |s|
  {
    var st := body(room, at, s);
    if st.Leave? then Decoded([], st.fate)
    else if !Pulls(st, s) then Decoded([], Spinning)
    else
      var d := RoomLoop(body, NextRoom(room, st, s), at + st.n, s[st.n..]);
      Decoded(Emitted(st) + d.pkts, d.fate)
  }

  /** What the driver hands out for `s` when `room` bytes of headroom come before it. */
  function FDecode(dev: Device, room: nat, at: nat, s: seq<byte>): Decoded<Item>
    requires dev.Valid()
  {
    RoomLoop(FRounds(dev), room, at, s)
  }

  /** A statement about the loop's variables and the packets handed out so far. */
  type Claim = (nat, nat, seq<byte>, seq<Item>) -> bool

  ghost predicate KeptAt(body: Body, claim: Claim, room: nat, at: nat, s: seq<byte>, xs: seq<Item>) {
    var st := body(room, at, s);
    claim(room, at, s, xs) && Pulls(st, s) ==> claim(NextRoom(room, st, s), at + st.n, s[st.n..], xs + Emitted(st))
  }

  /** Every round keeps the claim. */
  ghost predicate Kept(body: Body, claim: Claim) {
    forall room: nat, at: nat, s: seq<byte>, xs: seq<Item> :: KeptAt(body, claim, room, at, s, xs)
  }

  /** A claim every round keeps holds whenever the loop is stopped, after any number of packets. */
  lemma {:induction false} LoopKeeps(body: Body, claim: Claim, room: nat, at: nat, s: seq<byte>, got: seq<Item>, k: nat)
    requires Kept(body, claim) && claim(room, at, s, got) && k <= |RoomLoop(body, room, at, s).pkts|
    ensures exists room': nat, at': nat, s': seq<byte> ::
              claim(room', at', s', got + RoomLoop(body, room, at, s).pkts[..k])
    decreases |s|
  {
    if k == 0 {
      Units(got);
      assert RoomLoop(body, room, at, s).pkts[..0] == [];
      assert claim(room, at, s, got + []);
    } else {
      var st := body(room, at, s);
      assert KeptAt(body, claim, room, at, s, got);
      var e, xs := Emitted(st), RoomLoop(body, NextRoom(room, st, s), at + st.n, s[st.n..]).pkts;
      LoopKeeps(body, claim, NextRoom(room, st, s), at + st.n, s[st.n..], got + e, k - |e|);
      assert (e + xs)[..k] == e + xs[..k - |e|];
      Assoc(got, e, xs[..k - |e|]);
    }
  }

  /** How many rounds the loop makes before it leaves. */
  function RoundCount(body: Body, room: nat, at: nat, s: seq<byte>): nat
    decreases |s|
  {
    var st := body(room, at, s);
    if !Pulls(st, s) then 0 else 1 + RoundCount(body, NextRoom(room, st, s), at + st.n, s[st.n..])
  }

  /** This driver's loop ends on every input, registered channels or not: four bytes a round. */
  lemma {:induction false} FTerminates(dev: Device, room: nat, at: nat, s: seq<byte>)
    requires dev.Valid()
    ensures RoundCount(FRounds(dev), room, at, s) * HEADER_LEN <= |s|
    ensures !FDecode(dev, room, at, s).fate.Spinning?
    decreases |s|
  {
    var st := FRounds(dev)(room, at, s);
    if st.Leave? {
    } else {
      FTerminates(dev, NextRoom(room, st, s), at + st.n, s[st.n..]);
    }
  }

  /** A complete frame whose packet is not too long. */
  ghost predicate GoodLength(s: seq<byte>) {
    |s| > HEADER_LEN && PktLen(s) + HEADER_LEN <= |s| && PktLen(s) <= Pad(s) + MAX_PAYLOAD
  }

  /** The frame looks like IP and names one of the device's channels. */
  ghost predicate GoodAddress(dev: Device, s: seq<byte>) {
    |s| > HEADER_LEN && s[HEADER_LEN] / 16 in {4, 6} && MUX_ID_BASE <= s[1] < MUX_ID_BASE + dev.mode
  }

  /**
   * What one round does, told from the bytes: the loop goes on over commands of good length and over
   * data frames of good length and address, except where it would copy a negative length, and of those
   * it hands out the data frames of registered channels.
   */
  lemma RoundMeaning(dev: Device, room: nat, at: nat, s: seq<byte>)
    requires dev.Valid()
    ensures var st := FRound(dev, room, at, s);
      var data := |s| > HEADER_LEN && s[0] / 128 == 0;
      var registered := GoodAddress(dev, s) && dev.nets[s[1] - MUX_ID_BASE].Some?;
      && (st == Leave(Drained) <==> |s| <= HEADER_LEN)
      && (st.Move? <==> && GoodLength(s)
                        && (data ==> && GoodAddress(dev, s)
                                     && (registered && room < ETH_HLEN ==> Pad(s) <= PktLen(s))))
      && (st.Move? ==> (st.out.Some? <==> data && registered))
      && (st.Move? && st.out.Some? ==> (st.out.value.pkt.ipv6 <==> s[HEADER_LEN] / 16 == 6))
  {
  }

  /** What a handed-out packet has to do with the frame it comes from. */
  ghost predicate CutAt(dev: Device, s: seq<byte>, x: Item) {
    && |s| > HEADER_LEN && PktLen(s) + HEADER_LEN <= |s|
    && dev.Valid() && x.pkt.chan < dev.mode && dev.nets[x.pkt.chan].Some?
    && s[1] == MUX_ID_BASE + x.pkt.chan
    && |x.pkt.payload| + HEADER_LEN <= |s|
    && x.pkt.payload == s[HEADER_LEN..HEADER_LEN + |x.pkt.payload|]
    && (x.loose ==> x.shared && Pad(s) > PktLen(s) && |x.pkt.payload| + HEADER_LEN == |s|)
    && (!x.loose ==> |x.pkt.payload| + Pad(s) == PktLen(s))
  }

  lemma RoundCuts(dev: Device, room: nat, at: nat, s: seq<byte>)
    requires dev.Valid() && FRound(dev, room, at, s).Move? && FRound(dev, room, at, s).out.Some?
    ensures var st := FRound(dev, room, at, s);
      && CutAt(dev, s, st.out.value) && st.out.value.at == at
      && st.n == PktLen(s) + HEADER_LEN
      && (st.out.value.shared <==> room >= ETH_HLEN)
  {
  }

  /** What a packet leaves behind it: the padding of its frame if it is shared, or else the frame's length. */
  function RoomLeft(input: seq<byte>, x: Item): nat {
    if x.at + HEADER_LEN > |input| then 0
    else if x.shared then input[x.at] % 64
    else (input[x.at + 2] as int) * 256 + input[x.at + 3]
  }

  /** Packet `k` shares the buffer exactly if an Ethernet header fits in the headroom before it. */
  ghost predicate SharedRightly(room: nat, input: seq<byte>, xs: seq<Item>, k: nat) {
    k < |xs| && (xs[k].shared <==> (if k == 0 then room else RoomLeft(input, xs[k - 1])) >= ETH_HLEN)
  }

  ghost function HeadroomClaim(first: nat, input: seq<byte>): Claim {
    (room: nat, at: nat, s: seq<byte>, xs: seq<Item>) =>
      && at <= |input| && s == input[at..]
      && (forall k :: 0 <= k < |xs| ==> SharedRightly(first, input, xs, k))
      && room == if xs == [] then first else RoomLeft(input, xs[|xs| - 1])
  }

  lemma SharedSnoc(first: nat, input: seq<byte>, xs: seq<Item>, x: Item)
    requires forall k :: 0 <= k < |xs| ==> SharedRightly(first, input, xs, k)
    requires x.shared <==> (if xs == [] then first else RoomLeft(input, xs[|xs| - 1])) >= ETH_HLEN
    ensures forall k :: 0 <= k < |xs + [x]| ==> SharedRightly(first, input, xs + [x], k)
  {
    forall k | 0 <= k < |xs + [x]| ensures SharedRightly(first, input, xs + [x], k) {
      assert k < |xs| ==> SharedRightly(first, input, xs, k);
    }
  }

  lemma RoundKeepsHeadroom(dev: Device, first: nat, input: seq<byte>, room: nat, at: nat, s: seq<byte>, xs: seq<Item>)
    requires dev.Valid()
    ensures KeptAt(FRounds(dev), HeadroomClaim(first, input), room, at, s, xs)
  {
    var st := FRounds(dev)(room, at, s);
    if HeadroomClaim(first, input)(room, at, s, xs) && Pulls(st, s) {
      assert s[st.n..] == input[at + st.n..];
      if st.out.Some? {
        var x := st.out.value;
        RoundCuts(dev, room, at, s);
        assert NextRoom(room, st, s) == RoomLeft(input, x);
        SharedSnoc(first, input, xs, x);
      } else {
        Units(xs);
      }
    }
  }

  /**
   * Sharing, exactly: over every input each packet shares the buffer if and only if the frame handed out
   * before it left at least fourteen bytes, its padding if it was shared and its whole length if it was
   * copied; skipped frames do not count.
   */
  lemma SharingIff(dev: Device, room: nat, input: seq<byte>, k: nat)
    requires dev.Valid() && k < |FDecode(dev, room, 0, input).pkts|
    ensures SharedRightly(room, input, FDecode(dev, room, 0, input).pkts, k)
  {
    var body, claim := FRounds(dev), HeadroomClaim(room, input);
    var all := FDecode(dev, room, 0, input).pkts;
    assert input == input[0..] && claim(room, 0, input, []);
    forall r: nat, at: nat, t: seq<byte>, xs: seq<Item> ensures KeptAt(body, claim, r, at, t, xs) {
      RoundKeepsHeadroom(dev, room, input, r, at, t, xs);
    }
    LoopKeeps(body, claim, room, 0, input, [], |all|);
    Units(all);
    assert all[..|all|] == all;
  }

  // Agreement with the other driver ------------------------------------------------------------

  /** A round without what it says about memory. */
  function Plain(st: Step<Item>): Step<Packet> {
    match st
    case Leave(fate) => Leave(fate)
    case Move(n, out) => Move(n, if out.Some? then Some(out.value.pkt) else None)
  }

  function Pkts(xs: seq<Item>): seq<Packet> {
    if xs == [] then [] else [xs[0].pkt] + Pkts(xs[1..])
  }

  lemma {:induction false} PktsLength(xs: seq<Item>)
    ensures |Pkts(xs)| == |xs|
    ensures forall i :: 0 <= i < |xs| ==> Pkts(xs)[i] == xs[i].pkt
  {
    if xs == [] {
    } else {
      PktsLength(xs[1..]);
    }
  }

  /** The same device as the other driver sees it: MTU 1500 everywhere, no downlink padding. */
  function AsConfig(dev: Device): (cfg: Config)
    requires dev.Valid()
    ensures cfg.Valid()
  {
    Config(dev.mode, seq(|dev.nets|, i requires 0 <= i < |dev.nets| =>
                               if dev.nets[i].Some? then Some(1500) else None), 0)
  }

  /** The frame at the front is version 1 and names a registered channel. */
  ghost predicate PlainFront(dev: Device, s: seq<byte>) {
    |s| <= HEADER_LEN ||
    (&& s[0] / 64 % 2 == 0
     && MUX_ID_BASE <= s[1] < MUX_ID_BASE + dev.mode
     && dev.mode <= |dev.nets| && dev.nets[s[1] - MUX_ID_BASE].Some?)
  }

  /** A complete frame with more padding than bytes that is a command or looks like IP. */
  ghost predicate OverPadded(s: seq<byte>) {
    && |s| > HEADER_LEN
    && PktLen(s) < Pad(s) && PktLen(s) + HEADER_LEN <= |s|
    && (s[0] / 128 == 1 || s[HEADER_LEN] / 16 in {4, 6})
  }

  /**
   * On such a front the two loop bodies agree exactly when the frame is not over-padded, whatever the
   * headroom.
   */
  lemma RoundsAgreeIff(dev: Device, room: nat, at: nat, stale: byte, s: seq<byte>)
    requires dev.Valid() && PlainFront(dev, s)
    ensures Plain(FRound(dev, room, at, s)) == Round(AsConfig(dev), stale, s) <==> !OverPadded(s)
  {
    if |s| > HEADER_LEN {
      FrontAdmission(dev, s);
      if OverPadded(s) {
        assert Plain(FRound(dev, room, at, s)) != Leave(Aborted);
      }
    }
  }

  /** The other driver's header check on such a front, in this driver's terms. */
  lemma FrontAdmission(dev: Device, s: seq<byte>)
    requires dev.Valid() && |s| > HEADER_LEN && PlainFront(dev, s)
    ensures var h := ReadHeader(s);
      && h.len == HEADER_LEN && h.pktLen == PktLen(s) && h.pad == Pad(s)
      && (h.cd <==> s[0] / 128 == 1)
      && Admitted(AsConfig(dev), h, |s|) ==
         if h.pktLen < h.pad || h.pktLen - h.pad > MAX_PAYLOAD || |s| < h.pktLen + HEADER_LEN then Refuse
         else if h.cd then Skip
         else Admit(s[1] - MUX_ID_BASE, h.pktLen - h.pad)
  {
    var cfg, chan := AsConfig(dev), s[1] - MUX_ID_BASE;
    assert cfg.slots[chan] == Some(1500);
    FrontHeader(s);
    AdmittedPlain(cfg, ReadHeader(s), |s|);
  }

  lemma FrontHeader(s: seq<byte>)
    requires |s| > HEADER_LEN && s[0] / 64 % 2 == 0
    ensures ReadHeader(s) == Header(s[0] / 128 == 1, HEADER_LEN, Pad(s), s[1], PktLen(s))
    ensures Pad(s) < 64 && PktLen(s) < 0x1_0000
  {
  }

  /** The other driver's check of a version-1 header for a channel of MTU 1500. */
  lemma AdmittedPlain(cfg: Config, h: Header, avail: nat)
    requires cfg.Valid() && cfg.dlPad == 0 && h.len == HEADER_LEN && h.pad < 64 && h.pktLen < 0x1_0000
    requires MUX_ID_BASE <= h.mux < MUX_ID_BASE + cfg.mode && cfg.slots[h.mux - MUX_ID_BASE] == Some(1500)
    ensures Admitted(cfg, h, avail) ==
         if h.pktLen < h.pad || h.pktLen - h.pad > MAX_PAYLOAD || avail < h.pktLen + HEADER_LEN then Refuse
         else if h.cd then Skip
         else Admit(h.mux - MUX_ID_BASE, h.pktLen - h.pad)
  {
  }

  // Exactly when whole streams agree -----------------------------------------------------------

  /** Every frame of the stream is version 1 and for a registered channel. */
  ghost predicate AllPlain(dev: Device, s: seq<byte>)
    decreases |s|
  {
    && PlainFront(dev, s)
    && (|s| > HEADER_LEN && PktLen(s) + HEADER_LEN <= |s| ==> AllPlain(dev, s[PktLen(s) + HEADER_LEN..]))
  }

  /** The loop hands out nothing more and ends on a bad frame. */
  ghost predicate SilentAbort(body: Body, room: nat, at: nat, s: seq<byte>)
    decreases |s|
  {
    var st := body(room, at, s);
    if st.Leave? then st.fate == Aborted
    else Pulls(st, s) && st.out.None? && SilentAbort(body, room, at + st.n, s[st.n..])
  }

  lemma {:induction false} SilentIff(body: Body, room: nat, at: nat, s: seq<byte>)
    ensures RoomLoop(body, room, at, s) == Decoded([], Aborted) <==> SilentAbort(body, room, at, s)
    decreases |s|
  {
    var st := body(room, at, s);
    if st.Leave? || !Pulls(st, s) || st.out.Some? {
    } else {
      SilentIff(body, room, at + st.n, s[st.n..]);
      Units(RoomLoop(body, room, at + st.n, s[st.n..]).pkts);
    }
  }

  /**
   * The loop meets no over-padded frame, or hands out nothing from the first one on and still ends on a
   * bad frame, as the other driver does right there.
   */
  ghost predicate SameAfterAll(body: Body, room: nat, at: nat, s: seq<byte>)
    decreases |s|
  {
    var st := body(room, at, s);
    if OverPadded(s) then SilentAbort(body, room, at, s)
    else st.Leave? || (Pulls(st, s) && SameAfterAll(body, NextRoom(room, st, s), at + st.n, s[st.n..]))
  }

  /** One round of `body` against one of `round`: the same, except that `round` aborts on over-padding. */
  ghost predicate MeetsAt(body: Body, round: seq<byte> -> Step<Packet>, room: nat, at: nat, s: seq<byte>) {
    var st := body(room, at, s);
    && (if OverPadded(s) then round(s) == Leave(Aborted) else Plain(st) == round(s))
    && (st.Move? ==> |s| > HEADER_LEN && Pulls(st, s) && st.n == PktLen(s) + HEADER_LEN)
  }

  ghost predicate Meets(body: Body, round: seq<byte> -> Step<Packet>, s: seq<byte>)
    decreases |s|
  {
    && (forall room: nat, at: nat :: MeetsAt(body, round, room, at, s))
    && (|s| > HEADER_LEN && PktLen(s) + HEADER_LEN <= |s| ==> Meets(body, round, s[PktLen(s) + HEADER_LEN..]))
  }

  lemma DriverMeetsAt(dev: Device, room: nat, at: nat, stale: byte, s: seq<byte>)
    requires dev.Valid() && PlainFront(dev, s)
    ensures MeetsAt(FRounds(dev), Rounds(AsConfig(dev), stale), room, at, s)
  {
    RoundsAgreeIff(dev, room, at, stale, s);
    if OverPadded(s) {
      FrontAdmission(dev, s);
    }
  }

  lemma {:induction false} DriverMeets(dev: Device, stale: byte, s: seq<byte>)
    requires dev.Valid() && AllPlain(dev, s)
    ensures Meets(FRounds(dev), Rounds(AsConfig(dev), stale), s)
    decreases |s|
  {
    forall room: nat, at: nat ensures MeetsAt(FRounds(dev), Rounds(AsConfig(dev), stale), room, at, s) {
      DriverMeetsAt(dev, room, at, stale, s);
    }
    if |s| <= HEADER_LEN || PktLen(s) + HEADER_LEN > |s| {
    } else {
      DriverMeets(dev, stale, s[PktLen(s) + HEADER_LEN..]);
    }
  }

  /** After a round that both make, the decodings are the same exactly if the rest is. */
  lemma SameFront(round: seq<byte> -> Step<Packet>, s: seq<byte>, st: Step<Item>, rest: Decoded<Item>)
    requires Plain(st) == round(s) && Progress(st, s)
    ensures Decoded(Pkts(Emitted(st) + rest.pkts), rest.fate) == Loop(round, s)
       <==> Decoded(Pkts(rest.pkts), rest.fate) == Loop(round, s[st.n..])
  {
    var other := Loop(round, s[st.n..]).pkts;
    if st.out.Some? {
      DropFront([st.out.value], rest.pkts);
      DropFront([st.out.value.pkt], Pkts(rest.pkts));
      DropFront([st.out.value.pkt], other);
    } else {
      Units(rest.pkts);
      Units(other);
    }
  }

  lemma {:induction false} SameDecodingIff(body: Body, room: nat, at: nat, round: seq<byte> -> Step<Packet>,
                                           s: seq<byte>)
    requires Meets(body, round, s)
    ensures var d := RoomLoop(body, room, at, s);
      Decoded(Pkts(d.pkts), d.fate) == Loop(round, s) <==> SameAfterAll(body, room, at, s)
    decreases |s|
  {
    var st := body(room, at, s);
    assert MeetsAt(body, round, room, at, s);
    if OverPadded(s) {
      SilentIff(body, room, at, s);
      PktsLength(RoomLoop(body, room, at, s).pkts);
    } else if st.Move? {
      var rest := RoomLoop(body, NextRoom(room, st, s), at + st.n, s[st.n..]);
      SameDecodingIff(body, NextRoom(room, st, s), at + st.n, round, s[st.n..]);
      SameFront(round, s, st, rest);
    }
  }

  /**
   * On streams of version-1 frames for registered channels both drivers decode the same packets and end
   * the same way if and only if the Fibocom loop meets no over-padded frame, or hands out nothing from
   * the first one on and aborts all the same.
   */
  lemma DriversAgreeIff(dev: Device, room: nat, at: nat, stale: byte, s: seq<byte>)
    requires dev.Valid() && AllPlain(dev, s)
    ensures var d := FDecode(dev, room, at, s);
      Decoded(Pkts(d.pkts), d.fate) == Decode(AsConfig(dev), stale, s)
      <==> SameAfterAll(FRounds(dev), room, at, s)
  {
    DriverMeets(dev, stale, s);
    SameDecodingIff(FRounds(dev), room, at, Rounds(AsConfig(dev), stale), s);
  }

  /** Every frame is version 1, for a registered channel, and not over-padded. */
  ghost predicate PlainStream(dev: Device, s: seq<byte>)
    decreases |s|
  {
    && PlainFront(dev, s) && !OverPadded(s)
    && (|s| > HEADER_LEN && PktLen(s) + HEADER_LEN <= |s| ==> PlainStream(dev, s[PktLen(s) + HEADER_LEN..]))
  }

  lemma {:induction false} PlainStreamIsSame(dev: Device, room: nat, at: nat, s: seq<byte>)
    requires dev.Valid() && PlainStream(dev, s)
    ensures AllPlain(dev, s) && SameAfterAll(FRounds(dev), room, at, s)
    decreases |s|
  {
    var st := FRounds(dev)(room, at, s);
    if |s| <= HEADER_LEN || PktLen(s) + HEADER_LEN > |s| {
    } else {
      var n := PktLen(s) + HEADER_LEN;
      PlainStreamIsSame(dev, if st.Leave? then 0 else NextRoom(room, st, s), at + n, s[n..]);
    }
  }

  /** So on streams without over-padded frames, however bad otherwise, both drivers agree. */
  lemma DriversAgree(dev: Device, room: nat, at: nat, stale: byte, s: seq<byte>)
    requires dev.Valid() && PlainStream(dev, s)
    ensures var d := FDecode(dev, room, at, s);
      Decoded(Pkts(d.pkts), d.fate) == Decode(AsConfig(dev), stale, s)
  {
    PlainStreamIsSame(dev, room, at, s);
    DriversAgreeIff(dev, room, at, stale, s);
  }
}
