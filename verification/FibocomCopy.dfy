/**
 * The Fibocom driver against a receiver that copies every packet: the same loop body, but never any
 * headroom to share. The two hand out the same packets exactly when no window is left untrimmed. And
 * exactly which inputs make the driver copy a negative length.
 */
module FibocomCopy {
  import opened Bytes
  import opened QmapFrame
  import opened PullLoop
  import opened QmapDecode
  import opened FibocomDecode

  // The copying receiver -----------------------------------------------------------------------

  /** The loop body of a receiver that copies: there is no headroom before any frame. */
  function CopyRounds(dev: Device): seq<byte> -> Step<Packet>
    requires dev.Valid()
  {
    s => Plain(FRound(dev, 0, 0, s))
  }

  function CopyDecode(dev: Device, s: seq<byte>): Decoded<Packet>
    requires dev.Valid()
  {
    Loop(CopyRounds(dev), s)
  }

  predicate EmitsLoose(st: Step<Item>) {
    st.Move? && st.out.Some? && st.out.value.loose
  }

  /** One round of both: the same, unless the window is not trimmed, where copying crashes. */
  lemma RoundCopies(dev: Device, room: nat, at: nat, s: seq<byte>)
    requires dev.Valid()
    ensures var st := FRound(dev, room, at, s);
      CopyRounds(dev)(s) == if EmitsLoose(st) then Leave(Crashed) else Plain(st)
  {
  }

  /** The packets before the first untrimmed one. */
  function BeforeLoose(xs: seq<Item>): (r: seq<Item>)
    ensures |r| <= |xs|
  {
    if xs == [] || xs[0].loose then [] else [xs[0]] + BeforeLoose(xs[1..])
  }

  /** What `BeforeLoose` means: a prefix without untrimmed packets, and the longest. */
  lemma {:induction false} BeforeLooseMeaning(xs: seq<Item>)
    ensures var n := |BeforeLoose(xs)|;
      && BeforeLoose(xs) == xs[..n] && (forall i :: 0 <= i < n ==> !xs[i].loose)
      && (n < |xs| ==> xs[n].loose)
  {
    if xs == [] || xs[0].loose {
    } else {
      BeforeLooseMeaning(xs[1..]);
      var n := |BeforeLoose(xs[1..])|;
      assert xs[..n + 1] == [xs[0]] + xs[1..][..n];
      forall i | 0 <= i < n + 1 ensures !xs[i].loose {
        assert i > 0 ==> xs[i] == xs[1..][i - 1];
      }
    }
  }

  /** `round` does what `body` does but crashes where `body` leaves a window untrimmed. */
  ghost predicate CopiesAt(body: Body, round: seq<byte> -> Step<Packet>, room: nat, at: nat, s: seq<byte>) {
    var st := body(room, at, s);
    && round(s) == (if EmitsLoose(st) then Leave(Crashed) else Plain(st))
    && (st.Move? ==> Pulls(st, s))
  }

  ghost predicate Copies(body: Body, round: seq<byte> -> Step<Packet>) {
    forall room: nat, at: nat, s: seq<byte> :: CopiesAt(body, round, room, at, s)
  }

  lemma DriverCopies(dev: Device)
    requires dev.Valid()
    ensures Copies(FRounds(dev), CopyRounds(dev))
  {
    forall room: nat, at: nat, s: seq<byte> ensures CopiesAt(FRounds(dev), CopyRounds(dev), room, at, s) {
      RoundCopies(dev, room, at, s);
    }
  }

  /** What copying makes of an input, in terms of what sharing makes of it. */
  ghost predicate CopyOf(d: Decoded<Item>, c: Decoded<Packet>) {
    var b := BeforeLoose(d.pkts);
    c == Decoded(Pkts(b), if |b| < |d.pkts| then Crashed else d.fate)
  }

  lemma CopyOfCons(round: seq<byte> -> Step<Packet>, s: seq<byte>, st: Step<Item>, rest: Decoded<Item>)
    requires Progress(st, s) && round(s) == (if EmitsLoose(st) then Leave(Crashed) else Plain(st))
    requires CopyOf(rest, Loop(round, s[st.n..]))
    ensures CopyOf(Decoded(Emitted(st) + rest.pkts, rest.fate), Loop(round, s))
  {
    if st.out.Some? {
      var x := st.out.value;
      DropFront([x], rest.pkts);
      if !x.loose {
        DropFront([x], BeforeLoose(rest.pkts));
      }
    } else {
      Units(rest.pkts);
      Units(Pkts(BeforeLoose(rest.pkts)));
    }
  }

  lemma {:induction false} LoopCopies(body: Body, round: seq<byte> -> Step<Packet>, room: nat, at: nat, s: seq<byte>)
    requires Copies(body, round)
    ensures CopyOf(RoomLoop(body, room, at, s), Loop(round, s))
    decreases |s|
  {
    var st := body(room, at, s);
    assert CopiesAt(body, round, room, at, s);
    if st.Leave? {
    } else {
      LoopCopies(body, round, NextRoom(room, st, s), at + st.n, s[st.n..]);
      CopyOfCons(round, s, st, RoomLoop(body, NextRoom(room, st, s), at + st.n, s[st.n..]));
    }
  }

  ghost predicate NoneLoose(xs: seq<Item>) {
    forall i :: 0 <= i < |xs| ==> !xs[i].loose
  }

  /**
   * For every input and headroom: sharing hands out what copying would, and ends the same way, if and
   * only if it leaves no window untrimmed. Otherwise copying gets to the first such frame and crashes.
   */
  lemma CopyIff(dev: Device, room: nat, at: nat, s: seq<byte>)
    requires dev.Valid()
    ensures var d := FDecode(dev, room, at, s);
      && (Decoded(Pkts(d.pkts), d.fate) == CopyDecode(dev, s) <==> NoneLoose(d.pkts))
      && CopyOf(d, CopyDecode(dev, s))
  {
    var d := FDecode(dev, room, at, s);
    DriverCopies(dev);
    LoopCopies(FRounds(dev), CopyRounds(dev), room, at, s);
    BeforeLooseMeaning(d.pkts);
    PktsLength(d.pkts);
    PktsLength(BeforeLoose(d.pkts));
    assert d.pkts[..|d.pkts|] == d.pkts;
  }

  // Negative copies ----------------------------------------------------------------------------

  /** The loop's variables after `n` rounds, or `None` if it has left before. */
  function Reached(body: Body, room: nat, at: nat, s: seq<byte>, n: nat): Option<(nat, nat, seq<byte>)>
    decreases n
  {
    if n == 0 then Some((room, at, s))
    else
      var st := body(room, at, s);
      if !Pulls(st, s) then None else Reached(body, NextRoom(room, st, s), at + st.n, s[st.n..], n - 1)
  }

  ghost predicate LeavesAt(body: Body, room: nat, at: nat, s: seq<byte>, n: nat, fate: Fate) {
    var v := Reached(body, room, at, s, n);
    v.Some? && body(v.value.0, v.value.1, v.value.2) == Leave(fate)
  }

  /** The loop ends with a fate exactly if after some number of rounds the next one leaves with it. */
  lemma {:induction false} FateIff(body: Body, room: nat, at: nat, s: seq<byte>, fate: Fate)
    requires !fate.Spinning?
    ensures RoomLoop(body, room, at, s).fate == fate <==> exists n: nat :: LeavesAt(body, room, at, s, n, fate)
    decreases |s|
  {
    var st := body(room, at, s);
    assert LeavesAt(body, room, at, s, 0, fate) <==> st == Leave(fate);
    if !Pulls(st, s) {
      forall n: nat ensures LeavesAt(body, room, at, s, n, fate) ==> n == 0 {
      }
    } else {
      var room', at', s' := NextRoom(room, st, s), at + st.n, s[st.n..];
      FateIff(body, room', at', s', fate);
      forall n: nat ensures LeavesAt(body, room, at, s, n + 1, fate) <==> LeavesAt(body, room', at', s', n, fate) {
      }
      if RoomLoop(body, room, at, s).fate == fate {
        var n: nat :| LeavesAt(body, room', at', s', n, fate);
        assert LeavesAt(body, room, at, s, n + 1, fate);
      }
      if n: nat :| LeavesAt(body, room, at, s, n, fate) {
        assert n > 0 && LeavesAt(body, room', at', s', n - 1, fate);
      }
    }
  }

  /**
   * The frame at the front is complete, claims more padding than it has bytes, is no command, looks like
   * IP and is for a registered channel, and there is no room for an Ethernet header before it.
   */
  ghost predicate NegativeCopy(dev: Device, room: nat, s: seq<byte>) {
    && OverPadded(s) && s[0] / 128 != 1 && room < ETH_HLEN
    && MUX_ID_BASE <= s[1] < MUX_ID_BASE + dev.mode
    && dev.mode <= |dev.nets| && dev.nets[s[1] - MUX_ID_BASE].Some?
  }

  lemma CrashFrontIff(dev: Device, room: nat, at: nat, s: seq<byte>)
    requires dev.Valid()
    ensures FRound(dev, room, at, s) == Leave(Crashed) <==> NegativeCopy(dev, room, s)
  {
  }

  ghost predicate ReachesNegativeCopy(dev: Device, room: nat, at: nat, s: seq<byte>, n: nat)
    requires dev.Valid()
  {
    var v := Reached(FRounds(dev), room, at, s, n);
    v.Some? && NegativeCopy(dev, v.value.0, v.value.2)
  }

  /** Exactly the inputs on which the driver copies a negative length. */
  lemma CrashIff(dev: Device, room: nat, at: nat, s: seq<byte>)
    requires dev.Valid()
    ensures FDecode(dev, room, at, s).fate.Crashed? <==> exists n: nat :: ReachesNegativeCopy(dev, room, at, s, n)
  {
    var body := FRounds(dev);
    FateIff(body, room, at, s, Crashed);
    forall n: nat ensures LeavesAt(body, room, at, s, n, Crashed) <==> ReachesNegativeCopy(dev, room, at, s, n) {
      var v := Reached(body, room, at, s, n);
      if v.Some? {
        CrashFrontIff(dev, v.value.0, v.value.1, v.value.2);
      }
    }
  }

  /** No frame of the input claims more padding than it has bytes. */
  ghost predicate WellPadded(s: seq<byte>)
    decreases |s|
  {
    |s| > HEADER_LEN && PktLen(s) + HEADER_LEN <= |s| ==>
      Pad(s) <= PktLen(s) && WellPadded(s[PktLen(s) + HEADER_LEN..])
  }

  lemma {:induction false} WellPaddedTrimmed(dev: Device, room: nat, at: nat, s: seq<byte>)
    requires dev.Valid() && WellPadded(s)
    ensures var d := FDecode(dev, room, at, s);
      NoneLoose(d.pkts) && !d.fate.Crashed?
    decreases |s|
  {
    var st := FRounds(dev)(room, at, s);
    if st.Leave? {
    } else {
      WellPaddedTrimmed(dev, NextRoom(room, st, s), at + st.n, s[st.n..]);
    }
  }

  /** On such inputs nothing is left untrimmed and nothing crashes, so sharing is copying. */
  lemma WellPaddedIsCopying(dev: Device, room: nat, at: nat, s: seq<byte>)
    requires dev.Valid() && WellPadded(s)
    ensures var d := FDecode(dev, room, at, s);
      !d.fate.Crashed? && Decoded(Pkts(d.pkts), d.fate) == CopyDecode(dev, s)
  {
    WellPaddedTrimmed(dev, room, at, s);
    CopyIff(dev, room, at, s);
  }

  /** One registered channel. */
  const EXAMPLE_DEV := Device(1, [Some([1, 1, 1, 1, 1, 1])])

  /** Five bytes without headroom: one byte of IPv4 that claims twenty bytes of padding. */
  lemma CrashExample()
    ensures EXAMPLE_DEV.Valid() && FDecode(EXAMPLE_DEV, 0, 0, [20, 0x81, 0, 1, 0x45]) == Decoded([], Crashed)
  {
    assert FRounds(EXAMPLE_DEV)(0, 0, [20, 0x81, 0, 1, 0x45]) == Leave(Crashed);
  }
}
