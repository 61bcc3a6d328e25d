/**
 * The receive path of the Fibocom driver: packets are handed out as windows into the input buffer,
 * each gets an Ethernet header written just before its payload, and a single headroom counter
 * decides between sharing the buffer and copying out of it.
 */
module ZeroCopyRx {
  import opened Bytes
  import opened QmapFrame
  import opened PullLoop
  import opened QmapDecode
  import opened FibocomDecode
  import opened FibocomCopy

  const MODEM_ADDR: seq<byte> := [0x02, 0x50, 0xf3, 0, 0, 0]
  /** How far before a frame the Ethernet header of its packet starts. */
  const REACH: nat := ETH_HLEN - HEADER_LEN

  // What is delivered --------------------------------------------------------------------------

  /** An Ethernet frame given to the network stack for a channel. */
  datatype Delivery = Delivery(chan: nat, bytes: seq<byte>)

  ghost predicate Registered(dev: Device, p: Packet) {
    dev.Valid() && p.chan < dev.mode && dev.nets[p.chan].Some?
  }

  function EthHeader(dev: Device, p: Packet): (h: seq<byte>)
    requires Registered(dev, p)
    ensures |h| == ETH_HLEN
  {
    dev.nets[p.chan].value + MODEM_ADDR + (if p.ipv6 then [0x86, 0xdd] else [0x08, 0x00])
  }

  ghost predicate For(dev: Device, x: Item) {
    Registered(dev, x.pkt)
  }

  ghost predicate ForDevice(dev: Device, xs: seq<Item>) {
    dev.Valid() && forall i :: 0 <= i < |xs| ==> For(dev, xs[i])
  }

  function Ethernet(dev: Device, p: Packet): Delivery
    requires Registered(dev, p)
  {
    Delivery(p.chan, EthHeader(dev, p) + p.payload)
  }

  /** The packet as it is handed out: its header and the bytes of its window or copy. */
  function Due(dev: Device, x: Item): Delivery
    requires For(dev, x)
  {
    Ethernet(dev, x.pkt)
  }

  /** `m` with the bytes `h` written over it from `k` on. */
  function Patched(m: seq<byte>, k: nat, h: seq<byte>): (r: seq<byte>)
    ensures |r| == |m|
    ensures forall i :: 0 <= i < |m| ==> r[i] == if k <= i < k + |h| then h[i - k] else m[i]
  {
    seq(|m|, i requires 0 <= i < |m| => if k <= i < k + |h| then h[i - k] else m[i])
  }

  /** The header of `x` lands in the windows of earlier loose packets, which run past its frame. */
  function Overlaid(dev: Device, ds: seq<Delivery>, xs: seq<Item>, x: Item): (r: seq<Delivery>)
    requires |ds| == |xs| && For(dev, x)
    ensures |r| == |ds|
  {
    seq(|ds|, k requires 0 <= k < |ds| =>
      if x.shared && xs[k].loose && xs[k].at <= x.at
      then ds[k].(bytes := Patched(ds[k].bytes, x.at - xs[k].at, EthHeader(dev, x.pkt))) else ds[k])
  }

  /** What the packets of one call read as once all of them have been handed out. */
  function Settled(dev: Device, xs: seq<Item>): (ds: seq<Delivery>)
    requires ForDevice(dev, xs)
    ensures |ds| == |xs|
  {
    if xs == [] then []
    else
      var n := |xs| - 1;
      Overlaid(dev, Settled(dev, xs[..n]), xs[..n], xs[n]) + [Due(dev, xs[n])]
  }

  // Memory -------------------------------------------------------------------------------------

  /** A queued packet: a window into a shared buffer, or bytes of its own. */
  datatype Queued =
    | Clone(chan: nat, buf: array<byte>, off: nat, len: nat)
    | Copied(chan: nat, bytes: seq<byte>)

  ghost predicate InBounds(q: Queued) {
    q.Clone? ==> q.off + q.len <= q.buf.Length
  }

  function Now(q: Queued): Delivery
    requires InBounds(q)
    reads if q.Clone? then {q.buf} else {}
  {
    match q
    case Clone(chan, buf, off, len) => Delivery(chan, buf[off..off + len])
    case Copied(chan, bytes) => Delivery(chan, bytes)
  }

  ghost function Buffers(qs: seq<Queued>): set<array<byte>> {
    set q | q in qs && q.Clone? :: q.buf
  }

  /** Each queued packet currently reads as the delivery it stands for. */
  ghost predicate Reads(qs: seq<Queued>, ds: seq<Delivery>)
    reads Buffers(qs)
  {
    && |qs| == |ds|
    && forall i :: 0 <= i < |qs| ==> InBounds(qs[i]) && Now(qs[i]) == ds[i]
  }

  lemma WholeWindow(buf: array<byte>, from: nat, to: nat)
    requires from <= to <= buf.Length
    ensures buf[..][from..to] == buf[from..to]
  {
  }

  /** A window around the patch sees it at its own offset; a window beside it does not see it. */
  lemma PatchedWindow(m: seq<byte>, k: nat, h: seq<byte>, from: nat, to: nat)
    requires from <= to <= |m|
    ensures from <= k ==> Patched(m, k, h)[from..to] == Patched(m[from..to], k - from, h)
    ensures to <= k || k + |h| <= from ==> Patched(m, k, h)[from..to] == m[from..to]
  {
  }

  /** The patched range reads as the patch. */
  lemma PatchItself(m: seq<byte>, k: nat, h: seq<byte>, to: nat)
    requires k + |h| <= to <= |m|
    ensures Patched(m, k, h)[k..to] == h + m[k + |h|..to]
  {
  }

  /** The queue entry of a packet of the call whose input starts at `data` in `buf`. */
  function Entry(dev: Device, buf: array<byte>, data: nat, x: Item): Queued
    requires For(dev, x)
  {
    if x.shared && REACH <= data + x.at
    then Clone(x.pkt.chan, buf, data + x.at - REACH, ETH_HLEN + |x.pkt.payload|)
    else Copied(x.pkt.chan, EthHeader(dev, x.pkt) + x.pkt.payload)
  }

  /** The memory `m` after `x`, whose frame starts at `pos`, has been handed out. */
  ghost function MemoryAfter(dev: Device, m: seq<byte>, pos: nat, x: Item): (r: seq<byte>)
    requires For(dev, x)
    ensures |r| == |m|
  {
    if x.shared && REACH <= pos then Patched(m, pos - REACH, EthHeader(dev, x.pkt)) else m
  }

  /**
   * Hand out the packet at `pos`: share the buffer when the headroom before it suffices for an
   * Ethernet header, copy otherwise, and put the header in front. Sharing overwrites the fourteen
   * bytes before the payload and nothing else; copying overwrites nothing.
   */
  method HandOut(dev: Device, buf: array<byte>, data: nat, pos: nat, headroom: nat, x: Item) returns (q: Queued)
    requires For(dev, x) && data + x.at == pos && (x.shared <==> headroom >= ETH_HLEN)
    requires Min(headroom, ETH_HLEN) <= pos && pos + HEADER_LEN + |x.pkt.payload| <= buf.Length
    requires x.pkt.payload == buf[pos + HEADER_LEN..pos + HEADER_LEN + |x.pkt.payload|]
    modifies buf
    ensures q == Entry(dev, buf, data, x) && InBounds(q) && Now(q) == Due(dev, x)
    ensures buf[..] == MemoryAfter(dev, old(buf[..]), pos, x)
  {
    var header := EthHeader(dev, x.pkt);
    var len := |x.pkt.payload|;
    if headroom >= ETH_HLEN {
      ghost var m := buf[..];
      var start := pos - REACH;
      forall i | 0 <= i < ETH_HLEN {
        buf[start + i] := header[i];
      }
      assert buf[..] == Patched(m, start, header);
      q := Clone(x.pkt.chan, buf, start, ETH_HLEN + len);
      PatchItself(m, start, header, start + ETH_HLEN + len);
      WholeWindow(buf, start, start + ETH_HLEN + len);
    } else {
      q := Copied(x.pkt.chan, header + buf[pos + HEADER_LEN..pos + HEADER_LEN + len]);
    }
  }

  // The packets of one call --------------------------------------------------------------------

  function Entries(dev: Device, buf: array<byte>, data: nat, xs: seq<Item>): (qs: seq<Queued>)
    requires ForDevice(dev, xs)
    ensures |qs| == |xs|
  {
    if xs == [] then []
    else Entries(dev, buf, data, xs[..|xs| - 1]) + [Entry(dev, buf, data, xs[|xs| - 1])]
  }

  /** The memory after all of `xs` have been handed out. */
  ghost function Memory(dev: Device, m: seq<byte>, data: nat, xs: seq<Item>): (r: seq<byte>)
    requires ForDevice(dev, xs)
    ensures |r| == |m|
  {
    if xs == [] then m
    else
      var x := xs[|xs| - 1];
      MemoryAfter(dev, Memory(dev, m, data, xs[..|xs| - 1]), data + x.at, x)
  }

  lemma CallSnoc(dev: Device, m: seq<byte>, buf: array<byte>, data: nat, xs: seq<Item>, x: Item)
    requires ForDevice(dev, xs) && For(dev, x)
    ensures ForDevice(dev, xs + [x])
    ensures Entries(dev, buf, data, xs + [x]) == Entries(dev, buf, data, xs) + [Entry(dev, buf, data, x)]
    ensures Memory(dev, m, data, xs + [x]) == MemoryAfter(dev, Memory(dev, m, data, xs), data + x.at, x)
    ensures Settled(dev, xs + [x]) == Overlaid(dev, Settled(dev, xs), xs, x) + [Due(dev, x)]
  {
    assert (xs + [x])[..|xs|] == xs;
  }

  /** What a queue entry reads as when the shared buffer holds `m`. */
  ghost predicate SeesIn(q: Queued, m: seq<byte>, d: Delivery) {
    match q
    case Clone(chan, _, off, len) => off + len <= |m| && d == Delivery(chan, m[off..off + len])
    case Copied(chan, bytes) => d == Delivery(chan, bytes)
  }

  ghost predicate ReadsIn(qs: seq<Queued>, m: seq<byte>, ds: seq<Delivery>) {
    |qs| == |ds| && forall k :: 0 <= k < |qs| ==> SeesIn(qs[k], m, ds[k])
  }

  /**
   * The queue entry of `x` in a call whose input is `buf[data..end]`, read up to `pos`, with `room`
   * bytes of headroom left: its own bytes, or a window that starts at its header and ends before the
   * headroom as far as a header reaches into it, or at the end of the input if it is loose.
   */
  ghost predicate PlacedOne(q: Queued, x: Item, data: nat, end: nat, pos: nat, room: nat) {
    && (q.Clone? <==> x.shared) && (x.loose ==> x.shared) && data + x.at <= pos
    && (q.Clone? ==>
          && q.off + REACH == data + x.at
          && if x.loose then q.off + q.len == end else q.off + q.len <= pos - Min(room, ETH_HLEN))
  }

  ghost predicate Placed(qs: seq<Queued>, xs: seq<Item>, data: nat, end: nat, pos: nat, room: nat) {
    && |qs| == |xs| && Min(room, ETH_HLEN) <= pos <= end
    && forall k :: 0 <= k < |qs| ==> PlacedOne(qs[k], xs[k], data, end, pos, room)
  }

  /** Skipped frames only move the windows further away. */
  lemma PlacedSkip(qs: seq<Queued>, xs: seq<Item>, data: nat, end: nat, pos: nat, room: nat, n: nat)
    requires Placed(qs, xs, data, end, pos, room) && pos + n <= end
    ensures Placed(qs, xs, data, end, pos + n, room)
  {
  }

  lemma PlacedSnoc(qs: seq<Queued>, xs: seq<Item>, data: nat, end: nat, pos: nat, room: nat,
                   q: Queued, x: Item, pos': nat, room': nat)
    requires Placed(qs, xs, data, end, pos, room)
    requires PlacedOne(q, x, data, end, pos', room')
    requires pos <= pos' <= end && pos - Min(room, ETH_HLEN) <= pos' - Min(room', ETH_HLEN)
    ensures Placed(qs + [q], xs + [x], data, end, pos', room')
  {
  }

  /** An earlier packet after `x` has been handed out: only a loose one sees the new header. */
  lemma SeesAfter(dev: Device, m: seq<byte>, q: Queued, y: Item, d: Delivery, x: Item,
                  data: nat, end: nat, pos: nat, room: nat)
    requires For(dev, x) && data + x.at == pos && (x.shared <==> room >= ETH_HLEN) && Min(room, ETH_HLEN) <= pos
    requires SeesIn(q, m, d) && PlacedOne(q, y, data, end, pos, room)
    ensures SeesIn(q, MemoryAfter(dev, m, pos, x), Overlaid(dev, [d], [y], x)[0])
  {
    if q.Clone? && x.shared {
      PatchedWindow(m, pos - REACH, EthHeader(dev, x.pkt), q.off, q.off + q.len);
    }
  }

  lemma ReadsAfter(dev: Device, m: seq<byte>, qs: seq<Queued>, xs: seq<Item>, ds: seq<Delivery>, x: Item,
                   data: nat, end: nat, pos: nat, room: nat)
    requires For(dev, x) && data + x.at == pos && (x.shared <==> room >= ETH_HLEN)
    requires ReadsIn(qs, m, ds) && Placed(qs, xs, data, end, pos, room)
    ensures ReadsIn(qs, MemoryAfter(dev, m, pos, x), Overlaid(dev, ds, xs, x))
  {
    forall k | 0 <= k < |qs| ensures SeesIn(qs[k], MemoryAfter(dev, m, pos, x), Overlaid(dev, ds, xs, x)[k]) {
      SeesAfter(dev, m, qs[k], xs[k], ds[k], x, data, end, pos, room);
    }
  }

  /** The new packet reads as header and payload. */
  lemma SeesItself(dev: Device, m: seq<byte>, s: seq<byte>, buf: array<byte>, x: Item, data: nat, pos: nat, end: nat)
    requires CutAt(dev, s, x) && data + x.at == pos && (x.shared ==> REACH <= pos)
    requires pos + |s| == end <= |m| && m[pos..end] == s
    ensures SeesIn(Entry(dev, buf, data, x), MemoryAfter(dev, m, pos, x), Due(dev, x))
  {
    var to := pos + HEADER_LEN + |x.pkt.payload|;
    SubSlice(m, pos, end, HEADER_LEN, HEADER_LEN + |x.pkt.payload|);
    if x.shared {
      PatchItself(m, pos - REACH, EthHeader(dev, x.pkt), to);
    }
  }

  /** Where the new entry lies, and that the headroom keeps clear of everything. */
  lemma PlacedNext(dev: Device, qs: seq<Queued>, xs: seq<Item>, data: nat, end: nat, pos: nat,
                   room: nat, buf: array<byte>, x: Item, s: seq<byte>)
    requires Placed(qs, xs, data, end, pos, room) && pos + |s| == end
    requires CutAt(dev, s, x) && data + x.at == pos && (x.shared <==> room >= ETH_HLEN)
    ensures var room' := if x.shared then Pad(s) else PktLen(s);
      Placed(qs + [Entry(dev, buf, data, x)], xs + [x], data, end, pos + PktLen(s) + HEADER_LEN, room')
  {
    var room' := if x.shared then Pad(s) else PktLen(s);
    PlacedSnoc(qs, xs, data, end, pos, room, Entry(dev, buf, data, x), x, pos + PktLen(s) + HEADER_LEN, room');
  }

  /** The unread input is beyond everything that is written. */
  lemma UnreadAfter(dev: Device, m: seq<byte>, pos: nat, x: Item, n: nat, end: nat)
    requires For(dev, x) && HEADER_LEN <= n && pos + n <= end <= |m|
    ensures MemoryAfter(dev, m, pos, x)[pos + n..end] == m[pos..end][n..]
  {
    if x.shared && REACH <= pos {
      PatchedWindow(m, pos - REACH, EthHeader(dev, x.pkt), pos + n, end);
    }
  }

  /** All packets handed out so far read as they should. */
  ghost predicate Settles(dev: Device, m: seq<byte>, buf: array<byte>, data: nat, xs: seq<Item>) {
    ForDevice(dev, xs) && ReadsIn(Entries(dev, buf, data, xs), Memory(dev, m, data, xs), Settled(dev, xs))
  }

  /** And the headroom is clear of them, and `s` is still unread. */
  ghost predicate Laid(dev: Device, m: seq<byte>, buf: array<byte>, data: nat, end: nat, pos: nat, room: nat,
                       xs: seq<Item>, s: seq<byte>)
  {
    && Settles(dev, m, buf, data, xs) && pos + |s| == end <= |m|
    && Placed(Entries(dev, buf, data, xs), xs, data, end, pos, room)
    && Memory(dev, m, data, xs)[pos..end] == s
  }

  lemma LaidNext(dev: Device, m: seq<byte>, buf: array<byte>, data: nat, end: nat,
                 room: nat, at: nat, s: seq<byte>, xs: seq<Item>, x: Item)
    requires Laid(dev, m, buf, data, end, data + at, room, xs, s)
    requires CutAt(dev, s, x) && x.at == at && (x.shared <==> room >= ETH_HLEN)
    ensures var n := PktLen(s) + HEADER_LEN;
      Laid(dev, m, buf, data, end, data + (at + n), if x.shared then Pad(s) else PktLen(s), xs + [x], s[n..])
  {
    var qs, was, pos := Entries(dev, buf, data, xs), Memory(dev, m, data, xs), data + at;
    CallSnoc(dev, m, buf, data, xs, x);
    ReadsAfter(dev, was, qs, xs, Settled(dev, xs), x, data, end, pos, room);
    SeesItself(dev, was, s, buf, x, data, pos, end);
    PlacedNext(dev, qs, xs, data, end, pos, room, buf, x, s);
    UnreadAfter(dev, was, pos, x, PktLen(s) + HEADER_LEN, end);
  }

  lemma LaidSkip(dev: Device, m: seq<byte>, buf: array<byte>, data: nat, end: nat,
                 room: nat, at: nat, s: seq<byte>, xs: seq<Item>, n: nat)
    requires Laid(dev, m, buf, data, end, data + at, room, xs, s) && n <= |s|
    ensures Laid(dev, m, buf, data, end, data + (at + n), room, xs, s[n..])
  {
    PlacedSkip(Entries(dev, buf, data, xs), xs, data, end, data + at, room, n);
  }

  /** A round that goes on: it pulls its frame, and its packet is cut from that frame. */
  ghost predicate GoesOn(dev: Device, room: nat, at: nat, rest: seq<byte>, step: Step<Item>) {
    && |rest| >= HEADER_LEN && step.Move? && HEADER_LEN <= step.n == PktLen(rest) + HEADER_LEN <= |rest|
    && (step.out.Some? ==>
          var x := step.out.value;
          CutAt(dev, rest, x) && x.at == at && (x.shared <==> room >= ETH_HLEN))
  }

  /** A loop body whose rounds pull whole frames and cut their packets from them. */
  ghost predicate WellBehaved(dev: Device, body: Body) {
    forall room: nat, at: nat, s: seq<byte> {:trigger GoesOn(dev, room, at, s, body(room, at, s))} ::
      body(room, at, s).Move? ==> GoesOn(dev, room, at, s, body(room, at, s))
  }

  /** A device with a loop body for it. */
  datatype Hook = Hook(dev: Device, body: Body)
  {
    ghost predicate Valid() {
      dev.Valid() && WellBehaved(dev, body)
    }
  }

  /** The driver's own loop body is well behaved. */
  lemma DriverBehaves(dev: Device)
    requires dev.Valid()
    ensures WellBehaved(dev, FRounds(dev)) && Hook(dev, FRounds(dev)).Valid()
  {
    forall room: nat, at: nat, s: seq<byte> | FRounds(dev)(room, at, s).Move?
      ensures GoesOn(dev, room, at, s, FRounds(dev)(room, at, s))
    {
      if FRound(dev, room, at, s).out.Some? {
        RoundCuts(dev, room, at, s);
      }
    }
  }

  /** The claim that the loop keeps: everything handed out is laid out as it should be. */
  ghost function LaidClaim(dev: Device, m: seq<byte>, buf: array<byte>, data: nat, end: nat): Claim {
    (room: nat, at: nat, s: seq<byte>, xs: seq<Item>) => Laid(dev, m, buf, data, end, data + at, room, xs, s)
  }

  lemma RoundKeepsLaid(dev: Device, body: Body, m: seq<byte>, buf: array<byte>, data: nat, end: nat,
                       room: nat, at: nat, s: seq<byte>, xs: seq<Item>)
    requires WellBehaved(dev, body)
    ensures KeptAt(body, LaidClaim(dev, m, buf, data, end), room, at, s, xs)
  {
    var st, claim := body(room, at, s), LaidClaim(dev, m, buf, data, end);
    if claim(room, at, s, xs) && Pulls(st, s) {
      assert GoesOn(dev, room, at, s, st);
      if st.out.Some? {
        LaidNext(dev, m, buf, data, end, room, at, s, xs, st.out.value);
      } else {
        LaidSkip(dev, m, buf, data, end, room, at, s, xs, st.n);
        Units(xs);
      }
      assert claim(NextRoom(room, st, s), at + st.n, s[st.n..], xs + Emitted(st));
    }
  }

  /** Whenever the loop stops, after `k` packets, all of them read as they should. */
  lemma AllSettle(dev: Device, body: Body, m: seq<byte>, buf: array<byte>, data: nat, len: nat, k: nat)
    requires dev.Valid() && WellBehaved(dev, body) && data + len <= |m|
    requires k <= |RoomLoop(body, data, 0, m[data..data + len]).pkts|
    ensures Settles(dev, m, buf, data, RoomLoop(body, data, 0, m[data..data + len]).pkts[..k])
  {
    var s, claim := m[data..data + len], LaidClaim(dev, m, buf, data, data + len);
    assert Laid(dev, m, buf, data, data + len, data, data, [], s);
    assert claim(data, 0, s, []);
    forall room: nat, at: nat, t: seq<byte>, xs: seq<Item> ensures KeptAt(body, claim, room, at, t, xs) {
      RoundKeepsLaid(dev, body, m, buf, data, data + len, room, at, t, xs);
    }
    LoopKeeps(body, claim, data, 0, s, [], k);
    var xs := RoomLoop(body, data, 0, s).pkts[..k];
    Units(xs);
    ClaimSettles(dev, m, buf, data, data + len, xs);
  }

  lemma ClaimSettles(dev: Device, m: seq<byte>, buf: array<byte>, data: nat, end: nat, xs: seq<Item>)
    requires exists room: nat, at: nat, t: seq<byte> :: LaidClaim(dev, m, buf, data, end)(room, at, t, xs)
    ensures Settles(dev, m, buf, data, xs)
  {
    var room: nat, at: nat, t: seq<byte> :| LaidClaim(dev, m, buf, data, end)(room, at, t, xs);
    assert Laid(dev, m, buf, data, end, data + at, room, xs, t);
  }

  // Which packets are disturbed ----------------------------------------------------------------

  /** The packets come from frames of `s`, in order. */
  ghost predicate InOrder(dev: Device, s: seq<byte>, xs: seq<Item>) {
    && (forall i :: 0 <= i < |xs| ==> xs[i].at <= |s| && CutAt(dev, s[xs[i].at..], xs[i]))
    && (forall i, j :: 0 <= i < j < |xs| ==> xs[i].at + HEADER_LEN <= xs[j].at)
  }

  ghost function LinedClaim(dev: Device, input: seq<byte>): Claim {
    (room: nat, at: nat, s: seq<byte>, xs: seq<Item>) =>
      && at <= |input| && s == input[at..] && InOrder(dev, input, xs)
      && forall i :: 0 <= i < |xs| ==> xs[i].at + HEADER_LEN <= at
  }

  lemma RoundKeepsLined(dev: Device, body: Body, input: seq<byte>, room: nat, at: nat, s: seq<byte>, xs: seq<Item>)
    requires WellBehaved(dev, body)
    ensures KeptAt(body, LinedClaim(dev, input), room, at, s, xs)
  {
    var st := body(room, at, s);
    if LinedClaim(dev, input)(room, at, s, xs) && Pulls(st, s) {
      assert GoesOn(dev, room, at, s, st);
      assert s[st.n..] == input[at + st.n..];
    }
  }

  lemma DecodedLined(dev: Device, body: Body, room: nat, s: seq<byte>, k: nat)
    requires WellBehaved(dev, body) && k <= |RoomLoop(body, room, 0, s).pkts|
    ensures InOrder(dev, s, RoomLoop(body, room, 0, s).pkts[..k])
    ensures dev.Valid() ==> ForDevice(dev, RoomLoop(body, room, 0, s).pkts[..k])
  {
    var claim := LinedClaim(dev, s);
    assert s == s[0..];
    assert claim(room, 0, s, []);
    forall r: nat, at: nat, t: seq<byte>, xs: seq<Item> ensures KeptAt(body, claim, r, at, t, xs) {
      RoundKeepsLined(dev, body, s, r, at, t, xs);
    }
    LoopKeeps(body, claim, room, 0, s, [], k);
    Units(RoomLoop(body, room, 0, s).pkts[..k]);
  }

  /** The packet is loose and a later one of the call shares the buffer. */
  ghost predicate Spoiled(xs: seq<Item>, i: nat) {
    i < |xs| && xs[i].loose && exists j :: i < j < |xs| && xs[j].shared
  }

  /** A later header in a loose packet is always noticed: it has a zero where the channel id was. */
  lemma HeaderShows(dev: Device, s: seq<byte>, y: Item, x: Item, bytes: seq<byte>)
    requires y.at <= |s| && CutAt(dev, s[y.at..], y) && y.loose
    requires x.at <= |s| && CutAt(dev, s[x.at..], x) && y.at + HEADER_LEN <= x.at
    requires |bytes| == |Due(dev, y).bytes|
    ensures Patched(bytes, x.at - y.at, EthHeader(dev, x.pkt)) != Due(dev, y).bytes
  {
    var h, p := EthHeader(dev, x.pkt), x.at - y.at + 11;
    assert h[11] == MODEM_ADDR[5] == 0;
    assert Due(dev, y).bytes[p] == y.pkt.payload[p - ETH_HLEN] == s[y.at..][p - REACH] == s[x.at + 1];
    assert s[x.at..][1] == s[x.at + 1];
    assert Patched(bytes, x.at - y.at, h)[p] == h[11];
  }

  lemma {:induction false} SettledSizes(dev: Device, xs: seq<Item>, i: nat)
    requires ForDevice(dev, xs) && i < |xs|
    ensures |Settled(dev, xs)[i].bytes| == |Due(dev, xs[i]).bytes| && Settled(dev, xs)[i].chan == xs[i].pkt.chan
  {
    var n := |xs| - 1;
    if i < n {
      SettledSizes(dev, xs[..n], i);
    }
  }

  /**
   * Exactly which packets of a call no longer read as they were handed out once the call is over: those
   * cut from an over-padded frame and followed by another packet that shares the buffer.
   */
  lemma {:induction false} SpoiledIff(dev: Device, s: seq<byte>, xs: seq<Item>, i: nat)
    requires dev.Valid() && ForDevice(dev, xs) && InOrder(dev, s, xs) && i < |xs|
    ensures Settled(dev, xs)[i] != Due(dev, xs[i]) <==> Spoiled(xs, i)
  {
    var n := |xs| - 1;
    if i < n {
      var init, x := xs[..n], xs[n];
      SpoiledIff(dev, s, init, i);
      SettledEarlier(dev, xs, i);
      SpoiledEarlier(xs, i);
      if xs[i].loose && x.shared {
        SettledSizes(dev, init, i);
        HeaderShows(dev, s, xs[i], x, Settled(dev, init)[i].bytes);
      }
    }
  }

  /** What the last packet does to an earlier one. */
  lemma SettledEarlier(dev: Device, xs: seq<Item>, i: nat)
    requires ForDevice(dev, xs) && i < |xs| - 1
    ensures var n := |xs| - 1;
      var x, was := xs[n], Settled(dev, xs[..n])[i];
      Settled(dev, xs)[i] ==
        if x.shared && xs[i].loose && xs[i].at <= x.at
        then was.(bytes := Patched(was.bytes, x.at - xs[i].at, EthHeader(dev, x.pkt))) else was
  {
  }

  lemma SpoiledEarlier(xs: seq<Item>, i: nat)
    requires i < |xs| - 1
    ensures Spoiled(xs, i) <==> Spoiled(xs[..|xs| - 1], i) || (xs[i].loose && xs[|xs| - 1].shared)
  {
    var init := xs[..|xs| - 1];
    assert forall j :: 0 <= j < |init| ==> init[j] == xs[j];
    if Spoiled(xs, i) && !xs[|xs| - 1].shared {
      var j :| i < j < |xs| && xs[j].shared;
      assert init[j].shared;
    }
  }

  /** Without over-padded frames every packet reads as it was handed out. */
  lemma NoneSpoiled(dev: Device, s: seq<byte>, xs: seq<Item>)
    requires dev.Valid() && ForDevice(dev, xs) && InOrder(dev, s, xs)
    requires forall i :: 0 <= i < |xs| ==> !xs[i].loose
    ensures forall i :: 0 <= i < |xs| ==> Settled(dev, xs)[i] == Due(dev, xs[i])
  {
    forall i | 0 <= i < |xs| ensures Settled(dev, xs)[i] == Due(dev, xs[i]) {
      SpoiledIff(dev, s, xs, i);
    }
  }

  /** A frame of one byte that claims twenty bytes of padding, and a frame of one byte without any. */
  const EXAMPLE: seq<byte> := [20, 0x81, 0, 1, 0x45, 0, 0x81, 0, 1, 0x45]

  lemma ExampleSecond(room: nat, rest: seq<byte>)
    requires rest == [0, 0x81, 0, 1, 0x45]
    ensures FDecode(EXAMPLE_DEV, room, 5, rest)
         == Decoded([Item(Packet(0, false, [0x45]), 5, room >= ETH_HLEN, false)], Drained)
  {
    var st := FRounds(EXAMPLE_DEV)(room, 5, rest);
    assert rest[4..5] == [0x45] && rest[5..] == [];
    assert st == Move(5, Some(Item(Packet(0, false, [0x45]), 5, room >= ETH_HLEN, false)));
    assert RoomLoop(FRounds(EXAMPLE_DEV), NextRoom(room, st, rest), 10, []) == Decoded([], Drained);
    Units([st.out.value]);
  }

  lemma ExampleItems()
    ensures EXAMPLE_DEV.Valid() && FDecode(EXAMPLE_DEV, ETH_HLEN, 0, EXAMPLE) ==
      Decoded([Item(Packet(0, false, EXAMPLE[HEADER_LEN..]), 0, true, true),
               Item(Packet(0, false, [0x45]), 5, true, false)], Drained)
  {
    var st := FRounds(EXAMPLE_DEV)(ETH_HLEN, 0, EXAMPLE);
    assert st == Move(5, Some(Item(Packet(0, false, EXAMPLE[HEADER_LEN..]), 0, true, true)));
    ExampleSecond(20, EXAMPLE[5..]);
  }

  /** The packet of the first frame runs to the end of the input and gets the header of the second. */
  lemma SpoiledExample()
    ensures EXAMPLE_DEV.Valid()
    ensures var xs := FDecode(EXAMPLE_DEV, ETH_HLEN, 0, EXAMPLE).pkts;
      |xs| == 2 && ForDevice(EXAMPLE_DEV, xs) && Settled(EXAMPLE_DEV, xs)[0] != Due(EXAMPLE_DEV, xs[0])
  {
    ExampleItems();
    var xs := FDecode(EXAMPLE_DEV, ETH_HLEN, 0, EXAMPLE).pkts;
    DriverBehaves(EXAMPLE_DEV);
    DecodedLined(EXAMPLE_DEV, FRounds(EXAMPLE_DEV), ETH_HLEN, EXAMPLE, 2);
    assert xs[..2] == xs && xs[1].shared;
    SpoiledIff(EXAMPLE_DEV, EXAMPLE, xs, 0);
  }
}
