/**
 * All channels of a device at once. Each channel batches on its own; they share the settings and the
 * bus, on which their buffers arrive in whatever order the channels detach them.
 */
module TxDevice {
  import opened Bytes
  import opened QmapFrame
  import opened TxAggregator
  import opened QmapDecode
  import opened TxMachine

  /** What all channels have in common. */
  datatype Setup = Setup(version: Version, times: Times)
  {
    function At(i: nat): Channel {
      Channel(version, i, times)
    }
  }

  /** The channels' states, the shared bus, and which channel each buffer on it came from. */
  datatype Device = Device(chans: seq<State>, bus: seq<seq<byte>>, owners: seq<nat>)

  /** A step of one channel, or one store of the settings change, which every channel sees. */
  datatype DeviceEvent = On(i: nat, e: Event) | OnAll(e: Event)

  /** The stores of the settings change. */
  predicate IsStore(e: Event) {
    e.StoreDatagrams? || e.StoreSize?
  }

  function FreshDevice(n: nat, now: int): Device {
    Device(seq(n, i => Init(now)), [], [])
  }

  predicate DeviceEnabled(d: Device, e: DeviceEvent) {
    && |d.chans| <= MAX_CHANNELS
    && (forall j :: 0 <= j < |d.chans| ==> !d.chans[j].overrun)
    && match e
       case On(i, ev) => i < |d.chans| && !IsStore(ev) && Enabled(d.chans[i], ev)
       case OnAll(ev) => IsStore(ev) && forall j :: 0 <= j < |d.chans| ==> Enabled(d.chans[j], ev)
  }

  function DeviceStep(u: Setup, d: Device, e: DeviceEvent): Device
    requires DeviceEnabled(d, e)
  {
    match e
    case On(i, ev) =>
      var s := d.chans[i];
      var s' := Step(u.At(i), s, ev);
      if |s'.bus| > |s.bus| then
        Device(d.chans[i := s'], d.bus + [s'.bus[|s'.bus| - 1]], d.owners + [i])
      else d.(chans := d.chans[i := s'])
    case OnAll(ev) =>
      d.(chans := seq(|d.chans|, j requires 0 <= j < |d.chans| => Step(u.At(j), d.chans[j], ev)))
  }

  function DeviceRun(u: Setup, n: nat, now: int, es: seq<DeviceEvent>): Option<Device> {
    if es == [] then Some(FreshDevice(n, now))
    else
      var d := DeviceRun(u, n, now, es[..|es| - 1]);
      if d.Some? && DeviceEnabled(d.value, es[|es| - 1])
      then Some(DeviceStep(u, d.value, es[|es| - 1])) else None
  }

  /** The buffers of channel `i`, in bus order. */
  function Owned(bus: seq<seq<byte>>, owners: seq<nat>, i: nat): seq<seq<byte>>
    requires |bus| == |owners|
  {
    if bus == [] then []
    else
      var n := |bus| - 1;
      Owned(bus[..n], owners[..n], i) + if owners[n] == i then [bus[n]] else []
  }

  /** Every channel satisfies the single-channel invariant. */
  ghost predicate ChansOk(u: Setup, chans: seq<State>) {
    |chans| <= MAX_CHANNELS && forall i :: 0 <= i < |chans| ==> Inv(u.At(i), chans[i])
  }

  /** The shared bus is made of the channels' own buffers. */
  ghost predicate SharedBusOk(d: Device) {
    && |d.bus| == |d.owners|
    && (forall k :: 0 <= k < |d.owners| ==> d.owners[k] < |d.chans|)
    && forall i :: 0 <= i < |d.chans| ==> Owned(d.bus, d.owners, i) == d.chans[i].bus
  }

  ghost predicate DeviceInv(u: Setup, d: Device) {
    ChansOk(u, d.chans) && SharedBusOk(d)
  }

  lemma OwnedSnoc(bus: seq<seq<byte>>, owners: seq<nat>, b: seq<byte>, o: nat, i: nat)
    requires |bus| == |owners|
    ensures Owned(bus + [b], owners + [o], i) == Owned(bus, owners, i) + if o == i then [b] else []
  {
    assert (bus + [b])[..|bus|] == bus && (owners + [o])[..|owners|] == owners;
  }

  /** One step detaches at most one buffer, at the end of the channel's own list. */
  lemma StepDetaches(c: Channel, s: State, e: Event)
    requires c.Valid() && Enabled(s, e)
    ensures var s' := Step(c, s, e);
      s'.bus == s.bus || (s'.bus != [] && s'.bus == s.bus + [s'.bus[|s'.bus| - 1]])
    ensures IsStore(e) ==> Step(c, s, e).bus == s.bus
  {
    if e.NewPacket? {
      PassDetaches(s, UnderLock(s.priv, s.ctx, c.times, c.Wire(s.sub.x), e.env));
    }
  }

  lemma PassDetaches(s: State, r: Pass)
    requires s.sub.Looping?
    ensures var s' := Passed(s, r);
      s'.bus == s.bus || (s'.bus != [] && s'.bus == s.bus + [s'.bus[|s'.bus| - 1]])
  {
  }

  lemma StepKeepsChans(u: Setup, d: Device, e: DeviceEvent)
    requires ChansOk(u, d.chans) && DeviceEnabled(d, e)
    ensures ChansOk(u, DeviceStep(u, d, e).chans)
  {
    var chans := DeviceStep(u, d, e).chans;
    forall j | 0 <= j < |chans| ensures Inv(u.At(j), chans[j]) {
      match e
      case On(i, ev) =>
        if i == j {
          StepKeepsInv(u.At(i), d.chans[i], ev);
        } else {
          assert chans[j] == d.chans[j];
        }
      case OnAll(ev) =>
        StepKeepsInv(u.At(j), d.chans[j], ev);
    }
  }

  /** Appending a buffer of channel `i` to the bus and to that channel's own list. */
  lemma BusGrows(d: Device, i: nat, s: State, b: seq<byte>)
    requires SharedBusOk(d) && i < |d.chans| && s.bus == d.chans[i].bus + [b]
    ensures SharedBusOk(Device(d.chans[i := s], d.bus + [b], d.owners + [i]))
  {
    var d' := Device(d.chans[i := s], d.bus + [b], d.owners + [i]);
    forall j | 0 <= j < |d'.chans| ensures Owned(d'.bus, d'.owners, j) == d'.chans[j].bus {
      OwnedSnoc(d.bus, d.owners, b, i, j);
      Units(d.chans[j].bus);
    }
  }

  lemma BusStays(d: Device, chans: seq<State>)
    requires SharedBusOk(d) && |chans| == |d.chans|
    requires forall j :: 0 <= j < |chans| ==> chans[j].bus == d.chans[j].bus
    ensures SharedBusOk(d.(chans := chans))
  {
  }

  lemma StepKeepsBus(u: Setup, d: Device, e: DeviceEvent)
    requires SharedBusOk(d) && DeviceEnabled(d, e)
    ensures SharedBusOk(DeviceStep(u, d, e))
  {
    var d' := DeviceStep(u, d, e);
    match e
    case On(i, ev) =>
      var s, s' := d.chans[i], Step(u.At(i), d.chans[i], ev);
      StepDetaches(u.At(i), s, ev);
      if |s'.bus| > |s.bus| {
        BusGrows(d, i, s', s'.bus[|s'.bus| - 1]);
      } else {
        BusStays(d, d'.chans);
      }
    case OnAll(ev) =>
      forall j | 0 <= j < |d'.chans| ensures d'.chans[j].bus == d.chans[j].bus {
        StepDetaches(u.At(j), d.chans[j], ev);
      }
      BusStays(d, d'.chans);
  }

  lemma {:induction false} DeviceRunInv(u: Setup, n: nat, now: int, es: seq<DeviceEvent>)
    requires n <= MAX_CHANNELS
    ensures DeviceRun(u, n, now, es).Some? ==> DeviceInv(u, DeviceRun(u, n, now, es).value)
  {
    if es == [] {
      forall i | 0 <= i < n ensures Inv(u.At(i), Init(now)) {
        InitInv(u.At(i), now);
      }
    } else {
      DeviceRunInv(u, n, now, es[..|es| - 1]);
      if DeviceRun(u, n, now, es).Some? {
        StepKeepsChans(u, DeviceRun(u, n, now, es[..|es| - 1]).value, es[|es| - 1]);
        StepKeepsBus(u, DeviceRun(u, n, now, es[..|es| - 1]).value, es[|es| - 1]);
      }
    }
  }

  // What arrives for one channel ---------------------------------------------------------------

  function ForChan(ps: seq<Packet>, i: nat): seq<Packet> {
    if ps == [] then []
    else (if ps[0].chan == i then [ps[0]] else []) + ForChan(ps[1..], i)
  }

  lemma {:induction false} ForChanAppend(a: seq<Packet>, b: seq<Packet>, i: nat)
    ensures ForChan(a + b, i) == ForChan(a, i) + ForChan(b, i)
  {
    if a == [] {
      Units(b);
      Units(ForChan(b, i));
    } else {
      assert (a + b)[1..] == a[1..] + b;
      ForChanAppend(a[1..], b, i);
      Assoc(if a[0].chan == i then [a[0]] else [], ForChan(a[1..], i), ForChan(b, i));
    }
  }

  lemma {:induction false} ForChanAll(ps: seq<Packet>, o: nat, i: nat)
    requires forall k :: 0 <= k < |ps| ==> ps[k].chan == o
    ensures ForChan(ps, i) == if o == i then ps else []
  {
    if ps == [] {
    } else {
      ForChanAll(ps[1..], o, i);
      assert [ps[0]] + ps[1..] == ps;
    }
  }

  /** Every buffer decodes to packets of the channel that detached it. */
  ghost predicate OwnersTell(cfg: Config, stale: byte, bus: seq<seq<byte>>, owners: seq<nat>)
    requires cfg.Valid()
  {
    && |bus| == |owners|
    && forall k :: 0 <= k < |bus| ==> AllFrom(Decode(cfg, stale, bus[k]).pkts, owners[k])
  }

  ghost predicate AllFrom(ps: seq<Packet>, o: nat) {
    forall k :: 0 <= k < |ps| ==> ps[k].chan == o
  }

  lemma {:induction false} SortOut(cfg: Config, stale: byte, bus: seq<seq<byte>>, owners: seq<nat>, i: nat)
    requires cfg.Valid() && OwnersTell(cfg, stale, bus, owners)
    ensures ForChan(DecodeEach(cfg, stale, bus), i) == DecodeEach(cfg, stale, Owned(bus, owners, i))
    decreases |bus|
  {
    if bus == [] {
    } else {
      var n := |bus| - 1;
      var a, b, o := bus[..n], bus[n], owners[n];
      var mine, ps := Owned(a, owners[..n], i), Decode(cfg, stale, b).pkts;
      assert bus == a + [b] && AllFrom(ps, o);
      SortOut(cfg, stale, a, owners[..n], i);
      DecodeEachAppend(cfg, stale, a, [b]);
      DecodeEachAppend(cfg, stale, mine, [b]);
      DecodeEachOne(cfg, stale, b);
      ForChanAppend(DecodeEach(cfg, stale, a), ps, i);
      ForChanAll(ps, o, i);
      if o != i {
        Units(mine);
        Units(DecodeEach(cfg, stale, mine));
      }
    }
  }

  lemma {:induction false} PacketsFrom(c: Channel, xs: seq<Sent>)
    requires forall i :: 0 <= i < |xs| ==> |xs[i].payload| > 0
    ensures AllFrom(Packets(c, xs), c.chan)
  {
    if xs == [] {
    } else {
      PacketsFrom(c, xs[1..]);
    }
  }

  /** Each channel's own buffers decode to that channel's packets. */
  lemma {:induction false} OwnTell(c: Channel, cfg: Config, stale: byte, bus: seq<seq<byte>>,
                                   batches: seq<seq<Sent>>, k: nat)
    requires c.Valid() && cfg.Valid() && cfg.dlPad == 0 && Carries(c, bus, batches)
    requires AllSendable(c, cfg, Flatten(batches)) && k < |bus|
    ensures AllFrom(Decode(cfg, stale, bus[k]).pkts, c.chan)
    decreases |bus|
  {
    SendableParts(c, cfg, batches[0], Flatten(batches[1..]));
    if k == 0 {
      DecodeBatch(c, cfg, stale, batches[0]);
      PacketsFrom(c, batches[0]);
    } else {
      OwnTell(c, cfg, stale, bus[1..], batches[1..], k - 1);
    }
  }

  /** A buffer on the shared bus is one of its owner's buffers. */
  lemma {:induction false} OwnedHas(bus: seq<seq<byte>>, owners: seq<nat>, k: nat) returns (m: nat)
    requires |bus| == |owners| && k < |bus|
    ensures m < |Owned(bus, owners, owners[k])| && Owned(bus, owners, owners[k])[m] == bus[k]
  {
    var n := |bus| - 1;
    if k == n {
      m := |Owned(bus[..n], owners[..n], owners[k])|;
    } else {
      m := OwnedHas(bus[..n], owners[..n], k);
    }
  }

  ghost predicate EverySendable(u: Setup, cfg: Config, d: Device) {
    forall i :: 0 <= i < |d.chans| ==> AllSendable(u.At(i), cfg, d.chans[i].sent)
  }

  lemma BusTells(u: Setup, cfg: Config, stale: byte, d: Device)
    requires cfg.Valid() && cfg.dlPad == 0 && DeviceInv(u, d) && EverySendable(u, cfg, d)
    ensures OwnersTell(cfg, stale, d.bus, d.owners)
  {
    forall k | 0 <= k < |d.bus| ensures AllFrom(Decode(cfg, stale, d.bus[k]).pkts, d.owners[k]) {
      var i := d.owners[k];
      var c, s := u.At(i), d.chans[i];
      var m := OwnedHas(d.bus, d.owners, k);
      assert Inv(c, s) && Owned(d.bus, d.owners, i) == s.bus;
      SendableParts(c, cfg, Flatten(s.batches) + s.held, InFlight(s));
      SendableParts(c, cfg, Flatten(s.batches), s.held);
      OwnTell(c, cfg, stale, s.bus, s.batches, m);
    }
  }

  /**
   * For every interleaving of any number of channels: what the shared bus carries for channel `i`,
   * then what `i` still holds, is exactly what was submitted on `i`, in order. No channel's packets
   * are delayed into, mixed with or lost to another's.
   */
  lemma ChannelsIsolated(u: Setup, n: nat, now: int, es: seq<DeviceEvent>, cfg: Config, stale: byte, i: nat)
    requires n <= MAX_CHANNELS && cfg.Valid() && cfg.dlPad == 0
    requires DeviceRun(u, n, now, es).Some?
    requires var d := DeviceRun(u, n, now, es).value;
      EverySendable(u, cfg, d) && i < |d.chans|
    ensures var d := DeviceRun(u, n, now, es).value;
      var s := d.chans[i];
      && u.At(i).Valid()
      && ForChan(DecodeEach(cfg, stale, d.bus), i) + Decode(cfg, stale, s.priv.Bytes()).pkts
           + DecodeEach(cfg, stale, HandBuffers(u.At(i), s))
         == Packets(u.At(i), s.sent)
  {
    DeviceRunInv(u, n, now, es);
    IsolatedFromInv(u, cfg, stale, DeviceRun(u, n, now, es).value, i);
  }

  lemma IsolatedFromInv(u: Setup, cfg: Config, stale: byte, d: Device, i: nat)
    requires cfg.Valid() && cfg.dlPad == 0 && DeviceInv(u, d) && EverySendable(u, cfg, d) && i < |d.chans|
    ensures var s := d.chans[i];
      && u.At(i).Valid()
      && ForChan(DecodeEach(cfg, stale, d.bus), i) + Decode(cfg, stale, s.priv.Bytes()).pkts
           + DecodeEach(cfg, stale, HandBuffers(u.At(i), s))
         == Packets(u.At(i), s.sent)
  {
    BusTells(u, cfg, stale, d);
    SortOut(cfg, stale, d.bus, d.owners, i);
    assert Inv(u.At(i), d.chans[i]) && Owned(d.bus, d.owners, i) == d.chans[i].bus;
    EndToEndFromInv(u.At(i), cfg, stale, d.chans[i]);
  }

  // Left alone, the device comes to rest -------------------------------------------------------

  /** A step of the driver's own on some channel. */
  predicate OwnStep(e: DeviceEvent) {
    e.On? && Own(e.e)
  }

  /** The device after `es`, or `None` if some event could not happen when its turn came. */
  function DeviceGo(u: Setup, d: Device, es: seq<DeviceEvent>): Option<Device>
    decreases es
  {
    if es == [] then Some(d)
    else if !DeviceEnabled(d, es[0]) then None
    else DeviceGo(u, DeviceStep(u, d, es[0]), es[1..])
  }

  /** A bound on how many own steps can still follow on all channels together. */
  function AllLeft(chans: seq<State>): nat {
    if chans == [] then 0 else StepsLeft(chans[0]) + AllLeft(chans[1..])
  }

  lemma {:induction false} AllLeftBound(chans: seq<State>)
    ensures AllLeft(chans) <= 23 * |chans|
  {
    if chans == [] {
    } else {
      AllLeftBound(chans[1..]);
    }
  }

  lemma {:induction false} AllLeftUpdate(chans: seq<State>, i: nat, s: State)
    requires i < |chans|
    ensures AllLeft(chans[i := s]) == AllLeft(chans) - StepsLeft(chans[i]) + StepsLeft(s)
  {
    if i == 0 {
      assert chans[0 := s][1..] == chans[1..];
    } else {
      assert chans[i := s][1..] == chans[1..][i - 1 := s];
      AllLeftUpdate(chans[1..], i - 1, s);
    }
  }

  ghost predicate SameSent(a: Device, b: Device) {
    |a.chans| == |b.chans| && forall i :: 0 <= i < |a.chans| ==> a.chans[i].sent == b.chans[i].sent
  }

  lemma OwnStepWorks(u: Setup, d: Device, e: DeviceEvent)
    requires DeviceInv(u, d) && OwnStep(e) && DeviceEnabled(d, e)
    ensures var d' := DeviceStep(u, d, e);
      DeviceInv(u, d') && AllLeft(d'.chans) < AllLeft(d.chans) && SameSent(d, d')
  {
    StepKeepsChans(u, d, e);
    StepKeepsBus(u, d, e);
    assert Inv(u.At(e.i), d.chans[e.i]);
    OwnStepDescends(u.At(e.i), d.chans[e.i], e.e);
    OneChannelMoves(u, d, e);
  }

  lemma OneChannelMoves(u: Setup, d: Device, e: DeviceEvent)
    requires OwnStep(e) && DeviceEnabled(d, e)
    requires StepsLeft(Step(u.At(e.i), d.chans[e.i], e.e)) < StepsLeft(d.chans[e.i])
    requires Step(u.At(e.i), d.chans[e.i], e.e).sent == d.chans[e.i].sent
    ensures AllLeft(DeviceStep(u, d, e).chans) < AllLeft(d.chans) && SameSent(d, DeviceStep(u, d, e))
  {
    AllLeftUpdate(d.chans, e.i, Step(u.At(e.i), d.chans[e.i], e.e));
  }

  lemma {:induction false} OwnRunEnds(u: Setup, d: Device, es: seq<DeviceEvent>)
    requires DeviceInv(u, d) && (forall k :: 0 <= k < |es| ==> OwnStep(es[k])) && DeviceGo(u, d, es).Some?
    ensures |es| <= AllLeft(d.chans)
    ensures DeviceInv(u, DeviceGo(u, d, es).value) && SameSent(d, DeviceGo(u, d, es).value)
    decreases es
  {
    if es == [] {
    } else {
      OwnStepWorks(u, d, es[0]);
      OwnRunEnds(u, DeviceStep(u, d, es[0]), es[1..]);
    }
  }

  /** No channel has a step of its own left, and no copy has panicked. */
  ghost predicate Quiet(d: Device) {
    && (forall e: DeviceEvent :: OwnStep(e) ==> !DeviceEnabled(d, e))
    && (forall j :: 0 <= j < |d.chans| ==> !d.chans[j].overrun)
  }

  lemma QuietChannel(u: Setup, d: Device, i: nat)
    requires DeviceInv(u, d) && Quiet(d) && i < |d.chans|
    ensures d.chans[i].sub.Idle? && d.chans[i].priv.skb.None?
  {
    forall e: Event | Own(e) ensures !Enabled(d.chans[i], e) {
      assert !DeviceEnabled(d, On(i, e));
    }
    assert Inv(u.At(i), d.chans[i]);
    RestIsEmpty(u.At(i), d.chans[i]);
  }

  /**
   * Everything submitted is delivered, on all channels: from every state of every run, if no new packet
   * comes, every schedule of the driver's own steps ends within 23 of them for each channel, and when
   * none is left to take the shared bus carries for each channel exactly what was submitted on it, unless
   * some copy has panicked, which stops the whole device.
   */
  lemma EverythingDeliveredToAll(u: Setup, n: nat, now: int, es: seq<DeviceEvent>, own: seq<DeviceEvent>,
                                 cfg: Config, stale: byte)
    requires n <= MAX_CHANNELS && cfg.Valid() && cfg.dlPad == 0 && DeviceRun(u, n, now, es).Some?
    requires forall k :: 0 <= k < |own| ==> OwnStep(own[k])
    requires var d := DeviceRun(u, n, now, es).value;
      EverySendable(u, cfg, d) && DeviceGo(u, d, own).Some?
    ensures var d := DeviceRun(u, n, now, es).value;
      var t := DeviceGo(u, d, own).value;
      && |own| <= 23 * |d.chans| && |t.chans| == |d.chans| <= MAX_CHANNELS
      && (Quiet(t) ==> forall i :: 0 <= i < |d.chans| ==>
            ForChan(DecodeEach(cfg, stale, t.bus), i) == Packets(u.At(i), d.chans[i].sent))
  {
    DeviceRunInv(u, n, now, es);
    var d := DeviceRun(u, n, now, es).value;
    var t := DeviceGo(u, d, own).value;
    OwnRunEnds(u, d, own);
    AllLeftBound(d.chans);
    if Quiet(t) {
      forall i | 0 <= i < |d.chans|
        ensures ForChan(DecodeEach(cfg, stale, t.bus), i) == Packets(u.At(i), d.chans[i].sent)
      {
        QuietDelivers(u, cfg, stale, t, i);
      }
    }
  }

  lemma QuietDelivers(u: Setup, cfg: Config, stale: byte, t: Device, i: nat)
    requires cfg.Valid() && cfg.dlPad == 0 && DeviceInv(u, t) && EverySendable(u, cfg, t)
    requires Quiet(t) && i < |t.chans|
    ensures ForChan(DecodeEach(cfg, stale, t.bus), i) == Packets(u.At(i), t.chans[i].sent)
  {
    QuietChannel(u, t, i);
    IsolatedFromInv(u, cfg, stale, t, i);
    DecodeNothing(cfg, stale);
    Units(ForChan(DecodeEach(cfg, stale, t.bus), i));
  }
}
