/** How the Quectel driver picks its mode, hooks and channel table at bind and probe time. */
module ModeChoice {
  import opened Bytes
  import opened QmapFrame
  import opened PullLoop
  import opened QmapDecode

  const MAX_QMAP: nat := 4
  const LTE_A_PRODUCTS := {0x0306, 0x030B, 0x0512, 0x0620, 0x0800, 0x0801}
  const RMNET_PRODUCTS := {0x0800, 0x0801}

  /** What the device presents; `data` is the product entry's version and buffer size. */
  datatype Product = Product(idProduct: nat, rawIp: bool, superSpeed: bool, data: nat)

  /** A channel slot holds the parent device, a device of its own, or nothing. */
  datatype Slot = Parent | Own | Empty

  /** The two pairs of hooks a bound device can have. */
  datatype Hooks = RawIpHooks | RmnetHooks | NoHooks

  datatype Bound = Bound(mode: nat, useRmnet: bool, hooks: Hooks, slots: seq<Slot>)

  /** `qmi_wwan_bind`: the mode and the hooks. The module parameter is clamped first. */
  function Bind(p: Product, param: nat): Bound {
    var qmapMode := if param > MAX_QMAP then MAX_QMAP else param;
    if !p.rawIp then Bound(0, false, NoHooks, [])
    else
      var lteA := p.idProduct in LTE_A_PRODUCTS || p.data % 256 > 4096 || p.superSpeed;
      var mode := if lteA && qmapMode == 0 then 1 else qmapMode;
      var useRmnet := mode > 1 || (mode == 1 && p.idProduct in RMNET_PRODUCTS);
      Bound(mode, useRmnet, if useRmnet then RmnetHooks else RawIpHooks, [])
  }

  /**
   * What `Bind` decides. The first channel is forced on fast devices; more channels, or one channel on the
   * two products that always have their own, mean devices of their own.
   */
  lemma BindMeaning(p: Product, param: nat)
    ensures var b := Bind(p, param);
      var fast := p.superSpeed || p.data % 256 > 4096
        || p.idProduct in {0x0306, 0x030B, 0x0512, 0x0620, 0x0800, 0x0801};
      && (!p.rawIp <==> b.hooks.NoHooks?) && (!p.rawIp ==> b.mode == 0)
      && (p.rawIp ==>
            && (b.mode == 0 <==> param == 0 && !fast)
            && (b.mode == 1 <==> param == 1 || (param == 0 && fast))
            && (param in {2, 3, 4} ==> b.mode == param) && (param > 4 ==> b.mode == 4)
            && (b.hooks.RmnetHooks? <==> b.useRmnet)
            && (b.useRmnet <==> b.mode > 1 || (b.mode == 1 && p.idProduct in {0x0800, 0x0801})))
  {
  }

  /** `qmap_qmi_wwan_probe`: the channel table; `registered` says which registrations succeed. */
  function Probe(b: Bound, registered: seq<bool>): Bound
    requires |registered| == MAX_QMAP
  {
    b.(slots := seq(MAX_QMAP, i requires 0 <= i < MAX_QMAP =>
         if i >= b.mode then Empty
         else if b.mode == 1 && !b.useRmnet then Parent
         else if registered[i] then Own else Empty))
  }

  /** The decoder's view of the table. */
  function Table(b: Bound, mtus: seq<nat>, dlPad: nat): Config
    requires |b.slots| == |mtus|
  {
    Config(b.mode, seq(|b.slots|, i requires 0 <= i < |b.slots| =>
                         if b.slots[i].Empty? then None else Some(mtus[i])), dlPad)
  }

  /**
   * For every product and module parameter, a device with the raw-IP hooks has at most one channel,
   * and on every received stream its decoder terminates and delivers to the parent device only.
   */
  lemma RawIpHooksServeParent(p: Product, param: nat, registered: seq<bool>, mtus: seq<nat>, dlPad: nat,
                              stale: byte, s: seq<byte>)
    requires |registered| == MAX_QMAP == |mtus| && dlPad < 0x8000_0000
    requires forall i :: 0 <= i < |mtus| ==> mtus[i] <= 0xFFFF
    requires Probe(Bind(p, param), registered).hooks.RawIpHooks?
    ensures var b := Probe(Bind(p, param), registered);
      var cfg := Table(b, mtus, dlPad);
      && b.mode <= 1 && cfg.Valid()
      && !Truncated(cfg, stale, s)
      && forall i :: 0 <= i < |Decode(cfg, stale, s).pkts| ==>
           var chan := Decode(cfg, stale, s).pkts[i].chan;
           chan < |b.slots| && b.slots[chan] == Parent
  {
    var b := Probe(Bind(p, param), registered);
    var cfg := Table(b, mtus, dlPad);
    RegisteredTerminates(cfg, stale, s);
    DecodeSound(cfg, stale, s);
    forall i | 0 <= i < |Decode(cfg, stale, s).pkts|
      ensures Decode(cfg, stale, s).pkts[i].chan == 0
    {
      assert CutFrom(cfg, s, Starts(Rounds(cfg, stale), s, 0)[i], Decode(cfg, stale, s).pkts[i]);
    }
  }

  /**
   * A device with channels of its own can be left with an empty slot by a failed registration, and
   * then some input keeps its decoder spinning; exactly then.
   */
  lemma RmnetSpinsIff(p: Product, param: nat, registered: seq<bool>, mtus: seq<nat>, dlPad: nat, stale: byte)
    requires |registered| == MAX_QMAP == |mtus| && dlPad < 0x8000_0000
    requires forall i :: 0 <= i < |mtus| ==> mtus[i] <= 0xFFFF
    requires Probe(Bind(p, param), registered).hooks.RmnetHooks?
    ensures var b := Probe(Bind(p, param), registered);
      var cfg := Table(b, mtus, dlPad);
      && cfg.Valid()
      && ((exists s: seq<byte> :: Truncated(cfg, stale, s)) <==> SomeMissing(b.mode, registered))
  {
    var b := Probe(Bind(p, param), registered);
    var cfg := Table(b, mtus, dlPad);
    if SomeMissing(b.mode, registered) {
      var i :| 0 <= i < b.mode && i < |registered| && !registered[i];
      EmptySlotSpins(cfg, stale, i);
    } else {
      assert cfg.AllRegistered();
      forall s: seq<byte> ensures !Truncated(cfg, stale, s) {
        RegisteredTerminates(cfg, stale, s);
      }
    }
  }

  lemma EmptySlotSpins(cfg: Config, stale: byte, i: nat)
    requires cfg.Valid() && i < cfg.mode && cfg.slots[i].None?
    ensures exists s: seq<byte> :: Truncated(cfg, stale, s)
  {
    var s: seq<byte> := [0, MUX_ID_BASE + i, 0, 9, 0];
    assert Stuck(cfg, s);
    assert Truncated(cfg, stale, s);
  }

  ghost predicate SomeMissing(mode: nat, registered: seq<bool>) {
    exists i :: 0 <= i < mode && i < |registered| && !registered[i]
  }
}
