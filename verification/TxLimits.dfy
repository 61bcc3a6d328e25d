/**
 * When a batch buffer is too small. The settings change stores the new packet count and then the new
 * size without the lock that guards the buffer, so a buffer can be held across the second store. These
 * are the exact conditions for a copy to overrun its buffer and for a held buffer to exceed the limit.
 */
module TxLimits {
  import opened Bytes
  import opened QmapFrame
  import opened TxAggregator
  import opened TxMachine

  // One pass -----------------------------------------------------------------------------------

  /** In every reachable state an overrun means that the packet in hand does not fit. */
  lemma OverrunMeansNoRoom(c: Channel, s: State)
    requires c.Valid() && Reachable(c, s) && s.overrun
    ensures s.sub.Looping? && DoesNotFit(c, s) && c.times.bypass >= 0
  {
    ReachableInv(c, s);
  }

  /**
   * A pass overruns under some clock, `xmit_more`, skip test and allocation result exactly when the
   * packet does not fit. Appending does so under all of them.
   */
  lemma PassOverrunsIff(c: Channel, s: State)
    requires c.Valid() && Reachable(c, s) && s.sub.Looping? && !s.overrun
    ensures (exists env :: StepLocked(c, s, env).overrun) <==> DoesNotFit(c, s) && c.times.bypass >= 0
    ensures s.priv.skb.Some? && DoesNotFit(c, s) ==> forall env :: StepLocked(c, s, env).overrun
  {
    ReachableInv(c, s);
    forall env ensures StepLocked(c, s, env).overrun ==> DoesNotFit(c, s) && c.times.bypass >= 0 {
      PassOverruns(c, s, env);
    }
    PassOverruns(c, s, Env(s.priv.time, true, false, true, 0));
    if s.priv.skb.Some? && DoesNotFit(c, s) {
      forall env ensures StepLocked(c, s, env).overrun {
        PassOverruns(c, s, env);
      }
    }
  }

  lemma PassOverruns(c: Channel, s: State, env: Env)
    requires c.Valid() && TimesOk(c, s) && s.sub.Looping? && !s.overrun
    ensures StepLocked(c, s, env).overrun <==>
              && DoesNotFit(c, s)
              && (s.priv.skb.None? ==>
                    && !Expired(env.now, s.priv.time, c.times.bypass) && (env.xmitMore || !env.skip) && env.allocOk
                    && s.ctx.maxSize + env.extra < |c.Wire(s.sub.x)|)
    ensures c.times.bypass < 0 ==> !StepLocked(c, s, env).overrun
  {
  }

  // Runs in which nothing overruns -------------------------------------------------------------

  /**
   * Every packet that may start a buffer fits the size in force, and the size never grows while a
   * buffer is held.
   */
  ghost predicate Careful(c: Channel, s: State, es: seq<Event>)
    requires c.Valid()
    decreases es
  {
    es != [] && Enabled(s, es[0]) ==>
      && (es[0].NewPacket? && s.priv.skb.None? ==> |c.Wire(s.sub.x)| <= s.ctx.maxSize)
      && (es[0].StoreSize? && s.priv.skb.Some? ==> s.sizeDue.value <= s.priv.cap)
      && Careful(c, Step(c, s, es[0]), es[1..])
  }

  ghost predicate Roomy(s: State) {
    !s.overrun && (s.priv.skb.Some? ==> s.ctx.maxSize <= s.priv.cap)
  }

  lemma CarefulStep(c: Channel, s: State, e: Event)
    requires c.Valid() && ControlOk(s) && Roomy(s) && Enabled(s, e)
    requires e.NewPacket? && s.priv.skb.None? ==> |c.Wire(s.sub.x)| <= s.ctx.maxSize
    requires e.StoreSize? && s.priv.skb.Some? ==> s.sizeDue.value <= s.priv.cap
    ensures Roomy(Step(c, s, e))
  {
  }

  lemma {:induction false} CarefulRunsFit(c: Channel, s: State, es: seq<Event>)
    requires c.Valid() && Inv(c, s) && Roomy(s) && Careful(c, s, es)
    ensures Run(c, s, es).Some? ==> Roomy(Run(c, s, es).value)
    decreases es
  {
    if es == [] {
    } else if Enabled(s, es[0]) {
      StepKeepsInv(c, s, es[0]);
      CarefulStep(c, s, es[0]);
      CarefulRunsFit(c, Step(c, s, es[0]), es[1..]);
    }
  }

  // Which settings can go wrong ----------------------------------------------------------------

  /**
   * The run's settings change, if any, is to `datagrams` and `size`, and every allocation is rounded up
   * by `extra`.
   */
  ghost predicate Sets(es: seq<Event>, datagrams: nat, size: nat, extra: nat) {
    forall i :: 0 <= i < |es| ==> SetsOne(es[i], datagrams, size, extra)
  }

  ghost predicate SetsOne(e: Event, datagrams: nat, size: nat, extra: nat) {
    && (e.StoreDatagrams? ==> e == StoreDatagrams(datagrams, size))
    && (e.NewPacket? ==> e.env.extra == extra)
  }

  /** Every submitted frame fits the size before the change and the size after it. */
  ghost predicate AllFit(c: Channel, xs: seq<Sent>, size: nat)
    requires c.Valid()
  {
    forall i :: 0 <= i < |xs| ==> |c.Wire(xs[i])| <= FIRST_SIZE && |c.Wire(xs[i])| <= size
  }

  /** A run with these settings and only fitting frames that ends in `s`. */
  ghost predicate FitRun(c: Channel, datagrams: nat, size: nat, extra: nat, now: int, es: seq<Event>, s: State)
    requires c.Valid()
  {
    Sets(es, datagrams, size, extra) && Run(c, Init(now), es) == Some(s) && AllFit(c, s.sent, size)
  }

  ghost predicate SettingsKnown(s: State, datagrams: nat, size: nat, extra: nat) {
    && (s.sizeDue.Some? ==> s.sizeDue.value == size)
    && s.ctx.maxSize in {FIRST_SIZE, size} && s.ctx.maxDatagrams in {1, datagrams}
    && (s.priv.skb.Some? ==> s.priv.cap == s.priv.asked + extra)
  }

  lemma PassKeepsSettings(s: State, r: Pass)
    requires s.sub.Looping?
    ensures Passed(s, r).ctx == s.ctx && Passed(s, r).sizeDue == s.sizeDue
    ensures Passed(s, r).priv == if r.overrun then s.priv else r.priv
  {
  }

  lemma StepKeepsKnown(c: Channel, s: State, e: Event, datagrams: nat, size: nat, extra: nat)
    requires c.Valid() && Enabled(s, e) && SettingsKnown(s, datagrams, size, extra)
    requires SetsOne(e, datagrams, size, extra)
    ensures SettingsKnown(Step(c, s, e), datagrams, size, extra)
  {
    if e.NewPacket? {
      var frame, late := c.Wire(s.sub.x), Expired(e.env.now, s.priv.time, c.times.limit);
      DecideShape(s.priv, s.ctx, frame, late, Expired(e.env.now, s.priv.time, c.times.bypass), e.env);
      PassKeepsSettings(s, UnderLock(s.priv, s.ctx, c.times, frame, e.env));
    }
  }

  lemma {:induction false} RunKeepsKnown(c: Channel, s: State, es: seq<Event>, datagrams: nat, size: nat, extra: nat)
    requires c.Valid() && Sets(es, datagrams, size, extra) && SettingsKnown(s, datagrams, size, extra)
    ensures Run(c, s, es).Some? ==> SettingsKnown(Run(c, s, es).value, datagrams, size, extra)
    decreases es
  {
    if es == [] {
    } else if Enabled(s, es[0]) {
      assert SetsOne(es[0], datagrams, size, extra);
      StepKeepsKnown(c, s, es[0], datagrams, size, extra);
      RunKeepsKnown(c, Step(c, s, es[0]), es[1..], datagrams, size, extra);
    }
  }

  /** The packets in hand and in the buffer are among the submitted ones. */
  lemma PartsFit(c: Channel, s: State, size: nat)
    requires c.Valid() && Conserved(s) && AllFit(c, s.sent, size)
    ensures AllFit(c, s.held, size) && AllFit(c, InFlight(s), size)
  {
    var b := Flatten(s.batches);
    forall i | 0 <= i < |s.held| ensures s.sent[|b| + i] == s.held[i] {
    }
    forall i | 0 <= i < |InFlight(s)| ensures s.sent[|b| + |s.held| + i] == InFlight(s)[i] {
    }
  }

  lemma SingleWire(c: Channel, xs: seq<Sent>)
    requires c.Valid()
    ensures |xs| == 1 ==> c.Wires(xs) == c.Wire(xs[0])
  {
    if |xs| == 1 {
      Units(c.Wire(xs[0]));
    }
  }

  lemma FitRunFacts(c: Channel, datagrams: nat, size: nat, extra: nat, now: int, es: seq<Event>, s: State)
    requires c.Valid() && FitRun(c, datagrams, size, extra, now, es, s)
    ensures Inv(c, s) && SettingsKnown(s, datagrams, size, extra)
    ensures AllFit(c, s.held, size) && AllFit(c, InFlight(s), size)
  {
    assert Reachable(c, s);
    ReachableInv(c, s);
    RunKeepsKnown(c, Init(now), es, datagrams, size, extra);
    PartsFit(c, s, size);
  }

  // Building runs ------------------------------------------------------------------------------

  lemma {:induction false} RunSnoc(c: Channel, s: State, es: seq<Event>, e: Event)
    requires c.Valid() && Run(c, s, es).Some? && Enabled(Run(c, s, es).value, e)
    ensures Run(c, s, es + [e]) == Some(Step(c, Run(c, s, es).value, e))
    decreases es
  {
    var all := es + [e];
    if es == [] {
      assert all[0] == e && all[1..] == [];
    } else {
      assert all[0] == es[0] && all[1..] == es[1..] + [e];
      RunSnoc(c, Step(c, s, es[0]), es[1..], e);
    }
  }

  function HeaderSize(v: Version): nat {
    if v.V5? then HEADER_LEN + CSUM_HEADER_LEN else HEADER_LEN
  }

  /** A packet without room for padding whose frame has `n` bytes. */
  function SizedPacket(v: Version, n: nat): Sent
    requires n >= HeaderSize(v)
  {
    Sent(seq(n - HeaderSize(v), _ => 0), [])
  }

  lemma WireSize(c: Channel, x: Sent)
    requires c.Valid()
    ensures |c.Wire(x)| >= HeaderSize(c.version)
    ensures x.tail == [] ==> |c.Wire(x)| == HeaderSize(c.version) + |x.payload|
  {
  }

  /** The conditions under which packets are batched. */
  function Easy(extra: nat): Env {
    Env(0, true, false, true, extra)
  }

  /** The new count is stored and a first packet submitted, up to its pass. */
  lemma SubmitFirst(c: Channel, datagrams: nat, size: nat, extra: nat, x: Sent) returns (es: seq<Event>, s: State)
    requires c.Valid() && datagrams > 1
    ensures Sets(es, datagrams, size, extra) && Run(c, Init(0), es) == Some(s)
    ensures s.sub == Looping(x, false) && !s.overrun && s.sent == [x] && s.sizeDue == Some(size)
    ensures s.ctx == Settings(datagrams, FIRST_SIZE) && s.priv == Priv(None, 0, 0, 0, 0) && s.held == []
  {
    var s0 := Init(0);
    es := [];
    RunSnoc(c, s0, es, StoreDatagrams(datagrams, size));
    es := es + [StoreDatagrams(datagrams, size)];
    RunSnoc(c, s0, es, Begin(x));
    es := es + [Begin(x)];
    s := Step(c, Step(c, s0, StoreDatagrams(datagrams, size)), Begin(x));
  }

  /**
   * After the new count is stored and before the new size is, a first packet is held in a buffer of
   * the first size.
   */
  lemma HoldFirst(c: Channel, datagrams: nat, size: nat, extra: nat, x: Sent) returns (es: seq<Event>, s: State)
    requires c.Valid() && datagrams > 1 && c.times.bypass >= 0 && |c.Wire(x)| <= FIRST_SIZE
    ensures Sets(es, datagrams, size, extra) && Run(c, Init(0), es) == Some(s)
    ensures s.sub.Idle? && !s.overrun && s.sent == [x] && s.sizeDue == Some(size)
    ensures s.ctx == Settings(datagrams, FIRST_SIZE)
    ensures s.priv == Priv(Some(c.Wire(x)), FIRST_SIZE, FIRST_SIZE + extra, 1, 0)
  {
    var s0 := Init(0);
    es, s := SubmitFirst(c, datagrams, size, extra, x);
    RunSnoc(c, s0, es, NewPacket(Easy(extra)));
    es, s := es + [NewPacket(Easy(extra))], Step(c, s, NewPacket(Easy(extra)));
    RunSnoc(c, s0, es, TestHeld);
    es, s := es + [TestHeld], Step(c, s, TestHeld);
    RunSnoc(c, s0, es, TestTimer);
    es, s := es + [TestTimer], Step(c, s, TestTimer);
  }

  /** A second packet submitted after `es`, up to and including its first pass. */
  lemma SubmitNext(c: Channel, extra: nat, es: seq<Event>, s: State, y: Sent) returns (es': seq<Event>, s': State)
    requires c.Valid() && Run(c, Init(0), es) == Some(s)
    requires s.sub.Idle? && !s.overrun && s.ctx.maxDatagrams > 1
    ensures es' == es + [Begin(y)] + [NewPacket(Easy(extra))] && Run(c, Init(0), es') == Some(s')
    ensures s' == StepLocked(c, s.(sub := Looping(y, false), sent := s.sent + [y]), Easy(extra))
  {
    RunSnoc(c, Init(0), es, Begin(y));
    es' := es + [Begin(y)];
    RunSnoc(c, Init(0), es', NewPacket(Easy(extra)));
    es', s' := es' + [NewPacket(Easy(extra))], Step(c, Step(c, s, Begin(y)), NewPacket(Easy(extra)));
  }

  /** A run in which every frame fits both sizes and a copy still overruns its buffer. */
  lemma OverrunRun(c: Channel, datagrams: nat, size: nat, extra: nat) returns (es: seq<Event>, s: State)
    requires c.Valid() && datagrams > 1 && extra < FIRST_SIZE && size > FIRST_SIZE + extra + 1 && c.times.bypass >= 0
    ensures FitRun(c, datagrams, size, extra, 0, es, s) && s.overrun
    ensures s.ctx == Settings(datagrams, size) && s.priv.cap == FIRST_SIZE + extra
  {
    var m, n := if extra < 1000 then 1000 else FIRST_SIZE, if extra < 1000 then 501 + extra else 1 + extra;
    var x, y := SizedPacket(c.version, m), SizedPacket(c.version, n);
    WireSize(c, x);
    WireSize(c, y);
    es, s := HoldFirst(c, datagrams, size, extra, x);
    RunSnoc(c, Init(0), es, StoreSize);
    es, s := es + [StoreSize], Step(c, s, StoreSize);
    es, s := SubmitNext(c, extra, es, s, y);
    assert s.sent == [x, y];
  }

  lemma HoldSecond(c: Channel, s: State, extra: nat)
    requires c.Valid() && s.sub.Looping? && !s.overrun && c.times.limit >= 0
    requires s.priv.skb.Some? && s.priv.count == 1 && s.priv.time == 0 && s.ctx.maxDatagrams > 2
    requires |s.priv.skb.value| + |c.Wire(s.sub.x)| < s.ctx.maxSize <= s.priv.cap
    ensures var s' := StepLocked(c, s, Easy(extra));
      && s'.priv.skb == Some(s.priv.skb.value + c.Wire(s.sub.x))
      && s'.sizeDue == s.sizeDue && !s'.overrun && s'.sent == s.sent
  {
    PassMoves(s, UnderLock(s.priv, s.ctx, c.times, c.Wire(s.sub.x), Easy(extra)));
  }

  /** Two packets held together before the new size is stored. */
  lemma HoldTwo(c: Channel, datagrams: nat, size: nat, extra: nat, x: Sent, y: Sent)
    returns (es: seq<Event>, s: State)
    requires c.Valid() && datagrams > 2 && c.times.bypass >= 0 && c.times.limit >= 0
    requires |c.Wire(x)| + |c.Wire(y)| < FIRST_SIZE
    ensures Sets(es, datagrams, size, extra) && Run(c, Init(0), es) == Some(s)
    ensures !s.overrun && s.sent == [x, y] && s.sizeDue == Some(size)
    ensures s.priv.skb == Some(c.Wire(x) + c.Wire(y))
  {
    es, s := HoldFirst(c, datagrams, size, extra, x);
    HoldSecond(c, s.(sub := Looping(y, false), sent := s.sent + [y]), extra);
    es, s := SubmitNext(c, extra, es, s, y);
    assert [x] + [y] == [x, y];
  }

  /** A run in which every frame fits both sizes and the held buffer comes to exceed the limit. */
  lemma ExcessRun(c: Channel, datagrams: nat, size: nat, extra: nat) returns (es: seq<Event>, s: State)
    requires c.Valid() && datagrams > 2 && HeaderSize(c.version) <= size < FIRST_SIZE - 1
    requires c.times.bypass >= 0 && c.times.limit >= 0
    ensures FitRun(c, datagrams, size, extra, 0, es, s)
    ensures s.priv.skb.Some? && |s.priv.skb.value| > s.ctx.maxSize
  {
    var h := HeaderSize(c.version);
    var n := if size + 1 - h < h then h else size + 1 - h;
    var x, y := SizedPacket(c.version, n), SizedPacket(c.version, h);
    WireSize(c, x);
    WireSize(c, y);
    es, s := HoldTwo(c, datagrams, size, extra, x, y);
    RunSnoc(c, Init(0), es, StoreSize);
    es, s := es + [StoreSize], Step(c, s, StoreSize);
  }

  // The exact conditions -----------------------------------------------------------------------

  /**
   * With all frames within both sizes and every allocation rounded up by the same amount, less than the
   * first size, some interleaving of a settings change overruns a buffer if and only if the new size is
   * more than one above the room that the first size gets and batching is not switched off by a negative
   * bypass time.
   */
  lemma OverrunReachableIff(c: Channel, datagrams: nat, size: nat, extra: nat)
    requires c.Valid() && datagrams > 1 && extra < FIRST_SIZE
    ensures (exists now: int, es: seq<Event>, s: State :: FitRun(c, datagrams, size, extra, now, es, s) && s.overrun)
       <==> size > FIRST_SIZE + extra + 1 && c.times.bypass >= 0
  {
    if size > FIRST_SIZE + extra + 1 && c.times.bypass >= 0 {
      var es, s := OverrunRun(c, datagrams, size, extra);
    }
    forall now: int, es: seq<Event>, s: State | FitRun(c, datagrams, size, extra, now, es, s) && s.overrun
      ensures size > FIRST_SIZE + extra + 1 && c.times.bypass >= 0
    {
      FitRunFacts(c, datagrams, size, extra, now, es, s);
      assert InFlight(s)[0] == s.sub.x;
    }
  }

  /** The driver's default times, ten packets of 4096 bytes, frames that fit, and any such rounding. */
  lemma OverrunExample(extra: nat)
    requires extra < FIRST_SIZE
    ensures var c := Channel(V1, 0, Times(1_000_000, 10_000_000));
      exists s: State :: Reachable(c, s) && s.overrun && s.ctx == Settings(10, 4096) && AllFit(c, s.sent, 4096)
                         && s.priv.cap == FIRST_SIZE + extra
  {
    var c := Channel(V1, 0, Times(1_000_000, 10_000_000));
    var es, s := OverrunRun(c, 10, 4096, extra);
    FitRunFacts(c, 10, 4096, extra, 0, es, s);
    assert Reachable(c, s);
  }

  /**
   * A packet of 1500 bytes makes a frame above the first size. Submitted between the two stores it
   * overruns its fresh buffer, unless that was rounded up by the size of the header.
   */
  lemma BigFrameExample(c: Channel, extra: nat)
    requires c.Valid() && c.times.bypass >= 0 && extra < HeaderSize(c.version)
    ensures exists s: State ::
              && Reachable(c, s) && s.overrun && s.ctx == Settings(2, FIRST_SIZE)
              && |s.sent| == 1 && |s.sent[0].payload| == FIRST_SIZE
  {
    var x := SizedPacket(c.version, FIRST_SIZE + HeaderSize(c.version));
    WireSize(c, x);
    var es, s := SubmitFirst(c, 2, 4096, extra, x);
    RunSnoc(c, Init(0), es, NewPacket(Easy(extra)));
    var t := Step(c, s, NewPacket(Easy(extra)));
    assert t.overrun && t.sent == [x];
    assert Reachable(c, t);
  }

  /**
   * With all frames within both sizes, a held buffer can come to exceed the size limit if and only if
   * the new size is below the first by more than one, at least one frame fits it, three packets may
   * share a buffer and neither time parameter forbids holding two.
   */
  lemma ExcessReachableIff(c: Channel, datagrams: nat, size: nat, extra: nat)
    requires c.Valid() && datagrams > 1
    ensures (exists now: int, es: seq<Event>, s: State ::
               && FitRun(c, datagrams, size, extra, now, es, s)
               && s.priv.skb.Some? && |s.priv.skb.value| > s.ctx.maxSize)
       <==> && datagrams > 2 && HeaderSize(c.version) <= size < FIRST_SIZE - 1
            && c.times.bypass >= 0 && c.times.limit >= 0
  {
    if datagrams > 2 && HeaderSize(c.version) <= size < FIRST_SIZE - 1 && c.times.bypass >= 0 && c.times.limit >= 0 {
      var es, s := ExcessRun(c, datagrams, size, extra);
    }
    forall now: int, es: seq<Event>, s: State |
      && FitRun(c, datagrams, size, extra, now, es, s)
      && s.priv.skb.Some? && |s.priv.skb.value| > s.ctx.maxSize
      ensures datagrams > 2 && HeaderSize(c.version) <= size < FIRST_SIZE - 1
      ensures c.times.bypass >= 0 && c.times.limit >= 0
    {
      FitRunFacts(c, datagrams, size, extra, now, es, s);
      WireSize(c, s.held[0]);
      SingleWire(c, s.held);
    }
  }
}
