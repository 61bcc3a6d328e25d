/**
 * Every run of one channel's uplink path. Each event is one atomic step: a pass under the lock, or
 * one unlocked read or timer operation. The clock, `xmit_more`, the skip test and allocation
 * success are arbitrary in every event.
 */
module TxMachine {
  import opened Bytes
  import opened QmapFrame
  import opened TxAggregator
  import opened PullLoop
  import opened QmapDecode

  /** A packet given to the channel: its bytes and the memory behind it in the socket buffer. */
  datatype Sent = Sent(payload: seq<byte>, tail: seq<byte>)

  /** What does not change during a run. */
  datatype Channel = Channel(version: Version, chan: nat, times: Times)
  {
    ghost predicate Valid() {
      chan < MAX_CHANNELS
    }

    function FrameOf(x: Sent): (f: Frame)
      requires Valid()
      ensures f.pad < 4
    {
      Framed(version, MUX_ID_BASE + chan, x.payload, x.tail)
    }

    function Wire(x: Sent): seq<byte>
      requires Valid()
    {
      FrameOf(x).Wire()
    }

    /** The frames of `xs` back to back. */
    function Wires(xs: seq<Sent>): seq<byte>
      requires Valid()
    {
      if xs == [] then [] else Wire(xs[0]) + Wires(xs[1..])
    }
  }

  /** Where the submit path is: in the `new_packet` loop, or at one of the two reads after it. */
  datatype Submit = Idle | Looping(x: Sent, again: bool) | AtHeldTest | AtTimerTest

  /** The flush work: idle, started but not yet under the lock, or past the lock. */
  datatype Work = Resting | Started | Locked

  /** The batch size until the settings change. */
  const FIRST_SIZE: nat := 1500

  /**
   * `sizeDue` is the new size while the settings change has stored the new count but not yet the
   * size. `bus` holds the detached buffers in detach order. The last three fields record history only:
   * every packet submitted, and which of them went into each detached buffer and the held one.
   */
  datatype State = State(
    priv: Priv, ctx: Settings, sizeDue: Option<nat>, sub: Submit,
    timerQueued: bool, timerRunning: bool, workPending: bool, work: Work,
    overrun: bool, bus: seq<seq<byte>>,
    sent: seq<Sent>, batches: seq<seq<Sent>>, held: seq<Sent>)

  datatype Event =
    | Begin(x: Sent)
    | NewPacket(env: Env)
    | TestHeld
    | TestTimer
    | TimerFires
    | TimerReturns
    | WorkStarts
    | WorkLocks(now: int)
    | WorkEnds
    | StoreDatagrams(datagrams: nat, size: nat)
    | StoreSize

  function Init(now: int): State {
    State(Priv(None, 0, 0, 0, now), Settings(1, FIRST_SIZE), None, Idle,
          false, false, false, Resting, false, [], [], [], [])
  }

  predicate Enabled(s: State, e: Event) {
    && !s.overrun
    && match e
       case Begin(_) => s.sub.Idle?
       case NewPacket(_) => s.sub.Looping?
       case TestHeld => s.sub.AtHeldTest?
       case TestTimer => s.sub.AtTimerTest?
       case TimerFires => s.timerQueued && !s.timerRunning
       case TimerReturns => s.timerRunning
       case WorkStarts => s.workPending && s.work.Resting?
       case WorkLocks(_) => s.work.Started?
       case WorkEnds => s.work.Locked?
       case StoreDatagrams(_, _) => s.sizeDue.None?
       case StoreSize => s.sizeDue.Some?
  }

  function Step(c: Channel, s: State, e: Event): State
    requires c.Valid() && Enabled(s, e)
  {
    match e
    case Begin(x) =>
      if s.ctx.maxDatagrams == 1 then
        s.(bus := s.bus + [c.Wire(x)], sent := s.sent + [x], batches := s.batches + [[x]])
      else
        s.(sub := Looping(x, false), sent := s.sent + [x])
    case NewPacket(env) => StepLocked(c, s, env)
    case TestHeld =>
      s.(sub := if s.priv.skb.Some? then AtTimerTest else Idle)
    case TestTimer =>
      s.(sub := Idle, timerQueued := true)
    case TimerFires =>
      s.(timerQueued := false, timerRunning := true)
    case TimerReturns =>
      s.(timerRunning := false, workPending := true)
    case WorkStarts =>
      s.(workPending := false, work := Started)
    case WorkLocks(now) =>
      var s' := s.(priv := Flushed(s.priv, now), work := Locked);
      if s.priv.skb.Some? then Detach(s', s.priv.skb.value, s.held, []) else s'
    case WorkEnds =>
      s.(work := Resting)
    case StoreDatagrams(datagrams, size) =>
      if s.ctx.maxDatagrams == 1 && datagrams > 1 then
        s.(ctx := s.ctx.(maxDatagrams := datagrams), sizeDue := Some(size))
      else s
    case StoreSize =>
      s.(ctx := s.ctx.(maxSize := s.sizeDue.value), sizeDue := None)
  }

  /** Append a detached buffer to the bus and note which packets it and the held buffer carry. */
  function Detach(s: State, buf: seq<byte>, batch: seq<Sent>, held: seq<Sent>): State {
    s.(bus := s.bus + [buf], batches := s.batches + [batch], held := held)
  }

  function StepLocked(c: Channel, s: State, env: Env): State
    requires c.Valid() && s.sub.Looping?
  {
    Passed(s, UnderLock(s.priv, s.ctx, c.times, c.Wire(s.sub.x), env))
  }

  function Passed(s: State, r: Pass): State
    requires s.sub.Looping?
  {
    if r.overrun then s.(overrun := true)
    else
      var x := s.sub.x;
      var s' := s.(priv := r.priv, sub := if r.used then AtHeldTest else Looping(x, true));
      var mine := if r.used then s.held + [x] else s.held;
      if r.out.Some? then Detach(s', r.out.value, mine, []) else s'.(held := mine)
  }

  /** The state after `es`, or `None` if some event could not happen when its turn came. */
  function Run(c: Channel, s: State, es: seq<Event>): Option<State>
    requires c.Valid()
    decreases es
  {
    if es == [] then Some(s)
    else if !Enabled(s, es[0]) then None
    else Run(c, Step(c, s, es[0]), es[1..])
  }

  // The invariant ------------------------------------------------------------------------------

  /** The held buffer is exactly `agg_count` whole frames and fits the room allocated for it. */
  ghost predicate HeldOk(c: Channel, s: State)
    requires c.Valid()
  {
    HoldsWhole(c, s.ctx, s.priv, s.held)
  }

  ghost predicate HoldsWhole(c: Channel, ctx: Settings, p: Priv, held: seq<Sent>)
    requires c.Valid()
  {
    && p.count == |held|
    && (p.skb.None? <==> held == [])
    && (p.skb.Some? ==> p.skb.value == c.Wires(held))
    && (held != [] ==> p.count < ctx.maxDatagrams && |p.Bytes()| <= p.cap)
    && (|held| >= 2 ==> |p.Bytes()| < p.asked || |p.Bytes()| < ctx.maxSize)
  }

  ghost predicate BusOk(c: Channel, s: State)
    requires c.Valid()
  {
    Carries(c, s.bus, s.batches)
  }

  ghost predicate Carries(c: Channel, bus: seq<seq<byte>>, batches: seq<seq<Sent>>)
    requires c.Valid()
  {
    && |bus| == |batches|
    && forall i :: 0 <= i < |bus| ==> bus[i] == c.Wires(batches[i])
  }

  function InFlight(s: State): seq<Sent> {
    if s.sub.Looping? then [s.sub.x] else []
  }

  ghost predicate Conserved(s: State) {
    Flatten(s.batches) + s.held + InFlight(s) == s.sent
  }

  /** Something will still come and flush the held buffer. */
  ghost predicate FlushComing(s: State) {
    s.timerQueued || s.timerRunning || s.workPending || s.work.Started?
  }

  ghost predicate ControlOk(s: State) {
    && s.ctx.maxDatagrams >= 1
    && (s.ctx.maxDatagrams == 1 ==> s.sub.Idle? && s.priv.skb.None?)
    && (s.sub.Looping? && s.sub.again ==> s.priv.skb.None?)
    && (s.sub.Idle? && s.priv.skb.Some? ==> FlushComing(s))
  }

  /** The size changes once; a buffer held across the change keeps the room of the first size. */
  ghost predicate SizesOk(s: State) {
    && (s.sizeDue.Some? ==> s.ctx.maxSize == FIRST_SIZE && s.ctx.maxDatagrams > 1)
    && (s.ctx.maxDatagrams == 1 ==> s.ctx.maxSize == FIRST_SIZE)
    && (s.priv.skb.Some? ==>
          && s.priv.asked <= s.priv.cap
          && (s.priv.asked == s.ctx.maxSize || (s.priv.asked == FIRST_SIZE && s.sizeDue.None?)))
  }

  /** Negative time parameters forbid holding at all, or holding more than one. */
  ghost predicate TimesOk(c: Channel, s: State) {
    && (c.times.bypass < 0 ==> s.priv.skb.None? && !s.overrun)
    && (c.times.limit < 0 ==> s.priv.count <= 1)
  }

  /** The packet in hand asks for more room than its buffer has. */
  ghost predicate DoesNotFit(c: Channel, s: State)
    requires c.Valid() && s.sub.Looping?
  {
    var n := |c.Wire(s.sub.x)|;
    if s.priv.skb.Some? then s.priv.cap < |s.priv.skb.value| + n < s.ctx.maxSize
    else s.ctx.maxSize < n
  }

  ghost predicate OverrunOk(c: Channel, s: State)
    requires c.Valid()
  {
    s.overrun ==> s.sub.Looping? && DoesNotFit(c, s)
  }

  ghost predicate LimitsOk(c: Channel, s: State)
    requires c.Valid()
  {
    SizesOk(s) && TimesOk(c, s) && OverrunOk(c, s)
  }

  ghost predicate Inv(c: Channel, s: State)
    requires c.Valid()
  {
    HeldOk(c, s) && BusOk(c, s) && Conserved(s) && ControlOk(s) && LimitsOk(c, s)
  }

  lemma {:induction false} WiresAppend(c: Channel, a: seq<Sent>, b: seq<Sent>)
    requires c.Valid()
    ensures c.Wires(a + b) == c.Wires(a) + c.Wires(b)
  {
    if a == [] {
      Units(b);
      Units(c.Wires(b));
    } else {
      assert (a + b)[1..] == a[1..] + b;
      WiresAppend(c, a[1..], b);
      Assoc(c.Wire(a[0]), c.Wires(a[1..]), c.Wires(b));
    }
  }

  lemma WiresOne(c: Channel, x: Sent)
    requires c.Valid()
    ensures c.Wires([x]) == c.Wire(x)
  {
    Units(c.Wire(x));
  }

  lemma WiresSnoc(c: Channel, a: seq<Sent>, x: Sent)
    requires c.Valid()
    ensures c.Wires(a + [x]) == c.Wires(a) + c.Wire(x)
  {
    WiresAppend(c, a, [x]);
    WiresOne(c, x);
  }

  lemma DetachKeepsBus(c: Channel, s: State, buf: seq<byte>, batch: seq<Sent>, held: seq<Sent>)
    requires c.Valid() && BusOk(c, s) && buf == c.Wires(batch)
    ensures BusOk(c, Detach(s, buf, batch, held))
    ensures Flatten(Detach(s, buf, batch, held).batches) == Flatten(s.batches) + batch
  {
    FlattenSnoc(s.batches, batch);
  }

  lemma StepKeepsInv(c: Channel, s: State, e: Event)
    requires c.Valid() && Inv(c, s) && Enabled(s, e)
    ensures Inv(c, Step(c, s, e))
  {
    match e
    case Begin(x) => BeginKeepsInv(c, s, x);
    case NewPacket(env) => LockedKeepsInv(c, s, env);
    case WorkLocks(now) => FlushKeepsInv(c, s, now);
    case _ => QuietKeepsInv(c, s, e);
  }

  /** Steps that leave the buffers and the history alone. */
  lemma QuietKeepsInv(c: Channel, s: State, e: Event)
    requires c.Valid() && Inv(c, s) && Enabled(s, e)
    requires !e.Begin? && !e.NewPacket? && !e.WorkLocks?
    ensures Inv(c, Step(c, s, e))
  {
    var s' := Step(c, s, e);
    QuietFrame(c, s, e);
    QuietKeepsLimits(c, s, e);
    assert InFlight(s') == InFlight(s);
    assert HoldsWhole(c, s'.ctx, s'.priv, s'.held);
  }

  lemma QuietFrame(c: Channel, s: State, e: Event)
    requires c.Valid() && ControlOk(s) && Enabled(s, e)
    requires !e.Begin? && !e.NewPacket? && !e.WorkLocks?
    ensures var s' := Step(c, s, e);
      && s'.priv == s.priv && s'.held == s.held && s'.bus == s.bus && s'.batches == s.batches && s'.sent == s.sent
      && (s'.sub == s.sub || (!s.sub.Looping? && !s'.sub.Looping?)) && s'.overrun == s.overrun
      && (s.ctx.maxDatagrams > 1 ==> s'.ctx.maxDatagrams == s.ctx.maxDatagrams) && ControlOk(s')
  {
  }

  lemma QuietKeepsLimits(c: Channel, s: State, e: Event)
    requires c.Valid() && Inv(c, s) && Enabled(s, e)
    requires !e.Begin? && !e.NewPacket? && !e.WorkLocks?
    ensures LimitsOk(c, Step(c, s, e))
    ensures e.StoreSize? && s.priv.skb.Some? ==> s.priv.asked == s.ctx.maxSize
    ensures !e.StoreSize? ==> Step(c, s, e).ctx.maxSize == s.ctx.maxSize
  {
  }

  lemma FlushKeepsInv(c: Channel, s: State, now: int)
    requires c.Valid() && Inv(c, s) && Enabled(s, WorkLocks(now))
    ensures Inv(c, Step(c, s, WorkLocks(now)))
  {
    var s' := Step(c, s, WorkLocks(now));
    if s.priv.skb.Some? {
      DetachKeepsBus(c, s, s.priv.skb.value, s.held, []);
      Units(Flatten(s.batches) + s.held);
      assert BusOk(c, s');
    }
  }

  lemma BeginKeepsInv(c: Channel, s: State, x: Sent)
    requires c.Valid() && Inv(c, s) && Enabled(s, Begin(x))
    ensures Inv(c, Step(c, s, Begin(x)))
  {
    var s' := Step(c, s, Begin(x));
    Units(Flatten(s.batches) + s.held);
    if s.ctx.maxDatagrams == 1 {
      WiresOne(c, x);
      DetachKeepsBus(c, s, c.Wire(x), [x], []);
      Units(Flatten(s.batches));
      Units(Flatten(s'.batches));
    }
  }

  lemma LockedKeepsInv(c: Channel, s: State, env: Env)
    requires c.Valid() && Inv(c, s) && s.sub.Looping? && !s.overrun
    ensures Inv(c, StepLocked(c, s, env))
  {
    var late, sparse := Expired(env.now, s.priv.time, c.times.limit), Expired(env.now, s.priv.time, c.times.bypass);
    DecideKeepsInv(c, s, late, sparse, env);
    DecideKeepsTimes(c, s, late, sparse, env);
  }

  lemma DecideKeepsInv(c: Channel, s: State, late: bool, sparse: bool, env: Env)
    requires c.Valid() && Inv(c, s) && s.sub.Looping? && !s.overrun
    ensures var s' := Passed(s, Decide(s.priv, s.ctx, c.Wire(s.sub.x), late, sparse, env));
      HeldOk(c, s') && BusOk(c, s') && Conserved(s') && ControlOk(s') && SizesOk(s') && OverrunOk(c, s')
  {
    DecideKeepsHeld(c, s, late, sparse, env);
    DecideKeepsBus(c, s, late, sparse, env);
    PassedConserves(s, Decide(s.priv, s.ctx, c.Wire(s.sub.x), late, sparse, env));
    DecideKeepsControl(c, s, late, sparse, env);
  }

  lemma PassMoves(s: State, r: Pass)
    requires s.sub.Looping? && !r.overrun
    ensures var t := Passed(s, r);
      && t.sub == (if r.used then AtHeldTest else Looping(s.sub.x, true)) && t.sent == s.sent
      && t.priv == r.priv && t.ctx == s.ctx && t.sizeDue == s.sizeDue && t.overrun == s.overrun
      && t.timerQueued == s.timerQueued && t.timerRunning == s.timerRunning
      && t.workPending == s.workPending && t.work == s.work
  {
  }

  lemma DecideKeepsControl(c: Channel, s: State, late: bool, sparse: bool, env: Env)
    requires c.Valid() && ControlOk(s) && SizesOk(s) && s.sub.Looping? && !s.overrun
    ensures var s' := Passed(s, Decide(s.priv, s.ctx, c.Wire(s.sub.x), late, sparse, env));
      ControlOk(s') && SizesOk(s') && OverrunOk(c, s')
  {
    var r := Decide(s.priv, s.ctx, c.Wire(s.sub.x), late, sparse, env);
    DecideShape(s.priv, s.ctx, c.Wire(s.sub.x), late, sparse, env);
    if !r.overrun {
      PassMoves(s, r);
    }
  }

  /** What a pass does to the held buffer's room, and when it overruns or leaves the packet. */
  lemma DecideShape(p: Priv, ctx: Settings, frame: seq<byte>, late: bool, sparse: bool, env: Env)
    ensures var r := Decide(p, ctx, frame, late, sparse, env);
      && (r.priv.skb.Some? && !r.overrun ==>
            if p.skb.Some? then r.priv.asked == p.asked && r.priv.cap == p.cap
            else r.priv.asked == ctx.maxSize && r.priv.cap == ctx.maxSize + env.extra)
      && (!r.used && !r.overrun ==> p.skb.Some? && r.priv.skb.None?)
      && (r.overrun ==> if p.skb.Some? then p.cap < |p.skb.value| + |frame| < ctx.maxSize else ctx.maxSize < |frame|)
  {
  }

  /** A negative bypass time makes every gap sparse, a negative limit makes every packet late. */
  lemma DecideKeepsTimes(c: Channel, s: State, late: bool, sparse: bool, env: Env)
    requires c.Valid() && TimesOk(c, s) && s.sub.Looping? && !s.overrun
    requires HeldOk(c, s)
    requires (c.times.limit < 0 ==> late) && (c.times.bypass < 0 ==> sparse)
    ensures TimesOk(c, Passed(s, Decide(s.priv, s.ctx, c.Wire(s.sub.x), late, sparse, env)))
  {
  }

  lemma DecideHolds(c: Channel, ctx: Settings, p: Priv, held: seq<Sent>, x: Sent,
                    late: bool, sparse: bool, env: Env)
    requires c.Valid() && HoldsWhole(c, ctx, p, held) && ctx.maxDatagrams >= 2
    ensures var r := Decide(p, ctx, c.Wire(x), late, sparse, env);
      !r.overrun ==> HoldsWhole(c, ctx, r.priv, if r.out.Some? then [] else held + [x])
  {
    WiresSnoc(c, held, x);
    Units(c.Wire(x));
  }

  lemma DecideKeepsHeld(c: Channel, s: State, late: bool, sparse: bool, env: Env)
    requires c.Valid() && HeldOk(c, s) && s.sub.Looping? && s.ctx.maxDatagrams >= 2
    ensures HeldOk(c, Passed(s, Decide(s.priv, s.ctx, c.Wire(s.sub.x), late, sparse, env)))
  {
    DecideHolds(c, s.ctx, s.priv, s.held, s.sub.x, late, sparse, env);
  }

  /** What a pass detaches is the frames of the packets it accounts for. */
  lemma DecideDetaches(c: Channel, ctx: Settings, p: Priv, held: seq<Sent>, x: Sent,
                       late: bool, sparse: bool, env: Env)
    requires c.Valid() && HoldsWhole(c, ctx, p, held)
    ensures var r := Decide(p, ctx, c.Wire(x), late, sparse, env);
      r.out.Some? ==> !r.overrun && r.out.value == c.Wires(if r.used then held + [x] else held)
  {
    WiresSnoc(c, held, x);
    Units(c.Wire(x));
  }

  lemma DecideKeepsBus(c: Channel, s: State, late: bool, sparse: bool, env: Env)
    requires c.Valid() && HeldOk(c, s) && BusOk(c, s) && s.sub.Looping?
    ensures BusOk(c, Passed(s, Decide(s.priv, s.ctx, c.Wire(s.sub.x), late, sparse, env)))
  {
    var x := s.sub.x;
    var r := Decide(s.priv, s.ctx, c.Wire(x), late, sparse, env);
    DecideDetaches(c, s.ctx, s.priv, s.held, x, late, sparse, env);
    PassedKeepsBus(c, s, r);
  }

  lemma PassedKeepsBus(c: Channel, s: State, r: Pass)
    requires c.Valid() && BusOk(c, s) && s.sub.Looping?
    requires r.out.Some? ==> !r.overrun && r.out.value == c.Wires(if r.used then s.held + [s.sub.x] else s.held)
    ensures BusOk(c, Passed(s, r))
  {
    if r.out.Some? {
      DetachKeepsBus(c, s, r.out.value, if r.used then s.held + [s.sub.x] else s.held, []);
    }
  }

  lemma PassedConserves(s: State, r: Pass)
    requires Conserved(s) && s.sub.Looping?
    ensures Conserved(Passed(s, r))
  {
    var x := s.sub.x;
    var s' := Passed(s, r);
    Assoc(Flatten(s.batches), s.held, [x]);
    if r.out.Some? {
      FlattenSnoc(s.batches, if r.used then s.held + [x] else s.held);
    }
    Units(Flatten(s'.batches) + s'.held);
    Units(Flatten(s'.batches));
  }

  lemma InitInv(c: Channel, now: int)
    requires c.Valid()
    ensures Inv(c, Init(now))
  {
    Units<Sent>([]);
  }

  lemma {:induction false} RunKeepsInv(c: Channel, s: State, es: seq<Event>)
    requires c.Valid() && Inv(c, s)
    ensures Run(c, s, es).Some? ==> Inv(c, Run(c, s, es).value)
    decreases es
  {
    if es != [] && Enabled(s, es[0]) {
      StepKeepsInv(c, s, es[0]);
      RunKeepsInv(c, Step(c, s, es[0]), es[1..]);
    }
  }

  // What holds after every run -----------------------------------------------------------------

  ghost predicate Reachable(c: Channel, s: State)
    requires c.Valid()
  {
    exists now: int, es: seq<Event> :: Run(c, Init(now), es) == Some(s)
  }

  lemma ReachableInv(c: Channel, s: State)
    requires c.Valid() && Reachable(c, s)
    ensures Inv(c, s)
  {
    var now: int, es: seq<Event> :| Run(c, Init(now), es) == Some(s);
    InitInv(c, now);
    RunKeepsInv(c, Init(now), es);
  }

  /**
   * The held buffer in every reachable state: exactly `agg_count` whole frames, more than none and
   * fewer than the limit, within the room allocated for it. The size limit was asked for, and from two
   * frames on the buffer is strictly below it, unless the size was changed while the buffer was held;
   * then the first size was asked for.
   */
  lemma HeldBuffer(c: Channel, s: State)
    requires c.Valid() && Reachable(c, s)
    ensures s.priv.skb.Some? ==>
              && s.priv.skb.value == c.Wires(s.held) && |s.held| == s.priv.count
              && 1 <= s.priv.count < s.ctx.maxDatagrams
              && |s.priv.skb.value| <= s.priv.cap
              && s.priv.asked <= s.priv.cap
              && (s.priv.asked == s.ctx.maxSize || (s.priv.asked == FIRST_SIZE && s.sizeDue.None?))
              && (s.priv.count >= 2 && s.priv.asked == s.ctx.maxSize ==> |s.priv.skb.value| < s.ctx.maxSize)
    ensures s.priv.skb.None? ==> s.priv.count == 0
  {
    ReachableInv(c, s);
  }

  /** No packet waits in the buffer without a flush on its way, unless a submit is under way. */
  lemma NothingStranded(c: Channel, s: State)
    requires c.Valid() && Reachable(c, s)
    ensures s.sub.Idle? && s.priv.skb.Some? ==> FlushComing(s)
  {
    ReachableInv(c, s);
  }

  // Left alone, the channel comes to rest ---------------------------------------------------------

  /** The driver's own steps: everything but a new packet and the settings change. */
  predicate Own(e: Event) {
    !e.Begin? && !e.StoreDatagrams? && !e.StoreSize?
  }

  ghost predicate AllOwn(es: seq<Event>) {
    forall i :: 0 <= i < |es| ==> Own(es[i])
  }

  /** No step of the driver's own is left to take. */
  ghost predicate AtRest(s: State) {
    forall e: Event :: Own(e) ==> !Enabled(s, e)
  }

  /** A bound on how many own steps can still follow. */
  function StepsLeft(s: State): nat {
    if s.overrun then 0 else
    (match s.sub
     case Idle => 0
     case Looping(_, again) => if again then 8 else 9
     case AtHeldTest => 7
     case AtTimerTest => 6)
    + (if s.timerQueued then 5 else 0) + (if s.timerRunning then 4 else 0)
    + (if s.workPending then 3 else 0)
    + match s.work case Resting => 0 case Started => 2 case Locked => 1
  }

  lemma OwnStepDescends(c: Channel, s: State, e: Event)
    requires c.Valid() && ControlOk(s) && Own(e) && Enabled(s, e)
    ensures StepsLeft(Step(c, s, e)) < StepsLeft(s) && Step(c, s, e).sent == s.sent
  {
    if e.NewPacket? {
      var r := UnderLock(s.priv, s.ctx, c.times, c.Wire(s.sub.x), e.env);
      if !r.overrun {
        PassMoves(s, r);
      }
    }
  }

  lemma {:induction false} OwnStepsEnd(c: Channel, s: State, es: seq<Event>)
    requires c.Valid() && Inv(c, s) && AllOwn(es) && Run(c, s, es).Some?
    ensures |es| <= StepsLeft(s) && Run(c, s, es).value.sent == s.sent
    decreases es
  {
    if es == [] {
    } else {
      var next := Step(c, s, es[0]);
      StepKeepsInv(c, s, es[0]);
      OwnStepDescends(c, s, es[0]);
      OwnStepsEnd(c, next, es[1..]);
    }
  }

  /** At rest nothing is held and nothing is in hand. */
  lemma RestIsEmpty(c: Channel, s: State)
    requires c.Valid() && Inv(c, s) && AtRest(s) && !s.overrun
    ensures s.sub.Idle? && s.priv.skb.None? && Flatten(s.batches) == s.sent
  {
    assert !Enabled(s, NewPacket(Env(0, false, false, false, 0)));
    assert !Enabled(s, TestHeld) && !Enabled(s, TestTimer);
    assert !Enabled(s, TimerFires) && !Enabled(s, TimerReturns);
    assert !Enabled(s, WorkStarts) && !Enabled(s, WorkLocks(0)) && !Enabled(s, WorkEnds);
    Units(Flatten(s.batches));
  }

  /** The `new_packet` loop makes at most two passes, whatever happens in between them. */
  lemma SecondPassIsLast(c: Channel, s: State, env: Env)
    requires c.Valid() && Reachable(c, s) && s.sub.Looping? && s.sub.again
    ensures StepLocked(c, s, env).sub.Looping? ==> StepLocked(c, s, env).overrun
  {
    ReachableInv(c, s);
  }

  /**
   * Byte conservation for every payload: the bus, the held buffer and the packet in hand are the
   * submitted frames back to back, in order.
   */
  lemma BytesConserved(c: Channel, s: State)
    requires c.Valid() && Reachable(c, s)
    ensures Flatten(s.bus) + s.priv.Bytes() + c.Wires(InFlight(s)) == c.Wires(s.sent)
  {
    ReachableInv(c, s);
    FlattenBus(c, s.bus, s.batches);
    WiresAppend(c, Flatten(s.batches), s.held);
    WiresAppend(c, Flatten(s.batches) + s.held, InFlight(s));
  }

  lemma {:induction false} FlattenBus(c: Channel, bus: seq<seq<byte>>, batches: seq<seq<Sent>>)
    requires c.Valid() && Carries(c, bus, batches)
    ensures Flatten(bus) == c.Wires(Flatten(batches))
  {
    if bus == [] {
    } else {
      FlattenBus(c, bus[1..], batches[1..]);
      WiresAppend(c, batches[0], Flatten(batches[1..]));
    }
  }

  // End to end ---------------------------------------------------------------------------------

  ghost predicate AllSendable(c: Channel, cfg: Config, xs: seq<Sent>) {
    forall i :: 0 <= i < |xs| ==> Sendable(cfg, c.chan, xs[i].payload, xs[i].tail)
  }

  function Packets(c: Channel, xs: seq<Sent>): seq<Packet>
    requires forall i :: 0 <= i < |xs| ==> |xs[i].payload| > 0
  {
    if xs == [] then [] else [AsPacket(c.chan, xs[0].payload)] + Packets(c, xs[1..])
  }

  lemma {:induction false} PacketsAppend(c: Channel, a: seq<Sent>, b: seq<Sent>)
    requires forall i :: 0 <= i < |a| ==> |a[i].payload| > 0
    requires forall i :: 0 <= i < |b| ==> |b[i].payload| > 0
    ensures Packets(c, a + b) == Packets(c, a) + Packets(c, b)
  {
    if a == [] {
      Units(b);
      Units(Packets(c, b));
    } else {
      assert (a + b)[1..] == a[1..] + b;
      PacketsAppend(c, a[1..], b);
      Assoc([AsPacket(c.chan, a[0].payload)], Packets(c, a[1..]), Packets(c, b));
    }
  }

  /** One frame of a sendable packet gives that packet, whatever follows it. */
  lemma DecodeWire(c: Channel, cfg: Config, stale: byte, x: Sent, more: seq<byte>)
    requires c.Valid() && cfg.Valid() && cfg.dlPad == 0 && Sendable(cfg, c.chan, x.payload, x.tail)
    ensures Decode(cfg, stale, c.FrameOf(x).Wire() + more)
         == Decoded([AsPacket(c.chan, x.payload)] + Decode(cfg, stale, more).pkts,
                    Decode(cfg, stale, more).fate)
  {
    var f := c.FrameOf(x);
    FramedIsTaken(cfg, c.version, c.chan, x.payload, x.tail);
    RoundIsJudge(cfg, stale, f, more);
    LoopFront(Rounds(cfg, stale), f.Wire(), more);
  }

  /** Decoding the frames of sendable packets gives those packets, whatever follows them. */
  lemma {:induction false} DecodeWires(c: Channel, cfg: Config, stale: byte, xs: seq<Sent>, rest: seq<byte>)
    requires c.Valid() && cfg.Valid() && cfg.dlPad == 0 && AllSendable(c, cfg, xs)
    ensures Decode(cfg, stale, c.Wires(xs) + rest).pkts == Packets(c, xs) + Decode(cfg, stale, rest).pkts
    ensures Decode(cfg, stale, c.Wires(xs) + rest).fate == Decode(cfg, stale, rest).fate
  {
    if xs == [] {
      Units(rest);
      Units(Decode(cfg, stale, rest).pkts);
    } else {
      var f := c.FrameOf(xs[0]);
      var more := c.Wires(xs[1..]) + rest;
      DecodeWires(c, cfg, stale, xs[1..], rest);
      DecodeWire(c, cfg, stale, xs[0], more);
      Assoc(f.Wire(), c.Wires(xs[1..]), rest);
      Assoc([AsPacket(c.chan, xs[0].payload)], Packets(c, xs[1..]), Decode(cfg, stale, rest).pkts);
    }
  }

  /** Decode every buffer on its own, in order. */
  function DecodeEach(cfg: Config, stale: byte, bufs: seq<seq<byte>>): seq<Packet>
    requires cfg.Valid()
  {
    if bufs == [] then [] else Decode(cfg, stale, bufs[0]).pkts + DecodeEach(cfg, stale, bufs[1..])
  }

  lemma {:induction false} DecodeEachAppend(cfg: Config, stale: byte, a: seq<seq<byte>>, b: seq<seq<byte>>)
    requires cfg.Valid()
    ensures DecodeEach(cfg, stale, a + b) == DecodeEach(cfg, stale, a) + DecodeEach(cfg, stale, b)
  {
    if a == [] {
      Units(b);
      Units(DecodeEach(cfg, stale, b));
    } else {
      assert (a + b)[1..] == a[1..] + b;
      DecodeEachAppend(cfg, stale, a[1..], b);
      Assoc(Decode(cfg, stale, a[0]).pkts, DecodeEach(cfg, stale, a[1..]), DecodeEach(cfg, stale, b));
    }
  }

  lemma DecodeEachOne(cfg: Config, stale: byte, b: seq<byte>)
    requires cfg.Valid()
    ensures DecodeEach(cfg, stale, [b]) == Decode(cfg, stale, b).pkts
  {
    Units(Decode(cfg, stale, b).pkts);
  }

  lemma DecodeNothing(cfg: Config, stale: byte)
    requires cfg.Valid()
    ensures Decode(cfg, stale, []).pkts == []
  {
    assert Rounds(cfg, stale)([]) == Leave(Drained);
  }

  lemma DecodeBatch(c: Channel, cfg: Config, stale: byte, xs: seq<Sent>)
    requires c.Valid() && cfg.Valid() && cfg.dlPad == 0 && AllSendable(c, cfg, xs)
    ensures Decode(cfg, stale, c.Wires(xs)).pkts == Packets(c, xs)
  {
    DecodeWires(c, cfg, stale, xs, []);
    Units(c.Wires(xs));
    assert Rounds(cfg, stale)([]) == Leave(Drained);
    Units(Packets(c, xs));
  }

  lemma {:induction false} DecodeBus(c: Channel, cfg: Config, stale: byte, bus: seq<seq<byte>>,
                                     batches: seq<seq<Sent>>)
    requires c.Valid() && cfg.Valid() && cfg.dlPad == 0 && Carries(c, bus, batches)
    requires AllSendable(c, cfg, Flatten(batches))
    ensures DecodeEach(cfg, stale, bus) == Packets(c, Flatten(batches))
  {
    if bus == [] {
    } else {
      var first, others := batches[0], Flatten(batches[1..]);
      assert forall i :: 0 <= i < |first| ==> Flatten(batches)[i] == first[i];
      assert forall i :: 0 <= i < |others| ==> Flatten(batches)[|first| + i] == others[i];
      DecodeBatch(c, cfg, stale, first);
      DecodeBus(c, cfg, stale, bus[1..], batches[1..]);
      PacketsAppend(c, first, others);
    }
  }

  /**
   * End to end, for both header versions, every tail memory and every interleaving: decoding the
   * detached buffers in detach order, then the held buffer, then the packet still in hand, gives
   * back exactly the submitted packets, once each and in order.
   */
  lemma EndToEnd(c: Channel, cfg: Config, stale: byte, s: State)
    requires c.Valid() && cfg.Valid() && cfg.dlPad == 0
    requires Reachable(c, s) && AllSendable(c, cfg, s.sent)
    ensures DecodeEach(cfg, stale, s.bus) + Decode(cfg, stale, s.priv.Bytes()).pkts
              + DecodeEach(cfg, stale, HandBuffers(c, s))
         == Packets(c, s.sent)
  {
    ReachableInv(c, s);
    EndToEndFromInv(c, cfg, stale, s);
  }

  /**
   * Everything submitted is delivered: from every reachable state, if no new packet comes, every
   * schedule of the driver's own steps ends within 23 of them, and when none is left to take the
   * bus alone decodes to exactly the submitted packets (unless a batch buffer was overrun).
   */
  lemma EverythingDelivered(c: Channel, cfg: Config, stale: byte, s: State, es: seq<Event>)
    requires c.Valid() && cfg.Valid() && cfg.dlPad == 0
    requires Reachable(c, s) && AllSendable(c, cfg, s.sent)
    requires AllOwn(es) && Run(c, s, es).Some?
    ensures |es| <= 23
    ensures var t := Run(c, s, es).value;
      !t.overrun && AtRest(t) ==> t.priv.skb.None? && DecodeEach(cfg, stale, t.bus) == Packets(c, s.sent)
  {
    var t := Run(c, s, es).value;
    ReachableInv(c, s);
    OwnStepsEnd(c, s, es);
    RunKeepsInv(c, s, es);
    if !t.overrun && AtRest(t) {
      RestIsEmpty(c, t);
      DecodeBus(c, cfg, stale, t.bus, t.batches);
    }
  }

  lemma EndToEndFromInv(c: Channel, cfg: Config, stale: byte, s: State)
    requires c.Valid() && cfg.Valid() && cfg.dlPad == 0
    requires Inv(c, s) && AllSendable(c, cfg, s.sent)
    ensures DecodeEach(cfg, stale, s.bus) + Decode(cfg, stale, s.priv.Bytes()).pkts
              + DecodeEach(cfg, stale, HandBuffers(c, s))
         == Packets(c, s.sent)
  {
    var b, fly := Flatten(s.batches), InFlight(s);
    SendableParts(c, cfg, b + s.held, fly);
    SendableParts(c, cfg, b, s.held);
    DecodeBus(c, cfg, stale, s.bus, s.batches);
    DecodeBatch(c, cfg, stale, s.held);
    PacketsAppend(c, b, s.held);
    PacketsAppend(c, b + s.held, fly);
    DecodeInFlight(c, cfg, stale, s);
  }

  lemma SendableParts(c: Channel, cfg: Config, a: seq<Sent>, b: seq<Sent>)
    requires AllSendable(c, cfg, a + b)
    ensures AllSendable(c, cfg, a) && AllSendable(c, cfg, b)
  {
    forall i | 0 <= i < |a| ensures Sendable(cfg, c.chan, a[i].payload, a[i].tail) {
      assert (a + b)[i] == a[i];
    }
    forall i | 0 <= i < |b| ensures Sendable(cfg, c.chan, b[i].payload, b[i].tail) {
      assert (a + b)[|a| + i] == b[i];
    }
  }

  function HandBuffers(c: Channel, s: State): seq<seq<byte>>
    requires c.Valid()
  {
    if s.sub.Looping? then [c.Wire(s.sub.x)] else []
  }

  lemma DecodeInFlight(c: Channel, cfg: Config, stale: byte, s: State)
    requires c.Valid() && cfg.Valid() && cfg.dlPad == 0 && AllSendable(c, cfg, InFlight(s))
    ensures DecodeEach(cfg, stale, HandBuffers(c, s)) == Packets(c, InFlight(s))
  {
    if s.sub.Looping? {
      DecodeBatch(c, cfg, stale, [s.sub.x]);
      WiresOne(c, s.sub.x);
      Units(Decode(cfg, stale, c.Wire(s.sub.x)).pkts);
    }
  }

  /** The same when the detached and held bytes are read as one stream. */
  lemma EndToEndStream(c: Channel, cfg: Config, stale: byte, s: State)
    requires c.Valid() && cfg.Valid() && cfg.dlPad == 0
    requires Reachable(c, s) && AllSendable(c, cfg, s.sent)
    ensures Decode(cfg, stale, Flatten(s.bus) + s.priv.Bytes() + c.Wires(InFlight(s)))
         == Decoded(Packets(c, s.sent), Drained)
  {
    BytesConserved(c, s);
    DecodeWires(c, cfg, stale, s.sent, []);
    Units(c.Wires(s.sent));
    assert Rounds(cfg, stale)([]) == Leave(Drained);
    Units(Packets(c, s.sent));
  }
}
