/** Uplink aggregation: the lock-protected batching buffer of one channel and the passes over it. */
module TxAggregator {
  import opened Bytes

  const NSEC_PER_SEC: int := 1_000_000_000

  /** Negotiated limits and the two time parameters of the module, in nanoseconds. */
  datatype Settings = Settings(maxDatagrams: nat, maxSize: nat)
  datatype Times = Times(limit: int, bypass: int)

  /**
   * What the outside world decides during one pass under the lock; `extra` is by how much the kernel
   * rounds an allocation up.
   */
  datatype Env = Env(now: int, xmitMore: bool, skip: bool, allocOk: bool, extra: nat)

  /** The fields guarded by the lock; the held buffer was asked for with `asked` and has `cap` bytes. */
  datatype Priv = Priv(skb: Option<seq<byte>>, asked: nat, cap: nat, count: nat, time: int)
  {
    function Bytes(): seq<byte> {
      if skb.Some? then skb.value else []
    }
  }

  /** Whole seconds passed, or a sub-second part above the limit (nanoseconds). */
  predicate Expired(now: int, since: int, limit: int) {
    var diff := now - since;
    diff / NSEC_PER_SEC > 0 || diff % NSEC_PER_SEC > limit
  }

  /**
   * Result of one pass: the new guarded fields, a buffer detached for transmission, whether the
   * packet was used up, and whether the copy asked for more room than the buffer has.
   * `skb_put` panics before anything is copied, so an overrun leaves everything as it was.
   */
  datatype Pass = Pass(priv: Priv, out: Option<seq<byte>>, used: bool, overrun: bool)

  /**
   * One pass, given what the two clock comparisons say: `late` when packets have been held for too
   * long, `sparse` when so much time has passed that batching is not worth it.
   */
  function Decide(p: Priv, ctx: Settings, frame: seq<byte>, late: bool, sparse: bool, e: Env): Pass {
    if p.skb.Some? then
      if |p.skb.value| + |frame| < ctx.maxSize then
        var skb, count := p.skb.value + frame, p.count + 1;
        if |skb| > p.cap then
          Pass(p, None, false, true)
        else if late || count == ctx.maxDatagrams || (!e.xmitMore && e.skip) then
          Pass(Priv(None, 0, 0, 0, e.now), Some(skb), true, false)
        else
          Pass(Priv(Some(skb), p.asked, p.cap, count, p.time), None, true, false)
      else
        Pass(Priv(None, 0, 0, 0, e.now), p.skb, false, false)
    else if !sparse && !(!e.xmitMore && e.skip) && e.allocOk then
      var room := ctx.maxSize + e.extra;
      if |frame| > room then
        Pass(p, None, false, true)
      else
        Pass(Priv(Some(frame), ctx.maxSize, room, p.count + 1, p.time), None, true, false)
    else
      Pass(Priv(None, p.asked, p.cap, p.count, e.now), Some(frame), true, false)
  }

  function UnderLock(p: Priv, ctx: Settings, t: Times, frame: seq<byte>, e: Env): Pass {
    Decide(p, ctx, frame, Expired(e.now, p.time, t.limit), Expired(e.now, p.time, t.bypass), e)
  }

  /** The flush work's pass under the lock. */
  function Flushed(p: Priv, now: int): Priv {
    if p.skb.Some? then Priv(None, 0, 0, 0, now) else p
  }

  // What a pass means --------------------------------------------------------------------------

  /**
   * More time than `limit` nanoseconds lies between two clock readings, as the driver's test on seconds
   * and nanoseconds has it. Going forward, for a limit below one second, that is the plain comparison; a
   * larger limit is cut to just below one second, a negative one always exceeded. When the clock has gone
   * back, only the nanoseconds count, from the second before.
   */
  predicate TooLong(now: int, since: int, limit: int) {
    if limit < 0 then true
    else if now < since then 0 < (since - now) % NSEC_PER_SEC < NSEC_PER_SEC - limit
    else if limit < NSEC_PER_SEC then now - since > limit
    else now - since >= NSEC_PER_SEC
  }

  lemma ExpiredMeaning(now: int, since: int, limit: int)
    ensures Expired(now, since, limit) <==> TooLong(now, since, limit)
  {
    var diff := now - since;
    var q, r := diff / NSEC_PER_SEC, diff % NSEC_PER_SEC;
    assert diff == NSEC_PER_SEC * q + r && 0 <= r < NSEC_PER_SEC;
    if diff < 0 {
      BackwardPart(since - now);
    }
  }

  lemma BackwardPart(back: int)
    requires back > 0
    ensures (-back) % NSEC_PER_SEC == if back % NSEC_PER_SEC == 0 then 0 else NSEC_PER_SEC - back % NSEC_PER_SEC
  {
    var q, r := back / NSEC_PER_SEC, back % NSEC_PER_SEC;
    assert back == NSEC_PER_SEC * q + r;
    var m := (-back) % NSEC_PER_SEC;
    assert -back == NSEC_PER_SEC * ((-back) / NSEC_PER_SEC) + m;
  }

  /** The packet is not worth waiting for: no more are announced and its kind is not batched. */
  predicate Hasty(e: Env) {
    !e.xmitMore && e.skip
  }

  /**
   * What a pass sends, for every state, clock and environment. With nothing held: the packet itself if too
   * much time has passed since the last sending, it is hasty, or no buffer is to be had. With a buffer
   * held: the buffer with the packet if that stays below the size limit and the packet is late, hasty or
   * the last one allowed; the buffer alone if it does not stay below; otherwise nothing.
   */
  lemma PassSends(p: Priv, ctx: Settings, t: Times, frame: seq<byte>, e: Env)
    ensures var r := UnderLock(p, ctx, t, frame, e);
      && (p.skb.None? ==>
            var direct := TooLong(e.now, p.time, t.bypass) || Hasty(e) || !e.allocOk;
            && (r.out == Some(frame) <==> direct) && (r.out == None <==> !direct)
            && (r.overrun <==> !direct && |frame| > ctx.maxSize + e.extra))
      && (p.skb.Some? && |p.skb.value| + |frame| >= ctx.maxSize ==> r.out == p.skb && !r.used && !r.overrun)
      && (p.skb.Some? && |p.skb.value| + |frame| < ctx.maxSize ==>
            var full := |p.skb.value| + |frame| > p.cap;
            var ready := TooLong(e.now, p.time, t.limit) || p.count + 1 == ctx.maxDatagrams || Hasty(e);
            && (r.overrun <==> full)
            && (r.out == Some(p.skb.value + frame) <==> !full && ready) && (r.out == None <==> full || !ready))
  {
    ExpiredMeaning(e.now, p.time, t.limit);
    ExpiredMeaning(e.now, p.time, t.bypass);
  }

  /**
   * What a pass keeps: what it neither sends nor overruns with is held, one packet more; sending empties
   * the buffer and restarts the clock, and nothing else does.
   */
  lemma PassKeeps(p: Priv, ctx: Settings, t: Times, frame: seq<byte>, e: Env)
    requires p.skb.None? ==> p.count == 0
    ensures var r := UnderLock(p, ctx, t, frame, e);
      && (r.overrun ==> r.priv == p && !r.used && r.out.None?)
      && (r.out.Some? ==> r.priv.skb.None? && r.priv.count == 0 && r.priv.time == e.now)
      && (r.out.None? && !r.overrun ==>
            && r.used && r.priv.skb == Some(p.Bytes() + frame)
            && r.priv.count == p.count + 1 && r.priv.time == p.time)
      && (r.out.Some? ==> (r.used <==> p.skb.None? || |p.skb.value| + |frame| < ctx.maxSize))
  {
    Units(frame);
  }

  /** With the default times: a packet five seconds after the last sending is not held. */
  lemma BypassExample(frame: seq<byte>)
    ensures UnderLock(Priv(None, 0, 0, 0, 0), Settings(10, 4096), Times(1_000_000, 10_000_000), frame,
                      Env(5_000_000_000, true, false, true, 0)).out == Some(frame)
  {
    PassSends(Priv(None, 0, 0, 0, 0), Settings(10, 4096), Times(1_000_000, 10_000_000), frame,
              Env(5_000_000_000, true, false, true, 0));
  }

  /** A clock that has gone back by exactly one second does not count as too long: the packet is held. */
  lemma BackwardExample(frame: seq<byte>)
    requires |frame| <= 4096
    ensures UnderLock(Priv(None, 0, 0, 0, 5_000_000_000), Settings(10, 4096), Times(1_000_000, 10_000_000), frame,
                      Env(4_000_000_000, true, false, true, 0)).out == None
  {
    PassSends(Priv(None, 0, 0, 0, 5_000_000_000), Settings(10, 4096), Times(1_000_000, 10_000_000), frame,
              Env(4_000_000_000, true, false, true, 0));
  }

  /** A pass neither loses nor reorders a byte, and a packet it does not use finds the buffer empty next. */
  lemma PassConserves(p: Priv, ctx: Settings, t: Times, frame: seq<byte>, e: Env)
    ensures var r := UnderLock(p, ctx, t, frame, e);
      && (if r.out.Some? then r.out.value else []) + r.priv.Bytes() + (if r.used then [] else frame)
         == p.Bytes() + frame
      && (r.overrun ==> !r.used)
      && (!r.used && !r.overrun ==> p.skb.Some? && r.priv.skb.None?)
  {
  }

  lemma PassJoins(done: seq<byte>, out: seq<byte>, held: seq<byte>, rest: seq<byte>, had: seq<byte>, frame: seq<byte>)
    requires out + held + rest == had + frame
    ensures (done + out) + held + rest == done + had + frame
  {
    Assoc(done, had, frame);
    Assoc(done, out + held, rest);
    Assoc(done, out, held);
  }

  /** The per-channel object. */
  class Aggregator {
    var aggSkb: Option<seq<byte>>
    var aggAsked: nat
    var aggCap: nat
    var aggCount: nat
    var aggTime: int

    function View(): Priv
      reads this
    {
      Priv(aggSkb, aggAsked, aggCap, aggCount, aggTime)
    }

    constructor (now: int)
      ensures View() == Priv(None, 0, 0, 0, now)
    {
      aggSkb, aggAsked, aggCap, aggCount, aggTime := None, 0, 0, 0, now;
    }

    /** One pass of the `new_packet` loop, between taking and releasing the lock. */
    method NewPacket(frame: seq<byte>, ctx: Settings, t: Times, e: Env)
      returns (out: Option<seq<byte>>, skb: Option<seq<byte>>, overrun: bool)
      modifies this
      ensures var r := UnderLock(old(View()), ctx, t, frame, e);
        && View() == r.priv && out == r.out && overrun == r.overrun
        && skb == if r.used then None else Some(frame)
    {
      var ready := false;
      out, skb, overrun := None, Some(frame), false;
      if aggSkb.Some? {
        if |aggSkb.value| + |frame| < ctx.maxSize {
          if |aggSkb.value| + |frame| > aggCap {
            overrun := true;
            return;
          }
          aggSkb := Some(aggSkb.value + frame);
          aggCount := aggCount + 1;
          if Expired(e.now, aggTime, t.limit) {
            ready := true;
          } else if aggCount == ctx.maxDatagrams {
            ready := true;
          } else if !e.xmitMore {
            ready := e.skip;
          }
          skb := None;
        } else {
          ready := true;
        }
        if ready {
          out := aggSkb;
          aggSkb, aggAsked, aggCap := None, 0, 0;
          aggCount := 0;
        }
      } else {
        if Expired(e.now, aggTime, t.bypass) {
          ready := true;
        } else if !e.xmitMore {
          ready := e.skip;
        }
        if !ready {
          if e.allocOk {
            if |frame| > ctx.maxSize + e.extra {
              overrun := true;
              return;
            }
            aggSkb, aggAsked, aggCap := Some(frame), ctx.maxSize, ctx.maxSize + e.extra;
            aggCount := aggCount + 1;
            skb := None;
          } else {
            ready := true;
          }
        }
        if ready {
          out := skb;
          skb := None;
        }
      }
      if ready {
        aggTime := e.now;
      }
    }

    /**
     * The whole submit path when nothing else gets the lock: `envs` are the conditions seen by
     * successive passes. Two passes are always enough, the buffers handed to the bus followed by
     * what is still held are the old held bytes followed by the packet, and nothing is reordered;
     * after an overrun the packet is still in hand.
     */
    method Transmit(frame: seq<byte>, ctx: Settings, t: Times, envs: seq<Env>)
      returns (xmit: seq<seq<byte>>, passes: nat, overrun: bool)
      requires |envs| >= 2
      modifies this
      ensures passes <= 2
      ensures ctx.maxDatagrams == 1 ==> xmit == [frame] && !overrun && View() == old(View())
      ensures ctx.maxDatagrams != 1 ==>
                Flatten(xmit) + View().Bytes() + (if overrun then frame else []) == old(View()).Bytes() + frame
    {
      xmit, passes, overrun := [], 0, false;
      if ctx.maxDatagrams == 1 {
        xmit := [frame];
        return;
      }
      var skb := Some(frame);
      while skb.Some? && !overrun
        invariant passes <= 2 && (skb.Some? && !overrun ==> passes <= 1)
        invariant skb.Some? ==> skb == Some(frame)
        invariant overrun ==> skb.Some?
        invariant passes == 1 && skb.Some? && !overrun ==> aggSkb.None?
        invariant Flatten(xmit) + View().Bytes() + (if skb.Some? then frame else [])
               == old(View()).Bytes() + frame
        decreases skb.Some?, 2 - passes
      {
        ghost var before, p := xmit, View();
        PassConserves(p, ctx, t, frame, envs[passes]);
        var out;
        out, skb, overrun := NewPacket(frame, ctx, t, envs[passes]);
        passes := passes + 1;
        if out.Some? {
          xmit := xmit + [out.value];
          FlattenSnoc(before, out.value);
        }
        PassJoins(Flatten(before), if out.Some? then out.value else [], View().Bytes(),
                  if skb.Some? then frame else [], p.Bytes(), frame);
        Units(Flatten(before));
      }
      Units(Flatten(xmit) + View().Bytes());
    }

    /** The flush work: detach whatever is held. */
    method Work(now: int) returns (out: Option<seq<byte>>)
      modifies this
      ensures out == old(aggSkb)
      ensures View() == Flushed(old(View()), now)
      ensures View() == if out.Some? then Priv(None, 0, 0, 0, now) else old(View())
    {
      out := None;
      if aggSkb.Some? {
        out := aggSkb;
        aggSkb, aggAsked, aggCap, aggCount, aggTime := None, 0, 0, 0, now;
      }
    }
  }
}
