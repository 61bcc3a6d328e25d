/**
 * The Fibocom driver's receive hook as an object: one call decodes a buffer onto a queue that outlives
 * the call, and drains the queue only if it reads its input to the end.
 */
module FibocomReceiver {
  import opened Bytes
  import opened QmapFrame
  import opened PullLoop
  import opened QmapDecode
  import opened FibocomDecode
  import opened FibocomCopy
  import opened ZeroCopyRx

  // The loop's bookkeeping ---------------------------------------------------------------------

  /** What is still to come, as a function of the loop's variables. */
  type Ahead = (nat, nat, seq<byte>) -> Decoded<Item>

  ghost predicate ForeseesAt(dev: Device, body: Body, ahead: Ahead, room: nat, at: nat, s: seq<byte>) {
    var st := body(room, at, s);
    if st.Leave? then ahead(room, at, s) == Decoded([], st.fate)
    else
      && GoesOn(dev, room, at, s, st)
      && var next := ahead(NextRoom(room, st, s), at + st.n, s[st.n..]);
         ahead(room, at, s) == Decoded(Emitted(st) + next.pkts, next.fate)
  }

  /** It foretells every round: how the loop leaves, or what it emits and what follows. */
  ghost predicate Foresees(dev: Device, body: Body, ahead: Ahead) {
    forall room: nat, at: nat, s: seq<byte> :: ForeseesAt(dev, body, ahead, room, at, s)
  }

  ghost function LoopAhead(body: Body): Ahead {
    (room: nat, at: nat, s: seq<byte>) => RoomLoop(body, room, at, s)
  }

  lemma LoopForesees(dev: Device, body: Body)
    requires WellBehaved(dev, body)
    ensures Foresees(dev, body, LoopAhead(body))
  {
    forall room: nat, at: nat, s: seq<byte> ensures ForeseesAt(dev, body, LoopAhead(body), room, at, s) {
      assert body(room, at, s).Move? ==> GoesOn(dev, room, at, s, body(room, at, s));
    }
  }

  /** `got` are the packets of the whole decoding before those of `left`. */
  ghost predicate Tally(whole: Decoded<Item>, left: Decoded<Item>, got: seq<Item>) {
    whole.pkts == got + left.pkts && whole.fate == left.fate
  }

  /** The call is over with `got` handed out, `allocs` being all there was to allocate. */
  ghost predicate CallOver(whole: Decoded<Item>, allocs: nat, got: seq<Item>, ending: Ending) {
    && got == whole.pkts[..Min(allocs, |whole.pkts|)]
    && ending == EndingOf(whole.fate, |whole.pkts|, allocs)
  }

  lemma TallyOver(whole: Decoded<Item>, fate: Fate, got: seq<Item>, allocs: nat)
    requires Tally(whole, Decoded([], fate), got) && |got| <= allocs
    ensures CallOver(whole, allocs, got, EndingOf(fate, |got|, allocs))
  {
    Units(got);
    assert got[..|got|] == got;
  }

  lemma TallyCut(whole: Decoded<Item>, left: Decoded<Item>, got: seq<Item>)
    requires Tally(whole, left, got) && left.pkts != []
    ensures CallOver(whole, |got|, got, GivenUp)
  {
  }

  lemma TallyNext(whole: Decoded<Item>, e: seq<Item>, next: Decoded<Item>, got: seq<Item>)
    requires Tally(whole, Decoded(e + next.pkts, next.fate), got)
    ensures Tally(whole, next, got + e)
  {
    Assoc(got, e, next.pkts);
  }

  lemma BuffersAppend(a: seq<Queued>, b: seq<Queued>)
    ensures Buffers(a + b) == Buffers(a) + Buffers(b)
  {
  }

  lemma ReadsAppend(a: seq<Queued>, ds: seq<Delivery>, b: seq<Queued>, es: seq<Delivery>)
    requires Reads(a, ds) && Reads(b, es)
    ensures Reads(a + b, ds + es)
  {
  }

  ghost predicate AllInto(qs: seq<Queued>, buf: array<byte>) {
    forall k :: 0 <= k < |qs| && qs[k].Clone? ==> qs[k].buf == buf
  }

  lemma ReadsAsMemory(qs: seq<Queued>, buf: array<byte>, ds: seq<Delivery>)
    requires AllInto(qs, buf) && ReadsIn(qs, buf[..], ds)
    ensures Reads(qs, ds)
  {
    forall k | 0 <= k < |qs| ensures InBounds(qs[k]) && Now(qs[k]) == ds[k] {
      assert SeesIn(qs[k], buf[..], ds[k]);
      if qs[k].Clone? {
        WholeWindow(buf, qs[k].off, qs[k].off + qs[k].len);
      }
    }
  }

  /** The queue reads as before, followed by what the packets of the call settle to. */
  lemma QueueReads(older: seq<Queued>, due: seq<Delivery>, dev: Device, m: seq<byte>, buf: array<byte>, data: nat,
                   got: seq<Item>)
    requires Reads(older, due) && Settles(dev, m, buf, data, got) && buf[..] == Memory(dev, m, data, got)
    ensures var qs := older + Entries(dev, buf, data, got);
      Reads(qs, due + Settled(dev, got)) && Buffers(qs) <= Buffers(older) + {buf}
  {
    var mine := Entries(dev, buf, data, got);
    EntriesInto(dev, buf, data, got);
    ReadsAsMemory(mine, buf, Settled(dev, got));
    ReadsAppend(older, due, mine, Settled(dev, got));
    BuffersAppend(older, mine);
  }

  lemma {:induction false} EntriesInto(dev: Device, buf: array<byte>, data: nat, xs: seq<Item>)
    requires ForDevice(dev, xs)
    ensures AllInto(Entries(dev, buf, data, xs), buf)
  {
    if xs == [] {
    } else {
      EntriesInto(dev, buf, data, xs[..|xs| - 1]);
    }
  }

  /** The queue and the memory when the call began. */
  datatype Start = Start(queue: seq<Queued>, memory: seq<byte>)

  /** `got` have been handed out: they are what the queue and the memory have changed by. */
  ghost predicate Handed(dev: Device, start: Start, buf: array<byte>, data: nat, got: seq<Item>,
                         queue: seq<Queued>, memory: seq<byte>)
  {
    && ForDevice(dev, got)
    && queue == start.queue + Entries(dev, buf, data, got) && memory == Memory(dev, start.memory, data, got)
  }

  lemma HandedNext(dev: Device, start: Start, buf: array<byte>, data: nat, got: seq<Item>,
                   queue: seq<Queued>, memory: seq<byte>, x: Item)
    requires Handed(dev, start, buf, data, got, queue, memory) && For(dev, x)
    ensures Handed(dev, start, buf, data, got + [x], queue + [Entry(dev, buf, data, x)],
                   MemoryAfter(dev, memory, data + x.at, x))
  {
    CallSnoc(dev, start.memory, buf, data, got, x);
    Assoc(start.queue, Entries(dev, buf, data, got), [Entry(dev, buf, data, x)]);
  }

  /** How a call ends: input read to the end, given up on the way, or a crash. */
  datatype Ending = Finished | GivenUp | Crash

  /**
   * The ending of a call that handed out `count` packets with `allocs` allocations to be had. A packet
   * is allocated before it is copied, so without an allocation left a negative copy is not attempted.
   */
  function EndingOf(fate: Fate, count: nat, allocs: nat): Ending {
    if count > allocs then GivenUp
    else match fate
      case Drained => Finished
      case Crashed => if count < allocs then Crash else GivenUp
      case _ => GivenUp
  }

  /**
   * The driver's receive state. `chain` outlives a call: a call that ends on a bad frame leaves its
   * packets queued for a later one. The two ghost fields record, over all calls, the deliveries due
   * for what was decoded and those actually made.
   */
  class Receiver {
    var chain: seq<Queued>
    ghost var decoded: seq<Delivery>
    ghost var delivered: seq<Delivery>

    /** Delivered so far, followed by what the queue holds now, is everything decoded so far. */
    ghost predicate Valid()
      reads this, Buffers(chain)
    {
      && delivered <= decoded
      && Reads(chain, decoded[|delivered|..])
    }

    constructor ()
      ensures Valid() && chain == [] && decoded == [] && delivered == []
    {
      chain, decoded, delivered := [], [], [];
    }

    /**
     * Decode the frames in `buf[data..data + len]` onto the queue. For every input the queue then reads
     * as before, followed by exactly what the call's packets settle to.
     */
    method Receive(hook: Hook, buf: array<byte>, data: nat, len: nat, allocs: nat, ghost effect: Effect)
      returns (ending: Ending)
      requires Valid() && hook.Valid() && IsTheEffect(effect)
      requires data + len <= buf.Length && buf !in Buffers(chain)
      modifies this, buf
      ensures var o := effect(RxCall(hook, data, old(buf[data..data + len]), allocs));
        ending == o.ending && decoded == old(decoded) + o.added
      ensures Valid() && delivered == old(delivered)
      ensures Buffers(chain) <= old(Buffers(chain)) + {buf}
    {
      ghost var older, m, due := chain, buf[..], decoded[|delivered|..];
      ghost var call := RxCall(hook, data, buf[data..data + len], allocs);
      ghost var got;
      WholeWindow(buf, data, data + len);
      LoopForesees(hook.dev, hook.body);
      got, ending := Walk(hook.body, hook.dev, buf, data, len, allocs, LoopAhead(hook.body));
      CallSettles(effect, call, m, buf, got, ending, older, due, chain);
      DropOfAppend(decoded, effect(call).added, |delivered|);
      decoded := decoded + effect(call).added;
    }

    /** The loop itself: what it does to memory and to the queue, packet by packet. */
    method Walk(body: Body, dev: Device, buf: array<byte>, data: nat, len: nat, allocs: nat,
                ghost ahead: Ahead)
      returns (ghost got: seq<Item>, ending: Ending)
      requires dev.Valid() && data + len <= buf.Length && Foresees(dev, body, ahead)
      modifies this`chain, buf
      ensures CallOver(ahead(data, 0, old(buf[data..data + len])), allocs, got, ending)
      ensures Handed(dev, Start(old(chain), old(buf[..])), buf, data, got, chain, buf[..])
    {
      ghost var start, todo := Start(chain, buf[..]), buf[data..data + len];
      ghost var whole := ahead(data, 0, todo);
      var pos: nat, end: nat, headroom: nat, used: nat := data, data + len, data, 0;
      var stop: Option<Ending> := None;
      got := [];
      Units(whole.pkts);
      Units(chain);
      while stop.None?
        invariant data <= pos <= end <= buf.Length && used == |got| <= allocs && Min(headroom, ETH_HLEN) <= pos
        invariant buf[pos..end] == todo && Tally(whole, ahead(headroom, pos - data, todo), got)
        invariant Handed(dev, start, buf, data, got, chain, buf[..])
        invariant stop.Some? ==> CallOver(whole, allocs, got, stop.value)
        decreases stop.None?, end - pos
      {
        pos, headroom, used, stop, got, todo :=
          Turn(body, dev, buf, data, pos, end, headroom, used, allocs, ahead, start, whole, got, todo);
      }
      ending := stop.value;
    }

    /** One turn of the loop. */
    method Turn(body: Body, dev: Device, buf: array<byte>, data: nat, at: nat, end: nat, room: nat, count: nat,
                allocs: nat, ghost ahead: Ahead, ghost start: Start, ghost whole: Decoded<Item>,
                ghost had: seq<Item>, ghost unread: seq<byte>)
      returns (pos: nat, headroom: nat, used: nat, stop: Option<Ending>, ghost got: seq<Item>, ghost todo: seq<byte>)
      requires Foresees(dev, body, ahead)
      requires data <= at <= end <= buf.Length && count == |had| <= allocs && Min(room, ETH_HLEN) <= at
      requires buf[at..end] == unread && Tally(whole, ahead(room, at - data, unread), had)
      requires Handed(dev, start, buf, data, had, chain, buf[..])
      modifies this`chain, buf
      ensures data <= pos <= end && used == |got| <= allocs && Min(headroom, ETH_HLEN) <= pos
      ensures buf[pos..end] == todo && Tally(whole, ahead(headroom, pos - data, todo), got)
      ensures Handed(dev, start, buf, data, got, chain, buf[..])
      ensures if stop.Some? then CallOver(whole, allocs, got, stop.value) else at < pos
    {
      pos, headroom, used, stop, got, todo := at, room, count, None, had, unread;
      var step := Look(body, dev, room, at - data, buf[at..end], allocs, ahead, whole, had);
      if step.Leave? {
        stop := Some(EndingOf(step.fate, count, allocs));
      } else if step.out.Some? && count == allocs {
        stop := Some(GivenUp);
      } else {
        headroom := Handle(dev, buf, data, at, end, room, step, start, had, unread);
        got, todo := had + Emitted(step), unread[step.n..];
        used := count + |Emitted(step)|;
        pos := at + step.n;
      }
    }

    /** Hand out and queue the packet of one round, if it has one. */
    method Handle(dev: Device, buf: array<byte>, data: nat, pos: nat, end: nat, headroom: nat, step: Step<Item>,
                  ghost start: Start, ghost got: seq<Item>, ghost todo: seq<byte>)
      returns (room: nat)
      requires data <= pos <= end <= buf.Length && buf[pos..end] == todo && Min(headroom, ETH_HLEN) <= pos
      requires GoesOn(dev, headroom, pos - data, todo, step)
      requires Handed(dev, start, buf, data, got, chain, buf[..])
      modifies this`chain, buf
      ensures room == NextRoom(headroom, step, todo) && Min(room, ETH_HLEN) <= pos + step.n
      ensures Handed(dev, start, buf, data, got + Emitted(step), chain, buf[..])
      ensures buf[pos + step.n..end] == todo[step.n..]
    {
      room := NextRoom(headroom, step, buf[pos..end]);
      SubWindow(buf, pos, end, step.n, end - pos);
      if step.out.Some? {
        var x := step.out.value;
        SubWindow(buf, pos, end, HEADER_LEN, HEADER_LEN + |x.pkt.payload|);
        WholeWindow(buf, pos, end);
        UnreadAfter(dev, buf[..], pos, x, step.n, end);
        HandedNext(dev, start, buf, data, got, chain, buf[..], x);
        var q := HandOut(dev, buf, data, pos, headroom, x);
        WholeWindow(buf, pos + step.n, end);
        chain := chain + [q];
      } else {
        Units(got);
      }
    }

    /** Judge the front of the unread input, with what that says about the whole input. */
    static method Look(body: Body, dev: Device, room: nat, at: nat, s: seq<byte>, allocs: nat,
                       ghost ahead: Ahead, ghost whole: Decoded<Item>, ghost got: seq<Item>)
      returns (step: Step<Item>)
      requires Foresees(dev, body, ahead) && Tally(whole, ahead(room, at, s), got) && |got| <= allocs
      ensures step.Leave? ==> CallOver(whole, allocs, got, EndingOf(step.fate, |got|, allocs))
      ensures step.Move? ==>
                && GoesOn(dev, room, at, s, step)
                && Tally(whole, ahead(NextRoom(room, step, s), at + step.n, s[step.n..]), got + Emitted(step))
      ensures step.Move? && step.out.Some? && |got| == allocs ==> CallOver(whole, allocs, got, GivenUp)
    {
      step := body(room, at, s);
      assert ForeseesAt(dev, body, ahead, room, at, s);
      if step.Leave? {
        TallyOver(whole, step.fate, got, allocs);
      } else {
        TallyNext(whole, Emitted(step), ahead(NextRoom(room, step, s), at + step.n, s[step.n..]), got);
        if step.out.Some? {
          TallyCut(whole, ahead(room, at, s), got);
        }
      }
    }

    /** Empty the queue into the network stack; each packet is read only now. */
    method Drain() returns (up: seq<Delivery>)
      requires Valid()
      modifies this
      ensures Valid() && chain == [] && decoded == old(decoded)
      ensures delivered == decoded == old(delivered) + up
    {
      up := [];
      while chain != []
        invariant Valid() && decoded == old(decoded)
        invariant delivered == old(delivered) + up
        invariant Buffers(chain) <= old(Buffers(chain))
        decreases |chain|
      {
        var q := chain[0];
        up := up + [Now(q)];
        chain := chain[1..];
        delivered := delivered + [Now(q)];
      }
    }

    ghost function Account(): Books
      requires Valid()
      reads this, Buffers(chain)
    {
      Books(delivered, decoded[|delivered|..])
    }

    /**
     * One call of the receive hook, for every input: what goes up the stack is what earlier calls left
     * behind and then what the call's packets settle to, read only when the queue is drained; a call
     * that ends early delivers nothing and leaves its packets queued. After a crash the state is the
     * one in which the crash happened.
     */
    method RxFixup(hook: Hook, buf: array<byte>, data: nat, len: nat, allocs: nat)
      returns (up: seq<Delivery>, crashed: bool)
      requires Valid() && hook.Valid()
      requires data + len <= buf.Length && buf !in Buffers(chain)
      modifies this, buf
      ensures Valid() && delivered == old(delivered) + up
      ensures var o := OutcomeOf(RxCall(hook, data, old(buf[data..data + len]), allocs));
        Account() == AfterCall(old(Account()), o) && (crashed <==> o.ending.Crash?)
      ensures var c := RxCall(hook, data, old(buf[data..data + len]), allocs);
        var due := old(Account()).pending + OutcomeOf(c).added;
        if ReadsToEnd(c) then up == due && chain == []
        else up == [] && Account().pending == due
      ensures Buffers(chain) <= old(Buffers(chain)) + {buf}
    {
      ghost var c, books := RxCall(hook, data, buf[data..data + len], allocs), Account();
      assert IsEffect(TheEffect(), c);
      up, crashed := RxFixupAs(hook, buf, data, len, allocs, TheEffect());
      DeliversIff(books, c, up);
    }

    /** The same with the outcome given as a function of the call, so that its definition stays out of sight. */
    method RxFixupAs(hook: Hook, buf: array<byte>, data: nat, len: nat, allocs: nat, ghost effect: Effect)
      returns (up: seq<Delivery>, crashed: bool)
      requires Valid() && hook.Valid() && IsTheEffect(effect)
      requires data + len <= buf.Length && buf !in Buffers(chain)
      modifies this, buf
      ensures Valid() && delivered == old(delivered) + up
      ensures var o := effect(RxCall(hook, data, old(buf[data..data + len]), allocs));
        Account() == AfterCall(old(Account()), o) && (crashed <==> o.ending.Crash?)
      ensures Buffers(chain) <= old(Buffers(chain)) + {buf}
    {
      ghost var due := decoded[|delivered|..];
      ghost var o := effect(RxCall(hook, data, buf[data..data + len], allocs));
      DropOfAppend(decoded, o.added, |delivered|);
      var ending := Receive(hook, buf, data, len, allocs, effect);
      up, crashed := [], ending.Crash?;
      if ending.Finished? {
        ghost var all := decoded[|delivered|..];
        up := Drain();
        assert up == all;
      }
    }
  }

  // Runs of calls ------------------------------------------------------------------------------

  /** One call of the receive hook: its input, the headroom before it and the buffers to be had. */
  datatype RxCall = RxCall(hook: Hook, room: nat, input: seq<byte>, allocs: nat)

  /** What a call adds to the queue, as it reads when drained, and how the call ends. */
  datatype Outcome = Outcome(added: seq<Delivery>, ending: Ending)

  /** What has gone up the stack and what waits in the queue. */
  datatype Books = Books(delivered: seq<Delivery>, pending: seq<Delivery>)

  function Items(c: RxCall): (xs: seq<Item>)
    requires c.hook.Valid()
    ensures ForDevice(c.hook.dev, xs) && InOrder(c.hook.dev, c.input, xs)
  {
    var all := RoomLoop(c.hook.body, c.room, 0, c.input).pkts;
    DecodedLined(c.hook.dev, c.hook.body, c.room, c.input, Min(c.allocs, |all|));
    all[..Min(c.allocs, |all|)]
  }

  function OutcomeOf(c: RxCall): Outcome
    requires c.hook.Valid()
  {
    var d := RoomLoop(c.hook.body, c.room, 0, c.input);
    Outcome(Settled(c.hook.dev, Items(c)), EndingOf(d.fate, |d.pkts|, c.allocs))
  }

  /** After some number of rounds the loop drains its input, and every packet could be allocated. */
  ghost predicate ReadsToEnd(c: RxCall) {
    && (exists n: nat :: LeavesAt(c.hook.body, c.room, 0, c.input, n, Drained))
    && |RoomLoop(c.hook.body, c.room, 0, c.input).pkts| <= c.allocs
  }

  /**
   * A call delivers everything queued, its own packets included, if and only if it reads its input to
   * the end; otherwise it delivers nothing and its packets stay queued behind the earlier ones. `up` is
   * what the call has put behind the deliveries made before.
   */
  lemma DeliversIff(b: Books, c: RxCall, up: seq<Delivery>)
    requires c.hook.Valid()
    ensures var due := b.pending + OutcomeOf(c).added;
      var after := AfterCall(b, OutcomeOf(c));
      && after == (if ReadsToEnd(c) then Books(b.delivered + due, []) else Books(b.delivered, due))
      && (after.delivered == b.delivered + up ==> up == if ReadsToEnd(c) then due else [])
  {
    var due := b.pending + OutcomeOf(c).added;
    FateIff(c.hook.body, c.room, 0, c.input, Drained);
    DropFront(b.delivered, up);
    DropFront(b.delivered, due);
    Units(b.delivered);
    DropFront(b.delivered, []);
  }

  /** For the driver that means: at most four bytes are left unread, and no allocation failed. */
  lemma DriverReadsToEndIff(dev: Device, room: nat, input: seq<byte>, allocs: nat)
    requires dev.Valid()
    ensures ReadsToEnd(DriverCall(dev, room, input, allocs))
       <==> && (exists n: nat :: LeavesTail(dev, room, input, n))
            && |FDecode(dev, room, 0, input).pkts| <= allocs
  {
    var c := DriverCall(dev, room, input, allocs);
    forall n: nat ensures LeavesAt(c.hook.body, room, 0, input, n, Drained) <==> LeavesTail(dev, room, input, n) {
    }
  }

  /** After `n` rounds the driver has at most a header's worth of the input left. */
  ghost predicate LeavesTail(dev: Device, room: nat, input: seq<byte>, n: nat)
    requires dev.Valid()
  {
    var v := Reached(FRounds(dev), room, 0, input, n);
    v.Some? && |v.value.2| <= HEADER_LEN
  }

  /** Packet `i` of the call is delivered as it was handed out exactly unless it is spoiled. */
  lemma DeliveredIntactIff(c: RxCall, i: nat)
    requires c.hook.Valid() && i < |Items(c)|
    ensures i < |OutcomeOf(c).added|
    ensures OutcomeOf(c).added[i] == Due(c.hook.dev, Items(c)[i]) <==> !Spoiled(Items(c), i)
  {
    SpoiledIff(c.hook.dev, c.input, Items(c), i);
  }

  // Against a receiver that copies -------------------------------------------------------------

  /** The driver's own call on a device. */
  function DriverCall(dev: Device, room: nat, input: seq<byte>, allocs: nat): (c: RxCall)
    requires dev.Valid()
    ensures c.hook.Valid()
  {
    DriverBehaves(dev);
    RxCall(Hook(dev, FRounds(dev)), room, input, allocs)
  }

  ghost predicate AllRegistered(dev: Device, ps: seq<Packet>) {
    dev.Valid() && forall i :: 0 <= i < |ps| ==> Registered(dev, ps[i])
  }

  function Deliveries(dev: Device, ps: seq<Packet>): (ds: seq<Delivery>)
    requires AllRegistered(dev, ps)
    ensures |ds| == |ps| && forall i :: 0 <= i < |ps| ==> ds[i] == Ethernet(dev, ps[i])
  {
    seq(|ps|, i requires 0 <= i < |ps| => Ethernet(dev, ps[i]))
  }

  /** What a receiver that copies every packet makes of the same call. */
  function CopyOutcome(dev: Device, input: seq<byte>, allocs: nat): Outcome
    requires dev.Valid()
  {
    var d := CopyDecode(dev, input);
    CopiedRegistered(dev, input);
    Outcome(Deliveries(dev, d.pkts[..Min(allocs, |d.pkts|)]), EndingOf(d.fate, |d.pkts|, allocs))
  }

  lemma CopiedRegistered(dev: Device, input: seq<byte>)
    requires dev.Valid()
    ensures AllRegistered(dev, CopyDecode(dev, input).pkts)
  {
    var d := FDecode(dev, 0, 0, input);
    CopyIff(dev, 0, 0, input);
    BeforeLooseMeaning(d.pkts);
    PktsLength(BeforeLoose(d.pkts));
    DriverBehaves(dev);
    DecodedLined(dev, FRounds(dev), 0, input, |d.pkts|);
    assert d.pkts[..|d.pkts|] == d.pkts;
  }

  /**
   * Zero-copy receive refines copying receive exactly here: for every device, input, headroom and number
   * of allocations, the call adds to the queue what copying would and ends the same way if and only if
   * none of the packets it hands out is an untrimmed window.
   */
  lemma RefinesCopyingIff(dev: Device, room: nat, input: seq<byte>, allocs: nat)
    requires dev.Valid()
    ensures var c := DriverCall(dev, room, input, allocs);
      OutcomeOf(c) == CopyOutcome(dev, input, allocs) <==> NoneLoose(Items(c))
  {
    var c, d := DriverCall(dev, room, input, allocs), FDecode(dev, room, 0, input);
    CopyIff(dev, room, 0, input);
    BeforeLooseMeaning(d.pkts);
    PktsLength(BeforeLoose(d.pkts));
    CopiedRegistered(dev, input);
    assert RoomLoop(c.hook.body, room, 0, input) == d;
    if NoneLoose(Items(c)) {
      NoneSpoiled(dev, input, Items(c));
      SameAdded(dev, d.pkts, CopyDecode(dev, input).pkts, Items(c), allocs);
    }
  }

  /** Without untrimmed packets among those handed out, copying hands out the same ones. */
  lemma SameAdded(dev: Device, xs: seq<Item>, ps: seq<Packet>, got: seq<Item>, allocs: nat)
    requires AllRegistered(dev, ps) && ForDevice(dev, got)
    requires got == xs[..Min(allocs, |xs|)] && NoneLoose(got)
    requires |ps| == |BeforeLoose(xs)| && forall i :: 0 <= i < |ps| ==> ps[i] == xs[i].pkt
    requires |ps| < |xs| ==> xs[|ps|].loose
    requires forall i :: 0 <= i < |got| ==> Settled(dev, got)[i] == Due(dev, got[i])
    ensures |got| <= |ps| && Settled(dev, got) == Deliveries(dev, ps[..Min(allocs, |ps|)])
  {
    forall i | 0 <= i < |got| ensures !xs[i].loose {
      assert got[i] == xs[i];
    }
  }

  /** The packet that copying would make of the frame at the front, if it makes one. */
  function CopiedPacket(dev: Device, s: seq<byte>): Option<Packet>
    requires dev.Valid()
  {
    match CopyRounds(dev)(s)
    case Leave(_) => None
    case Move(_, out) => out
  }

  ghost function FrameClaim(dev: Device, input: seq<byte>): Claim
    requires dev.Valid()
  {
    (room: nat, at: nat, s: seq<byte>, xs: seq<Item>) =>
      && at <= |input| && s == input[at..]
      && forall i :: 0 <= i < |xs| ==> FromFrame(dev, input, xs[i])
  }

  /** The packet is what its frame yields: as copying has it, or untrimmed where copying crashes. */
  ghost predicate FromFrame(dev: Device, input: seq<byte>, x: Item)
    requires dev.Valid()
  {
    x.at <= |input| && CopiedPacket(dev, input[x.at..]) == if x.loose then None else Some(x.pkt)
  }

  lemma RoundFromFrame(dev: Device, input: seq<byte>, room: nat, at: nat, s: seq<byte>, xs: seq<Item>)
    requires dev.Valid()
    ensures KeptAt(FRounds(dev), FrameClaim(dev, input), room, at, s, xs)
  {
    var st := FRounds(dev)(room, at, s);
    if FrameClaim(dev, input)(room, at, s, xs) && Pulls(st, s) {
      RoundCopies(dev, room, at, s);
      if st.out.Some? {
        RoundCuts(dev, room, at, s);
        assert FromFrame(dev, input, st.out.value);
      }
      assert s[st.n..] == input[at + st.n..];
    }
  }

  lemma ItemsFromFrames(dev: Device, room: nat, input: seq<byte>, allocs: nat)
    requires dev.Valid()
    ensures var xs := Items(DriverCall(dev, room, input, allocs));
      forall i :: 0 <= i < |xs| ==> FromFrame(dev, input, xs[i])
  {
    var body, claim := FRounds(dev), FrameClaim(dev, input);
    var all := RoomLoop(body, room, 0, input).pkts;
    assert input == input[0..] && claim(room, 0, input, []);
    forall r: nat, at: nat, t: seq<byte>, xs: seq<Item> ensures KeptAt(body, claim, r, at, t, xs) {
      RoundFromFrame(dev, input, r, at, t, xs);
    }
    LoopKeeps(body, claim, room, 0, input, [], Min(allocs, |all|));
    Units(all[..Min(allocs, |all|)]);
  }

  /** Packet `i` is delivered as copying its own frame would have it if and only if it was trimmed. */
  lemma DeliveredAsCopiedIff(dev: Device, room: nat, input: seq<byte>, allocs: nat, i: nat)
    requires dev.Valid() && i < |Items(DriverCall(dev, room, input, allocs))|
    ensures var c := DriverCall(dev, room, input, allocs);
      var x := Items(c)[i];
      && x.at <= |input| && |OutcomeOf(c).added| == |Items(c)|
      && var p := CopiedPacket(dev, input[x.at..]);
         (p.Some? && Registered(dev, p.value) && OutcomeOf(c).added[i] == Ethernet(dev, p.value)) <==> !x.loose
  {
    var c := DriverCall(dev, room, input, allocs);
    ItemsFromFrames(dev, room, input, allocs);
    DeliveredIntactIff(c, i);
    assert FromFrame(dev, input, Items(c)[i]);
  }

  /**
   * A trimmed packet as it goes up the stack, told from the bytes of its frame: the channel is the one the
   * frame names, and the frame's bytes without the padding follow the addresses of channel and modem and
   * the protocol that the first nibble names.
   */
  lemma TrimmedMeaning(dev: Device, room: nat, input: seq<byte>, allocs: nat, i: nat)
    requires dev.Valid() && i < |Items(DriverCall(dev, room, input, allocs))|
    requires !Items(DriverCall(dev, room, input, allocs))[i].loose
    ensures var c := DriverCall(dev, room, input, allocs);
      var at := Items(c)[i].at;
      at <= |input| && i < |OutcomeOf(c).added| && Tells(dev, input[at..], OutcomeOf(c).added[i])
  {
    var c := DriverCall(dev, room, input, allocs);
    DeliveredAsCopiedIff(dev, room, input, allocs, i);
    CopiedMeaning(dev, input[Items(c)[i].at..]);
  }

  /** The frame at the front says all of the delivery. */
  ghost predicate Tells(dev: Device, s: seq<byte>, d: Delivery) {
    && GoodLength(s) && GoodAddress(dev, s) && Pad(s) <= PktLen(s)
    && var chan := s[1] - MUX_ID_BASE;
       && chan < |dev.nets| && dev.nets[chan].Some?
       && d == Delivery(chan,
            dev.nets[chan].value + [0x02, 0x50, 0xf3, 0, 0, 0]
            + (if s[HEADER_LEN] / 16 == 6 then [0x86, 0xdd] else [0x08, 0x00])
            + s[HEADER_LEN..HEADER_LEN + PktLen(s) - Pad(s)])
  }

  lemma CopiedMeaning(dev: Device, s: seq<byte>)
    requires dev.Valid() && CopiedPacket(dev, s).Some? && Registered(dev, CopiedPacket(dev, s).value)
    ensures Tells(dev, s, Ethernet(dev, CopiedPacket(dev, s).value))
  {
    assert FRound(dev, 0, 0, s).Move?;
    RoundMeaning(dev, 0, 0, s);
    RoundCuts(dev, 0, 0, s);
  }

  /** A call crashes exactly when it gets to a negative copy with an allocation left for it. */
  lemma CallCrashesIff(dev: Device, room: nat, input: seq<byte>, allocs: nat)
    requires dev.Valid()
    ensures OutcomeOf(DriverCall(dev, room, input, allocs)).ending.Crash?
       <==> && (exists n: nat :: ReachesNegativeCopy(dev, room, 0, input, n))
            && |FDecode(dev, room, 0, input).pkts| < allocs
  {
    CrashIff(dev, room, 0, input);
  }

  /** An input without over-padded frames never crashes a call and is received as if copied. */
  lemma WellPaddedCalls(dev: Device, room: nat, input: seq<byte>, allocs: nat)
    requires dev.Valid() && WellPadded(input)
    ensures var c := DriverCall(dev, room, input, allocs);
      OutcomeOf(c) == CopyOutcome(dev, input, allocs) && !OutcomeOf(c).ending.Crash?
  {
    WellPaddedTrimmed(dev, room, 0, input);
    RefinesCopyingIff(dev, room, input, allocs);
  }

  const UNTRIMMED: seq<byte> := [5, 0x81, 0, 1, 0x45, 0, 0x81, 0, 1, 0x45]

  lemma UntrimmedItems()
    ensures EXAMPLE_DEV.Valid() && FDecode(EXAMPLE_DEV, ETH_HLEN, 0, UNTRIMMED).pkts ==
      [Item(Packet(0, false, [0x45, 0, 0x81, 0, 1, 0x45]), 0, true, true),
       Item(Packet(0, false, [0x45]), 5, false, false)]
  {
    var st := FRounds(EXAMPLE_DEV)(ETH_HLEN, 0, UNTRIMMED);
    assert UNTRIMMED[HEADER_LEN..] == [0x45, 0, 0x81, 0, 1, 0x45];
    assert st == Move(5, Some(Item(Packet(0, false, UNTRIMMED[HEADER_LEN..]), 0, true, true)));
    ExampleSecond(5, UNTRIMMED[5..]);
  }

  /**
   * Ten bytes with fourteen bytes of headroom: the packet of the first frame, which holds one byte,
   * is delivered with the whole second frame behind it and nothing overwrites it.
   */
  lemma UntrimmedExample()
    ensures EXAMPLE_DEV.Valid()
    ensures var c := DriverCall(EXAMPLE_DEV, ETH_HLEN, UNTRIMMED, 2);
      && |Items(c)| == 2 && Items(c)[0].loose && !Spoiled(Items(c), 0)
      && Items(c)[0].pkt.payload == [0x45, 0, 0x81, 0, 1, 0x45]
  {
    UntrimmedItems();
    var all := FDecode(EXAMPLE_DEV, ETH_HLEN, 0, UNTRIMMED).pkts;
    assert all[..2] == all;
  }

  /** Outcomes as a function of the call. */
  type Effect = RxCall -> Outcome

  ghost predicate IsEffect(effect: Effect, c: RxCall) {
    c.hook.Valid() ==> effect(c) == OutcomeOf(c)
  }

  /** `effect` gives every call its outcome. */
  ghost predicate IsTheEffect(effect: Effect) {
    forall c: RxCall {:trigger IsEffect(effect, c)} :: IsEffect(effect, c)
  }

  lemma EffectIs(effect: Effect, c: RxCall, got: seq<Item>, ending: Ending)
    requires IsTheEffect(effect) && c.hook.Valid()
    requires CallOver(LoopAhead(c.hook.body)(c.room, 0, c.input), c.allocs, got, ending)
    ensures ForDevice(c.hook.dev, got) && effect(c) == Outcome(Settled(c.hook.dev, got), ending)
    ensures got == RoomLoop(c.hook.body, c.room, 0, c.input).pkts[..|got|]
    ensures |got| <= |RoomLoop(c.hook.body, c.room, 0, c.input).pkts|
  {
    assert IsEffect(effect, c);
  }

  /** What the loop has done to queue and memory is what the outcome of the call says. */
  lemma CallSettles(effect: Effect, c: RxCall, m: seq<byte>, buf: array<byte>, got: seq<Item>, ending: Ending,
                    older: seq<Queued>, due: seq<Delivery>, queue: seq<Queued>)
    requires IsTheEffect(effect) && c.hook.Valid()
    requires c.room + |c.input| <= |m| && c.input == m[c.room..c.room + |c.input|]
    requires CallOver(LoopAhead(c.hook.body)(c.room, 0, c.input), c.allocs, got, ending)
    requires Reads(older, due) && Handed(c.hook.dev, Start(older, m), buf, c.room, got, queue, buf[..])
    ensures ending == effect(c).ending && Reads(queue, due + effect(c).added)
    ensures Buffers(queue) <= Buffers(older) + {buf}
  {
    EffectIs(effect, c, got, ending);
    AllSettle(c.hook.dev, c.hook.body, m, buf, c.room, |c.input|, |got|);
    QueueReads(older, due, c.hook.dev, m, buf, c.room, got);
  }

  ghost function TheEffect(): (effect: Effect)
    ensures IsTheEffect(effect)
  {
    (c: RxCall) => if c.hook.Valid() then OutcomeOf(c) else Outcome([], Crash)
  }

  function AfterCall(b: Books, o: Outcome): Books {
    var all := b.pending + o.added;
    if o.ending.Finished? then Books(b.delivered + all, []) else Books(b.delivered, all)
  }

  function AfterAll(os: seq<Outcome>): Books {
    if os == [] then Books([], []) else AfterCall(AfterAll(os[..|os| - 1]), os[|os| - 1])
  }

  function AllAdded(os: seq<Outcome>): seq<Delivery> {
    if os == [] then [] else AllAdded(os[..|os| - 1]) + os[|os| - 1].added
  }

  /**
   * Over any run of calls, some of them ending early: what was delivered followed by what is still
   * queued is every call's packets, in order; and a call that reaches its end leaves nothing queued.
   */
  lemma {:induction false} CallsConserve(os: seq<Outcome>)
    ensures AfterAll(os).delivered + AfterAll(os).pending == AllAdded(os)
    ensures os != [] && os[|os| - 1].ending.Finished? ==> AfterAll(os) == Books(AllAdded(os), [])
  {
    if os == [] {
    } else {
      var b, o := AfterAll(os[..|os| - 1]), os[|os| - 1];
      CallsConserve(os[..|os| - 1]);
      Assoc(b.delivered, b.pending, o.added);
      Units(b.delivered + (b.pending + o.added));
    }
  }

  /** A received buffer, where its input lies, and how many packets can be allocated for it. */
  datatype Skb = Skb(buf: array<byte>, data: nat, len: nat, allocs: nat)
  {
    ghost predicate Valid() {
      data + len <= buf.Length
    }

    ghost function Call(hook: Hook): RxCall
      requires Valid()
      reads buf
    {
      RxCall(hook, data, buf[data..data + len], allocs)
    }
  }

  ghost predicate AllValid(skbs: seq<Skb>) {
    && (forall i :: 0 <= i < |skbs| ==> skbs[i].Valid())
    && (forall i, j :: 0 <= i < j < |skbs| ==> skbs[i].buf != skbs[j].buf)
  }

  ghost function Bufs(skbs: seq<Skb>): set<array<byte>> {
    set i | 0 <= i < |skbs| :: skbs[i].buf
  }

  function Outcomes(effect: Effect, cs: seq<RxCall>): (os: seq<Outcome>)
    ensures |os| == |cs|
  {
    if cs == [] then [] else Outcomes(effect, cs[..|cs| - 1]) + [effect(cs[|cs| - 1])]
  }

  /** Calls that can follow one another: none but the last crashes. */
  ghost predicate IsRun(os: seq<Outcome>) {
    forall i :: 0 <= i < |os| - 1 ==> !os[i].ending.Crash?
  }

  /** After the first `n` calls the books are `b`, and the last of them crashed if any did. */
  ghost predicate Booked(effect: Effect, calls: seq<RxCall>, n: nat, b: Books, crashed: bool) {
    && n <= |calls|
    && var os := Outcomes(effect, calls[..n]);
       b == AfterAll(os) && IsRun(os) && (crashed <==> n > 0 && os[n - 1].ending.Crash?)
  }

  lemma BookNext(effect: Effect, calls: seq<RxCall>, n: nat, b: Books)
    requires n < |calls| && Booked(effect, calls, n, b, false)
    ensures var o := effect(calls[n]);
      Booked(effect, calls, n + 1, AfterCall(b, o), o.ending.Crash?)
  {
    var os, o := Outcomes(effect, calls[..n]), effect(calls[n]);
    assert calls[..n + 1][..n] == calls[..n];
    assert Outcomes(effect, calls[..n + 1]) == os + [o];
    assert (os + [o])[..n] == os;
  }

  ghost predicate AllHooks(cs: seq<RxCall>) {
    forall i :: 0 <= i < |cs| ==> cs[i].hook.Valid()
  }

  /** The outcomes of a run of calls. */
  function OutcomesOf(cs: seq<RxCall>): (os: seq<Outcome>)
    requires AllHooks(cs)
    ensures |os| == |cs|
  {
    if cs == [] then [] else OutcomesOf(cs[..|cs| - 1]) + [OutcomeOf(cs[|cs| - 1])]
  }

  lemma {:induction false} SameOutcomes(effect: Effect, cs: seq<RxCall>)
    requires IsTheEffect(effect) && AllHooks(cs)
    ensures Outcomes(effect, cs) == OutcomesOf(cs)
  {
    if cs == [] {
    } else {
      assert IsEffect(effect, cs[|cs| - 1]);
      SameOutcomes(effect, cs[..|cs| - 1]);
    }
  }

  /**
   * The receive hook called on one buffer after another, until a crash: the books are those of the run
   * of calls on what the buffers held, although packets of earlier calls may still lie in earlier buffers.
   */
  method RxCalls(hook: Hook, skbs: seq<Skb>, ghost calls: seq<RxCall>) returns (r: Receiver, n: nat, crashed: bool)
    requires hook.Valid() && AllValid(skbs)
    requires |calls| == |skbs| && forall i :: 0 <= i < |skbs| ==> calls[i] == skbs[i].Call(hook)
    modifies Bufs(skbs)
    ensures fresh(r) && r.Valid() && n <= |skbs| && (n < |skbs| ==> crashed) && AllHooks(calls[..n])
    ensures var os := OutcomesOf(calls[..n]);
      && r.Account() == AfterAll(os) && IsRun(os) && (crashed <==> n > 0 && os[n - 1].ending.Crash?)
      && r.Account().delivered + r.Account().pending == AllAdded(os)
  {
    r, n, crashed := RxCallsAs(hook, skbs, calls, TheEffect());
    SameOutcomes(TheEffect(), calls[..n]);
    CallsConserve(OutcomesOf(calls[..n]));
  }

  /** The same with the outcomes given as a function of the call. */
  method RxCallsAs(hook: Hook, skbs: seq<Skb>, ghost calls: seq<RxCall>, ghost effect: Effect)
    returns (r: Receiver, n: nat, crashed: bool)
    requires hook.Valid() && AllValid(skbs) && IsTheEffect(effect)
    requires |calls| == |skbs| && forall i :: 0 <= i < |skbs| ==> calls[i] == skbs[i].Call(hook)
    modifies Bufs(skbs)
    ensures fresh(r) && r.Valid() && n <= |skbs| && (n < |skbs| ==> crashed)
    ensures Booked(effect, calls, n, r.Account(), crashed)
  {
    r := new Receiver();
    n, crashed := 0, false;
    ghost var seen := {};
    while n < |skbs| && !crashed
      invariant fresh(r) && r.Valid() && n <= |skbs|
      invariant forall i :: n <= i < |skbs| ==> calls[i] == skbs[i].Call(hook) && skbs[i].buf !in seen
      invariant Buffers(r.chain) <= seen && Booked(effect, calls, n, r.Account(), crashed)
      decreases |skbs| - n
    {
      ghost var books := r.Account();
      BookNext(effect, calls, n, books);
      crashed := Serve(r, hook, skbs[n], calls[n], effect, books);
      seen := seen + {skbs[n].buf};
      n := n + 1;
    }
  }

  method Serve(r: Receiver, hook: Hook, b: Skb, ghost call: RxCall, ghost effect: Effect, ghost books: Books)
    returns (crashed: bool)
    requires r.Valid() && hook.Valid() && b.Valid() && IsTheEffect(effect) && b.buf !in Buffers(r.chain)
    requires call == b.Call(hook) && books == r.Account()
    modifies r, b.buf
    ensures r.Valid() && Buffers(r.chain) <= old(Buffers(r.chain)) + {b.buf}
    ensures r.Account() == AfterCall(books, effect(call)) && (crashed <==> effect(call).ending.Crash?)
  {
    var up;
    up, crashed := r.RxFixupAs(hook, b.buf, b.data, b.len, b.allocs, effect);
  }
}
