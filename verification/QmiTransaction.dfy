/**
 * QMI request/response matching. One command thread sends and waits; the reader thread delivers
 * replies, indications and the final quit. Each event below is one critical section of the command
 * mutex, so a run is any sequence of events.
 */
module QmiTransaction {
  import opened Bytes

  const TYPE_CTL: byte := 0x00
  const TYPE_WDS: byte := 0x01
  const TYPE_WDS_IPV6: byte := 0x11

  // Transaction ids ----------------------------------------------------------------------------

  /** The two id spaces: 16 bits shared by all services, 8 bits for the control service. */
  datatype Space = Service | Ctl

  function Period(sp: Space): int {
    if sp.Service? then 0xFFFF else 0xFF
  }

  /** The id of the `n`-th request of a space: 1 up to the period, round and round. */
  function IdOf(sp: Space, n: nat): (id: nat)
    requires n > 0
    ensures 1 <= id <= Period(sp)
  {
    match sp
    case Service => (n - 1) % 0xFFFF + 1
    case Ctl => (n - 1) % 0xFF + 1
  }

  lemma Remainder16(x: nat, q: nat, r: nat)
    requires r < 0xFFFF && x == 0xFFFF * q + r
    ensures x % 0xFFFF == r
  {
  }

  lemma Remainder8(x: nat, q: nat, r: nat)
    requires r < 0xFF && x == 0xFF * q + r
    ensures x % 0xFF == r
  {
  }

  lemma NextId(sp: Space, n: nat)
    requires n > 0
    ensures IdOf(sp, n + 1) == if IdOf(sp, n) == Period(sp) then 1 else IdOf(sp, n) + 1
  {
    match sp
    case Service =>
      var q, r := (n - 1) / 0xFFFF, (n - 1) % 0xFFFF;
      if r == 0xFFFE {
        Remainder16(n, q + 1, 0);
      } else {
        Remainder16(n, q, r + 1);
      }
    case Ctl =>
      var q, r := (n - 1) / 0xFF, (n - 1) % 0xFF;
      if r == 0xFE {
        Remainder8(n, q + 1, 0);
      } else {
        Remainder8(n, q, r + 1);
      }
  }

  /** Two requests share an id exactly when their distance is a multiple of the period. */
  lemma SameIdIff(sp: Space, m: nat, n: nat)
    requires 0 < m <= n
    ensures IdOf(sp, m) == IdOf(sp, n) <==> (n - m) % Period(sp) == 0
  {
    match sp
    case Service => SameRemainder16(m - 1, n - m);
    case Ctl => SameRemainder8(m - 1, n - m);
  }

  lemma SameRemainder16(a: nat, d: nat)
    ensures (a + d) % 0xFFFF == a % 0xFFFF <==> d % 0xFFFF == 0
  {
    var q, r := a / 0xFFFF + d / 0xFFFF, a % 0xFFFF + d % 0xFFFF;
    if r < 0xFFFF {
      Remainder16(a + d, q, r);
    } else {
      Remainder16(a + d, q + 1, r - 0xFFFF);
    }
  }

  lemma SameRemainder8(a: nat, d: nat)
    ensures (a + d) % 0xFF == a % 0xFF <==> d % 0xFF == 0
  {
    var q, r := a / 0xFF + d / 0xFF, a % 0xFF + d % 0xFF;
    if r < 0xFF {
      Remainder8(a + d, q, r);
    } else {
      Remainder8(a + d, q + 1, r - 0xFF);
    }
  }

  /** The counters behind `GetQMUXTransactionId` and `GetQCTLTransactionId`. */
  class IdCounter {
    const space: Space
    var last: int
    /** How many ids have been handed out. */
    ghost var calls: nat

    ghost predicate Valid()
      reads this
    {
      last == if calls == 0 then 0 else IdOf(space, calls)
    }

    constructor (space: Space)
      ensures Valid() && calls == 0 && this.space == space
    {
      this.space, last, calls := space, 0, 0;
    }

    method Next() returns (id: int)
      requires Valid()
      modifies this
      ensures Valid() && calls == old(calls) + 1 && id == IdOf(space, calls)
    {
      if calls > 0 {
        NextId(space, calls);
      }
      last := last + 1;
      if last > Period(space) {
        last := 1;
      }
      calls := calls + 1;
      id := last;
    }
  }

  // Messages -----------------------------------------------------------------------------------

  /** The header fields matching looks at; `body` is everything else. */
  datatype Msg = Msg(qmiType: byte, clientId: byte, tid: nat, body: seq<byte>)

  function SpaceOf(qmiType: byte): Space {
    if qmiType == TYPE_CTL then Ctl else Service
  }

  /** `is_response`. */
  predicate IsResponse(req: Msg, rsp: Msg) {
    req.qmiType == rsp.qmiType && req.clientId == rsp.clientId && req.tid == rsp.tid
  }

  /** A composed request: the service it is for, its ordinal in its id space, and its buffer. */
  datatype Request = Request(service: byte, ordinal: nat, msg: Msg, sentAt: Option<nat>)

  datatype Reply = Reply(msg: Msg, arrivedAt: nat)

  /** A reply given back to the caller that sent request `id`. */
  datatype Handed = Handed(id: nat, reply: Reply)

  /**
   * The whole exchange. Requests are named by their index in `reqs`. `pending` and `response` are
   * the two shared pointers; `waiter` is the blocked command thread and whether it asked for the
   * reply. `freed` and `handed` record history.
   */
  datatype Exchange = Exchange(
    composed: map<Space, nat>, clients: map<byte, byte>, reqs: seq<Request>,
    pending: Option<nat>, response: Option<Reply>, waiter: Option<(nat, bool)>,
    now: nat, freed: seq<nat>, handed: seq<Handed>)
  {
    function Count(sp: Space): nat {
      if sp in composed then composed[sp] else 0
    }

    function Client(service: byte): byte {
      if service in clients then clients[service] else 0
    }
  }

  /**
   * How the write of a request goes: it is written, polling for room times out, which also counts as
   * success although nothing was written, or it fails.
   */
  datatype SendResult = Written | PollTimedOut | Failed

  datatype Event =
    | Assign(service: byte, clientId: byte)
    | Compose(service: byte, body: seq<byte>, allocOk: bool)
    | Send(id: nat, wants: bool, result: SendResult)
    | Arrive(msg: Msg, allocOk: bool)
    | Quit
    | Wake
    | Timeout

  function Init(): Exchange {
    Exchange(map[], map[], [], None, None, None, 0, [], [])
  }

  predicate Enabled(x: Exchange, e: Event) {
    match e
    case Assign(_, _) => x.waiter.None?
    case Compose(_, _, _) => x.waiter.None?
    case Send(id, _, _) => x.waiter.None? && id < |x.reqs| && x.reqs[id].sentAt.None?
    case Arrive(_, _) => true
    case Quit => true
    case Wake => x.waiter.Some?
    case Timeout => x.waiter.Some?
  }

  /**
   * Stamping just before the write: the client id of the service, and the second WDS client's type
   * rewritten to WDS. A service without a client id is not sent.
   */
  function Stamp(x: Exchange, m: Msg): Option<Msg> {
    if m.qmiType == TYPE_CTL then Some(m)
    else if x.Client(m.qmiType) == 0 then None
    else Some(m.(clientId := x.Client(m.qmiType),
                 qmiType := if m.qmiType == TYPE_WDS_IPV6 then TYPE_WDS else m.qmiType))
  }

  /** Take the lock, publish the request, stamp and write it; only a failed write does not wait. */
  function OnSend(x: Exchange, id: nat, wants: bool, result: SendResult): Exchange
    requires id < |x.reqs|
  {
    var stamped := Stamp(x, x.reqs[id].msg);
    var msg := if stamped.Some? then stamped.value else x.reqs[id].msg;
    x.(reqs := x.reqs[id := x.reqs[id].(msg := msg, sentAt := Some(x.now))],
       pending := Some(id), response := None,
       waiter := if stamped.Some? && !result.Failed? then Some((id, wants)) else None)
  }

  /** The reader thread with a message: a match frees the request and publishes a copy. */
  function OnArrive(x: Exchange, msg: Msg, allocOk: bool): Exchange
    requires x.pending.Some? ==> x.pending.value < |x.reqs|
  {
    if x.pending.Some? && IsResponse(x.reqs[x.pending.value].msg, msg) then
      x.(freed := x.freed + [x.pending.value], pending := None,
         response := if allocOk then Some(Reply(msg, x.now)) else None)
    else x
  }

  /** The reader thread giving up: whoever waits is released without a reply. */
  function OnQuit(x: Exchange): Exchange {
    if x.pending.Some? then
      x.(freed := x.freed + [x.pending.value], pending := None, response := None)
    else x
  }

  /** The wait returned, signalled or not: hand the reply over if there is one and it is wanted. */
  function OnWake(x: Exchange): Exchange
    requires x.waiter.Some?
  {
    var (id, wants) := x.waiter.value;
    if x.response.Some? && wants then
      x.(waiter := None, handed := x.handed + [Handed(id, x.response.value)])
    else
      x.(waiter := None, response := None)
  }

  function Step(x: Exchange, e: Event): Exchange
    requires Enabled(x, e)
    requires x.pending.Some? ==> x.pending.value < |x.reqs|
  {
    var y := match e
      case Assign(service, clientId) => x.(clients := x.clients[service := clientId])
      case Compose(service, body, allocOk) =>
        var sp := SpaceOf(service);
        var n := x.Count(sp) + 1;
        var y := x.(composed := x.composed[sp := n]);
        if allocOk then
          y.(reqs := x.reqs + [Request(service, n, Msg(service, 0, IdOf(sp, n), body), None)])
        else y
      case Send(id, wants, result) => OnSend(x, id, wants, result)
      case Arrive(msg, allocOk) => OnArrive(x, msg, allocOk)
      case Quit => OnQuit(x)
      case Wake => OnWake(x)
      case Timeout => x.(waiter := None);
    y.(now := x.now + 1)
  }

  /** The shared state as the two threads update it, one method for each critical section. */
  class QmiThread {
    var composed: map<Space, nat>
    var clients: map<byte, byte>
    var reqs: seq<Request>
    var sRequest: Option<nat>
    var sResponse: Option<Reply>
    var waiter: Option<(nat, bool)>
    var now: nat
    var freed: seq<nat>
    var handed: seq<Handed>

    function View(): Exchange
      reads this
    {
      Exchange(composed, clients, reqs, sRequest, sResponse, waiter, now, freed, handed)
    }

    constructor ()
      ensures View() == Init()
    {
      composed, clients, reqs, sRequest, sResponse := map[], map[], [], None, None;
      waiter, now, freed, handed := None, 0, [], [];
    }

    /** `QmiThreadSendQMITimeout` up to the wait, with `QmiWwanSendQMI` inside it. */
    method SendQmi(id: nat, wants: bool, result: SendResult) returns (ok: bool)
      requires id < |reqs|
      modifies this
      ensures View() == OnSend(old(View()), id, wants, result)
      ensures ok <==> waiter.Some?
    {
      sRequest, sResponse, waiter := Some(id), None, None;
      reqs := reqs[id := reqs[id].(sentAt := Some(now))];
      var msg := reqs[id].msg;
      if msg.qmiType != TYPE_CTL {
        var clientId := if msg.qmiType in clients then clients[msg.qmiType] else 0;
        if clientId == 0 {
          return false;
        }
        msg := msg.(clientId := clientId);
        if msg.qmiType == TYPE_WDS_IPV6 {
          msg := msg.(qmiType := TYPE_WDS);
        }
        reqs := reqs[id := reqs[id].(msg := msg)];
      }
      ok := !result.Failed?;
      if ok {
        waiter := Some((id, wants));
      }
    }

    /** The rest of it, once the wait has returned in time. */
    method FinishWait() returns (reply: Option<Reply>)
      requires waiter.Some?
      modifies this
      ensures View() == OnWake(old(View()))
      ensures reply == if old(waiter).value.1 then old(sResponse) else None
    {
      var (id, wants) := waiter.value;
      waiter, reply := None, None;
      if sResponse.Some? && wants {
        reply := sResponse;
        handed := handed + [Handed(id, sResponse.value)];
      } else if sResponse.Some? {
        sResponse := None;
      }
    }

    /** `QmiThreadRecvQMI`; `None` is the reader's farewell. */
    method RecvQmi(rsp: Option<Msg>, allocOk: bool)
      requires sRequest.Some? ==> sRequest.value < |reqs|
      modifies this
      ensures View() == match rsp
                        case None => OnQuit(old(View()))
                        case Some(msg) => OnArrive(old(View()), msg, allocOk)
    {
      if rsp.None? {
        if sRequest.Some? {
          freed := freed + [sRequest.value];
          sRequest, sResponse := None, None;
        }
        return;
      }
      if sRequest.Some? && IsResponse(reqs[sRequest.value].msg, rsp.value) {
        freed := freed + [sRequest.value];
        sRequest := None;
        sResponse := if allocOk then Some(Reply(rsp.value, now)) else None;
      }
    }
  }

  // The invariant ------------------------------------------------------------------------------

  /** A request's buffer carries the id of its ordinal, in the id space of its service. */
  ghost predicate RequestOk(x: Exchange, r: Request) {
    && r.ordinal > 0
    && r.msg.tid == IdOf(SpaceOf(r.service), r.ordinal)
    && SpaceOf(r.msg.qmiType) == SpaceOf(r.service)
    && (r.sentAt.Some? ==> r.sentAt.value < x.now)
  }

  ghost predicate RequestsOk(x: Exchange) {
    && (forall i :: 0 <= i < |x.reqs| ==> RequestOk(x, x.reqs[i]))
    && (forall i, j :: 0 <= i < j < |x.reqs| && SpaceOf(x.reqs[i].service) == SpaceOf(x.reqs[j].service)
          ==> x.reqs[i].ordinal < x.reqs[j].ordinal)
    && (forall i :: 0 <= i < |x.reqs| ==> x.reqs[i].ordinal <= x.Count(SpaceOf(x.reqs[i].service)))
  }

  ghost predicate Sent(x: Exchange, id: nat) {
    id < |x.reqs| && x.reqs[id].sentAt.Some?
  }

  /** The published request was sent and not freed; no buffer is freed twice. */
  ghost predicate BuffersOk(x: Exchange) {
    && (x.pending.Some? ==> Sent(x, x.pending.value) && x.pending.value !in x.freed)
    && (forall i :: 0 <= i < |x.freed| ==> Sent(x, x.freed[i]))
    && (forall i, j :: 0 <= i < j < |x.freed| ==> x.freed[i] != x.freed[j])
  }

  /** Reply `r` answers request `id` and arrived after it was sent. */
  ghost predicate Answers(x: Exchange, id: nat, r: Reply) {
    && Sent(x, id)
    && IsResponse(x.reqs[id].msg, r.msg)
    && x.reqs[id].sentAt.value < r.arrivedAt < x.now
  }

  /** While a caller waits, the pointers are about its request and nobody else's. */
  ghost predicate SlotOk(x: Exchange) {
    x.waiter.Some? ==>
      var id := x.waiter.value.0;
      && Sent(x, id)
      && (x.pending.Some? ==> x.pending.value == id)
      && (x.response.Some? ==> Answers(x, id, x.response.value))
  }

  /** Reply `i` was handed over before request `id` went out. */
  ghost predicate HandedBefore(x: Exchange, i: nat, id: nat) {
    && i < |x.handed| && Sent(x, id)
    && x.handed[i].reply.arrivedAt < x.reqs[id].sentAt.value
  }

  ghost predicate HandedOk(x: Exchange) {
    && (forall i :: 0 <= i < |x.handed| ==> Answers(x, x.handed[i].id, x.handed[i].reply))
    && (forall i, j :: 0 <= i < j < |x.handed| ==> HandedBefore(x, i, x.handed[j].id))
    && (x.waiter.Some? ==> forall i :: 0 <= i < |x.handed| ==> HandedBefore(x, i, x.waiter.value.0))
  }

  ghost predicate Inv(x: Exchange) {
    RequestsOk(x) && BuffersOk(x) && SlotOk(x) && HandedOk(x)
  }

  lemma SameRequests(x: Exchange, y: Exchange)
    requires RequestsOk(x) && y.reqs == x.reqs && y.composed == x.composed && x.now <= y.now
    ensures RequestsOk(y)
  {
    forall i | 0 <= i < |y.reqs| ensures RequestOk(y, y.reqs[i]) {
      assert RequestOk(x, x.reqs[i]);
    }
  }

  lemma StepKeepsRequests(x: Exchange, e: Event)
    requires Inv(x) && Enabled(x, e)
    ensures RequestsOk(Step(x, e))
  {
    match e
    case Compose(service, body, allocOk) => ComposeKeepsRequests(x, service, body, allocOk);
    case Send(id, wants, result) => SendKeepsRequests(x, id, wants, result);
    case _ => SameRequests(x, Step(x, e));
  }

  lemma ComposeKeepsRequests(x: Exchange, service: byte, body: seq<byte>, allocOk: bool)
    requires Inv(x) && Enabled(x, Compose(service, body, allocOk))
    ensures RequestsOk(Step(x, Compose(service, body, allocOk)))
  {
    var y := Step(x, Compose(service, body, allocOk));
    forall i | 0 <= i < |y.reqs|
      ensures RequestOk(y, y.reqs[i]) && y.reqs[i].ordinal <= y.Count(SpaceOf(y.reqs[i].service))
    {
      if i < |x.reqs| {
        assert y.reqs[i] == x.reqs[i] && RequestOk(x, x.reqs[i]);
      }
    }
  }

  lemma SendKeepsRequests(x: Exchange, id: nat, wants: bool, result: SendResult)
    requires Inv(x) && Enabled(x, Send(id, wants, result))
    ensures RequestsOk(Step(x, Send(id, wants, result)))
  {
    var y := Step(x, Send(id, wants, result));
    assert RequestOk(x, x.reqs[id]);
    forall i | 0 <= i < |y.reqs| ensures RequestOk(y, y.reqs[i]) {
      if i != id {
        assert y.reqs[i] == x.reqs[i] && RequestOk(x, x.reqs[i]);
      }
    }
  }

  /** What any one step does to the sent requests and their buffers. */
  ghost predicate BuffersFollow(x: Exchange, y: Exchange) {
    && (forall id: nat :: Sent(x, id) ==> Sent(y, id) && y.reqs[id] == x.reqs[id])
    && if x.pending.Some? && y.freed == x.freed + [x.pending.value] then y.pending.None?
       else
         && y.freed == x.freed
         && (y.pending.Some? && y.pending != x.pending ==> Sent(y, y.pending.value) && !Sent(x, y.pending.value))
  }

  lemma StepFollows(x: Exchange, e: Event)
    requires Inv(x) && Enabled(x, e)
    ensures BuffersFollow(x, Step(x, e)) && HandedFollows(x, Step(x, e))
  {
    forall id: nat | Sent(x, id) ensures Sent(Step(x, e), id) && Step(x, e).reqs[id] == x.reqs[id] {
      StepKeepsSent(x, e, id);
    }
  }

  lemma StepKeepsBuffers(x: Exchange, e: Event)
    requires Inv(x) && Enabled(x, e)
    ensures BuffersOk(Step(x, e))
  {
    StepFollows(x, e);
    BuffersStayOk(x, Step(x, e));
  }

  lemma BuffersStayOk(x: Exchange, y: Exchange)
    requires BuffersOk(x) && BuffersFollow(x, y)
    ensures BuffersOk(y)
  {
    if y.pending.Some? && y.pending != x.pending {
      assert y.pending.value !in x.freed;
    }
  }

  /** What was sent keeps its buffer and its time. */
  lemma StepKeepsSent(x: Exchange, e: Event, id: nat)
    requires Inv(x) && Enabled(x, e) && Sent(x, id)
    ensures Sent(Step(x, e), id) && Step(x, e).reqs[id] == x.reqs[id]
  {
  }

  lemma StepKeepsAnswers(x: Exchange, e: Event, id: nat, r: Reply)
    requires Inv(x) && Enabled(x, e) && Answers(x, id, r)
    ensures Answers(Step(x, e), id, r)
  {
    StepKeepsSent(x, e, id);
  }

  lemma StepKeepsSlot(x: Exchange, e: Event)
    requires Inv(x) && Enabled(x, e)
    ensures SlotOk(Step(x, e))
  {
    var y := Step(x, e);
    if x.waiter.Some? && y.waiter.Some? {
      var id := x.waiter.value.0;
      StepKeepsSent(x, e, id);
      assert RequestOk(x, x.reqs[id]);
      if x.response.Some? {
        StepKeepsAnswers(x, e, id, x.response.value);
      }
    }
  }

  /** What any one step does to the replies handed over: nothing, or one more for the waiter. */
  ghost predicate HandedFollows(x: Exchange, y: Exchange) {
    && x.now < y.now
    && (forall id: nat :: Sent(x, id) ==> Sent(y, id) && y.reqs[id] == x.reqs[id])
    && if x.waiter.Some? && x.response.Some? && y.handed == x.handed + [Handed(x.waiter.value.0, x.response.value)]
       then y.waiter.None?
       else
         && y.handed == x.handed
         && (y.waiter.Some? && y.waiter != x.waiter ==>
               Sent(y, y.waiter.value.0) && y.reqs[y.waiter.value.0].sentAt == Some(x.now))
  }

  lemma StepKeepsHanded(x: Exchange, e: Event)
    requires Inv(x) && Enabled(x, e)
    ensures HandedOk(Step(x, e))
  {
    StepFollows(x, e);
    var y := Step(x, e);
    if y.handed == x.handed {
      HandedStaysOk(x, y);
    } else {
      HandedGrows(x, y);
    }
  }

  /** No reply handed over: the old ones keep answering, and came before any new waiter's request. */
  lemma HandedStaysOk(x: Exchange, y: Exchange)
    requires HandedOk(x) && SlotOk(x) && HandedFollows(x, y) && y.handed == x.handed
    ensures HandedOk(y)
  {
    forall i | 0 <= i < |y.handed| ensures Answers(y, y.handed[i].id, y.handed[i].reply) {
      assert Answers(x, x.handed[i].id, x.handed[i].reply);
    }
    forall i, j | 0 <= i < j < |y.handed| ensures HandedBefore(y, i, y.handed[j].id) {
      assert HandedBefore(x, i, x.handed[j].id);
    }
    if y.waiter.Some? {
      forall i | 0 <= i < |y.handed| ensures HandedBefore(y, i, y.waiter.value.0) {
        assert Answers(x, x.handed[i].id, x.handed[i].reply);
        assert y.waiter == x.waiter ==> HandedBefore(x, i, x.waiter.value.0);
      }
    }
  }

  /** One more: it answers the waiter, whose request went out after all earlier replies. */
  lemma HandedGrows(x: Exchange, y: Exchange)
    requires HandedOk(x) && SlotOk(x) && HandedFollows(x, y) && y.handed != x.handed
    ensures HandedOk(y)
  {
    var n := |x.handed|;
    forall i | 0 <= i < |y.handed| ensures Answers(y, y.handed[i].id, y.handed[i].reply) {
      assert i < n ==> y.handed[i] == x.handed[i] && Answers(x, x.handed[i].id, x.handed[i].reply);
    }
    forall i, j | 0 <= i < j < |y.handed| ensures HandedBefore(y, i, y.handed[j].id) {
      assert y.handed[i] == x.handed[i];
      assert HandedBefore(x, i, y.handed[j].id);
    }
  }

  // Runs ---------------------------------------------------------------------------------------

  /** The states of a run, one after each event; `None` once an event cannot happen. */
  function Run(es: seq<Event>): Option<Exchange> {
    if es == [] then Some(Init())
    else
      var x := Run(es[..|es| - 1]);
      var e := es[|es| - 1];
      if x.Some? && (x.value.pending.Some? ==> x.value.pending.value < |x.value.reqs|)
         && Enabled(x.value, e)
      then Some(Step(x.value, e)) else None
  }

  lemma {:induction false} RunInv(es: seq<Event>)
    ensures Run(es).Some? ==> Inv(Run(es).value)
  {
    if es == [] {
    } else {
      var x, e := Run(es[..|es| - 1]), es[|es| - 1];
      RunInv(es[..|es| - 1]);
      if Run(es).Some? {
        StepKeepsRequests(x.value, e);
        StepKeepsBuffers(x.value, e);
        StepKeepsSlot(x.value, e);
        StepKeepsHanded(x.value, e);
      }
    }
  }

  /**
   * Every reply handed to a caller arrived after that caller's request went out and carries its
   * type, client id and transaction id; no reply goes to two callers and no caller gets two.
   */
  lemma RepliesMatch(es: seq<Event>)
    requires Run(es).Some?
    ensures var x := Run(es).value;
      && (forall i :: 0 <= i < |x.handed| ==> Answers(x, x.handed[i].id, x.handed[i].reply))
      && (forall i, j :: 0 <= i < j < |x.handed| ==>
            && x.handed[i].id != x.handed[j].id
            && x.handed[i].reply.arrivedAt < x.handed[j].reply.arrivedAt)
  {
    RunInv(es);
    var x := Run(es).value;
    forall i, j | 0 <= i < j < |x.handed|
      ensures x.handed[i].id != x.handed[j].id
      ensures x.handed[i].reply.arrivedAt < x.handed[j].reply.arrivedAt
    {
      assert HandedBefore(x, i, x.handed[j].id);
      assert Answers(x, x.handed[i].id, x.handed[i].reply);
      assert Answers(x, x.handed[j].id, x.handed[j].reply);
    }
  }

  /** No request buffer is freed twice, and the published one has not been freed. */
  lemma NoDoubleFree(es: seq<Event>)
    requires Run(es).Some?
    ensures var x := Run(es).value;
      && (forall i, j :: 0 <= i < j < |x.freed| ==> x.freed[i] != x.freed[j])
      && (x.pending.Some? ==> x.pending.value !in x.freed)
  {
    RunInv(es);
  }

  /**
   * A late reply: a message that answers an earlier request `old` is never handed to a later caller
   * in the same id space unless their ordinals are a whole number of periods apart. So for service
   * requests it cannot reach any of the next 65534, for control requests any of the next 254.
   */
  lemma LateReplyNotMisdelivered(es: seq<Event>, i: nat, older: nat)
    requires Run(es).Some?
    requires i < |Run(es).value.handed| && older < Run(es).value.handed[i].id
    ensures var x := Run(es).value;
      var h := x.handed[i];
      && h.id < |x.reqs|
      && var r, o := x.reqs[h.id], x.reqs[older];
         && (SpaceOf(o.service) == SpaceOf(r.service) ==> 0 < r.ordinal - o.ordinal)
         && (IsResponse(o.msg, h.reply.msg) ==>
               && SpaceOf(o.service) == SpaceOf(r.service)
               && (r.ordinal - o.ordinal) % Period(SpaceOf(r.service)) == 0
               && r.ordinal - o.ordinal >= Period(SpaceOf(r.service)))
  {
    RunInv(es);
    var x := Run(es).value;
    assert Answers(x, x.handed[i].id, x.handed[i].reply);
    SameAnswerApart(x, x.handed[i].id, older, x.handed[i].reply.msg);
  }

  /** Two requests that one message answers are a whole number of periods apart. */
  lemma SameAnswerApart(x: Exchange, id: nat, older: nat, msg: Msg)
    requires RequestsOk(x) && older < id < |x.reqs| && IsResponse(x.reqs[id].msg, msg)
    ensures var r, o := x.reqs[id], x.reqs[older];
      && (SpaceOf(o.service) == SpaceOf(r.service) ==> 0 < r.ordinal - o.ordinal)
      && (IsResponse(o.msg, msg) ==>
            && SpaceOf(o.service) == SpaceOf(r.service)
            && (r.ordinal - o.ordinal) % Period(SpaceOf(r.service)) == 0
            && r.ordinal - o.ordinal >= Period(SpaceOf(r.service)))
  {
    var r, o := x.reqs[id], x.reqs[older];
    assert RequestOk(x, r) && RequestOk(x, o);
    if IsResponse(o.msg, msg) {
      SameIdIff(SpaceOf(r.service), o.ordinal, r.ordinal);
      MultipleIsLarge(r.ordinal - o.ordinal, SpaceOf(r.service));
    }
  }

  lemma MultipleIsLarge(d: nat, sp: Space)
    requires d > 0 && d % Period(sp) == 0
    ensures d >= Period(sp)
  {
    match sp
    case Service => assert d % 0xFFFF == 0;
    case Ctl => assert d % 0xFF == 0;
  }

  // The two WDS clients ------------------------------------------------------------------------

  /** Every client id in use was assigned to its service earlier in the run. */
  ghost predicate ClientsAssigned(es: seq<Event>, x: Exchange) {
    && (forall s :: s in x.clients && x.clients[s] != 0 ==> Assign(s, x.clients[s]) in es)
    && (forall i :: 0 <= i < |x.reqs| ==> RequestAssigned(es, x.reqs[i]))
  }

  ghost predicate RequestAssigned(es: seq<Event>, r: Request) {
    && (r.msg.clientId != 0 ==> Assign(r.service, r.msg.clientId) in es)
    && (r.sentAt.None? ==> r.msg.qmiType == r.service)
  }

  /** Whoever waits, or got a reply, sent with a client id (the control service needs none). */
  ghost predicate StampsOk(x: Exchange) {
    && (x.waiter.Some? ==> Stamped(x, x.waiter.value.0))
    && (forall i :: 0 <= i < |x.handed| ==> Stamped(x, x.handed[i].id))
  }

  ghost predicate Stamped(x: Exchange, id: nat) {
    Sent(x, id) && (x.reqs[id].service != TYPE_CTL ==> x.reqs[id].msg.clientId != 0)
  }

  lemma StepAssigns(es: seq<Event>, x: Exchange, e: Event)
    requires Inv(x) && Enabled(x, e) && ClientsAssigned(es, x)
    ensures ClientsAssigned(es + [e], Step(x, e))
  {
    var y, es' := Step(x, e), es + [e];
    assert e in es' && forall a :: a in es ==> a in es';
    forall i | 0 <= i < |y.reqs| ensures RequestAssigned(es', y.reqs[i]) {
      assert i < |x.reqs| ==> RequestAssigned(es, x.reqs[i]);
    }
  }

  lemma StepStamps(es: seq<Event>, x: Exchange, e: Event)
    requires Inv(x) && Enabled(x, e) && ClientsAssigned(es, x) && StampsOk(x)
    ensures StampsOk(Step(x, e))
  {
    var y := Step(x, e);
    forall i | 0 <= i < |y.handed| ensures Stamped(y, y.handed[i].id) {
      var id := if i < |x.handed| then x.handed[i].id else x.waiter.value.0;
      assert Stamped(x, id);
      StepKeepsSent(x, e, id);
    }
    if x.waiter.Some? {
      StepKeepsSent(x, e, x.waiter.value.0);
    } else if e.Send? {
      assert RequestAssigned(es, x.reqs[e.id]);
    }
  }

  lemma {:induction false} RunAssigns(es: seq<Event>)
    ensures Run(es).Some? ==> ClientsAssigned(es, Run(es).value) && StampsOk(Run(es).value)
  {
    if es != [] && Run(es).Some? {
      var es', e := es[..|es| - 1], es[|es| - 1];
      RunAssigns(es');
      RunInv(es');
      StepAssigns(es', Run(es').value, e);
      StepStamps(es', Run(es').value, e);
      assert es == es' + [e];
    }
  }

  /**
   * The second WDS client's requests are rewritten to type WDS in place. As long as no client id is
   * assigned to both, a reply handed to either one's caller answers no request of the other.
   */
  lemma WdsClientsKeptApart(es: seq<Event>, i: nat, other: nat)
    requires Run(es).Some?
    requires forall a: byte :: !(Assign(TYPE_WDS, a) in es && Assign(TYPE_WDS_IPV6, a) in es)
    requires var x := Run(es).value;
      && i < |x.handed| && x.handed[i].id < |x.reqs| && other < |x.reqs|
      && {x.reqs[x.handed[i].id].service, x.reqs[other].service} == {TYPE_WDS, TYPE_WDS_IPV6}
    ensures !IsResponse(Run(es).value.reqs[other].msg, Run(es).value.handed[i].reply.msg)
  {
    RunInv(es);
    RunAssigns(es);
    var x := Run(es).value;
    var id := x.handed[i].id;
    assert Answers(x, id, x.handed[i].reply) && Stamped(x, id);
    var mine, theirs := x.reqs[id], x.reqs[other];
    assert mine.service in {TYPE_WDS, TYPE_WDS_IPV6} && theirs.service in {TYPE_WDS, TYPE_WDS_IPV6};
    assert mine.service != theirs.service;
    assert RequestAssigned(es, mine) && RequestAssigned(es, theirs);
  }
}
