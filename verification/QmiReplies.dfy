/**
 * Which replies the callers get, told from the events alone: what a request carries on the wire, which
 * event decides a wait, and so exactly what is handed over and exactly which buffers are freed.
 */
module QmiReplies {
  import opened Bytes
  import opened QmiTransaction

  // What went out ------------------------------------------------------------------------------

  predicate ComposesIn(e: Event, sp: Space) {
    e.Compose? && (e.service == TYPE_CTL <==> sp.Ctl?)
  }

  /** How many requests of a space have been composed, buffer or not. */
  function Composes(es: seq<Event>, sp: Space): nat {
    if es == [] then 0
    else Composes(es[..|es| - 1], sp) + if ComposesIn(es[|es| - 1], sp) then 1 else 0
  }

  /** The requests as composed. */
  function Buffers(es: seq<Event>): seq<Msg> {
    if es == [] then []
    else
      var e := es[|es| - 1];
      Buffers(es[..|es| - 1]) +
      if !e.Compose? || !e.allocOk then []
      else
        var sp := if e.service == TYPE_CTL then Ctl else Service;
        [Msg(e.service, 0, IdOf(sp, Composes(es[..|es| - 1], sp) + 1), e.body)]
  }

  /** The client id last assigned to a service, 0 if there was none. */
  function LastClient(es: seq<Event>, service: byte): byte {
    if es == [] then 0
    else
      var e := es[|es| - 1];
      if e.Assign? && e.service == service then e.clientId else LastClient(es[..|es| - 1], service)
  }

  /** What a request carries when it is sent; `None` if its service has no client id. */
  function OnWire(es: seq<Event>, m: Msg): Option<Msg> {
    if m.qmiType == TYPE_CTL then Some(m)
    else
      var client := LastClient(es, m.qmiType);
      if client == 0 then None
      else Some(Msg(if m.qmiType == TYPE_WDS_IPV6 then TYPE_WDS else m.qmiType, client, m.tid, m.body))
  }

  /** A send: at which event, what the request carries from then on, and whether its caller waits. */
  datatype Sending = Sending(id: nat, wants: bool, at: nat, carried: Msg, waits: bool)

  function LastSending(es: seq<Event>): (r: Option<Sending>)
    ensures r.Some? ==>
      var s := r.value;
      && s.at < |es| && es[s.at].Send? && es[s.at].id == s.id && es[s.at].wants == s.wants
      && forall i :: s.at < i < |es| ==> !(es[i].Send? && es[i].id < |Buffers(es[..i])|)
  {
    if es == [] then None
    else
      var before, e := es[..|es| - 1], es[|es| - 1];
      if e.Send? && e.id < |Buffers(before)| then
        var wire := OnWire(before, Buffers(before)[e.id]);
        Some(Sending(e.id, e.wants, |es| - 1, if wire.Some? then wire.value else Buffers(before)[e.id],
                     wire.Some? && !e.result.Failed?))
      else
        assert forall i :: 0 <= i < |es| - 1 ==> es[..i] == before[..i];
        LastSending(before)
  }

  /** The last sender's wait has not returned. */
  ghost predicate StillWaits(es: seq<Event>) {
    var r := LastSending(es);
    r.Some? && r.value.waits && NoReturn(es, r.value.at)
  }

  /** No wait has returned since event `at`. */
  ghost predicate NoReturn(es: seq<Event>, at: nat) {
    forall i :: at < i < |es| ==> !es[i].Wake? && !es[i].Timeout?
  }

  // What decides a wait ------------------------------------------------------------------------

  /** The event uses the published request up: the reader quits, or a message answers it. */
  predicate Decides(m: Msg, e: Event) {
    e.Quit? ||
    (e.Arrive? && e.msg.qmiType == m.qmiType && e.msg.clientId == m.clientId && e.msg.tid == m.tid)
  }

  /** The first event from `from` on that decides. */
  function Decision(m: Msg, es: seq<Event>, from: nat): (r: Option<nat>)
    ensures r.Some? ==>
      from <= r.value < |es| && Decides(m, es[r.value]) && forall i :: from <= i < r.value ==> !Decides(m, es[i])
    ensures r.None? ==> forall i :: from <= i < |es| ==> !Decides(m, es[i])
  {
    if |es| <= from then None
    else
      var before := es[..|es| - 1];
      var r := Decision(m, before, from);
      assert forall i :: 0 <= i < |before| ==> before[i] == es[i];
      if r.Some? then r
      else if Decides(m, es[|es| - 1]) then Some(|es| - 1)
      else None
  }

  /** The reply to the last request sent: the deciding event's message if it could be copied. */
  function ReplyTo(es: seq<Event>, s: Sending): Option<Reply> {
    var k := Decision(s.carried, es, s.at + 1);
    if k.Some? && es[k.value].Arrive? && es[k.value].allocOk then Some(Reply(es[k.value].msg, k.value)) else None
  }

  /** What the callers are to get: at each wake the reply to the last request, if it is wanted. */
  function Deserved(es: seq<Event>): seq<Handed> {
    if es == [] then []
    else
      var before := es[..|es| - 1];
      var s := LastSending(before);
      Deserved(before) +
      if es[|es| - 1].Wake? && s.Some? && s.value.wants && ReplyTo(before, s.value).Some?
      then [Handed(s.value.id, ReplyTo(before, s.value).value)]
      else []
  }

  /** The buffers to be freed: each published request's, at the first event that decides it. */
  function UsedUp(es: seq<Event>): seq<nat> {
    if es == [] then []
    else
      var before := es[..|es| - 1];
      var s := LastSending(before);
      UsedUp(before) +
      if s.Some? && Decision(s.value.carried, before, s.value.at + 1).None? && Decides(s.value.carried, es[|es| - 1])
      then [s.value.id]
      else []
  }

  // The exchange follows -----------------------------------------------------------------------

  ghost predicate Recorded(es: seq<Event>, x: Exchange) {
    && x.now == |es|
    && (forall service :: x.Client(service) == LastClient(es, service))
    && (forall sp :: x.Count(sp) == Composes(es, sp))
  }

  ghost predicate RequestsRecorded(es: seq<Event>, x: Exchange) {
    && |x.reqs| == |Buffers(es)|
    && forall i :: 0 <= i < |x.reqs| ==> AsComposed(x.reqs[i], Buffers(es)[i])
  }

  ghost predicate AsComposed(r: Request, m: Msg) {
    r.service == m.qmiType && (r.sentAt.None? ==> r.msg == m)
  }

  /** The shared pointers say how far the last request sent has got. */
  ghost predicate SlotRecorded(es: seq<Event>, x: Exchange) {
    var r := LastSending(es);
    if r.None? then x.pending.None? && x.waiter.None?
    else
      var s := r.value;
      && s.id < |x.reqs| && x.reqs[s.id].msg == s.carried && x.reqs[s.id].sentAt.Some?
      && x.pending == (if Decision(s.carried, es, s.at + 1).None? then Some(s.id) else None)
      && x.waiter == (if StillWaits(es) then Some((s.id, s.wants)) else None)
      && (x.waiter.Some? ==> x.response == ReplyTo(es, s))
  }

  ghost predicate Kept(es: seq<Event>, x: Exchange) {
    && Recorded(es, x) && RequestsRecorded(es, x) && SlotRecorded(es, x)
    && x.handed == Deserved(es) && x.freed == UsedUp(es)
  }

  lemma StepRecords(es: seq<Event>, x: Exchange, e: Event)
    requires Kept(es, x) && Enabled(x, e)
    ensures Recorded(es + [e], Step(x, e))
  {
    var y := Step(x, e);
    forall service ensures y.Client(service) == LastClient(es + [e], service) {
      StepClient(es, x, e, service);
    }
    forall sp ensures y.Count(sp) == Composes(es + [e], sp) {
      StepCount(es, x, e, sp);
    }
  }

  lemma StepClient(es: seq<Event>, x: Exchange, e: Event, service: byte)
    requires Enabled(x, e) && (x.pending.Some? ==> x.pending.value < |x.reqs|)
    requires x.Client(service) == LastClient(es, service)
    ensures Step(x, e).Client(service) == LastClient(es + [e], service)
  {
    assert (es + [e])[..|es|] == es;
  }

  lemma StepCount(es: seq<Event>, x: Exchange, e: Event, sp: Space)
    requires Enabled(x, e) && (x.pending.Some? ==> x.pending.value < |x.reqs|)
    requires x.Count(sp) == Composes(es, sp)
    ensures Step(x, e).Count(sp) == Composes(es + [e], sp)
  {
    assert (es + [e])[..|es|] == es;
  }

  lemma StepRecordsRequests(es: seq<Event>, x: Exchange, e: Event)
    requires Kept(es, x) && Enabled(x, e)
    ensures RequestsRecorded(es + [e], Step(x, e))
  {
    var y := Step(x, e);
    assert (es + [e])[..|es|] == es;
    forall i | 0 <= i < |y.reqs| ensures i < |Buffers(es + [e])| && AsComposed(y.reqs[i], Buffers(es + [e])[i]) {
      if i < |x.reqs| {
        assert AsComposed(x.reqs[i], Buffers(es)[i]);
      } else {
        assert x.Count(SpaceOf(e.service)) == Composes(es, SpaceOf(e.service));
      }
    }
  }

  lemma StepSends(es: seq<Event>, x: Exchange, e: Event)
    requires Kept(es, x) && Enabled(x, e) && e.Send?
    ensures SlotRecorded(es + [e], Step(x, e))
  {
    assert (es + [e])[..|es|] == es;
    assert AsComposed(x.reqs[e.id], Buffers(es)[e.id]);
    assert x.Client(x.reqs[e.id].service) == LastClient(es, x.reqs[e.id].service);
  }

  lemma StepDecides(es: seq<Event>, x: Exchange, e: Event)
    requires Kept(es, x) && Enabled(x, e) && !e.Send?
    ensures SlotRecorded(es + [e], Step(x, e))
  {
    SameSending(es, e);
    if LastSending(es).Some? {
      var s := LastSending(es).value;
      WaitsNext(es, e, s.at);
      DecisionNext(s, es, e);
      if e.Compose? {
        assert Step(x, e).reqs[s.id] == x.reqs[s.id];
      }
    }
  }

  lemma SameSending(es: seq<Event>, e: Event)
    requires !e.Send?
    ensures LastSending(es + [e]) == LastSending(es)
  {
    assert (es + [e])[..|es|] == es;
  }

  lemma WaitsNext(es: seq<Event>, e: Event, at: nat)
    requires at < |es|
    ensures NoReturn(es + [e], at) <==> NoReturn(es, at) && !e.Wake? && !e.Timeout?
  {
    var es' := es + [e];
    assert es'[|es|] == e;
    assert forall i :: 0 <= i < |es| ==> es'[i] == es[i];
  }

  lemma DecisionNext(s: Sending, es: seq<Event>, e: Event)
    requires s.at < |es|
    ensures var k := Decision(s.carried, es, s.at + 1);
      && Decision(s.carried, es + [e], s.at + 1) == (if k.None? && Decides(s.carried, e) then Some(|es|) else k)
      && (k.Some? ==> ReplyTo(es + [e], s) == ReplyTo(es, s))
  {
    assert (es + [e])[..|es|] == es;
  }

  lemma StepKeeps(es: seq<Event>, x: Exchange, e: Event)
    requires Kept(es, x) && Enabled(x, e)
    ensures Kept(es + [e], Step(x, e))
  {
    assert (es + [e])[..|es|] == es;
    StepRecords(es, x, e);
    StepRecordsRequests(es, x, e);
    if e.Send? {
      StepSends(es, x, e);
    } else {
      StepDecides(es, x, e);
    }
    Units(x.handed);
    Units(x.freed);
  }

  lemma {:induction false} RunKeeps(es: seq<Event>)
    requires Run(es).Some?
    ensures Kept(es, Run(es).value)
  {
    if es == [] {
    } else {
      var before, e := es[..|es| - 1], es[|es| - 1];
      RunKeeps(before);
      StepKeeps(before, Run(before).value, e);
      assert es == before + [e];
    }
  }

  // The main results ---------------------------------------------------------------------------

  /** Over every run, exactly the replies the callers are to get are handed over, and in order. */
  lemma RepliesExactly(es: seq<Event>)
    requires Run(es).Some?
    ensures Run(es).value.handed == Deserved(es)
  {
    RunKeeps(es);
  }

  /** And exactly the requests that were answered, or met a quit, are freed, each when it happened. */
  lemma FreedExactly(es: seq<Event>)
    requires Run(es).Some?
    ensures Run(es).value.freed == UsedUp(es)
  {
    RunKeeps(es);
  }

  /**
   * The last request sent carries the client id last assigned to its service, the second WDS client's
   * under type WDS, and the id of its ordinal; its caller waits if and only if there was a client id to
   * give it, the write did not fail and no wait has returned since.
   */
  lemma SentAsStamped(es: seq<Event>)
    requires Run(es).Some? && LastSending(es).Some?
    ensures var s, x := LastSending(es).value, Run(es).value;
      && s.id < |x.reqs| && x.reqs[s.id].msg == s.carried
      && (x.waiter.Some? <==> StillWaits(es))
  {
    RunKeeps(es);
  }

  /** Event `k` brings the awaited reply: the first to decide since the request went out. */
  ghost predicate BringsReply(es: seq<Event>, s: Sending, k: nat) {
    && s.at < k < |es|
    && es[k].Arrive? && Decides(s.carried, es[k]) && es[k].allocOk
    && forall i :: s.at < i < k ==> !Decides(s.carried, es[i])
  }

  /**
   * A caller that wakes gets a reply if and only if it asked for it and, since its request went out, a
   * message with the request's type, client id and transaction id arrived before any quit, and the first
   * such message could be copied. It gets that message.
   */
  lemma WokenWithReplyIff(es: seq<Event>)
    requires Run(es + [Wake]).Some?
    ensures Run(es).Some? && LastSending(es).Some? && StillWaits(es)
    ensures var s := LastSending(es).value;
      var before, after := Run(es).value.handed, Run(es + [Wake]).value.handed;
      && (after != before <==> s.wants && exists k: nat :: BringsReply(es, s, k))
      && (forall k: nat :: s.wants && BringsReply(es, s, k) ==>
            after == before + [Handed(s.id, Reply(es[k].msg, k))])
  {
    assert (es + [Wake])[..|es|] == es;
    RunKeeps(es);
    RunKeeps(es + [Wake]);
    var s := LastSending(es).value;
    Units(Deserved(es));
    ReplyIff(es, s);
    assert Deserved(es + [Wake]) == Deserved(es) +
      if s.wants && ReplyTo(es, s).Some? then [Handed(s.id, ReplyTo(es, s).value)] else [];
  }

  lemma ReplyIff(es: seq<Event>, s: Sending)
    ensures ReplyTo(es, s).Some? <==> exists k: nat :: BringsReply(es, s, k)
    ensures forall k: nat :: BringsReply(es, s, k) ==> ReplyTo(es, s) == Some(Reply(es[k].msg, k))
  {
    forall k: nat | BringsReply(es, s, k) ensures ReplyTo(es, s) == Some(Reply(es[k].msg, k)) {
      BroughtIs(es, s, k);
    }
    if ReplyTo(es, s).Some? {
      assert BringsReply(es, s, Decision(s.carried, es, s.at + 1).value);
    }
  }

  lemma BroughtIs(es: seq<Event>, s: Sending, k: nat)
    requires BringsReply(es, s, k)
    ensures ReplyTo(es, s) == Some(Reply(es[k].msg, k))
  {
    var d := Decision(s.carried, es, s.at + 1);
    assert d.Some? && !(d.value < k) && !(k < d.value);
  }
}
