/**
 * Calls over a whole run of the AT channel: one command thread against the reader. What every caller,
 * the unsolicited handler and the prompt actions get is told from the events alone.
 */
module AtCalls {
  import opened Bytes
  import opened AtCommand

  /** A finished call and what its issuer got. */
  datatype Call = Call(id: nat, answer: Answer)

  /**
   * Calls are numbered; `current` is the pending one and whether it is strict. `handled` are the lines
   * given to the unsolicited handler, `prompts` those that triggered a prompt action.
   */
  datatype World = World(
    ch: Channel, current: Option<(nat, bool)>, next: nat,
    handled: seq<string>, prompts: seq<string>, calls: seq<Call>)

  datatype Event =
    | Issue(command: Command, strict: bool, writes: bool)
    | Line(line: string)
    | Wake(timeout: bool)
    | Close

  function Start(): World {
    World(Channel(NoResult, "", None, None, None, false), None, 0, [], [], [])
  }

  predicate Enabled(w: World, e: Event) {
    match e
    case Issue(command, strict, _) => w.current.None? && (strict ==> command.kind.SingleLine? || command.kind.Numeric?)
    case Line(_) => true
    case Wake(timeout) =>
      w.current.Some? && w.ch.response.Some?
      && (w.ch.response.value.final.Some? || w.ch.closed || timeout)
    case Close => true
  }

  function Step(w: World, e: Event): World
    requires Enabled(w, e)
  {
    match e
    case Issue(command, strict, writes) =>
      var w' := w.(ch := Begun(w.ch, command, writes), next := w.next + 1);
      if w'.ch.response.Some? then w'.(current := Some((w.next, strict)))
      else w'.(calls := w.calls + [Call(w.next, if w.ch.closed then ChannelClosed else WriteFailed)])
    case Line(line) =>
      var dest := Route(w.ch, line);
      w.(ch := Processed(w.ch, line),
         handled := if dest.ToHandler? then w.handled + [line] else w.handled,
         prompts := if dest.ToRaw? || dest.ToSms? then w.prompts + [line] else w.prompts)
    case Wake(timeout) =>
      var (id, strict) := w.current.value;
      w.(ch := Cleared(w.ch), current := None,
         calls := w.calls + [Call(id, Checked(strict, Concluded(w.ch, timeout)))])
    case Close => w.(ch := w.ch.(closed := true))
  }

  function Run(es: seq<Event>): Option<World> {
    if es == [] then Some(Start())
    else
      var w := Run(es[..|es| - 1]);
      if w.Some? && Enabled(w.value, es[|es| - 1]) then Some(Step(w.value, es[|es| - 1])) else None
  }

  // Told from the events -----------------------------------------------------------------------

  /** The call issued last, while it is pending. */
  datatype Opened = Opened(id: nat, kind: Kind, prefix: string, strict: bool)

  function Issued(es: seq<Event>): nat {
    if es == [] then 0
    else Issued(es[..|es| - 1]) + if es[|es| - 1].Issue? then 1 else 0
  }

  /** A command that is issued on a closed channel, or cannot be written, never becomes pending. */
  predicate GoesOut(before: seq<Event>, e: Event) {
    e.Issue? && e.writes && Close !in before
  }

  function Open(es: seq<Event>): Option<Opened> {
    if es == [] then None
    else
      var before, e := es[..|es| - 1], es[|es| - 1];
      if GoesOut(before, e) then Some(Opened(Issued(before), e.command.kind, e.command.prefix, e.strict))
      else if e.Issue? || e.Wake? then None
      else Open(before)
  }

  /** Raw data waits for CONNECT from its issue on, even if the command never goes out. */
  predicate RawWaits(es: seq<Event>) {
    if es == [] then false
    else
      var before, e := es[..|es| - 1], es[|es| - 1];
      if e.Issue? then e.command.rawData.Some? || RawWaits(before)
      else RawWaits(before) && !(e == Line("CONNECT") && Open(before).Some?)
  }

  /** A message text waits for the prompt while its command is pending. */
  predicate SmsWaits(es: seq<Event>) {
    if es == [] then false
    else
      var before, e := es[..|es| - 1], es[|es| - 1];
      if e.Issue? then GoesOut(before, e) && e.command.smsPdu.Some?
      else SmsWaits(before) && e != Line("> ") && !e.Wake?
  }

  /** What the pending call, if there is one, makes of a line. */
  function PendingAt(es: seq<Event>): Option<Pending> {
    var o := Open(es);
    if o.None? then None
    else Some(Pending(o.value.kind, o.value.prefix, RawWaits(es), SmsWaits(es)))
  }

  /** The lines due to the call issued last: those that fit; only the first unless it takes several. */
  function Due(es: seq<Event>): seq<string>
    decreases |es|, 0
  {
    if es == [] then []
    else
      var before, e := es[..|es| - 1], es[|es| - 1];
      if e.Issue? then []
      else if e.Line? && IsDue(before, e.line) then Due(before) + [e.line]
      else Due(before)
  }

  predicate IsDue(before: seq<Event>, line: string)
    decreases |before|, 1
  {
    var p := PendingAt(before);
    p.Some? && Fits(p.value, line) && (p.value.kind.MultiLine? || Due(before) == [])
  }

  /** The last final result of the call issued last, and whether it is a success. */
  function Final(es: seq<Event>): Option<(string, bool)> {
    if es == [] then None
    else
      var before, e := es[..|es| - 1], es[|es| - 1];
      if e.Issue? then None
      else if e.Line? && PendingAt(before).Some? && Finishes(PendingAt(before).value, e.line) then
        Some((e.line, StartsWithAny(e.line, FINAL_SUCCESSES)))
      else Final(before)
  }

  /** The lines for the handler: nothing is pending, or they are no final result, prompt or due line. */
  function Unsolicited(es: seq<Event>): seq<string> {
    if es == [] then []
    else
      var before, e := es[..|es| - 1], es[|es| - 1];
      Unsolicited(before) + if e.Line? && IsUnsolicited(before, e.line) then [e.line] else []
  }

  predicate IsUnsolicited(before: seq<Event>, line: string) {
    var p := PendingAt(before);
    p.None? || (!Finishes(p.value, line) && !IsPrompt(p.value, line) && !IsDue(before, line))
  }

  /** The lines that trigger a prompt action. */
  function Prompts(es: seq<Event>): seq<string> {
    if es == [] then []
    else
      var before, e := es[..|es| - 1], es[|es| - 1];
      var p := PendingAt(before);
      Prompts(before) + if e.Line? && p.Some? && IsPrompt(p.value, e.line) then [e.line] else []
  }

  /**
   * What the issuer gets whose wait returns after `es`: a timeout counts even if a final result slipped
   * in, then a closed channel, and a strict call's success needs a line.
   */
  function AnswerTo(es: seq<Event>, strict: bool, timeout: bool): Answer {
    if timeout then TimedOut
    else if Close in es || Final(es).None? then ChannelClosed
    else if strict && Final(es).value.1 && Due(es) == [] then InvalidResponse
    else Reply(Final(es).value.1, Final(es).value.0, Due(es))
  }

  /** What every issuer gets, in order. */
  function Answers(es: seq<Event>): seq<Call> {
    if es == [] then []
    else
      var before, e := es[..|es| - 1], es[|es| - 1];
      Answers(before) +
      if e.Issue? && !GoesOut(before, e) then
        [Call(Issued(before), if Close in before then ChannelClosed else WriteFailed)]
      else if e.Wake? && Open(before).Some? then
        [Call(Open(before).value.id, AnswerTo(before, Open(before).value.strict, e.timeout))]
      else []
  }

  /** At most one line for single-line and numeric calls, none for calls without a result. */
  predicate WithinKind(kind: Kind, lines: seq<string>) {
    match kind
    case NoResult => lines == []
    case Numeric => |lines| <= 1
    case SingleLine => |lines| <= 1
    case MultiLine => true
  }

  // The channel follows ------------------------------------------------------------------------

  /** The shared command state says what the events say. */
  ghost predicate ChannelFollows(es: seq<Event>, ch: Channel) {
    && (ch.closed <==> Close in es)
    && (ch.rawData.Some? <==> RawWaits(es))
    && (ch.smsPdu.Some? <==> SmsWaits(es)) && (ch.smsPdu.Some? ==> ch.response.Some?)
    && (ch.response.Some? <==> Open(es).Some?)
    && (ch.response.Some? ==>
          && PendingAt(es) == Some(Pending(ch.kind, ch.prefix, ch.rawData.Some?, ch.smsPdu.Some?))
          && ResponseFollows(es, ch.response.value))
  }

  ghost predicate ResponseFollows(es: seq<Event>, r: Response) {
    && r.intermediates.Arrival() == Due(es)
    && Final(es) == if r.final.None? then None else Some((r.final.value, r.success))
  }

  ghost predicate CallsFollow(es: seq<Event>, w: World) {
    && w.next == Issued(es)
    && w.current == (if Open(es).Some? then Some((Open(es).value.id, Open(es).value.strict)) else None)
    && w.calls == Answers(es)
  }

  ghost predicate LinesFollow(es: seq<Event>, w: World) {
    w.handled == Unsolicited(es) && w.prompts == Prompts(es)
  }

  ghost predicate Follows(es: seq<Event>, w: World) {
    ChannelFollows(es, w.ch) && CallsFollow(es, w) && LinesFollow(es, w)
  }

  /** A line, with a command pending or not. */
  lemma LineFollows(es: seq<Event>, ch: Channel, line: string)
    requires ChannelFollows(es, ch)
    ensures ChannelFollows(es + [Line(line)], Processed(ch, line))
  {
    var es' := es + [Line(line)];
    assert es'[..|es|] == es;
    if ch.response.Some? {
      RouteMeaning(ch, PendingAt(es).value, line);
      NilIff(ch.response.value.intermediates);
      PromptUsed(ch, line);
    }
  }

  lemma NilIff(l: List)
    ensures l.Nil? <==> l.Arrival() == []
  {
  }

  /** Which prompt a line answers. */
  lemma PromptUsed(ch: Channel, line: string)
    requires ch.response.Some?
    ensures Route(ch, line).ToRaw? <==> ch.rawData.Some? && line == "CONNECT"
    ensures Route(ch, line).ToSms? <==> ch.smsPdu.Some? && line == "> "
  {
    if line == "> " {
      TablesMeaning(line, ' ');
      assert line[0] == '>' && "OK"[0] == 'O';
    }
  }

  /** Where it goes. */
  lemma LineGoes(es: seq<Event>, w: World, line: string)
    requires Follows(es, w)
    ensures LinesFollow(es + [Line(line)], Step(w, Line(line)))
  {
    var ch := w.ch;
    assert (es + [Line(line)])[..|es|] == es;
    Units(w.handled);
    Units(w.prompts);
    if ch.response.Some? {
      RouteMeaning(ch, PendingAt(es).value, line);
      NilIff(ch.response.value.intermediates);
    }
  }

  lemma OtherFollows(es: seq<Event>, w: World, e: Event)
    requires Follows(es, w) && Enabled(w, e) && !e.Line?
    ensures ChannelFollows(es + [e], Step(w, e).ch) && LinesFollow(es + [e], Step(w, e))
  {
    assert (es + [e])[..|es|] == es;
    Units(w.handled);
    Units(w.prompts);
  }

  lemma StepCalls(es: seq<Event>, w: World, e: Event)
    requires Follows(es, w) && Enabled(w, e)
    ensures CallsFollow(es + [e], Step(w, e))
  {
    assert (es + [e])[..|es|] == es;
    Units(w.calls);
    if e.Wake? {
      NilIff(w.ch.response.value.intermediates);
    }
  }

  lemma {:induction false} RunFollows(es: seq<Event>)
    requires Run(es).Some?
    ensures Follows(es, Run(es).value)
  {
    if es == [] {
    } else {
      var before, e := es[..|es| - 1], es[|es| - 1];
      RunFollows(before);
      var w := Run(before).value;
      assert es == before + [e];
      StepCalls(before, w, e);
      if e.Line? {
        LineFollows(before, w.ch, e.line);
        LineGoes(before, w, e.line);
      } else {
        OtherFollows(before, w, e);
      }
    }
  }

  // The main results ---------------------------------------------------------------------------

  /**
   * Over every run every issuer gets exactly the answer the events say, in order, and the handler and
   * the prompt actions get exactly the unsolicited lines and the prompts, in order.
   */
  lemma LineRouting(es: seq<Event>)
    requires Run(es).Some?
    ensures var w := Run(es).value;
      w.calls == Answers(es) && w.handled == Unsolicited(es) && w.prompts == Prompts(es)
  {
    RunFollows(es);
  }

  /** Of the calls issued all but the pending one are answered, and a call is due what its kind allows. */
  lemma {:induction false} OnceEach(es: seq<Event>)
    requires Run(es).Some?
    ensures Issued(es) == |Answers(es)| + if Open(es).Some? then 1 else 0
    ensures Open(es).Some? ==>
      var o := Open(es).value;
      o.id == |Answers(es)| && WithinKind(o.kind, Due(es)) && (o.strict ==> o.kind.SingleLine? || o.kind.Numeric?)
    ensures forall i :: 0 <= i < |Answers(es)| ==> Answers(es)[i].id == i
  {
    if es == [] {
    } else {
      OnceEach(es[..|es| - 1]);
      RunFollows(es[..|es| - 1]);
    }
  }

  /**
   * How a call ends whose wait returns. It has timed out if and only if the wait did; it met a closed
   * channel if and only if the wait did not time out and the channel was closed before; otherwise it is
   * an invalid response if a strict call succeeded without a line, and else the reply: the last final
   * result and the lines due to it. A strict call that succeeds gets exactly one line.
   */
  lemma CallEnds(es: seq<Event>, timeout: bool)
    requires Run(es + [Wake(timeout)]).Some?
    ensures Run(es).Some? && Open(es).Some?
    ensures var calls, o := Run(es).value.calls, Open(es).value;
      var answer := AnswerTo(es, o.strict, timeout);
      && Run(es + [Wake(timeout)]).value.calls == calls + [Call(|calls|, answer)]
      && (answer.TimedOut? <==> timeout)
      && (answer.ChannelClosed? <==> !timeout && Close in es)
      && (!timeout && Close !in es ==>
            && Final(es).Some?
            && var (final, success) := Final(es).value;
               && (answer.InvalidResponse? <==> o.strict && success && Due(es) == [])
               && (!answer.InvalidResponse? ==> answer == Reply(success, final, Due(es)))
               && (answer.Reply? && o.strict && success ==> |Due(es)| == 1))
      && WithinKind(o.kind, Due(es))
  {
    assert (es + [Wake(timeout)])[..|es|] == es;
    RunFollows(es);
    RunFollows(es + [Wake(timeout)]);
    OnceEach(es);
  }
}
