/** The AT channel's pending-command machine: where each line goes and what the issuer gets. */
module AtCommand {
  import opened Bytes

  datatype Kind = NoResult | Numeric | SingleLine | MultiLine

  const FINAL_ERRORS: seq<string> :=
    ["ERROR", "+CMS ERROR:", "+CME ERROR:", "NO CARRIER", "NO ANSWER", "NO DIALTONE", "COMMAND NOT SUPPORT"]
  const FINAL_SUCCESSES: seq<string> := ["OK", "+QIND: \"FOTA\",\"END\",0", "CONNECT"]

  /** `strStartsWith`, character by character. */
  method StrStartsWith(line: string, prefix: string) returns (r: bool)
    ensures r <==> prefix <= line
  {
    var i := 0;
    while i < |line| && i < |prefix|
      invariant i <= |line| && i <= |prefix| && line[..i] == prefix[..i]
    {
      if line[i] != prefix[i] {
        assert line[..i + 1] != prefix[..i + 1];
        return false;
      }
      i := i + 1;
    }
    return i == |prefix|;
  }

  predicate StartsWithAny(line: string, prefixes: seq<string>) {
    exists i :: 0 <= i < |prefixes| && prefixes[i] <= line
  }

  method MatchesAny(line: string, prefixes: seq<string>) returns (r: bool)
    ensures r <==> StartsWithAny(line, prefixes)
  {
    for i := 0 to |prefixes|
      invariant forall j :: 0 <= j < i ==> !(prefixes[j] <= line)
    {
      var hit := StrStartsWith(line, prefixes[i]);
      if hit {
        return true;
      }
    }
    return false;
  }

  // The intermediate list ----------------------------------------------------------------------

  /** The linked list of intermediate lines, newest first. */
  datatype List = Nil | Cons(line: string, next: List)
  {
    function Seq(): seq<string> {
      match this
      case Nil => []
      case Cons(l, n) => [l] + n.Seq()
    }

    /** The lines in order of arrival. */
    function Arrival(): seq<string> {
      match this
      case Nil => []
      case Cons(l, n) => n.Arrival() + [l]
    }
  }

  /** Turn the list around node by node. */
  method ReverseIntermediates(l: List) returns (r: List)
    ensures r.Seq() == l.Arrival()
  {
    var cur := l;
    r := Nil;
    Units(l.Arrival());
    while cur.Cons?
      invariant cur.Arrival() + r.Seq() == l.Arrival()
      decreases cur
    {
      var next := cur.next;
      Assoc(next.Arrival(), [cur.line], r.Seq());
      r := Cons(cur.line, r);
      cur := next;
    }
    Units(r.Seq());
  }

  // Routing ------------------------------------------------------------------------------------

  /** The response being collected for the pending command. */
  datatype Response = Response(success: bool, final: Option<string>, intermediates: List)

  /** The command state shared by the two threads; kind and prefix outlive the command. */
  datatype Channel = Channel(
    kind: Kind, prefix: string, smsPdu: Option<string>, rawData: Option<string>,
    response: Option<Response>, closed: bool)

  /** Where one line goes. */
  datatype Dest = ToIntermediate | ToFinal(success: bool) | ToHandler | ToRaw | ToSms

  predicate IsDigit(c: char) {
    '0' <= c <= '9'
  }

  function Route(ch: Channel, line: string): Dest {
    if ch.response.None? then ToHandler
    else if ch.rawData.Some? && line == "CONNECT" then ToRaw
    else if StartsWithAny(line, FINAL_SUCCESSES) then ToFinal(true)
    else if StartsWithAny(line, FINAL_ERRORS) then ToFinal(false)
    else if ch.smsPdu.Some? && line == "> " then ToSms
    else
      var first := ch.response.value.intermediates.Nil?;
      match ch.kind
      case NoResult => ToHandler
      case Numeric => if first && |line| > 0 && IsDigit(line[0]) then ToIntermediate else ToHandler
      case SingleLine => if first && ch.prefix <= line then ToIntermediate else ToHandler
      case MultiLine => if ch.prefix <= line then ToIntermediate else ToHandler
  }

  /** What the line does to the shared state. */
  function Processed(ch: Channel, line: string): Channel {
    match Route(ch, line)
    case ToHandler => ch
    case ToRaw => ch.(rawData := None)
    case ToSms => ch.(smsPdu := None)
    case ToFinal(success) =>
      ch.(response := Some(ch.response.value.(success := success, final := Some(line))))
    case ToIntermediate =>
      var r := ch.response.value;
      ch.(response := Some(r.(intermediates := Cons(line, r.intermediates))))
  }

  /** What a command expects, and the texts it has ready for the prompts. */
  datatype Command = Command(kind: Kind, prefix: string, smsPdu: Option<string>, rawData: Option<string>)

  /** Issuing a command: it becomes pending if it can be written. Raw data is left waiting either way. */
  function Begun(ch: Channel, c: Command, writes: bool): Channel {
    var ch' := if c.rawData.Some? then ch.(rawData := c.rawData) else ch;
    if ch.closed || !writes then Cleared(ch')
    else ch'.(kind := c.kind, prefix := c.prefix, smsPdu := c.smsPdu, response := Some(Response(false, None, Nil)))
  }

  function Cleared(ch: Channel): Channel {
    ch.(response := None, prefix := "", smsPdu := None)
  }

  /** How a call ends for its issuer. */
  datatype Answer =
    | Reply(success: bool, final: string, lines: seq<string>)
    | TimedOut
    | ChannelClosed
    | InvalidResponse
    | WriteFailed

  /**
   * The end of a call: the wait timed out (even if a final result slipped in meanwhile), or it saw a
   * closed channel or a final result.
   */
  function Concluded(ch: Channel, timeout: bool): Answer
    requires ch.response.Some? && (ch.response.value.final.Some? || ch.closed || timeout)
  {
    var r := ch.response.value;
    if timeout then TimedOut
    else if ch.closed then ChannelClosed
    else Reply(r.success, r.final.value, r.intermediates.Arrival())
  }

  /** The single-line, numeric and SMS calls reject a success without its line. */
  function Checked(strict: bool, a: Answer): Answer {
    if strict && a.Reply? && a.success && a.lines == [] then InvalidResponse else a
  }

  /** The shared state as the reader and the issuer update it. */
  class AtChannel {
    var kind: Kind
    var prefix: string
    var smsPdu: Option<string>
    var rawData: Option<string>
    var response: Option<Response>
    var closed: bool

    function View(): Channel
      reads this
    {
      Channel(kind, prefix, smsPdu, rawData, response, closed)
    }

    constructor ()
      ensures View() == Channel(NoResult, "", None, None, None, false)
    {
      kind, prefix, smsPdu, rawData, response, closed := NoResult, "", None, None, None, false;
    }

    /** `processLine`, with the destination it chose. */
    method ProcessLine(line: string) returns (dest: Dest)
      modifies this
      ensures dest == Route(old(View()), line)
      ensures View() == Processed(old(View()), line)
    {
      if response.None? {
        return ToHandler;
      }
      if rawData.Some? && line == "CONNECT" {
        rawData := None;
        return ToRaw;
      }
      var success := MatchesAny(line, FINAL_SUCCESSES);
      if success {
        response := Some(response.value.(success := true, final := Some(line)));
        return ToFinal(true);
      }
      var error := MatchesAny(line, FINAL_ERRORS);
      if error {
        response := Some(response.value.(success := false, final := Some(line)));
        return ToFinal(false);
      }
      if smsPdu.Some? && line == "> " {
        smsPdu := None;
        return ToSms;
      }
      var starts := StrStartsWith(line, prefix);
      var first := response.value.intermediates.Nil?;
      var wanted := match kind
        case NoResult => false
        case Numeric => first && |line| > 0 && IsDigit(line[0])
        case SingleLine => first && starts
        case MultiLine => starts;
      if !wanted {
        return ToHandler;
      }
      response := Some(response.value.(intermediates := Cons(line, response.value.intermediates)));
      return ToIntermediate;
    }

    /** `at_send_command_full_nolock` before the wait, told whether the write of the command succeeds. */
    method Begin(c: Command, writes: bool) returns (failure: Option<Answer>)
      requires response.None?
      modifies this
      ensures View() == Begun(old(View()), c, writes)
      ensures failure == if closed then Some(ChannelClosed) else if !writes then Some(WriteFailed) else None
    {
      if c.rawData.Some? {
        rawData := c.rawData;
      }
      if closed || !writes {
        prefix, smsPdu := "", None;
        return Some(if closed then ChannelClosed else WriteFailed);
      }
      kind, prefix, smsPdu := c.kind, c.prefix, c.smsPdu;
      response := Some(Response(false, None, Nil));
      failure := None;
    }

    /** And after it: the lines are turned into arrival order and the command is cleared. */
    method Conclude(timeout: bool, strict: bool) returns (a: Answer)
      requires response.Some? && (response.value.final.Some? || closed || timeout)
      modifies this
      ensures View() == Cleared(old(View()))
      ensures a == Checked(strict, Concluded(old(View()), timeout))
    {
      var r := response.value;
      if timeout {
        a := TimedOut;
      } else {
        var lines := ReverseIntermediates(r.intermediates);
        if closed {
          a := ChannelClosed;
        } else {
          a := Reply(r.success, r.final.value, lines.Seq());
          if strict && r.success && lines.Nil? {
            a := InvalidResponse;
          }
        }
      }
      response, prefix, smsPdu := None, "", None;
    }
  }

  // What routing means -------------------------------------------------------------------------

  /** A command that is pending: what it expects, and the prompts it still waits for. */
  datatype Pending = Pending(kind: Kind, prefix: string, raw: bool, sms: bool)

  /** A final result code, by the tables of annex B of 3GPP TS 27.007 and the vendor's additions. */
  predicate IsFinal(line: string) {
    StartsWithAny(line, FINAL_SUCCESSES) || StartsWithAny(line, FINAL_ERRORS)
  }

  /** Does a line have the form a command of this kind expects? */
  predicate Expected(kind: Kind, prefix: string, line: string) {
    match kind
    case NoResult => false
    case Numeric => |line| > 0 && IsDigit(line[0])
    case SingleLine => prefix <= line
    case MultiLine => prefix <= line
  }

  /** The line triggers a prompt action: raw data is waiting for it, or a message text is. */
  predicate IsPrompt(p: Pending, line: string) {
    (p.raw && line == "CONNECT") || (p.sms && line == "> " && !IsFinal(line))
  }

  /** The line is a final result of the pending command. */
  predicate Finishes(p: Pending, line: string) {
    IsFinal(line) && !IsPrompt(p, line)
  }

  /** The line has the form the pending command expects and is neither a prompt nor final. */
  predicate Fits(p: Pending, line: string) {
    !IsFinal(line) && !IsPrompt(p, line) && Expected(p.kind, p.prefix, line)
  }

  /** What each destination says about the line, in terms of the line and the pending command. */
  lemma RouteMeaning(ch: Channel, p: Pending, line: string)
    requires ch.response.Some?
    requires p.kind == ch.kind && p.prefix == ch.prefix && p.raw == ch.rawData.Some? && p.sms == ch.smsPdu.Some?
    ensures var dest := Route(ch, line);
      var wanted := Fits(p, line) && (ch.kind.MultiLine? || ch.response.value.intermediates.Nil?);
      && (dest.ToFinal? <==> Finishes(p, line))
      && (dest.ToFinal? ==> dest.success == StartsWithAny(line, FINAL_SUCCESSES))
      && (dest.ToRaw? || dest.ToSms? <==> IsPrompt(p, line))
      && (dest.ToIntermediate? <==> wanted)
      && (dest.ToHandler? <==> !Finishes(p, line) && !IsPrompt(p, line) && !wanted)
  {
    if line == "CONNECT" {
      assert FINAL_SUCCESSES[2] <= line;
    }
  }

  /** The tables, prefix by prefix, and the digits, one by one. */
  lemma TablesMeaning(line: string, c: char)
    ensures StartsWithAny(line, FINAL_SUCCESSES) <==>
            "OK" <= line || "+QIND: \"FOTA\",\"END\",0" <= line || "CONNECT" <= line
    ensures StartsWithAny(line, FINAL_ERRORS) <==>
            || "ERROR" <= line || "+CMS ERROR:" <= line || "+CME ERROR:" <= line || "NO CARRIER" <= line
            || "NO ANSWER" <= line || "NO DIALTONE" <= line || "COMMAND NOT SUPPORT" <= line
    ensures IsDigit(c) <==> c in "0123456789"
  {
    assert FINAL_SUCCESSES[0] == "OK" && FINAL_SUCCESSES[2] == "CONNECT";
    assert FINAL_SUCCESSES[1] == "+QIND: \"FOTA\",\"END\",0";
    assert FINAL_ERRORS[0] == "ERROR" && FINAL_ERRORS[1] == "+CMS ERROR:" && FINAL_ERRORS[2] == "+CME ERROR:";
    assert FINAL_ERRORS[3] == "NO CARRIER" && FINAL_ERRORS[4] == "NO ANSWER" && FINAL_ERRORS[5] == "NO DIALTONE";
    assert FINAL_ERRORS[6] == "COMMAND NOT SUPPORT";
  }
}
