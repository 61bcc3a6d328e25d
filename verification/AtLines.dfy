/** What the AT channel means by a line: the non-empty pieces of a byte stream between CR and LF. */
module AtLines {
  import opened Bytes

  const CR: byte := 13
  const LF: byte := 10

  predicate IsEol(c: byte) {
    c == CR || c == LF
  }

  /** Carriage return and line feed, and no other character, end a line. */
  lemma EolMeaning(c: byte)
    ensures IsEol(c) <==> c as char in "\r\n"
  {
  }

  predicate AllEol(s: seq<byte>) {
    forall i :: 0 <= i < |s| ==> IsEol(s[i])
  }

  predicate NoEol(s: seq<byte>) {
    forall i :: 0 <= i < |s| ==> !IsEol(s[i])
  }

  /** Index of the first line end, or the length when there is none. */
  function FirstEol(s: seq<byte>): (i: nat)
    ensures i <= |s| && NoEol(s[..i]) && (i < |s| ==> IsEol(s[i]))
  {
    if s == [] || IsEol(s[0]) then 0
    else
      var j := FirstEol(s[1..]);
      assert s[..j + 1] == [s[0]] + s[1..][..j];
      j + 1
  }

  /** The complete, non-empty lines of a stream; an unterminated rest is not a line yet. */
  function Lines(s: seq<byte>): seq<seq<byte>>
    decreases |s|
  {
    var i := FirstEol(s);
    if i == |s| then []
    else if i == 0 then Lines(s[1..])
    else [s[..i]] + Lines(s[i + 1..])
  }

  lemma FirstEolAt(line: seq<byte>, e: byte, rest: seq<byte>)
    requires NoEol(line) && IsEol(e)
    ensures FirstEol(line + [e] + rest) == |line|
  {
    var s := line + [e] + rest;
    var i := FirstEol(s);
    assert s[|line|] == e && s[..|line|] == line;
  }

  lemma {:induction false} SkipEols(eols: seq<byte>, rest: seq<byte>)
    requires AllEol(eols)
    ensures Lines(eols + rest) == Lines(rest)
  {
    if eols == [] {
      Units(rest);
    } else {
      var s := eols + rest;
      assert s[0] == eols[0];
      assert FirstEol(s) == 0;
      assert s[1..] == eols[1..] + rest;
      SkipEols(eols[1..], rest);
    }
  }

  /** A run of line ends, a line and its end, then anything: the line comes first. */
  lemma FirstLine(eols: seq<byte>, line: seq<byte>, e: byte, rest: seq<byte>)
    requires AllEol(eols) && line != [] && NoEol(line) && IsEol(e)
    ensures Lines(eols + (line + [e] + rest)) == [line] + Lines(rest)
  {
    SkipEols(eols, line + [e] + rest);
    FirstEolAt(line, e, rest);
    var s := line + [e] + rest;
    assert s[..|line|] == line && s[|line| + 1..] == rest;
  }

  lemma NoLine(eols: seq<byte>, partial: seq<byte>)
    requires AllEol(eols) && NoEol(partial)
    ensures Lines(eols + partial) == []
  {
    SkipEols(eols, partial);
  }

  // Printing lines -----------------------------------------------------------------------------

  /** Each line preceded by its run of line ends and closed by one more. */
  function Print(lines: seq<seq<byte>>, runs: seq<seq<byte>>, e: byte): seq<byte>
    requires |lines| == |runs|
  {
    if lines == [] then [] else runs[0] + (lines[0] + [e] + Print(lines[1..], runs[1..], e))
  }

  /** Splitting undoes printing, whatever the runs of line ends and the unterminated rest. */
  lemma {:induction false} LinesOfPrint(lines: seq<seq<byte>>, runs: seq<seq<byte>>, e: byte, rest: seq<byte>)
    requires |lines| == |runs| && IsEol(e) && NoEol(rest)
    requires forall i :: 0 <= i < |lines| ==> lines[i] != [] && NoEol(lines[i]) && AllEol(runs[i])
    ensures Lines(Print(lines, runs, e) + rest) == lines
  {
    if lines == [] {
      Units(rest);
      NoLine([], rest);
    } else {
      var tail := Print(lines[1..], runs[1..], e);
      LinesOfPrint(lines[1..], runs[1..], e, rest);
      FirstLine(runs[0], lines[0], e, tail + rest);
      Assoc(runs[0], lines[0] + [e] + tail, rest);
      Assoc(lines[0] + [e], tail, rest);
      assert [lines[0]] + lines[1..] == lines;
    }
  }

  // The prompt special case --------------------------------------------------------------------

  const PROMPT: seq<byte> := [62, 32]

  /**
   * `findNextEOL` on the buffered text: the two-character SMS prompt counts as a line when it is
   * all there is, and then the "end" is the terminator itself.
   */
  function EolIndex(text: seq<byte>): Option<nat> {
    if text == PROMPT then Some(2)
    else if FirstEol(text) < |text| then Some(FirstEol(text))
    else None
  }

  /** The text after its leading line ends. */
  function AfterEols(text: seq<byte>): seq<byte> {
    if text != [] && IsEol(text[0]) then AfterEols(text[1..]) else text
  }

  lemma {:induction false} AfterEolsAt(text: seq<byte>, k: nat)
    requires k <= |text| && AllEol(text[..k]) && (k < |text| ==> !IsEol(text[k]))
    ensures AfterEols(text) == text[k..]
  {
    if k == 0 {
      assert text[0..] == text;
    } else {
      assert text[..k][0] == text[0];
      assert text[1..][..k - 1] == text[..k][1..];
      AfterEolsAt(text[1..], k - 1);
      assert text[1..][k - 1..] == text[k..];
    }
  }

  /** The buffered text already holds the prompt or a complete line. */
  predicate Ready(text: seq<byte>) {
    EolIndex(AfterEols(text)).Some?
  }

  // Where the text ends ------------------------------------------------------------------------

  predicate Multiple(m: nat, d: nat)
    decreases d
  {
    d == 0 || (0 < m <= d && Multiple(m, d - m))
  }

  /**
   * Where the terminator is when a line is returned: where it was, if the line was there already; else
   * `kept` bytes were kept and `got` read, and the buffer, of `max` cells, was emptied whenever full.
   */
  ghost predicate TermAt(max: nat, ready: bool, was: nat, kept: nat, got: nat, term: nat) {
    if ready then got == 0 && term == was
    else got > 0 && 0 < term <= max && term <= kept + got && Multiple(max, kept + got - term)
  }

  /** It is at the last cell exactly if it was there already, or the buffer is full to the brim. */
  lemma TermLastIff(max: nat, ready: bool, was: nat, kept: nat, got: nat, term: nat)
    requires max > 0 && TermAt(max, ready, was, kept, got, term)
    ensures term == max <==> if ready then was == max else Multiple(max, kept + got)
  {
    if !ready {
      MultipleDiff(max, kept + got, term);
    }
  }

  lemma {:induction false} MultipleDiff(m: nat, a: nat, t: nat)
    requires 0 < t <= m && t <= a && Multiple(m, a - t)
    ensures Multiple(m, a) <==> t == m
    decreases a
  {
    if a - t == 0 {
    } else {
      MultipleDiff(m, a - m, t);
    }
  }

  /** A line end found now is moved by later arrivals exactly when the text so far is the prompt. */
  lemma PromptDependsOnArrival(text: seq<byte>)
    ensures (exists more: seq<byte> :: |more| > 0 && EolIndex(text).Some? && EolIndex(text + more) != EolIndex(text))
       <==> text == PROMPT
  {
    if text == PROMPT {
      var more: seq<byte> := [79, 13];
      assert text + more == [62, 32, 79, 13];
      assert !IsEol((text + more)[0]) && !IsEol((text + more)[1]);
      FirstEolAt([62, 32, 79], 13, []);
      assert [62, 32, 79] + [13] + [] == text + more;
      assert EolIndex(text + more) == Some(3);
    } else {
      forall more: seq<byte> | EolIndex(text).Some? && |more| > 0
        ensures EolIndex(text + more) == EolIndex(text)
      {
        var i := FirstEol(text);
        var line, rest := text[..i], text[i + 1..] + more;
        FirstEolAt(line, text[i], rest);
        assert text + more == line + [text[i]] + rest;
        assert IsEol((text + more)[i]);
      }
    }
  }

  /**
   * Text left behind the prompt does no harm, whatever arrives next, exactly when it is nothing but
   * line ends; anything else becomes part of a line that was never sent.
   */
  lemma StaleHarmlessIff(stale: seq<byte>)
    ensures (forall rest: seq<byte> :: Lines(stale + rest) == Lines(rest)) <==> AllEol(stale)
  {
    if AllEol(stale) {
      forall rest: seq<byte> ensures Lines(stale + rest) == Lines(rest) {
        SkipEols(stale, rest);
      }
    } else {
      NoLine([CR], []);
      Units([CR]);
      EndedTextHasLine(stale, CR);
      assert Lines(stale + [CR]) != Lines([CR]);
    }
  }

  lemma FirstEolBefore(s: seq<byte>, k: nat)
    requires k < |s| && IsEol(s[k])
    ensures FirstEol(s) <= k
  {
    var i := FirstEol(s);
    assert forall j :: 0 <= j < i ==> s[..i][j] == s[j];
  }

  lemma {:induction false} EndedTextHasLine(text: seq<byte>, e: byte)
    requires !AllEol(text) && IsEol(e)
    ensures Lines(text + [e]) != []
    decreases |text|
  {
    var s := text + [e];
    assert s[|text|] == e;
    var i := FirstEol(s);
    FirstEolBefore(s, |text|);
    if i == 0 {
      assert s[1..] == text[1..] + [e];
      EndedTextHasLine(text[1..], e);
    }
  }

  // Conditions on the stream -------------------------------------------------------------------

  /** No line of the stream starts with the prompt; the stream starts at the start of a line. */
  ghost predicate NoPrompt(s: seq<byte>) {
    forall i :: 0 <= i && i + 1 < |s| && s[i] == 62 && s[i + 1] == 32 ==> i > 0 && !IsEol(s[i - 1])
  }

  /** Every run of line ends together with the line after it is shorter than `max`. */
  ghost predicate Short(s: seq<byte>, max: nat) {
    forall i, k, j :: 0 <= i <= k < j <= |s| && AllEol(s[i..k]) && NoEol(s[k..j]) ==> j - i < max
  }

  /** The conditions pass to what is left after whole lines have been taken off the front. */
  lemma Leftover(s: seq<byte>, front: seq<byte>, rest: seq<byte>, max: nat)
    requires s == front + rest && front != [] && IsEol(front[|front| - 1])
    requires NoPrompt(s) && Short(s, max)
    ensures NoPrompt(rest) && Short(rest, max)
  {
    var n := |front|;
    forall i | 0 <= i && i + 1 < |rest| && rest[i] == 62 && rest[i + 1] == 32
      ensures i > 0 && !IsEol(rest[i - 1])
    {
      assert s[n + i] == rest[i] && s[n + i + 1] == rest[i + 1];
      assert s[n - 1] == front[n - 1];
      if i > 0 {
        assert s[n + i - 1] == rest[i - 1];
      }
    }
    forall i, k, j | 0 <= i <= k < j <= |rest| && AllEol(rest[i..k]) && NoEol(rest[k..j])
      ensures j - i < max
    {
      assert s[n + i..n + k] == rest[i..k] && s[n + k..n + j] == rest[k..j];
    }
  }

  /** After the dropped line ends, the buffered text is never the prompt. */
  lemma NotPrompt(s: seq<byte>, dropped: seq<byte>, text: seq<byte>, rest: seq<byte>)
    requires s == dropped + (text + rest) && AllEol(dropped) && NoPrompt(s)
    ensures text != PROMPT
  {
    var n := |dropped|;
    if |text| == 2 {
      assert s[n] == text[0] && s[n + 1] == text[1];
      assert n > 0 ==> s[n - 1] == dropped[n - 1];
    }
  }

  /** A buffer full of line ends and one unfinished line breaks the length condition. */
  lemma Spills(s: seq<byte>, dropped: seq<byte>, eols: seq<byte>, partial: seq<byte>, rest: seq<byte>, max: nat)
    requires s == dropped + (eols + (partial + rest)) && AllEol(eols) && NoEol(partial)
    requires partial != [] && |eols| + |partial| >= max
    ensures !Short(s, max)
  {
    var i := |dropped|;
    var k := i + |eols|;
    var j := k + |partial|;
    assert s[i..k] == eols && s[k..j] == partial;
  }

  /** Taking the first line of the buffered text takes the first line of the stream. */
  lemma TakeLine(s: seq<byte>, dropped: seq<byte>, text: seq<byte>, rest: seq<byte>, max: nat)
    requires s == dropped + (text + rest) && AllEol(dropped)
    requires 0 < FirstEol(text) < |text|
    requires NoPrompt(s) && Short(s, max)
    ensures var i := FirstEol(text);
      var left := text[i + 1..] + rest;
      && Lines(s) == [text[..i]] + Lines(left)
      && NoPrompt(left) && Short(left, max)
  {
    var i := FirstEol(text);
    var line, e, left := text[..i], text[i], text[i + 1..] + rest;
    assert text + rest == line + [e] + left;
    FirstLine(dropped, line, e, left);
    Leftover(s, dropped + (line + [e]), left, max);
  }

  /** The same for whatever the reader found, which is never the prompt. */
  lemma TakeFirst(s: seq<byte>, dropped: seq<byte>, text: seq<byte>, rest: seq<byte>, max: nat)
    requires s == dropped + (text + rest) && NoPrompt(s) && Short(s, max)
    requires AllEol(dropped) || !Short(s, max)
    requires EolIndex(text).Some? && text[..EolIndex(text).value] != []
    ensures text != PROMPT
    ensures var line := text[..EolIndex(text).value];
      var left := text[|line| + 1..] + rest;
      Lines(s) == [line] + Lines(left) && NoPrompt(left) && Short(left, max)
  {
    NotPrompt(s, dropped, text, rest);
    TakeLine(s, dropped, text, rest, max);
  }

  /** A stream of dropped line ends and an unfinished line has no line in it. */
  lemma NothingToTake(s: seq<byte>, dropped: seq<byte>, text: seq<byte>)
    requires s == dropped + (text + []) && AllEol(dropped) && NoEol(text)
    ensures Lines(s) == []
  {
    Units(text);
    NoLine(dropped, text);
  }
}
