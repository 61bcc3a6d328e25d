/** Splitting an AT response line into fields by a cursor that overwrites separators with NUL. */
module AtTokenizer {
  import opened Bytes

  const COMMA: byte := 44
  const QUOTE: byte := 34

  predicate IsSpace(c: byte) {
    c == 32 || 9 <= c <= 13
  }

  /** White space in the C locale, character by character. */
  lemma SpaceMeaning(c: byte)
    ensures IsSpace(c) <==> c as char in " \t\n\r\U{0B}\U{0C}"
  {
  }

  // On text ------------------------------------------------------------------------------------

  function SkipSpace(s: seq<byte>): seq<byte> {
    if s != [] && IsSpace(s[0]) then SkipSpace(s[1..]) else s
  }

  /** Index of the first `c`, or the length when there is none. */
  function IndexOf(s: seq<byte>, c: byte): (i: nat)
    ensures i <= |s| && c !in s[..i] && (i < |s| ==> s[i] == c)
  {
    if s == [] || s[0] == c then 0
    else
      var j := IndexOf(s[1..], c);
      assert s[..j + 1] == [s[0]] + s[1..][..j];
      j + 1
  }

  /** `strsep`: the piece before the separator and what follows it, `None` when there is none. */
  function Sep(s: seq<byte>, c: byte): (seq<byte>, Option<seq<byte>>) {
    var i := IndexOf(s, c);
    (s[..i], if i < |s| then Some(s[i + 1..]) else None)
  }

  function AfterComma(s: seq<byte>): seq<byte> {
    var i := IndexOf(s, COMMA);
    if i < |s| then s[i + 1..] else []
  }

  /** One token and the remaining text. */
  function NextTok(s: seq<byte>): (seq<byte>, Option<seq<byte>>) {
    var t := SkipSpace(s);
    if t != [] && t[0] == QUOTE then
      var (tok, rest) := Sep(t[1..], QUOTE);
      (tok, if rest.Some? then Some(AfterComma(rest.value)) else None)
    else Sep(t, COMMA)
  }

  predicate HasMore(rest: Option<seq<byte>>) {
    rest.Some? && rest.value != []
  }

  /** Every remaining token, as long as there are more. */
  function Tokens(rest: Option<seq<byte>>): seq<seq<byte>>
    decreases if rest.Some? then |rest.value| else 0
  {
    if !HasMore(rest) then []
    else
      ShorterAfter(rest.value);
      [NextTok(rest.value).0] + Tokens(NextTok(rest.value).1)
  }

  lemma {:induction false} SkipSpaceShrinks(s: seq<byte>)
    ensures |SkipSpace(s)| <= |s|
  {
    if s != [] && IsSpace(s[0]) {
      SkipSpaceShrinks(s[1..]);
    }
  }

  lemma ShorterAfter(s: seq<byte>)
    requires s != []
    ensures NextTok(s).1.Some? ==> |NextTok(s).1.value| < |s|
  {
    SkipSpaceShrinks(s);
  }

  // Round trip ---------------------------------------------------------------------------------

  /** A field as it is printed: leading white space, then quoted or plain text. */
  datatype Field = Quoted(space: seq<byte>, text: seq<byte>) | Plain(space: seq<byte>, text: seq<byte>)
  {
    ghost predicate Ok() {
      && (forall i :: 0 <= i < |space| ==> IsSpace(space[i]))
      && match this
         case Quoted(_, text) => QUOTE !in text
         case Plain(_, text) => text != [] && COMMA !in text && text[0] != QUOTE && !IsSpace(text[0])
    }

    function Print(): seq<byte> {
      match this
      case Quoted(space, text) => space + ([QUOTE] + text + [QUOTE])
      case Plain(space, text) => space + text
    }
  }

  function Join(fs: seq<Field>): seq<byte>
    requires fs != []
  {
    if |fs| == 1 then fs[0].Print() else fs[0].Print() + ([COMMA] + Join(fs[1..]))
  }

  function Texts(fs: seq<Field>): seq<seq<byte>> {
    if fs == [] then [] else [fs[0].text] + Texts(fs[1..])
  }

  lemma {:induction false} SkipSpaceOver(space: seq<byte>, s: seq<byte>)
    requires forall i :: 0 <= i < |space| ==> IsSpace(space[i])
    requires s != [] && !IsSpace(s[0])
    ensures SkipSpace(space + s) == s
  {
    if space == [] {
      Units(s);
    } else {
      assert (space + s)[1..] == space[1..] + s;
      SkipSpaceOver(space[1..], s);
    }
  }

  lemma {:induction false} IndexOfAt(s: seq<byte>, c: byte, rest: seq<byte>)
    requires c !in s
    ensures IndexOf(s + ([c] + rest), c) == |s| && IndexOf(s, c) == |s|
  {
    if s == [] {
    } else {
      var w := s + ([c] + rest);
      assert w[0] == s[0] && w[1..] == s[1..] + ([c] + rest);
      IndexOfAt(s[1..], c, rest);
    }
  }

  lemma SepAt(s: seq<byte>, c: byte, rest: seq<byte>)
    requires c !in s
    ensures Sep(s + ([c] + rest), c) == (s, Some(rest)) && Sep(s, c) == (s, None)
  {
    IndexOfAt(s, c, rest);
    var w := s + ([c] + rest);
    assert w[..|s|] == s && w[|s| + 1..] == rest && s[..|s|] == s;
  }

  /** A printed field followed by a comma and more, or by nothing, gives back its text. */
  lemma OneField(f: Field, rest: seq<byte>)
    requires f.Ok()
    ensures NextTok(f.Print() + ([COMMA] + rest)) == (f.text, Some(rest))
    ensures NextTok(f.Print()).0 == f.text && !HasMore(NextTok(f.Print()).1)
  {
    match f
    case Plain(space, text) =>
      var tail := [COMMA] + rest;
      Assoc(space, text, tail);
      SkipSpaceOver(space, text + tail);
      SkipSpaceOver(space, text);
      SepAt(text, COMMA, rest);
    case Quoted(space, text) =>
      var inner := [QUOTE] + text + [QUOTE];
      QuotedField(text, []);
      QuotedField(text, [COMMA] + rest);
      Units(inner);
      Assoc(space, inner, [COMMA] + rest);
      SkipSpaceOver(space, inner + ([COMMA] + rest));
      SkipSpaceOver(space, inner);
      SepAt([], COMMA, rest);
      Units([COMMA] + rest);
  }

  lemma QuotedField(text: seq<byte>, rest: seq<byte>)
    requires QUOTE !in text
    ensures var t := [QUOTE] + text + [QUOTE] + rest;
      t[0] == QUOTE && Sep(t[1..], QUOTE) == (text, Some(rest))
  {
    var t := [QUOTE] + text + [QUOTE] + rest;
    assert t[1..] == text + ([QUOTE] + rest);
    SepAt(text, QUOTE, rest);
  }

  /**
   * Joining fields with commas and tokenizing gives the fields back in order, and there is more
   * exactly until the last one has been taken.
   */
  lemma {:induction false} TokensOfJoin(fs: seq<Field>)
    requires fs != [] && forall i :: 0 <= i < |fs| ==> fs[i].Ok()
    ensures Join(fs) != []
    ensures Tokens(Some(Join(fs))) == Texts(fs)
  {
    if |fs| == 1 {
      OneField(fs[0], []);
    } else {
      OneField(fs[0], Join(fs[1..]));
      TokensOfJoin(fs[1..]);
    }
  }

  // In place -----------------------------------------------------------------------------------

  /** A NUL-terminated line and the cursor into it; `None` is the null pointer. */
  class Cursor {
    const buf: array<byte>
    var cur: Option<nat>
    /** Index of the line's terminator. */
    ghost const end: nat

    ghost predicate Valid()
      reads this, buf
    {
      && end < buf.Length && buf[end] == 0
      && (cur.Some? ==> cur.value <= end && forall i :: cur.value <= i < end ==> buf[i] != 0)
    }

    /** The text the cursor still points at. */
    ghost function Rest(): Option<seq<byte>>
      requires Valid()
      reads this, buf
    {
      if cur.None? then None else Some(buf[cur.value..end])
    }

    constructor (line: seq<byte>)
      requires forall i :: 0 <= i < |line| ==> line[i] != 0
      ensures Valid() && fresh(buf) && Rest() == Some(line)
    {
      buf := new byte[|line| + 1](i requires 0 <= i <= |line| => if i < |line| then line[i] else 0);
      cur, end := Some(0), |line|;
      new;
      assert buf[..|line|] == line;
    }

    method SkipWhiteSpace()
      requires Valid()
      modifies this`cur
      ensures Valid()
      ensures Rest() == if old(cur).None? then None else Some(SkipSpace(old(Rest()).value))
    {
      if cur.None? {
        return;
      }
      while buf[cur.value] != 0 && IsSpace(buf[cur.value])
        invariant Valid() && cur.Some?
        invariant SkipSpace(Rest().value) == SkipSpace(old(Rest()).value)
        decreases end - cur.value
      {
        assert Rest().value[0] == buf[cur.value];
        assert Rest().value[1..] == buf[cur.value + 1..end];
        cur := Some(cur.value + 1);
      }
      assert cur.value < end ==> Rest().value[0] == buf[cur.value];
    }

    /** Find `c` from the cursor on; the terminator stops the search. */
    method Find(c: byte) returns (at: nat)
      requires Valid() && cur.Some? && c != 0
      ensures cur.value <= at <= end && at - cur.value == IndexOf(buf[cur.value..end], c)
      ensures buf[at] == c <==> at < end
    {
      at := cur.value;
      ghost var text := buf[cur.value..end];
      while buf[at] != 0 && buf[at] != c
        invariant cur.value <= at <= end
        invariant IndexOf(text, c) == at - cur.value + IndexOf(buf[at..end], c)
        decreases end - at
      {
        assert buf[at..end][0] == buf[at] && buf[at..end][1..] == buf[at + 1..end];
        at := at + 1;
      }
      assert at < end ==> buf[at..end][0] == buf[at];
    }

    method SkipNextComma()
      requires Valid()
      modifies this`cur
      ensures Valid()
      ensures Rest() == if old(cur).None? then None else Some(AfterComma(old(Rest()).value))
    {
      if cur.None? {
        return;
      }
      ghost var text := Rest().value;
      var at := Find(COMMA);
      ghost var i := at - cur.value;
      if buf[at] == COMMA {
        assert buf[at + 1..end] == text[i + 1..];
        cur := Some(at + 1);
      } else {
        cur := Some(at);
        assert buf[at..end] == [];
      }
    }

    /** `strsep`: overwrite the separator and step over it. */
    method StrSep(c: byte) returns (tok: seq<byte>)
      requires Valid() && cur.Some? && c != 0
      modifies this`cur, buf
      ensures Valid()
      ensures (tok, Rest()) == Sep(old(Rest()).value, c)
    {
      ghost var text := Rest().value;
      var at := Find(c);
      ghost var i := at - cur.value;
      tok := buf[cur.value..at];
      assert tok == text[..i];
      if buf[at] == c {
        buf[at] := 0;
        cur := Some(at + 1);
        assert buf[at + 1..end] == text[i + 1..];
      } else {
        cur := None;
      }
    }

    method Next() returns (tok: Option<seq<byte>>)
      requires Valid()
      modifies this`cur, buf
      ensures Valid()
      ensures old(cur).None? ==> tok.None? && cur.None?
      ensures old(cur).Some? ==> tok.Some? && (tok.value, Rest()) == NextTok(old(Rest()).value)
    {
      SkipWhiteSpace();
      if cur.None? {
        return None;
      }
      ghost var text := Rest().value;
      assert text != [] ==> text[0] == buf[cur.value];
      var piece;
      if buf[cur.value] == QUOTE {
        assert text[1..] == buf[cur.value + 1..end];
        cur := Some(cur.value + 1);
        piece := StrSep(QUOTE);
        SkipNextComma();
      } else {
        piece := StrSep(COMMA);
      }
      tok := Some(piece);
    }
  }

  /** Take tokens while `at_tok_hasmore` says so. */
  method Tokenize(line: seq<byte>) returns (toks: seq<seq<byte>>)
    requires forall i :: 0 <= i < |line| ==> line[i] != 0
    ensures toks == Tokens(Some(line))
  {
    var c := new Cursor(line);
    toks := [];
    Units(Tokens(Some(line)));
    while c.cur.Some? && c.buf[c.cur.value] != 0
      invariant c.Valid() && fresh(c) && fresh(c.buf)
      invariant toks + Tokens(c.Rest()) == Tokens(Some(line))
      decreases if c.cur.Some? then c.end - c.cur.value + 1 else 0
    {
      ghost var rest := c.Rest();
      assert rest.value[0] == c.buf[c.cur.value];
      ShorterAfter(rest.value);
      var tok := c.Next();
      Assoc(toks, [tok.value], Tokens(c.Rest()));
      toks := toks + [tok.value];
    }
    Units(toks);
  }
}
