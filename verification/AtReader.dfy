/**
 * The AT channel's line reader: one buffer edited in place, filled by reads that may return any
 * number of bytes.
 */
module AtReader {
  import opened Bytes
  import opened AtLines

  class LineReader {
    const max: nat
    const buf: array<byte>
    var cur: nat
    /** The reads still to come: each delivers one chunk, or as much of it as there is room for. */
    var input: seq<seq<byte>>
    /** Index of the terminator of the buffered text. */
    ghost var end: nat

    /** Index of the terminator of the text the last line was taken from. */
    ghost var term: nat

    ghost predicate Sound()
      reads this, buf
    {
      && max > 0 && buf.Length == max + 1 && buf[max] == 0
      && ChunksOk(input)
      && cur <= max + 1
      && (cur <= max ==> cur <= end <= max && buf[end] == 0 && NulFree(buf[cur..end]))
    }

    ghost predicate Valid()
      reads this, buf
    {
      Sound() && cur <= max
    }

    static ghost predicate ChunksOk(chunks: seq<seq<byte>>) {
      forall i :: 0 <= i < |chunks| ==> chunks[i] != [] && NulFree(chunks[i])
    }

    /** Everything not yet returned: buffered text, then what is still to arrive. */
    ghost function Pending(): seq<byte>
      requires Valid()
      reads this, buf
    {
      buf[cur..end] + Flatten(input)
    }

    constructor (max: nat, chunks: seq<seq<byte>>)
      requires max > 0 && ChunksOk(chunks)
      ensures Valid() && this.max == max && fresh(buf) && input == chunks && cur == end == 0
      ensures forall i :: 0 <= i <= max ==> buf[i] == 0
      ensures Pending() == Flatten(chunks)
    {
      this.max := max;
      buf := new byte[max + 1](_ => 0);
      cur, input, end, term := 0, chunks, 0, 0;
      new;
      Units(Flatten(chunks));
    }

    /** `read`: up to the room left after `at`, and at least one byte unless the stream has ended. */
    method Read(at: nat) returns (count: nat)
      requires buf.Length == max + 1 && at < max && ChunksOk(input)
      modifies this`input, buf
      ensures ChunksOk(input) && at + count <= max
      ensures Flatten(old(input)) == buf[at..at + count] + Flatten(input)
      ensures NulFree(buf[at..at + count])
      ensures count == 0 ==> old(input) == [] && input == []
      ensures old(input) != [] ==> count > 0
      ensures buf[..at] == old(buf[..at])
      ensures old(input) != [] && |old(input)[0]| <= max - at ==>
                input == old(input)[1..] && buf[at..at + count] == old(input)[0]
      ensures forall i :: 0 <= i <= max && !(at <= i < at + count) ==> buf[i] == old(buf[i])
    {
      if input == [] {
        return 0;
      }
      var chunk := input[0];
      count := Min(|chunk|, max - at);
      forall i | 0 <= i < count {
        buf[at + i] := chunk[i];
      }
      assert buf[at..at + count] == chunk[..count];
      assert chunk == chunk[..count] + chunk[count..];
      if count == |chunk| {
        input := input[1..];
      } else {
        input := [chunk[count..]] + input[1..];
        assert input[1..] == old(input)[1..];
        Assoc(chunk[..count], chunk[count..], Flatten(old(input)[1..]));
      }
    }

    /** Move the cursor over line ends. */
    method SkipEols()
      requires cur <= end < buf.Length && buf[end] == 0
      modifies this`cur
      ensures old(cur) <= cur <= end && AllEol(buf[old(cur)..cur])
      ensures !IsEol(buf[cur])
    {
      while IsEol(buf[cur])
        invariant old(cur) <= cur <= end && AllEol(buf[old(cur)..cur])
        decreases end - cur
      {
        cur := cur + 1;
      }
    }

    method FindNextEol() returns (eol: Option<nat>)
      requires cur <= end < buf.Length && buf[end] == 0 && NulFree(buf[cur..end])
      ensures eol == match EolIndex(buf[cur..end])
                     case None => None
                     case Some(i) => Some(cur + i)
    {
      ghost var text := buf[cur..end];
      if buf[cur] == 62 && buf[cur + 1] == 32 && buf[cur + 2] == 0 {
        assert text[0] == 62 && text[1] == 32;
        assert end == cur + 2;
        return Some(cur + 2);
      }
      assert text != PROMPT;
      var i := cur;
      while buf[i] != 0 && !IsEol(buf[i])
        invariant cur <= i <= end && NoEol(buf[cur..i])
        decreases end - i
      {
        i := i + 1;
      }
      assert text[..i - cur] == buf[cur..i];
      assert i < end ==> text[i - cur] == buf[i];
      EolFoundAt(text, i - cur);
      eol := if buf[i] == 0 then None else Some(i);
    }

    /**
     * The text after the cursor holds no complete line; `s` is what was pending at the call and
     * `before` what has been dropped from it.
     */
    ghost predicate Unfinished(s: seq<byte>, before: seq<byte>, spilled: bool)
      reads this, buf
    {
      && Valid() && AllEol(buf[..cur]) && NoEol(buf[cur..end])
      && s == before + (buf[..cur] + Pending()) && (spilled || AllEol(before))
    }

    /** The text after the cursor is the prompt or starts with a complete line, ending at `eol`. */
    ghost predicate Finished(s: seq<byte>, dropped: seq<byte>, spilled: bool, eol: nat)
      reads this, buf
    {
      && Valid() && s == dropped + Pending() && (spilled || AllEol(dropped))
      && cur < eol <= end && EolIndex(buf[cur..end]) == Some(eol - cur)
    }

    /** Look for the prompt or a complete line after skipping line ends. */
    method Scan(ghost s: seq<byte>, ghost dropped: seq<byte>, ghost spilled: bool) returns (eol: Option<nat>)
      requires Valid() && s == dropped + Pending() && (spilled || AllEol(dropped))
      modifies this`cur
      ensures Valid() && old(cur) <= cur <= end && end == old(end)
      ensures AllEol(buf[old(cur)..cur]) && s == dropped + buf[old(cur)..cur] + Pending()
      ensures buf[cur..end] == AfterEols(buf[old(cur)..end]) && (eol.Some? <==> EolIndex(buf[cur..end]).Some?)
      ensures match eol
              case Some(e) => Finished(s, dropped + buf[old(cur)..cur], spilled, e)
              case None => NoEol(buf[cur..end])
    {
      SkipEols();
      ghost var skipped, text := buf[old(cur)..cur], buf[cur..end];
      assert old(Pending()) == skipped + Pending() by {
        assert buf[old(cur)..end] == skipped + text;
        Assoc(skipped, text, Flatten(input));
      }
      Assoc(dropped, skipped, Pending());
      ScannedText(old(cur));
      eol := FindNextEol();
      if eol.None? {
        assert text[..FirstEol(text)] == text;
      } else if text != PROMPT {
        assert FirstEol(text) != 0 by {
          assert text[0] == buf[cur];
        }
      }
    }

    lemma ScannedText(start: nat)
      requires start <= cur <= end < buf.Length && AllEol(buf[start..cur]) && !IsEol(buf[cur])
      ensures buf[cur..end] == AfterEols(buf[start..end])
    {
      SubWindow(buf, start, end, 0, cur - start);
      SubWindow(buf, start, end, cur - start, end - start);
      AfterEolsAt(buf[start..end], cur - start);
    }

    lemma TextNonZero()
      requires Valid()
      ensures forall i :: cur <= i < end ==> buf[i] != 0
    {
      forall i | cur <= i < end ensures buf[i] != 0 {
        assert buf[cur..end][i - cur] == buf[i];
      }
    }

    /** Throw the buffered text away. */
    method Reset()
      requires max > 0 && buf.Length == max + 1 && buf[max] == 0 && ChunksOk(input)
      modifies this`cur, this`end, buf
      ensures Valid() && cur == end == 0 && Pending() == Flatten(input)
      ensures forall i :: 0 < i <= max ==> buf[i] == old(buf[i])
    {
      cur, end := 0, 0;
      buf[0] := 0;
      Units(Flatten(input));
    }

    /** Move an unfinished line up to the front of the buffer. */
    method Compact() returns (len: nat)
      requires Valid()
      modifies this`cur, this`end, buf
      ensures Valid() && cur == 0 && len == end == old(end - cur)
      ensures buf[cur..end] == old(buf[cur..end]) && Pending() == old(Pending())
      ensures forall i :: len < i <= max ==> buf[i] == old(buf[i])
    {
      ghost var text := buf[cur..end];
      TextNonZero();
      len := 0;
      while buf[cur + len] != 0
        invariant cur + len <= end
        decreases end - cur - len
      {
        len := len + 1;
      }
      forall i | 0 <= i <= len {
        buf[i] := buf[cur + i];
      }
      cur, end := 0, len;
      assert buf[..len] == text;
    }

    /** One read appended to the unfinished text. */
    method Append(pRead: nat, ghost s: seq<byte>, ghost before: seq<byte>, ghost spilled: bool)
      returns (count: nat)
      requires Unfinished(s, before, spilled) && pRead == end < max
      modifies this`input, this`end, buf
      ensures Valid() && AllEol(buf[..cur]) && end == pRead + count
      ensures s == before + (buf[..cur] + Pending())
      ensures count == 0 ==> Unfinished(s, before, spilled) && input == []
      ensures |Flatten(old(input))| == count + |Flatten(input)|
      ensures old(input) != [] && |old(input)[0]| <= max - pRead ==>
                input == old(input)[1..] && buf[cur..end] == old(buf[cur..end]) + old(input)[0]
      ensures forall i :: end < i <= max ==> buf[i] == old(buf[i])
    {
      ghost var front, text := buf[..cur], buf[cur..end];
      SplitAt(cur, end);
      count := Read(pRead);
      SplitAt(cur, end);
      assert buf[..cur] == front && buf[cur..end] == text;
      if count > 0 {
        ghost var arrived := buf[end..end + count];
        ArrayCat(buf, cur, end, end + count);
        Terminate(pRead + count);
        Assoc(text, arrived, Flatten(input));
        end := end + count;
      }
    }

    /** Write the terminator behind what has been read. */
    method Terminate(at: nat)
      requires at < buf.Length && cur <= at
      modifies buf
      ensures buf[at] == 0 && buf[..cur] == old(buf[..cur]) && buf[cur..at] == old(buf[cur..at])
      ensures forall i :: 0 <= i < buf.Length && i != at ==> buf[i] == old(buf[i])
    {
      buf[at] := 0;
    }

    /** The two parts of a prefix of the buffer are determined by it. */
    lemma SplitAt(k: nat, n: nat)
      requires k <= n <= buf.Length
      ensures buf[..n][..k] == buf[..k] && buf[..n][k..] == buf[k..n]
    {
    }

    /** Scan after a read: the prompt, a complete line, or still an unfinished one. */
    method Rescan(ghost s: seq<byte>, ghost before: seq<byte>, ghost spilled: bool)
      returns (eol: Option<nat>, ghost dropped: seq<byte>)
      requires Valid() && AllEol(buf[..cur]) && (spilled || AllEol(before))
      requires s == before + (buf[..cur] + Pending())
      modifies this`cur
      ensures end == old(end)
      ensures cur <= end < buf.Length && old(cur) <= end
      ensures buf[cur..end] == AfterEols(buf[old(cur)..end]) && (eol.Some? <==> EolIndex(buf[cur..end]).Some?)
      ensures match eol
              case Some(e) => Finished(s, dropped, spilled, e)
              case None => Unfinished(s, before, spilled)
    {
      ghost var front := buf[..cur];
      Assoc(before, front, Pending());
      eol := Scan(s, before + front, spilled);
      ghost var skipped := buf[old(cur)..cur];
      dropped := before + front + skipped;
      assert buf[..cur] == front + skipped;
      Assoc(before, front, skipped);
      Assoc(before, front + skipped, Pending());
    }

    /**
     * Return the next line. For every stream, every way it arrives and every state of the buffer: what
     * was pending is some dropped bytes, then a text that begins with the returned line, then what is
     * still to arrive. Only line ends are dropped, unless a line and the line ends before it fill the
     * buffer. After a line the rest of the text stays pending and the cursor is within the text;
     * after the prompt the cursor is past the terminator and what the buffer holds there, left from
     * earlier reads, is pending next.
     */
    method ReadLine() returns (line: Option<seq<byte>>, ghost dropped: seq<byte>, ghost text: seq<byte>)
      requires Valid()
      modifies this, buf
      ensures Sound()
      ensures AllEol(dropped) || !Short(old(Pending()), max)
      ensures line.None? ==> Valid() && NoEol(text) && old(Pending()) == dropped + (text + [])
      ensures line.Some? ==> old(Pending()) == dropped + (text + Flatten(input)) && Taken(line.value, text)
      ensures line.Some? ==> Arrived(Track(old(buf[cur..end]), old(input), old(end), old(buf[..]), 0), line.value, text)
      ensures Ready(old(buf[cur..end])) || OneRead(old(buf[cur..end]), old(input), max) ==> line.Some?
    {
      ghost var start := Track(buf[cur..end], input, end, buf[..], 0);
      var eol;
      ghost var spilled, track;
      eol, dropped, spilled, track := Fetch(start);
      text := buf[cur..end];
      line := None;
      if eol.Some? {
        var l := Finish(eol.value, track, start);
        line := Some(l);
      }
    }

    method Finish(eol: nat, ghost track: Track, ghost start: Track) returns (line: seq<byte>)
      requires Valid() && cur < eol <= end && EolIndex(buf[cur..end]) == Some(eol - cur)
      requires Tracks(track, true, false) && track.(gone := 0) == start
      modifies this`cur, this`end, this`term, buf
      ensures Taken(line, old(buf[cur..end])) && Arrived(start, line, old(buf[cur..end]))
    {
      Tracked(track);
      line := CutTracked(eol, start);
    }

    /**
     * The line has been taken off the text: it is what the text begins with. After a line the rest of the
     * text stays pending and the cursor is within the text; after the prompt the cursor is past the
     * terminator and what the buffer holds there is pending next.
     */
    ghost predicate Taken(line: seq<byte>, text: seq<byte>)
      reads this, buf
    {
      && Sound() && EolIndex(text).Some? && line == text[..EolIndex(text).value] != []
      && term <= max && buf[term] == 0 && (cur <= term <==> text != PROMPT) && cur > 0 && buf[cur - 1] == 0
      && (if text == PROMPT then
            && line == PROMPT && cur == term + 1
            && (term < max ==> Valid() && Pending() == UpToNul(buf[term + 1..]) + Flatten(input))
          else
            Valid() && end == term && Pending() == text[|line| + 1..] + Flatten(input))
    }

    /** Cut the line off, with what the records say about where it lay. */
    method CutTracked(eol: nat, ghost t: Track) returns (line: seq<byte>)
      requires Valid() && cur < eol <= end && EolIndex(buf[cur..end]) == Some(eol - cur) && Located(t)
      modifies this`cur, this`end, this`term, buf
      ensures Taken(line, old(buf[cur..end])) && Arrived(t, line, old(buf[cur..end]))
    {
      ghost var text := buf[cur..end];
      line := CutLine(eol);
      assert cur == max + 1 <==> text == PROMPT && term == max;
    }

    method CutLine(eol: nat) returns (line: seq<byte>)
      requires Valid() && cur < eol <= end && EolIndex(buf[cur..end]) == Some(eol - cur)
      modifies this`cur, this`end, this`term, buf
      ensures Taken(line, old(buf[cur..end])) && cur == eol + 1 && term == old(end)
      ensures forall i :: 0 <= i <= max && i != eol ==> buf[i] == old(buf[i])
    {
      var l := Cut(eol);
      line := l.value;
    }

    /** What the records kept while reading say once a line has been found. */
    lemma Tracked(t: Track)
      requires Tracks(t, true, false)
      ensures Located(t.(gone := 0))
    {
      TermLastIff(max, Ready(t.was), t.end, t.Kept(), t.Got(input), end);
    }

    /** Where the text lies in which a line has been found. */
    ghost predicate Located(t: Track)
      reads this, buf
    {
      && |t.cells| == buf.Length == max + 1 && cur <= end <= max && t.Got(input) >= 0
      && TermAt(max, Ready(t.was), t.end, t.Kept(), t.Got(input), end)
      && (Ready(t.was) ==>
            && input == t.chunks && buf[cur..end] == AfterEols(t.was)
            && forall i :: 0 <= i <= max ==> buf[i] == t.cells[i])
      && (OneRead(t.was, t.chunks, max) ==>
            input == t.chunks[1..] && buf[cur..end] == AfterEols(AfterEols(t.was) + t.chunks[0]))
      && (t.Kept() + t.Got(input) <= max ==> forall i :: end < i <= max ==> buf[i] == t.cells[i])
      && (end == max <==> if Ready(t.was) then t.end == max else Multiple(max, t.Kept() + t.Got(input)))
    }

    /** The records against the state: `found` when a line has been found, `ended` with the stream. */
    ghost predicate Tracks(t: Track, found: bool, ended: bool)
      reads this, buf
    {
      && max > 0 && buf.Length == |t.cells| == max + 1 && cur <= end <= max
      && |Flatten(input)| <= |Flatten(t.chunks)|
      && (if Ready(t.was) then
            && found && input == t.chunks && end == t.end && buf[cur..end] == AfterEols(t.was)
            && forall i :: 0 <= i <= max ==> buf[i] == t.cells[i]
          else
            && (!ended ==> Multiple(max, t.gone) && t.gone + end == t.Kept() + t.Got(input))
            && (found ==> t.Got(input) > 0 && end > 0)
            && (t.gone == 0 ==> forall i :: end < i <= max ==> buf[i] == t.cells[i]))
      && (OneRead(t.was, t.chunks, max) ==>
            && !ended
            && if found then input == t.chunks[1..] && buf[cur..end] == AfterEols(AfterEols(t.was) + t.chunks[0])
               else input == t.chunks && buf[cur..end] == AfterEols(t.was) && t.gone == 0)
    }

    /**
     * How what was buffered and what arrived decide where the line lies: nothing is read if a line is
     * there; one read is enough if it brings one; the terminator is where the bytes kept and read, modulo
     * the buffer's size, end; the cells behind it are as they were unless a full buffer was emptied; and
     * the cursor leaves the buffer exactly for a prompt at its very end.
     */
    ghost predicate Arrived(t: Track, line: seq<byte>, text: seq<byte>)
      reads this, buf
    {
      && |t.cells| == buf.Length == max + 1 && t.Got(input) >= 0
      && TermAt(max, Ready(t.was), t.end, t.Kept(), t.Got(input), term)
      && cur + |text| == term + |line| + 1
      && (Ready(t.was) ==>
            && input == t.chunks && text == AfterEols(t.was)
            && forall i :: 0 <= i <= max && i != cur - 1 ==> buf[i] == t.cells[i])
      && (OneRead(t.was, t.chunks, max) ==>
            input == t.chunks[1..] && text == AfterEols(AfterEols(t.was) + t.chunks[0]))
      && (t.Kept() + t.Got(input) <= max ==> forall i :: term < i <= max ==> buf[i] == t.cells[i])
      && (cur == max + 1 <==>
            text == PROMPT && if Ready(t.was) then t.end == max else Multiple(max, t.Kept() + t.Got(input)))
    }

    /** The reading loop: until there is a line to return or the stream has ended. */
    method Fetch(ghost start: Track)
      returns (eol: Option<nat>, ghost dropped: seq<byte>, ghost spilled: bool, ghost track: Track)
      requires Valid() && start == Track(buf[cur..end], input, end, buf[..], 0)
      modifies this, buf
      ensures (spilled || AllEol(dropped)) && (spilled ==> !Short(old(Pending()), max))
      ensures match eol
              case Some(e) => Finished(old(Pending()), dropped, spilled, e)
              case None => Valid() && input == [] && NoEol(buf[cur..end])
                           && old(Pending()) == dropped + (buf[cur..end] + [])
      ensures track.(gone := 0) == start && Tracks(track, eol.Some?, eol.None?)
      ensures Ready(start.was) || OneRead(start.was, start.chunks, max) ==> eol.Some?
    {
      ghost var s := Pending();
      spilled, track := false, start;
      var pRead, ended := 0, false;
      ghost var before;
      eol, pRead, before, dropped := Start();
      while eol.None? && !ended
        invariant eol.None? ==> Unfinished(s, before, spilled) && (!ended ==> pRead == end)
        invariant eol.Some? ==> Finished(s, dropped, spilled, eol.value) && !ended
        invariant ended ==> input == []
        invariant spilled ==> !Short(s, max)
        invariant track.(gone := 0) == start && Tracks(track, eol.Some?, ended)
        decreases eol.None?, !ended, |Flatten(input)|
      {
        eol, pRead, ended, before, dropped, spilled, track := ReadTracked(pRead, s, before, spilled, track);
      }
      if eol.None? {
        dropped := before + buf[..cur];
        Assoc(before, buf[..cur], Pending());
      }
    }

    /** One turn of the reading loop, with the records brought up to date. */
    method ReadTracked(at: nat, ghost s: seq<byte>, ghost was: seq<byte>, ghost lost: bool, ghost so_far: Track)
      returns (eol: Option<nat>, pRead: nat, ended: bool,
               ghost before: seq<byte>, ghost dropped: seq<byte>, ghost spilled: bool, ghost track: Track)
      requires Unfinished(s, was, lost) && at == end && (lost ==> !Short(s, max))
      requires Tracks(so_far, false, false)
      modifies this, buf
      ensures spilled ==> !Short(s, max)
      ensures match eol
              case Some(e) => Finished(s, dropped, spilled, e) && !ended
              case None => Unfinished(s, before, spilled) && pRead == end
      ensures ended ==> input == []
      ensures !ended ==> |Flatten(input)| < |Flatten(old(input))|
      ensures track.(gone := 0) == so_far.(gone := 0) && Tracks(track, eol.Some?, ended)
    {
      track := so_far;
      if at == max {
        MultipleMore(max, track.gone);
        track := track.(gone := track.gone + max);
      }
      eol, pRead, ended, before, dropped, spilled := ReadMore(at, s, was, lost);
    }

    /** One turn of the reading loop. */
    method ReadMore(at: nat, ghost s: seq<byte>, ghost was: seq<byte>, ghost lost: bool)
      returns (eol: Option<nat>, pRead: nat, ended: bool,
               ghost before: seq<byte>, ghost dropped: seq<byte>, ghost spilled: bool)
      requires Unfinished(s, was, lost) && at == end && (lost ==> !Short(s, max))
      modifies this, buf
      ensures spilled ==> !Short(s, max)
      ensures match eol
              case Some(e) => Finished(s, dropped, spilled, e)
              case None => Unfinished(s, before, spilled) && pRead == end
      ensures ended ==> eol.None? && input == []
      ensures !ended ==> |Flatten(input)| < |Flatten(old(input))|
      ensures !ended ==> end <= max && end + |Flatten(input)| == (if at == max then 0 else at) + |Flatten(old(input))|
      ensures at < max ==> at <= end && forall i :: end < i <= max ==> buf[i] == old(buf[i])
      ensures old(input) != [] && |old(input)[0]| <= max - at ==>
                && !ended && input == old(input)[1..] && cur <= end < buf.Length
                && buf[cur..end] == AfterEols(old(buf[cur..end]) + old(input)[0])
                && (eol.Some? <==> EolIndex(buf[cur..end]).Some?)
    {
      eol, pRead, before, dropped, spilled := None, at, was, [], lost;
      if max - pRead == 0 {
        before, spilled := Overflow(s, before, spilled);
        pRead := 0;
      }
      var count := Append(pRead, s, before, spilled);
      ended := count == 0;
      if !ended {
        eol, dropped := Rescan(s, before, spilled);
        pRead := pRead + count;
      }
    }

    /**
     * Under the conditions on the stream: whatever the reads return, the line is the first of the
     * pending stream, and what is pending afterwards holds exactly the remaining lines; `None` means
     * that the stream ended with no complete line left.
     */
    method NextLine() returns (line: Option<seq<byte>>)
      requires Valid() && NoPrompt(Pending()) && Short(Pending(), max)
      modifies this, buf
      ensures Valid()
      ensures line.None? ==> Lines(old(Pending())) == []
      ensures line.Some? ==> Lines(old(Pending())) == [line.value] + Lines(Pending())
      ensures line.Some? ==> NoPrompt(Pending()) && Short(Pending(), max)
    {
      ghost var s := Pending();
      ghost var dropped, text;
      line, dropped, text := ReadLine();
      if line.None? {
        NothingToTake(s, dropped, text);
      } else {
        TakeFirst(s, dropped, text, Flatten(input), max);
      }
    }

    /** What `ReadLine` does before its first read. */
    method Start()
      returns (eol: Option<nat>, pRead: nat, ghost before: seq<byte>, ghost dropped: seq<byte>)
      requires Valid()
      modifies this, buf
      ensures input == old(input) && cur <= end < buf.Length
      ensures buf[cur..end] == AfterEols(old(buf[cur..end])) && (eol.Some? <==> EolIndex(buf[cur..end]).Some?)
      ensures eol.Some? ==> end == old(end) && forall i :: 0 <= i <= max ==> buf[i] == old(buf[i])
      ensures eol.None? ==> cur == 0 && forall i :: end < i <= max ==> buf[i] == old(buf[i])
      ensures match eol
              case Some(e) => Finished(old(Pending()), dropped, false, e)
              case None => Unfinished(old(Pending()), before, false) && pRead == end
    {
      ghost var s := Pending();
      eol, pRead, before, dropped := None, 0, [], [];
      Units(s);
      TextNonZero();
      if buf[cur] == 0 {
        assert cur == end;
        Reset();
      } else {
        eol := Scan(s, [], false);
        dropped := buf[old(cur)..cur];
        Units(dropped);
        if eol.None? {
          before := dropped;
          pRead := Compact();
        }
      }
      Units(Pending());
    }

    /** Throw a full buffer away: line ends only, unless a line and the ends before it fill it. */
    method Overflow(ghost s: seq<byte>, ghost before: seq<byte>, ghost spilled: bool)
      returns (ghost before': seq<byte>, ghost spilled': bool)
      requires Unfinished(s, before, spilled) && end == max && (spilled ==> !Short(s, max))
      modifies this`cur, this`end, buf
      ensures Unfinished(s, before', spilled') && end == 0 && (spilled' ==> !Short(s, max))
    {
      ghost var eols, partial := buf[..cur], buf[cur..end];
      spilled' := spilled || partial != [];
      before' := before + (eols + partial);
      if partial != [] {
        Spills(s, before, eols, partial, Flatten(input), max);
      } else {
        Units(eols);
      }
      Assoc(eols, partial, Flatten(input));
      Assoc(before, eols + partial, Flatten(input));
      Reset();
      Units(Pending());
    }

    /** Cut the line off at its end and step over it. */
    method Cut(eol: nat) returns (line: Option<seq<byte>>)
      requires Valid() && cur < eol <= end
      modifies this`cur, this`end, this`term, buf
      ensures Sound() && cur == eol + 1 && term == old(end) && buf[term] == 0
      ensures line == Some(old(buf[cur..end])[..eol - old(cur)])
      ensures buf[eol] == 0 && forall i :: 0 <= i <= max && i != eol ==> buf[i] == old(buf[i])
      ensures eol < old(end) ==> end == old(end)
      ensures eol < old(end) ==>
                Valid() && Pending() == old(buf[cur..end])[eol - old(cur) + 1..] + Flatten(input)
      ensures eol == old(end) ==> buf[..] == old(buf[..])
      ensures eol == old(end) < max ==> Valid() && Pending() == UpToNul(buf[cur..]) + Flatten(input)
    {
      ghost var text, i := buf[cur..end], eol - cur;
      SubWindow(buf, cur, end, 0, i);
      line := Some(buf[cur..eol]);
      term := end;
      buf[eol] := 0;
      cur := eol + 1;
      if eol < end {
        assert buf[cur..end] == text[i + 1..];
      } else if cur <= max {
        end := cur + |UpToNul(buf[cur..])|;
        assert buf[cur..][max - cur] == 0;
        assert buf[cur..][..end - cur] == buf[cur..end];
      }
    }
  }

  /**
   * Records of one call: the text buffered when it began, the chunks then to come, where the text ended
   * and what the cells held, and how many bytes have since been in buffers that were emptied.
   */
  datatype Track = Track(was: seq<byte>, chunks: seq<seq<byte>>, end: nat, cells: seq<byte>, gone: nat)
  {
    ghost function Kept(): nat {
      |AfterEols(was)|
    }

    ghost function Got(left: seq<seq<byte>>): int {
      |Flatten(chunks)| - |Flatten(left)|
    }
  }

  /** What is kept of the buffered text is not a line, but with the next chunk, which fits, it is. */
  ghost predicate OneRead(was: seq<byte>, chunks: seq<seq<byte>>, max: nat) {
    && !Ready(was) && chunks != [] && |AfterEols(was)| + |chunks[0]| <= max
    && Ready(AfterEols(was) + chunks[0])
  }

  lemma MultipleMore(m: nat, d: nat)
    requires m > 0 && Multiple(m, d)
    ensures Multiple(m, d + m)
  {
  }

  lemma {:induction false} EolFoundAt(text: seq<byte>, i: nat)
    requires i <= |text| && NoEol(text[..i]) && (i < |text| ==> IsEol(text[i]))
    ensures FirstEol(text) == i
  {
    if i == 0 {
    } else {
      assert text[..i][0] == text[0];
      assert text[1..][..i - 1] == text[..i][1..];
      EolFoundAt(text[1..], i - 1);
    }
  }

  /**
   * Chunk independence: however a stream is cut into reads, calling `ReadLine` until the stream ends
   * returns exactly the lines of the stream.
   */
  method ReadStream(max: nat, chunks: seq<seq<byte>>) returns (lines: seq<seq<byte>>)
    requires max > 0 && LineReader.ChunksOk(chunks)
    requires NoPrompt(Flatten(chunks)) && Short(Flatten(chunks), max)
    ensures lines == Lines(Flatten(chunks))
  {
    var r := new LineReader(max, chunks);
    lines := [];
    ghost var total := Lines(Flatten(chunks));
    Units(total);
    while true
      invariant r.Valid() && fresh(r) && fresh(r.buf) && r.max == max
      invariant NoPrompt(r.Pending()) && Short(r.Pending(), max)
      invariant lines + Lines(r.Pending()) == total
      decreases |Lines(r.Pending())|
    {
      var line := r.NextLine();
      if line.None? {
        Units(lines);
        return;
      }
      Assoc(lines, [line.value], Lines(r.Pending()));
      lines := lines + [line.value];
    }
  }

  // Two streams that go wrong ------------------------------------------------------------------

  const FIRST: seq<byte> := [65, 66, 10, 10, 79, 75, 13]
  const BRIM: seq<byte> := [65, 66, 67, 68, 13, 62, 32]

  /** A first read that fills the seven cells and holds a line: where the line lies. */
  method ReadFull(chunk: seq<byte>, more: seq<seq<byte>>, n: nat) returns (r: LineReader)
    requires LineReader.ChunksOk([chunk] + more) && |chunk| == 7 && 0 < n < 7
    requires NoEol(chunk[..n]) && IsEol(chunk[n])
    ensures fresh(r) && fresh(r.buf) && r.Valid() && r.max == 7 && r.input == more
    ensures r.cur == n + 1 && r.end == 7 && r.buf[n + 1..7] == chunk[n + 1..]
  {
    r := new LineReader(7, [chunk] + more);
    ghost var chunks := r.input;
    FirstChunk(chunk, more, n);
    assert r.buf[0..0] == [];
    ghost var dropped, text;
    var line;
    line, dropped, text := r.ReadLine();
    Brimful(r.term);
    CancelTail(r.buf[r.cur..r.end], chunk[n + 1..], Flatten(more));
  }

  lemma FirstChunk(chunk: seq<byte>, more: seq<seq<byte>>, n: nat)
    requires |chunk| == 7 && 0 < n < 7 && NoEol(chunk[..n]) && IsEol(chunk[n])
    ensures var chunks := [chunk] + more;
      && OneRead([], chunks, 7) && !Ready([]) && AfterEols(AfterEols([]) + chunks[0]) == chunk
      && chunks[1..] == more && |Flatten(chunks)| == 7 + |Flatten(more)|
      && EolIndex(chunk) == Some(n) && chunk != PROMPT
  {
    var chunks := [chunk] + more;
    assert chunk[..n][0] == chunk[0];
    Units(chunk);
    EolFoundAt(chunk, n);
    assert chunks[0] == chunk && chunks[1..] == more;
  }

  lemma Brimful(term: nat)
    requires 0 < term <= 7 && Multiple(7, 7 - term)
    ensures term == 7
  {
  }

  lemma CancelTail(a: seq<byte>, b: seq<byte>, c: seq<byte>)
    requires a + c == b + c && |a| == |b|
    ensures a == b
  {
    assert forall i :: 0 <= i < |a| ==> (a + c)[i] == a[i] && (b + c)[i] == b[i];
  }

  /**
   * The reads `AB\n\nOK\r`, `> ` and `1\r` into seven cells. The lines sent are AB, OK, the prompt and 1;
   * the fourth line returned is `OK1`, because the prompt leaves the cursor on what the first read left.
   */
  method StaleExample() returns (last: Option<seq<byte>>)
    ensures last == Some([79, 75, 49])
    ensures Lines([49, 13]) == [[49]]
  {
    var r := ReadFull(FIRST, [PROMPT, LAST], 2);
    TakeOk(r);
    TakePrompt(r);
    StaleLines(r.Pending());
    ghost var all := Lines(r.Pending());
    last := r.NextLine();
    assert last.Some? ==> all[0] == last.value;
    FirstLine([], [49], 13, []);
    Units([49 as byte] + [13]);
    assert [49, 13] == [] + ([49] + [13] + []);
    assert Lines([]) == [];
  }

  /** The second line is there already. */
  method TakeOk(r: LineReader)
    requires r.Valid() && r.max == 7 && r.cur == 3 && r.end == 7 && r.buf[3..7] == FIRST[3..]
    modifies r, r.buf
    ensures r.Valid() && r.cur == r.end == 7 && r.input == old(r.input)
    ensures r.buf[3] == 10 && r.buf[4] == 79 && r.buf[5] == 75 && r.buf[6] == 0
  {
    assert FIRST[3..] == [10, 79, 75, 13];
    assert r.buf[3] == r.buf[3..7][0] && r.buf[4] == r.buf[3..7][1] && r.buf[5] == r.buf[3..7][2];
    AfterEolsAt([10, 79, 75, 13], 1);
    assert [10, 79, 75, 13][1..] == [79, 75, 13];
    EolFoundAt([79, 75, 13], 2);
    ghost var dropped, text;
    var line;
    line, dropped, text := r.ReadLine();
  }

  /** The prompt arrives in a buffer of which it fills two cells. */
  method TakePrompt(r: LineReader)
    requires r.Valid() && r.max == 7 && r.cur == r.end == 7 && r.input == [PROMPT, LAST]
    requires r.buf[3] == 10 && r.buf[4] == 79 && r.buf[5] == 75 && r.buf[6] == 0
    modifies r, r.buf
    ensures r.Valid() && r.max == 7 && r.Pending() == [10, 79, 75] + [49, 13]
  {
    PromptChunk();
    assert r.buf[7..7] == [];
    ghost var dropped, text;
    var line;
    line, dropped, text := r.ReadLine();
    assert r.term == 2;
    StaleText(r.buf[3..]);
  }

  const LAST: seq<byte> := [49, 13]

  lemma PromptChunk()
    ensures var chunks := [PROMPT, LAST];
      && OneRead([], chunks, 7) && !Ready([]) && AfterEols(AfterEols([]) + chunks[0]) == PROMPT
      && chunks[1..] == [LAST] && |Flatten(chunks)| == 4 && Flatten([LAST]) == LAST
  {
    var chunks := [PROMPT, LAST];
    Units(LAST);
    assert chunks[1..] == [LAST] && [LAST][1..] == [];
    assert Flatten([LAST]) == LAST + Flatten([]);
    assert Flatten(chunks) == PROMPT + Flatten([LAST]);
    assert [] + PROMPT == PROMPT && AfterEols(PROMPT) == PROMPT;
  }

  lemma StaleText(cells: seq<byte>)
    requires |cells| == 5 && cells[0] == 10 && cells[1] == 79 && cells[2] == 75 && cells[3] == 0
    ensures UpToNul(cells) == [10, 79, 75]
  {
    var t := UpToNul(cells);
    assert |t| == 3;
  }

  lemma StaleLines(s: seq<byte>)
    requires s == [10, 79, 75] + [49, 13]
    ensures Lines(s) == [[79, 75, 49]] && NoPrompt(s) && Short(s, 7)
  {
    assert s == [10] + ([79, 75, 49] + [13] + []);
    FirstLine([10], [79, 75, 49], 13, []);
    assert Lines([]) == [];
  }

  /** The single read `ABCD\r> ` into seven cells: the second call leaves the cursor outside the buffer. */
  method BrimExample() returns (r: LineReader)
    ensures r.max == 7 && r.buf.Length == 8 && r.cur == 8
  {
    r := ReadFull(BRIM, [], 4);
    assert BRIM[5..] == PROMPT;
    assert AfterEols(PROMPT) == PROMPT;
    ghost var dropped, text;
    var line;
    line, dropped, text := r.ReadLine();
  }
}
