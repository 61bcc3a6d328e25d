/** Type-length-value messages: composing them in a fixed buffer and looking fields up again. */
module QmiTlv {
  import opened Bytes

  const TLV_HDR: nat := 3

  datatype Tlv = Tlv(kind: byte, value: seq<byte>)
  {
    ghost predicate Fits() {
      |value| < 0x1_0000
    }

    function Wire(): seq<byte> {
      [kind] + Le16(|value|) + value
    }
  }

  function WireAll(ts: seq<Tlv>): seq<byte> {
    if ts == [] then [] else ts[0].Wire() + WireAll(ts[1..])
  }

  lemma {:induction false} WireAllAppend(a: seq<Tlv>, b: seq<Tlv>)
    ensures WireAll(a + b) == WireAll(a) + WireAll(b)
  {
    if a == [] {
      Units(b);
      Units(WireAll(b));
    } else {
      assert (a + b)[1..] == a[1..] + b;
      WireAllAppend(a[1..], b);
      Assoc(a[0].Wire(), WireAll(a[1..]), WireAll(b));
    }
  }

  lemma WireAllSnoc(a: seq<Tlv>, t: Tlv)
    ensures WireAll(a + [t]) == WireAll(a) + t.Wire()
  {
    WireAllAppend(a, [t]);
    Units(t.Wire());
  }

  // Lookup -------------------------------------------------------------------------------------

  /** The result of a lookup: where the field starts, nothing, or a read outside the message. */
  datatype Found = At(off: nat) | Absent | Overread

  function TlvLen(msg: seq<byte>, off: nat): nat
    requires off + TLV_HDR <= |msg|
  {
    msg[off + 1] + (msg[off + 2] as int) * 256
  }

  /**
   * `GetTLV` from `off` on, with `len` bytes left by its own 16-bit count, which wraps when a field
   * claims more than is left.
   */
  function Lookup(msg: seq<byte>, off: nat, len: nat, kind: nat): Found
    decreases |msg| - off
  {
    if len < TLV_HDR then Absent
    else if off + TLV_HDR > |msg| then Overread
    else if msg[off] == kind then At(off)
    else
      var n := TlvLen(msg, off) + TLV_HDR;
      if off + n > |msg| then
        if U16(len - n) < TLV_HDR then Absent else Overread
      else Lookup(msg, off + n, U16(len - n), kind)
  }

  /** The same for a position: the `n`-th field, counted from one. */
  function LookupNth(msg: seq<byte>, off: nat, len: nat, n: nat): Found
    decreases |msg| - off
  {
    if len < TLV_HDR then Absent
    else if off + TLV_HDR > |msg| then Overread
    else if n == 1 then At(off)
    else
      var size := TlvLen(msg, off) + TLV_HDR;
      if off + size > |msg| then
        if U16(len - size) < TLV_HDR then Absent else Overread
      else LookupNth(msg, off + size, U16(len - size), if n == 0 then 0 else n - 1)
  }

  /** Types above this are positions. */
  const BY_POSITION: nat := 0x1000

  function Sought(msg: seq<byte>, off: nat, len: nat, kind: nat, passed: nat): Found {
    if kind <= BY_POSITION then Lookup(msg, off, len, kind)
    else LookupNth(msg, off, len, if kind < BY_POSITION + passed then 0 else kind - BY_POSITION - passed)
  }

  method GetTlv(msg: seq<byte>, kind: nat) returns (r: Found)
    requires |msg| >= 4
    ensures var len := msg[2] + (msg[3] as int) * 256;
      r == if kind <= BY_POSITION then Lookup(msg, 4, len, kind) else LookupNth(msg, 4, len, kind - BY_POSITION)
  {
    var len: nat := msg[2] + (msg[3] as int) * 256;
    var off, found := 4, 0;
    while len >= TLV_HDR
      invariant Sought(msg, off, len, kind, found) == Sought(msg, 4, msg[2] + (msg[3] as int) * 256, kind, 0)
      decreases |msg| - off
    {
      if off + TLV_HDR > |msg| {
        return Overread;
      }
      found := found + 1;
      if kind > BY_POSITION {
        if found + BY_POSITION == kind {
          return At(off);
        }
      } else if msg[off] == kind {
        return At(off);
      }
      var n := TlvLen(msg, off) + TLV_HDR;
      len := U16(len - n);
      if off + n > |msg| {
        return if len < TLV_HDR then Absent else Overread;
      }
      off := off + n;
    }
    r := Absent;
  }

  // On any message -----------------------------------------------------------------------------

  /** Where the `n`-th header starts, going by what the lengths claim, if those before it can be read. */
  function HeaderAt(msg: seq<byte>, n: nat): Option<nat> {
    if n == 0 then Some(4)
    else
      var p := HeaderAt(msg, n - 1);
      if p.None? || p.value + TLV_HDR > |msg| then None
      else Some(p.value + TLV_HDR + msg[p.value + 1] + (msg[p.value + 2] as int) * 256)
  }

  /** What the 16-bit count says is left at `p`: the length less the distance, whatever that is. */
  function LeftAt(len: nat, p: nat): nat {
    (len + 4 - p) % 0x1_0000
  }

  /** Header `i` is the one sought: by its position, counted from one, or by its type. */
  predicate Hit(kind: nat, i: nat, k: byte) {
    if kind > BY_POSITION then i + 1 + BY_POSITION == kind else k == kind
  }

  /** The lookup goes on from each of the first `n` headers: there is enough left, and no match. */
  ghost predicate Passes(msg: seq<byte>, len: nat, kind: nat, n: nat) {
    forall i: nat :: i < n ==> GoesBy(msg, len, kind, i)
  }

  ghost predicate GoesBy(msg: seq<byte>, len: nat, kind: nat, i: nat) {
    var p := HeaderAt(msg, i);
    p.Some? && p.value + TLV_HDR <= |msg| && LeftAt(len, p.value) >= TLV_HDR && !Hit(kind, i, msg[p.value])
  }

  /** The lookup ends at header `n`: with too little left, outside the message, or with a match. */
  ghost predicate EndsAt(msg: seq<byte>, len: nat, kind: nat, n: nat, r: Found) {
    var p := HeaderAt(msg, n);
    && p.Some? && Passes(msg, len, kind, n)
    && match r
       case Absent => LeftAt(len, p.value) < TLV_HDR
       case Overread => LeftAt(len, p.value) >= TLV_HDR && p.value + TLV_HDR > |msg|
       case At(off) =>
         off == p.value && LeftAt(len, off) >= TLV_HDR && off + TLV_HDR <= |msg| && Hit(kind, n, msg[off])
  }

  lemma LeftNext(len: nat, p: nat, n: nat)
    ensures U16(LeftAt(len, p) - n) == LeftAt(len, p + n)
  {
    var a := len + 4 - p;
    var q := a / 0x1_0000;
    assert a % 0x1_0000 - n == (a - n) - 0x1_0000 * q;
    Shifted(a - n, q);
  }

  lemma Shifted(x: int, q: int)
    ensures (x - 0x1_0000 * q) % 0x1_0000 == x % 0x1_0000
  {
    var k, r := x / 0x1_0000, x % 0x1_0000;
    assert x - 0x1_0000 * q == 0x1_0000 * (k - q) + r;
  }

  lemma {:induction false} LookupWalks(msg: seq<byte>, len: nat, kind: nat, n: nat, p: nat)
    requires HeaderAt(msg, n) == Some(p) && Passes(msg, len, kind, n)
    ensures exists m: nat :: EndsAt(msg, len, kind, m, Sought(msg, p, LeftAt(len, p), kind, n))
    decreases |msg| - p
  {
    var left := LeftAt(len, p);
    assert BY_POSITION < kind <= n + BY_POSITION ==> GoesBy(msg, len, kind, kind - BY_POSITION - 1);
    if left < TLV_HDR || p + TLV_HDR > |msg| || Hit(kind, n, msg[p]) {
      assert EndsAt(msg, len, kind, n, Sought(msg, p, left, kind, n));
    } else {
      SoughtNext(msg, len, kind, n, p);
      assert GoesBy(msg, len, kind, n);
      LookupWalks(msg, len, kind, n + 1, p + TlvLen(msg, p) + TLV_HDR);
    }
  }

  lemma SoughtNext(msg: seq<byte>, len: nat, kind: nat, n: nat, p: nat)
    requires p + TLV_HDR <= |msg| && LeftAt(len, p) >= TLV_HDR && !Hit(kind, n, msg[p])
    requires kind > BY_POSITION ==> n + BY_POSITION < kind
    ensures var next := p + TlvLen(msg, p) + TLV_HDR;
      Sought(msg, p, LeftAt(len, p), kind, n) == Sought(msg, next, LeftAt(len, next), kind, n + 1)
  {
    var size := TlvLen(msg, p) + TLV_HDR;
    LeftNext(len, p, size);
    assert U16(LeftAt(len, p) - size) == LeftAt(len, p + size);
  }

  /** A lookup does not pass the header it ends at, */
  lemma EndsFirst(msg: seq<byte>, len: nat, kind: nat, m: nat, r: Found, n: nat)
    requires EndsAt(msg, len, kind, m, r) && Passes(msg, len, kind, n)
    ensures n <= m
  {
    assert m < n ==> GoesBy(msg, len, kind, m);
  }

  /** so there is one way only for it to end. */
  lemma EndsOnce(msg: seq<byte>, len: nat, kind: nat, m: nat, r: Found, n: nat, q: Found)
    requires EndsAt(msg, len, kind, m, r) && EndsAt(msg, len, kind, n, q)
    ensures m == n && r == q
  {
    EndsFirst(msg, len, kind, m, r, n);
    EndsFirst(msg, len, kind, n, q, m);
  }

  /**
   * `GetTLV` on every message, well-formed or not: it ends at the first header, going by what the lengths
   * claim, that matches, lies outside the message, or has too little left by a count that wraps.
   */
  lemma LookupMeaning(msg: seq<byte>, kind: nat, r: Found)
    requires |msg| >= 4
    ensures var len := msg[2] + (msg[3] as int) * 256;
      r == Sought(msg, 4, len, kind, 0) <==> exists n: nat :: EndsAt(msg, len, kind, n, r)
  {
    var len := msg[2] + (msg[3] as int) * 256;
    LookupWalks(msg, len, kind, 0, 4);
    var m: nat :| EndsAt(msg, len, kind, m, Sought(msg, 4, len, kind, 0));
    if n: nat :| EndsAt(msg, len, kind, n, r) {
      EndsOnce(msg, len, kind, m, Sought(msg, 4, len, kind, 0), n, r);
    }
  }

  /** The value of the first field of a kind. */
  function FirstOf(ts: seq<Tlv>, kind: byte): Option<seq<byte>> {
    if ts == [] then None
    else if ts[0].kind == kind then Some(ts[0].value)
    else FirstOf(ts[1..], kind)
  }

  lemma {:induction false} FirstOfAppend(a: seq<Tlv>, b: seq<Tlv>, kind: byte)
    ensures FirstOf(a + b, kind) == if FirstOf(a, kind).Some? then FirstOf(a, kind) else FirstOf(b, kind)
  {
    if a == [] {
      Units(b);
    } else {
      assert (a + b)[1..] == a[1..] + b;
      FirstOfAppend(a[1..], b, kind);
    }
  }

  /** The field found holds exactly the value `v`. */
  ghost predicate Holds(msg: seq<byte>, f: Found, kind: byte, v: seq<byte>) {
    && f.At? && f.off + TLV_HDR + |v| <= |msg|
    && msg[f.off] == kind && TlvLen(msg, f.off) == |v|
    && msg[f.off + TLV_HDR..f.off + TLV_HDR + |v|] == v
  }

  ghost predicate AllFit(ts: seq<Tlv>) {
    forall i :: 0 <= i < |ts| ==> ts[i].Fits()
  }

  /**
   * When the counted bytes are exactly a list of fields, lookup finds the first of the kind with its
   * whole value, or nothing if there is none; it never strays.
   */
  lemma {:induction false} LookupFinds(front: seq<byte>, ts: seq<Tlv>, kind: byte)
    requires AllFit(ts) && |WireAll(ts)| < 0x1_0000
    ensures var msg := front + WireAll(ts);
      var f := Lookup(msg, |front|, |WireAll(ts)|, kind);
      match FirstOf(ts, kind)
      case Some(v) => Holds(msg, f, kind, v)
      case None => f.Absent?
    decreases ts
  {
    if ts == [] {
    } else {
      var msg := front + WireAll(ts);
      var t, w, rest := ts[0], ts[0].Wire(), WireAll(ts[1..]);
      FieldAt(front, t, rest);
      if t.kind != kind {
        LookupFinds(front + w, ts[1..], kind);
        Assoc(front, w, rest);
        LookupSkips(msg, |front|, |w|, |rest|, kind);
      }
    }
  }

  /** From `off` to its end the message is these fields, one after the other. */
  ghost predicate TiledFrom(msg: seq<byte>, off: nat, ts: seq<Tlv>)
    decreases ts
  {
    if ts == [] then off == |msg|
    else
      && Holds(msg, At(off), ts[0].kind, ts[0].value)
      && TiledFrom(msg, off + TLV_HDR + |ts[0].value|, ts[1..])
  }

  lemma {:induction false} WireAllTiles(front: seq<byte>, ts: seq<Tlv>)
    requires AllFit(ts)
    ensures TiledFrom(front + WireAll(ts), |front|, ts)
    decreases ts
  {
    if ts == [] {
    } else {
      var w, rest := ts[0].Wire(), WireAll(ts[1..]);
      FieldAt(front, ts[0], rest);
      Assoc(front, w, rest);
      WireAllTiles(front + w, ts[1..]);
      TiledCons(front + (w + rest), |front|, ts, |front + w|);
    }
  }

  lemma TiledCons(msg: seq<byte>, off: nat, ts: seq<Tlv>, next: nat)
    requires ts != [] && Holds(msg, At(off), ts[0].kind, ts[0].value)
    requires next == off + TLV_HDR + |ts[0].value| && TiledFrom(msg, next, ts[1..])
    ensures TiledFrom(msg, off, ts)
  {
  }

  /** By position: the `n`-th field with its whole value, or nothing if there are not that many. */
  lemma NthFinds(front: seq<byte>, ts: seq<Tlv>, n: nat)
    requires AllFit(ts) && |WireAll(ts)| < 0x1_0000 && n > 0
    ensures var msg := front + WireAll(ts);
      NthIs(msg, LookupNth(msg, |front|, |WireAll(ts)|, n), ts, n)
  {
    WireAllTiles(front, ts);
    NthTiled(front + WireAll(ts), |front|, ts, n);
  }

  lemma {:induction false} NthTiled(msg: seq<byte>, off: nat, ts: seq<Tlv>, n: nat)
    requires TiledFrom(msg, off, ts) && n > 0 && |msg| - off < 0x1_0000
    ensures off <= |msg| && NthIs(msg, LookupNth(msg, off, |msg| - off, n), ts, n)
    decreases ts
  {
    if ts == [] {
    } else {
      var size := TLV_HDR + |ts[0].value|;
      NthTiled(msg, off + size, ts[1..], if n == 1 then 1 else n - 1);
      if n > 1 {
        NthSkips(msg, off, size, |msg| - off - size, n);
        NthIsTail(msg, LookupNth(msg, off + size, |msg| - off - size, n - 1), ts, n);
      }
    }
  }

  ghost predicate NthIs(msg: seq<byte>, f: Found, ts: seq<Tlv>, n: nat)
    requires n > 0
  {
    if n <= |ts| then Holds(msg, f, ts[n - 1].kind, ts[n - 1].value) else f.Absent?
  }

  lemma NthIsTail(msg: seq<byte>, f: Found, ts: seq<Tlv>, n: nat)
    requires n > 1 && ts != [] && NthIs(msg, f, ts[1..], n - 1)
    ensures NthIs(msg, f, ts, n)
  {
    assert n <= |ts| ==> ts[1..][n - 2] == ts[n - 1];
  }

  lemma NthSkips(msg: seq<byte>, off: nat, n: nat, left: nat, k: nat)
    requires off + n + left == |msg| && n + left < 0x1_0000 && k > 1
    requires off + TLV_HDR <= |msg| && n == TlvLen(msg, off) + TLV_HDR
    ensures LookupNth(msg, off, n + left, k) == LookupNth(msg, off + n, left, k - 1)
  {
  }

  lemma LookupSkips(msg: seq<byte>, off: nat, n: nat, left: nat, kind: byte)
    requires off + n + left == |msg| && n + left < 0x1_0000
    requires off + TLV_HDR <= |msg| && msg[off] != kind && n == TlvLen(msg, off) + TLV_HDR
    ensures Lookup(msg, off, n + left, kind) == Lookup(msg, off + n, left, kind)
  {
  }

  lemma FieldAt(front: seq<byte>, t: Tlv, rest: seq<byte>)
    requires t.Fits()
    ensures var msg := front + (t.Wire() + rest);
      && |t.Wire()| == TLV_HDR + |t.value|
      && Holds(msg, At(|front|), t.kind, t.value)
  {
    var w := t.Wire();
    Middle(front, w, rest);
    assert w[0] == t.kind && w[1] == |t.value| % 256 && w[2] == |t.value| / 256;
    assert w[TLV_HDR..TLV_HDR + |t.value|] == t.value;
    var msg, off := front + (w + rest), |front|;
    assert msg[off + 0] == w[0] && msg[off + 1] == w[1] && msg[off + 2] == w[2];
  }

  // Composing ----------------------------------------------------------------------------------

  /** A buffer being filled with fields at a running offset. */
  class Composer {
    const buf: array<byte>
    const base: nat
    var len: nat
    ghost var fields: seq<Tlv>

    ghost predicate Valid()
      reads this, buf
    {
      && base + len <= buf.Length
      && buf[base..base + len] == WireAll(fields)
      && AllFit(fields)
    }

    constructor (size: nat, base: nat)
      requires base <= size
      ensures Valid() && fresh(buf) && buf.Length == size && this.base == base && len == 0 && fields == []
    {
      buf := new byte[size](_ => 0);
      this.base, len, fields := base, 0, [];
    }

    method Write(at: nat, bytes: seq<byte>)
      requires at + |bytes| <= buf.Length
      modifies buf
      ensures buf[at..at + |bytes|] == bytes
      ensures forall i :: 0 <= i <= at ==> buf[i..at] == old(buf[i..at])
      ensures forall i :: 0 <= i < at || at + |bytes| <= i < buf.Length ==> buf[i] == old(buf[i])
    {
      forall i | 0 <= i < |bytes| {
        buf[at + i] := bytes[i];
      }
    }

    /** Write one field header and value at the running offset. */
    method Put(kind: byte, value: seq<byte>)
      requires Valid() && |value| < 0x1_0000
      requires base + len + TLV_HDR + |value| <= buf.Length
      modifies this`len, this`fields, buf
      ensures Valid() && fields == old(fields) + [Tlv(kind, value)]
      ensures len == old(len) + TLV_HDR + |value|
    {
      var at := base + len;
      ghost var t := Tlv(kind, value);
      Write(at, [kind] + Le16(|value|) + value);
      Extended(at, t);
      len := len + TLV_HDR + |value|;
      fields := fields + [t];
    }

    lemma Extended(at: nat, t: Tlv)
      requires base <= at && at + TLV_HDR + |t.value| <= buf.Length && t.Fits() && AllFit(fields)
      requires buf[base..at] == WireAll(fields) && buf[at..at + TLV_HDR + |t.value|] == t.Wire()
      ensures buf[base..at + TLV_HDR + |t.value|] == WireAll(fields + [t]) && AllFit(fields + [t])
    {
      ArrayCat(buf, base, at, at + TLV_HDR + |t.value|);
      WireAllSnoc(fields, t);
    }

    lemma Joined(a: nat, b: nat, c: nat, d: nat, x: seq<byte>, y: seq<byte>, z: seq<byte>)
      requires a <= b <= c <= d <= buf.Length
      requires buf[a..b] == x && buf[b..c] == y && buf[c..d] == z
      ensures buf[a..d] == x + (y + z)
    {
      ArrayCat(buf, b, c, d);
      ArrayCat(buf, a, b, d);
    }

    /**
     * A string field: the copy also writes the terminating NUL, one byte past the field, where the
     * next field will start.
     */
    method PutString(kind: byte, s: seq<byte>)
      requires Valid() && |s| < 0x1_0000
      requires base + len + TLV_HDR + |s| < buf.Length
      modifies this`len, this`fields, buf
      ensures Valid() && fields == old(fields) + [Tlv(kind, s)]
      ensures len == old(len) + TLV_HDR + |s|
    {
      Put(kind, s);
      ghost var done := buf[base..base + len];
      buf[base + len] := 0;
      assert buf[base..base + len] == done;
    }
  }
}
