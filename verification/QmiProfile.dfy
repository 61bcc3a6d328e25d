/** The data-call profile as QMI fields: the start-network request and profile write/read-back. */
module QmiProfile {
  import opened Bytes
  import opened QmiTlv

  const BUFFER_SIZE: nat := 256
  const FRAME_HDR: nat := 13
  const OLD_SIZE: nat := 64

  /** A C string: its bytes without the terminator. */
  type CString = seq<byte>

  datatype Profile = Profile(
    apn: Option<CString>, user: Option<CString>, password: Option<CString>,
    auth: int, ipFamily: int, ipType: int, pdp: int)

  /** Storing an `int` into a one-byte field. */
  function Low8(x: int): byte {
    x % 256
  }

  /** One field, or none when there is no value for it. */
  function Field(kind: byte, value: Option<seq<byte>>): seq<Tlv> {
    if value.Some? then [Tlv(kind, value.value)] else []
  }

  function FieldSize(value: Option<seq<byte>>): nat {
    if value.Some? then TLV_HDR + |value.value| else 0
  }

  lemma FieldFacts(kind: byte, value: Option<seq<byte>>, k: byte)
    ensures |WireAll(Field(kind, value))| == FieldSize(value)
    ensures FirstOf(Field(kind, value), k) == if k == kind then value else None
  {
    if value.Some? {
      Units(Tlv(kind, value.value).Wire());
    }
  }

  // The framed message -------------------------------------------------------------------------

  /** Interface type, length, service header and transaction header. */
  function FrameHead(service: byte, tid: nat, len: nat): (h: seq<byte>)
    ensures |h| == FRAME_HDR - 4 && h[1] == (len + FRAME_HDR - 1) % 256
    ensures h[2] == (len + FRAME_HDR - 1) / 256 % 256
  {
    [1] + Le16(len + FRAME_HDR - 1) + [0, service, 0, 0] + Le16(tid)
  }

  /** Message kind and length of the fields. */
  function MessageHead(kind: nat, len: nat): (h: seq<byte>)
    ensures |h| == 4 && h[2] == len % 256 && h[3] == len / 256 % 256
  {
    Le16(kind) + Le16(len)
  }

  function Framed(service: byte, tid: nat, kind: nat, ts: seq<Tlv>): seq<byte> {
    var w := WireAll(ts);
    FrameHead(service, tid, |w|) + (MessageHead(kind, |w|) + w)
  }

  /** The part `GetTLV` is called on: message header and fields. */
  function MessagePart(msg: seq<byte>): seq<byte>
    requires |msg| >= FRAME_HDR - 4
  {
    msg[FRAME_HDR - 4..]
  }

  /**
   * The head byte by byte: interface type 1, length, no flags, service, no client id yet, transaction id and
   * message kind; the length field plus one is the size of the message, as the reader's check demands.
   */
  lemma FramingCheck(service: byte, tid: nat, kind: nat, ts: seq<Tlv>)
    requires |WireAll(ts)| + FRAME_HDR <= BUFFER_SIZE
    ensures var msg := Framed(service, tid, kind, ts);
      && |msg| == msg[1] + (msg[2] as int) * 256 + 1
      && |msg| >= FRAME_HDR && msg[0] == 1 && msg[4] == service && msg[3] == msg[5] == msg[6] == 0
      && msg[7] + (msg[8] as int) * 256 == tid % 0x1_0000 && msg[9] + (msg[10] as int) * 256 == kind % 0x1_0000
  {
    Le16ReadsBack(tid);
    Le16ReadsBack(kind);
  }

  lemma Le16ReadsBack(x: nat)
    ensures Le16(x)[0] + (Le16(x)[1] as int) * 256 == x % 0x1_0000
  {
    var q, r := x / 0x1_0000, x % 0x1_0000;
    assert x == 0x1_0000 * q + r;
    assert x / 256 == 256 * q + r / 256 && x % 256 == r % 256;
  }

  lemma LengthReadsBack(h: seq<byte>, len: nat)
    requires |h| == 4 && h[2] == len % 256 && h[3] == len / 256 % 256 && len < 0x1_0000
    ensures h[2] + (h[3] as int) * 256 == len
  {
  }

  lemma MessagePartIs(service: byte, tid: nat, kind: nat, ts: seq<Tlv>)
    requires |WireAll(ts)| < 0x1_0000
    ensures var w := WireAll(ts);
      var part := MessagePart(Framed(service, tid, kind, ts));
      && part == MessageHead(kind, |w|) + w
      && part[2] + (part[3] as int) * 256 == |w|
  {
    var w := WireAll(ts);
    var h := MessageHead(kind, |w|);
    DropFront(FrameHead(service, tid, |w|), h + w);
    LengthReadsBack(h, |w|);
    assert (h + w)[2] == h[2] && (h + w)[3] == h[3];
  }

  /** Looking a field up in a framed message finds the first of its kind, whole, or nothing. */
  lemma FramedLookup(service: byte, tid: nat, kind: nat, ts: seq<Tlv>, k: byte)
    requires AllFit(ts) && |WireAll(ts)| < 0x1_0000
    ensures var part := MessagePart(Framed(service, tid, kind, ts));
      var f := Lookup(part, 4, part[2] + (part[3] as int) * 256, k);
      match FirstOf(ts, k)
      case Some(v) => Holds(part, f, k, v)
      case None => f.Absent?
  {
    MessagePartIs(service, tid, kind, ts);
    LookupFinds(MessageHead(kind, |WireAll(ts)|), ts, k);
  }

  /** Put the headers in front of the composed fields and copy the message out of the buffer. */
  method Compose(c: Composer, service: byte, tid: nat, kind: nat) returns (msg: seq<byte>)
    requires c.Valid() && c.base == FRAME_HDR && c.buf.Length == BUFFER_SIZE
    modifies c.buf
    ensures msg == Framed(service, tid, kind, c.fields)
  {
    ghost var w := WireAll(c.fields);
    var head, message := FrameHead(service, tid, c.len), MessageHead(kind, c.len);
    c.Write(0, head);
    c.Write(|head|, message);
    assert c.buf[FRAME_HDR..FRAME_HDR + c.len] == w;
    msg := c.buf[..FRAME_HDR + c.len];
    c.Joined(0, |head|, FRAME_HDR, FRAME_HDR + c.len, head, message, w);
  }

  // Start network ------------------------------------------------------------------------------

  const CDMA_USER: CString := [99, 116, 110, 101, 116, 64, 109, 121, 99, 100, 109, 97, 46, 99, 110]
  const CDMA_PASSWORD: CString := [118, 110, 101, 116, 46, 109, 111, 98, 105]

  predicate Blank(s: Option<CString>) {
    s.None? || s.value == []
  }

  /** On CDMA an account without user and password gets the network's default one. */
  function Account(p: Profile, cdma: bool): Profile {
    if cdma && Blank(p.user) && Blank(p.password) then
      p.(user := Some(CDMA_USER), password := Some(CDMA_PASSWORD), auth := 2)
    else p
  }

  function StartApn(p: Profile, cdma: bool): Option<seq<byte>> {
    if cdma then None else p.apn
  }

  function AuthField(p: Profile): Option<seq<byte>> {
    if p.user.Some? && p.password.Some? then Some([Low8(p.auth)]) else None
  }

  function StartPdp(p: Profile, cdma: bool): Option<seq<byte>> {
    if p.pdp != 0 && !cdma then Some([Low8(p.pdp)]) else None
  }

  /** The field kinds used for user name, password and authentication protocol. */
  datatype Kinds = Kinds(user: byte, password: byte, auth: byte)

  const START_KINDS := Kinds(0x17, 0x18, 0x16)
  const MODIFY_KINDS := Kinds(0x1B, 0x1C, 0x1D)

  function AccountFields(k: Kinds, a: Profile): seq<Tlv> {
    Field(k.user, a.user) + Field(k.password, a.password) + Field(k.auth, AuthField(a))
  }

  function AccountSize(a: Profile): nat {
    FieldSize(a.user) + FieldSize(a.password) + FieldSize(AuthField(a))
  }

  function StartFields(p: Profile, cdma: bool): seq<Tlv> {
    Field(0x30, Some([if cdma then 2 else 1])) + Field(0x14, StartApn(p, cdma))
      + AccountFields(START_KINDS, Account(p, cdma))
      + Field(0x19, Some([Low8(p.ipFamily)])) + Field(0x31, StartPdp(p, cdma))
  }

  function StartSize(p: Profile, cdma: bool): nat {
    4 + FieldSize(StartApn(p, cdma)) + AccountSize(Account(p, cdma)) + 4 + FieldSize(StartPdp(p, cdma))
  }

  /** The composer of the start-network request: strings are copied with their terminator. */
  method WdsStartNwInterfaceReq(c: Composer, p: Profile, cdma: bool)
    requires c.Valid() && c.len == 0 && c.fields == []
    requires c.base + StartSize(p, cdma) <= c.buf.Length <= BUFFER_SIZE
    modifies c, c.buf
    ensures c.Valid() && c.fields == StartFields(p, cdma) && c.len == StartSize(p, cdma)
  {
    var account := p;
    if cdma && Blank(p.user) && Blank(p.password) {
      account := p.(user := Some(CDMA_USER), password := Some(CDMA_PASSWORD), auth := 2);
    }
    var tech: seq<byte> := [if cdma then 2 else 1];
    Units(Field(0x30, Some(tech)));
    PutIf(c, 0x30, Some(tech), false);
    PutIf(c, 0x14, StartApn(p, cdma), true);
    PutAccount(c, START_KINDS, account);
    PutFamily(c, p, cdma);
  }

  method PutFamily(c: Composer, p: Profile, cdma: bool)
    requires c.Valid() && c.base + c.len + 4 + FieldSize(StartPdp(p, cdma)) <= c.buf.Length <= BUFFER_SIZE
    modifies c, c.buf
    ensures c.Valid() && c.len == old(c.len) + 4 + FieldSize(StartPdp(p, cdma))
    ensures c.fields == old(c.fields) + Field(0x19, Some([Low8(p.ipFamily)])) + Field(0x31, StartPdp(p, cdma))
  {
    PutIf(c, 0x19, Some([Low8(p.ipFamily)]), false);
    PutIf(c, 0x31, StartPdp(p, cdma), false);
  }

  method PutAccount(c: Composer, k: Kinds, a: Profile)
    requires c.Valid()
    requires c.base + c.len + AccountSize(a) < c.buf.Length <= BUFFER_SIZE
             || (AuthField(a).Some? && c.base + c.len + AccountSize(a) <= c.buf.Length <= BUFFER_SIZE)
    modifies c, c.buf
    ensures c.Valid() && c.fields == old(c.fields) + AccountFields(k, a)
    ensures c.len == old(c.len) + AccountSize(a)
  {
    PutIf(c, k.user, a.user, true);
    PutIf(c, k.password, a.password, true);
    PutIf(c, k.auth, AuthField(a), false);
    Assoc(old(c.fields), Field(k.user, a.user), Field(k.password, a.password));
    Assoc(old(c.fields), Field(k.user, a.user) + Field(k.password, a.password), Field(k.auth, AuthField(a)));
  }

  method PutIf(c: Composer, kind: byte, value: Option<seq<byte>>, str: bool)
    requires c.Valid()
    requires c.base + c.len + FieldSize(value) < c.buf.Length <= BUFFER_SIZE
             || (!str && c.base + c.len + FieldSize(value) <= c.buf.Length <= BUFFER_SIZE)
    modifies c, c.buf
    ensures c.Valid() && c.fields == old(c.fields) + Field(kind, value)
    ensures c.len == old(c.len) + FieldSize(value)
  {
    if value.Some? {
      if str {
        c.PutString(kind, value.value);
      } else {
        c.Put(kind, value.value);
      }
    } else {
      Units(c.fields);
    }
  }

  function Ascii(s: string): seq<byte> {
    seq(|s|, i requires 0 <= i < |s| => s[i] as int % 256)
  }

  lemma DefaultAccount()
    ensures CDMA_USER == Ascii("ctnet@mycdma.cn") && CDMA_PASSWORD == Ascii("vnet.mobi")
  {
  }

  /**
   * What the request says about each kind of field, told from the profile; kinds it does not use are
   * absent. On CDMA there is no access point and no profile index, and a blank account is the default one.
   */
  function StartMeaning(p: Profile, cdma: bool, k: byte): Option<seq<byte>> {
    var blank := (p.user == None || p.user == Some([])) && (p.password == None || p.password == Some([]));
    if k == 0x30 then Some([if cdma then 2 else 1])
    else if k == 0x14 then if cdma then None else p.apn
    else if k == 0x17 then if cdma && blank then Some(Ascii("ctnet@mycdma.cn")) else p.user
    else if k == 0x18 then if cdma && blank then Some(Ascii("vnet.mobi")) else p.password
    else if k == 0x16 then
      if cdma && blank then Some([2])
      else if p.user.Some? && p.password.Some? then Some([p.auth % 256])
      else None
    else if k == 0x19 then Some([p.ipFamily % 256])
    else if k == 0x31 then if p.pdp == 0 || cdma then None else Some([p.pdp % 256])
    else None
  }

  lemma CatFit(a: seq<Tlv>, b: seq<Tlv>, m: nat, n: nat)
    requires AllFit(a) && AllFit(b) && |WireAll(a)| == m && |WireAll(b)| == n
    ensures AllFit(a + b) && |WireAll(a + b)| == m + n
  {
    WireAllAppend(a, b);
  }

  lemma FieldFit(kind: byte, value: Option<seq<byte>>)
    requires FieldSize(value) <= BUFFER_SIZE
    ensures AllFit(Field(kind, value)) && |WireAll(Field(kind, value))| == FieldSize(value)
  {
    FieldFacts(kind, value, 0);
  }

  lemma StartFieldsFit(p: Profile, cdma: bool)
    requires StartSize(p, cdma) <= BUFFER_SIZE
    ensures AllFit(StartFields(p, cdma))
    ensures |WireAll(StartFields(p, cdma))| == StartSize(p, cdma)
  {
    var a := Account(p, cdma);
    var tech, family: Option<seq<byte>> := Some([if cdma then 2 else 1]), Some([Low8(p.ipFamily)]);
    var apn, pdp := StartApn(p, cdma), StartPdp(p, cdma);
    var f1, f2, f3, f4, f5 := Field(0x30, tech), Field(0x14, apn), AccountFields(START_KINDS, a),
      Field(0x19, family), Field(0x31, pdp);
    FieldFit(0x30, tech);
    FieldFit(0x14, apn);
    AccountFit(START_KINDS, a);
    FieldFit(0x19, family);
    FieldFit(0x31, pdp);
    CatFit(f1, f2, 4, FieldSize(apn));
    CatFit(f1 + f2, f3, 4 + FieldSize(apn), AccountSize(a));
    CatFit(f1 + f2 + f3, f4, 4 + FieldSize(apn) + AccountSize(a), 4);
    CatFit(f1 + f2 + f3 + f4, f5, 8 + FieldSize(apn) + AccountSize(a), FieldSize(pdp));
  }

  lemma AccountFit(k: Kinds, a: Profile)
    requires AccountSize(a) <= BUFFER_SIZE
    ensures AllFit(AccountFields(k, a)) && |WireAll(AccountFields(k, a))| == AccountSize(a)
  {
    var f1, f2, f3 := Field(k.user, a.user), Field(k.password, a.password), Field(k.auth, AuthField(a));
    FieldFit(k.user, a.user);
    FieldFit(k.password, a.password);
    FieldFit(k.auth, AuthField(a));
    CatFit(f1, f2, FieldSize(a.user), FieldSize(a.password));
    CatFit(f1 + f2, f3, FieldSize(a.user) + FieldSize(a.password), FieldSize(AuthField(a)));
  }

  lemma AccountMeaning(kinds: Kinds, a: Profile, k: byte)
    requires kinds.user != kinds.password && kinds.user != kinds.auth && kinds.password != kinds.auth
    ensures FirstOf(AccountFields(kinds, a), k) ==
            if k == kinds.user then a.user
            else if k == kinds.password then a.password
            else if k == kinds.auth then AuthField(a)
            else None
  {
    var f1, f2, f3 := Field(kinds.user, a.user), Field(kinds.password, a.password), Field(kinds.auth, AuthField(a));
    FieldFacts(kinds.user, a.user, k);
    FieldFacts(kinds.password, a.password, k);
    FieldFacts(kinds.auth, AuthField(a), k);
    FirstOfAppend(f1, f2, k);
    FirstOfAppend(f1 + f2, f3, k);
  }

  lemma StartFieldsMeaning(p: Profile, cdma: bool, k: byte)
    ensures FirstOf(StartFields(p, cdma), k) == StartMeaning(p, cdma, k)
  {
    var a := Account(p, cdma);
    var f1, f2, f3, f4, f5 := Field(0x30, Some([if cdma then 2 else 1])), Field(0x14, StartApn(p, cdma)),
      AccountFields(START_KINDS, a), Field(0x19, Some([Low8(p.ipFamily)])), Field(0x31, StartPdp(p, cdma));
    FieldFacts(0x30, Some([if cdma then 2 else 1]), k);
    FieldFacts(0x14, StartApn(p, cdma), k);
    AccountMeaning(START_KINDS, a, k);
    FieldFacts(0x19, Some([Low8(p.ipFamily)]), k);
    FieldFacts(0x31, StartPdp(p, cdma), k);
    DefaultAccount();
    FirstOfAppend(f1, f2, k);
    FirstOfAppend(f1 + f2, f3, k);
    FirstOfAppend(f1 + f2 + f3, f4, k);
    FirstOfAppend(f1 + f2 + f3 + f4, f5, k);
  }

  /** Compose the whole start-network request in the 256-byte buffer. */
  method StartNetwork(p: Profile, cdma: bool, tid: nat) returns (msg: seq<byte>)
    requires FRAME_HDR + StartSize(p, cdma) <= BUFFER_SIZE
    ensures msg == Framed(0x01, tid, 0x0020, StartFields(p, cdma))
    ensures |msg| == FRAME_HDR + StartSize(p, cdma)
  {
    var c := new Composer(BUFFER_SIZE, FRAME_HDR);
    WdsStartNwInterfaceReq(c, p, cdma);
    msg := Compose(c, 0x01, tid, 0x0020);
    StartFieldsFit(p, cdma);
  }

  /**
   * Round trip: in the composed request every field looks up to exactly what was written for it and
   * every omitted or unknown field to nothing, although each string copy wrote one byte too many;
   * and the length field passes the reader's check.
   */
  lemma StartRoundTrip(p: Profile, cdma: bool, tid: nat, k: byte)
    requires FRAME_HDR + StartSize(p, cdma) <= BUFFER_SIZE
    ensures var msg := Framed(0x01, tid, 0x0020, StartFields(p, cdma));
      var part := MessagePart(msg);
      var f := Lookup(part, 4, part[2] + (part[3] as int) * 256, k);
      && |msg| == msg[1] + (msg[2] as int) * 256 + 1
      && msg[0] == 0x01 && msg[4] == 0x01 && msg[7] + (msg[8] as int) * 256 == tid % 0x1_0000
      && msg[9] == 0x20 && msg[10] == 0
      && match StartMeaning(p, cdma, k)
         case Some(v) => Holds(part, f, k, v)
         case None => f.Absent?
  {
    StartFieldsFit(p, cdma);
    StartFieldsMeaning(p, cdma, k);
    FramingCheck(0x01, tid, 0x0020, StartFields(p, cdma));
    FramedLookup(0x01, tid, 0x0020, StartFields(p, cdma), k);
  }

  // Profile write and read-back ----------------------------------------------------------------

  function ModifyFields(p: Profile): seq<Tlv> {
    Field(0x01, Some([0, Low8(p.pdp)])) + Field(0x11, Some([Low8(p.ipType)])) + Field(0x14, p.apn)
      + AccountFields(MODIFY_KINDS, p)
  }

  function ModifySize(p: Profile): nat {
    5 + 4 + FieldSize(p.apn) + AccountSize(p)
  }

  /** The composer of the modify-profile request; a last string needs room for its terminator. */
  method WdsModifyProfileSettingsReq(c: Composer, p: Profile)
    requires c.Valid() && c.len == 0 && c.fields == []
    requires c.base + ModifySize(p) < c.buf.Length <= BUFFER_SIZE
    modifies c, c.buf
    ensures c.Valid() && c.fields == ModifyFields(p) && c.len == ModifySize(p)
  {
    Units(Field(0x01, Some([0, Low8(p.pdp)])));
    PutIf(c, 0x01, Some([0, Low8(p.pdp)]), false);
    PutIf(c, 0x11, Some([Low8(p.ipType)]), false);
    PutIf(c, 0x14, p.apn, true);
    PutAccount(c, MODIFY_KINDS, p);
  }

  /** What the modify request says about each kind of field. */
  function ModifyMeaning(p: Profile, k: byte): Option<seq<byte>> {
    if k == 0x01 then Some([0, p.pdp % 256])
    else if k == 0x11 then Some([p.ipType % 256])
    else if k == 0x14 then p.apn
    else if k == 0x1B then p.user
    else if k == 0x1C then p.password
    else if k == 0x1D && p.user.Some? && p.password.Some? then Some([p.auth % 256])
    else None
  }

  lemma ModifyFieldsMeaning(p: Profile, k: byte)
    ensures FirstOf(ModifyFields(p), k) == ModifyMeaning(p, k)
  {
    var f1, f2, f3, f4 := Field(0x01, Some([0, Low8(p.pdp)])), Field(0x11, Some([Low8(p.ipType)])),
      Field(0x14, p.apn), AccountFields(MODIFY_KINDS, p);
    FieldFacts(0x01, Some([0, Low8(p.pdp)]), k);
    FieldFacts(0x11, Some([Low8(p.ipType)]), k);
    FieldFacts(0x14, p.apn, k);
    AccountMeaning(MODIFY_KINDS, p, k);
    FirstOfAppend(f1, f2, k);
    FirstOfAppend(f1 + f2, f3, k);
    FirstOfAppend(f1 + f2 + f3, f4, k);
  }

  lemma {:induction false} UpToNulOf(s: seq<byte>, rest: seq<byte>)
    requires NulFree(s)
    ensures UpToNul(s + [0] + rest) == s && UpToNul(s) == s
  {
    if s == [] {
    } else {
      assert (s + [0] + rest)[1..] == s[1..] + [0] + rest;
      UpToNulOf(s[1..], rest);
      assert [s[0]] + s[1..] == s;
    }
  }

  lemma {:induction false} UpToNulCut(s: seq<byte>, rest: seq<byte>)
    ensures UpToNul(s + [0] + rest) == UpToNul(s)
  {
    if s == [] {
    } else {
      assert (s + [0] + rest)[1..] == s[1..] + [0] + rest;
      UpToNulCut(s[1..], rest);
    }
  }

  /** `uchar2char`: copy what fits and terminate. */
  method Uchar2Char(dst: array<byte>, src: seq<byte>)
    requires dst.Length > 0
    modifies dst
    ensures UpToNul(dst[..]) == UpToNul(src[..Min(dst.Length - 1, |src|)])
  {
    var copy := Min(dst.Length - 1, |src|);
    forall i | 0 <= i < copy {
      dst[i] := src[i];
    }
    dst[copy] := 0;
    assert dst[..] == src[..copy] + [0] + dst[copy + 1..];
    UpToNulCut(src[..copy], dst[copy + 1..]);
  }

  /** The settings read back from the modem, as the next comparison sees them. */
  datatype Stored = Stored(apn: seq<byte>, user: seq<byte>, password: seq<byte>, auth: int, ipType: int)

  function OldString(v: Option<seq<byte>>): seq<byte> {
    if v.None? then [] else UpToNul(v.value[..Min(OLD_SIZE - 1, |v.value|)])
  }

  function OldByte(v: Option<seq<byte>>): int {
    if v.Some? && v.value != [] then v.value[0] else 0
  }

  function ReadBack(ts: seq<Tlv>): Stored {
    Stored(OldString(FirstOf(ts, 0x14)), OldString(FirstOf(ts, 0x1B)), OldString(FirstOf(ts, 0x1C)),
           OldByte(FirstOf(ts, 0x1D)), OldByte(FirstOf(ts, 0x11)))
  }

  /** The one-byte fields of a reply are not empty. */
  ghost predicate OneByteFields(ts: seq<Tlv>) {
    FirstOf(ts, 0x1D) != Some([]) && FirstOf(ts, 0x11) != Some([])
  }

  /**
   * The byte behind the header of the first field of a kind. The length is not looked at: for an empty
   * field it is the first byte of the next one, or the memory byte after the message.
   */
  function ByteBehind(part: seq<byte>, len: nat, k: byte, stale: byte): int {
    match Lookup(part, 4, len, k)
    case At(off) => if off + TLV_HDR < |part| then part[off + TLV_HDR] else stale
    case _ => 0
  }

  /** The field part of `requestGetProfile` on the bytes of a reply that carries `ts`. */
  method RequestGetProfile(part: seq<byte>, kind: nat, stale: byte, ghost ts: seq<Tlv>) returns (st: Stored)
    requires AllFit(ts) && |WireAll(ts)| < 0x1_0000
    requires part == MessageHead(kind, |WireAll(ts)|) + WireAll(ts)
    ensures st.apn == ReadBack(ts).apn && st.user == ReadBack(ts).user && st.password == ReadBack(ts).password
    ensures st.auth == ByteBehind(part, |WireAll(ts)|, 0x1D, stale)
    ensures st.ipType == ByteBehind(part, |WireAll(ts)|, 0x11, stale)
    ensures OneByteFields(ts) ==> st == ReadBack(ts)
  {
    var apn := GetString(part, kind, 0x14, ts);
    var user := GetString(part, kind, 0x1B, ts);
    var password := GetString(part, kind, 0x1C, ts);
    var auth := GetByte(part, kind, 0x1D, stale, ts);
    var ipType := GetByte(part, kind, 0x11, stale, ts);
    st := Stored(apn, user, password, auth, ipType);
  }

  lemma PartLookup(part: seq<byte>, kind: nat, k: byte, ts: seq<Tlv>)
    requires AllFit(ts) && |WireAll(ts)| < 0x1_0000
    requires part == MessageHead(kind, |WireAll(ts)|) + WireAll(ts)
    ensures |part| >= 4 && part[2] + (part[3] as int) * 256 == |WireAll(ts)|
    ensures match FirstOf(ts, k)
            case Some(v) => Holds(part, Lookup(part, 4, |WireAll(ts)|, k), k, v)
            case None => Lookup(part, 4, |WireAll(ts)|, k).Absent?
  {
    var h := MessageHead(kind, |WireAll(ts)|);
    LengthReadsBack(h, |WireAll(ts)|);
    LookupFinds(h, ts, k);
  }

  /** The value of the first field of a kind, as the bytes of the message hold it. */
  method GetValue(part: seq<byte>, kind: nat, k: byte, ghost ts: seq<Tlv>) returns (v: Option<seq<byte>>)
    requires AllFit(ts) && |WireAll(ts)| < 0x1_0000
    requires part == MessageHead(kind, |WireAll(ts)|) + WireAll(ts)
    ensures v == FirstOf(ts, k)
  {
    PartLookup(part, kind, k, ts);
    var f := GetTlv(part, k);
    ghost var first := FirstOf(ts, k);
    assert first.Some? ==> Holds(part, f, k, first.value);
    assert first.None? ==> f.Absent?;
    v := None;
    if f.At? {
      v := Some(part[f.off + TLV_HDR..f.off + TLV_HDR + TlvLen(part, f.off)]);
    }
  }

  method GetString(part: seq<byte>, kind: nat, k: byte, ghost ts: seq<Tlv>) returns (s: seq<byte>)
    requires AllFit(ts) && |WireAll(ts)| < 0x1_0000
    requires part == MessageHead(kind, |WireAll(ts)|) + WireAll(ts)
    ensures s == OldString(FirstOf(ts, k))
  {
    var v := GetValue(part, kind, k, ts);
    var dst := new byte[OLD_SIZE](_ => 0);
    assert UpToNul(dst[..]) == [];
    if v.Some? {
      Uchar2Char(dst, v.value);
    }
    s := UpToNul(dst[..]);
  }

  method GetByte(part: seq<byte>, kind: nat, k: byte, stale: byte, ghost ts: seq<Tlv>) returns (b: int)
    requires AllFit(ts) && |WireAll(ts)| < 0x1_0000
    requires part == MessageHead(kind, |WireAll(ts)|) + WireAll(ts)
    ensures b == ByteBehind(part, |WireAll(ts)|, k, stale)
    ensures FirstOf(ts, k) != Some([]) ==> b == OldByte(FirstOf(ts, k))
  {
    PartLookup(part, kind, k, ts);
    var f := GetTlv(part, k);
    b := 0;
    if f.At? {
      b := if f.off + TLV_HDR < |part| then part[f.off + TLV_HDR] else stale;
      ValueByte(part, f, k, FirstOf(ts, k).value);
    }
  }

  lemma ValueByte(part: seq<byte>, f: Found, k: byte, v: seq<byte>)
    requires Holds(part, f, k, v)
    ensures v != [] ==> f.off + TLV_HDR < |part| && part[f.off + TLV_HDR] == v[0]
  {
    if v != [] {
      assert part[f.off + TLV_HDR..f.off + TLV_HDR + |v|][0] == part[f.off + TLV_HDR];
    }
  }

  function OrEmpty(s: Option<CString>): seq<byte> {
    if s.Some? then s.value else []
  }

  /** The comparison in `requestSetProfile` that skips the write. */
  predicate NothingToSet(p: Profile, st: Stored) {
    && st.apn == OrEmpty(p.apn) && st.user == OrEmpty(p.user) && st.password == OrEmpty(p.password)
    && st.ipType == p.ipType && st.auth == p.auth
  }

  ghost predicate NulFreeStrings(p: Profile) {
    NulFree(OrEmpty(p.apn)) && NulFree(OrEmpty(p.user)) && NulFree(OrEmpty(p.password))
  }

  /** The modem gives back what was written, in any order and among anything else. */
  ghost predicate Echoes(ts: seq<Tlv>, p: Profile) {
    forall k :: k in {0x11, 0x14, 0x1B, 0x1C, 0x1D} ==> FirstOf(ts, k) == FirstOf(ModifyFields(p), k)
  }

  /** What fits the fields used to store and to remember a profile. */
  ghost predicate Representable(p: Profile) {
    && |OrEmpty(p.apn)| < OLD_SIZE && |OrEmpty(p.user)| < OLD_SIZE && |OrEmpty(p.password)| < OLD_SIZE
    && 0 <= p.ipType < 256
    && (if p.user.Some? && p.password.Some? then 0 <= p.auth < 256 else p.auth == 0)
  }

  /**
   * Write, read back, compare: nothing is left to set exactly when strings are at most 63 bytes
   * and the numbers fit their fields (an authentication protocol needs both user and password).
   */
  lemma ReadBackIff(p: Profile, ts: seq<Tlv>)
    requires NulFreeStrings(p) && Echoes(ts, p)
    ensures NothingToSet(p, ReadBack(ts)) <==> Representable(p)
  {
    EchoedBack(p, ts);
    OldStringIff(p.apn);
    OldStringIff(p.user);
    OldStringIff(p.password);
  }

  lemma EchoedBack(p: Profile, ts: seq<Tlv>)
    requires Echoes(ts, p)
    ensures ReadBack(ts) == Stored(OldString(p.apn), OldString(p.user), OldString(p.password),
                                   OldByte(AuthField(p)), Low8(p.ipType))
  {
    ModifyFieldsMeaning(p, 0x11);
    ModifyFieldsMeaning(p, 0x14);
    ModifyFieldsMeaning(p, 0x1B);
    ModifyFieldsMeaning(p, 0x1C);
    ModifyFieldsMeaning(p, 0x1D);
  }

  lemma OldStringIff(s: Option<CString>)
    requires NulFree(OrEmpty(s))
    ensures OldString(s) == OrEmpty(s) <==> |OrEmpty(s)| < OLD_SIZE
  {
    if s.Some? {
      var n := Min(OLD_SIZE - 1, |s.value|);
      UpToNulOf(s.value[..n], []);
      assert |s.value| < OLD_SIZE ==> s.value[..n] == s.value;
    }
  }

  // The whole exchange, on bytes ---------------------------------------------------------------

  /** What `requestSetProfile` does: refuse, skip, or send this request. */
  datatype SetResult = NoProfile | Unchanged | Written(request: seq<byte>)

  /** `requestSetProfile` against the settings remembered from the last read. */
  method RequestSetProfile(p: Profile, st: Stored, tid: nat) returns (r: SetResult)
    requires FRAME_HDR + ModifySize(p) < BUFFER_SIZE
    ensures r == if p.pdp == 0 then NoProfile
                 else if NothingToSet(p, st) then Unchanged
                 else Written(Framed(0x01, tid, 0x0028, ModifyFields(p)))
  {
    if p.pdp == 0 {
      return NoProfile;
    }
    if NothingToSet(p, st) {
      return Unchanged;
    }
    var c := new Composer(BUFFER_SIZE, FRAME_HDR);
    WdsModifyProfileSettingsReq(c, p);
    var msg := Compose(c, 0x01, tid, 0x0028);
    r := Written(msg);
  }

  /**
   * The modem's answer to a read after a write: the field bytes of the request as they came, with other
   * fields before and after them.
   */
  function StoredReply(request: seq<byte>, kind: nat, before: seq<Tlv>, after: seq<Tlv>): seq<byte>
    requires |request| >= FRAME_HDR
  {
    var body := WireAll(before) + (request[FRAME_HDR..] + WireAll(after));
    MessageHead(kind, |body|) + body
  }

  ghost predicate OtherKinds(ts: seq<Tlv>) {
    forall k :: k in {0x11, 0x14, 0x1B, 0x1C, 0x1D} ==> FirstOf(ts, k) == None
  }

  /** Such a reply is the fields before, those written and those after. */
  lemma ReplyFields(p: Profile, tid: nat, kind: nat, before: seq<Tlv>, after: seq<Tlv>)
    ensures var ts, w := before + (ModifyFields(p) + after), Framed(0x01, tid, 0x0028, ModifyFields(p));
      |w| >= FRAME_HDR && StoredReply(w, kind, before, after) == MessageHead(kind, |WireAll(ts)|) + WireAll(ts)
  {
    var fields := ModifyFields(p);
    var w := WireAll(fields);
    var front := FrameHead(0x01, tid, |w|) + MessageHead(0x0028, |w|);
    Assoc(FrameHead(0x01, tid, |w|), MessageHead(0x0028, |w|), w);
    DropFront(front, w);
    WireAllAppend(fields, after);
    WireAllAppend(before, fields + after);
  }

  lemma ReplyEchoes(p: Profile, before: seq<Tlv>, after: seq<Tlv>)
    requires OtherKinds(before) && OtherKinds(after)
    ensures var ts := before + (ModifyFields(p) + after);
      Echoes(ts, p) && OneByteFields(ts)
  {
    var ts := before + (ModifyFields(p) + after);
    forall k | k in {0x11, 0x14, 0x1B, 0x1C, 0x1D} ensures FirstOf(ts, k) == FirstOf(ModifyFields(p), k) {
      FirstOfAppend(before, ModifyFields(p) + after, k);
      FirstOfAppend(ModifyFields(p), after, k);
    }
    ModifyFieldsMeaning(p, 0x11);
    ModifyFieldsMeaning(p, 0x1D);
  }

  lemma ModifyFieldsFit(p: Profile)
    requires FRAME_HDR + ModifySize(p) < BUFFER_SIZE
    ensures AllFit(ModifyFields(p)) && |WireAll(ModifyFields(p))| == ModifySize(p)
  {
    var f1, f2, f3, f4 := Field(0x01, Some([0, Low8(p.pdp)])), Field(0x11, Some([Low8(p.ipType)])),
      Field(0x14, p.apn), AccountFields(MODIFY_KINDS, p);
    FieldFit(0x01, Some([0, Low8(p.pdp)]));
    FieldFit(0x11, Some([Low8(p.ipType)]));
    FieldFit(0x14, p.apn);
    AccountFit(MODIFY_KINDS, p);
    CatFit(f1, f2, 5, 4);
    CatFit(f1 + f2, f3, 9, FieldSize(p.apn));
    CatFit(f1 + f2 + f3, f4, 9 + FieldSize(p.apn), AccountSize(p));
  }

  /**
   * Write, read back and write again, on the bytes that go over the wire: the second write is skipped
   * exactly when the profile is representable, whatever other fields the modem adds.
   */
  method WriteReadWrite(p: Profile, st: Stored, tid: nat, kind: nat, stale: byte, before: seq<Tlv>, after: seq<Tlv>)
    returns (first: SetResult, second: SetResult)
    requires FRAME_HDR + ModifySize(p) < BUFFER_SIZE && NulFreeStrings(p)
    requires OtherKinds(before) && OtherKinds(after) && AllFit(before) && AllFit(after)
    requires |WireAll(before)| + ModifySize(p) + |WireAll(after)| < 0x1_0000
    ensures first.Written? ==> (second.Unchanged? <==> Representable(p))
    ensures !first.Written? ==> second == first
  {
    first := RequestSetProfile(p, st, tid);
    second := first;
    if first.Written? {
      ghost var ts := before + (ModifyFields(p) + after);
      ReplyFields(p, tid, kind, before, after);
      ReplyEchoes(p, before, after);
      ReplyFits(p, before, after);
      var reply := StoredReply(first.request, kind, before, after);
      var now := RequestGetProfile(reply, kind, stale, ts);
      ReadBackIff(p, ts);
      second := RequestSetProfile(p, now, tid + 1);
    }
  }

  lemma ReplyFits(p: Profile, before: seq<Tlv>, after: seq<Tlv>)
    requires FRAME_HDR + ModifySize(p) < BUFFER_SIZE && AllFit(before) && AllFit(after)
    ensures var ts := before + (ModifyFields(p) + after);
      AllFit(ts) && |WireAll(ts)| == |WireAll(before)| + ModifySize(p) + |WireAll(after)|
  {
    ModifyFieldsFit(p);
    WireAllAppend(ModifyFields(p), after);
    WireAllAppend(before, ModifyFields(p) + after);
  }
}
