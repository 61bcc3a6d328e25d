/** The fold over the system-information fields that decides registration and radio family. */
module Registration {
  import opened Bytes
  import opened QmiTlv

  /**
   * One field: its kind, the first two bytes of its value (service status, or domain-valid flag and
   * domain) and, for the HDR kind, the personality flag and value.
   */
  datatype Info = Info(kind: byte, first: byte, second: byte, personalityValid: byte, personality: byte)
  {
    /** A service-status field that reports service. */
    predicate InService() {
      first == 0x02
    }

    /** A system-information field whose valid domain includes packet service. */
    predicate PacketDomain() {
      first == 0x01 && second / 2 % 2 == 1
    }

    predicate ReportsPs() {
      kind in {0x4B, 0x15, 0x16, 0x17, 0x18, 0x19, 0x25} && PacketDomain()
    }

    predicate ReportsLte() {
      (kind in {0x14, 0x4A} && InService()) || (kind == 0x19 && PacketDomain())
    }

    predicate ReportsCdma() {
      (kind in {0x10, 0x11} && InService()) || (kind in {0x15, 0x16} && PacketDomain())
    }

    /** An HDR field that names the eHRPD personality. */
    predicate Ehrpd() {
      kind == 0x16 && personalityValid == 0x01 && personality == 0x03
    }
  }

  datatype Outcome = Outcome(psAttached: bool, isLte: bool, isCdma: bool, hdrPersonality: int)

  /** The `switch` for one field. */
  function Step(o: Outcome, i: Info): Outcome {
    if i.kind == 0x10 || i.kind == 0x11 then
      if i.InService() then o.(isCdma := !o.isLte) else o
    else if i.kind == 0x14 || i.kind == 0x4A then
      if i.InService() then o.(isLte := true, isCdma := false) else o
    else if i.kind == 0x15 then
      if i.PacketDomain() then o.(psAttached := true, isCdma := !o.isLte) else o
    else if i.kind == 0x16 then
      var p := if i.PacketDomain() then o.(psAttached := true, isCdma := !o.isLte) else o;
      if p.psAttached && i.personalityValid == 0x01 && i.personality == 0x03 then p.(hdrPersonality := 2) else p
    else if i.kind == 0x19 then
      if i.PacketDomain() then o.(psAttached := true, isLte := true, isCdma := false) else o
    else if i.kind in {0x4B, 0x17, 0x18, 0x25} then
      if i.PacketDomain() then o.(psAttached := true) else o
    else o
  }

  function Fold(infos: seq<Info>): Outcome {
    if infos == [] then Outcome(false, false, false, 0)
    else Step(Fold(infos[..|infos| - 1]), infos[|infos| - 1])
  }

  // The loop, on bytes -------------------------------------------------------------------------

  /** How many bytes of a field's value the `switch` looks at. */
  function Decisive(kind: byte): nat {
    if kind in {0x10, 0x11, 0x14, 0x4A} then 1
    else if kind in {0x15, 0x17, 0x18, 0x19, 0x25, 0x4B} then 2
    else if kind == 0x16 then 12
    else 0
  }

  /** What the `switch` sees of a field of this kind whose value starts with `v`. */
  function Seen(kind: byte, v: seq<byte>): Info
    requires |v| == Decisive(kind)
  {
    Info(kind, if |v| > 0 then v[0] else 0, if |v| > 1 then v[1] else 0,
         if |v| > 10 then v[10] else 0, if |v| > 11 then v[11] else 0)
  }

  /** The field at `off` as the `switch` sees it, or `None` if that is not all inside the message. */
  function FieldSeen(msg: seq<byte>, off: nat): Option<Info> {
    if off + TLV_HDR > |msg| then None
    else
      var to := off + TLV_HDR + Decisive(msg[off]);
      if to > |msg| then None else Some(Seen(msg[off], msg[off + TLV_HDR..to]))
  }

  /**
   * The fields the loop goes over from `off` on, with `left` bytes left by its own count, which goes
   * negative when a field claims more than is left; `None` when it looks outside the message.
   */
  function Fields(msg: seq<byte>, off: nat, left: int): Option<seq<Info>>
    decreases |msg| - off
  {
    if left <= 0 then Some([])
    else
      var x := FieldSeen(msg, off);
      if x.None? then None
      else
        var n := TlvLen(msg, off) + TLV_HDR;
        Before([x.value], Fields(msg, off + n, left - n))
  }

  function Before(a: seq<Info>, rest: Option<seq<Info>>): Option<seq<Info>> {
    if rest.None? then None else Some(a + rest.value)
  }

  function FieldsOf(msg: seq<byte>): Option<seq<Info>>
    requires |msg| >= 4
  {
    Fields(msg, 4, msg[2] + (msg[3] as int) * 256)
  }

  /** The loop over a reply: a running pointer and the number of bytes left. */
  method RegistrationState(msg: seq<byte>) returns (r: Option<Outcome>)
    requires |msg| >= 4
    ensures r == if FieldsOf(msg).None? then None else Some(Fold(FieldsOf(msg).value))
  {
    var off: nat, remainingLen: int, o := 4, msg[2] + (msg[3] as int) * 256, Outcome(false, false, false, 0);
    ghost var seen := [];
    Joined([], Fields(msg, off, remainingLen));
    while remainingLen > 0
      invariant o == Fold(seen) && FieldsOf(msg) == Before(seen, Fields(msg, off, remainingLen))
      decreases |msg| - off
    {
      var x := FieldSeen(msg, off);
      if x.None? {
        return None;
      }
      o := Step(o, x.value);
      var n := TlvLen(msg, off) + TLV_HDR;
      remainingLen := remainingLen - n;
      off := off + n;
      BeforeTwice(seen, [x.value], Fields(msg, off, remainingLen));
      FoldSnoc(seen, x.value);
      seen := seen + [x.value];
    }
    Joined(seen, Some([]));
    r := Some(o);
  }

  lemma Joined(a: seq<Info>, rest: Option<seq<Info>>)
    ensures Before([], rest) == rest && Before(a, Some([])) == Some(a)
  {
    Units(a);
    if rest.Some? {
      Units(rest.value);
    }
  }

  lemma BeforeTwice(a: seq<Info>, b: seq<Info>, rest: Option<seq<Info>>)
    ensures Before(a, Before(b, rest)) == Before(a + b, rest)
  {
    if rest.Some? {
      Assoc(a, b, rest.value);
    }
  }

  lemma FoldSnoc(a: seq<Info>, x: Info)
    ensures Fold(a + [x]) == Step(Fold(a), x)
  {
    assert (a + [x])[..|a|] == a;
  }

  /** The value is long enough: one byte of status, two of domain, and for HDR the personality behind them. */
  predicate ValueFits(t: Tlv) {
    && (t.kind in {0x10, 0x11, 0x14, 0x4A} ==> |t.value| >= 1)
    && (t.kind in {0x15, 0x17, 0x18, 0x19, 0x25, 0x4B} ==> |t.value| >= 2)
    && (t.kind == 0x16 ==> |t.value| >= 12)
  }

  ghost predicate LongEnough(ts: seq<Tlv>) {
    forall i :: 0 <= i < |ts| ==> ValueFits(ts[i])
  }

  function InfoOf(t: Tlv): Info
    requires ValueFits(t)
  {
    Seen(t.kind, t.value[..Decisive(t.kind)])
  }

  function Infos(ts: seq<Tlv>): seq<Info>
    requires LongEnough(ts)
  {
    if ts == [] then [] else [InfoOf(ts[0])] + Infos(ts[1..])
  }

  /** On a message tiled by fields the loop goes over exactly these and never strays. */
  lemma {:induction false} FieldsTiled(msg: seq<byte>, off: nat, ts: seq<Tlv>)
    requires LongEnough(ts) && TiledFrom(msg, off, ts)
    ensures off <= |msg| && Fields(msg, off, |msg| - off) == Some(Infos(ts))
    decreases ts
  {
    if ts == [] {
    } else {
      var n := TLV_HDR + |ts[0].value|;
      FieldsTiled(msg, off + n, ts[1..]);
      FieldsAt(msg, off, ts[0], |msg| - off - n);
    }
  }

  /** A field in a message is what the loop sees first, and the loop goes on behind it. */
  lemma FieldsAt(msg: seq<byte>, off: nat, t: Tlv, left: nat)
    requires Holds(msg, At(off), t.kind, t.value) && ValueFits(t)
    ensures Fields(msg, off, TLV_HDR + |t.value| + left)
         == Before([InfoOf(t)], Fields(msg, off + TLV_HDR + |t.value|, left))
  {
    SubSlice(msg, off + TLV_HDR, off + TLV_HDR + |t.value|, 0, Decisive(t.kind));
    assert FieldSeen(msg, off) == Some(InfoOf(t));
  }

  /** A message with these fields. */
  ghost predicate Carries(msg: seq<byte>, ts: seq<Tlv>) {
    && AllFit(ts) && LongEnough(ts) && |msg| >= 4
    && msg[4..] == WireAll(ts) && msg[2] + (msg[3] as int) * 256 == |WireAll(ts)|
  }

  lemma CarriedFields(msg: seq<byte>, ts: seq<Tlv>)
    requires Carries(msg, ts)
    ensures FieldsOf(msg) == Some(Infos(ts))
  {
    var front := msg[..4];
    assert msg == front + WireAll(ts);
    WireAllTiles(front, ts);
    FieldsTiled(msg, 4, ts);
  }

  /** A service-status field of one of these kinds that says service, status 2. */
  ghost predicate TellsService(t: Tlv, kinds: set<byte>) {
    t.kind in kinds && |t.value| > 0 && t.value[0] == 2
  }

  /** A system-information field of one of these kinds whose domain is valid and includes packet service. */
  ghost predicate TellsPacket(t: Tlv, kinds: set<byte>) {
    t.kind in kinds && |t.value| > 1 && t.value[0] == 1 && t.value[1] % 4 in {2, 3}
  }

  /** An HDR field whose personality is valid and is eHRPD. */
  ghost predicate TellsEhrpd(t: Tlv) {
    t.kind == 0x16 && |t.value| > 11 && t.value[10] == 1 && t.value[11] == 3
  }

  const PACKET_KINDS: set<byte> := {0x15, 0x16, 0x17, 0x18, 0x19, 0x25, 0x4B}

  ghost predicate TellsLte(t: Tlv) {
    TellsService(t, {0x14, 0x4A}) || TellsPacket(t, {0x19})
  }

  ghost predicate TellsCdma(t: Tlv) {
    TellsService(t, {0x10, 0x11}) || TellsPacket(t, {0x15, 0x16})
  }

  lemma InfoMeaning(t: Tlv)
    requires ValueFits(t)
    ensures var x := InfoOf(t);
      && (x.ReportsPs() <==> TellsPacket(t, PACKET_KINDS)) && (x.Ehrpd() <==> TellsEhrpd(t))
      && (x.ReportsLte() <==> TellsLte(t)) && (x.ReportsCdma() <==> TellsCdma(t))
  {
  }

  /** What the loop makes of a reply, read off the bytes of the fields the reply carries. */
  lemma ReplyMeaning(msg: seq<byte>, ts: seq<Tlv>)
    requires Carries(msg, ts)
    ensures FieldsOf(msg) == Some(Infos(ts))
    ensures var o := Fold(FieldsOf(msg).value);
      && (o.psAttached <==> exists i :: 0 <= i < |ts| && TellsPacket(ts[i], PACKET_KINDS))
      && (o.isLte <==> exists i :: 0 <= i < |ts| && TellsLte(ts[i]))
      && (o.isCdma <==> !o.isLte && exists i :: 0 <= i < |ts| && TellsCdma(ts[i]))
      && o.hdrPersonality in {0, 2}
      && (o.hdrPersonality == 2 <==>
            exists i, j :: 0 <= i <= j < |ts| && TellsPacket(ts[i], PACKET_KINDS) && TellsEhrpd(ts[j]))
  {
    CarriedFields(msg, ts);
    FoldMeaning(Infos(ts));
    InfosLength(ts);
    var s := Infos(ts);
    forall i | 0 <= i < |ts|
      ensures s[i].ReportsPs() <==> TellsPacket(ts[i], PACKET_KINDS)
      ensures s[i].ReportsLte() <==> TellsLte(ts[i])
      ensures s[i].ReportsCdma() <==> TellsCdma(ts[i])
      ensures s[i].Ehrpd() <==> TellsEhrpd(ts[i])
    {
      InfosAt(ts, i);
      InfoMeaning(ts[i]);
    }
    AttachedAt(s);
  }

  lemma {:induction false} InfosLength(ts: seq<Tlv>)
    requires LongEnough(ts)
    ensures |Infos(ts)| == |ts|
  {
    if ts == [] {
    } else {
      InfosLength(ts[1..]);
    }
  }

  /** The same with both positions named. */
  lemma AttachedAt(s: seq<Info>)
    ensures SomeAttachedEhrpd(s) <==> exists i, j :: 0 <= i <= j < |s| && s[i].ReportsPs() && s[j].Ehrpd()
  {
    if SomeAttachedEhrpd(s) {
      var j :| 0 <= j < |s| && s[j].Ehrpd() && SomePs(s[..j + 1]);
      var i :| 0 <= i < |s[..j + 1]| && s[..j + 1][i].ReportsPs();
      assert s[i].ReportsPs();
    }
    if i, j :| 0 <= i <= j < |s| && s[i].ReportsPs() && s[j].Ehrpd() {
      assert s[..j + 1][i].ReportsPs();
    }
  }

  /** Replies that carry the same fields in another order lead to the same attachment and family. */
  lemma ReplyOrderIndependent(msg: seq<byte>, ts: seq<Tlv>, other: seq<byte>, us: seq<Tlv>)
    requires Carries(msg, ts) && Carries(other, us) && multiset(ts) == multiset(us)
    ensures FieldsOf(msg).Some? && FieldsOf(other).Some?
    ensures var o, q := Fold(FieldsOf(msg).value), Fold(FieldsOf(other).value);
      o.psAttached == q.psAttached && o.isLte == q.isLte && o.isCdma == q.isCdma
  {
    CarriedFields(msg, ts);
    CarriedFields(other, us);
    FoldMeaning(Infos(ts));
    FoldMeaning(Infos(us));
    SameInfos(ts, us);
    SameInfos(us, ts);
  }

  lemma {:induction false} InfosAt(ts: seq<Tlv>, i: nat)
    requires LongEnough(ts) && i < |ts|
    ensures |Infos(ts)| == |ts| && Infos(ts)[i] == InfoOf(ts[i])
  {
    if i == 0 {
      if |ts| > 1 {
        InfosAt(ts[1..], 0);
      }
    } else {
      InfosAt(ts[1..], i - 1);
    }
  }

  lemma SameInfos(ts: seq<Tlv>, us: seq<Tlv>)
    requires LongEnough(ts) && LongEnough(us) && multiset(ts) == multiset(us)
    ensures SomePs(Infos(ts)) ==> SomePs(Infos(us))
    ensures SomeLte(Infos(ts)) ==> SomeLte(Infos(us))
    ensures SomeCdma(Infos(ts)) ==> SomeCdma(Infos(us))
  {
    if |ts| > 0 {
      InfosAt(ts, 0);
    }
    forall i | 0 <= i < |Infos(ts)| ensures exists j :: 0 <= j < |Infos(us)| && Infos(us)[j] == Infos(ts)[i] {
      InfosAt(ts, i);
      assert ts[i] in multiset(us);
      var j :| 0 <= j < |us| && us[j] == ts[i];
      InfosAt(us, j);
    }
  }

  // What the fold means ------------------------------------------------------------------------

  ghost predicate SomePs(s: seq<Info>) {
    exists i :: 0 <= i < |s| && s[i].ReportsPs()
  }

  ghost predicate SomeLte(s: seq<Info>) {
    exists i :: 0 <= i < |s| && s[i].ReportsLte()
  }

  ghost predicate SomeCdma(s: seq<Info>) {
    exists i :: 0 <= i < |s| && s[i].ReportsCdma()
  }

  /** Some eHRPD field has a packet-service field at or before it. */
  ghost predicate SomeAttachedEhrpd(s: seq<Info>) {
    exists j :: 0 <= j < |s| && s[j].Ehrpd() && SomePs(s[..j + 1])
  }

  /** The loop's result, read off the list as a whole. */
  lemma {:induction false} FoldMeaning(s: seq<Info>)
    ensures Fold(s).psAttached <==> SomePs(s)
    ensures Fold(s).isLte <==> SomeLte(s)
    ensures Fold(s).isCdma <==> SomeCdma(s) && !SomeLte(s)
    ensures Fold(s).hdrPersonality == if SomeAttachedEhrpd(s) then 2 else 0
  {
    if s == [] {
    } else {
      var n := |s| - 1;
      var a, x := s[..n], s[n];
      FoldMeaning(a);
      assert s == a + [x];
      SomeSnoc(a, x);
      AttachedSnoc(a, x);
      StepMeaning(Fold(a), x);
    }
  }

  lemma StepMeaning(o: Outcome, x: Info)
    ensures var p := Step(o, x);
      && p.psAttached == (o.psAttached || x.ReportsPs())
      && p.isLte == (o.isLte || x.ReportsLte())
      && p.isCdma == (!x.ReportsLte() && if x.ReportsCdma() then !o.isLte else o.isCdma)
      && p.hdrPersonality == if x.Ehrpd() && p.psAttached then 2 else o.hdrPersonality
  {
  }

  lemma SomeSnoc(a: seq<Info>, x: Info)
    ensures SomePs(a + [x]) <==> SomePs(a) || x.ReportsPs()
    ensures SomeLte(a + [x]) <==> SomeLte(a) || x.ReportsLte()
    ensures SomeCdma(a + [x]) <==> SomeCdma(a) || x.ReportsCdma()
  {
    var s := a + [x];
    assert s[|a|] == x && forall i :: 0 <= i < |a| ==> s[i] == a[i];
  }

  lemma AttachedSnoc(a: seq<Info>, x: Info)
    ensures SomeAttachedEhrpd(a + [x]) <==> SomeAttachedEhrpd(a) || (x.Ehrpd() && SomePs(a + [x]))
  {
    var s := a + [x];
    assert s[..|a| + 1] == s;
    forall j | 0 <= j < |a| ensures s[j] == a[j] && s[..j + 1] == a[..j + 1] {
    }
    assert s[|a|] == x;
  }

  // Order --------------------------------------------------------------------------------------

  lemma SameMembers(a: seq<Info>, b: seq<Info>, i: nat)
    requires multiset(a) == multiset(b) && i < |a|
    ensures exists j :: 0 <= j < |b| && b[j] == a[i]
  {
    assert a[i] in multiset(a);
    assert a[i] in multiset(b);
  }

  lemma SomeByMembers(a: seq<Info>, b: seq<Info>)
    requires multiset(a) == multiset(b)
    ensures SomePs(a) ==> SomePs(b)
    ensures SomeLte(a) ==> SomeLte(b)
    ensures SomeCdma(a) ==> SomeCdma(b)
  {
    if SomePs(a) {
      var i :| 0 <= i < |a| && a[i].ReportsPs();
      SameMembers(a, b, i);
    }
    if SomeLte(a) {
      var i :| 0 <= i < |a| && a[i].ReportsLte();
      SameMembers(a, b, i);
    }
    if SomeCdma(a) {
      var i :| 0 <= i < |a| && a[i].ReportsCdma();
      SameMembers(a, b, i);
    }
  }

  /** Attachment and radio family do not depend on the order of the fields. */
  lemma OrderIndependent(a: seq<Info>, b: seq<Info>)
    requires multiset(a) == multiset(b)
    ensures Fold(a).psAttached == Fold(b).psAttached
    ensures Fold(a).isLte == Fold(b).isLte && Fold(a).isCdma == Fold(b).isCdma
  {
    FoldMeaning(a);
    FoldMeaning(b);
    SomeByMembers(a, b);
    SomeByMembers(b, a);
  }

  /** eHRPD is named only by fields that do not themselves report packet service, and another does. */
  ghost predicate PersonalityDepends(s: seq<Info>) {
    && SomePs(s)
    && (exists i :: 0 <= i < |s| && s[i].Ehrpd())
    && (forall i :: 0 <= i < |s| && s[i].Ehrpd() ==> !s[i].ReportsPs())
  }

  function Pick(s: seq<Info>, ehrpd: bool): seq<Info> {
    if s == [] then []
    else if s[0].Ehrpd() == ehrpd then [s[0]] + Pick(s[1..], ehrpd)
    else Pick(s[1..], ehrpd)
  }

  lemma {:induction false} PickSplits(s: seq<Info>)
    ensures multiset(Pick(s, true)) + multiset(Pick(s, false)) == multiset(s)
  {
    if s == [] {
    } else {
      PickSplits(s[1..]);
      assert [s[0]] + s[1..] == s;
      MultisetCons(s[0], s[1..]);
      MultisetCons(s[0], Pick(s[1..], s[0].Ehrpd()));
    }
  }

  lemma MultisetCons(x: Info, s: seq<Info>)
    ensures multiset([x] + s) == multiset{x} + multiset(s)
  {
  }

  lemma {:induction false} PickMembers(s: seq<Info>, ehrpd: bool)
    ensures forall i :: 0 <= i < |Pick(s, ehrpd)| ==> Pick(s, ehrpd)[i].Ehrpd() == ehrpd
  {
    if s == [] {
    } else {
      PickMembers(s[1..], ehrpd);
    }
  }

  /**
   * The HDR personality does depend on the order, and exactly for these lists: some order of the
   * same fields gives another personality if and only if `PersonalityDepends`.
   */
  lemma PersonalityOrderIff(s: seq<Info>)
    ensures (exists t: seq<Info> :: multiset(t) == multiset(s) && Fold(t).hdrPersonality != Fold(s).hdrPersonality)
       <==> PersonalityDepends(s)
  {
    if PersonalityDepends(s) {
      TwoOrders(s);
    } else {
      forall t: seq<Info> | multiset(t) == multiset(s)
        ensures Fold(t).hdrPersonality == Fold(s).hdrPersonality
      {
        NoDependence(s, t);
      }
    }
  }

  lemma NoDependence(s: seq<Info>, t: seq<Info>)
    requires multiset(t) == multiset(s) && !PersonalityDepends(s)
    ensures Fold(t).hdrPersonality == Fold(s).hdrPersonality
  {
    FoldMeaning(s);
    FoldMeaning(t);
    AttachedCarriesOver(s, t);
    DependsCarriesOver(t, s);
    AttachedCarriesOver(t, s);
  }

  lemma DependsCarriesOver(s: seq<Info>, t: seq<Info>)
    requires multiset(t) == multiset(s)
    ensures PersonalityDepends(s) ==> PersonalityDepends(t)
  {
    if PersonalityDepends(s) {
      SomeByMembers(s, t);
      var i :| 0 <= i < |s| && s[i].Ehrpd();
      SameMembers(s, t, i);
      forall j | 0 <= j < |t| && t[j].Ehrpd() ensures !t[j].ReportsPs() {
        SameMembers(t, s, j);
      }
    }
  }

  lemma AttachedCarriesOver(s: seq<Info>, t: seq<Info>)
    requires multiset(t) == multiset(s) && !PersonalityDepends(s)
    ensures SomeAttachedEhrpd(s) ==> SomeAttachedEhrpd(t)
  {
    if SomeAttachedEhrpd(s) {
      var j :| 0 <= j < |s| && s[j].Ehrpd() && SomePs(s[..j + 1]);
      assert SomePs(s) by {
        var i :| 0 <= i < |s[..j + 1]| && s[..j + 1][i].ReportsPs();
        assert s[i].ReportsPs();
      }
      var k :| 0 <= k < |s| && s[k].Ehrpd() && s[k].ReportsPs();
      SameMembers(s, t, k);
      var m :| 0 <= m < |t| && t[m] == s[k];
      assert t[..m + 1][m].ReportsPs();
    }
  }

  lemma TwoOrders(s: seq<Info>)
    requires PersonalityDepends(s)
    ensures exists t: seq<Info> :: multiset(t) == multiset(s) && Fold(t).hdrPersonality != Fold(s).hdrPersonality
  {
    var e, o := Pick(s, true), Pick(s, false);
    PickSplits(s);
    PickMembers(s, true);
    PickMembers(s, false);
    var early, late := e + o, o + e;
    assert multiset(early) == multiset(s) && multiset(late) == multiset(s);
    DependsCarriesOver(s, early);
    DependsCarriesOver(s, late);
    FoldMeaning(early);
    FoldMeaning(late);
    EarlyNotAttached(e, o);
    LateAttached(e, o);
    assert Fold(early).hdrPersonality != Fold(late).hdrPersonality;
    if Fold(early).hdrPersonality != Fold(s).hdrPersonality {
      assert multiset(early) == multiset(s);
    } else {
      assert multiset(late) == multiset(s);
    }
  }

  lemma EarlyNotAttached(e: seq<Info>, o: seq<Info>)
    requires PersonalityDepends(e + o)
    requires forall i :: 0 <= i < |e| ==> e[i].Ehrpd()
    requires forall i :: 0 <= i < |o| ==> !o[i].Ehrpd()
    ensures !SomeAttachedEhrpd(e + o)
  {
    var s := e + o;
    forall j | 0 <= j < |s| && s[j].Ehrpd() ensures !SomePs(s[..j + 1]) {
      assert j < |e|;
      var p := s[..j + 1];
      forall i | 0 <= i < |p| ensures !p[i].ReportsPs() {
        assert p[i] == s[i] == e[i];
      }
    }
  }

  lemma LateAttached(e: seq<Info>, o: seq<Info>)
    requires PersonalityDepends(o + e)
    requires forall i :: 0 <= i < |e| ==> e[i].Ehrpd()
    requires forall i :: 0 <= i < |o| ==> !o[i].Ehrpd()
    ensures SomeAttachedEhrpd(o + e)
  {
    var s := o + e;
    var n := |s| - 1;
    var i :| 0 <= i < |s| && s[i].Ehrpd();
    assert s[n] == e[|e| - 1] && s[..n + 1] == s;
  }
}
