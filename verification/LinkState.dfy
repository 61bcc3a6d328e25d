/** The Fibocom driver's per-channel link state and carrier. */
module LinkState {
  import opened Bytes
  import opened QmapFrame

  /** A channel device of its own: its link flag and its carrier. */
  datatype Net = Net(linkState: bool, carrier: bool)

  /** `bits` are the set bits of the device's link-state word. */
  datatype Links = Links(mode: nat, bits: set<nat>, parentCarrier: bool, nets: seq<Option<Net>>)
  {
    ghost predicate Sized() {
      mode <= |nets| <= MAX_CHANNELS
    }
  }

  /** The bit a written value addresses: its low seven bits less one, as an unsigned number. */
  function OffsetId(value: nat): nat {
    U32(value % 128 - 1)
  }

  /**
   * What a written value asks for: a channel, and whether it is to be linked. With one channel any
   * non-zero value links it; with several, bit 7 unlinks the channel that the low bits name.
   */
  function Asked(mode: nat, value: nat): Option<(nat, bool)> {
    if mode == 0 then None
    else if mode == 1 then Some((0, U32(value) != 0))
    else if OffsetId(value) >= mode then None
    else Some((OffsetId(value), value / 128 % 2 == 0))
  }

  function Stored(l: Links, value: nat): Links
    requires l.mode <= |l.nets|
  {
    match Asked(l.mode, value)
    case None => l
    case Some((id, on)) =>
      if on == (id in l.bits) then l
      else
        var bits := if on then l.bits + {id} else l.bits - {id};
        l.(bits := bits, parentCarrier := bits != {},
           nets := if l.nets[id].Some? then l.nets[id := Some(Net(on, on))] else l.nets)
  }

  function Opened(l: Links, id: nat, parentUp: bool): Links
    requires id < |l.nets|
  {
    if l.nets[id].Some? && parentUp && l.parentCarrier && l.nets[id].value.linkState then
      l.(nets := l.nets[id := Some(l.nets[id].value.(carrier := true))])
    else l
  }

  function Stopped(l: Links, id: nat): Links
    requires id < |l.nets|
  {
    if l.nets[id].Some? then l.(nets := l.nets[id := Some(l.nets[id].value.(carrier := false))]) else l
  }

  class Device {
    const mode: nat
    var bits: set<nat>
    var parentCarrier: bool
    var nets: seq<Option<Net>>

    function View(): Links
      reads this
    {
      Links(mode, bits, parentCarrier, nets)
    }

    /** After probe: link state zero, every carrier off; a channel may have failed to register. */
    constructor (mode: nat, registered: seq<bool>)
      ensures View() == Fresh(mode, registered)
    {
      this.mode := mode;
      bits, parentCarrier := {}, false;
      nets := seq(|registered|, i requires 0 <= i < |registered| =>
                    if registered[i] then Some(Net(false, false)) else None);
    }

    method LinkStateStore(value: nat)
      requires View().Sized() && forall b :: b in bits ==> b < mode
      modifies this
      ensures View() == Stored(old(View()), value)
    {
      var before, id := bits, 0;
      if mode == 1 {
        bits := if U32(value) != 0 then {0} else {};
      } else if mode > 1 {
        id := OffsetId(value);
        if id >= mode {
          return;
        }
        if value / 128 % 2 == 1 {
          bits := bits - {id};
        } else {
          bits := bits + {id};
        }
      }
      if before != bits {
        parentCarrier := bits != {};
        if nets[id].Some? {
          nets := nets[id := Some(nets[id].value.(linkState := id in bits))];
          nets := nets[id := Some(nets[id].value.(carrier := id in bits))];
        }
      }
    }

    method Open(id: nat, parentUp: bool)
      requires id < |nets|
      modifies this
      ensures View() == Opened(old(View()), id, parentUp)
    {
      if nets[id].Some? && parentUp && parentCarrier && nets[id].value.linkState {
        nets := nets[id := Some(nets[id].value.(carrier := true))];
      }
    }

    method Stop(id: nat)
      requires id < |nets|
      modifies this
      ensures View() == Stopped(old(View()), id)
    {
      if nets[id].Some? {
        nets := nets[id := Some(nets[id].value.(carrier := false))];
      }
    }
  }

  // Runs ---------------------------------------------------------------------------------------

  datatype Event = Store(value: nat) | Open(id: nat, parentUp: bool) | Stop(id: nat)

  function Fresh(mode: nat, registered: seq<bool>): Links {
    Links(mode, {}, false, seq(|registered|, i requires 0 <= i < |registered| =>
                             if registered[i] then Some(Net(false, false)) else None))
  }

  function Next(l: Links, e: Event): Links
    requires l.mode <= |l.nets|
  {
    match e
    case Store(value) => Stored(l, value)
    case Open(id, parentUp) => if id < |l.nets| then Opened(l, id, parentUp) else l
    case Stop(id) => if id < |l.nets| then Stopped(l, id) else l
  }

  function Run(l: Links, es: seq<Event>): Links
    requires l.mode <= |l.nets|
    decreases es
  {
    if es == [] then l else Run(Next(l, es[0]), es[1..])
  }

  ghost predicate Consistent(l: Links) {
    && (forall b :: b in l.bits ==> b < l.mode)
    && (l.parentCarrier <==> l.bits != {})
    && (forall i :: 0 <= i < |l.nets| && l.nets[i].Some? ==>
          && l.nets[i].value.linkState == (i in l.bits)
          && (l.nets[i].value.carrier ==> i in l.bits && l.parentCarrier))
  }

  /**
   * From link state zero, over every run of stores, opens and stops: no bit at or above the channel
   * count is ever set, each registered channel's flag is its bit, the parent carrier is on exactly
   * when some bit is set, and a channel's carrier is on only if its bit and the parent's are.
   */
  lemma LinksConsistent(mode: nat, registered: seq<bool>, es: seq<Event>)
    requires mode <= |registered|
    ensures Consistent(Run(Fresh(mode, registered), es))
  {
    RunKeepsConsistent(Fresh(mode, registered), es);
  }

  lemma {:induction false} RunKeepsConsistent(l: Links, es: seq<Event>)
    requires Consistent(l) && l.mode <= |l.nets|
    ensures Consistent(Run(l, es))
    decreases es
  {
    if es == [] {
    } else {
      NextKeepsConsistent(l, es[0]);
      RunKeepsConsistent(Next(l, es[0]), es[1..]);
    }
  }

  lemma NextKeepsConsistent(l: Links, e: Event)
    requires Consistent(l) && l.mode <= |l.nets|
    ensures Consistent(Next(l, e))
  {
    if e.Store? {
      StoreKeepsConsistent(l, e.value);
    }
  }

  lemma StoreKeepsConsistent(l: Links, value: nat)
    requires Consistent(l) && l.mode <= |l.nets|
    ensures Consistent(Stored(l, value))
  {
    var s := Stored(l, value);
    if s != l {
      var (id, on) := Asked(l.mode, value).value;
      assert forall i :: i != id ==> (i in s.bits <==> i in l.bits);
      assert s.bits == {} ==> forall i :: i in l.bits ==> i == id;
    }
  }

  // What a channel's state depends on ----------------------------------------------------------

  /** Does the event name channel `i`? */
  predicate Names(mode: nat, e: Event, i: nat) {
    match e
    case Store(value) => if mode == 1 then i == 0 else value % 128 == i + 1
    case Open(id, _) => id == i
    case Stop(id) => id == i
  }

  /** Does a store that names a channel ask for it to be linked? */
  predicate AsksOn(mode: nat, value: nat) {
    if mode == 1 then U32(value) != 0 else value / 128 % 2 == 0
  }

  /** What the last store that names channel `i` asks for. */
  function LastAsked(mode: nat, es: seq<Event>, i: nat): Option<bool> {
    if es == [] then None
    else
      var last := es[|es| - 1];
      if last.Store? && Names(mode, last, i) then Some(AsksOn(mode, last.value))
      else LastAsked(mode, es[..|es| - 1], i)
  }

  lemma {:induction false} RunSnoc(l: Links, es: seq<Event>, e: Event)
    requires l.mode <= |l.nets|
    ensures Run(l, es).mode == l.mode && |Run(l, es).nets| == |l.nets|
    ensures Run(l, es + [e]) == Next(Run(l, es), e)
    decreases es
  {
    var run := es + [e];
    assert run[0] == if es == [] then e else es[0];
    if es == [] {
      assert run[1..] == [];
    } else {
      assert run[1..] == es[1..] + [e];
      RunSnoc(Next(l, es[0]), es[1..], e);
    }
  }

  /** A store changes the channel it names and no other. */
  lemma StoreIsLocal(l: Links, value: nat, i: nat)
    requires i < l.mode <= |l.nets| <= MAX_CHANNELS
    ensures var s := Stored(l, value);
      if Names(l.mode, Store(value), i) then i in s.bits <==> AsksOn(l.mode, value)
      else s.nets[i] == l.nets[i] && (i in s.bits <==> i in l.bits)
  {
    assert l.mode > 1 ==> (OffsetId(value) == i <==> value % 128 == i + 1);
  }

  lemma NextLinked(l: Links, e: Event, i: nat)
    requires i < l.mode <= |l.nets| <= MAX_CHANNELS
    ensures i in Next(l, e).bits <==>
            if e.Store? && Names(l.mode, e, i) then AsksOn(l.mode, e.value) else i in l.bits
  {
    if e.Store? {
      StoreIsLocal(l, e.value, i);
    }
  }

  /** A channel is linked exactly when the last store that names it asked for it. */
  lemma {:induction false} LinkedIff(mode: nat, registered: seq<bool>, es: seq<Event>, i: nat)
    requires i < mode <= |registered| <= MAX_CHANNELS
    ensures i in Run(Fresh(mode, registered), es).bits <==> LastAsked(mode, es, i) == Some(true)
  {
    if es == [] {
    } else {
      var init, last := es[..|es| - 1], es[|es| - 1];
      LinkedIff(mode, registered, init, i);
      RunSnoc(Fresh(mode, registered), init, last);
      assert init + [last] == es;
      NextLinked(Run(Fresh(mode, registered), init), last, i);
    }
  }

  // When a channel's carrier is on ---------------------------------------------------------------

  /** The store newly links the channel, or the channel is opened while it is linked. */
  predicate TurnsOn(mode: nat, before: seq<Event>, e: Event, i: nat) {
    var linked := LastAsked(mode, before, i) == Some(true);
    match e
    case Store(value) => Names(mode, e, i) && AsksOn(mode, value) && !linked
    case Open(id, parentUp) => id == i && parentUp && linked
    case Stop(_) => false
  }

  /** The channel is stopped or unlinked. */
  predicate TurnsOff(mode: nat, e: Event, i: nat) {
    match e
    case Store(value) => Names(mode, e, i) && !AsksOn(mode, value)
    case Open(_, _) => false
    case Stop(id) => id == i
  }

  /** Event `k` turned the carrier on, and nothing has turned it off since. */
  ghost predicate CarriesSince(mode: nat, es: seq<Event>, i: nat, k: nat) {
    && k < |es| && TurnsOn(mode, es[..k], es[k], i)
    && forall j :: k < j < |es| ==> !TurnsOff(mode, es[j], i)
  }

  lemma NextCarrier(l: Links, e: Event, i: nat)
    requires Consistent(l) && i < l.mode <= |l.nets| <= MAX_CHANNELS && l.nets[i].Some?
    ensures var n := Next(l, e).nets[i];
      && n.Some?
      && (n.value.carrier <==>
            || (e.Store? && Names(l.mode, e, i) && AsksOn(l.mode, e.value) && i !in l.bits)
            || (e.Open? && e.id == i && e.parentUp && i in l.bits)
            || (l.nets[i].value.carrier && !TurnsOff(l.mode, e, i)))
  {
    if e.Store? {
      StoreIsLocal(l, e.value, i);
    }
  }

  lemma CarriesSnoc(mode: nat, es: seq<Event>, e: Event, i: nat)
    ensures (exists k: nat :: CarriesSince(mode, es + [e], i, k))
       <==> TurnsOn(mode, es, e, i) || ((exists k: nat :: CarriesSince(mode, es, i, k)) && !TurnsOff(mode, e, i))
  {
    var es' := es + [e];
    assert es'[..|es|] == es && es'[|es|] == e;
    forall k: nat | k < |es|
      ensures CarriesSince(mode, es', i, k) <==> CarriesSince(mode, es, i, k) && !TurnsOff(mode, e, i)
    {
      assert es'[..k] == es[..k];
      assert forall j :: 0 <= j < |es| ==> es'[j] == es[j];
    }
    assert CarriesSince(mode, es', i, |es|) <==> TurnsOn(mode, es, e, i);
  }

  /**
   * After every run a registered channel's carrier is on exactly when some store newly linked it, or it
   * was opened with its parent up while linked, and since then it was neither stopped nor unlinked.
   */
  lemma {:induction false} CarrierIff(mode: nat, registered: seq<bool>, es: seq<Event>, i: nat)
    requires i < mode <= |registered| <= MAX_CHANNELS && registered[i]
    ensures var l := Run(Fresh(mode, registered), es);
      && |l.nets| == |registered| && l.nets[i].Some?
      && (l.nets[i].value.carrier <==> exists k: nat :: CarriesSince(mode, es, i, k))
      && (l.nets[i].value.linkState <==> LastAsked(mode, es, i) == Some(true))
  {
    LinksConsistent(mode, registered, es);
    LinkedIff(mode, registered, es, i);
    if es == [] {
    } else {
      var init, last := es[..|es| - 1], es[|es| - 1];
      CarrierIff(mode, registered, init, i);
      LinksConsistent(mode, registered, init);
      LinkedIff(mode, registered, init, i);
      RunSnoc(Fresh(mode, registered), init, last);
      assert init + [last] == es;
      NextCarrier(Run(Fresh(mode, registered), init), last, i);
      CarriesSnoc(mode, init, last, i);
    }
  }

  /** The events that name channel `i`, in order. */
  function Naming(mode: nat, es: seq<Event>, i: nat): seq<Event> {
    if es == [] then []
    else if Names(mode, es[0], i) then [es[0]] + Naming(mode, es[1..], i)
    else Naming(mode, es[1..], i)
  }

  /** Two devices in which channel `i` is in the same state. */
  ghost predicate SameChannel(l: Links, m: Links, i: nat)
    requires i < |l.nets| && i < |m.nets|
  {
    l.nets[i] == m.nets[i] && (i in l.bits <==> i in m.bits)
  }

  ghost predicate Alike(l: Links, m: Links, i: nat) {
    && Consistent(l) && Consistent(m) && l.mode == m.mode && |l.nets| == |m.nets|
    && i < l.mode <= |l.nets| <= MAX_CHANNELS && SameChannel(l, m, i)
  }

  lemma NextSame(l: Links, m: Links, e: Event, i: nat)
    requires l.mode == m.mode && |l.nets| == |m.nets| && i < l.mode <= |l.nets| <= MAX_CHANNELS
    requires SameChannel(l, m, i)
    requires l.nets[i].Some? && l.nets[i].value.linkState ==> l.parentCarrier && m.parentCarrier
    ensures Names(l.mode, e, i) ==> SameChannel(Next(l, e), Next(m, e), i)
    ensures !Names(l.mode, e, i) ==> SameChannel(Next(l, e), m, i)
  {
    if e.Store? {
      StoreIsLocal(l, e.value, i);
      StoreIsLocal(m, e.value, i);
    }
  }

  lemma NextAlike(l: Links, m: Links, e: Event, i: nat)
    requires Alike(l, m, i)
    ensures Names(l.mode, e, i) ==> Alike(Next(l, e), Next(m, e), i)
    ensures !Names(l.mode, e, i) ==> Alike(Next(l, e), m, i)
  {
    NextKeepsConsistent(l, e);
    NextKeepsConsistent(m, e);
    NextSame(l, m, e, i);
  }

  lemma {:induction false} RunAlike(l: Links, m: Links, es: seq<Event>, i: nat)
    requires Alike(l, m, i)
    ensures Alike(Run(l, es), Run(m, Naming(l.mode, es, i)), i)
    decreases es
  {
    if es == [] {
    } else {
      var e, named := es[0], Naming(l.mode, es[1..], i);
      NextAlike(l, m, e, i);
      if Names(l.mode, e, i) {
        DropFront([e], named);
        RunAlike(Next(l, e), Next(m, e), es[1..], i);
      } else {
        RunAlike(Next(l, e), m, es[1..], i);
      }
    }
  }

  /**
   * Channels do not interfere: after any run the link flag and the carrier of a channel are what the
   * events that name it alone would have made them, although opening it looks at the shared carrier.
   */
  lemma ChannelsIndependent(mode: nat, registered: seq<bool>, es: seq<Event>, i: nat)
    requires i < mode <= |registered| <= MAX_CHANNELS
    ensures var all, own := Run(Fresh(mode, registered), es), Run(Fresh(mode, registered), Naming(mode, es, i));
      && i < |all.nets| == |own.nets|
      && all.nets[i] == own.nets[i] && (i in all.bits <==> i in own.bits)
  {
    RunAlike(Fresh(mode, registered), Fresh(mode, registered), es, i);
  }
}
