/**
 Injection of the client's input into the operating system. The injector keeps what it believes is held
 down; what really is held follows from the packets it has sent. The two always agree.
 */
module Injection {
  import opened Base

  datatype Point = Point(x: int, y: int)

  datatype Flags = Down | Update | Up | Cancel

  datatype Contact = Contact(id: u16, flags: Flags, at: Point)

  /** One call to the operating system. */
  datatype Packet =
    | Touch(contacts: seq<Contact>)
    | Move(absolute: bool, at: Point)
    | Button(mask: int, up: bool)
    | Wheel(horizontal: bool, delta: int)
    | Key(scan: u8, extended: bool, up: bool)

  /**
   An event from the client. `at` is its position on the display, if it is one; `deltaOk` tells whether
   its deltas are finite and within limits, and `scrollX` and `scrollY` are those that are not zero.
   */
  datatype Event = Event(
    kind: u8, phase: u8, contactId: u16, at: Option<Point>, deltaOk: bool, delta: Point, scrollX: Option<int>,
    scrollY: Option<int>, buttons: u32, physicalKey: u16, modifiers: u16, isRepeat: u8)

  datatype Rejection = BadFlags | BadKind | TooManyContacts | BadPosition | DuplicateDown | NoDown | BadDelta

  datatype Held = Held(touches: map<u16, Contact>, keys: set<u16>, buttons: u32)

  const NOTHING: Held := Held(map[], {}, 0)

  datatype Injected = Injected(held: Held, packets: seq<Packet>)

  function Bit(x: int, mask: int): bool
    requires mask > 0
  {
    x / mask % 2 == 1
  }

  // Touches

  /** The contacts of these ids, in this order. */
  function Listed(touches: map<u16, Contact>, ids: seq<u16>): (r: seq<Contact>)
    requires forall i | 0 <= i < |ids| :: ids[i] in touches
    ensures |r| == |ids| && forall i | 0 <= i < |ids| :: r[i] == touches[ids[i]]
  {
    if ids == [] then [] else Listed(touches, ids[..|ids| - 1]) + [touches[ids[|ids| - 1]]]
  }

  function InOrder(s: set<u16>): (r: seq<u16>)
    ensures |r| == |s|
    ensures forall x :: x in r <==> x in s
    ensures forall i, j | 0 <= i < j < |r| :: r[i] < r[j]
  {
    var r := Sorted(s);
    assert forall i | 0 <= i < |r| :: r[i] in s;
    r
  }

  /** All contacts, by increasing id. */
  function Batch(touches: map<u16, Contact>): seq<Contact> {
    var ids := InOrder(touches.Keys);
    assert forall i | 0 <= i < |ids| :: ids[i] in touches.Keys;
    Listed(touches, ids)
  }

  function TouchFlags(phase: u8): Flags {
    if phase == 0 then Down else if phase == 1 then Update else if phase == 2 then Up else Cancel
  }

  function WithFlags(touches: map<u16, Contact>, flags: Flags): map<u16, Contact> {
    map id | id in touches :: touches[id].(flags := flags)
  }

  function TouchSpec(s: Held, e: Event): Result<Injected, Rejection> {
    if e.contactId >= 10 then Err(TooManyContacts)
    else if e.at.None? then Err(BadPosition)
    else if e.phase == 0 && e.contactId in s.touches then Err(DuplicateDown)
    else if e.phase != 0 && e.contactId !in s.touches then Err(NoDown)
    else
      var at := if e.phase >= 2 then s.touches[e.contactId].at else e.at.value;
      var all := WithContact(s, e, at);
      Ok(Injected(s.(touches := StillDown(all, e)), [Touch(Batch(all))]))
  }

  /** The contacts that stay down after the event. */
  function StillDown(all: map<u16, Contact>, e: Event): map<u16, Contact> {
    WithFlags(if e.phase >= 2 then all - {e.contactId} else all, Update)
  }

  /** The contacts with the event's own in its new state. */
  function WithContact(s: Held, e: Event, at: Point): map<u16, Contact> {
    s.touches[e.contactId := Contact(e.contactId, TouchFlags(e.phase), at)]
  }

  // The mouse

  const BUTTONS: seq<int> := [1, 2, 4]

  /** Packets for the first `n` buttons, where they change. */
  function ButtonPackets(was: u32, now: u32, n: nat): seq<Packet>
    requires n <= 3
  {
    if n == 0 then []
    else
      var m := BUTTONS[n - 1];
      ButtonPackets(was, now, n - 1) + if Bit(was, m) != Bit(now, m) then [Button(m, !Bit(now, m))] else []
  }

  function Scroll(e: Event): seq<Packet> {
    if e.kind != 1 then []
    else
      (if e.scrollY.Some? then [Wheel(false, e.scrollY.value)] else [])
      + (if e.scrollX.Some? then [Wheel(true, e.scrollX.value)] else [])
  }

  function MouseSpec(s: Held, e: Event): Result<Injected, Rejection> {
    if !e.deltaOk then Err(BadDelta)
    else if s.touches != map[] then Ok(Injected(s, []))
    else if e.kind == 1 && e.at.None? then Err(BadPosition)
    else
      var move := if e.kind == 1 then Move(true, e.at.value) else Move(false, e.delta);
      Ok(Injected(s.(buttons := e.buttons), ([move] + ButtonPackets(s.buttons, e.buttons, 3)) + Scroll(e)))
  }

  // The keyboard

  const LETTERS: seq<u16> := [
    0x1e, 0x30, 0x2e, 0x20, 0x12, 0x21, 0x22, 0x23, 0x17, 0x24, 0x25, 0x26, 0x32, 0x31, 0x18,
    0x19, 0x10, 0x13, 0x1f, 0x14, 0x16, 0x2f, 0x11, 0x2d, 0x15, 0x2c]

  const MARKS: seq<u16> := [
    0x0b, 0x1c, 0x01, 0x0e, 0x0f, 0x39, 0x0c, 0x0d, 0x1a, 0x1b, 0x2b, 0, 0x27, 0x28, 0x29, 0x33, 0x34, 0x35, 0x3a]

  const NAVIGATION: seq<u16> := [
    0x152, 0x147, 0x149, 0x153, 0x14f, 0x151, 0x14d, 0x14b, 0x150, 0x148, 0x45, 0x135, 0x37, 0x4a, 0x4e, 0x11c,
    0x4f, 0x50, 0x51, 0x4b, 0x4c, 0x4d, 0x47, 0x48, 0x49, 0x52, 0x53]

  const MODIFIER_KEYS: seq<u16> := [0x1d, 0x2a, 0x38, 0x15b, 0x11d, 0x36, 0x138, 0x15c]

  /** From a USB HID keyboard usage to a scan code of set 1; 0x100 stands for the E0 prefix. */
  function ScanCode(hid: u16): Option<u16> {
    if 4 <= hid <= 29 then Some(LETTERS[hid - 4])
    else if 30 <= hid <= 38 then Some(hid - 28)
    else if 39 <= hid <= 57 && hid != 50 then Some(MARKS[hid - 39])
    else if 58 <= hid <= 67 then Some(hid + 1)
    else if hid == 68 then Some(0x57)
    else if hid == 69 then Some(0x58)
    else if 73 <= hid <= 99 then Some(NAVIGATION[hid - 73])
    else if 224 <= hid <= 231 then Some(MODIFIER_KEYS[hid - 224])
    else None
  }

  const LEFT: seq<u16> := [0x1d, 0x2a, 0x38, 0x15b]
  const RIGHT: seq<u16> := [0x11d, 0x36, 0x138, 0x15c]
  const MASKS: seq<int> := [1, 2, 4, 8]

  function KeyPacket(code: u16, up: bool): Packet {
    Key(code % 0x100, Bit(code, 0x100), up)
  }

  datatype Keys = Keys(held: set<u16>, packets: seq<Packet>)

  function Release(k: Keys, code: u16): Keys {
    if code in k.held then Keys(k.held - {code}, k.packets + [KeyPacket(code, true)]) else k
  }

  function Press(k: Keys, code: u16): Keys {
    Keys(k.held + {code}, k.packets + [KeyPacket(code, false)])
  }

  /** One modifier brought to what the event says, unless the event's own key is that modifier. */
  function Modifier(k: Keys, scan: u16, modifiers: u16, g: nat): Keys
    requires g < 4
  {
    if scan == LEFT[g] || scan == RIGHT[g] then k
    else if Bit(modifiers, MASKS[g]) then
      if LEFT[g] in k.held || RIGHT[g] in k.held then k else Press(k, LEFT[g])
    else Release(Release(k, LEFT[g]), RIGHT[g])
  }

  /** The first `n` modifiers. */
  function Modifiers(keys: set<u16>, scan: u16, modifiers: u16, n: nat): Keys
    requires n <= 4
  {
    if n == 0 then Keys(keys, []) else Modifier(Modifiers(keys, scan, modifiers, n - 1), scan, modifiers, n - 1)
  }

  function KeyboardSpec(s: Held, e: Event): Injected {
    var scan := ScanCode(e.physicalKey);
    if scan.None? then Injected(s, [])
    else
      var k := Modifiers(s.keys, scan.value, e.modifiers, 4);
      var after := if e.phase >= 2 then Release(k, scan.value) else Press(k, scan.value);
      Injected(s.(keys := after.held), after.packets)
  }

  // Any event, and releasing everything

  function EventSpec(s: Held, e: Event): Result<Injected, Rejection> {
    if e.phase > 3 || e.buttons > 7 || e.isRepeat > 1 then Err(BadFlags)
    else if e.kind == 0 then TouchSpec(s, e)
    else if e.kind == 1 || e.kind == 2 then MouseSpec(s, e)
    else if e.kind == 3 then Ok(KeyboardSpec(s, e))
    else Err(BadKind)
  }

  function KeyUps(keys: seq<u16>): seq<Packet> {
    if keys == [] then [] else KeyUps(keys[..|keys| - 1]) + [KeyPacket(keys[|keys| - 1], true)]
  }

  function ReleaseSpec(s: Held): Injected {
    var touch := if s.touches == map[] then [] else [Touch(Batch(WithFlags(s.touches, Cancel)))];
    Injected(NOTHING, (touch + KeyUps(InOrder(s.keys))) + ButtonPackets(s.buttons, 0, 3))
  }

  // What the operating system holds down

  datatype Os = Os(touches: set<u16>, keys: set<int>, buttons: set<int>)

  function Contacted(held: set<u16>, contacts: seq<Contact>): set<u16>
    decreases |contacts|
  {
    if contacts == [] then held
    else
      var c := contacts[|contacts| - 1];
      var before := Contacted(held, contacts[..|contacts| - 1]);
      match c.flags
      case Down => before + {c.id}
      case Update => before
      case _ => before - {c.id}
  }

  function Applied(o: Os, p: Packet): Os {
    match p
    case Touch(contacts) => o.(touches := Contacted(o.touches, contacts))
    case Button(mask, up) => o.(buttons := if up then o.buttons - {mask} else o.buttons + {mask})
    case Key(scan, extended, up) =>
      var code := scan + if extended then 0x100 else 0;
      o.(keys := if up then o.keys - {code} else o.keys + {code})
    case _ => o
  }

  function AfterAll(o: Os, packets: seq<Packet>): Os
    decreases |packets|
  {
    if packets == [] then o else Applied(AfterAll(o, packets[..|packets| - 1]), packets[|packets| - 1])
  }

  /** The injector's account is the truth. */
  ghost predicate Agrees(s: Held, o: Os) {
    && TouchesAgree(s, o)
    && o.keys == s.keys && (forall k | k in s.keys :: k < 0x200)
    && s.buttons <= 7 && ButtonsAgree(o, s.buttons)
  }

  lemma {:induction false} AppendAll(o: Os, a: seq<Packet>, b: seq<Packet>)
    ensures AfterAll(o, a + b) == AfterAll(AfterAll(o, a), b)
    decreases |b|
  {
    if b == [] {
      assert a + b == a;
    } else {
      var k := |b| - 1;
      AppendAll(o, a, b[..k]);
      assert (a + b)[..|a + b| - 1] == a + b[..k];
    }
  }

  lemma OnePacket(o: Os, p: Packet)
    ensures AfterAll(o, [p]) == Applied(o, p)
  {
    assert [p][..0] == [];
    assert AfterAll(o, []) == o;
  }

  // Touches agree

  ghost predicate Distinct(contacts: seq<Contact>) {
    forall i, j | 0 <= i < j < |contacts| :: contacts[i].id != contacts[j].id
  }

  lemma {:induction false} ContactedMember(held: set<u16>, contacts: seq<Contact>, x: u16)
    requires Distinct(contacts)
    ensures x in Contacted(held, contacts) <==>
              || (exists i | 0 <= i < |contacts| :: contacts[i].id == x && contacts[i].flags.Down?)
              || (x in held && forall i | 0 <= i < |contacts| :: contacts[i].id == x ==> contacts[i].flags.Update?)
    decreases |contacts|
  {
    if contacts != [] {
      var k := |contacts| - 1;
      ContactedMember(held, contacts[..k], x);
      assert forall i | 0 <= i < k :: contacts[..k][i] == contacts[i];
      hide Contacted;
    }
  }

  /** Each contact stands under its own id. */
  ghost predicate Named(touches: map<u16, Contact>) {
    forall id | id in touches :: touches[id].id == id
  }

  lemma BatchLists(touches: map<u16, Contact>)
    requires Named(touches)
    ensures var b := Batch(touches);
            && Distinct(b) && (forall i, j | 0 <= i < j < |b| :: b[i].id < b[j].id)
            && (forall i | 0 <= i < |b| :: b[i].id in touches && b[i] == touches[b[i].id])
            && (forall id | id in touches :: exists i | 0 <= i < |b| :: b[i].id == id)
  {
    var ids, b := InOrder(touches.Keys), Batch(touches);
    forall i | 0 <= i < |b|
      ensures b[i].id == ids[i] && b[i].id in touches && b[i] == touches[b[i].id]
    {
      assert ids[i] in ids;
      assert ids[i] in touches.Keys;
    }
    forall id | id in touches
      ensures exists i | 0 <= i < |b| :: b[i].id == id
    {
      assert id in touches.Keys;
      assert id in ids;
      var i :| 0 <= i < |ids| && ids[i] == id;
      assert b[i].id == id;
    }
  }

  lemma BatchContacted(held: set<u16>, touches: map<u16, Contact>, x: u16)
    requires Named(touches)
    ensures x in Contacted(held, Batch(touches)) <==>
              if x in touches then touches[x].flags.Down? || (x in held && touches[x].flags.Update?) else x in held
  {
    hide Contacted, Batch, Distinct;
    BatchLists(touches);
    ContactedMember(held, Batch(touches), x);
    var b := Batch(touches);
    if x in touches {
      var i :| 0 <= i < |b| && b[i].id == x;
    }
  }

  ghost predicate TouchesAgree(s: Held, o: Os) {
    && (forall id: u16 :: id in o.touches <==> id in s.touches)
    && (forall id | id in s.touches :: s.touches[id].id == id && s.touches[id].flags == Update && id < 10)
  }

  /** What is sent for a touch event, and what is left. */
  ghost predicate TouchSent(s: Held, e: Event, r: Injected, all: map<u16, Contact>) {
    && r.packets == [Touch(Batch(all))] && Named(all)
    && (forall id: u16 :: id in all <==> id in s.touches || id == e.contactId)
    && (forall id | id in all :: all[id].flags == if id == e.contactId then TouchFlags(e.phase) else Update)
    && (e.phase == 0 <==> e.contactId !in s.touches)
    && (forall id: u16 :: id in r.held.touches <==> id in all && (id != e.contactId || e.phase < 2))
    && r.held == s.(touches := r.held.touches)
    && (forall id | id in r.held.touches ::
         r.held.touches[id].id == id && r.held.touches[id].flags == Update && id < 10)
  }

  lemma TouchParts(s: Held, o: Os, e: Event) returns (all: map<u16, Contact>)
    requires TouchesAgree(s, o) && TouchSpec(s, e).Ok?
    ensures TouchSent(s, e, TouchSpec(s, e).value, all)
  {
    hide Batch, WithContact, StillDown;
    var at := if e.phase >= 2 then s.touches[e.contactId].at else e.at.value;
    all := WithContact(s, e, at);
    var r := TouchSpec(s, e).value;
    assert r == Injected(s.(touches := StillDown(all, e)), [Touch(Batch(all))]);
    assert e.contactId < 10 && (e.phase == 0 <==> e.contactId !in s.touches);
    hide *;
    WithContactSent(s, o, e, at, all);
    StillDownNamed(all, e);
    SentNow(s, e, r, all);
  }

  lemma SentNow(s: Held, e: Event, r: Injected, all: map<u16, Contact>)
    requires r == Injected(s.(touches := StillDown(all, e)), [Touch(Batch(all))]) && Named(all)
    requires forall id: u16 :: id in all <==> id in s.touches || id == e.contactId
    requires forall id | id in all :: all[id].flags == if id == e.contactId then TouchFlags(e.phase) else Update
    requires e.phase == 0 <==> e.contactId !in s.touches
    requires var left := StillDown(all, e);
             && (forall id: u16 :: id in left <==> id in all && (id != e.contactId || e.phase < 2))
             && (forall id | id in left :: left[id].id == id && left[id].flags == Update && id < 10)
    ensures TouchSent(s, e, r, all)
  {
    hide Batch, StillDown, Named, TouchFlags;
  }

  lemma WithContactSent(s: Held, o: Os, e: Event, at: Point, all: map<u16, Contact>)
    requires all == WithContact(s, e, at) && TouchesAgree(s, o) && e.contactId < 10
    ensures Named(all) && forall id | id in all :: id < 10
    ensures forall id: u16 :: id in all <==> id in s.touches || id == e.contactId
    ensures forall id | id in all :: all[id].flags == if id == e.contactId then TouchFlags(e.phase) else Update
  {
  }

  lemma StillDownNamed(all: map<u16, Contact>, e: Event)
    requires Named(all) && forall id | id in all :: id < 10
    ensures var left := StillDown(all, e);
            && (forall id: u16 :: id in left <==> id in all && (id != e.contactId || e.phase < 2))
            && (forall id | id in left :: left[id].id == id && left[id].flags == Update && id < 10)
  {
  }

  lemma TouchedMember(s: Held, o: Os, e: Event, r: Injected, all: map<u16, Contact>, x: u16)
    requires TouchesAgree(s, o) && TouchSent(s, e, r, all)
    ensures x in Contacted(o.touches, Batch(all)) <==> x in r.held.touches
  {
    hide Contacted, Batch;
    BatchContacted(o.touches, all, x);
  }

  /** After a touch event the system holds exactly the injector's contacts. */
  lemma TouchAgrees(s: Held, o: Os, e: Event)
    requires TouchesAgree(s, o) && TouchSpec(s, e).Ok?
    ensures var r := TouchSpec(s, e).value;
            var t := AfterAll(o, r.packets);
            TouchesAgree(r.held, t) && t == o.(touches := t.touches) && r.held == s.(touches := r.held.touches)
  {
    hide TouchSpec, Contacted, Batch;
    var r := TouchSpec(s, e).value;
    var all := TouchParts(s, o, e);
    var after := Contacted(o.touches, Batch(all));
    OnePacket(o, Touch(Batch(all)));
    forall x: u16
      ensures x in after <==> x in r.held.touches
    {
      TouchedMember(s, o, e, r, all, x);
    }
  }

  /**
   What a touch event sends: every contact that is down and at most a new one, of which only the
   event's own changes.
   */
  ghost predicate GoodBatch(down: set<u16>, e: Event, b: seq<Contact>) {
    && (forall i, j | 0 <= i < j < |b| :: b[i].id < b[j].id)
    && (forall i | 0 <= i < |b| :: b[i].id in down || b[i].id == e.contactId)
    && (forall id: u16 | id in down || id == e.contactId :: Lists(b, id))
    && (forall i | 0 <= i < |b| && b[i].id != e.contactId :: b[i].flags.Update?)
    && (forall i | 0 <= i < |b| && b[i].id == e.contactId ::
          && (b[i].flags.Down? <==> e.contactId !in down)
          && (b[i].flags.Up? || b[i].flags.Cancel? <==> e.phase >= 2))
  }

  ghost predicate Lists(b: seq<Contact>, id: u16) {
    exists i | 0 <= i < |b| :: b[i].id == id
  }

  lemma TouchBatch(s: Held, o: Os, e: Event)
    requires TouchesAgree(s, o) && TouchSpec(s, e).Ok?
    ensures var packets := TouchSpec(s, e).value.packets;
            |packets| == 1 && packets[0].Touch? && GoodBatch(o.touches, e, packets[0].contacts)
  {
    hide TouchSpec, Batch;
    var all := TouchParts(s, o, e);
    BatchLists(all);
    var b := Batch(all);
    forall id: u16 | id in o.touches || id == e.contactId
      ensures Lists(b, id)
    {
      assert id in all;
    }
  }

  // Buttons agree

  ghost predicate ButtonsAgree(o: Os, buttons: u32) {
    && (forall i | 0 <= i < 3 :: BUTTONS[i] in o.buttons <==> Bit(buttons, BUTTONS[i]))
    && (forall b | b in o.buttons :: b in BUTTONS)
  }

  /** The first `n` buttons are as `now`, the others as `was`. */
  ghost predicate ButtonsSet(o: Os, was: u32, now: u32, n: nat) {
    && (forall i | 0 <= i < 3 :: BUTTONS[i] in o.buttons <==> Bit(if i < n then now else was, BUTTONS[i]))
    && (forall b | b in o.buttons :: b in BUTTONS)
  }

  lemma ButtonTurn(o: Os, was: u32, now: u32, n: nat)
    requires n < 3 && ButtonsSet(o, was, now, n)
    ensures var m := BUTTONS[n];
            var t := if Bit(was, m) != Bit(now, m) then Applied(o, Button(m, !Bit(now, m))) else o;
            t == o.(buttons := t.buttons) && ButtonsSet(t, was, now, n + 1)
  {
    hide Bit;
    assert BUTTONS[n] in BUTTONS;
  }

  lemma {:induction false} ButtonPacketsSet(o: Os, was: u32, now: u32, n: nat)
    requires n <= 3 && ButtonsSet(o, was, now, 0)
    ensures var t := AfterAll(o, ButtonPackets(was, now, n));
            t == o.(buttons := t.buttons) && ButtonsSet(t, was, now, n)
  {
    hide Bit, ButtonsSet, AfterAll, Applied;
    if n == 0 {
      HarmlessAll(o, []);
    } else {
      ButtonPacketsSet(o, was, now, n - 1);
      var m, before := BUTTONS[n - 1], ButtonPackets(was, now, n - 1);
      var p := Button(m, !Bit(now, m));
      ButtonTurn(AfterAll(o, before), was, now, n - 1);
      AppendAll(o, before, [p]);
      OnePacket(AfterAll(o, before), p);
      assert before + [] == before;
    }
  }

  /** The packets for changed buttons take the system from one mask to the other. */
  lemma ButtonPacketsAgree(o: Os, was: u32, now: u32)
    requires ButtonsAgree(o, was)
    ensures var t := AfterAll(o, ButtonPackets(was, now, 3)); t == o.(buttons := t.buttons) && ButtonsAgree(t, now)
  {
    hide Bit, AfterAll, ButtonPackets;
    ButtonPacketsSet(o, was, now, 3);
  }

  /** A packet that moves or scrolls holds nothing down. */
  predicate Harmless(p: Packet) {
    p.Move? || p.Wheel?
  }

  lemma {:induction false} HarmlessAll(o: Os, packets: seq<Packet>)
    requires forall i | 0 <= i < |packets| :: Harmless(packets[i])
    ensures AfterAll(o, packets) == o
    decreases |packets|
  {
    if packets != [] {
      HarmlessAll(o, packets[..|packets| - 1]);
    }
  }

  lemma MousePackets(o: Os, move: Packet, was: u32, now: u32, scroll: seq<Packet>)
    requires Harmless(move) && ButtonsAgree(o, was) && forall i | 0 <= i < |scroll| :: Harmless(scroll[i])
    ensures var t := AfterAll(o, ([move] + ButtonPackets(was, now, 3)) + scroll);
            t == o.(buttons := t.buttons) && ButtonsAgree(t, now)
  {
    var buttons := ButtonPackets(was, now, 3);
    OnePacket(o, move);
    assert Applied(o, move) == o;
    ButtonPacketsAgree(o, was, now);
    hide Bit, AfterAll, ButtonPackets;
    AppendAll(o, [move], buttons);
    AppendAll(o, [move] + buttons, scroll);
    HarmlessAll(AfterAll(o, [move] + buttons), scroll);
  }

  lemma MouseAgrees(s: Held, o: Os, e: Event)
    requires Agrees(s, o) && MouseSpec(s, e).Ok? && e.buttons <= 7
    ensures var r := MouseSpec(s, e).value; Agrees(r.held, AfterAll(o, r.packets))
  {
    hide Bit, ButtonPackets;
    if s.touches == map[] {
      var move := if e.kind == 1 then Move(true, e.at.value) else Move(false, e.delta);
      hide AfterAll;
      MousePackets(o, move, s.buttons, e.buttons, Scroll(e));
      hide ButtonsAgree, Scroll;
    } else {
      assert AfterAll(o, []) == o;
    }
  }

  // Keys agree

  /** The packets take the system's keys to `k.held` and touch nothing else. */
  ghost predicate KeysAgree(o: Os, k: Keys) {
    && AfterAll(o, k.packets) == o.(keys := AfterAll(o, k.packets).keys)
    && AfterAll(o, k.packets).keys == k.held
    && forall c | c in k.held :: c < 0x200
  }

  lemma KeyApplied(o: Os, code: u16, up: bool)
    requires code < 0x200
    ensures Applied(o, KeyPacket(code, up)) == o.(keys := if up then o.keys - {code} else o.keys + {code})
  {
    assert code % 0x100 + (if Bit(code, 0x100) then 0x100 else 0) == code;
  }

  lemma PressAgrees(o: Os, k: Keys, code: u16)
    requires KeysAgree(o, k) && code < 0x200
    ensures KeysAgree(o, Press(k, code))
  {
    var p := KeyPacket(code, false);
    AppendAll(o, k.packets, [p]);
    OnePacket(AfterAll(o, k.packets), p);
    KeyApplied(AfterAll(o, k.packets), code, false);
    hide AfterAll, KeyPacket;
  }

  lemma ReleaseAgrees(o: Os, k: Keys, code: u16)
    requires KeysAgree(o, k)
    ensures KeysAgree(o, Release(k, code))
  {
    if code in k.held {
      var p := KeyPacket(code, true);
      AppendAll(o, k.packets, [p]);
      OnePacket(AfterAll(o, k.packets), p);
      KeyApplied(AfterAll(o, k.packets), code, true);
      hide AfterAll, KeyPacket;
    }
  }

  lemma ModifierAgrees(o: Os, k: Keys, scan: u16, modifiers: u16, g: nat)
    requires g < 4 && KeysAgree(o, k)
    ensures KeysAgree(o, Modifier(k, scan, modifiers, g))
  {
    hide KeysAgree, Bit, Press, Release;
    PressAgrees(o, k, LEFT[g]);
    ReleaseAgrees(o, k, LEFT[g]);
    ReleaseAgrees(o, Release(k, LEFT[g]), RIGHT[g]);
  }

  lemma {:induction false} ModifiersAgree(o: Os, keys: set<u16>, scan: u16, modifiers: u16, n: nat)
    requires n <= 4 && o.keys == keys && forall c | c in keys :: c < 0x200
    ensures KeysAgree(o, Modifiers(keys, scan, modifiers, n))
  {
    hide Modifier;
    if n > 0 {
      ModifiersAgree(o, keys, scan, modifiers, n - 1);
      hide KeysAgree;
      ModifierAgrees(o, Modifiers(keys, scan, modifiers, n - 1), scan, modifiers, n - 1);
    } else {
      assert AfterAll(o, []) == o;
    }
  }

  predicate IsModifier(code: int) {
    code in LEFT || code in RIGHT
  }

  ghost predicate Plain(codes: seq<u16>) {
    forall i | 0 <= i < |codes| :: codes[i] < 0x200 && !IsModifier(codes[i])
  }

  lemma PlainTables()
    ensures Plain(LETTERS) && Plain(MARKS)
  {
    assert forall i | 0 <= i < |LETTERS| :: LETTERS[i] != 0x1d && LETTERS[i] != 0x2a && LETTERS[i] < 0x36;
    assert forall i | 0 <= i < |MARKS| ::
             MARKS[i] != 0x1d && MARKS[i] != 0x2a && MARKS[i] != 0x36 && MARKS[i] != 0x38 && MARKS[i] < 0x3b;
  }

  lemma PlainNavigation()
    ensures Plain(NAVIGATION)
  {
    assert forall i | 0 <= i < |NAVIGATION| ::
             0x36 < NAVIGATION[i] < 0x15b && NAVIGATION[i] != 0x38 && NAVIGATION[i] != 0x11d && NAVIGATION[i] != 0x138;
  }

  /** The table gives a modifier's code to the eight modifier usages only, and codes below 0x200. */
  lemma ScanCodes(hid: u16)
    requires ScanCode(hid).Some?
    ensures ScanCode(hid).value < 0x200
    ensures IsModifier(ScanCode(hid).value) <==> 224 <= hid <= 231
  {
    PlainTables();
    PlainNavigation();
    hide Plain;
    if 4 <= hid <= 29 {
      PlainAt(LETTERS, hid - 4);
    } else if 39 <= hid <= 57 && hid != 50 {
      PlainAt(MARKS, hid - 39);
    } else if 73 <= hid <= 99 {
      PlainAt(NAVIGATION, hid - 73);
    }
  }

  lemma PlainAt(codes: seq<u16>, i: nat)
    requires Plain(codes) && i < |codes|
    ensures codes[i] < 0x200 && !IsModifier(codes[i])
  {
  }

  lemma KeyboardAgrees(s: Held, o: Os, e: Event)
    requires Agrees(s, o)
    ensures var r := KeyboardSpec(s, e); Agrees(r.held, AfterAll(o, r.packets))
  {
    var scan := ScanCode(e.physicalKey);
    hide ScanCode, AfterAll, Modifiers, Press, Release, Bit, TouchesAgree, ButtonsAgree;
    if scan.Some? {
      var k := Modifiers(s.keys, scan.value, e.modifiers, 4);
      var after := if e.phase >= 2 then Release(k, scan.value) else Press(k, scan.value);
      var r := KeyboardSpec(s, e);
      assert r == Injected(s.(keys := after.held), after.packets);
      assert o.keys == s.keys && forall c | c in s.keys :: c < 0x200;
      ScanCodes(e.physicalKey);
      ModifiersAgree(o, s.keys, scan.value, e.modifiers, 4);
      PressAgrees(o, k, scan.value);
      ReleaseAgrees(o, k, scan.value);
      assert KeysAgree(o, after);
      OtherKeys(s, o, after);
    } else {
      HarmlessAll(o, []);
    }
  }

  /** Keys that agree leave touches and buttons as they agreed before. */
  lemma OtherKeys(s: Held, o: Os, k: Keys)
    requires Agrees(s, o) && KeysAgree(o, k)
    ensures Agrees(s.(keys := k.held), AfterAll(o, k.packets))
  {
    hide AfterAll, Bit;
  }

  /** The modifier `g` is held on one side or the other. */
  predicate ModifierHeld(keys: set<int>, g: nat)
    requires g < 4
  {
    LEFT[g] in keys || RIGHT[g] in keys
  }

  lemma OthersKeep(k: Keys, scan: u16, modifiers: u16, g: nat, h: nat)
    requires g < 4 && h < 4 && g != h
    ensures ModifierHeld(Modifier(k, scan, modifiers, g).held, h) == ModifierHeld(k.held, h)
  {
    hide Bit, KeyPacket;
  }

  lemma OwnSet(k: Keys, scan: u16, modifiers: u16, g: nat)
    requires g < 4 && scan != LEFT[g] && scan != RIGHT[g]
    ensures ModifierHeld(Modifier(k, scan, modifiers, g).held, g) <==> Bit(modifiers, MASKS[g])
  {
    hide Bit, KeyPacket;
  }

  lemma {:induction false} ModifiersSet(keys: set<u16>, scan: u16, modifiers: u16, n: nat, h: nat)
    requires h < n <= 4 && scan != LEFT[h] && scan != RIGHT[h]
    ensures ModifierHeld(Modifiers(keys, scan, modifiers, n).held, h) <==> Bit(modifiers, MASKS[h])
  {
    hide Modifier, ModifierHeld, Bit;
    var before := Modifiers(keys, scan, modifiers, n - 1);
    if h == n - 1 {
      OwnSet(before, scan, modifiers, h);
    } else {
      ModifiersSet(keys, scan, modifiers, n - 1, h);
      OthersKeep(before, scan, modifiers, n - 1, h);
    }
  }

  /**
   After a key event the system holds exactly the modifiers of the event's mask: all of them for a key
   that is in the table and not itself a modifier, and all but its own for a modifier key.
   */
  lemma ModifiersFollowMask(s: Held, o: Os, e: Event, g: nat)
    requires Agrees(s, o) && g < 4 && ScanCode(e.physicalKey).Some?
    requires ScanCode(e.physicalKey).value != LEFT[g] && ScanCode(e.physicalKey).value != RIGHT[g]
    ensures ModifierHeld(AfterAll(o, KeyboardSpec(s, e).packets).keys, g) <==> Bit(e.modifiers, MASKS[g])
  {
    KeyboardAgrees(s, o, e);
    var scan := ScanCode(e.physicalKey).value;
    hide Modifiers, Modifier, AfterAll, Bit, TouchesAgree, ButtonsAgree, ScanCode, KeyPacket;
    ModifiersSet(s.keys, scan, e.modifiers, 4, g);
  }

  // Releasing everything

  lemma {:induction false} KeyUpsApplied(o: Os, codes: seq<u16>)
    requires forall i | 0 <= i < |codes| :: codes[i] < 0x200
    ensures var t := AfterAll(o, KeyUps(codes));
            t == o.(keys := t.keys) && forall c :: c in t.keys <==> c in o.keys && c !in codes
    decreases |codes|
  {
    if codes != [] {
      var k := |codes| - 1;
      KeyUpsApplied(o, codes[..k]);
      KeyApplied(AfterAll(o, KeyUps(codes[..k])), codes[k], true);
      hide KeyPacket;
      assert codes == codes[..k] + [codes[k]];
    }
  }

  lemma CancelsAll(o: Os, touches: map<u16, Contact>)
    requires Named(touches) && forall id: u16 :: id in o.touches <==> id in touches
    ensures Contacted(o.touches, Batch(WithFlags(touches, Cancel))) == {}
  {
    var m := WithFlags(touches, Cancel);
    var after := Contacted(o.touches, Batch(m));
    hide Contacted, Batch;
    forall x: u16
      ensures x !in after
    {
      BatchContacted(o.touches, m, x);
    }
    assert forall x | x in after :: x in {};
  }

  lemma KeysCleared(o: Os, keys: set<u16>)
    requires o.keys == keys && forall c | c in keys :: c < 0x200
    ensures AfterAll(o, KeyUps(InOrder(keys))) == o.(keys := {})
  {
    var codes := InOrder(keys);
    assert forall i | 0 <= i < |codes| :: codes[i] in keys by {
      assert forall i | 0 <= i < |codes| :: codes[i] in codes;
    }
    KeyUpsApplied(o, codes);
    var left := AfterAll(o, KeyUps(codes)).keys;
    hide AfterAll, KeyUps;
    assert forall c | c in left :: c in {};
  }

  lemma ButtonsCleared(o: Os, buttons: u32)
    requires ButtonsAgree(o, buttons)
    ensures AfterAll(o, ButtonPackets(buttons, 0, 3)) == o.(buttons := {})
  {
    ButtonPacketsAgree(o, buttons, 0);
    var left := AfterAll(o, ButtonPackets(buttons, 0, 3)).buttons;
    hide AfterAll, ButtonPackets;
    assert BUTTONS[0] !in left && BUTTONS[1] !in left && BUTTONS[2] !in left;
    assert forall b :: b in BUTTONS ==> b == BUTTONS[0] || b == BUTTONS[1] || b == BUTTONS[2];
    assert forall b | b in left :: b in {};
  }

  lemma TouchesCleared(s: Held, o: Os)
    requires TouchesAgree(s, o)
    ensures AfterAll(o, if s.touches == map[] then [] else [Touch(Batch(WithFlags(s.touches, Cancel)))])
            == o.(touches := {})
  {
    hide Batch, Contacted;
    if s.touches == map[] {
      assert AfterAll(o, []) == o;
      assert forall x | x in o.touches :: x in {};
    } else {
      OnePacket(o, Touch(Batch(WithFlags(s.touches, Cancel))));
      CancelsAll(o, s.touches);
    }
  }

  /** Releasing leaves nothing held down. */
  lemma ReleasedAll(s: Held, o: Os)
    requires Agrees(s, o)
    ensures AfterAll(o, ReleaseSpec(s).packets) == Os({}, {}, {})
  {
    var touch := if s.touches == map[] then [] else [Touch(Batch(WithFlags(s.touches, Cancel)))];
    var keys, buttons := KeyUps(InOrder(s.keys)), ButtonPackets(s.buttons, 0, 3);
    hide AfterAll, Batch, KeyUps, InOrder, ButtonPackets, WithFlags, Bit;
    TouchesCleared(s, o);
    var o1 := o.(touches := {});
    KeysCleared(o1, s.keys);
    ButtonsCleared(o1.(keys := {}), s.buttons);
    AppendAll(o, touch, keys);
    AppendAll(o, touch + keys, buttons);
  }

  // Runs

  datatype Command = Input(e: Event) | ReleaseAll

  /** What the injector holds and has sent after a run; a rejected event does nothing. */
  function Handled(s: Held, c: Command): Injected {
    match c
    case Input(e) => (match EventSpec(s, e) case Ok(r) => r case Err(_) => Injected(s, []))
    case ReleaseAll => ReleaseSpec(s)
  }

  function After(commands: seq<Command>): Injected {
    if commands == [] then Injected(NOTHING, [])
    else
      var k := |commands| - 1;
      var before := After(commands[..k]);
      var r := Handled(before.held, commands[k]);
      Injected(r.held, before.packets + r.packets)
  }

  const NOTHING_DOWN: Os := Os({}, {}, {})

  lemma HandledAgrees(s: Held, o: Os, c: Command)
    requires Agrees(s, o)
    ensures Agrees(Handled(s, c).held, AfterAll(o, Handled(s, c).packets))
  {
    assert AfterAll(o, []) == o;
    hide AfterAll, TouchSpec, MouseSpec, KeyboardSpec;
    match c
    case Input(e) =>
      if EventSpec(s, e).Ok? {
        if e.kind == 0 {
          TouchAgrees(s, o, e);
        } else if e.kind == 3 {
          hide Agrees;
          KeyboardAgrees(s, o, e);
        } else {
          hide Agrees;
          MouseAgrees(s, o, e);
        }
      }
    case ReleaseAll =>
      hide ReleaseSpec;
      ReleasedAll(s, o);
      NothingAgrees(s);
  }

  lemma NothingAgrees(s: Held)
    ensures ReleaseSpec(s).held == NOTHING && Agrees(NOTHING, NOTHING_DOWN)
  {
  }

  /** After any run of events, accepted or rejected, and releases, the injector's account is the truth. */
  lemma {:induction false} AlwaysAgrees(commands: seq<Command>)
    ensures Agrees(After(commands).held, AfterAll(NOTHING_DOWN, After(commands).packets))
  {
    hide Agrees, Handled, AfterAll;
    if commands == [] {
      NothingAgrees(NOTHING);
      assert AfterAll(NOTHING_DOWN, []) == NOTHING_DOWN by {
        HarmlessAll(NOTHING_DOWN, []);
      }
    } else {
      var k := |commands| - 1;
      AlwaysAgrees(commands[..k]);
      var before := After(commands[..k]);
      var o := AfterAll(NOTHING_DOWN, before.packets);
      HandledAgrees(before.held, o, commands[k]);
      AppendAll(NOTHING_DOWN, before.packets, Handled(before.held, commands[k]).packets);
    }
  }

  // The injector

  class Injector {
    var touches: map<u16, Contact>
    var keys: set<u16>
    var buttons: u32
    /** What has been sent to the operating system. */
    var log: seq<Packet>

    constructor ()
      ensures Value() == NOTHING && log == []
    {
      touches, keys, buttons, log := map[], {}, 0, [];
    }

    function Value(): Held
      reads this
    {
      Held(touches, keys, buttons)
    }

    method Send(p: Packet)
      modifies this`log
      ensures log == old(log) + [p]
    {
      log := log + [p];
    }

    /** Handles one event; a rejected one changes nothing. */
    method HandleEvent(e: Event) returns (r: Option<Rejection>)
      modifies this
      ensures match EventSpec(old(Value()), e)
              case Ok(i) => r.None? && Value() == i.held && log == old(log) + i.packets
              case Err(x) => r == Some(x) && Value() == old(Value()) && log == old(log)
    {
      hide TouchSpec, MouseSpec, KeyboardSpec;
      if e.phase > 3 || e.buttons > 7 || e.isRepeat > 1 {
        return Some(BadFlags);
      }
      match e.kind
      case 0 => r := HandleTouch(e);
      case 1 => r := HandleMouse(e);
      case 2 => r := HandleMouse(e);
      case 3 =>
        HandleKey(e);
        r := None;
      case _ => r := Some(BadKind);
    }

    method HandleTouch(e: Event) returns (r: Option<Rejection>)
      modifies this
      ensures match TouchSpec(old(Value()), e)
              case Ok(i) => r.None? && Value() == i.held && log == old(log) + i.packets
              case Err(x) => r == Some(x) && Value() == old(Value()) && log == old(log)
    {
      hide Batch;
      if e.contactId >= 10 {
        return Some(TooManyContacts);
      }
      if e.at.None? {
        return Some(BadPosition);
      }
      var at := e.at.value;
      if e.phase >= 2 && e.contactId in touches {
        at := touches[e.contactId].at;
      }
      if e.phase == 0 {
        if e.contactId in touches {
          return Some(DuplicateDown);
        }
      } else if e.contactId !in touches {
        return Some(NoDown);
      }
      touches := touches[e.contactId := Contact(e.contactId, TouchFlags(e.phase), at)];
      ghost var all := touches;
      assert all == WithContact(old(Value()), e, at) && e.contactId in all;
      InjectTouches();
      if e.phase >= 2 {
        touches := touches - {e.contactId};
      }
      MarkAll(Update);
      assert touches == StillDown(all, e);
      return None;
    }

    method InjectTouches()
      modifies this`log
      ensures log == old(log) + if touches == map[] then [] else [Touch(Batch(touches))]
    {
      var p := Batch(touches);
      BatchEmpty(touches);
      if p != [] {
        Send(Touch(p));
      }
    }

    /** Gives every contact these flags. */
    method MarkAll(flags: Flags)
      modifies this`touches
      ensures touches == WithFlags(old(touches), flags)
    {
      ghost var was := touches;
      var left := touches.Keys;
      NoneMarked(was, flags);
      hide Marked;
      while left != {}
        invariant left <= was.Keys && touches == Marked(was, was.Keys - left, flags)
        decreases |left|
      {
        HasMember(left);
        var id: u16 :| id in left;
        MarkedTurn(was, was.Keys - left, id, flags);
        assert was.Keys - left + {id} == was.Keys - (left - {id});
        touches := touches[id := touches[id].(flags := flags)];
        left := left - {id};
      }
      AllMarked(was, flags);
      assert was.Keys - {} == was.Keys;
    }

    method HandleMouse(e: Event) returns (r: Option<Rejection>)
      modifies this
      ensures match MouseSpec(old(Value()), e)
              case Ok(i) => r.None? && Value() == i.held && log == old(log) + i.packets
              case Err(x) => r == Some(x) && Value() == old(Value()) && log == old(log)
    {
      hide Bit, Batch;
      if !e.deltaOk {
        return Some(BadDelta);
      }
      if touches != map[] {
        assert log + [] == log;
        return None;
      }
      var move := Move(false, e.delta);
      if e.kind == 1 {
        if e.at.None? {
          return Some(BadPosition);
        }
        move := Move(true, e.at.value);
      }
      Send(move);
      for i := 0 to 3
        invariant Value() == old(Value()) && log == (old(log) + [move]) + ButtonPackets(buttons, e.buttons, i)
      {
        var mask := BUTTONS[i];
        if Bit(e.buttons, mask) != Bit(buttons, mask) {
          Send(Button(mask, !Bit(e.buttons, mask)));
        }
      }
      buttons := e.buttons;
      if e.kind == 1 {
        if e.scrollY.Some? {
          Send(Wheel(false, e.scrollY.value));
        }
        if e.scrollX.Some? {
          Send(Wheel(true, e.scrollX.value));
        }
      }
      Regroup(old(log), [move], ButtonPackets(old(buttons), e.buttons, 3), Scroll(e));
      return None;
    }

    method SendKey(code: u16, up: bool)
      modifies this`log
      ensures log == old(log) + [KeyPacket(code, up)]
    {
      Send(Key(code % 0x100, Bit(code, 0x100), up));
    }

    method ReleaseKey(code: u16)
      modifies this`keys, this`log
      ensures Keys(keys, log) == Release(Keys(old(keys), old(log)), code)
    {
      if code in keys {
        keys := keys - {code};
        SendKey(code, true);
      }
    }

    method PressKey(code: u16)
      modifies this`keys, this`log
      ensures Keys(keys, log) == Press(Keys(old(keys), old(log)), code)
    {
      SendKey(code, false);
      keys := keys + {code};
    }

    method HandleKey(e: Event)
      modifies this`keys, this`log
      ensures var i := KeyboardSpec(old(Value()), e); Value() == i.held && log == old(log) + i.packets
    {
      hide ScanCode, Bit, Press, Release, Modifier;
      var scan := ScanCode(e.physicalKey);
      if scan.None? {
        return;
      }
      ghost var was, start := keys, log;
      assert start + [] == start;
      for g := 0 to 4
        invariant Keys(keys, log) == Behind(start, Modifiers(was, scan.value, e.modifiers, g))
        invariant touches == old(touches) && buttons == old(buttons)
      {
        ghost var k := Modifiers(was, scan.value, e.modifiers, g);
        SetModifier(scan.value, e.modifiers, g);
        ModifierBehind(start, k, scan.value, e.modifiers, g);
      }
      ghost var k := Modifiers(was, scan.value, e.modifiers, 4);
      if e.phase >= 2 {
        ReleaseBehind(start, k, scan.value);
        ReleaseKey(scan.value);
      } else {
        PressBehind(start, k, scan.value);
        PressKey(scan.value);
      }
    }

    method SetModifier(scan: u16, modifiers: u16, g: nat)
      requires g < 4
      modifies this`keys, this`log
      ensures Keys(keys, log) == Modifier(Keys(old(keys), old(log)), scan, modifiers, g)
    {
      var left, right := LEFT[g], RIGHT[g];
      if scan == left || scan == right {
        return;
      }
      if Bit(modifiers, MASKS[g]) {
        if left !in keys && right !in keys {
          PressKey(left);
        }
      } else {
        ReleaseKey(left);
        ReleaseKey(right);
      }
    }

    method ReleaseEverything()
      modifies this
      ensures Value() == NOTHING && log == old(log) + ReleaseSpec(old(Value())).packets
    {
      hide Batch, Bit, KeyUps, ButtonPackets, WithFlags, InOrder;
      ghost var start, touch := log, if touches == map[] then [] else [Touch(Batch(WithFlags(touches, Cancel)))];
      CancelTouches();
      ReleaseKeys();
      ReleaseButtons();
      Regroup(start, touch, KeyUps(InOrder(old(keys))), ButtonPackets(old(buttons), 0, 3));
    }

    method CancelTouches()
      modifies this`touches, this`log
      ensures touches == map[]
      ensures log == old(log) + if old(touches) == map[] then [] else [Touch(Batch(WithFlags(old(touches), Cancel)))]
    {
      hide Batch;
      MarkAll(Cancel);
      assert (touches == map[]) == (old(touches) == map[]) by {
        assert touches.Keys == old(touches).Keys;
      }
      InjectTouches();
      touches := map[];
    }

    method ReleaseKeys()
      modifies this`keys, this`log
      ensures keys == {} && log == old(log) + KeyUps(InOrder(old(keys)))
    {
      var codes := InOrder(keys);
      hide InOrder, KeyPacket;
      for i := 0 to |codes|
        invariant log == old(log) + KeyUps(codes[..i])
      {
        assert codes[..i + 1][..i] == codes[..i];
        SendKey(codes[i], true);
      }
      assert codes[..|codes|] == codes;
      keys := {};
    }

    method ReleaseButtons()
      modifies this`buttons, this`log
      ensures buttons == 0 && log == old(log) + ButtonPackets(old(buttons), 0, 3)
    {
      hide Bit;
      for i := 0 to 3
        invariant log == old(log) + ButtonPackets(buttons, 0, i) && buttons == old(buttons)
      {
        var mask := BUTTONS[i];
        NoBits(mask);
        if Bit(buttons, mask) {
          Send(Button(mask, true));
        }
      }
      buttons := 0;
    }
  }

  /** The contacts with those of the ids `done` given these flags. */
  function Marked(was: map<u16, Contact>, done: set<u16>, flags: Flags): (r: map<u16, Contact>)
    ensures r.Keys == was.Keys
  {
    map id | id in was :: if id in done then was[id].(flags := flags) else was[id]
  }

  lemma NoneMarked(was: map<u16, Contact>, flags: Flags)
    ensures was == Marked(was, was.Keys - was.Keys, flags)
  {
  }

  lemma AllMarked(was: map<u16, Contact>, flags: Flags)
    ensures Marked(was, was.Keys, flags) == WithFlags(was, flags)
  {
    assert forall id | id in was :: id in was.Keys;
  }

  lemma MarkedTurn(was: map<u16, Contact>, done: set<u16>, id: u16, flags: Flags)
    requires id in was && id !in done
    ensures var m := Marked(was, done, flags);
            m[id := m[id].(flags := flags)] == Marked(was, done + {id}, flags)
  {
  }

  lemma NoBits(mask: int)
    requires mask > 0
    ensures !Bit(0, mask)
  {
  }

  lemma BatchEmpty(touches: map<u16, Contact>)
    ensures Batch(touches) == [] <==> touches == map[]
  {
    assert |Batch(touches)| == |touches.Keys|;
    if touches != map[] {
      HasKey(touches);
      var id :| id in touches;
      assert id in touches.Keys;
    }
  }

  lemma Regroup(a: seq<Packet>, b: seq<Packet>, c: seq<Packet>, d: seq<Packet>)
    ensures a + ((b + c) + d) == ((a + b) + c) + d
  {
  }

  /** The same keys, with earlier packets in front. */
  function Behind(start: seq<Packet>, k: Keys): Keys {
    Keys(k.held, start + k.packets)
  }

  lemma ReleaseBehind(start: seq<Packet>, k: Keys, code: u16)
    ensures Release(Behind(start, k), code) == Behind(start, Release(k, code))
  {
    var p := [KeyPacket(code, true)];
    assert start + (k.packets + p) == (start + k.packets) + p;
  }

  lemma PressBehind(start: seq<Packet>, k: Keys, code: u16)
    ensures Press(Behind(start, k), code) == Behind(start, Press(k, code))
  {
    var p := [KeyPacket(code, false)];
    assert start + (k.packets + p) == (start + k.packets) + p;
  }

  lemma ModifierBehind(start: seq<Packet>, k: Keys, scan: u16, modifiers: u16, g: nat)
    requires g < 4
    ensures Modifier(Behind(start, k), scan, modifiers, g) == Behind(start, Modifier(k, scan, modifiers, g))
  {
    PressBehind(start, k, LEFT[g]);
    ReleaseBehind(start, k, LEFT[g]);
    ReleaseBehind(start, Release(k, LEFT[g]), RIGHT[g]);
    hide Press, Release;
  }
}
