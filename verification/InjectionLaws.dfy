/** What one event does to the system's keys, contacts, pointer and buttons, told from the event itself. */
module InjectionLaws {
  import opened Base
  import opened Injection

  predicate FlagsOk(e: Event) {
    e.phase <= 3 && e.buttons <= 7 && e.isRepeat <= 1
  }

  /** Flags out of range and unknown kinds are refused; a key event is not, and an unknown key does nothing. */
  lemma EventLaw(s: Held, e: Event)
    ensures var r := EventSpec(s, e);
            && (r == Err(BadFlags) <==> !FlagsOk(e)) && (r == Err(BadKind) <==> FlagsOk(e) && e.kind > 3)
            && (FlagsOk(e) && e.kind == 3 ==> r.Ok?)
            && (FlagsOk(e) && e.kind == 3 && ScanCode(e.physicalKey).None? ==> r.value == Injected(s, []))
  {
    hide Modifiers, ScanCode, Batch, ButtonPackets;
  }

  // Keys

  /** The codes of the modifiers on either side of the keyboard. */
  const SIDES: set<int> := {0x1d, 0x11d, 0x2a, 0x36, 0x38, 0x138, 0x15b, 0x15c}

  /**
   One modifier, `l` on the left and `r` on the right, for an event of key `code`. Its own side is not touched but
   for the key itself; when the mask wants it and neither side is down, the left goes down; when the mask does not,
   both go up.
   */
  ghost predicate Side(before: set<int>, after: set<int>, code: int, modifiers: int, mask: int, l: int, r: int)
    requires mask > 0
  {
    if code == l || code == r then
      (l == code || (l in after <==> l in before)) && (r == code || (r in after <==> r in before))
    else if modifiers / mask % 2 == 1 then
      (l in after <==> l in before || r !in before) && (r in after <==> r in before)
    else l !in after && r !in after
  }

  /** The packet presses or releases this key. */
  predicate Names(p: Packet, code: int) {
    p.Key? && code == p.scan + if p.extended then 0x100 else 0
  }

  lemma ModifierExact(k: Keys, scan: u16, modifiers: u16, g: nat)
    requires g < 4
    ensures var t := Modifier(k, scan, modifiers, g);
            && (forall c: u16 | c != LEFT[g] && c != RIGHT[g] :: c in t.held <==> c in k.held)
            && (if scan == LEFT[g] || scan == RIGHT[g] then t.held == k.held
                else if modifiers / MASKS[g] % 2 == 1 then
                  && (LEFT[g] in t.held <==> LEFT[g] in k.held || RIGHT[g] !in k.held)
                  && (RIGHT[g] in t.held <==> RIGHT[g] in k.held)
                else LEFT[g] !in t.held && RIGHT[g] !in t.held)
  {
    hide KeyPacket;
  }

  /** The key of a modifier other than `g` stays as it is when `g` is set. */
  lemma SidesApart(g: nat, h: nat)
    requires g < 4 && h < 4 && g != h
    ensures LEFT[g] != LEFT[h] && LEFT[g] != RIGHT[h] && RIGHT[g] != LEFT[h] && RIGHT[g] != RIGHT[h]
  {
  }

  ghost predicate GroupSet(before: set<u16>, after: set<u16>, scan: u16, modifiers: u16, g: nat)
    requires g < 4
  {
    var l, r := LEFT[g], RIGHT[g];
    if scan == l || scan == r then (l in after <==> l in before) && (r in after <==> r in before)
    else if modifiers / MASKS[g] % 2 == 1 then
      (l in after <==> l in before || r !in before) && (r in after <==> r in before)
    else l !in after && r !in after
  }

  /** The first `n` modifiers are as the event wants them, the others as they were. */
  ghost predicate GroupsSet(before: set<u16>, after: set<u16>, scan: u16, modifiers: u16, n: nat) {
    && (forall g: nat | g < n && g < 4 :: GroupSet(before, after, scan, modifiers, g))
    && (forall g: nat | n <= g < 4 :: SideSame(before, after, g))
    && (forall c: u16 | !IsModifier(c) :: c in after <==> c in before)
  }

  lemma {:induction false} ModifiersExact(keys: set<u16>, scan: u16, modifiers: u16, n: nat)
    requires n <= 4
    ensures GroupsSet(keys, Modifiers(keys, scan, modifiers, n).held, scan, modifiers, n)
  {
    hide Modifier, GroupsSet;
    if n == 0 {
      SidesSame(keys, scan, modifiers);
    } else {
      ModifiersExact(keys, scan, modifiers, n - 1);
      OneMoreSet(keys, Modifiers(keys, scan, modifiers, n - 1), scan, modifiers, n - 1);
    }
  }

  lemma OneMoreSet(keys: set<u16>, k: Keys, scan: u16, modifiers: u16, h: nat)
    requires h < 4 && GroupsSet(keys, k.held, scan, modifiers, h)
    ensures GroupsSet(keys, Modifier(k, scan, modifiers, h).held, scan, modifiers, h + 1)
  {
    hide Modifier, GroupSet, SideSame, IsModifier;
    var t := Modifier(k, scan, modifiers, h);
    forall g: nat | g < 4
      ensures if g <= h then GroupSet(keys, t.held, scan, modifiers, g) else SideSame(keys, t.held, g)
    {
      assert if g < h then GroupSet(keys, k.held, scan, modifiers, g) else SideSame(keys, k.held, g);
      OneModifier(keys, k, scan, modifiers, h, g);
    }
    OthersSame(k, scan, modifiers, h);
  }

  ghost predicate SideSame(before: set<u16>, after: set<u16>, g: nat)
    requires g < 4
  {
    (LEFT[g] in after <==> LEFT[g] in before) && (RIGHT[g] in after <==> RIGHT[g] in before)
  }

  lemma SidesSame(keys: set<u16>, scan: u16, modifiers: u16)
    ensures GroupsSet(keys, keys, scan, modifiers, 0)
  {
  }

  lemma OneModifier(keys: set<u16>, k: Keys, scan: u16, modifiers: u16, h: nat, g: nat)
    requires h < 4 && g < 4
    requires if g < h then GroupSet(keys, k.held, scan, modifiers, g) else SideSame(keys, k.held, g)
    ensures var t := Modifier(k, scan, modifiers, h).held;
            if g <= h then GroupSet(keys, t, scan, modifiers, g) else SideSame(keys, t, g)
  {
    ModifierExact(k, scan, modifiers, h);
    if g != h {
      SidesApart(g, h);
    }
    hide Modifier;
  }

  lemma OthersSame(k: Keys, scan: u16, modifiers: u16, g: nat)
    requires g < 4
    ensures forall c: u16 | !IsModifier(c) :: c in Modifier(k, scan, modifiers, g).held <==> c in k.held
  {
    ModifierExact(k, scan, modifiers, g);
    hide Modifier;
  }

  // What is sent for a key

  /** Only this key and modifiers are named. */
  ghost predicate NamesOnly(packets: seq<Packet>, code: int) {
    forall p | p in packets :: p.Key? && exists c :: Names(p, c) && (c == code || IsModifier(c))
  }

  lemma KeyNames(code: u16, up: bool)
    requires code < 0x200
    ensures Names(KeyPacket(code, up), code)
    ensures KeyPacket(code, up) == Key(code % 0x100, code >= 0x100, up)
  {
  }

  lemma PacketAdded(packets: seq<Packet>, code: int, p: Packet, c: int)
    requires NamesOnly(packets, code) && Names(p, c) && (c == code || IsModifier(c))
    ensures NamesOnly(packets + [p], code)
  {
    hide IsModifier;
  }

  lemma SidesBelow(g: nat)
    requires g < 4
    ensures LEFT[g] < 0x200 && RIGHT[g] < 0x200 && IsModifier(LEFT[g]) && IsModifier(RIGHT[g])
  {
    assert LEFT[g] in LEFT && RIGHT[g] in RIGHT;
  }

  lemma ModifierNames(k: Keys, scan: u16, modifiers: u16, g: nat)
    requires g < 4 && NamesOnly(k.packets, scan)
    ensures NamesOnly(Modifier(k, scan, modifiers, g).packets, scan)
  {
    SidesBelow(g);
    hide NamesOnly, IsModifier, KeyPacket, Bit;
    var l, r := LEFT[g], RIGHT[g];
    KeyNames(l, false);
    KeyNames(l, true);
    KeyNames(r, true);
    PacketAdded(k.packets, scan, KeyPacket(l, false), l);
    PacketAdded(k.packets, scan, KeyPacket(l, true), l);
    PacketAdded(Release(k, l).packets, scan, KeyPacket(r, true), r);
  }

  lemma {:induction false} ModifiersName(keys: set<u16>, scan: u16, modifiers: u16, n: nat)
    requires n <= 4
    ensures NamesOnly(Modifiers(keys, scan, modifiers, n).packets, scan)
  {
    hide NamesOnly, Modifier;
    if n > 0 {
      ModifiersName(keys, scan, modifiers, n - 1);
      ModifierNames(Modifiers(keys, scan, modifiers, n - 1), scan, modifiers, n - 1);
    } else {
      NothingNamed(scan);
    }
  }

  lemma NothingNamed(code: int)
    ensures NamesOnly([], code)
  {
  }

  /** What an accepted event of a mapped key leaves held, and the packets it sends, told from the event. */
  ghost predicate KeyDone(before: set<int>, after: set<int>, packets: seq<Packet>, e: Event, code: int) {
    && (code in after <==> e.phase < 2)
    && (forall c: int | c != code && c !in SIDES :: c in after <==> c in before)
    && Side(before, after, code, e.modifiers, 1, 0x1d, 0x11d) && Side(before, after, code, e.modifiers, 2, 0x2a, 0x36)
    && Side(before, after, code, e.modifiers, 4, 0x38, 0x138) && Side(before, after, code, e.modifiers, 8, 0x15b, 0x15c)
    && NamesOnly(packets, code)
    && (e.phase < 2 || code in before ==>
          packets != [] && packets[|packets| - 1] == Key(code % 0x100, code >= 0x100, e.phase >= 2))
  }

  /**
   After an accepted key event whose usage is in the table, the system holds the key exactly if the event is a press
   or a repeat, every key that is neither it nor a modifier is as before, the modifiers follow the mask, and the last
   packet is the key's own. Nothing else is touched.
   */
  lemma KeyLaw(s: Held, o: Os, e: Event)
    requires Agrees(s, o) && FlagsOk(e) && e.kind == 3 && ScanCode(e.physicalKey).Some?
    ensures EventSpec(s, e).Ok?
    ensures var r, code := EventSpec(s, e).value, ScanCode(e.physicalKey).value;
            var t := AfterAll(o, r.packets);
            && KeyDone(o.keys, t.keys, r.packets, e, code)
            && t.touches == o.touches && t.buttons == o.buttons && r.held == s.(keys := r.held.keys)
  {
    var code := ScanCode(e.physicalKey).value;
    assert EventSpec(s, e) == Ok(KeyboardSpec(s, e));
    ScanCodes(e.physicalKey);
    var k := Modifiers(s.keys, code, e.modifiers, 4);
    KeyboardIs(s, e, k);
    HeldKeys(s, o);
    var after := if e.phase >= 2 then Release(k, code) else Press(k, code);
    hide *;
    ModifiersExact(s.keys, code, e.modifiers, 4);
    ModifiersName(s.keys, code, e.modifiers, 4);
    ModifiersAgree(o, s.keys, code, e.modifiers, 4);
    PressAgrees(o, k, code);
    ReleaseAgrees(o, k, code);
    KeyLeft(o, s.keys, k, after, e, code);
  }

  lemma KeyLeft(o: Os, keys: set<u16>, k: Keys, after: Keys, e: Event, code: u16)
    requires o.keys == keys && code < 0x200
    requires GroupsSet(keys, k.held, code, e.modifiers, 4)
    requires NamesOnly(k.packets, code)
    requires after == if e.phase >= 2 then Release(k, code) else Press(k, code)
    requires KeysAgree(o, after)
    ensures KeyDone(o.keys, AfterAll(o, after.packets).keys, after.packets, e, code)
    ensures var t := AfterAll(o, after.packets); t.touches == o.touches && t.buttons == o.buttons
  {
    hide AfterAll, GroupSet, NamesOnly, KeyPacket, IsModifier;
    KeyHeld(keys, k.held, code, e.modifiers);
    SidesDone(keys, k.held, code, e.modifiers, after.held);
    KeyNames(code, e.phase >= 2);
    PacketAdded(k.packets, code, KeyPacket(code, e.phase >= 2), code);
    hide Side;
    forall c: int | c != code && c !in SIDES
      ensures c in after.held <==> c in keys
    {
      SidesAll(c);
      if c in after.held || c in keys {
        var x: u16 := c;
      }
    }
  }

  lemma SidesAll(c: int)
    ensures IsModifier(c) <==> c in SIDES
  {
    assert LEFT[0] in LEFT && LEFT[1] in LEFT && LEFT[2] in LEFT && LEFT[3] in LEFT;
    assert RIGHT[0] in RIGHT && RIGHT[1] in RIGHT && RIGHT[2] in RIGHT && RIGHT[3] in RIGHT;
  }

  /** Bringing the modifiers in line leaves the key itself as it is. */
  lemma KeyHeld(keys: set<u16>, held: set<u16>, code: u16, modifiers: u16)
    requires forall g: nat | g < 4 :: GroupSet(keys, held, code, modifiers, g)
    requires forall c: u16 | !IsModifier(c) :: c in held <==> c in keys
    ensures code in held <==> code in keys
  {
    if IsModifier(code) {
      assert GroupSet(keys, held, code, modifiers, 0) && GroupSet(keys, held, code, modifiers, 1);
      assert GroupSet(keys, held, code, modifiers, 2) && GroupSet(keys, held, code, modifiers, 3);
    }
  }

  lemma SidesDone(keys: set<u16>, held: set<u16>, code: u16, modifiers: u16, after: set<u16>)
    requires forall g: nat | g < 4 :: GroupSet(keys, held, code, modifiers, g)
    requires forall c: u16 | c != code :: c in after <==> c in held
    ensures Side(keys, after, code, modifiers, 1, 0x1d, 0x11d) && Side(keys, after, code, modifiers, 2, 0x2a, 0x36)
    ensures Side(keys, after, code, modifiers, 4, 0x38, 0x138) && Side(keys, after, code, modifiers, 8, 0x15b, 0x15c)
  {
    forall g: nat | g < 4
      ensures Side(keys, after, code, modifiers, MASKS[g], LEFT[g], RIGHT[g])
    {
      assert GroupSet(keys, held, code, modifiers, g);
    }
    hide Side;
    assert Side(keys, after, code, modifiers, MASKS[0], LEFT[0], RIGHT[0]);
    assert Side(keys, after, code, modifiers, MASKS[1], LEFT[1], RIGHT[1]);
    assert Side(keys, after, code, modifiers, MASKS[2], LEFT[2], RIGHT[2]);
    assert Side(keys, after, code, modifiers, MASKS[3], LEFT[3], RIGHT[3]);
  }

  lemma KeyboardIs(s: Held, e: Event, k: Keys)
    requires ScanCode(e.physicalKey).Some?
    requires k == Modifiers(s.keys, ScanCode(e.physicalKey).value, e.modifiers, 4)
    ensures var code := ScanCode(e.physicalKey).value;
            var after := if e.phase >= 2 then Release(k, code) else Press(k, code);
            KeyboardSpec(s, e) == Injected(s.(keys := after.held), after.packets)
  {
  }

  lemma HeldKeys(s: Held, o: Os)
    requires Agrees(s, o)
    ensures o.keys == s.keys && forall c | c in s.keys :: c < 0x200
  {
  }

  // Touches

  /** Where and how each contact of the batch is: only the event's own has changed. */
  ghost predicate TouchShown(s: Held, e: Event, b: seq<Contact>) {
    forall i | 0 <= i < |b| ::
      if b[i].id == e.contactId then OwnContact(s, e, b[i])
      else b[i].id in s.touches && b[i].at == s.touches[b[i].id].at && b[i].flags == Update
  }

  /** The contacts that are left, and where. */
  ghost predicate TouchLeft(s: Held, e: Event, left: map<u16, Contact>) {
    && (forall id: u16 :: id in left <==> if id == e.contactId then e.phase < 2 else id in s.touches)
    && (forall id | id in left && id != e.contactId :: left[id] == s.touches[id])
    && (e.contactId in left ==> e.at.Some? && left[e.contactId] == Contact(e.contactId, Update, e.at.value))
  }

  /** The event's own contact goes down or moves to the event's position, or ends where it was last. */
  ghost predicate OwnContact(s: Held, e: Event, c: Contact) {
    && (e.phase < 2 ==> e.at.Some? && c.at == e.at.value)
    && (e.phase >= 2 ==> e.contactId in s.touches && c.at == s.touches[e.contactId].at)
    && c.flags == match e.phase case 0 => Down case 1 => Update case 2 => Up case _ => Cancel
  }

  /**
   A touch event is refused for the first of four reasons, and else sends one batch in which only its
   own contact has changed.
   */
  lemma TouchLaw(s: Held, o: Os, e: Event)
    requires TouchesAgree(s, o) && FlagsOk(e) && e.kind == 0
    ensures var r, known := EventSpec(s, e), e.contactId in o.touches;
            && (r == Err(TooManyContacts) <==> e.contactId >= 10)
            && (r == Err(BadPosition) <==> e.contactId < 10 && e.at.None?)
            && (r == Err(DuplicateDown) <==> e.contactId < 10 && e.at.Some? && e.phase == 0 && known)
            && (r == Err(NoDown) <==> e.contactId < 10 && e.at.Some? && e.phase != 0 && !known)
            && (r.Err? ==> r.error in {TooManyContacts, BadPosition, DuplicateDown, NoDown})
            && (r.Ok? ==>
                  && r.value.held == s.(touches := r.value.held.touches)
                  && |r.value.packets| == 1 && r.value.packets[0].Touch?
                  && GoodBatch(o.touches, e, r.value.packets[0].contacts)
                  && TouchShown(s, e, r.value.packets[0].contacts) && TouchLeft(s, e, r.value.held.touches))
  {
    TouchErrors(s, o, e);
    if EventSpec(s, e).Ok? {
      TouchBatch(s, o, e);
      var at := if e.phase >= 2 then s.touches[e.contactId].at else e.at.value;
      var all := WithContact(s, e, at);
      assert EventSpec(s, e) == Ok(Injected(s.(touches := StillDown(all, e)), [Touch(Batch(all))])) by {
        hide Batch, StillDown, WithContact;
      }
      hide TouchSpec, EventSpec, Batch, GoodBatch, StillDown, WithContact, TouchShown, TouchLeft;
      TouchMoved(s, o, e, at, all);
    }
  }

  lemma TouchErrors(s: Held, o: Os, e: Event)
    requires TouchesAgree(s, o) && FlagsOk(e) && e.kind == 0
    ensures var r, known := EventSpec(s, e), e.contactId in o.touches;
            && (r == Err(TooManyContacts) <==> e.contactId >= 10)
            && (r == Err(BadPosition) <==> e.contactId < 10 && e.at.None?)
            && (r == Err(DuplicateDown) <==> e.contactId < 10 && e.at.Some? && e.phase == 0 && known)
            && (r == Err(NoDown) <==> e.contactId < 10 && e.at.Some? && e.phase != 0 && !known)
            && (r.Err? ==> r.error in {TooManyContacts, BadPosition, DuplicateDown, NoDown})
            && EventSpec(s, e) == TouchSpec(s, e)
  {
    hide Batch, StillDown, WithContact;
  }

  lemma TouchMoved(s: Held, o: Os, e: Event, at: Point, all: map<u16, Contact>)
    requires TouchesAgree(s, o) && e.contactId < 10 && e.at.Some? && e.phase <= 3
    requires e.phase == 0 <==> e.contactId !in s.touches
    requires at == if e.phase >= 2 then s.touches[e.contactId].at else e.at.value
    requires all == WithContact(s, e, at)
    ensures TouchShown(s, e, Batch(all)) && TouchLeft(s, e, StillDown(all, e))
  {
    hide *;
    AllNamed(s, o, e, at, all);
    BatchLists(all);
    BatchShown(s, e, all, Batch(all), at);
    LeftMoved(s, o, e, at, all);
  }

  lemma BatchShown(s: Held, e: Event, all: map<u16, Contact>, b: seq<Contact>, at: Point)
    requires e.at.Some? && e.phase <= 3 && (e.phase >= 2 ==> e.contactId in s.touches)
    requires at == if e.phase >= 2 then s.touches[e.contactId].at else e.at.value
    requires e.contactId in all && all[e.contactId] == Contact(e.contactId, TouchFlags(e.phase), at)
    requires forall id | id in all && id != e.contactId ::
               id in s.touches && all[id] == s.touches[id] && s.touches[id].flags == Update
    requires forall i | 0 <= i < |b| :: b[i].id in all && b[i] == all[b[i].id]
    ensures TouchShown(s, e, b)
  {
  }

  lemma AllNamed(s: Held, o: Os, e: Event, at: Point, all: map<u16, Contact>)
    requires TouchesAgree(s, o) && all == WithContact(s, e, at)
    ensures Named(all) && e.contactId in all && all[e.contactId] == Contact(e.contactId, TouchFlags(e.phase), at)
    ensures forall id | id in all && id != e.contactId ::
              id in s.touches && all[id] == s.touches[id] && s.touches[id].flags == Update
  {
  }

  lemma LeftMoved(s: Held, o: Os, e: Event, at: Point, all: map<u16, Contact>)
    requires TouchesAgree(s, o) && e.at.Some?
    requires at == if e.phase >= 2 && e.contactId in s.touches then s.touches[e.contactId].at else e.at.value
    requires all == WithContact(s, e, at)
    ensures TouchLeft(s, e, StillDown(all, e))
  {
    assert forall id | id in s.touches :: s.touches[id].(flags := Update) == s.touches[id];
    var left := StillDown(all, e);
    assert forall id: u16 ::
             id in left <==> (id in s.touches || id == e.contactId) && (id != e.contactId || e.phase < 2);
  }

  // The mouse

  /** One of the packets for changed buttons. */
  ghost predicate ButtonChange(was: int, now: int, p: Packet) {
    p.Button? && p.mask in {1, 2, 4} && was / p.mask % 2 != now / p.mask % 2 && (p.up <==> now / p.mask % 2 == 0)
  }

  lemma {:induction false} ButtonPacketsIn(was: u32, now: u32, n: nat, p: Packet)
    requires n <= 3
    ensures p in ButtonPackets(was, now, n) <==> ButtonChange(was, now, p) && exists i: nat | i < n ::
              p.mask == BUTTONS[i]
  {
    if n > 0 {
      ButtonPacketsIn(was, now, n - 1, p);
    }
  }

  lemma {:induction false} ButtonPacketsOnce(was: u32, now: u32, n: nat)
    requires n <= 3
    ensures Once(ButtonPackets(was, now, n))
  {
    if n > 0 {
      ButtonPacketsOnce(was, now, n - 1);
      var m := BUTTONS[n - 1];
      ButtonPacketsIn(was, now, n - 1, Button(m, !Bit(now, m)));
      hide ButtonChange, ButtonPackets, Bit;
    }
  }

  ghost predicate Once(packets: seq<Packet>) {
    forall i, j | 0 <= i < j < |packets| :: packets[i] != packets[j]
  }

  /** What an accepted mouse event sends, one packet after the other, while no contact is down. */
  ghost predicate MouseSends(s: Held, e: Event, move: Packet, changes: seq<Packet>, wheels: seq<Packet>) {
    && (e.kind == 1 ==> e.at.Some? && move == Move(true, e.at.value)) && (e.kind == 2 ==> move == Move(false, e.delta))
    && (forall p :: p in changes <==> ButtonChange(s.buttons, e.buttons, p)) && Once(changes)
    && (e.kind == 2 ==> wheels == [])
    && (e.kind == 1 ==> forall p :: p in wheels <==> (e.scrollY.Some? && p == Wheel(false, e.scrollY.value))
                                                     || (e.scrollX.Some? && p == Wheel(true, e.scrollX.value)))
    && Once(wheels) && (|wheels| == 2 ==> wheels[0].Wheel? && !wheels[0].horizontal)
  }

  /**
   A mouse event is refused for a bad delta, or a bad position while no contact is down. While one is, it does nothing.
   Else the pointer moves as the event says, then exactly the buttons that differ change, then the wheels turn, and the
   event's buttons are the injector's.
   */
  lemma MouseLaw(s: Held, e: Event) returns (move: Packet, changes: seq<Packet>, wheels: seq<Packet>)
    requires FlagsOk(e) && e.kind in {1, 2}
    ensures var r := EventSpec(s, e);
            && (r == Err(BadDelta) <==> !e.deltaOk)
            && (r == Err(BadPosition) <==> e.deltaOk && s.touches.Keys == {} && e.kind == 1 && e.at.None?)
            && (r.Err? ==> r.error in {BadDelta, BadPosition})
            && (r.Ok? && s.touches.Keys != {} ==> r.value == Injected(s, []))
            && (r.Ok? && s.touches.Keys == {} ==>
                  && r.value.held == Held(s.touches, s.keys, e.buttons)
                  && r.value.packets == [move] + changes + wheels
                  && MouseSends(s, e, move, changes, wheels))
  {
    move := if e.kind == 1 && e.at.Some? then Move(true, e.at.value) else Move(false, e.delta);
    changes, wheels := ButtonPackets(s.buttons, e.buttons, 3), Scroll(e);
    assert s.touches == map[] <==> s.touches.Keys == {} by {
      if s.touches.Keys == {} {
        assert forall id | id in s.touches :: id in s.touches.Keys;
      }
    }
    assert EventSpec(s, e) == MouseSpec(s, e);
    ButtonPacketsOnce(s.buttons, e.buttons, 3);
    hide ButtonPackets, ButtonChange;
    forall p
      ensures p in changes <==> ButtonChange(s.buttons, e.buttons, p)
    {
      ButtonPacketsIn(s.buttons, e.buttons, 3, p);
      OneOfThree(s, e, p);
    }
  }

  lemma OneOfThree(s: Held, e: Event, p: Packet)
    ensures ButtonChange(s.buttons, e.buttons, p) ==> exists i: nat | i < 3 :: p.mask == BUTTONS[i]
  {
    if ButtonChange(s.buttons, e.buttons, p) {
      assert p.mask == BUTTONS[0] || p.mask == BUTTONS[1] || p.mask == BUTTONS[2];
    }
  }
}
