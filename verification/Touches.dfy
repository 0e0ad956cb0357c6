/**
 The client's view hands each touch one of ten contact ids; the host's injector takes the events. Whatever
 a user does with his fingers, the injector never finds a contact that goes down twice or moves unseen.
 */
module Touches {
  import opened Base
  import opened Injection

  const CONTACTS: nat := 10

  /** The lowest id from `i` on that is not taken. */
  function FreeFrom(taken: set<u16>, i: nat): (r: Option<u16>)
    requires i <= CONTACTS
    ensures r.Some? ==> i <= r.value < CONTACTS && r.value !in taken && forall j | i <= j < r.value :: j in taken
    ensures r.None? ==> forall j | i <= j < CONTACTS :: j in taken
    decreases CONTACTS - i
  {
    if i == CONTACTS then None else if i !in taken then Some(i) else FreeFrom(taken, i + 1)
  }

  function TouchEvent(phase: u8, id: u16, at: Point, buttons: u32): Event {
    Event(0, phase, id, Some(at), true, Point(0, 0), None, None, buttons, 0, 0, 0)
  }

  /** What one touch does to the view's contacts, and the event it sends. */
  datatype Seen = Seen(contacts: map<nat, u16>, sent: Option<Event>)

  /**
   `inside` tells whether the touch lies on the picture, and `at` where the host will place it, moved onto
   the picture if need be; an empty picture has no such place.
   */
  function TouchSeen(contacts: map<nat, u16>, touch: nat, phase: u8, inside: bool, at: Option<Point>,
    buttons: u32): Seen {
    var free := FreeFrom(contacts.Values, 0);
    if phase == 0 && (!inside || free.None?) then Seen(contacts, None)
    else
      var with := if phase == 0 then contacts[touch := free.value] else contacts;
      if touch !in with || at.None? then Seen(with, None)
      else Seen(if phase >= 2 then with - {touch} else with, Some(TouchEvent(phase, with[touch], at.value, buttons)))
  }

  /** `e` is the event of a touch with this contact id. */
  predicate Tells(e: Event, phase: u8, id: u16, at: Point, buttons: u32) {
    && e.kind == 0 && e.phase == phase && e.contactId == id && e.at == Some(at) && e.buttons == buttons && e.deltaOk
    && e.isRepeat == 0
  }

  /**
   A touch that begins on the picture takes the lowest of ten ids that is free, if one is, and tells of it; one that
   begins beside it, or finds none, does nothing. A touch that has an id tells of every phase, and gives the id back
   at its end; one without is not heard of. On an empty picture nothing is told or given back.
   */
  lemma TouchSeenLaw(contacts: map<nat, u16>, touch: nat, phase: u8, inside: bool, at: Option<Point>, buttons: u32)
    requires phase == 0 ==> touch !in contacts
    ensures var s := TouchSeen(contacts, touch, phase, inside, at, buttons);
            var room := exists id: u16 :: id < 10 && id !in contacts.Values;
            && (phase == 0 && inside && room ==>
                  && touch in s.contacts && s.contacts == contacts[touch := s.contacts[touch]]
                  && s.contacts[touch] < 10 && s.contacts[touch] !in contacts.Values
                  && (forall id: u16 | id < s.contacts[touch] :: id in contacts.Values)
                  && (at.Some? <==> s.sent.Some?)
                  && (at.Some? ==> Tells(s.sent.value, 0, s.contacts[touch], at.value, buttons)))
            && (phase == 0 && !(inside && room) ==> s == Seen(contacts, None))
            && (phase > 0 && (touch !in contacts || at.None?) ==> s == Seen(contacts, None))
            && (phase > 0 && touch in contacts && at.Some? ==>
                  && s.sent.Some? && Tells(s.sent.value, phase, contacts[touch], at.value, buttons)
                  && s.contacts == if phase >= 2 then contacts - {touch} else contacts)
  {
    var free := FreeFrom(contacts.Values, 0);
    if free.None? {
      assert forall id: u16 | id < 10 :: id in contacts.Values;
    } else {
      assert free.value < 10 && free.value !in contacts.Values;
    }
  }

  class InputView {
    var contacts: map<nat, u16>
    var buttons: u32

    constructor ()
      ensures contacts == map[] && buttons == 0
    {
      contacts, buttons := map[], 0;
    }

    method FirstFree() returns (r: Option<u16>)
      ensures r == FreeFrom(contacts.Values, 0)
    {
      for id := 0 to CONTACTS
        invariant FreeFrom(contacts.Values, 0) == FreeFrom(contacts.Values, id)
      {
        if id !in contacts.Values {
          return Some(id);
        }
      }
      return None;
    }

    method Touch(touch: nat, phase: u8, inside: bool, at: Option<Point>) returns (sent: Option<Event>)
      modifies this
      ensures Seen(contacts, sent) == TouchSeen(old(contacts), touch, phase, inside, at, buttons)
      ensures buttons == old(buttons)
    {
      if phase == 0 {
        if !inside {
          return None;
        }
        var free := FirstFree();
        if free.None? {
          return None;
        }
        contacts := contacts[touch := free.value];
      }
      if touch !in contacts || at.None? {
        return None;
      }
      var id := contacts[touch];
      sent := Some(TouchEvent(phase, id, at.value, buttons));
      if phase >= 2 {
        contacts := contacts - {touch};
      }
    }
  }

  // View and injector together

  datatype Act =
    | Touch(touch: nat, phase: u8, inside: bool, at: Option<Point>)
    | Other(e: Event)
    | LetGo(corner: Point, ids: seq<u16>)

  /**
   `live` are the touches the system reports as going on, `buttons` what the view last saw of its mouse;
   `refused` tells whether a touch event was.
   */
  datatype Joint = Joint(live: set<nat>, contacts: map<nat, u16>, buttons: u32, held: Held, refused: bool)

  const NEW_JOINT: Joint := Joint({}, map[], 0, NOTHING, false)

  function Deliver(j: Joint, e: Event): Joint {
    match EventSpec(j.held, e)
    case Ok(i) => j.(held := i.held)
    case Err(_) => j.(refused := j.refused || e.kind == 0)
  }

  /** The view lets go of these contacts, one after the other. */
  function Cancelled(j: Joint, ids: seq<u16>, at: Point): Joint
    decreases |ids|
  {
    if ids == [] then j
    else Deliver(Cancelled(j, ids[..|ids| - 1], at), TouchEvent(3, ids[|ids| - 1], at, j.buttons))
  }

  function Step(j: Joint, a: Act): Joint {
    match a
    case Touch(touch, phase, inside, at) =>
      var s := TouchSeen(j.contacts, touch, phase, inside, at, j.buttons);
      var live := if phase == 0 then j.live + {touch} else if phase >= 2 then j.live - {touch} else j.live;
      var t := j.(live := live, contacts := s.contacts);
      if s.sent.Some? then Deliver(t, s.sent.value) else t
    case Other(e) => Deliver(j.(buttons := e.buttons), e)
    case LetGo(at, ids) => Cancelled(j, ids, at).(contacts := map[], buttons := 0)
  }

  ghost predicate AllDifferent(ids: seq<u16>) {
    forall i, k | 0 <= i < k < |ids| :: ids[i] != ids[k]
  }

  /**
   The system begins a touch once, then moves it, and ends or cancels it once. The view lets go of its
   contacts each once, in whatever order its dictionary gives them. Its picture is not empty, and its mouse
   has three buttons.
   */
  ghost predicate Legal(j: Joint, a: Act) {
    match a
    case Touch(touch, phase, _, at) => phase <= 3 && (phase == 0 <==> touch !in j.live) && at.Some?
    case Other(e) => e.kind != 0 && e.buttons <= 7
    case LetGo(_, ids) => AllDifferent(ids) && forall id: u16 :: id in ids <==> id in j.contacts.Values
  }

  function After(acts: seq<Act>): Joint {
    if acts == [] then NEW_JOINT else Step(After(acts[..|acts| - 1]), acts[|acts| - 1])
  }

  ghost predicate AllLegal(acts: seq<Act>) {
    forall i | 0 <= i < |acts| :: Legal(After(acts[..i]), acts[i])
  }

  ghost predicate Injective(contacts: map<nat, u16>) {
    forall a, b | a in contacts && b in contacts && a != b :: contacts[a] != contacts[b]
  }

  /** The ids in use are distinct and below ten, and the injector's contacts are exactly these. */
  ghost predicate Joined(j: Joint) {
    && !j.refused && j.buttons <= 7
    && Injective(j.contacts)
    && (forall t | t in j.contacts :: t in j.live && j.contacts[t] < CONTACTS)
    && (forall id: u16 :: id in j.held.touches <==> id in j.contacts.Values)
  }

  /** A touch event that fits the injector's contacts is taken; it adds its contact or, at the end, removes it. */
  lemma Taken(j: Joint, id: u16, phase: u8, at: Point)
    requires id < CONTACTS && phase <= 3 && (phase == 0 <==> id !in j.held.touches) && j.buttons <= 7
    ensures var t := Deliver(j, TouchEvent(phase, id, at, j.buttons));
            && t == j.(held := t.held)
            && forall x: u16 :: x in t.held.touches <==> if x == id then phase < 2 else x in j.held.touches
  {
    hide Batch;
  }

  lemma DownAccepted(j: Joint, touch: nat, at: Point)
    requires Joined(j) && touch !in j.contacts && FreeFrom(j.contacts.Values, 0).Some?
    ensures var id := FreeFrom(j.contacts.Values, 0).value;
            Joined(Deliver(j.(live := j.live + {touch}, contacts := j.contacts[touch := id]),
              TouchEvent(0, id, at, j.buttons)))
  {
    var id := FreeFrom(j.contacts.Values, 0).value;
    var more := j.contacts[touch := id];
    hide *;
    JoinedParts(j, id);
    var s := j.(live := j.live + {touch}, contacts := more);
    Taken(s, id, 0, at);
    var t := Deliver(s, TouchEvent(0, id, at, j.buttons));
    forall x: u16
      ensures x in t.held.touches <==> x in more.Values
    {
      JoinedParts(j, x);
      ValuesMore(j.contacts, touch, id, x);
    }
    InjectiveMore(j.contacts, touch, id);
    JoinedNow(t);
  }

  lemma JoinedParts(j: Joint, id: u16)
    requires Joined(j)
    ensures !j.refused && j.buttons <= 7 && Injective(j.contacts) && (id in j.held.touches <==> id in j.contacts.Values)
    ensures forall t | t in j.contacts :: t in j.live && j.contacts[t] < CONTACTS
  {
    hide Injective;
  }

  lemma JoinedNow(j: Joint)
    requires !j.refused && j.buttons <= 7 && Injective(j.contacts) && forall t | t in j.contacts ::
               t in j.live && j.contacts[t] < CONTACTS
    requires forall id: u16 :: id in j.held.touches <==> id in j.contacts.Values
    ensures Joined(j)
  {
    hide Injective;
  }

  lemma InjectiveMore(m: map<nat, u16>, t: nat, id: u16)
    requires Injective(m) && t !in m && id !in m.Values
    ensures Injective(m[t := id])
  {
    assert forall u | u in m :: m[u] in m.Values;
  }

  lemma ValuesMore(m: map<nat, u16>, t: nat, id: u16, x: u16)
    requires t !in m
    ensures x in m[t := id].Values <==> x in m.Values || x == id
  {
    if x in m.Values {
      var u :| u in m && m[u] == x;
      assert m[t := id][u] == x;
    }
    assert m[t := id][t] == id;
  }

  lemma ValuesLess(m: map<nat, u16>, t: nat, x: u16)
    requires t in m && Injective(m)
    ensures x in (m - {t}).Values <==> x in m.Values && x != m[t]
  {
    if x in m.Values && x != m[t] {
      var u :| u in m && m[u] == x;
      assert (m - {t})[u] == x;
    }
  }

  lemma MoveAccepted(j: Joint, touch: nat, at: Point)
    requires Joined(j) && touch in j.contacts
    ensures Joined(Deliver(j, TouchEvent(1, j.contacts[touch], at, j.buttons)))
  {
    hide Deliver;
    assert j.contacts[touch] in j.contacts.Values;
    Taken(j, j.contacts[touch], 1, at);
  }

  lemma UpAccepted(j: Joint, touch: nat, phase: u8, at: Point)
    requires Joined(j) && touch in j.contacts && 2 <= phase <= 3
    ensures var id := j.contacts[touch];
            Joined(Deliver(j.(live := j.live - {touch}, contacts := j.contacts - {touch}),
              TouchEvent(phase, id, at, j.buttons)))
  {
    hide Deliver;
    var id := j.contacts[touch];
    assert id in j.contacts.Values;
    var less := j.contacts - {touch};
    var s := j.(live := j.live - {touch}, contacts := less);
    Taken(s, id, phase, at);
    var t := Deliver(s, TouchEvent(phase, id, at, j.buttons));
    forall x: u16
      ensures x in t.held.touches <==> x in less.Values
    {
      ValuesLess(j.contacts, touch, x);
    }
  }

  /** Events of the mouse and the keyboard leave the contacts alone. */
  lemma OtherKeeps(j: Joint, e: Event)
    requires Joined(j) && e.kind != 0 && e.buttons <= 7
    ensures Joined(Deliver(j.(buttons := e.buttons), e))
  {
    hide Modifiers, ScanCode, ButtonPackets, Press, Release;
  }

  lemma {:induction false} CancelledEmpties(j: Joint, ids: seq<u16>, at: Point)
    requires !j.refused && j.buttons <= 7 && forall i | 0 <= i < |ids| :: ids[i] in j.held.touches && ids[i] < CONTACTS
    requires AllDifferent(ids)
    ensures var t := Cancelled(j, ids, at);
            && !t.refused && t.contacts == j.contacts && t.live == j.live && t.buttons == j.buttons
            && forall x: u16 :: x in t.held.touches <==> x in j.held.touches && x !in ids
    decreases |ids|
  {
    if ids != [] {
      var k := |ids| - 1;
      CancelledEmpties(j, ids[..k], at);
      var before := Cancelled(j, ids[..k], at);
      OneMoreIn(ids, ids[k]);
      assert ids[k] in before.held.touches;
      assert Cancelled(j, ids, at) == Deliver(before, TouchEvent(3, ids[k], at, j.buttons));
      hide *;
      Taken(before, ids[k], 3, at);
      forall x: u16
        ensures x in Cancelled(j, ids, at).held.touches <==> x in j.held.touches && x !in ids
      {
        OneMoreIn(ids, x);
      }
    }
  }

  lemma OneMoreIn(ids: seq<u16>, x: u16)
    requires ids != [] && AllDifferent(ids)
    ensures var k := |ids| - 1; (x in ids <==> x in ids[..k] || x == ids[k]) && ids[k] !in ids[..k]
  {
    var k := |ids| - 1;
    assert ids == ids[..k] + [ids[k]];
  }

  lemma LetGoKeeps(j: Joint, at: Point, ids: seq<u16>)
    requires Joined(j) && Legal(j, LetGo(at, ids))
    ensures Joined(Step(j, LetGo(at, ids)))
  {
    forall i | 0 <= i < |ids|
      ensures ids[i] in j.held.touches && ids[i] < CONTACTS
    {
      assert ids[i] in ids;
      var t :| t in j.contacts && j.contacts[t] == ids[i];
    }
    hide AllDifferent;
    CancelledEmpties(j, ids, at);
    hide Cancelled;
  }

  lemma StepKeeps(j: Joint, a: Act)
    requires Joined(j) && Legal(j, a)
    ensures Joined(Step(j, a))
  {
    hide Deliver, Joined, Cancelled;
    match a
    case Touch(touch, phase, inside, at) =>
      LiveOnly(j, touch);
      if phase == 0 {
        if inside && FreeFrom(j.contacts.Values, 0).Some? {
          DownAccepted(j, touch, at.value);
        } else {
          NewTouch(j, touch);
        }
      } else if touch in j.contacts {
        if phase == 1 {
          MoveAccepted(j, touch, at.value);
        } else {
          UpAccepted(j, touch, phase, at.value);
        }
      } else {
        GoneTouch(j, touch);
      }
    case Other(e) => OtherKeeps(j, e);
    case LetGo(at, ids) => LetGoKeeps(j, at, ids);
  }

  lemma LiveOnly(j: Joint, touch: nat)
    requires Joined(j)
    ensures touch in j.contacts ==> touch in j.live
  {
  }

  /** When a touch that has a contact ends, view and injector go on in agreement exactly if the picture is not empty. */
  lemma EndOnPicture(j: Joint, touch: nat, phase: u8, inside: bool, at: Option<Point>)
    requires Joined(j) && touch in j.contacts && 2 <= phase <= 3
    ensures Joined(Step(j, Act.Touch(touch, phase, inside, at))) <==> at.Some?
  {
    if at.Some? {
      hide Deliver, Joined;
      UpAccepted(j, touch, phase, at.value);
    } else {
      assert touch in Step(j, Act.Touch(touch, phase, inside, at)).contacts;
    }
  }

  lemma NewTouch(j: Joint, touch: nat)
    requires Joined(j)
    ensures Joined(j.(live := j.live + {touch}))
  {
  }

  lemma GoneTouch(j: Joint, touch: nat)
    requires Joined(j) && touch !in j.contacts
    ensures Joined(j.(live := j.live - {touch}))
  {
  }

  /**
   For every legal history of touches, in between whatever the mouse and the keyboard send, the contact
   ids in use are distinct and below ten, they are the injector's contacts, and no touch event is refused.
   */
  lemma {:induction false} TouchesAccepted(acts: seq<Act>)
    requires AllLegal(acts)
    ensures Joined(After(acts))
  {
    hide Joined, Step, Legal;
    if acts == [] {
      NewJoined();
    } else {
      var k := |acts| - 1;
      forall i | 0 <= i < k
        ensures Legal(After(acts[..k][..i]), acts[..k][i])
      {
        assert acts[..k][..i] == acts[..i];
      }
      TouchesAccepted(acts[..k]);
      StepKeeps(After(acts[..k]), acts[k]);
    }
  }

  lemma NewJoined()
    ensures Joined(NEW_JOINT)
  {
  }
}
