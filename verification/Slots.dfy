/**
 The handoff of captured frames from the driver to the host through three shared textures. Each texture
 has a keyed mutex; which frame it holds is published apart from it, in a status block behind the
 driver's own lock. The two processes interleave at the single steps modelled here.
 */
module Slots {
  import opened Base

  const SLOTS: nat := 3

  datatype Holder = Nobody | Driver | Host

  /** A texture with its mutex, the frame number published for it, and the number the host last took from it. */
  datatype Slot = Slot(key: nat, holder: Holder, pixels: nat, published: nat, seen: nat)

  /** The driver's worker; it owns the status lock from `Trying` to `Released`. */
  datatype DriverPc =
    | Waiting | Captured | Trying(slot: nat) | Acquired(slot: nat) | Copied(slot: nat) | Released(slot: nat)

  datatype HostPc = Idle | Scanning(slot: nat) | Locked(slot: nat) | Decided(slot: nat) | Unlocked(slot: nat)

  /** What goes to the encoder: the frame number from the status, and the pixels actually in the texture. */
  datatype Sample = Sample(frame: nat, pixels: nat)

  /**
   `first` is the driver's frame count when the textures are registered. `mark` is the highest number
   in any status snapshot so far.
   */
  datatype State = State(
    first: nat, frame: nat, slots: seq<Slot>, driver: DriverPc, host: HostPc, snapshot: seq<nat>, newest: Option<nat>,
    mark: nat, dropped: set<nat>, discarded: set<nat>, skipped: set<nat>, submitted: seq<Sample>)

  datatype Act = Capture | DriverGoes | Snapshot | HostGoes(room: bool)

  function Start(first: nat): State {
    var s := Slot(0, Nobody, 0, 0, 0);
    State(first, first, [s, s, s], Waiting, Idle, [0, 0, 0], None, 0, {}, {}, {}, [])
  }

  predicate Shaped(s: State) {
    && |s.slots| == SLOTS == |s.snapshot|
    && (s.driver.Trying? ==> s.driver.slot <= SLOTS)
    && (s.driver.Acquired? || s.driver.Copied? || s.driver.Released? ==> s.driver.slot < SLOTS)
    && (s.host.Scanning? ==> s.host.slot <= SLOTS)
    && (s.host.Locked? || s.host.Decided? || s.host.Unlocked? ==> s.host.slot < SLOTS)
  }

  /** The slot with the highest published number among those the host has not taken yet. */
  function Newest(slots: seq<Slot>): (r: Option<nat>)
    ensures r.None? ==> forall i | 0 <= i < |slots| :: slots[i].published <= slots[i].seen
    ensures r.Some? ==>
              && r.value < |slots| && slots[r.value].published > slots[r.value].seen
              && forall i | 0 <= i < |slots| && slots[i].published > slots[i].seen ::
                   slots[i].published <= slots[r.value].published
    decreases |slots|
  {
    if slots == [] then None
    else
      var k := |slots| - 1;
      var before := Newest(slots[..k]);
      assert forall i | 0 <= i < k :: slots[..k][i] == slots[i];
      if slots[k].published > slots[k].seen && (before.None? || slots[k].published >= slots[before.value].published)
      then Some(k) else before
  }

  function Published(slots: seq<Slot>): (r: seq<nat>)
    ensures |r| == |slots| && forall i | 0 <= i < |r| :: r[i] == slots[i].published
  {
    if slots == [] then [] else Published(slots[..|slots| - 1]) + [slots[|slots| - 1].published]
  }

  function Highest(mark: nat, snapshot: seq<nat>): (r: nat)
    ensures mark <= r && (forall i | 0 <= i < |snapshot| :: snapshot[i] <= r)
    ensures r == mark || exists i | 0 <= i < |snapshot| :: r == snapshot[i]
  {
    if snapshot == [] then mark
    else
      var r := Highest(mark, snapshot[..|snapshot| - 1]);
      var last := snapshot[|snapshot| - 1];
      if last > r then last else r
  }

  function DriverStep(s: State): (t: State)
    requires Shaped(s)
  {
    match s.driver
    case Waiting => s
    case Captured => s.(driver := Trying(0))
    case Trying(i) =>
      if i == SLOTS then s.(driver := Waiting, dropped := s.dropped + {s.frame})
      else if s.slots[i].key == 0 && s.slots[i].holder.Nobody? then
        s.(driver := Acquired(i), slots := s.slots[i := s.slots[i].(holder := Driver)])
      else s.(driver := Trying(i + 1))
    case Acquired(i) => s.(driver := Copied(i), slots := s.slots[i := s.slots[i].(pixels := s.frame)])
    case Copied(i) => s.(driver := Released(i), slots := s.slots[i := s.slots[i].(key := 1, holder := Nobody)])
    case Released(i) => s.(driver := Waiting, slots := s.slots[i := s.slots[i].(published := s.frame)])
  }

  function HostStep(s: State, room: bool): (t: State)
    requires Shaped(s)
  {
    match s.host
    case Idle => s
    case Scanning(i) =>
      if i == SLOTS then s.(host := Idle)
      else if s.snapshot[i] > s.slots[i].seen && s.slots[i].key == 1 && s.slots[i].holder.Nobody? then
        s.(host := Locked(i), slots := s.slots[i := s.slots[i].(holder := Host)])
      else s.(host := Scanning(i + 1))
    case Locked(i) =>
      var pixels := s.slots[i].pixels;
      if s.newest != Some(i) then s.(host := Decided(i), discarded := s.discarded + {pixels})
      else if !room then s.(host := Decided(i), skipped := s.skipped + {pixels})
      else s.(host := Decided(i), submitted := s.submitted + [Sample(s.snapshot[i], pixels)])
    case Decided(i) => s.(host := Unlocked(i), slots := s.slots[i := s.slots[i].(key := 0, holder := Nobody)])
    case Unlocked(i) => s.(host := Scanning(i + 1), slots := s.slots[i := s.slots[i].(seen := s.snapshot[i])])
  }

  function Step(s: State, a: Act): (t: State)
    requires Shaped(s)
    ensures Shaped(t)
  {
    match a
    case Capture => if s.driver.Waiting? then s.(driver := Captured, frame := s.frame + 1) else s
    case DriverGoes => DriverStep(s)
    case Snapshot =>
      if s.host.Idle? && (s.driver.Waiting? || s.driver.Captured?) then
        var snapshot := Published(s.slots);
        s.(host := Scanning(0), snapshot := snapshot, newest := Newest(s.slots), mark := Highest(s.mark, snapshot))
      else s
    case HostGoes(room) => HostStep(s, room)
  }

  // What every reachable state satisfies

  /** What the host has taken from the slot, once it has written it down. */
  function Taken(s: State, i: nat): nat
    requires Shaped(s) && i < SLOTS
  {
    if s.host == Unlocked(i) then s.snapshot[i] else s.slots[i].seen
  }

  ghost predicate SlotOk(s: State, i: nat)
    requires Shaped(s) && i < SLOTS
  {
    var x := s.slots[i];
    && x.key <= 1
    && (x.holder.Driver? <==> s.driver == Acquired(i) || s.driver == Copied(i))
    && (x.holder.Host? <==> s.host == Locked(i) || s.host == Decided(i))
    && (x.holder.Driver? ==> x.key == 0)
    && (x.holder.Host? ==> x.key == 1)
    && (s.driver == Copied(i) || s.driver == Released(i) ==> x.pixels == s.frame)
    && (s.driver == Released(i) ==> x.published <= Taken(s, i))
    && (x.key == 1 && s.driver != Released(i) ==> x.pixels == x.published > Taken(s, i))
    && (x.key == 0 ==> x.published <= Taken(s, i))
    && (s.driver == Released(i) ==> x.key == 1 && x.holder.Nobody?)
    && x.published <= s.frame && (!s.driver.Waiting? ==> x.published < s.frame)
    && (x.published > 0 ==> x.published > s.first)
  }

  /** Where the host is in its scan, the slots still to be visited are as in the snapshot. */
  ghost predicate ScanOk(s: State, i: nat)
    requires Shaped(s) && i < SLOTS
  {
    var x := s.slots[i];
    && s.snapshot[i] <= s.mark && x.seen <= s.mark
    && (s.host.Idle? ==> x.published > x.seen ==> x.published > s.mark)
    && (!s.host.Idle? ==>
          if i < s.host.slot then x.published > x.seen ==> x.published > s.mark
          else if i == s.host.slot && s.host.Unlocked? then x.published == s.snapshot[i] || x.published > s.mark
          else if s.snapshot[i] > x.seen then x.published == s.snapshot[i] && x.key == 1 && s.driver != Released(i)
          else x.published == s.snapshot[i] || x.published > s.mark)
    && (s.host.Locked? && s.host.slot == i ==> s.snapshot[i] > x.seen)
    && (s.host.Decided? && s.host.slot == i ==> s.snapshot[i] > x.seen)
    && (s.host.Unlocked? && s.host.slot == i ==> s.snapshot[i] > x.seen)
  }

  function LastSubmitted(s: State): nat {
    if s.submitted == [] then 0 else s.submitted[|s.submitted| - 1].frame
  }

  ghost predicate NewestOk(s: State)
    requires Shaped(s)
  {
    && LastSubmitted(s) <= s.mark
    && (!s.host.Idle? && s.newest.Some? ==>
          var n := s.newest.value;
          && n < SLOTS
          && (s.host.slot < n || (s.host.slot == n && !s.host.Decided? && !s.host.Unlocked?) ==>
                LastSubmitted(s) < s.snapshot[n]))
  }

  ghost predicate SubmittedOk(s: State) {
    && (forall k | 0 <= k < |s.submitted| :: s.submitted[k].frame == s.submitted[k].pixels)
    && (forall j, k | 0 <= j < k < |s.submitted| :: s.submitted[j].frame < s.submitted[k].frame)
  }

  ghost predicate CountsOk(s: State) {
    && s.first <= s.frame && (!s.driver.Waiting? ==> s.first < s.frame)
    && s.mark <= s.frame && (!s.driver.Waiting? ==> s.mark < s.frame)
  }

  ghost predicate EachOk(s: State, i: nat)
    requires Shaped(s) && i < SLOTS
  {
    SlotOk(s, i) && ScanOk(s, i)
  }

  ghost predicate Ok(s: State) {
    && Shaped(s) && CountsOk(s)
    && EachOk(s, 0) && EachOk(s, 1) && EachOk(s, 2)
    && NewestOk(s) && SubmittedOk(s)
  }

  lemma CaptureEach(s: State, i: nat)
    requires Shaped(s) && CountsOk(s) && i < SLOTS && EachOk(s, i)
    ensures EachOk(Step(s, Capture), i)
  {
  }

  lemma DriverEach(s: State, i: nat)
    requires Shaped(s) && CountsOk(s) && i < SLOTS && EachOk(s, i)
    ensures EachOk(Step(s, DriverGoes), i)
  {
  }

  lemma SnapshotEach(s: State, i: nat)
    requires Shaped(s) && CountsOk(s) && i < SLOTS && EachOk(s, i)
    ensures EachOk(Step(s, Snapshot), i)
  {
    hide Newest;
  }

  lemma HostElsewhere(s: State, room: bool, i: nat)
    requires Shaped(s) && CountsOk(s) && i < SLOTS && EachOk(s, i) && (s.host.Idle? || s.host.slot != i)
    ensures EachOk(Step(s, HostGoes(room)), i)
  {
  }

  lemma HostHere(s: State, room: bool, i: nat)
    requires Shaped(s) && CountsOk(s) && i < SLOTS && EachOk(s, i) && !s.host.Idle? && s.host.slot == i
    ensures EachOk(Step(s, HostGoes(room)), i)
  {
  }

  lemma HostEach(s: State, room: bool, i: nat)
    requires Shaped(s) && CountsOk(s) && i < SLOTS && EachOk(s, i)
    ensures EachOk(Step(s, HostGoes(room)), i)
  {
    hide EachOk, HostStep;
    if s.host.Idle? || s.host.slot != i {
      HostElsewhere(s, room, i);
    } else {
      HostHere(s, room, i);
    }
  }

  lemma PublishedBelow(s: State, i: nat)
    requires Shaped(s) && i < SLOTS && EachOk(s, i)
    ensures s.slots[i].published <= s.frame && (!s.driver.Waiting? ==> s.slots[i].published < s.frame)
  {
  }

  /** At rest, what the host has not taken yet is newer than anything it has seen published. */
  lemma NotTakenNew(s: State, i: nat)
    requires Shaped(s) && i < SLOTS && EachOk(s, i) && s.host.Idle? && s.slots[i].published > s.slots[i].seen
    ensures s.slots[i].published > s.mark
  {
  }

  /** The frame the host is about to take is in the texture. */
  lemma LockedExact(s: State, i: nat)
    requires Shaped(s) && i < SLOTS && EachOk(s, i) && s.host == Locked(i)
    ensures s.slots[i].pixels == s.snapshot[i] == s.slots[i].published <= s.mark
  {
  }

  /** Where the host finds something it has not taken, it gets the texture. */
  lemma NeverBusy(s: State, i: nat)
    requires Shaped(s) && i < SLOTS && EachOk(s, i) && s.host == Scanning(i) && s.snapshot[i] > s.slots[i].seen
    ensures s.slots[i].key == 1 && s.slots[i].holder.Nobody?
  {
  }

  lemma SnapshotNewest(s: State)
    requires Ok(s)
    ensures NewestOk(Step(s, Snapshot)) && CountsOk(Step(s, Snapshot))
  {
    hide EachOk, Newest, Highest;
    PublishedBelow(s, 0);
    PublishedBelow(s, 1);
    PublishedBelow(s, 2);
    var n := Newest(s.slots);
    if n.Some? && s.host.Idle? {
      NotTakenNew(s, n.value);
    }
  }

  lemma SubmitKeeps(s: State, room: bool)
    requires Ok(s)
    ensures NewestOk(Step(s, HostGoes(room))) && SubmittedOk(Step(s, HostGoes(room)))
  {
    hide EachOk;
    if s.host.Locked? {
      LockedExact(s, s.host.slot);
    }
  }

  lemma StepKeeps(s: State, a: Act)
    requires Ok(s)
    ensures Ok(Step(s, a))
  {
    hide EachOk, NewestOk, SubmittedOk;
    match a
    case Capture =>
      CaptureEach(s, 0);
      CaptureEach(s, 1);
      CaptureEach(s, 2);
      SameSubmitted(s, Step(s, a));
    case DriverGoes =>
      DriverEach(s, 0);
      DriverEach(s, 1);
      DriverEach(s, 2);
      SameSubmitted(s, Step(s, a));
    case Snapshot =>
      SnapshotEach(s, 0);
      SnapshotEach(s, 1);
      SnapshotEach(s, 2);
      SnapshotNewest(s);
      assert SubmittedOk(Step(s, a)) by {
        SnapshotSubmitted(s);
      }
    case HostGoes(room) =>
      HostEach(s, room, 0);
      HostEach(s, room, 1);
      HostEach(s, room, 2);
      SubmitKeeps(s, room);
  }

  lemma SameSubmitted(s: State, t: State)
    requires Shaped(s) && Shaped(t) && NewestOk(s) && SubmittedOk(s)
    requires t.submitted == s.submitted && t.snapshot == s.snapshot && t.newest == s.newest && t.mark == s.mark
             && t.host == s.host
    ensures NewestOk(t) && SubmittedOk(t)
  {
  }

  lemma SnapshotSubmitted(s: State)
    requires Shaped(s) && SubmittedOk(s)
    ensures SubmittedOk(Step(s, Snapshot))
  {
  }

  // Where every captured frame is

  function One(b: bool): nat {
    if b then 1 else 0
  }

  /** The worker has captured the frame and not yet copied it. */
  predicate InHand(s: State, f: nat) {
    f == s.frame && (s.driver.Captured? || s.driver.Trying? || s.driver.Acquired?)
  }

  /** The frame is in the texture, to be taken. */
  predicate InSlot(s: State, i: nat, f: nat)
    requires Shaped(s) && i < SLOTS
  {
    var x := s.slots[i];
    x.pixels == f && ((x.key == 1 && x.holder.Nobody?) || s.host == Locked(i) || s.driver == Copied(i))
  }

  function Sent(log: seq<Sample>): (r: set<nat>)
    ensures forall f :: f in r <==> exists k | 0 <= k < |log| :: log[k].pixels == f
  {
    set k | 0 <= k < |log| :: log[k].pixels
  }

  /** In how many places the frame is. */
  function Places(s: State, f: nat): nat
    requires Shaped(s)
  {
    One(InHand(s, f)) + One(InSlot(s, 0, f)) + One(InSlot(s, 1, f)) + One(InSlot(s, 2, f)) + Left(s, f)
  }

  /** In how many ways the frame has left the handoff. */
  function Left(s: State, f: nat): nat {
    One(f in s.dropped) + One(f in s.discarded) + One(f in s.skipped) + One(f in Sent(s.submitted))
  }

  /** Each captured frame is in exactly one place, and no other number is anywhere. */
  ghost predicate InOnePlace(s: State, f: nat)
    requires Shaped(s)
  {
    Places(s, f) == One(s.first < f <= s.frame)
  }

  lemma SentMore(log: seq<Sample>, x: Sample)
    ensures Sent(log + [x]) == Sent(log) + {x.pixels}
  {
    var more := log + [x];
    assert forall k | 0 <= k < |log| :: more[k] == log[k];
    assert more[|log|] == x;
    forall f | f in Sent(more)
      ensures f in Sent(log) + {x.pixels}
    {
      var k :| 0 <= k < |more| && more[k].pixels == f;
      assert k < |log| ==> log[k].pixels == f;
    }
    forall f | f in Sent(log) + {x.pixels}
      ensures f in Sent(more)
    {
      if f in Sent(log) {
        var k :| 0 <= k < |log| && log[k].pixels == f;
        assert more[k].pixels == f;
      }
    }
  }

  lemma CaptureConserves(s: State, f: nat)
    requires Ok(s) && InOnePlace(s, f)
    ensures InOnePlace(Step(s, Capture), f)
  {
    hide Sent;
  }

  /** A step that touches only slot `i` keeps a frame's places if it does so in and outside that slot. */
  lemma OneSlotMoves(s: State, t: State, i: nat, f: nat)
    requires Shaped(s) && Shaped(t) && i < SLOTS
    requires forall j | 0 <= j < SLOTS && j != i :: InSlot(t, j, f) == InSlot(s, j, f)
    requires One(InHand(t, f)) + One(InSlot(t, i, f)) + Left(t, f)
             == One(InHand(s, f)) + One(InSlot(s, i, f)) + Left(s, f)
    requires t.first == s.first && t.frame == s.frame && InOnePlace(s, f)
    ensures InOnePlace(t, f)
  {
    hide InSlot, Left, InHand;
    assert i == 0 || i == 1 || i == 2;
  }

  lemma DriverOthers(s: State, i: nat, j: nat, f: nat)
    requires Shaped(s) && i < SLOTS && j < SLOTS && j != i
    requires s.driver.Waiting? || s.driver.Captured? || s.driver.slot == i || s.driver.slot == SLOTS
    ensures Shaped(DriverStep(s)) && InSlot(DriverStep(s), j, f) == InSlot(s, j, f)
  {
  }

  lemma DriverMoves(s: State, i: nat, f: nat)
    requires Shaped(s) && i < SLOTS && SlotOk(s, i) && (InHand(s, f) ==> f !in s.dropped)
    requires s.driver.Waiting? || s.driver.Captured? || s.driver.slot == i || s.driver.slot == SLOTS
    ensures var t := DriverStep(s);
            && Shaped(t)
            && One(InHand(t, f)) + One(InSlot(t, i, f)) + Left(t, f)
               == One(InHand(s, f)) + One(InSlot(s, i, f)) + Left(s, f)
  {
    hide Sent;
  }

  lemma SlotIsOk(s: State, i: nat)
    requires Ok(s) && i < SLOTS
    ensures SlotOk(s, i) && ScanOk(s, i)
  {
    hide SlotOk, ScanOk, NewestOk, SubmittedOk;
    assert EachOk(s, i);
  }

  lemma DriverConserves(s: State, f: nat)
    requires Ok(s) && InOnePlace(s, f)
    ensures Shaped(DriverStep(s)) && InOnePlace(DriverStep(s), f)
  {
    var i := if s.driver.Waiting? || s.driver.Captured? || s.driver.slot == SLOTS then 0 else s.driver.slot;
    assert InHand(s, f) ==> f !in s.dropped;
    assert Shaped(s);
    hide Ok, EachOk, SlotOk, InSlot, InHand, Left, InOnePlace;
    SlotIsOk(s, i);
    DriverMoves(s, i, f);
    forall j | 0 <= j < SLOTS && j != i
      ensures InSlot(DriverStep(s), j, f) == InSlot(s, j, f)
    {
      DriverOthers(s, i, j, f);
    }
    OneSlotMoves(s, DriverStep(s), i, f);
  }

  lemma HostOthers(s: State, room: bool, i: nat, j: nat, f: nat)
    requires Shaped(s) && i < SLOTS && j < SLOTS && j != i
    requires s.host.Idle? || s.host.slot == i || s.host.slot == SLOTS
    ensures Shaped(HostStep(s, room)) && InSlot(HostStep(s, room), j, f) == InSlot(s, j, f)
  {
  }

  lemma HostMoves(s: State, room: bool, i: nat, f: nat)
    requires Shaped(s) && i < SLOTS && SlotOk(s, i) && (InSlot(s, i, f) ==> Left(s, f) == 0)
    requires s.host.Idle? || s.host.slot == i || s.host.slot == SLOTS
    ensures var t := HostStep(s, room);
            && Shaped(t)
            && One(InHand(t, f)) + One(InSlot(t, i, f)) + Left(t, f)
               == One(InHand(s, f)) + One(InSlot(s, i, f)) + Left(s, f)
  {
    hide Sent;
    if s.host.Locked? {
      SentMore(s.submitted, Sample(s.snapshot[i], s.slots[i].pixels));
    }
  }

  lemma HostConserves(s: State, room: bool, f: nat)
    requires Ok(s) && InOnePlace(s, f)
    ensures Shaped(HostStep(s, room)) && InOnePlace(HostStep(s, room), f)
  {
    var i := if s.host.Idle? || s.host.slot == SLOTS then 0 else s.host.slot;
    assert Shaped(s);
    assert InSlot(s, i, f) ==> Left(s, f) == 0 by {
      hide InSlot, Left, InHand, Ok;
      assert i == 0 || i == 1 || i == 2;
    }
    hide Ok, EachOk, SlotOk, InSlot, InHand, Left, InOnePlace;
    SlotIsOk(s, i);
    HostMoves(s, room, i, f);
    forall j | 0 <= j < SLOTS && j != i
      ensures InSlot(HostStep(s, room), j, f) == InSlot(s, j, f)
    {
      HostOthers(s, room, i, j, f);
    }
    OneSlotMoves(s, HostStep(s, room), i, f);
  }

  lemma StepConserves(s: State, a: Act, f: nat)
    requires Ok(s) && InOnePlace(s, f)
    ensures Ok(Step(s, a)) && InOnePlace(Step(s, a), f)
  {
    StepKeeps(s, a);
    match a
    case Capture => CaptureConserves(s, f);
    case DriverGoes => DriverConserves(s, f);
    case Snapshot =>
    case HostGoes(room) => HostConserves(s, room, f);
  }

  // Runs

  function After(first: nat, acts: seq<Act>): (s: State)
    ensures Shaped(s)
    decreases |acts|
  {
    if acts == [] then Start(first) else Step(After(first, acts[..|acts| - 1]), acts[|acts| - 1])
  }

  lemma {:induction false} AlwaysOk(first: nat, acts: seq<Act>)
    ensures Ok(After(first, acts))
    decreases |acts|
  {
    hide Step, Ok;
    if acts == [] {
      StartOk(first);
    } else {
      AlwaysOk(first, acts[..|acts| - 1]);
      StepKeeps(After(first, acts[..|acts| - 1]), acts[|acts| - 1]);
    }
  }

  lemma StartOk(first: nat)
    ensures Ok(Start(first))
  {
  }

  /**
   The handoff, in every interleaving: the frame number given to the encoder with a texture is the one of
   the pixels in it, and the numbers strictly increase.
   */
  lemma SubmittedExactly(first: nat, acts: seq<Act>)
    ensures var log := After(first, acts).submitted;
            && (forall k | 0 <= k < |log| :: log[k].frame == log[k].pixels)
            && (forall j, k | 0 <= j < k < |log| :: log[j].frame < log[k].frame)
  {
    AlwaysOk(first, acts);
    hide After;
  }

  /** A texture the host finds unread in its snapshot is never busy: taking it cannot time out. */
  lemma TakingNeverFails(first: nat, acts: seq<Act>, i: nat)
    requires var s := After(first, acts); i < SLOTS && s.host == Scanning(i) && s.snapshot[i] > s.slots[i].seen
    ensures var s := After(first, acts); HostStep(s, true).host == Locked(i)
  {
    AlwaysOk(first, acts);
    hide After;
    var s := After(first, acts);
    SlotIsOk(s, i);
    NeverBusy(s, i);
  }

  /**
   Conservation, in every interleaving: each frame captured so far was dropped, discarded, skipped or
   submitted, or is still with the worker or in a texture, and only one of these.
   */
  lemma {:induction false} EveryFrameOnce(first: nat, acts: seq<Act>, f: nat)
    ensures Places(After(first, acts), f) == One(first < f <= After(first, acts).frame)
    ensures After(first, acts).first == first
    decreases |acts|
  {
    hide EachOk, NewestOk, SubmittedOk, CountsOk, Step, Places;
    if acts == [] {
      StartInPlace(first, f);
    } else {
      var k := |acts| - 1;
      EveryFrameOnce(first, acts[..k], f);
      var s := After(first, acts[..k]);
      AlwaysOk(first, acts[..k]);
      StepConserves(s, acts[k], f);
      SameFirst(s, acts[k]);
    }
  }

  lemma StartInPlace(first: nat, f: nat)
    ensures InOnePlace(Start(first), f)
  {
  }

  lemma SameFirst(s: State, a: Act)
    requires Shaped(s)
    ensures Step(s, a).first == s.first
  {
  }
}
