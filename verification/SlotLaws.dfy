/**
 When a frame leaves the handoff: over every interleaving, a frame is dropped only after each texture was busy
 when the worker tried it, discarded only for a newer one, skipped only without room, and else submitted.
 */
module SlotLaws {
  import opened Base
  import opened Slots

  /** The host may still read the texture: its key is not 0, or someone holds it. */
  predicate Busy(x: Slot) {
    x.key != 0 || x.holder != Nobody
  }

  /** Step `k` of the run is the worker's try, for frame `f`, of texture `i`, which was busy. */
  ghost predicate TriedBusy(first: nat, acts: seq<Act>, k: nat, f: nat, i: nat) {
    && k < |acts| && acts[k] == DriverGoes
    && var s := After(first, acts[..k]);
       s.frame == f && s.driver == Trying(i) && i < |s.slots| && Busy(s.slots[i])
  }

  ghost predicate Tried(first: nat, acts: seq<Act>, f: nat, i: nat) {
    exists k: nat :: TriedBusy(first, acts, k, f, i)
  }

  /** The textures the worker is past were busy for the frame in its hands, and all were for each one dropped. */
  ghost predicate TriedOk(first: nat, acts: seq<Act>, s: State) {
    && (s.driver.Trying? ==> forall i | 0 <= i < s.driver.slot :: Tried(first, acts, s.frame, i))
    && (forall f, i | f in s.dropped && 0 <= i < 3 :: Tried(first, acts, f, i))
  }

  lemma TriedStays(first: nat, acts: seq<Act>, a: Act, f: nat, i: nat)
    requires Tried(first, acts, f, i)
    ensures Tried(first, acts + [a], f, i)
  {
    hide After;
    var k: nat :| TriedBusy(first, acts, k, f, i);
    assert (acts + [a])[..k] == acts[..k];
    assert TriedBusy(first, acts + [a], k, f, i);
  }

  lemma TriedNow(first: nat, acts: seq<Act>, s: State)
    requires s == After(first, acts) && s.driver.Trying? && s.driver.slot < 3 && Busy(s.slots[s.driver.slot])
    ensures Tried(first, acts + [DriverGoes], s.frame, s.driver.slot)
  {
    hide After;
    assert (acts + [DriverGoes])[..|acts|] == acts;
    assert TriedBusy(first, acts + [DriverGoes], |acts|, s.frame, s.driver.slot);
  }

  lemma TriedStep(first: nat, acts: seq<Act>, a: Act)
    requires TriedOk(first, acts, After(first, acts))
    ensures TriedOk(first, acts + [a], Step(After(first, acts), a))
  {
    var s := After(first, acts);
    hide After, Tried, Newest, Published, Highest;
    forall f, i | Tried(first, acts, f, i)
      ensures Tried(first, acts + [a], f, i)
    {
      TriedStays(first, acts, a, f, i);
    }
    if a == DriverGoes && s.driver.Trying? && s.driver.slot < 3 && Busy(s.slots[s.driver.slot]) {
      TriedNow(first, acts, s);
    }
  }

  lemma {:induction false} AlwaysTried(first: nat, acts: seq<Act>)
    ensures TriedOk(first, acts, After(first, acts))
    decreases |acts|
  {
    if acts != [] {
      var k := |acts| - 1;
      AlwaysTried(first, acts[..k]);
      TriedStep(first, acts[..k], acts[k]);
      assert acts[..k] + [acts[k]] == acts;
    }
  }

  /** A frame is dropped only after each of the three textures was busy when the worker tried it for that frame. */
  lemma DroppedBusy(first: nat, acts: seq<Act>, f: nat, i: nat)
    requires f in After(first, acts).dropped && i < 3
    ensures exists k: nat :: TriedBusy(first, acts, k, f, i)
  {
    AlwaysTried(first, acts);
    hide After, TriedBusy;
    assert Tried(first, acts, f, i);
  }

  // What the host does with what it takes

  /** The texture holds a frame that the host has not taken. */
  predicate Untaken(u: State, j: nat) {
    j < |u.slots| && u.slots[j].published > u.slots[j].seen
  }

  /** Step `k` of the run took the snapshot that the host goes by in state `s`. */
  ghost predicate SnapshotAt(first: nat, acts: seq<Act>, k: nat, s: State) {
    && k < |acts| && acts[k] == Snapshot && SnapshotOf(After(first, acts[..k]), s)
  }

  ghost predicate SnapshotOf(u: State, s: State) {
    && u.host.Idle? && (u.driver.Waiting? || u.driver.Captured?)
    && |s.snapshot| == |u.slots| == 3 && forall j | 0 <= j < 3 :: s.snapshot[j] == u.slots[j].published
  }

  /** The texture chosen holds the newest of what was not taken. */
  ghost predicate ChosenOf(u: State, s: State) {
    && (s.newest.Some? ==> Untaken(u, s.newest.value))
    && forall j: nat | Untaken(u, j) ::
         s.newest.Some? && s.newest.value < |u.slots| && u.slots[j].published <= u.slots[s.newest.value].published
  }

  /** While the host scans, there was a snapshot to which it keeps, and it takes only what was not taken then. */
  ghost predicate ScansBy(first: nat, acts: seq<Act>, s: State) {
    !s.host.Idle? ==> exists k: nat ::
        && SnapshotAt(first, acts, k, s) && ChosenOf(After(first, acts[..k]), s)
        && StillUntaken(After(first, acts[..k]), s)
  }

  /** What the host has before it in its scan is as it was. */
  ghost predicate StillUntaken(u: State, s: State) {
    && |s.slots| == |u.slots|
    && forall j | 0 <= j < |u.slots| && !s.host.Idle? && j >= s.host.slot :: s.slots[j].seen >= u.slots[j].seen
  }

  lemma ScansOn(first: nat, acts: seq<Act>, a: Act)
    requires ScansBy(first, acts, After(first, acts))
    ensures ScansBy(first, acts + [a], Step(After(first, acts), a))
  {
    var s := After(first, acts);
    var t := Step(s, a);
    if s.host.Idle? && !t.host.Idle? {
      hide After;
      assert (acts + [a])[..|acts|] == acts;
      SnapshotTaken(s);
      assert SnapshotAt(first, acts + [a], |acts|, t);
    } else if !t.host.Idle? {
      hide After;
      var k: nat :| && SnapshotAt(first, acts, k, s) && ChosenOf(After(first, acts[..k]), s)
                    && StillUntaken(After(first, acts[..k]), s);
      assert (acts + [a])[..k] == acts[..k];
      KeepsSnapshot(After(first, acts[..k]), s, a);
      assert SnapshotAt(first, acts + [a], k, t);
    }
  }

  lemma SnapshotTaken(s: State)
    requires Shaped(s) && s.host.Idle? && (s.driver.Waiting? || s.driver.Captured?)
    ensures var t := Step(s, Snapshot); SnapshotOf(s, t) && ChosenOf(s, t) && StillUntaken(s, t)
  {
    hide Newest, Published, Highest;
  }

  lemma KeepsSnapshot(u: State, s: State, a: Act)
    requires Shaped(s) && SnapshotOf(u, s) && ChosenOf(u, s) && StillUntaken(u, s) && !s.host.Idle?
    ensures var t := Step(s, a);
            !t.host.Idle? ==> SnapshotOf(u, t) && ChosenOf(u, t) && StillUntaken(u, t)
  {
    hide Newest, Published, Highest;
  }

  lemma {:induction false} AlwaysScans(first: nat, acts: seq<Act>)
    ensures ScansBy(first, acts, After(first, acts))
    decreases |acts|
  {
    if acts != [] {
      var k := |acts| - 1;
      AlwaysScans(first, acts[..k]);
      ScansOn(first, acts[..k], acts[k]);
      assert acts[..k] + [acts[k]] == acts;
    }
  }

  /** What was not taken is in the texture. */
  lemma UntakenInSlot(u: State, i: nat)
    requires Shaped(u) && i < SLOTS && EachOk(u, i) && u.host.Idle? && !u.driver.Released?
    requires u.slots[i].published > u.slots[i].seen
    ensures InSlot(u, i, u.slots[i].published)
  {
  }

  /** No two textures hold the same frame not taken. */
  lemma UntakenDistinct(first: nat, acts: seq<Act>, i: nat, j: nat)
    requires var u := After(first, acts);
             && u.host.Idle? && (u.driver.Waiting? || u.driver.Captured?)
             && i < 3 && j < 3 && i != j && Untaken(u, i) && Untaken(u, j)
    ensures var u := After(first, acts); u.slots[i].published != u.slots[j].published
  {
    var u := After(first, acts);
    var f := u.slots[i].published;
    AlwaysOk(first, acts);
    EveryFrameOnce(first, acts, f);
    hide *;
    EachIsOk(u, i);
    EachIsOk(u, j);
    UntakenInSlot(u, i);
    UntakenInSlot(u, j);
    if u.slots[j].published == f {
      TwoPlaces(u, i, j, f);
    }
  }

  lemma EachIsOk(u: State, i: nat)
    requires Slots.Ok(u) && i < 3
    ensures Shaped(u) && EachOk(u, i)
    ensures Untaken(u, i) ==> u.slots[i].published > u.slots[i].seen
  {
    hide EachOk, NewestOk, SubmittedOk, CountsOk;
  }

  lemma TwoPlaces(u: State, i: nat, j: nat, f: nat)
    requires Shaped(u) && i < 3 && j < 3 && i != j && InSlot(u, i, f) && InSlot(u, j, f)
    ensures Places(u, f) >= 2 && forall b: bool :: One(b) <= 1
  {
    hide InSlot, InHand, Left;
  }

  /** Which way the host decides about texture `i`, told from the state `u` of its snapshot. */
  ghost predicate Decides(u: State, s: State, t: State, i: nat, room: bool)
    requires i < |u.slots|
  {
    var f := u.slots[i].published;
    var newer := exists j: nat :: Untaken(u, j) && u.slots[j].published > f;
    && t.discarded == s.discarded + (if newer then {f} else {})
    && t.skipped == s.skipped + (if !newer && !room then {f} else {})
    && t.submitted == s.submitted + (if !newer && room then [Sample(f, f)] else [])
    && t.dropped == s.dropped
  }

  /**
   What the host takes is discarded exactly if its snapshot held a newer frame not taken, skipped exactly if it
   did not and the encoder has no room, and else submitted under its own number.
   */
  lemma HostDecides(first: nat, acts: seq<Act>, room: bool)
    requires After(first, acts).host.Locked?
    ensures var s := After(first, acts);
            exists k: nat ::
              && SnapshotAt(first, acts, k, s) && s.host.slot < 3
              && Decides(After(first, acts[..k]), s, HostStep(s, room), s.host.slot, room)
  {
    var s := After(first, acts);
    AlwaysOk(first, acts);
    AlwaysScans(first, acts);
    var k: nat :| && SnapshotAt(first, acts, k, s) && ChosenOf(After(first, acts[..k]), s)
                  && StillUntaken(After(first, acts[..k]), s);
    var u, i := After(first, acts[..k]), s.host.slot;
    assert u == After(first, acts[..k]);
    hide After, NewestOk, SubmittedOk, CountsOk;
    SlotIsOk(s, i);
    LockedExact(s, i);
    forall j: nat | Untaken(u, j) && j != i && Untaken(u, i)
      ensures u.slots[j].published != u.slots[i].published
    {
      UntakenDistinct(first, acts[..k], i, j);
    }
    ChosenDecides(u, s, i, room);
  }

  lemma ChosenDecides(u: State, s: State, i: nat, room: bool)
    requires Shaped(s) && s.host == Locked(i) && SnapshotOf(u, s) && ChosenOf(u, s)
    requires s.slots[i].pixels == s.snapshot[i] && Untaken(u, i)
    requires forall j: nat | Untaken(u, j) && j != i :: u.slots[j].published != u.slots[i].published
    ensures Decides(u, s, HostStep(s, room), i, room)
  {
    var newer := exists j: nat :: Untaken(u, j) && u.slots[j].published > u.slots[i].published;
    if s.newest == Some(i) {
      assert !newer;
    } else {
      var n := s.newest.value;
      assert Untaken(u, n) && u.slots[n].published > u.slots[i].published;
      assert newer;
    }
  }

  /** Nothing leaves the handoff in any other way. */
  lemma LeavesOnlyThere(s: State, a: Act)
    requires Shaped(s)
    ensures var t := Step(s, a);
            && (!(a.HostGoes? && s.host.Locked?) ==>
                  t.discarded == s.discarded && t.skipped == s.skipped && t.submitted == s.submitted)
            && (t.dropped == s.dropped
               || (a == DriverGoes && s.driver == Trying(3) && t.dropped == s.dropped + {s.frame}))
  {
    hide Newest, Published, Highest;
  }
}
