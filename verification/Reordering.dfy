/**
 The reordering window. A schedule is described only by what arrives when; if at most two
 consecutive frames are under way at a time and each completes in time, the assembler hands out
 every frame in order and records no loss.
 */
module Reordering {
  import opened Base
  import opened Fragments
  import opened Assembly
  import opened Delivery

  /** A datagram (or none, on a timer tick) ingested at one time, followed by a poll. */
  datatype Arrival = Arrival(f: Option<VideoFragment>, at: u64, polled: u64)

  /** Polls until nothing more comes out: the state and the frames handed out. */
  function Drained(s: State, now: u64): (State, seq<ReceivedFrame>)
    decreases |s.frames|
  {
    var n := NextSpec(s, now);
    NextShrinks(s, Ids(s), now);
    if n.frame.None? then (n.state, [])
    else
      var (t, more) := Drained(n.state, now);
      (t, [n.frame.value] + more)
  }

  /** The state once the datagram is in. */
  function Ingested(s: State, a: Arrival): State {
    if a.f.Some? then IngestSpec(s, a.f.value, a.at).0 else s
  }

  /** One arrival: ingest, expire, then poll until dry. */
  function Feed(s: State, a: Arrival): (State, seq<ReceivedFrame>) {
    Drained(Expired(Ingested(s, a), a.polled), a.polled)
  }

  /** Arrivals `p` up to `n`, one after the other. */
  function Fed(s: State, a: seq<Arrival>, p: nat, n: nat): (State, seq<ReceivedFrame>)
    requires p <= n <= |a|
  {
    if n == p then (s, [])
    else
      var (t, out) := Fed(s, a, p, n - 1);
      var (u, more) := Feed(t, a[n - 1]);
      (u, out + more)
  }

  // The schedule

  predicate Brings(a: Arrival, j: int) {
    a.f.Some? && a.f.value.frameId == j
  }

  /** The indices of frame `j` among the first `n` arrivals. */
  function Got(a: seq<Arrival>, n: nat, j: int): set<u16>
    requires n <= |a|
  {
    if n == 0 then {}
    else Got(a, n - 1, j) + if Brings(a[n - 1], j) then {a[n - 1].f.value.index} else {}
  }

  predicate Full(cuts: map<u64, Cut>, a: seq<Arrival>, n: nat, j: int)
    requires n <= |a|
  {
    j in cuts && cuts[j].chunk > 0 && forall i | 0 <= i < Count(cuts[j]) :: i in Got(a, n, j)
  }

  /** The frames after `k` up to `last` are complete. */
  ghost predicate AllFull(cuts: map<u64, Cut>, a: seq<Arrival>, n: nat, k: int, last: int)
    requires n <= |a|
  {
    forall j | k < j <= last :: Full(cuts, a, n, j)
  }

  /** When the first fragment of frame `j` came, among the first `n` arrivals. */
  function FirstAt(a: seq<Arrival>, n: nat, j: int): u64
    requires n <= |a|
  {
    if n == 0 then 0
    else if Got(a, n - 1, j) == {} && Brings(a[n - 1], j) then a[n - 1].at
    else FirstAt(a, n - 1, j)
  }

  /** The frames after `k` up to `m`, none of them a keyframe, have been sent. */
  ghost predicate Deltas(cuts: map<u64, Cut>, k: int, m: int) {
    Sent(cuts) && forall j | k < j <= m :: j in cuts && cuts[j].frame.keyframe == 0
  }

  /**
   Arrival `n` keeps to the window: a frame only starts when the one two before it is complete, and
   until a frame is complete its age stays within 40 ms and its successor's below 8 ms.
   */
  ghost predicate OnTime(cuts: map<u64, Cut>, k: int, m: int, a: seq<Arrival>, n: nat)
    requires Sent(cuts) && n < |a|
  {
    && a[n].at <= a[n].polled
    && (a[n].f.Some? ==>
          && Genuine(cuts, a[n].f.value)
          && a[n].f.value.frameId <= m
          && forall j | k < j <= a[n].f.value.frameId - 2 :: Full(cuts, a, n, j))
    && (forall j | k < j && !Full(cuts, a, n, j) ::
          && (Got(a, n + 1, j) != {} ==> a[n].polled <= FirstAt(a, n + 1, j) + LIFETIME_US)
          && (Got(a, n + 1, j + 1) != {} ==> a[n].polled < FirstAt(a, n + 1, j + 1) + REORDER_US))
  }

  ghost predicate InWindow(cuts: map<u64, Cut>, k: int, m: int, a: seq<Arrival>)
    requires Sent(cuts)
  {
    forall n | 0 <= n < |a| :: OnTime(cuts, k, m, a, n)
  }

  lemma GotGrows(a: seq<Arrival>, n: nat, j: int)
    requires n < |a|
    ensures Got(a, n, j) <= Got(a, n + 1, j)
    ensures !Brings(a[n], j) ==> Got(a, n + 1, j) == Got(a, n, j) && FirstAt(a, n + 1, j) == FirstAt(a, n, j)
    ensures Brings(a[n], j) ==> Got(a, n + 1, j) == Got(a, n, j) + {a[n].f.value.index}
    ensures Got(a, n, j) != {} ==> FirstAt(a, n + 1, j) == FirstAt(a, n, j)
  {
  }

  lemma {:induction false} FullStays(cuts: map<u64, Cut>, a: seq<Arrival>, p: nat, n: nat, j: int)
    requires p <= n <= |a| && Full(cuts, a, p, j)
    ensures Full(cuts, a, n, j)
    decreases n
  {
    if p < n {
      FullStays(cuts, a, p, n - 1, j);
      GotGrows(a, n - 1, j);
    }
  }

  /** Everything seen of frame `j` among the first `n` arrivals came after frame `j - 2` was complete. */
  lemma {:induction false} WindowClosed(cuts: map<u64, Cut>, k: int, m: int, a: seq<Arrival>, n: nat, j: int, i: int)
    requires Sent(cuts) && InWindow(cuts, k, m, a) && n <= |a|
    requires Got(a, n, j) != {} && k < i <= j - 2
    ensures Full(cuts, a, n, i)
    decreases n
  {
    GotGrows(a, n - 1, j);
    assert OnTime(cuts, k, m, a, n - 1);
    if Got(a, n - 1, j) != {} {
      WindowClosed(cuts, k, m, a, n - 1, j, i);
    }
    FullStays(cuts, a, n - 1, n, i);
  }

  lemma {:induction false} GotBounded(cuts: map<u64, Cut>, k: int, m: int, a: seq<Arrival>, n: nat, j: int)
    requires Sent(cuts) && InWindow(cuts, k, m, a) && n <= |a| && Got(a, n, j) != {}
    ensures j <= m && j in cuts
    decreases n
  {
    GotGrows(a, n - 1, j);
    assert OnTime(cuts, k, m, a, n - 1);
    if Got(a, n - 1, j) != {} {
      GotBounded(cuts, k, m, a, n - 1, j);
    }
  }

  // The assembler along the schedule

  /** The assembler holds exactly what has arrived of the frames after the last one handed out. */
  ghost predicate Holding(cuts: map<u64, Cut>, k: int, m: int, a: seq<Arrival>, n: nat, s: State)
    requires n <= |a|
  {
    && Invariant(s) && Faithful(cuts, s) && !s.requiresKeyframe
    && 0 < k <= s.last <= m
    && AllFull(cuts, a, n, k, s.last)
    && (forall j: u64 :: Arrived(a, n, s, j))
  }

  /** Of frame `j` the assembler holds what has arrived. */
  ghost predicate Arrived(a: seq<Arrival>, n: nat, s: State, j: u64)
    requires n <= |a|
  {
    && (j in s.frames <==> s.last < j && Got(a, n, j) != {})
    && (j in s.frames ==> s.frames[j].parts.Keys == Got(a, n, j) && s.frames[j].arrival == FirstAt(a, n, j))
  }

  lemma Held(cuts: map<u64, Cut>, k: int, m: int, a: seq<Arrival>, n: nat, s: State, j: u64)
    requires n <= |a| && Holding(cuts, k, m, a, n, s) && j in s.frames
    ensures k <= s.last < j && Got(a, n, j) != {}
    ensures s.frames[j].parts.Keys == Got(a, n, j) && s.frames[j].arrival == FirstAt(a, n, j)
    ensures j in cuts && OfCut(cuts[j], s.frames[j]) && PartialOk(s.frames[j]) && s.frames[j].meta.frameId == j
  {
    assert Arrived(a, n, s, j);
    hide Full, Got, FirstAt, OfCut, PartialOk, Sent;
  }

  /** Nothing newer than the frame after the next one has arrived while the next one is missing. */
  lemma TwoOpen(cuts: map<u64, Cut>, k: int, m: int, a: seq<Arrival>, n: nat, s: State, j: u64)
    requires Sent(cuts) && InWindow(cuts, k, m, a) && n <= |a| && Holding(cuts, k, m, a, n, s)
    requires !Full(cuts, a, n, s.last + 1) && j in s.frames
    ensures s.last < j <= s.last + 2
  {
    hide *;
    Held(cuts, k, m, a, n, s, j);
    if s.last + 1 <= j - 2 {
      WindowClosed(cuts, k, m, a, n, j, s.last + 1);
    }
  }

  /** How old the frames under way are at the next poll. */
  lemma Young(cuts: map<u64, Cut>, k: int, m: int, a: seq<Arrival>, p: nat, n: nat, last: int, j: int)
    requires Sent(cuts) && n < |a| && OnTime(cuts, k, m, a, n) && n <= p <= n + 1
    requires k <= last && !Full(cuts, a, n, last + 1) && last < j <= last + 2 && Got(a, p, j) != {}
    ensures a[n].polled <= FirstAt(a, p, j) + LIFETIME_US
    ensures j == last + 2 ==> a[n].polled < FirstAt(a, p, j) + REORDER_US
  {
    hide Full, Sent;
    GotGrows(a, n, j);
  }

  lemma NotStale(p: Partial, now: u64)
    ensures now <= p.arrival + LIFETIME_US ==> !IsStale(p, now)
  {
  }

  lemma YoungHeld(cuts: map<u64, Cut>, k: int, m: int, a: seq<Arrival>, p: nat, n: nat, s: State, now: u64, j: u64)
    requires Sent(cuts) && n < |a| && OnTime(cuts, k, m, a, n) && n <= p <= n + 1
    requires Holding(cuts, k, m, a, p, s) && !Full(cuts, a, n, s.last + 1)
    requires now <= a[n].polled && j in s.frames && j <= s.last + 2
    ensures !IsStale(s.frames[j], now)
    ensures j == s.last + 2 ==> now - s.frames[j].arrival < REORDER_US
  {
    hide *;
    NotStale(s.frames[j], now);
    Held(cuts, k, m, a, p, s, j);
    Young(cuts, k, m, a, p, n, s.last, j);
  }

  /** While the next frame is missing nothing is old enough to expire. */
  lemma NoneStale(cuts: map<u64, Cut>, k: int, m: int, a: seq<Arrival>, p: nat, n: nat, s: State, now: u64)
    requires Sent(cuts) && n < |a| && OnTime(cuts, k, m, a, n) && n <= p <= n + 1
    requires Holding(cuts, k, m, a, p, s) && !Full(cuts, a, n, s.last + 1)
    requires now <= a[n].polled && forall j | j in s.frames :: j <= s.last + 2
    ensures Expired(s, now) == s
  {
    hide *;
    forall j: u64 | j in s.frames
      ensures !IsStale(s.frames[j], now)
    {
      YoungHeld(cuts, k, m, a, p, n, s, now, j);
    }
    NothingStale(s, now);
  }

  lemma NothingStale(s: State, now: u64)
    requires forall j | j in s.frames :: !IsStale(s.frames[j], now)
    ensures Expired(s, now) == s
  {
    assert forall x | x in Stale(s, s.frames.Keys, now) :: x in {};
    assert Stale(s, s.frames.Keys, now) == {};
  }

  // A fragment comes

  /** `t` is `s` with the fragment added to its assembly, opened if need be. */
  ghost predicate Joined(s: State, t: State, f: VideoFragment, now: u64) {
    && t.last == s.last && t.losses == s.losses && t.requiresKeyframe == s.requiresKeyframe
    && t.frames.Keys == s.frames.Keys + {f.frameId}
    && (forall j | j in s.frames && j != f.frameId :: t.frames[j] == s.frames[j])
    && (if f.frameId in s.frames
        then t.frames[f.frameId].parts.Keys == s.frames[f.frameId].parts.Keys + {f.index}
          && t.frames[f.frameId].arrival == s.frames[f.frameId].arrival
        else t.frames[f.frameId].parts.Keys == {f.index} && t.frames[f.frameId].arrival == now)
  }

  lemma StoreJoins(s: State, f: VideoFragment, now: u64)
    requires f.frameId in s.frames || |s.frames| < 2
    requires f.frameId in Opened(s, f, now).frames && !Store(Opened(s, f, now), f).1.Throws()
    ensures Joined(s, Store(Opened(s, f, now), f).0, f, now)
  {
    var o := Opened(s, f, now);
    assert o.frames.Keys == s.frames.Keys + {f.frameId};
    assert forall j | j in s.frames :: o.frames[j] == s.frames[j];
    assert f.frameId !in s.frames ==> o.frames[f.frameId] == Partial(f, now, map[], 0);
    assert o.last == s.last && o.losses == s.losses && o.requiresKeyframe == s.requiresKeyframe;
    hide Opened, Room, Store;
    StoreShape(o, f);
  }

  /** Storing a fragment that fits changes its own assembly only. */
  lemma StoreShape(s: State, f: VideoFragment)
    requires f.frameId in s.frames && !Store(s, f).1.Throws()
    ensures var t := Store(s, f).0;
            && t == s.(frames := t.frames) && t.frames.Keys == s.frames.Keys
            && (forall j | j in s.frames && j != f.frameId :: t.frames[j] == s.frames[j])
            && t.frames[f.frameId].parts.Keys == s.frames[f.frameId].parts.Keys + {f.index}
            && t.frames[f.frameId].arrival == s.frames[f.frameId].arrival
  {
    var t := Store(s, f).0;
    assert t.frames.Keys == s.frames.Keys;
    var p := s.frames[f.frameId];
    assert t.frames[f.frameId].parts.Keys == p.parts.Keys + {f.index};
  }

  /** A genuine fragment that needs no room joins its assembly. */
  lemma IngestJoins(cuts: map<u64, Cut>, s: State, f: VideoFragment, now: u64)
    requires Sent(cuts) && Genuine(cuts, f) && Invariant(s) && Faithful(cuts, s) && s.last < f.frameId
    requires Expired(s.(received := Bump(s.received, 1)), now) == s.(received := Bump(s.received, 1))
    requires f.frameId in s.frames || |s.frames| < 2
    ensures Joined(s, IngestSpec(s, f, now).0, f, now)
  {
    var r := s.(received := Bump(s.received, 1));
    GenuineOk(cuts, f);
    assert Invariant(r) && Faithful(cuts, r);
    assert IngestSpec(s, f, now) == Store(Opened(r, f, now), f);
    hide *;
    OpenedKeeps(r, f, now);
    OpenedFaithful(cuts, r, f, now);
    GenuineStored(cuts, Opened(r, f, now), f);
    StoreJoins(r, f, now);
    ReceivedApart(s, r, IngestSpec(s, f, now).0, f, now);
  }

  lemma ReceivedApart(s: State, r: State, t: State, f: VideoFragment, now: u64)
    requires Joined(r, t, f, now) && s.frames == r.frames && s.last == r.last && s.losses == r.losses
    requires s.requiresKeyframe == r.requiresKeyframe
    ensures Joined(s, t, f, now)
  {
  }

  lemma StillFull(cuts: map<u64, Cut>, a: seq<Arrival>, n: nat, k: int, last: int)
    requires n < |a| && AllFull(cuts, a, n, k, last)
    ensures AllFull(cuts, a, n + 1, k, last)
  {
    hide Full;
    var p := n + 1;
    forall j | k < j <= last
      ensures Full(cuts, a, p, j)
    {
      FullStays(cuts, a, n, p, j);
    }
  }

  lemma StillArrived(a: seq<Arrival>, n: nat, s: State, t: State, j: u64)
    requires n < |a| && Arrived(a, n, s, j) && (s.last < j ==> !Brings(a[n], j))
    requires t.last == s.last && (j in t.frames <==> j in s.frames) && (j in s.frames ==> t.frames[j] == s.frames[j])
    ensures Arrived(a, n + 1, t, j)
  {
    GotGrows(a, n, j);
    hide Got, FirstAt;
  }

  lemma NowArrived(a: seq<Arrival>, n: nat, s: State, t: State, j: u64)
    requires n < |a| && Arrived(a, n, s, j) && Brings(a[n], j) && s.last < j && Joined(s, t, a[n].f.value, a[n].at)
    ensures Arrived(a, n + 1, t, j)
  {
    GotNow(a, n);
    hide Got, FirstAt;
  }

  /** An arrival that brings nothing new leaves the state holding the same. */
  lemma StillHolding(cuts: map<u64, Cut>, k: int, m: int, a: seq<Arrival>, n: nat, s: State)
    requires n < |a| && Holding(cuts, k, m, a, n, s)
    requires a[n].f.None? || a[n].f.value.frameId <= s.last
    ensures Holding(cuts, k, m, a, n + 1, s)
  {
    hide AllFull, Invariant, Faithful, Arrived;
    StillFull(cuts, a, n, k, s.last);
    var p := n + 1;
    forall j: u64
      ensures Arrived(a, p, s, j)
    {
      StillArrived(a, n, s, s, j);
    }
  }

  lemma JoinedHolding(cuts: map<u64, Cut>, k: int, m: int, a: seq<Arrival>, n: nat, s: State, t: State)
    requires n < |a| && Holding(cuts, k, m, a, n, s)
    requires a[n].f.Some? && s.last < a[n].f.value.frameId && Joined(s, t, a[n].f.value, a[n].at)
    requires Invariant(t) && Faithful(cuts, t)
    ensures Holding(cuts, k, m, a, n + 1, t)
  {
    hide AllFull, Invariant, Faithful, Arrived;
    StillFull(cuts, a, n, k, s.last);
    var p := n + 1;
    forall j: u64
      ensures Arrived(a, p, t, j)
    {
      if Brings(a[n], j) {
        NowArrived(a, n, s, t, j);
      } else {
        assert j in t.frames.Keys <==> j in s.frames.Keys;
        StillArrived(a, n, s, t, j);
      }
    }
  }

  lemma GotNow(a: seq<Arrival>, n: nat)
    requires n < |a| && a[n].f.Some?
    ensures var f := a[n].f.value;
            && Got(a, n + 1, f.frameId) == Got(a, n, f.frameId) + {f.index}
            && FirstAt(a, n + 1, f.frameId) == if Got(a, n, f.frameId) == {} then a[n].at else FirstAt(a, n, f.frameId)
  {
    GotGrows(a, n, a[n].f.value.frameId);
  }

  /** With the next frame missing there is room: only it and its successor are under way. */
  lemma HasRoom(cuts: map<u64, Cut>, s: State, j: u64)
    requires FramesOk(s) && s.last < j <= s.last + 2 && forall i | i in s.frames :: i <= s.last + 2
    ensures j in s.frames || |s.frames| < 2
  {
    if j !in s.frames {
      var other := {s.last + 1, s.last + 2} - {j};
      assert |other| == 1 by {
        assert other == {if j == s.last + 1 then s.last + 2 else s.last + 1};
      }
      assert s.frames.Keys <= other;
      SubsetSize(s.frames.Keys, other);
    }
  }

  lemma SubsetSize(a: set<int>, b: set<int>)
    requires a <= b
    ensures |a| <= |b|
  {
    assert b == a + (b - a);
  }

  /** An arrival for a frame after the last one handed out is for one of the next two. */
  lemma NextTwo(cuts: map<u64, Cut>, k: int, m: int, a: seq<Arrival>, n: nat, last: int)
    requires Sent(cuts) && n < |a| && OnTime(cuts, k, m, a, n) && k <= last && !Full(cuts, a, n, last + 1)
    ensures a[n].at <= a[n].polled
    ensures a[n].f.Some? ==> Genuine(cuts, a[n].f.value) && a[n].f.value.frameId <= last + 2
  {
    hide Full, Sent, Genuine;
  }

  lemma NothingNew(s: State, a: Arrival)
    requires a.f.None? || a.f.value.frameId <= s.last
    ensures Ingested(s, a) == s
  {
  }

  lemma SomethingNew(s: State, a: Arrival)
    requires a.f.Some? && Joined(s, IngestSpec(s, a.f.value, a.at).0, a.f.value, a.at)
    ensures Ingested(s, a) == IngestSpec(s, a.f.value, a.at).0
    ensures Ingested(s, a).last == s.last && Ingested(s, a).losses == s.losses
  {
    hide IngestSpec;
  }

  lemma Due(cuts: map<u64, Cut>, k: int, m: int, a: seq<Arrival>, n: nat, s: State)
    requires Sent(cuts) && InWindow(cuts, k, m, a) && n <= |a| && Holding(cuts, k, m, a, n, s)
    ensures 0 < k <= s.last && Invariant(s) && FramesOk(s) && Faithful(cuts, s) && !s.requiresKeyframe
    ensures AllFull(cuts, a, n, k, s.last)
    ensures n < |a| ==> OnTime(cuts, k, m, a, n)
  {
    hide FramesOk, OnTime, Sent, AllFull, Arrived, Faithful;
  }

  /** The state after an arrival holds what has arrived; nothing was lost. */
  lemma IngestHolds(cuts: map<u64, Cut>, k: int, m: int, a: seq<Arrival>, n: nat, s: State)
    requires Sent(cuts) && InWindow(cuts, k, m, a) && n < |a|
    requires Holding(cuts, k, m, a, n, s) && !Full(cuts, a, n, s.last + 1)
    ensures var t := Ingested(s, a[n]);
            && Holding(cuts, k, m, a, n + 1, t) && t.last == s.last && t.losses == s.losses
            && forall j | j in t.frames :: j <= t.last + 2
  {
    hide *;
    Due(cuts, k, m, a, n, s);
    var t := Ingested(s, a[n]);
    if a[n].f.Some? && s.last < a[n].f.value.frameId {
      NextTwo(cuts, k, m, a, n, s.last);
      JoinsInTime(cuts, k, m, a, n, s);
      SomethingNew(s, a[n]);
      forall j: u64 | j in t.frames
        ensures j <= t.last + 2
      {
        TwoOpenJoined(cuts, k, m, a, n, s, t, j);
      }
    } else {
      NothingNew(s, a[n]);
      StillHolding(cuts, k, m, a, n, s);
      forall j: u64 | j in t.frames
        ensures j <= t.last + 2
      {
        TwoOpen(cuts, k, m, a, n, s, j);
      }
    }
  }

  lemma TwoOpenJoined(cuts: map<u64, Cut>, k: int, m: int, a: seq<Arrival>, n: nat, s: State, t: State, j: u64)
    requires Sent(cuts) && InWindow(cuts, k, m, a) && n < |a| && Holding(cuts, k, m, a, n, s)
    requires !Full(cuts, a, n, s.last + 1)
    requires a[n].f.Some? && Joined(s, t, a[n].f.value, a[n].at) && a[n].f.value.frameId <= s.last + 2
    requires j in t.frames
    ensures j <= s.last + 2
  {
    assert j in t.frames.Keys;
    if j in s.frames {
      TwoOpen(cuts, k, m, a, n, s, j);
    }
  }

  lemma JoinsInTime(cuts: map<u64, Cut>, k: int, m: int, a: seq<Arrival>, n: nat, s: State)
    requires Sent(cuts) && InWindow(cuts, k, m, a) && n < |a| && OnTime(cuts, k, m, a, n)
    requires Holding(cuts, k, m, a, n, s) && !Full(cuts, a, n, s.last + 1)
    requires a[n].f.Some? && s.last < a[n].f.value.frameId <= s.last + 2 && Genuine(cuts, a[n].f.value)
    ensures var t := IngestSpec(s, a[n].f.value, a[n].at).0;
            Holding(cuts, k, m, a, n + 1, t) && Joined(s, t, a[n].f.value, a[n].at)
  {
    var f, now := a[n].f.value, a[n].at;
    var r := s.(received := Bump(s.received, 1));
    assert Holding(cuts, k, m, a, n, r) by {
      SameHolding(cuts, k, m, a, n, s, r);
    }
    assert now <= a[n].polled && Invariant(s) && FramesOk(s) && Faithful(cuts, s);
    hide *;
    forall j: u64 | j in s.frames
      ensures j <= s.last + 2
    {
      TwoOpen(cuts, k, m, a, n, s, j);
    }
    NoneStale(cuts, k, m, a, n, n, r, now);
    HasRoom(cuts, s, f.frameId);
    IngestJoins(cuts, s, f, now);
    IngestKeeps(s, f, now);
    GenuineIngest(cuts, s, f, now);
    JoinedHolding(cuts, k, m, a, n, s, IngestSpec(s, f, now).0);
  }

  lemma SameHolding(cuts: map<u64, Cut>, k: int, m: int, a: seq<Arrival>, n: nat, s: State, r: State)
    requires n <= |a| && Holding(cuts, k, m, a, n, s) && r == s.(received := r.received)
    ensures Holding(cuts, k, m, a, n, r)
  {
    hide Got, FirstAt, Full, AllFull, OfCut, PartialOk;
    forall j: u64
      ensures Arrived(a, n, r, j)
    {
      assert Arrived(a, n, s, j);
    }
  }

  // The poll

  /** The chunks of a frame, all of them, hold exactly its bytes. */
  lemma {:induction false} PartsFill(c: Cut, parts: map<u16, Bytes>, n: nat)
    requires Sendable(c) && n <= Count(c) && ChunksOf(c, parts)
    requires forall i | i in parts :: i < n
    requires forall i | 0 <= i < n :: i in parts
    ensures Sum(Lengths(parts)) == Offset(c, n) && |parts| == n
    decreases n
  {
    if n == 0 {
      NoParts(parts);
      PartsEmpty(parts);
    } else {
      hide *;
      LastPart(c, parts, n - 1);
      PartsFill(c, parts - {n - 1}, n - 1);
      OnePart(parts, n - 1);
      OneFewer(parts, n - 1);
    }
  }

  lemma LastPart(c: Cut, parts: map<u16, Bytes>, k: nat)
    requires Sendable(c) && k < Count(c) && ChunksOf(c, parts) && k in parts
    ensures |parts[k]| == Offset(c, k + 1) - Offset(c, k) && ChunksOf(c, parts - {k})
  {
    OffsetStep(c, k);
  }

  lemma OneFewer(parts: map<u16, Bytes>, k: u16)
    requires k in parts
    ensures |parts - {k}| == |parts| - 1
  {
    assert (parts - {k}).Keys == parts.Keys - {k};
  }

  lemma PartsEmpty(parts: map<u16, Bytes>)
    requires forall i | i in parts :: i < 0
    ensures |parts| == 0
  {
    assert forall i | i in parts.Keys :: i in {};
    assert parts == map[];
  }

  /** An assembly counts as complete exactly when every fragment has arrived. */
  lemma CompleteIffFull(cuts: map<u64, Cut>, a: seq<Arrival>, n: nat, j: u64, p: Partial)
    requires n <= |a| && j in cuts && OfCut(cuts[j], p) && PartialOk(p) && p.parts.Keys == Got(a, n, j)
    ensures p.Complete() <==> Full(cuts, a, n, j)
  {
    hide *;
    FullParts(cuts, a, n, j, p);
    CompleteWhole(cuts[j], p);
  }

  lemma FullParts(cuts: map<u64, Cut>, a: seq<Arrival>, n: nat, j: u64, p: Partial)
    requires n <= |a| && j in cuts && OfCut(cuts[j], p) && p.parts.Keys == Got(a, n, j)
    ensures Sendable(cuts[j]) && (Full(cuts, a, n, j) <==> forall i | 0 <= i < Count(cuts[j]) :: i in p.parts)
  {
    hide Got, Fragment, ChunksOf, Count;
    assert forall i :: i in p.parts <==> i in p.parts.Keys;
  }

  lemma CompleteWhole(c: Cut, p: Partial)
    requires OfCut(c, p) && PartialOk(p)
    ensures Sendable(c) && (p.Complete() <==> forall i | 0 <= i < Count(c) :: i in p.parts)
  {
    PartsBounded(p);
    OffsetStep(c, Count(c) - 1);
    assert p.meta.count == Count(c) && p.meta.totalBytes == |c.frame.data|;
    if forall i | 0 <= i < Count(c) :: i in p.parts {
      hide Sum, Lengths, Chunk, Fragment;
      PartsFill(c, p.parts, Count(c));
    }
  }

  lemma NextFrameHeld(cuts: map<u64, Cut>, k: int, m: int, a: seq<Arrival>, n: nat, s: State)
    requires Sent(cuts) && n <= |a| && Holding(cuts, k, m, a, n, s) && Full(cuts, a, n, s.last + 1)
    ensures s.last + 1 in s.frames && Got(a, n, s.last + 1) != {}
  {
    var j: u64 := s.last + 1;
    OffsetStep(cuts[j], Count(cuts[j]) - 1);
    assert 0 in Got(a, n, j);
    assert Arrived(a, n, s, j);
  }

  lemma FirstId(s: State, id: u64)
    requires id in s.frames && forall o | o in s.frames :: id <= o
    ensures Ids(s) != [] && Ids(s)[0] == id
  {
    var r := Ids(s);
    assert id in r;
    var i :| 0 <= i < |r| && r[i] == id;
    assert r[0] in r;
  }

  /** A complete frame that directly follows the last one is handed out at once. */
  lemma SuccessorEmitted(s: State, now: u64)
    requires FramesOk(s) && !s.requiresKeyframe && s.last + 1 in s.frames && s.frames[s.last + 1].Complete()
    ensures NextSpec(s, now) == Emit(s, s.last + 1, now)
  {
    var id: u64 := s.last + 1;
    FirstId(s, id);
    hide Emit, FramesOk;
    assert Ids(s)[0..] == Ids(s);
    NextTurn(s, Ids(s), 0, now);
    assert s.(requiresKeyframe := false) == s;
  }

  lemma NoneOlder(s: State, now: u64, id: u64)
    requires FramesOk(s) && id == s.last + 1 && id in s.frames && Emit(s, id, now).frame.Some?
    ensures Emit(s, id, now).superseded == {}
    ensures Emit(s, id, now).state == s.(frames := s.frames - {id}, last := id, requiresKeyframe := false)
  {
    EmitShape(s, id, now);
    hide Emit, PartialOk;
    var r := Emit(s, id, now);
    assert forall o | o in r.superseded :: o in {};
    assert r.superseded == {};
    assert {id} + r.superseded == {id};
  }

  lemma EmittedArrived(a: seq<Arrival>, n: nat, s: State, t: State, j: u64)
    requires n <= |a| && Arrived(a, n, s, j) && s.last + 1 in s.frames
    requires t == s.(frames := s.frames - {s.last + 1}, last := s.last + 1, requiresKeyframe := false)
    ensures Arrived(a, n, t, j)
  {
    hide Got, FirstAt;
  }

  lemma EmittedFull(cuts: map<u64, Cut>, a: seq<Arrival>, n: nat, k: int, last: int)
    requires n <= |a| && AllFull(cuts, a, n, k, last) && Full(cuts, a, n, last + 1)
    ensures AllFull(cuts, a, n, k, last + 1)
  {
    hide Full;
  }

  /** When the next frame is complete a poll hands it out, and only it. */
  lemma PollEmits(cuts: map<u64, Cut>, k: int, m: int, a: seq<Arrival>, n: nat, s: State, now: u64)
    requires Sent(cuts) && InWindow(cuts, k, m, a) && n <= |a|
    requires Holding(cuts, k, m, a, n, s) && Full(cuts, a, n, s.last + 1)
    ensures var r := NextSpec(s, now);
            && r.frame.Some? && r.frame.value.video.frameId == s.last + 1 == r.state.last
            && s.last + 1 in cuts && Same(r.frame.value.video, cuts[s.last + 1].frame)
            && Holding(cuts, k, m, a, n, r.state) && r.state.losses == s.losses
  {
    hide *;
    NextFrameHeld(cuts, k, m, a, n, s);
    var id: u64 := s.last + 1;
    var r := Emit(s, id, now);
    Due(cuts, k, m, a, n, s);
    Held(cuts, k, m, a, n, s, id);
    CompleteIffFull(cuts, a, n, id, s.frames[id]);
    SuccessorEmitted(s, now);
    EmitFaithful(cuts, s, id, now);
    NoneOlder(s, now, id);
    EmitKeeps(s, id, now);
    GotBounded(cuts, k, m, a, n, id);
    EmittedFull(cuts, a, n, k, s.last);
    ReturnedNext(cuts, s.last, r);
    forall j: u64
      ensures Arrived(a, n, r.state, j)
    {
      ArrivedAt(cuts, k, m, a, n, s, j);
      EmittedArrived(a, n, s, r.state, j);
    }
    NowHolding(cuts, k, m, a, n, r.state);
  }

  lemma ReturnedNext(cuts: map<u64, Cut>, last: u64, r: NextResult)
    requires Returns(cuts, last, r) && r.frame.Some? && r.state.last == last + 1
    ensures var v := r.frame.value.video;
            v.frameId == last + 1 && v.frameId in cuts && Same(v, cuts[v.frameId].frame)
  {
  }

  lemma ArrivedAt(cuts: map<u64, Cut>, k: int, m: int, a: seq<Arrival>, n: nat, s: State, j: u64)
    requires n <= |a| && Holding(cuts, k, m, a, n, s)
    ensures Arrived(a, n, s, j)
  {
    hide Arrived, AllFull, Invariant, Faithful;
  }

  lemma NowHolding(cuts: map<u64, Cut>, k: int, m: int, a: seq<Arrival>, n: nat, s: State)
    requires n <= |a| && Invariant(s) && Faithful(cuts, s) && !s.requiresKeyframe && 0 < k <= s.last <= m
    requires AllFull(cuts, a, n, k, s.last) && forall j: u64 :: Arrived(a, n, s, j)
    ensures Holding(cuts, k, m, a, n, s)
  {
    hide Arrived, AllFull, Invariant, Faithful;
  }

  /** A poll passes over this frame or stops at it. */
  ghost predicate Waiting(s: State, id: u64, now: u64) {
    id in s.frames && s.frames[id].Complete() ==>
      Gap(s, id) && s.frames[id].meta.keyframe == 0 && now - s.frames[id].arrival < REORDER_US
  }

  lemma {:induction false} AllWaiting(s: State, ids: seq<u64>, now: u64)
    requires forall i | 0 <= i < |ids| :: Waiting(s, ids[i], now)
    ensures NextOver(s, ids, now) == NextResult(s, None, {})
    decreases |ids|
  {
    if ids != [] {
      assert Waiting(s, ids[0], now);
      hide Waiting;
      AllWaiting(s, ids[1..], now);
    }
  }

  lemma WaitsFor(cuts: map<u64, Cut>, k: int, m: int, a: seq<Arrival>, n: nat, s: State, j: u64)
    requires Sent(cuts) && Deltas(cuts, k, m) && InWindow(cuts, k, m, a) && n < |a| && OnTime(cuts, k, m, a, n)
    requires Holding(cuts, k, m, a, n + 1, s) && !Full(cuts, a, n + 1, s.last + 1) && !Full(cuts, a, n, s.last + 1)
    requires j in s.frames
    ensures Waiting(s, j, a[n].polled)
  {
    hide Full, OnTime, InWindow, Holding, OfCut, PartialOk, Got, FirstAt;
    Held(cuts, k, m, a, n + 1, s, j);
    assert s.last >= k > 0 by {
      Due(cuts, k, m, a, n + 1, s);
    }
    CompleteIffFull(cuts, a, n + 1, j, s.frames[j]);
    TwoOpen(cuts, k, m, a, n + 1, s, j);
    YoungHeld(cuts, k, m, a, n + 1, n, s, a[n].polled, j);
    GotBounded(cuts, k, m, a, n + 1, j);
    DeltaPart(cuts, k, m, s, j);
  }

  lemma DeltaPart(cuts: map<u64, Cut>, k: int, m: int, s: State, j: u64)
    requires Sent(cuts) && Deltas(cuts, k, m) && k < j <= m && j in s.frames && OfCut(cuts[j], s.frames[j])
    ensures s.frames[j].meta.keyframe == 0
  {
  }

  /** While the next frame is missing a poll hands out nothing and changes nothing. */
  lemma PollStops(cuts: map<u64, Cut>, k: int, m: int, a: seq<Arrival>, n: nat, s: State)
    requires Sent(cuts) && Deltas(cuts, k, m) && InWindow(cuts, k, m, a) && n < |a| && OnTime(cuts, k, m, a, n)
    requires Holding(cuts, k, m, a, n + 1, s) && !Full(cuts, a, n + 1, s.last + 1)
    ensures NextSpec(s, a[n].polled) == NextResult(s, None, {})
  {
    hide Full, OnTime, InWindow, Holding, Deltas, Sent, Waiting, NextOver;
    var ids := Ids(s);
    if Full(cuts, a, n, s.last + 1) {
      FullStays(cuts, a, n, n + 1, s.last + 1);
    }
    forall i | 0 <= i < |ids|
      ensures Waiting(s, ids[i], a[n].polled)
    {
      assert ids[i] in ids;
      WaitsFor(cuts, k, m, a, n, s, ids[i]);
    }
    AllWaiting(s, ids, a[n].polled);
  }

  // The run

  /** The frames after `from`, one by one, as they were sent. */
  ghost predicate Consecutive(cuts: map<u64, Cut>, from: int, out: seq<ReceivedFrame>) {
    forall i | 0 <= i < |out| ::
      var v := out[i].video;
      v.frameId == from + 1 + i && v.frameId in cuts && Same(v, cuts[v.frameId].frame)
  }

  /** The assembler has caught up with the first `n` arrivals. */
  ghost predicate CaughtUp(cuts: map<u64, Cut>, k: int, m: int, a: seq<Arrival>, n: nat, s: State)
    requires n <= |a|
  {
    Holding(cuts, k, m, a, n, s) && !Full(cuts, a, n, s.last + 1)
  }

  lemma Longer(cuts: map<u64, Cut>, from: int, out: seq<ReceivedFrame>, more: seq<ReceivedFrame>)
    requires Consecutive(cuts, from, out) && Consecutive(cuts, from + |out|, more)
    ensures Consecutive(cuts, from, out + more)
  {
    forall i | 0 <= i < |out + more|
      ensures var v := (out + more)[i].video;
              v.frameId == from + 1 + i && v.frameId in cuts && Same(v, cuts[v.frameId].frame)
    {
      assert i >= |out| ==> (out + more)[i] == more[i - |out|];
    }
  }

  lemma {:induction false} DrainCatchesUp(cuts: map<u64, Cut>, k: int, m: int, a: seq<Arrival>, n: nat, s: State)
    requires Sent(cuts) && Deltas(cuts, k, m) && InWindow(cuts, k, m, a) && n < |a| && OnTime(cuts, k, m, a, n)
    requires Holding(cuts, k, m, a, n + 1, s)
    ensures var (t, out) := Drained(s, a[n].polled);
            && CaughtUp(cuts, k, m, a, n + 1, t) && t.losses == s.losses
            && t.last == s.last + |out| && Consecutive(cuts, s.last, out)
    decreases |s.frames|
  {
    hide *;
    var now := a[n].polled;
    var r := NextSpec(s, now);
    DrainedTurn(s, now);
    if Full(cuts, a, n + 1, s.last + 1) {
      PollEmits(cuts, k, m, a, n + 1, s, now);
      DrainCatchesUp(cuts, k, m, a, n, r.state);
      OneOut(cuts, s.last, r.frame.value);
      Longer(cuts, s.last, [r.frame.value], Drained(r.state, now).1);
    } else {
      PollStops(cuts, k, m, a, n, s);
      NothingOut(cuts, k, m, a, n + 1, s);
    }
  }

  lemma DrainedTurn(s: State, now: u64)
    ensures var r := NextSpec(s, now);
            if r.frame.None? then Drained(s, now) == (r.state, [])
            else
              && |r.state.frames| < |s.frames|
              && Drained(s, now) == (Drained(r.state, now).0, [r.frame.value] + Drained(r.state, now).1)
  {
    NextShrinks(s, Ids(s), now);
  }

  lemma OneOut(cuts: map<u64, Cut>, from: int, v: ReceivedFrame)
    requires v.video.frameId == from + 1 && v.video.frameId in cuts && Same(v.video, cuts[v.video.frameId].frame)
    ensures Consecutive(cuts, from, [v])
  {
  }

  lemma NothingOut(cuts: map<u64, Cut>, k: int, m: int, a: seq<Arrival>, n: nat, s: State)
    requires n <= |a| && Holding(cuts, k, m, a, n, s) && !Full(cuts, a, n, s.last + 1)
    ensures CaughtUp(cuts, k, m, a, n, s) && Consecutive(cuts, s.last, [])
  {
    hide Holding, Full;
  }

  lemma FeedCatchesUp(cuts: map<u64, Cut>, k: int, m: int, a: seq<Arrival>, n: nat, s: State)
    requires Sent(cuts) && Deltas(cuts, k, m) && InWindow(cuts, k, m, a) && n < |a|
    requires CaughtUp(cuts, k, m, a, n, s)
    ensures var (t, out) := Feed(s, a[n]);
            && CaughtUp(cuts, k, m, a, n + 1, t) && t.losses == s.losses
            && t.last == s.last + |out| && Consecutive(cuts, s.last, out)
  {
    hide Full, OnTime, InWindow, Holding, Deltas, Sent, Same, Ingested, Expired, Drained;
    Due(cuts, k, m, a, n, s);
    IngestHolds(cuts, k, m, a, n, s);
    NoneStale(cuts, k, m, a, n + 1, n, Ingested(s, a[n]), a[n].polled);
    DrainCatchesUp(cuts, k, m, a, n, Ingested(s, a[n]));
  }

  lemma {:induction false} FedCatchesUp(cuts: map<u64, Cut>, k: int, m: int, a: seq<Arrival>, p: nat, n: nat, s: State)
    requires Sent(cuts) && Deltas(cuts, k, m) && InWindow(cuts, k, m, a) && p <= n <= |a|
    requires CaughtUp(cuts, k, m, a, p, s)
    ensures var (t, out) := Fed(s, a, p, n);
            && CaughtUp(cuts, k, m, a, n, t) && t.losses == s.losses
            && t.last == s.last + |out| && Consecutive(cuts, s.last, out)
    decreases n
  {
    hide CaughtUp, InWindow, Deltas, Sent, Same, Feed;
    if p < n {
      FedCatchesUp(cuts, k, m, a, p, n - 1, s);
      var (t, out) := Fed(s, a, p, n - 1);
      FeedCatchesUp(cuts, k, m, a, n - 1, t);
      Longer(cuts, s.last, out, Feed(t, a[n - 1]).1);
    }
  }

  lemma CompleteOut(cuts: map<u64, Cut>, k: int, m: int, a: seq<Arrival>, c: int, s: State)
    requires CaughtUp(cuts, k, m, a, |a|, s) && k <= c && AllFull(cuts, a, |a|, k, c) && !Full(cuts, a, |a|, c + 1)
    ensures s.last == c && !s.requiresKeyframe
  {
    hide Full, Arrived, Faithful, Invariant;
  }

  /**
   The reordering window. Let the assembler hold what has come in the first `p` arrivals, frame `k`
   being the last one handed out. If the arrivals keep to the window and bring the frames up to `c` in full,
   but not the next one, exactly those up to `c` are handed out, in order and as sent, and no loss is recorded.
   */
  lemma ReorderingWindow(cuts: map<u64, Cut>, k: int, m: int, a: seq<Arrival>, p: nat, c: int, s: State)
    requires Sent(cuts) && Deltas(cuts, k, m) && InWindow(cuts, k, m, a) && p <= |a|
    requires CaughtUp(cuts, k, m, a, p, s) && s.last == k
    requires k <= c && AllFull(cuts, a, |a|, k, c) && !Full(cuts, a, |a|, c + 1)
    ensures var (t, out) := Fed(s, a, p, |a|);
            && |out| == c - k && Consecutive(cuts, k, out) && t.losses == s.losses && !t.requiresKeyframe
            && CaughtUp(cuts, k, m, a, |a|, t)
  {
    hide *;
    FedCatchesUp(cuts, k, m, a, p, |a|, s);
    CompleteOut(cuts, k, m, a, c, Fed(s, a, p, |a|).0);
  }

  // Where the window may start

  /** With nothing under way after frame `k` the window may start anywhere. */
  lemma StartCaughtUp(cuts: map<u64, Cut>, k: int, m: int, a: seq<Arrival>, s: State)
    requires Sent(cuts) && 0 < k <= m && s.last == k && s.frames == map[] && !s.requiresKeyframe
    ensures CaughtUp(cuts, k, m, a, 0, s)
  {
    if k + 1 in cuts {
      OffsetStep(cuts[k + 1], Count(cuts[k + 1]) - 1);
      assert 0 !in Got(a, 0, k + 1);
    }
  }

  /** A poll that hands out a frame leaves the newer assemblies as they are. */
  lemma {:induction false} NewerStay(s: State, ids: seq<u64>, now: u64, j: u64)
    requires forall x, y | 0 <= x < y < |ids| :: ids[x] < ids[y]
    requires NextOver(s, ids, now).frame.Some? && NextOver(s, ids, now).state.last < j
    ensures var t := NextOver(s, ids, now).state;
            (j in t.frames <==> j in s.frames) && (j in s.frames ==> t.frames[j] == s.frames[j])
    decreases |ids|
  {
    var id, rest := ids[0], ids[1..];
    var t := s.(requiresKeyframe := s.requiresKeyframe || Gap(s, id));
    NextTurn(s, ids, 0, now);
    assert ids[0..] == ids;
    var d := Discard(t, id);
    DiscardFrames(t, id);
    LastAmong(d, rest, now);
    if id in t.frames {
      EmitShape(t, id, now);
    }
    hide NextOver, Emit, Discard;
    if NextOver(s, ids, now) == NextOver(s, rest, now) {
      NewerStay(s, rest, now, j);
    } else if NextOver(s, ids, now) == NextOver(d, rest, now) {
      NewerStay(d, rest, now, j);
    }
  }

  /** The frame handed out is one of those looked at. */
  lemma {:induction false} LastAmong(s: State, ids: seq<u64>, now: u64)
    ensures NextOver(s, ids, now).frame.Some? ==> NextOver(s, ids, now).state.last in ids
    decreases |ids|
  {
    if ids != [] {
      var id, rest := ids[0], ids[1..];
      var t := s.(requiresKeyframe := s.requiresKeyframe || Gap(s, id));
      NextTurn(s, ids, 0, now);
      assert ids[0..] == ids;
      hide NextOver, Discard;
      LastAmong(s, rest, now);
      LastAmong(Discard(t, id), rest, now);
    }
  }

  lemma PolledArrived(a: seq<Arrival>, n: nat, s: State, t: State, j: u64)
    requires n <= |a| && FramesOk(t)
    requires t.last < j ==> (j in t.frames <==> j in s.frames) && (j in s.frames ==> t.frames[j] == s.frames[j])
    requires t.last < j ==> Arrived(a, n, s, j) && s.last < j
    ensures Arrived(a, n, t, j)
  {
    hide Got, FirstAt, PartialOk;
  }

  /**
   The window may start at any frame `k` that a poll hands out, whatever came before, if of the frames behind it
   the assembler holds all that has arrived and the next one is not complete yet.
   */
  lemma StartsBehind(cuts: map<u64, Cut>, k: u64, m: int, a: seq<Arrival>, n: nat, s: State, now: u64)
    requires Sent(cuts) && 0 < k <= m && n <= |a| && Invariant(s) && Faithful(cuts, s)
    requires var r := NextSpec(s, now); r.frame.Some? && r.frame.value.video.frameId == k
    requires forall j: u64 | k < j :: Arrived(a, n, s, j)
    requires !Full(cuts, a, n, k + 1)
    ensures CaughtUp(cuts, k, m, a, n, NextSpec(s, now).state)
  {
    var t, ids := NextSpec(s, now).state, Ids(s);
    hide Got, FirstAt, Full, Sent, NextOver, Arrived, Faithful, FramesOk, PartialOk;
    NextOverFaithful(cuts, s, ids, now);
    NextKeeps(s, now);
    HandedOut(s, ids, now);
    forall j: u64
      ensures Arrived(a, n, t, j)
    {
      if k < j {
        NewerStay(s, ids, now, j);
      }
      PolledArrived(a, n, s, t, j);
    }
    NothingBefore(cuts, a, n, k);
    NowHolding(cuts, k, m, a, n, t);
  }

  lemma {:induction false} HandedOut(s: State, ids: seq<u64>, now: u64)
    ensures NextOver(s, ids, now).frame.Some? ==> !NextOver(s, ids, now).state.requiresKeyframe
    decreases |ids|
  {
    if ids != [] {
      var id, rest := ids[0], ids[1..];
      var t := s.(requiresKeyframe := s.requiresKeyframe || Gap(s, id));
      NextTurn(s, ids, 0, now);
      assert ids[0..] == ids;
      hide NextOver, Discard;
      HandedOut(s, rest, now);
      HandedOut(Discard(t, id), rest, now);
    }
  }

  lemma NothingBefore(cuts: map<u64, Cut>, a: seq<Arrival>, n: nat, k: int)
    requires n <= |a|
    ensures AllFull(cuts, a, n, k, k)
  {
  }
}
