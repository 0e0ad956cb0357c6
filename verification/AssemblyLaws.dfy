/**
 What ingesting a fragment and polling for a frame do to the assembler, said of the states before and after
 alone: which assemblies stay, which are given up and counted, and what is answered.
 */
module AssemblyLaws {
  import opened Base
  import opened Fragments
  import opened Assembly

  // Ingesting

  /** The assembly is there and at most 40 ms old. */
  predicate Alive(s: State, id: u64, now: u64) {
    id in s.frames && now <= s.frames[id].arrival + 40_000
  }

  function AliveIds(s: State, now: u64): set<u64> {
    set id | id in s.frames && Alive(s, id, now)
  }

  /** The assemblies that a fragment pushes out: alive before and gone afterwards. */
  function PushedOut(s: State, t: State, now: u64): set<u64> {
    set id | id in s.frames && Alive(s, id, now) && id !in t.frames
  }

  /** A fragment with a field out of range, or of a frame handed out already or older, changes nothing. */
  lemma RefusedUntouched(s: State, f: VideoFragment, now: u64)
    ensures var bad := f.count == 0 || f.count > 4096 || f.index >= f.count || f.totalBytes == 0
                       || f.totalBytes > 2 * 1024 * 1024 || f.data == [] || |f.data| > 1100 || f.keyframe > 1;
            && (bad ==> IngestSpec(s, f, now) == (s, Malformed))
            && (!bad && f.frameId <= s.last ==> IngestSpec(s, f, now) == (s, Ignored))
            && (!bad && f.frameId > s.last ==> IngestSpec(s, f, now).0.received == Wrap(s.received + 1))
  {
    var r := s.(received := Bump(s.received, 1));
    if FragmentOk(f) && s.last < f.frameId {
      IngestCounters(s, f, now);
    }
  }

  lemma IngestCounters(s: State, f: VideoFragment, now: u64)
    requires FragmentOk(f) && s.last < f.frameId
    ensures IngestSpec(s, f, now).0.received == Wrap(s.received + 1)
  {
    var r := s.(received := Bump(s.received, 1));
    DiscardAllReceived(r, Stale(r, r.frames.Keys, now));
    hide DiscardAll, Stale;
  }

  lemma {:induction false} DiscardAllReceived(s: State, ids: set<u64>)
    ensures DiscardAll(s, ids).received == s.received
    decreases |ids|
  {
    if ids != {} {
      var m := Min(ids);
      DiscardAllReceived(Discard(s, m), ids - {m});
    }
  }

  /** The fragments absent from these assemblies. */
  ghost function Absent(s: State, ids: set<u64>): nat
    requires FramesOk(s) && ids <= s.frames.Keys
  {
    Sum(AbsentEach(s, ids))
  }

  ghost function AbsentEach(s: State, ids: set<u64>): map<int, nat>
    requires FramesOk(s) && ids <= s.frames.Keys
  {
    map id | id in ids :: AbsentIn(s, id)
  }

  ghost function AbsentIn(s: State, id: u64): nat
    requires FramesOk(s) && id in s.frames
  {
    PartsBounded(s.frames[id]);
    s.frames[id].meta.count - |s.frames[id].parts|
  }

  lemma AbsentAdd(s: State, ids: set<u64>, id: u64)
    requires FramesOk(s) && ids <= s.frames.Keys && id in s.frames && id !in ids
    ensures Absent(s, ids + {id}) == Absent(s, ids) + AbsentIn(s, id)
  {
    hide FramesOk;
    SumAdd(AbsentEach(s, ids), id, AbsentIn(s, id));
    assert AbsentEach(s, ids + {id}) == AbsentEach(s, ids)[id := AbsentIn(s, id)];
  }

  lemma DiscardMissing(s: State, ids: set<u64>, id: u64)
    requires FramesOk(s) && ids <= s.frames.Keys && id in ids
    ensures var d, rest := Discard(s, id), ids - {id};
            && FramesOk(d) && rest <= d.frames.Keys
            && d.missing == Wrap(s.missing + AbsentIn(s, id)) && Absent(d, rest) == Absent(s, rest)
            && Absent(s, ids) == Absent(s, rest) + AbsentIn(s, id)
  {
    hide PartialOk, Sum;
    var d, rest := Discard(s, id), ids - {id};
    DiscardFrames(s, id);
    assert rest <= d.frames.Keys && rest + {id} == ids;
    assert AbsentEach(d, rest) == AbsentEach(s, rest);
    AbsentAdd(s, rest, id);
  }

  lemma {:induction false} DiscardAllMissing(s: State, ids: set<u64>)
    requires FramesOk(s) && ids <= s.frames.Keys
    ensures DiscardAll(s, ids).missing == Wrap(s.missing + Absent(s, ids))
    decreases |ids|
  {
    hide *;
    if ids == {} {
      NoneAbsent(s);
      WrapNone(s.missing);
    } else {
      var m: u64 := Min(ids);
      var d, rest := Discard(s, m), ids - {m};
      DiscardMissing(s, ids, m);
      DiscardAllMissing(d, rest);
      DiscardAllStep(s, ids);
      WrapAdd(s.missing + AbsentIn(s, m), Absent(s, rest));
    }
  }

  lemma NoneAbsent(s: State)
    requires FramesOk(s)
    ensures DiscardAll(s, {}) == s && Absent(s, {}) == 0
  {
    assert AbsentEach(s, {}) == map[];
  }

  lemma DiscardAllStep(s: State, ids: set<u64>)
    requires ids != {}
    ensures DiscardAll(s, ids) == DiscardAll(Discard(s, Min(ids)), ids - {Min(ids)})
  {
  }

  // Which assembly gives way

  /** Taking in a fragment of another frame: what is pushed out of the assemblies there were. */
  ghost predicate GivesWay(s: State, t: State, id: u64, out: set<u64>)
    requires FramesOk(s)
  {
    && out <= s.frames.Keys && id !in out
    && t.frames.Keys == s.frames.Keys - out + {id}
    && (forall k | k in s.frames && k !in out :: t.frames[k] == s.frames[k])
    && (out == {} <==> id in s.frames || |s.frames| < 2) && |out| <= 1
    && (forall a, b | a in out && b in s.frames && b !in out :: a < b)
    && t.losses == Wrap(s.losses + |out|) && t.missing == Wrap(s.missing + Absent(s, out))
    && (t.requiresKeyframe <==> s.requiresKeyframe || out != {})
    && t.last == s.last && t.received == s.received
  }

  lemma OpenedLaw(s: State, f: VideoFragment, now: u64) returns (out: set<u64>)
    requires Invariant(s)
    ensures GivesWay(s, Opened(s, f, now), f.frameId, out)
    ensures OpenedOwn(s, Opened(s, f, now), f, now)
  {
    out := if f.frameId !in s.frames && |s.frames| >= 2 then {Min(s.frames.Keys)} else {};
    NoneAbsent(s);
    hide FramesOk, Absent;
    if f.frameId in s.frames {
      WrapNone(s.losses);
      WrapNone(s.missing);
    } else {
      var r := MadeRoom(s);
      assert r == out;
      OneOpened(s, Room(s), f, now, out);
    }
  }

  /** The fragment's own assembly: the one under way, or a new one that arrives now. */
  ghost predicate OpenedOwn(s: State, t: State, f: VideoFragment, now: u64) {
    && f.frameId in t.frames
    && t.frames[f.frameId] == if f.frameId in s.frames then s.frames[f.frameId] else Partial(f, now, map[], 0)
  }

  lemma WrapNone(c: u32)
    ensures Wrap(c + 0) == c
  {
  }

  /** What making room gives up: the older of two. */
  ghost predicate MakesRoom(s: State, t: State, out: set<u64>)
    requires FramesOk(s)
  {
    && out <= s.frames.Keys && |out| <= 1 && (out == {} <==> |s.frames| < 2)
    && t.frames == s.frames - out
    && (forall a, b | a in out && b in s.frames && b !in out :: a < b)
    && t.losses == Wrap(s.losses + |out|) && t.missing == Wrap(s.missing + Absent(s, out))
    && (t.requiresKeyframe <==> s.requiresKeyframe || out != {})
    && t.last == s.last && t.received == s.received
  }

  lemma MadeRoom(s: State) returns (out: set<u64>)
    requires FramesOk(s) && |s.frames| <= 2
    ensures MakesRoom(s, Room(s), out) && out == if |s.frames| >= 2 then {Min(s.frames.Keys)} else {}
  {
    if |s.frames| >= 2 {
      NonemptyKeys(s);
      out := {Min(s.frames.Keys)};
      OldestGivesWay(s);
    } else {
      out := {};
      RoomEnough(s);
    }
  }

  lemma OldestGivesWay(s: State)
    requires FramesOk(s) && |s.frames| == 2 && s.frames.Keys != {}
    ensures MakesRoom(s, Room(s), {Min(s.frames.Keys)})
  {
    var m: u64 := Min(s.frames.Keys);
    assert Room(s) == Discard(s, m);
    DiscardOne(s, m);
    hide *;
    GivenUp(s, Room(s), m);
  }

  lemma GivenUp(s: State, t: State, m: u64)
    requires FramesOk(s) && |s.frames| == 2 && m in s.frames && forall b | b in s.frames :: m <= b
    requires t.frames == s.frames - {m} && t.losses == Wrap(s.losses + 1)
    requires t.missing == Wrap(s.missing + Absent(s, {m}))
    requires t.requiresKeyframe && t.last == s.last && t.received == s.received
    ensures MakesRoom(s, t, {m})
  {
    hide FramesOk, Absent, Wrap;
    assert |{m}| == 1;
  }

  lemma RoomEnough(s: State)
    requires FramesOk(s) && |s.frames| < 2
    ensures MakesRoom(s, Room(s), {})
  {
    NoneAbsent(s);
    WrapNone(s.losses);
    WrapNone(s.missing);
    hide FramesOk, Absent, Wrap;
    NothingGivenUp(s, {});
  }

  lemma NothingGivenUp(s: State, none: set<u64>)
    requires FramesOk(s) && |s.frames| < 2 && none == {} && Absent(s, none) == 0
    requires Wrap(s.losses + 0) == s.losses && Wrap(s.missing + 0) == s.missing
    ensures MakesRoom(s, s, none)
  {
    hide FramesOk, Absent, Wrap;
    assert s.frames - none == s.frames && |none| == 0;
  }

  lemma DiscardOne(s: State, id: u64)
    requires FramesOk(s) && id in s.frames
    ensures var t := Discard(s, id);
            && t.frames == s.frames - {id} && t.losses == Wrap(s.losses + 1)
            && t.missing == Wrap(s.missing + Absent(s, {id}))
            && t.requiresKeyframe && t.last == s.last && t.received == s.received
  {
    DiscardFrames(s, id);
    NoneAbsent(s);
    AbsentAdd(s, {}, id);
    hide FramesOk, Absent;
    assert {} + {id} == {id};
  }

  lemma OneOpened(s: State, r: State, f: VideoFragment, now: u64, out: set<u64>)
    requires FramesOk(s) && MakesRoom(s, r, out) && f.frameId !in s.frames
    ensures GivesWay(s, r.(frames := r.frames[f.frameId := Partial(f, now, map[], 0)]), f.frameId, out)
  {
    hide FramesOk, Absent, Wrap;
    var t := r.(frames := r.frames[f.frameId := Partial(f, now, map[], 0)]);
    OneMoreKey(s.frames, out, f.frameId, Partial(f, now, map[], 0));
    assert out == {} <==> |s.frames| < 2;
  }

  lemma OneMoreKey(m: map<u64, Partial>, out: set<u64>, id: u64, p: Partial)
    requires id !in m && out <= m.Keys
    ensures (m - out)[id := p].Keys == m.Keys - out + {id}
    ensures forall k | k in m && k !in out :: (m - out)[id := p][k] == m[k]
  {
    assert (m - out).Keys == m.Keys - out;
  }

  /** What expiry leaves. */
  ghost predicate Expires(s: State, t: State, now: u64)
    requires FramesOk(s)
  {
    && Late(s, now) <= s.frames.Keys
    && t.frames == s.frames - Late(s, now) && t.frames.Keys == AliveIds(s, now)
    && t.losses == Wrap(s.losses + |Late(s, now)|) && t.missing == Wrap(s.missing + Absent(s, Late(s, now)))
    && (t.requiresKeyframe <==> s.requiresKeyframe || Late(s, now) != {})
    && t.last == s.last && t.received == s.received
  }

  lemma ExpiredLaw(s: State, now: u64)
    requires FramesOk(s)
    ensures Expires(s, Expired(s, now), now)
  {
    hide FramesOk, Stale, DiscardAll, Absent;
    var ids := Stale(s, s.frames.Keys, now);
    ExpiredExactly(s, now);
    StaleIsLate(s, now);
    DiscardAllFrames(s, ids);
    DiscardAllMissing(s, ids);
    DiscardAllReceived(s, ids);
    assert forall id | id in s.frames :: Alive(s, id, now) <==> id !in Late(s, now);
    assert (s.frames - ids).Keys == AliveIds(s, now);
  }

  lemma ExpiredOfCounted(s: State, n: u32, now: u64)
    requires Invariant(s)
    ensures FramesOk(s)
    ensures var r := s.(received := n);
            && Invariant(r) && FramesOk(r)
            && Expires(s, Expired(r, now).(received := s.received), now) && Expired(r, now).received == n
  {
    hide *;
    var r := s.(received := n);
    InvariantFrames(s);
    Recounted(s, n);
    InvariantFrames(r);
    ExpiredLaw(r, now);
    ExpiresSame(s, r, Expired(r, now), now);
  }

  lemma Recounted(s: State, n: u32)
    requires Invariant(s)
    ensures Invariant(s.(received := n))
  {
  }

  lemma ExpiresSame(s: State, r: State, t: State, now: u64)
    requires FramesOk(s) && FramesOk(r) && r == s.(received := r.received) && Expires(r, t, now)
    ensures Expires(s, t.(received := s.received), now) && t.received == r.received
  {
    hide FramesOk, Absent;
    assert Late(r, now) == Late(s, now) && AliveIds(r, now) == AliveIds(s, now);
    AbsentSame(s, r, Late(s, now));
  }

  /** Ingesting in its two steps, expiry and opening, with what they give up. */
  lemma IngestParts(s: State, f: VideoFragment, now: u64) returns (e: State, o: State, out: set<u64>)
    requires Invariant(s) && FragmentOk(f) && s.last < f.frameId
    ensures FramesOk(s) && Invariant(e) && FramesOk(e)
    ensures Expires(s, e.(received := s.received), now) && e.received == Wrap(s.received + 1)
    ensures GivesWay(e, o, f.frameId, out) && OpenedOwn(e, o, f, now)
    ensures f.frameId in o.frames && IngestSpec(s, f, now) == Store(o, f)
  {
    hide *;
    var n := Wrap(s.received + 1);
    var r := s.(received := n);
    ExpiredOfCounted(s, n, now);
    ExpiredKeeps(r, now);
    e := Expired(r, now);
    InvariantFrames(e);
    o := Opened(e, f, now);
    out := OpenedLaw(e, f, now);
    OwnOpened(e, o, f, now);
    IngestIs(s, f, now);
  }

  lemma IngestIs(s: State, f: VideoFragment, now: u64)
    requires FragmentOk(f) && s.last < f.frameId
    ensures var o := Opened(Expired(s.(received := Wrap(s.received + 1)), now), f, now);
            f.frameId in o.frames && IngestSpec(s, f, now) == Store(o, f)
  {
    OpensFrame(Expired(s.(received := Wrap(s.received + 1)), now), f, now);
    hide Store, Opened, Expired;
  }

  lemma InvariantFrames(s: State)
    requires Invariant(s)
    ensures FramesOk(s) && |s.frames| <= 2
  {
    hide FramesOk;
  }

  /** Storing the fragment changes nothing but its own assembly. */
  lemma StoreOnlyOwn(s: State, f: VideoFragment)
    requires f.frameId in s.frames
    ensures var t := Store(s, f).0;
            && t.frames.Keys == s.frames.Keys
            && (forall id | id in s.frames && id != f.frameId :: t.frames[id] == s.frames[id])
            && t == s.(frames := t.frames)
  {
  }

  lemma OutIsPushed(s: State, e: State, o: State, t: State, id: u64, out: set<u64>, now: u64)
    requires FramesOk(s) && FramesOk(e)
    requires Expires(s, e.(received := s.received), now) && GivesWay(e, o, id, out)
    requires t.frames.Keys == o.frames.Keys
    ensures PushedOut(s, t, now) == out <= s.frames.Keys
    ensures id in e.frames <==> Alive(s, id, now)
  {
    hide FramesOk, Absent, Wrap, Late;
    assert e.frames.Keys == AliveIds(s, now);
    assert forall k: u64 :: k in PushedOut(s, t, now) <==> k in out;
  }

  lemma AbsentSame(s: State, e: State, ids: set<u64>)
    requires FramesOk(s) && FramesOk(e) && ids <= e.frames.Keys <= s.frames.Keys
    requires forall k | k in e.frames :: e.frames[k] == s.frames[k]
    ensures Absent(e, ids) == Absent(s, ids)
  {
    hide FramesOk, Sum;
    assert AbsentEach(e, ids) == AbsentEach(s, ids);
  }

  lemma OwnOpened(e: State, o: State, f: VideoFragment, now: u64)
    requires OpenedOwn(e, o, f, now)
    ensures f.frameId in o.frames
  {
  }

  /**
   Taking in a fragment of frame `id` turns `s` into `t`: the late assemblies are given up, and of the others
   those in `out`: none if the frame is under way or fewer than two others are, else one, older than any that
   stays.
   */
  ghost predicate LeavesAs(s: State, t: State, id: u64, out: set<u64>, now: u64) {
    && out <= s.frames.Keys
    && t.frames.Keys == AliveIds(s, now) - out + {id}
    && (forall k | k in t.frames && k != id :: k in s.frames && t.frames[k] == s.frames[k])
    && (out == {} <==> Alive(s, id, now) || |AliveIds(s, now)| < 2) && |out| <= 1
    && (forall a, b: u64 | a in out && Alive(s, b, now) && b in t.frames :: a < b)
  }

  /** Each assembly given up is counted as a loss with its absent fragments, and calls for a keyframe. */
  ghost predicate CountsAs(s: State, t: State, out: set<u64>, now: u64)
    requires FramesOk(s) && out <= s.frames.Keys
  {
    && Late(s, now) <= s.frames.Keys
    && t.losses == Wrap(s.losses + |Late(s, now)| + |out|)
    && t.missing == Wrap(s.missing + Absent(s, Late(s, now)) + Absent(s, out))
    && (t.requiresKeyframe <==> s.requiresKeyframe || Late(s, now) != {} || out != {})
    && t.last == s.last && t.received == Wrap(s.received + 1)
  }

  lemma LawFromParts(s: State, e: State, o: State, t: State, id: u64, out: set<u64>, now: u64)
    requires FramesOk(s) && FramesOk(e)
    requires Expires(s, e.(received := s.received), now) && e.received == Wrap(s.received + 1)
    requires GivesWay(e, o, id, out) && (id in e.frames <==> Alive(s, id, now))
    requires t.frames.Keys == o.frames.Keys && t == o.(frames := t.frames)
    requires forall k | k in o.frames && k != id :: t.frames[k] == o.frames[k]
    ensures LeavesAs(s, t, id, out, now) && CountsAs(s, t, out, now)
  {
    hide *;
    LeavesFromParts(s, e, o, t, id, out, now);
    CountsFromParts(s, e, o, t, id, out, now);
  }

  lemma LeavesFromParts(s: State, e: State, o: State, t: State, id: u64, out: set<u64>, now: u64)
    requires FramesOk(s) && FramesOk(e)
    requires Expires(s, e.(received := s.received), now)
    requires GivesWay(e, o, id, out) && (id in e.frames <==> Alive(s, id, now))
    requires t.frames.Keys == o.frames.Keys
    requires forall k | k in o.frames && k != id :: t.frames[k] == o.frames[k]
    ensures LeavesAs(s, t, id, out, now)
  {
    hide *;
    AliveMembers(s, now);
    ExpiresFrames(s, e.(received := s.received), now);
    GivesWayFrames(e, o, id, out);
    LeavesFrom(s, e, t, id, out, now);
  }

  lemma LeavesFrom(s: State, e: State, t: State, id: u64, out: set<u64>, now: u64)
    requires AliveIds(s, now) == e.frames.Keys <= s.frames.Keys
    requires forall k | k in e.frames :: e.frames[k] == s.frames[k]
    requires forall b: u64 :: b in AliveIds(s, now) <==> Alive(s, b, now)
    requires out <= e.frames.Keys && id !in out && t.frames.Keys == e.frames.Keys - out + {id}
    requires forall k | k in e.frames && k !in out && k != id :: k in t.frames && t.frames[k] == e.frames[k]
    requires (out == {} <==> id in e.frames || |e.frames| < 2) && |out| <= 1
    requires forall a, b | a in out && b in e.frames && b !in out :: a < b
    ensures LeavesAs(s, t, id, out, now)
  {
    hide AliveIds, Alive;
    assert |e.frames| == |e.frames.Keys|;
  }

  lemma GivesWayFrames(s: State, t: State, id: u64, out: set<u64>)
    requires FramesOk(s) && GivesWay(s, t, id, out)
    ensures out <= s.frames.Keys && id !in out && t.frames.Keys == s.frames.Keys - out + {id}
    ensures forall k | k in s.frames && k !in out :: t.frames[k] == s.frames[k]
    ensures (out == {} <==> id in s.frames || |s.frames| < 2) && |out| <= 1
    ensures forall a, b | a in out && b in s.frames && b !in out :: a < b
  {
    hide FramesOk, Absent, Wrap;
  }

  lemma CountsFromParts(s: State, e: State, o: State, t: State, id: u64, out: set<u64>, now: u64)
    requires FramesOk(s) && FramesOk(e)
    requires Expires(s, e.(received := s.received), now) && e.received == Wrap(s.received + 1)
    requires GivesWay(e, o, id, out) && t == o.(frames := t.frames)
    ensures out <= s.frames.Keys && CountsAs(s, t, out, now)
  {
    hide *;
    ExpiresFrames(s, e.(received := s.received), now);
    GivesWayCounts(e, o, id, out);
    AbsentSame(s, e, out);
    CountsFrom(s, e, t, out, now);
  }

  lemma CountsFrom(s: State, e: State, t: State, out: set<u64>, now: u64)
    requires FramesOk(s) && out <= s.frames.Keys && Late(s, now) <= s.frames.Keys
    requires e.losses == Wrap(s.losses + |Late(s, now)|) && e.missing == Wrap(s.missing + Absent(s, Late(s, now)))
    requires e.requiresKeyframe <==> s.requiresKeyframe || Late(s, now) != {}
    requires e.last == s.last && e.received == Wrap(s.received + 1)
    requires t.losses == Wrap(e.losses + |out|) && t.missing == Wrap(e.missing + Absent(s, out))
    requires t.requiresKeyframe <==> e.requiresKeyframe || out != {}
    requires t.last == e.last && t.received == e.received
    ensures CountsAs(s, t, out, now)
  {
    hide FramesOk, Absent, Wrap, Late;
    WrapAdd(s.losses + |Late(s, now)|, |out|);
    WrapAdd(s.missing + Absent(s, Late(s, now)), Absent(s, out));
  }

  lemma ExpiresFrames(s: State, e: State, now: u64)
    requires FramesOk(s) && Expires(s, e, now)
    ensures AliveIds(s, now) == e.frames.Keys <= s.frames.Keys
    ensures forall k | k in e.frames :: e.frames[k] == s.frames[k]
    ensures Late(s, now) <= s.frames.Keys
    ensures e.losses == Wrap(s.losses + |Late(s, now)|) && e.missing == Wrap(s.missing + Absent(s, Late(s, now)))
    ensures e.requiresKeyframe <==> s.requiresKeyframe || Late(s, now) != {}
    ensures e.last == s.last
  {
    hide FramesOk, Absent, Wrap, Late, AliveIds;
  }

  lemma GivesWayCounts(s: State, t: State, id: u64, out: set<u64>)
    requires FramesOk(s) && GivesWay(s, t, id, out)
    ensures out <= s.frames.Keys
    ensures t.losses == Wrap(s.losses + |out|) && t.missing == Wrap(s.missing + Absent(s, out))
    ensures (t.requiresKeyframe <==> s.requiresKeyframe || out != {})
    ensures t.last == s.last && t.received == s.received
  {
    hide FramesOk, Absent, Wrap;
  }

  lemma AliveMembers(s: State, now: u64)
    ensures forall b: u64 :: b in AliveIds(s, now) <==> Alive(s, b, now)
  {
  }

  /** What a well-formed fragment of a newer frame does, said of the states before and after. */
  lemma IngestLaw(s: State, f: VideoFragment, now: u64)
    requires Invariant(s) && FragmentOk(f) && s.last < f.frameId
    ensures var t := IngestSpec(s, f, now).0;
            var out := PushedOut(s, t, now);
            FramesOk(s) && LeavesAs(s, t, f.frameId, out, now) && CountsAs(s, t, out, now)
  {
    hide *;
    var e, o, out := IngestParts(s, f, now);
    OwnOpened(e, o, f, now);
    StoreOnlyOwn(o, f);
    OutIsPushed(s, e, o, Store(o, f).0, f.frameId, out, now);
    LawFromParts(s, e, o, Store(o, f).0, f.frameId, out, now);
  }

  /** The fragment's own assembly as expiry leaves it: the one under way, or an empty one that starts now. */
  function Own(s: State, f: VideoFragment, now: u64): Partial {
    if Alive(s, f.frameId, now) then s.frames[f.frameId] else Partial(f, now, map[], 0)
  }

  /**
   The answer to a fragment: refused if it disagrees with the assembly's first fragment or with a part that is
   there, or if there would be too many bytes; otherwise it is there afterwards. Nothing else of the assembly
   changes.
   */
  lemma IngestAnswer(s: State, f: VideoFragment, now: u64)
    requires Invariant(s) && FragmentOk(f) && s.last < f.frameId
    ensures f.frameId in IngestSpec(s, f, now).0.frames
    ensures var (t, r) := IngestSpec(s, f, now);
            var p, q := Own(s, f, now), t.frames[f.frameId];
            var agrees := (p.meta.generation, p.meta.count, p.meta.totalBytes, p.meta.keyframe) ==
                          (f.generation, f.count, f.totalBytes, f.keyframe)
                          && p.meta.captureTimestamp == f.captureTimestamp
                          && p.meta.encodeTimestamp == f.encodeTimestamp;
            && (r == Malformed <==> !agrees || (f.index in p.parts && p.parts[f.index] != f.data))
            && (r == Oversized <==> agrees && f.index !in p.parts && p.bytes + |f.data| > f.totalBytes)
            && (r == Accepted || q == p) && r != Ignored
            && (r == Accepted ==> q.parts == p.parts[f.index := f.data] && (q.meta, q.arrival) == (p.meta, p.arrival)
                                  && q.bytes == if f.index in p.parts then p.bytes else p.bytes + |f.data|)
  {
    hide *;
    var e, o, out := IngestParts(s, f, now);
    OutIsPushed(s, e, o, o, f.frameId, out, now);
    ExpiresFrames(s, e.(received := s.received), now);
    OwnIs(s, e, o, f, now);
    StoreAnswer(o, f);
  }

  lemma OwnIs(s: State, e: State, o: State, f: VideoFragment, now: u64)
    requires OpenedOwn(e, o, f, now) && (f.frameId in e.frames <==> Alive(s, f.frameId, now))
    requires e.frames.Keys <= s.frames.Keys && forall k | k in e.frames :: e.frames[k] == s.frames[k]
    ensures f.frameId in o.frames && o.frames[f.frameId] == Own(s, f, now)
  {
  }

  lemma StoreAnswer(s: State, f: VideoFragment)
    requires f.frameId in s.frames
    ensures f.frameId in Store(s, f).0.frames
    ensures var (t, r) := Store(s, f);
            var p, q := s.frames[f.frameId], t.frames[f.frameId];
            var agrees := (p.meta.generation, p.meta.count, p.meta.totalBytes, p.meta.keyframe) ==
                          (f.generation, f.count, f.totalBytes, f.keyframe)
                          && p.meta.captureTimestamp == f.captureTimestamp
                          && p.meta.encodeTimestamp == f.encodeTimestamp;
            && (r == Malformed <==> !agrees || (f.index in p.parts && p.parts[f.index] != f.data))
            && (r == Oversized <==> agrees && f.index !in p.parts && p.bytes + |f.data| > f.totalBytes)
            && (r == Accepted || q == p) && r != Ignored
            && (r == Accepted ==> q.parts == p.parts[f.index := f.data] && (q.meta, q.arrival) == (p.meta, p.arrival)
                                  && q.bytes == if f.index in p.parts then p.bytes else p.bytes + |f.data|)
  {
    var p := s.frames[f.frameId];
    assert f.index in p.parts && p.parts[f.index] == f.data ==> p.parts[f.index := f.data] == p.parts;
  }

  // Polling

  /** A complete frame that is handed out when the search comes to it: a keyframe, or the next delta in line. */
  predicate Due(s: State, id: u64) {
    && id in s.frames && s.frames[id].Complete()
    && (s.frames[id].meta.keyframe != 0 || (id == s.last + 1 && !s.requiresKeyframe))
  }

  /** A complete delta behind a gap, in its first 8 ms: the search waits there. */
  predicate Holds(s: State, id: u64, now: u64) {
    && id in s.frames && s.frames[id].Complete() && s.frames[id].meta.keyframe == 0
    && s.last != 0 && id > s.last + 1 && now < s.frames[id].arrival + 8_000
  }

  predicate Stops(s: State, id: u64, now: u64) {
    Due(s, id) || Holds(s, id, now)
  }

  /** Where the search ends. */
  ghost predicate FirstStop(s: State, id: u64, now: u64) {
    Stops(s, id, now) && forall y | y in s.frames && y < id :: !Stops(s, y, now)
  }

  /** The complete frames that the search passes. */
  ghost function Passed(s: State, now: u64): set<u64> {
    set id | id in s.frames && s.frames[id].Complete() && forall y | y in s.frames && y <= id :: !Stops(s, y, now)
  }

  ghost predicate HandedOut(s: State, r: NextResult, id: u64, now: u64)
    requires FramesOk(s) && Due(s, id)
  {
    var p, t := s.frames[id], r.state;
    var m := p.meta;
    PartsBounded(p);
    && r.frame == Some(ReceivedFrame(VideoFrame(m.generation, id, m.captureTimestamp, m.encodeTimestamp,
                                                m.sendTimestamp, m.keyframe, JoinParts(p.parts, m.count)), now))
    && (forall y: u64 :: y in t.frames <==> y in s.frames && y > id)
    && (forall y | y in t.frames :: t.frames[y] == s.frames[y])
    && t.last == id && !t.requiresKeyframe
  }

  ghost predicate HeldBack(s: State, r: NextResult, now: u64) {
    var t := r.state;
    && r.frame == None
    && (forall y: u64 :: y in t.frames <==> y in s.frames && y !in Passed(s, now))
    && (forall y | y in t.frames :: t.frames[y] == s.frames[y])
    && t.last == s.last && (t.requiresKeyframe <==> s.requiresKeyframe || Passed(s, now) != {})
  }

  /**
   What a poll turns `s` into: it hands out a frame exactly when the first frame at which the search stops is
   due. Then older ones are dropped, and newer ones kept. Otherwise the complete deltas passed are given up and
   the rest is kept. Each frame passed is a loss.
   */
  ghost predicate NextAs(s: State, r: NextResult, now: u64)
    requires FramesOk(s)
  {
    && (r.frame.Some? <==> exists id :: FirstStop(s, id, now) && Due(s, id))
    && (forall id | FirstStop(s, id, now) && Due(s, id) :: HandedOut(s, r, id, now))
    && (r.frame.None? ==> HeldBack(s, r, now))
    && r.state.losses == Wrap(s.losses + |Passed(s, now)|)
    && r.state.missing == s.missing && r.state.received == s.received
  }

  /** `id` is one of the ids before position `i`. */
  predicate Below(ids: seq<u64>, i: nat, id: u64) {
    i < |ids| ==> id < ids[i]
  }

  /** The search has come to position `i`: nothing before it stopped the search, and `passed` are behind. */
  ghost predicate Reached(s: State, ids: seq<u64>, i: nat, passed: set<u64>, now: u64) {
    && i <= |ids|
    && (forall x :: x in ids <==> x in s.frames) && (forall j, k | 0 <= j < k < |ids| :: ids[j] < ids[k])
    && (forall x: u64 :: x in passed <==> x in s.frames && s.frames[x].Complete() && Below(ids, i, x))
    && (forall x | x in s.frames && Below(ids, i, x) :: !Stops(s, x, now))
  }

  /** The state with the frames passed given up. */
  ghost predicate Without(s: State, u: State, passed: set<u64>) {
    && u.frames == s.frames - passed && u.last == s.last
    && (u.requiresKeyframe <==> s.requiresKeyframe || passed != {})
    && u.losses == Wrap(s.losses + |passed|) && u.missing == s.missing && u.received == s.received
  }

  lemma BelowNext(ids: seq<u64>, i: nat, x: u64)
    requires i < |ids| && x in ids && forall j, k | 0 <= j < k < |ids| :: ids[j] < ids[k]
    ensures Below(ids, i + 1, x) <==> Below(ids, i, x) || x == ids[i]
  {
    var k :| 0 <= k < |ids| && ids[k] == x;
  }

  lemma PassIncomplete(s: State, ids: seq<u64>, i: nat, passed: set<u64>, now: u64)
    requires Reached(s, ids, i, passed, now) && i < |ids| && !s.frames[ids[i]].Complete()
    ensures Reached(s, ids, i + 1, passed, now)
  {
    forall x: u64 | x in s.frames
      ensures Below(ids, i + 1, x) <==> Below(ids, i, x) || x == ids[i]
    {
      BelowNext(ids, i, x);
    }
  }

  lemma PassDelta(s: State, ids: seq<u64>, i: nat, passed: set<u64>, now: u64)
    requires Reached(s, ids, i, passed, now) && i < |ids|
    requires s.frames[ids[i]].Complete() && !Stops(s, ids[i], now)
    ensures Reached(s, ids, i + 1, passed + {ids[i]}, now)
  {
    hide Stops;
    forall x: u64 | x in s.frames
      ensures Below(ids, i + 1, x) <==> Below(ids, i, x) || x == ids[i]
    {
      BelowNext(ids, i, x);
    }
  }

  lemma GiveUp(s: State, u: State, passed: set<u64>, id: u64)
    requires Without(s, u, passed) && id in u.frames && u.frames[id].Complete() && id !in passed
    ensures var t := u.(requiresKeyframe := u.requiresKeyframe || Gap(u, id));
            Without(s, Discard(t, id), passed + {id})
  {
    var t := u.(requiresKeyframe := u.requiresKeyframe || Gap(u, id));
    WrapNone(u.missing);
    WrapAdd(s.losses + |passed|, 1);
    DiscardFrames(t, id);
    assert Discard(t, id).losses == Bump(u.losses, 1) && Discard(t, id).missing == Bump(u.missing, 0);
    assert |passed + {id}| == |passed| + 1;
    hide Wrap, Discard;
    assert s.frames - passed - {id} == s.frames - (passed + {id});
  }

  lemma PassedAtEnd(s: State, ids: seq<u64>, passed: set<u64>, now: u64)
    requires Reached(s, ids, |ids|, passed, now)
    ensures passed == Passed(s, now)
    ensures forall x | x in s.frames :: !Stops(s, x, now)
  {
    hide Stops;
    assert forall x | x in passed :: x in Passed(s, now);
    assert forall x | x in Passed(s, now) :: x in passed;
  }

  lemma SearchEnds(s: State, u: State, ids: seq<u64>, passed: set<u64>, now: u64)
    requires FramesOk(s) && Reached(s, ids, |ids|, passed, now) && Without(s, u, passed)
    ensures NextAs(s, NextResult(u, None, {}), now)
  {
    hide FramesOk, Wrap, Reached, Passed, HandedOut;
    PassedAtEnd(s, ids, passed, now);
    WaitsHere(s, u, passed, now);
    assert forall x: u64 | Due(s, x) :: x in s.frames && Stops(s, x, now);
  }

  lemma WaitsHere(s: State, u: State, passed: set<u64>, now: u64)
    requires Without(s, u, passed) && passed == Passed(s, now)
    ensures HeldBack(s, NextResult(u, None, {}), now)
  {
    hide Wrap, Passed;
  }

  lemma PassedAtStop(s: State, ids: seq<u64>, i: nat, passed: set<u64>, now: u64)
    requires Reached(s, ids, i, passed, now) && i < |ids| && Stops(s, ids[i], now)
    ensures passed == Passed(s, now)
    ensures forall id: u64 | FirstStop(s, id, now) :: id == ids[i]
    ensures FirstStop(s, ids[i], now)
    ensures forall x | x in passed :: x < ids[i]
  {
    var id := ids[i];
    StopThere(s, id, now);
    hide Stops;
    assert forall x | x in passed :: x in Passed(s, now);
    assert forall x | x in Passed(s, now) :: x in passed;
  }

  lemma StopThere(s: State, id: u64, now: u64)
    requires Stops(s, id, now)
    ensures id in s.frames
    ensures forall x: u64 | FirstStop(s, x, now) :: x <= id
  {
  }
  lemma NoneBetween(passed: set<u64>, last: u64)
    requires forall x | x in passed :: last < x < last + 1
    ensures passed == {}
  {
    EmptySet(passed);
  }

  /** Which way one turn of the search goes. */
  lemma TurnWhich(s: State, u: State, ids: seq<u64>, i: nat, passed: set<u64>, now: u64)
    requires Invariant(s) && Reached(s, ids, i, passed, now) && Without(s, u, passed) && i < |ids|
    ensures var id := ids[i];
            && id in s.frames && id in u.frames && id !in passed && u.frames[id] == s.frames[id]
            && (Holds(s, id, now) <==> s.frames[id].Complete() && s.frames[id].meta.keyframe == 0 && Gap(u, id)
                                       && now - s.frames[id].arrival < REORDER_US)
            && (Due(s, id) <==> s.frames[id].Complete()
                                && (s.frames[id].meta.keyframe != 0 || !(u.requiresKeyframe || Gap(u, id))))
  {
    hide Wrap, PartialOk, Stops;
    var id := ids[i];
    assert id in ids && s.last < id;
    if id == s.last + 1 {
      assert forall x | x in passed :: s.last < x < s.last + 1;
      NoneBetween(passed, s.last);
    }
  }

  lemma EmitsDue(s: State, u: State, t: State, id: u64, passed: set<u64>, now: u64)
    requires FramesOk(s) && Without(s, u, passed) && Due(s, id)
    requires passed == Passed(s, now) && FirstStop(s, id, now) && forall x | x in passed :: x < id
    requires forall x: u64 | FirstStop(s, x, now) :: x == id
    requires id in u.frames && u.frames[id] == s.frames[id]
    requires t.frames == u.frames && t.losses == u.losses && t.missing == u.missing && t.received == u.received
    ensures NextAs(s, Emit(t, id, now), now)
  {
    hide *;
    var r := Emit(t, id, now);
    EmitsThis(s, u, t, id, passed, now);
    WithoutCounts(s, u, passed);
    EmitShape(t, id, now);
    AsOfThis(s, r, id, now);
  }

  lemma WithoutCounts(s: State, u: State, passed: set<u64>)
    requires Without(s, u, passed)
    ensures u.losses == Wrap(s.losses + |passed|) && u.missing == s.missing && u.received == s.received
    ensures u.last == s.last
  {
  }

  lemma EmitsThis(s: State, u: State, t: State, id: u64, passed: set<u64>, now: u64)
    requires FramesOk(s) && Without(s, u, passed) && Due(s, id)
    requires (forall x | x in passed :: x < id) && id in u.frames && u.frames[id] == s.frames[id]
    requires t.frames == u.frames
    ensures HandedOut(s, Emit(t, id, now), id, now) && Emit(t, id, now).frame.Some?
  {
    PartsBounded(s.frames[id]);
    hide FramesOk, Wrap, JoinParts;
  }

  lemma AsOfThis(s: State, r: NextResult, id: u64, now: u64)
    requires FramesOk(s) && Due(s, id) && FirstStop(s, id, now)
    requires forall x: u64 | FirstStop(s, x, now) :: x == id
    requires HandedOut(s, r, id, now) && r.frame.Some?
    requires r.state.losses == Wrap(s.losses + |Passed(s, now)|)
    requires r.state.missing == s.missing && r.state.received == s.received
    ensures NextAs(s, r, now)
  {
    hide FramesOk, Wrap, FirstStop, Passed, Due, HandedOut;
  }

  lemma HoldsThere(s: State, u: State, id: u64, passed: set<u64>, now: u64)
    requires FramesOk(s) && Without(s, u, passed) && Holds(s, id, now)
    requires passed == Passed(s, now)
    requires forall x: u64 | FirstStop(s, x, now) :: x == id
    ensures NextAs(s, NextResult(u, None, {}), now)
  {
    hide *;
    WaitsHere(s, u, passed, now);
    WithoutCounts(s, u, passed);
    StopsEither(s, id, now);
    AsHeld(s, NextResult(u, None, {}), now);
  }

  lemma AsHeld(s: State, r: NextResult, now: u64)
    requires FramesOk(s) && HeldBack(s, r, now) && r.frame.None?
    requires forall x: u64 | FirstStop(s, x, now) :: !Due(s, x)
    requires r.state.losses == Wrap(s.losses + |Passed(s, now)|)
    requires r.state.missing == s.missing && r.state.received == s.received
    ensures NextAs(s, r, now)
  {
    hide FramesOk, Wrap, FirstStop, Passed, Due, HandedOut, HeldBack;
  }

  lemma {:induction false} NextFrom(s: State, u: State, ids: seq<u64>, i: nat, passed: set<u64>, now: u64)
    requires Invariant(s) && FramesOk(s) && Reached(s, ids, i, passed, now) && Without(s, u, passed)
    ensures i <= |ids| && NextAs(s, NextOver(u, ids[i..], now), now)
    decreases |ids| - i
  {
    hide *;
    IdsWithin(s, ids, i, passed, now);
    if i == |ids| {
      NextEnds(u, ids, now);
      SearchEnds(s, u, ids, passed, now);
      return;
    }
    var id := ids[i];
    TurnWhich(s, u, ids, i, passed, now);
    NextTurn(u, ids, i, now);
    StopsEither(s, id, now);
    var t := u.(requiresKeyframe := u.requiresKeyframe || Gap(u, id));
    if !s.frames[id].Complete() {
      PassIncomplete(s, ids, i, passed, now);
      NextFrom(s, u, ids, i + 1, passed, now);
    } else if Holds(s, id, now) {
      PassedAtStop(s, ids, i, passed, now);
      HoldsThere(s, u, id, passed, now);
    } else if Due(s, id) {
      PassedAtStop(s, ids, i, passed, now);
      EmitsDue(s, u, t, id, passed, now);
    } else {
      PassDelta(s, ids, i, passed, now);
      GiveUp(s, u, passed, id);
      NextFrom(s, Discard(t, id), ids, i + 1, passed + {id}, now);
    }
  }

  lemma StopsEither(s: State, id: u64, now: u64)
    ensures Stops(s, id, now) <==> Due(s, id) || Holds(s, id, now)
    ensures Due(s, id) ==> !Holds(s, id, now)
  {
  }

  lemma IdsWithin(s: State, ids: seq<u64>, i: nat, passed: set<u64>, now: u64)
    requires Reached(s, ids, i, passed, now)
    ensures i <= |ids| && (i < |ids| ==> ids[i] in s.frames)
  {
  }

  lemma SearchBegins(s: State, now: u64)
    ensures Reached(s, Ids(s), 0, {}, now) && Without(s, s, {})
  {
    var ids := Ids(s);
    WrapNone(s.losses);
    assert s.frames - {} == s.frames;
    assert forall x | x in s.frames :: !Below(ids, 0, x);
  }

  /** What a poll does, said of the states before and after. */
  lemma NextLaw(s: State, now: u64)
    requires Invariant(s)
    ensures var r := NextSpec(s, now);
            FramesOk(s) && NextAs(s, r, now)
  {
    InvariantFrames(s);
    SearchBegins(s, now);
    NextFrom(s, s, Ids(s), 0, {}, now);
    assert Ids(s)[0..] == Ids(s);
  }
}
