/** The frame assembler: fragments in, whole frames out, over a lossy and reordering channel. */
module Assembly {
  import opened Base
  import opened Fragments

  const LIFETIME_US: int := 40_000
  const REORDER_US: int := 8_000

  /** A frame being assembled. */
  datatype Partial = Partial(meta: VideoFragment, arrival: u64, parts: map<u16, Bytes>, bytes: nat) {
    predicate Complete() {
      |parts| == meta.count && bytes == meta.totalBytes
    }
  }

  datatype State = State(
    frames: map<u64, Partial>, last: u64, losses: u32, received: u32, missing: u32, requiresKeyframe: bool)

  datatype ReceivedFrame = ReceivedFrame(video: VideoFrame, receiveTimestamp: u64)

  datatype Outcome = Accepted | Ignored | Malformed | Oversized {
    predicate Throws() {
      Malformed? || Oversized?
    }
  }

  const EMPTY: State := State(map[], 0, 0, 0, 0, true)

  function Bump(counter: u32, n: int): u32 {
    Wrap(counter + n)
  }

  // Discarding

  /** Gives up on a frame: its absent fragments and the loss are counted, and a keyframe is needed. */
  function Discard(s: State, id: u64): State {
    if id !in s.frames then s
    else
      var p := s.frames[id];
      s.(frames := s.frames - {id}, missing := Bump(s.missing, p.meta.count - |p.parts|),
         losses := Bump(s.losses, 1), requiresKeyframe := true)
  }

  function DiscardAll(s: State, ids: set<u64>): State
    decreases |ids|
  {
    if ids == {} then s
    else
      var m := Min(ids);
      DiscardAll(Discard(s, m), ids - {m})
  }

  predicate IsStale(p: Partial, now: u64) {
    now >= p.arrival && now - p.arrival > LIFETIME_US
  }

  function Stale(s: State, ids: set<u64>, now: u64): set<u64> {
    set id | id in ids && id in s.frames && IsStale(s.frames[id], now)
  }

  function Expired(s: State, now: u64): State {
    DiscardAll(s, Stale(s, s.frames.Keys, now))
  }

  lemma DiscardCommutes(s: State, a: u64, b: u64)
    ensures Discard(Discard(s, a), b) == Discard(Discard(s, b), a)
  {
    if a in s.frames && b in s.frames && a != b {
      var p, q := s.frames[a], s.frames[b];
      assert s.frames - {a} - {b} == s.frames - {b} - {a};
      BumpTwice(s.missing, p.meta.count - |p.parts|, q.meta.count - |q.parts|);
    }
  }

  lemma WrapAdd(x: int, y: int)
    ensures Wrap(Wrap(x) + y) == Wrap(x + y)
  {
  }

  lemma BumpTwice(c: u32, x: int, y: int)
    ensures Bump(Bump(c, x), y) == Bump(Bump(c, y), x)
  {
    hide Wrap;
    WrapAdd(c + x, y);
    WrapAdd(c + y, x);
  }

  /** The order in which frames are discarded does not matter. */
  lemma {:induction false} DiscardAny(s: State, ids: set<u64>, x: u64)
    requires x in ids
    ensures DiscardAll(s, ids) == DiscardAll(Discard(s, x), ids - {x})
    decreases |ids|
  {
    var m := Min(ids);
    if m != x {
      DiscardAny(Discard(s, m), ids - {m}, x);
      DiscardCommutes(s, m, x);
      assert ids - {m} - {x} == ids - {x} - {m};
      assert Min(ids - {x}) == m;
    }
  }

  // Ingesting

  predicate FragmentOk(f: VideoFragment) {
    && 0 < f.count <= MAX_FRAGMENTS && f.index < f.count
    && 0 < f.totalBytes <= MAX_FRAME && 0 < |f.data| <= MAX_FRAGMENT && f.keyframe <= 1
  }

  predicate SameFrame(m: VideoFragment, f: VideoFragment) {
    && m.generation == f.generation && m.count == f.count && m.totalBytes == f.totalBytes
    && m.captureTimestamp == f.captureTimestamp && m.encodeTimestamp == f.encodeTimestamp
    && m.keyframe == f.keyframe
  }

  /** Makes room for one more frame by giving up on the oldest. */
  function Room(s: State): State {
    if |s.frames| >= 2 && s.frames.Keys != {} then Discard(s, Min(s.frames.Keys)) else s
  }

  function Opened(s: State, f: VideoFragment, now: u64): State {
    if f.frameId in s.frames then s
    else
      var r := Room(s);
      r.(frames := r.frames[f.frameId := Partial(f, now, map[], 0)])
  }

  function Added(p: Partial, f: VideoFragment): Partial {
    p.(parts := p.parts[f.index := f.data], bytes := p.bytes + |f.data|)
  }

  function Store(s: State, f: VideoFragment): (State, Outcome)
    requires f.frameId in s.frames
  {
    var p := s.frames[f.frameId];
    if !SameFrame(p.meta, f) then (s, Malformed)
    else if f.index in p.parts then (s, if p.parts[f.index] == f.data then Accepted else Malformed)
    else if p.bytes + |f.data| > f.totalBytes then (s, Oversized)
    else (s.(frames := s.frames[f.frameId := Added(p, f)]), Accepted)
  }

  function IngestSpec(s: State, f: VideoFragment, now: u64): (State, Outcome) {
    if !FragmentOk(f) then (s, Malformed)
    else if f.frameId <= s.last then (s, Ignored)
    else Store(Opened(Expired(s.(received := Bump(s.received, 1)), now), f, now), f)
  }

  // Emitting

  /** The first `n` parts in index order. */
  function JoinParts(parts: map<u16, Bytes>, n: nat): Bytes
    requires forall i | 0 <= i < n :: i in parts
  {
    if n == 0 then [] else JoinParts(parts, n - 1) + parts[n - 1]
  }

  predicate Gap(s: State, id: u64) {
    s.last != 0 && id != s.last + 1
  }

  datatype NextResult = NextResult(state: State, frame: Option<ReceivedFrame>, superseded: set<u64>)

  function Emit(s: State, id: u64, now: u64): NextResult
    requires id in s.frames
  {
    var p := s.frames[id];
    if exists i | 0 <= i < p.meta.count :: i !in p.parts then NextResult(s, None, {})
    else
      var older := set o | o in s.frames && o < id;
      var m := p.meta;
      NextResult(
        s.(frames := s.frames - {id} - older, last := id, requiresKeyframe := false),
        Some(ReceivedFrame(
          VideoFrame(m.generation, id, m.captureTimestamp, m.encodeTimestamp, m.sendTimestamp, m.keyframe,
                     JoinParts(p.parts, m.count)), now)),
        older)
  }

  /** The search for the next frame over the ids still to be looked at. */
  function NextOver(s: State, ids: seq<u64>, now: u64): NextResult
    decreases |ids|
  {
    if ids == [] then NextResult(s, None, {})
    else
      var id, rest := ids[0], ids[1..];
      if id !in s.frames || !s.frames[id].Complete() then NextOver(s, rest, now)
      else
        var p := s.frames[id];
        if Gap(s, id) && p.meta.keyframe == 0 && now - p.arrival < REORDER_US then NextResult(s, None, {})
        else
          var t := if Gap(s, id) then s.(requiresKeyframe := true) else s;
          if t.requiresKeyframe && p.meta.keyframe == 0 then NextOver(Discard(t, id), rest, now)
          else Emit(t, id, now)
  }

  function Ids(s: State): (r: seq<u64>)
    ensures forall x :: x in r <==> x in s.frames
    ensures forall i, j | 0 <= i < j < |r| :: r[i] < r[j]
  {
    var r := Sorted(s.frames.Keys);
    assert forall i | 0 <= i < |r| :: r[i] in s.frames;
    r
  }

  function NextSpec(s: State, now: u64): NextResult {
    NextOver(s, Ids(s), now)
  }

  // What every reachable state satisfies

  ghost function Lengths(parts: map<u16, Bytes>): map<int, nat> {
    map i | i in parts :: |parts[i]|
  }

  ghost predicate PartialOk(p: Partial) {
    && 0 < p.meta.count <= MAX_FRAGMENTS && 0 < p.meta.totalBytes <= MAX_FRAME && p.meta.keyframe <= 1
    && (forall i | i in p.parts :: i < p.meta.count && 0 < |p.parts[i]| <= MAX_FRAGMENT)
    && p.bytes == Sum(Lengths(p.parts)) <= p.meta.totalBytes
  }

  ghost predicate FramesOk(s: State) {
    forall id | id in s.frames :: s.last < id && s.frames[id].meta.frameId == id && PartialOk(s.frames[id])
  }

  ghost predicate Invariant(s: State) {
    && |s.frames| <= 2
    && FramesOk(s)
    && (s.last == 0 ==> s.requiresKeyframe)
  }

  /** The clock reading is no earlier than any arrival, so no unsigned subtraction underflows. */
  ghost predicate ClockOk(s: State, now: u64) {
    forall id | id in s.frames :: s.frames[id].arrival <= now
  }

  /** The same where the search for the next frame takes an age: at a complete delta behind a gap that it reaches. */
  ghost predicate AgesOk(s: State, ids: seq<u64>, now: u64)
    decreases |ids|
  {
    if ids == [] then true
    else
      var id, rest := ids[0], ids[1..];
      if id !in s.frames || !s.frames[id].Complete() then AgesOk(s, rest, now)
      else
        var p, t := s.frames[id], s.(requiresKeyframe := s.requiresKeyframe || Gap(s, id));
        var aged := Gap(s, id) && p.meta.keyframe == 0;
        && (aged ==> p.arrival <= now)
        && (!(aged && now - p.arrival < REORDER_US) && t.requiresKeyframe && p.meta.keyframe == 0 ==>
              AgesOk(Discard(t, id), rest, now))
  }

  lemma PartsBounded(p: Partial)
    requires PartialOk(p)
    ensures |p.parts| <= p.meta.count
    ensures |p.parts| == p.meta.count ==> forall i | 0 <= i < p.meta.count :: i in p.parts
  {
    Pigeonhole(p.parts.Keys, p.meta.count);
  }

  /** One turn of the expiry loop. */
  lemma ExpireStep(s: State, keys: set<u64>, id: u64, now: u64)
    requires id in keys && keys <= s.frames.Keys && FramesOk(s)
    ensures var t := if IsStale(s.frames[id], now) then Discard(s, id) else s;
            && keys - {id} <= t.frames.Keys && FramesOk(t)
            && DiscardAll(t, Stale(t, keys - {id}, now)) == DiscardAll(s, Stale(s, keys, now))
  {
    var all := Stale(s, keys, now);
    if IsStale(s.frames[id], now) {
      assert Stale(Discard(s, id), keys - {id}, now) == all - {id};
      DiscardAny(s, all, id);
    } else {
      assert Stale(s, keys - {id}, now) == all;
    }
  }

  lemma ExpireDone(s: State, now: u64)
    ensures DiscardAll(s, Stale(s, {}, now)) == s
  {
    assert Stale(s, {}, now) == {};
  }

  class FrameAssembler {
    var frames: map<u64, Partial>
    var last: u64
    var losses: u32
    var receivedFragments: u32
    var missingFragments: u32
    var requiresKeyframe: bool

    constructor ()
      ensures Value() == EMPTY
    {
      frames, last, losses, receivedFragments, missingFragments, requiresKeyframe := map[], 0, 0, 0, 0, true;
    }

    function Value(): State
      reads this
    {
      State(frames, last, losses, receivedFragments, missingFragments, requiresKeyframe)
    }

    ghost predicate Valid()
      reads this
    {
      Invariant(Value())
    }

    method DiscardFrame(id: u64)
      requires FramesOk(Value())
      modifies this
      ensures Value() == Discard(old(Value()), id)
    {
      if id in frames {
        var p := frames[id];
        PartsBounded(p);
        var absent: nat := p.meta.count - |p.parts|;
        frames := frames - {id};
        missingFragments := Bump(missingFragments, absent);
        losses := Bump(losses, 1);
        requiresKeyframe := true;
      }
    }

    method Expire(now: u64)
      requires FramesOk(Value())
      modifies this
      ensures Value() == Expired(old(Value()), now)
      ensures FramesOk(Value())
    {
      ghost var goal := Expired(Value(), now);
      var keys := frames.Keys;
      hide DiscardAll, Stale, FramesOk, Discard;
      while keys != {}
        invariant keys <= frames.Keys && FramesOk(Value())
        invariant DiscardAll(Value(), Stale(Value(), keys, now)) == goal
        decreases |keys|
      {
        HasMember(keys);
        var id: u64 :| id in keys;
        var p := frames[id];
        ExpireStep(Value(), keys, id, now);
        if now >= p.arrival && now - p.arrival > LIFETIME_US {
          DiscardFrame(id);
        }
        keys := keys - {id};
      }
      ExpireDone(Value(), now);
    }

    /** Opens an assembly for the fragment's frame, giving up on the oldest one if there are two. */
    method Open(f: VideoFragment, now: u64)
      requires FramesOk(Value())
      modifies this
      ensures Value() == Opened(old(Value()), f, now)
    {
      if f.frameId !in frames {
        if |frames| >= 2 {
          NonemptyKeys(Value());
          DiscardFrame(Min(frames.Keys));
        }
        frames := frames[f.frameId := Partial(f, now, map[], 0)];
      }
    }

    /** Adds the fragment's bytes to its assembly. */
    method Insert(f: VideoFragment) returns (r: Outcome)
      requires f.frameId in frames
      modifies this
      ensures (Value(), r) == Store(old(Value()), f)
    {
      var partial := frames[f.frameId];
      if !SameFrame(partial.meta, f) {
        return Malformed;
      }
      if f.index !in partial.parts {
        if partial.bytes + |f.data| > f.totalBytes {
          return Oversized;
        }
        partial := partial.(parts := partial.parts[f.index := f.data], bytes := partial.bytes + |f.data|);
      } else if partial.parts[f.index] != f.data {
        return Malformed;
      }
      assert partial == old(frames[f.frameId]) ==> frames[f.frameId := partial] == frames;
      frames := frames[f.frameId := partial];
      return Accepted;
    }

    method Ingest(f: VideoFragment, now: u64) returns (r: Outcome)
      requires Valid()
      modifies this
      ensures (Value(), r) == IngestSpec(old(Value()), f, now)
      ensures Valid()
    {
      IngestKeeps(Value(), f, now);
      assert FramesOk(Value());
      hide Invariant, FramesOk, Store, Opened, Expired;
      if !(f.count > 0 && f.count <= 4096 && f.index < f.count && f.totalBytes > 0
           && f.totalBytes <= MAX_FRAME && f.data != [] && |f.data| <= 1100 && f.keyframe <= 1) {
        return Malformed;
      }
      if f.frameId <= last {
        return Ignored;
      }
      receivedFragments := Bump(receivedFragments, 1);
      CountersFree(old(Value()), Value());
      Expire(now);
      Open(f, now);
      assert f.frameId in frames by {
        OpensFrame(Expired(old(Value()).(received := receivedFragments), now), f, now);
      }
      r := Insert(f);
    }

    /** Hands out a complete frame and drops the older ones. */
    method Deliver(id: u64, now: u64) returns (r: Option<ReceivedFrame>)
      requires id in frames
      modifies this
      ensures Value() == Emit(old(Value()), id, now).state && r == Emit(old(Value()), id, now).frame
    {
      var p := frames[id];
      var data: Bytes := [];
      for index := 0 to p.meta.count
        invariant forall i | 0 <= i < index :: i in p.parts
        invariant data == JoinParts(p.parts, index)
      {
        if index !in p.parts {
          return None;
        }
        data := data + p.parts[index];
      }
      frames := frames - {id};
      frames := frames - (set o | o in frames && o < id);
      assert frames == old(frames) - {id} - (set o | o in old(frames) && o < id);
      last := id;
      requiresKeyframe := false;
      var m := p.meta;
      return Some(ReceivedFrame(
        VideoFrame(m.generation, id, m.captureTimestamp, m.encodeTimestamp, m.sendTimestamp, m.keyframe, data), now));
    }

    method Next(now: u64) returns (r: Option<ReceivedFrame>)
      requires Valid() && AgesOk(Value(), Ids(Value()), now)
      modifies this
      ensures Value() == NextSpec(old(Value()), now).state && r == NextSpec(old(Value()), now).frame
      ensures Valid()
    {
      NextKeeps(Value(), now);
      r := NextAmong(Ids(Value()), now);
    }

    method NextAmong(ids: seq<u64>, now: u64) returns (r: Option<ReceivedFrame>)
      requires FramesOk(Value()) && AgesOk(Value(), ids, now)
      modifies this
      ensures var n := NextOver(old(Value()), ids, now); Value() == n.state && r == n.frame
    {
      ghost var goal := NextOver(Value(), ids, now);
      hide FramesOk, Emit, Discard, NextOver, AgesOk;
      assert ids[0..] == ids;
      for i := 0 to |ids|
        invariant FramesOk(Value()) && AgesOk(Value(), ids[i..], now)
        invariant NextOver(Value(), ids[i..], now) == goal
      {
        var id: u64 := ids[i];
        NextTurn(Value(), ids, i, now);
        AgesTurn(Value(), ids, i, now);
        if id !in frames || !frames[id].Complete() {
          continue;
        }
        var p := frames[id];
        if last != 0 && id != last + 1 && p.meta.keyframe == 0 {
          var age: u64 := now - p.arrival;
          if age < 8_000 {
            return None;
          }
        }
        ghost var before := Value();
        if last != 0 && id != last + 1 {
          requiresKeyframe := true;
        }
        CountersFree(before, Value());
        if requiresKeyframe && p.meta.keyframe == 0 {
          DiscardedKeeps(Value(), id);
          DiscardFrame(id);
          continue;
        }
        r := Deliver(id, now);
        return;
      }
      NextEnds(Value(), ids, now);
      return None;
    }
  }

  /** One turn of the search for the next frame. */
  lemma NextTurn(s: State, ids: seq<u64>, i: nat, now: u64)
    requires i < |ids|
    ensures var id := ids[i];
            var t := s.(requiresKeyframe := s.requiresKeyframe || Gap(s, id));
            NextOver(s, ids[i..], now) ==
            if id !in s.frames || !s.frames[id].Complete() then NextOver(s, ids[i + 1..], now)
            else if Gap(s, id) && s.frames[id].meta.keyframe == 0 && now - s.frames[id].arrival < REORDER_US
            then NextResult(s, None, {})
            else if t.requiresKeyframe && s.frames[id].meta.keyframe == 0
            then NextOver(Discard(t, id), ids[i + 1..], now)
            else Emit(t, id, now)
  {
    assert ids[i..][1..] == ids[i + 1..];
  }

  lemma AgesTurn(s: State, ids: seq<u64>, i: nat, now: u64)
    requires i < |ids| && AgesOk(s, ids[i..], now)
    ensures var id := ids[i];
            var t := s.(requiresKeyframe := s.requiresKeyframe || Gap(s, id));
            if id !in s.frames || !s.frames[id].Complete() then AgesOk(s, ids[i + 1..], now)
            else
              var p := s.frames[id];
              var aged := Gap(s, id) && p.meta.keyframe == 0;
              && (aged ==> p.arrival <= now)
              && (!(aged && now - p.arrival < REORDER_US) && t.requiresKeyframe && p.meta.keyframe == 0 ==>
                    AgesOk(Discard(t, id), ids[i + 1..], now))
  {
    assert ids[i..][1..] == ids[i + 1..];
  }

  lemma NextEnds(s: State, ids: seq<u64>, now: u64)
    ensures NextOver(s, ids[|ids|..], now) == NextResult(s, None, {})
  {
  }

  lemma CountersFree(s: State, t: State)
    requires FramesOk(s) && t.frames == s.frames && t.last == s.last
    ensures FramesOk(t)
  {
  }

  lemma OpensFrame(s: State, f: VideoFragment, now: u64)
    ensures f.frameId in Opened(s, f, now).frames
  {
  }

  lemma NonemptyKeys(s: State)
    requires |s.frames| > 0
    ensures s.frames.Keys != {}
  {
  }

  lemma DiscardedKeeps(s: State, id: u64)
    requires FramesOk(s)
    ensures FramesOk(Discard(s, id))
  {
  }

  // Each operation keeps the invariant

  lemma {:induction false} DiscardAllFrames(s: State, ids: set<u64>)
    ensures var t := DiscardAll(s, ids);
            t.frames == s.frames - ids && t.last == s.last && (s.requiresKeyframe ==> t.requiresKeyframe)
    decreases |ids|
  {
    if ids == {} {
      assert s.frames - {} == s.frames;
    } else {
      var m := Min(ids);
      DiscardAllFrames(Discard(s, m), ids - {m});
      DiscardFrames(s, m);
      assert s.frames - {m} - (ids - {m}) == s.frames - ids;
    }
  }

  lemma DiscardFrames(s: State, id: u64)
    ensures var t := Discard(s, id);
            t.frames == s.frames - {id} && t.last == s.last && (s.requiresKeyframe ==> t.requiresKeyframe)
  {
    if id !in s.frames {
      assert s.frames - {id} == s.frames;
    }
  }

  lemma FewerFrames(s: State, t: State, ids: set<u64>)
    requires Invariant(s)
    requires t.frames == s.frames - ids && t.last == s.last && (s.requiresKeyframe ==> t.requiresKeyframe)
    ensures Invariant(t)
  {
    assert t.frames.Keys == s.frames.Keys - ids;
    assert |s.frames.Keys - ids| <= |s.frames.Keys|;
  }

  lemma ExpiredKeeps(s: State, now: u64)
    requires Invariant(s)
    ensures Invariant(Expired(s, now))
  {
    hide Invariant, Stale, DiscardAll;
    var ids := Stale(s, s.frames.Keys, now);
    DiscardAllFrames(s, ids);
    FewerFrames(s, Expired(s, now), ids);
  }

  lemma RoomKeeps(s: State)
    requires Invariant(s)
    ensures Invariant(Room(s)) && |Room(s).frames| <= 1 && Room(s).frames.Keys <= s.frames.Keys
            && Room(s).last == s.last
  {
    hide FramesOk;
    if |s.frames| >= 2 {
      var m := Min(s.frames.Keys);
      DiscardFrames(s, m);
      assert (s.frames - {m}).Keys == s.frames.Keys - {m};
      FewerFrames(s, Room(s), {m});
    }
  }

  lemma OpenedKeeps(s: State, f: VideoFragment, now: u64)
    requires Invariant(s) && FragmentOk(f) && s.last < f.frameId
    ensures Invariant(Opened(s, f, now)) && f.frameId in Opened(s, f, now).frames
  {
    if f.frameId !in s.frames {
      RoomKeeps(s);
      var p := Partial(f, now, map[], 0);
      assert Lengths(map[]) == map[];
      hide Room;
      OneMoreFrame(Room(s), f.frameId, p);
    }
  }

  lemma OneMoreFrame(s: State, id: u64, p: Partial)
    requires FramesOk(s) && PartialOk(p) && s.last < id && p.meta.frameId == id
    ensures var t := s.(frames := s.frames[id := p]); FramesOk(t) && |t.frames| <= |s.frames| + 1
  {
    hide PartialOk;
    var t := s.(frames := s.frames[id := p]);
    assert t.frames.Keys == s.frames.Keys + {id};
  }

  lemma AddedKeeps(p: Partial, f: VideoFragment)
    requires PartialOk(p) && FragmentOk(f) && SameFrame(p.meta, f)
    requires f.index !in p.parts && p.bytes + |f.data| <= f.totalBytes
    ensures PartialOk(Added(p, f))
  {
    SumAdd(Lengths(p.parts), f.index, |f.data|);
    assert Lengths(Added(p, f).parts) == Lengths(p.parts)[f.index := |f.data|];
  }

  lemma StoreKeeps(s: State, f: VideoFragment)
    requires Invariant(s) && FragmentOk(f) && f.frameId in s.frames
    ensures Invariant(Store(s, f).0)
  {
    var p, t := s.frames[f.frameId], Store(s, f).0;
    if t != s {
      AddedKeeps(p, f);
      assert t.frames.Keys == s.frames.Keys;
    }
  }

  lemma IngestKeeps(s: State, f: VideoFragment, now: u64)
    requires Invariant(s)
    ensures Invariant(IngestSpec(s, f, now).0)
  {
    if FragmentOk(f) && s.last < f.frameId {
      var r := s.(received := Bump(s.received, 1));
      assert Invariant(r);
      hide Invariant, Store, Opened, Stale, DiscardAll;
      ExpiredKeeps(r, now);
      var e := Expired(r, now);
      assert e.last == s.last by {
        DiscardAllFrames(r, Stale(r, r.frames.Keys, now));
      }
      OpenedKeeps(e, f, now);
      StoreKeeps(Opened(e, f, now), f);
    }
  }

  /** What handing out a frame does to the assembler. */
  lemma EmitShape(s: State, id: u64, now: u64)
    requires id in s.frames
    ensures var r := Emit(s, id, now);
            if r.frame.None? then r == NextResult(s, None, {})
            else
              && r.state == s.(frames := s.frames - ({id} + r.superseded), last := id, requiresKeyframe := false)
              && (forall o | o in s.frames :: o in r.superseded <==> o < id)
              && r.superseded <= s.frames.Keys
  {
    hide JoinParts;
    var r := Emit(s, id, now);
    if r.frame.Some? {
      assert s.frames - {id} - r.superseded == s.frames - ({id} + r.superseded);
    }
  }

  lemma EmitKeeps(s: State, id: u64, now: u64)
    requires Invariant(s) && id in s.frames
    ensures Invariant(Emit(s, id, now).state)
  {
    hide *;
    EmitShape(s, id, now);
    var r := Emit(s, id, now);
    if r.frame.Some? {
      EmittedKeeps(s, r.state, id, r.superseded);
    }
  }

  lemma EmittedKeeps(s: State, t: State, id: u64, older: set<u64>)
    requires Invariant(s) && id in s.frames
    requires t == s.(frames := s.frames - ({id} + older), last := id, requiresKeyframe := false)
    requires forall o | o in s.frames :: o in older <==> o < id
    ensures Invariant(t)
  {
    assert s.last < id;
    hide FramesOk;
    NewerFrames(s, t, {id} + older);
  }

  lemma NewerFrames(s: State, t: State, gone: set<u64>)
    requires FramesOk(s) && t.frames == s.frames - gone
    requires forall o | o in t.frames :: t.last < o
    ensures FramesOk(t) && |t.frames| <= |s.frames|
  {
    hide PartialOk;
    assert t.frames.Keys == s.frames.Keys - gone;
    assert |s.frames.Keys - gone| <= |s.frames.Keys|;
  }

  lemma {:induction false} NextOverKeeps(s: State, ids: seq<u64>, now: u64)
    requires Invariant(s)
    ensures Invariant(NextOver(s, ids, now).state)
    decreases |ids|
  {
    hide Emit, FramesOk, Invariant;
    if ids != [] {
      var id, rest := ids[0], ids[1..];
      NextOverKeeps(s, rest, now);
      if id in s.frames {
        FewerFrames(s, Discard(s, id), {id}) by {
          DiscardFrames(s, id);
        }
        Flagged(s);
        var t := s.(requiresKeyframe := true);
        FewerFrames(t, Discard(t, id), {id}) by {
          DiscardFrames(t, id);
        }
        NextOverKeeps(Discard(s, id), rest, now);
        NextOverKeeps(Discard(t, id), rest, now);
        EmitKeeps(s, id, now);
        EmitKeeps(t, id, now);
      }
    }
  }

  lemma Flagged(s: State)
    requires Invariant(s)
    ensures Invariant(s.(requiresKeyframe := true))
  {
  }

  lemma NextKeeps(s: State, now: u64)
    requires Invariant(s)
    ensures Invariant(NextSpec(s, now).state)
  {
    NextOverKeeps(s, Ids(s), now);
  }

  /** A poll that hands out a frame holds one assembly fewer afterwards. */
  lemma {:induction false} NextShrinks(s: State, ids: seq<u64>, now: u64)
    ensures var n := NextOver(s, ids, now);
            && n.state.frames.Keys <= s.frames.Keys
            && (n.frame.Some? ==> |n.state.frames| < |s.frames|)
    decreases |ids|
  {
    if ids != [] {
      var id, rest := ids[0], ids[1..];
      var t := s.(requiresKeyframe := s.requiresKeyframe || Gap(s, id));
      NextTurn(s, ids, 0, now);
      assert ids[0..] == ids;
      var d := Discard(t, id);
      DiscardFrames(t, id);
      assert d.frames.Keys == s.frames.Keys - {id};
      hide NextOver, Emit, Discard;
      NextShrinks(s, rest, now);
      NextShrinks(d, rest, now);
      if id in t.frames {
        EmitShape(t, id, now);
        EmitShrinks(t, id, now);
      }
    }
  }

  lemma EmitShrinks(s: State, id: u64, now: u64)
    requires id in s.frames
    ensures var n := Emit(s, id, now);
            && n.state.frames.Keys <= s.frames.Keys
            && (n.frame.Some? ==> |n.state.frames| < |s.frames|)
  {
    EmitShape(s, id, now);
    hide Emit;
    var n := Emit(s, id, now);
    if n.frame.Some? {
      var gone := {id} + n.superseded;
      assert n.state.frames.Keys == s.frames.Keys - gone;
      assert n.state.frames.Keys < s.frames.Keys;
    }
  }

  // What expiry gives up

  lemma {:induction false} DiscardAllCounts(s: State, ids: set<u64>)
    requires ids <= s.frames.Keys
    ensures var t := DiscardAll(s, ids);
            t.losses == Wrap(s.losses + |ids|) && (t.requiresKeyframe <==> s.requiresKeyframe || ids != {})
    decreases |ids|
  {
    if ids != {} {
      var m: u64 := Min(ids);
      var d := Discard(s, m);
      assert d.losses == Bump(s.losses, 1) && d.requiresKeyframe;
      DiscardFrames(s, m);
      assert ids - {m} <= d.frames.Keys;
      hide Discard, Wrap;
      DiscardAllCounts(d, ids - {m});
      WrapAdd(s.losses + 1, |ids| - 1);
    }
  }

  /** The assemblies older than 40 ms. */
  function Late(s: State, now: u64): set<u64> {
    set id | id in s.frames && now > s.frames[id].arrival + 40_000
  }

  /**
   Expiry gives up exactly the assemblies older than 40 ms, counts each as lost, and asks for a
   keyframe if there was one.
   */
  lemma ExpiredExactly(s: State, now: u64)
    ensures var t := Expired(s, now);
            && (forall id: u64 :: id in t.frames <==> id in s.frames && id !in Late(s, now))
            && (forall id | id in t.frames :: t.frames[id] == s.frames[id])
            && t.losses == Wrap(s.losses + |Late(s, now)|)
            && (t.requiresKeyframe <==> s.requiresKeyframe || Late(s, now) != {})
            && t.last == s.last
  {
    var ids := Stale(s, s.frames.Keys, now);
    assert Expired(s, now) == DiscardAll(s, ids);
    hide *;
    StaleIsLate(s, now);
    DiscardAllFrames(s, ids);
    DiscardAllCounts(s, ids);
  }

  lemma StaleIsLate(s: State, now: u64)
    ensures Stale(s, s.frames.Keys, now) == Late(s, now) <= s.frames.Keys
  {
    var ids, gone := Stale(s, s.frames.Keys, now), Late(s, now);
    assert forall id | id in ids :: id in gone;
    assert forall id | id in gone :: id in s.frames.Keys && id in ids;
    assert ids <= gone <= ids;
  }
}
