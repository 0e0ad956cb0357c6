/**
 Whole runs of the assembler: over any schedule of deliveries, duplicates, losses, expiries and
 polls, it hands out only frames that were sent, unchanged and in order, and it loses count of none.
 */
module Delivery {
  import opened Base
  import opened Fragments
  import opened Assembly

  // Fragments of sent frames

  /** The assembly holds only chunks of the frame `c`. */
  ghost predicate OfCut(c: Cut, p: Partial) {
    && Sendable(c)
    && p.meta.index < Count(c)
    && p.meta == Fragment(c, p.meta.index, p.meta.sendTimestamp)
    && ChunksOf(c, p.parts)
  }

  ghost predicate ChunksOf(c: Cut, parts: map<u16, Bytes>)
    requires Sendable(c)
  {
    forall i | i in parts :: i < Count(c) && parts[i] == Chunk(c, i)
  }

  ghost predicate Faithful(cuts: map<u64, Cut>, s: State) {
    forall id | id in s.frames :: id in cuts && OfCut(cuts[id], s.frames[id])
  }

  /** Any selection of the first `n` chunks holds at most their bytes. */
  lemma {:induction false} PartsFit(c: Cut, parts: map<u16, Bytes>, n: nat)
    requires Sendable(c) && n <= Count(c) && ChunksOf(c, parts)
    requires forall i | i in parts :: i < n
    ensures Sum(Lengths(parts)) <= Offset(c, n)
    decreases n
  {
    if n == 0 {
      NoParts(parts);
    } else {
      var k: u16 := n - 1;
      OffsetStep(c, k);
      assert |Chunk(c, k)| == Offset(c, n) - Offset(c, k);
      hide Offset, Count, Sum, Chunk;
      PartsFit(c, parts - {k}, n - 1);
      OnePart(parts, k);
    }
  }

  lemma NoParts(parts: map<u16, Bytes>)
    requires forall i | i in parts :: i < 0
    ensures Sum(Lengths(parts)) == 0
  {
    assert forall i | i in parts.Keys :: i in {};
    assert parts == map[];
    assert Lengths(parts) == map[];
  }

  lemma OnePart(parts: map<u16, Bytes>, k: u16)
    ensures Sum(Lengths(parts)) == Sum(Lengths(parts - {k})) + if k in parts then |parts[k]| else 0
  {
    if k in parts {
      SumRemove(Lengths(parts), k);
      assert Lengths(parts) - {k} == Lengths(parts - {k});
    } else {
      assert parts - {k} == parts;
    }
  }

  lemma NextChunk(c: Cut, i: nat)
    requires Sendable(c) && i < Count(c)
    ensures Offset(c, i) <= Offset(c, i + 1) <= |c.frame.data|
    ensures c.frame.data[..Offset(c, i)] + Chunk(c, i) == c.frame.data[..Offset(c, i + 1)]
  {
    OffsetStep(c, i);
    var a, b, d := Offset(c, i), Offset(c, i + 1), c.frame.data;
    hide Offset, DivCeil, Sendable;
    assert d[..a] + d[a..b] == d[..b];
  }

  /** All chunks, joined in order, are the frame's bytes. */
  lemma {:induction false} JoinChunks(c: Cut, parts: map<u16, Bytes>, n: nat)
    requires Sendable(c) && n <= Count(c) && ChunksOf(c, parts)
    requires forall i | 0 <= i < n :: i in parts
    ensures JoinParts(parts, n) == c.frame.data[..Offset(c, n)]
    decreases n
  {
    hide *;
    if n > 0 {
      NextChunk(c, n - 1);
      ChunkHeld(c, parts, n - 1);
      JoinTurn(parts, n);
      JoinChunks(c, parts, n - 1);
    } else {
      JoinNone(c, parts);
    }
  }

  lemma ChunkHeld(c: Cut, parts: map<u16, Bytes>, i: nat)
    requires Sendable(c) && i < Count(c) && ChunksOf(c, parts) && i in parts
    ensures parts[i] == Chunk(c, i)
  {
  }

  lemma JoinTurn(parts: map<u16, Bytes>, n: nat)
    requires n > 0 && forall i | 0 <= i < n :: i in parts
    ensures JoinParts(parts, n) == JoinParts(parts, n - 1) + parts[n - 1]
  {
  }

  lemma JoinNone(c: Cut, parts: map<u16, Bytes>)
    ensures JoinParts(parts, 0) == [] && Offset(c, 0) == 0
  {
  }

  lemma GenuineOk(cuts: map<u64, Cut>, f: VideoFragment)
    requires Sent(cuts) && Genuine(cuts, f)
    ensures FragmentOk(f)
    ensures OfCut(cuts[f.frameId], Partial(f, 0, map[], 0))
  {
    OffsetStep(cuts[f.frameId], f.index);
  }

  /** One more chunk of the frame always fits beside those already held. */
  lemma ChunkFits(c: Cut, parts: map<u16, Bytes>, i: u16)
    requires Sendable(c) && ChunksOf(c, parts) && i < Count(c) && i !in parts
    ensures Sum(Lengths(parts)) + |Chunk(c, i)| <= |c.frame.data|
    ensures ChunksOf(c, parts[i := Chunk(c, i)])
  {
    var more := parts[i := Chunk(c, i)];
    OffsetStep(c, Count(c) - 1);
    assert ChunksOf(c, more) && forall k | k in more :: k < Count(c);
    hide *;
    PartsFit(c, more, Count(c));
    OneMoreLength(parts, i, Chunk(c, i));
  }

  lemma OneMoreLength(parts: map<u16, Bytes>, i: u16, data: Bytes)
    requires i !in parts
    ensures Sum(Lengths(parts[i := data])) == Sum(Lengths(parts)) + |data|
  {
    hide Sum;
    SumAdd(Lengths(parts), i, |data|);
    assert Lengths(parts[i := data]) == Lengths(parts)[i := |data|];
  }

  lemma GenuineStored(cuts: map<u64, Cut>, s: State, f: VideoFragment)
    requires Sent(cuts) && Genuine(cuts, f) && Invariant(s) && Faithful(cuts, s) && f.frameId in s.frames
    ensures !Store(s, f).1.Throws() && Faithful(cuts, Store(s, f).0)
  {
    var c, p := cuts[f.frameId], s.frames[f.frameId];
    hide Chunk, Count, Sum;
    if f.index !in p.parts {
      ChunkFits(c, p.parts, f.index);
      assert OfCut(c, Added(p, f));
    }
  }

  lemma FewerFaithful(cuts: map<u64, Cut>, s: State, t: State, ids: set<u64>)
    requires Faithful(cuts, s) && t.frames == s.frames - ids
    ensures Faithful(cuts, t)
  {
  }

  lemma OpenedFaithful(cuts: map<u64, Cut>, s: State, f: VideoFragment, now: u64)
    requires Sent(cuts) && Genuine(cuts, f) && Faithful(cuts, s)
    ensures Faithful(cuts, Opened(s, f, now))
  {
    GenuineOk(cuts, f);
    hide FragmentOk, Genuine;
    if f.frameId !in s.frames && |s.frames| >= 2 && s.frames.Keys != {} {
      var m: u64 := Min(s.frames.Keys);
      DiscardFrames(s, m);
      FewerFaithful(cuts, s, Room(s), {m});
    }
  }

  lemma ExpiredFaithful(cuts: map<u64, Cut>, s: State, now: u64)
    requires Faithful(cuts, s)
    ensures Faithful(cuts, Expired(s, now)) && Expired(s, now).last == s.last
  {
    var ids := Stale(s, s.frames.Keys, now);
    DiscardAllFrames(s, ids);
    hide Stale, DiscardAll;
    FewerFaithful(cuts, s, Expired(s, now), ids);
  }

  /** A fragment of a sent frame never makes `ingest` throw, and keeps the assembler faithful. */
  lemma GenuineIngest(cuts: map<u64, Cut>, s: State, f: VideoFragment, now: u64)
    requires Sent(cuts) && Genuine(cuts, f) && Invariant(s) && Faithful(cuts, s)
    ensures !IngestSpec(s, f, now).1.Throws()
    ensures Faithful(cuts, IngestSpec(s, f, now).0)
  {
    GenuineOk(cuts, f);
    if s.last < f.frameId {
      var r := s.(received := Bump(s.received, 1));
      assert Invariant(r) && Faithful(cuts, r);
      hide Invariant, Faithful, Store, Opened, Expired, Genuine;
      ExpiredKeeps(r, now);
      ExpiredFaithful(cuts, r, now);
      var e := Expired(r, now);
      OpenedKeeps(e, f, now);
      OpenedFaithful(cuts, e, f, now);
      GenuineStored(cuts, Opened(e, f, now), f);
    }
  }

  /** The same frame, up to the send time, which each fragment carries for itself. */
  ghost predicate Same(v: VideoFrame, sent: VideoFrame) {
    v == sent.(sendTimestamp := v.sendTimestamp)
  }

  /** What a poll may return: one of the sent frames, newer than any returned before. */
  ghost predicate Returns(cuts: map<u64, Cut>, last: u64, r: NextResult) {
    if r.frame.None? then r.state.last == last
    else
      var v := r.frame.value.video;
      last < v.frameId && r.state.last == v.frameId && v.frameId in cuts && Same(v, cuts[v.frameId].frame)
  }

  lemma EmitFaithful(cuts: map<u64, Cut>, s: State, id: u64, now: u64)
    requires Sent(cuts) && Invariant(s) && Faithful(cuts, s) && id in s.frames && s.frames[id].Complete()
    ensures Faithful(cuts, Emit(s, id, now).state) && Returns(cuts, s.last, Emit(s, id, now))
    ensures Emit(s, id, now).frame.Some?
  {
    var p, c, r := s.frames[id], cuts[id], Emit(s, id, now);
    PartsBounded(p);
    EmitShape(s, id, now);
    WholeFrame(c, p);
    hide Chunk, Count, Sum, JoinParts, Lengths;
    FewerFaithful(cuts, s, r.state, {id} + r.superseded);
  }

  lemma WholeFrame(c: Cut, p: Partial)
    requires OfCut(c, p) && forall i | 0 <= i < p.meta.count :: i in p.parts
    ensures JoinParts(p.parts, p.meta.count) == c.frame.data
  {
    JoinChunks(c, p.parts, Count(c));
    OffsetStep(c, Count(c) - 1);
    assert c.frame.data[..|c.frame.data|] == c.frame.data;
  }

  lemma {:induction false} NextOverFaithful(cuts: map<u64, Cut>, s: State, ids: seq<u64>, now: u64)
    requires Sent(cuts) && Invariant(s) && Faithful(cuts, s)
    ensures Faithful(cuts, NextOver(s, ids, now).state)
    ensures Returns(cuts, s.last, NextOver(s, ids, now))
    decreases |ids|
  {
    if ids != [] {
      var id, rest := ids[0], ids[1..];
      var t := s.(requiresKeyframe := s.requiresKeyframe || Gap(s, id));
      assert Invariant(t) && Faithful(cuts, t);
      NextTurn(s, ids, 0, now);
      assert ids[0..] == ids;
      var d := Discard(t, id);
      DiscardFrames(t, id);
      hide Invariant, Faithful, NextOver, Emit, Discard, Sent;
      NextOverFaithful(cuts, s, rest, now);
      FewerFrames(t, d, {id});
      FewerFaithful(cuts, t, d, {id});
      NextOverFaithful(cuts, d, rest, now);
      if id in t.frames && t.frames[id].Complete() {
        EmitFaithful(cuts, t, id, now);
      }
    }
  }

  // Runs

  datatype Event = Ingest(f: VideoFragment, now: u64) | Expire(now: u64) | Next(now: u64)

  /** The outcome of a run: the final state, the frames returned, and counts of what happened. */
  datatype Run = Run(state: State, emitted: seq<ReceivedFrame>, threw: bool, entered: nat, superseded: nat)

  /** One when the fragment opens an assembly. */
  function Entered(s: State, f: VideoFragment, now: u64): nat {
    if FragmentOk(f) && s.last < f.frameId && f.frameId !in Expired(s.(received := Bump(s.received, 1)), now).frames
    then 1 else 0
  }

  function Step(r: Run, e: Event): Run {
    match e
    case Ingest(f, now) =>
      var (t, o) := IngestSpec(r.state, f, now);
      Run(t, r.emitted, r.threw || o.Throws(), r.entered + Entered(r.state, f, now), r.superseded)
    case Expire(now) =>
      r.(state := Expired(r.state, now))
    case Next(now) =>
      var n := NextSpec(r.state, now);
      r.(state := n.state, emitted := r.emitted + (if n.frame.Some? then [n.frame.value] else []),
         superseded := r.superseded + |n.superseded|)
  }

  function After(es: seq<Event>): Run
  {
    if es == [] then Run(EMPTY, [], false, 0, 0) else Step(After(es[..|es| - 1]), es[|es| - 1])
  }

  /** Every delivered fragment belongs to a sent frame. */
  ghost predicate AllGenuine(cuts: map<u64, Cut>, es: seq<Event>)
    requires Sent(cuts)
  {
    forall e | e in es && e.Ingest? :: Genuine(cuts, e.f)
  }

  /** The frames returned so far are sent frames, in increasing order of id. */
  ghost predicate InOrder(cuts: map<u64, Cut>, out: seq<ReceivedFrame>, last: u64) {
    && (forall i | 0 <= i < |out| ::
         var v := out[i].video; v.frameId in cuts && Same(v, cuts[v.frameId].frame) && v.frameId <= last)
    && (forall i, j | 0 <= i < j < |out| :: out[i].video.frameId < out[j].video.frameId)
  }

  lemma OneMoreReturned(cuts: map<u64, Cut>, out: seq<ReceivedFrame>, last: u64, r: NextResult)
    requires InOrder(cuts, out, last) && Returns(cuts, last, r)
    ensures InOrder(cuts, out + (if r.frame.Some? then [r.frame.value] else []), r.state.last)
  {
    if r.frame.None? {
      assert out + [] == out;
    }
  }

  lemma StepFaithful(cuts: map<u64, Cut>, r: Run, e: Event)
    requires Sent(cuts) && Invariant(r.state) && Faithful(cuts, r.state)
    requires InOrder(cuts, r.emitted, r.state.last) && !r.threw
    requires e.Ingest? ==> Genuine(cuts, e.f)
    ensures var t := Step(r, e);
            Faithful(cuts, t.state) && InOrder(cuts, t.emitted, t.state.last) && !t.threw
  {
    hide Faithful, Invariant, Expired, Sent, Genuine, InOrder, Returns, IngestSpec, NextOver, Entered;
    match e
    case Ingest(f, now) =>
      GenuineIngest(cuts, r.state, f, now);
      IngestLast(r.state, f, now);
    case Expire(now) =>
      ExpiredFaithful(cuts, r.state, now);
    case Next(now) =>
      NextOverFaithful(cuts, r.state, Ids(r.state), now);
      OneMoreReturned(cuts, r.emitted, r.state.last, NextSpec(r.state, now));
  }

  lemma IngestLast(s: State, f: VideoFragment, now: u64)
    ensures IngestSpec(s, f, now).0.last == s.last
  {
    var r := s.(received := Bump(s.received, 1));
    DiscardAllFrames(r, Stale(r, r.frames.Keys, now));
  }

  lemma StepKeeps(r: Run, e: Event)
    requires Invariant(r.state)
    ensures Invariant(Step(r, e).state)
  {
    hide Invariant;
    match e
    case Ingest(f, now) => IngestKeeps(r.state, f, now);
    case Expire(now) => ExpiredKeeps(r.state, now);
    case Next(now) => NextKeeps(r.state, now);
  }

  lemma {:induction false} AlwaysInvariant(es: seq<Event>)
    ensures Invariant(After(es).state)
  {
    hide Step;
    if es != [] {
      AlwaysInvariant(es[..|es| - 1]);
      StepKeeps(After(es[..|es| - 1]), es[|es| - 1]);
    }
  }

  /**
   End-to-end integrity. Whatever of the sent fragments is delivered, however often and in
   whatever order, nothing throws and every frame returned is a sent frame with its own bytes.
   */
  lemma {:induction false} EndToEnd(cuts: map<u64, Cut>, es: seq<Event>)
    requires Sent(cuts) && AllGenuine(cuts, es)
    ensures var r := After(es);
            Faithful(cuts, r.state) && InOrder(cuts, r.emitted, r.state.last) && !r.threw
  {
    hide Step, Sent, Genuine;
    if es != [] {
      var k := |es| - 1;
      assert AllGenuine(cuts, es[..k]) by {
        assert forall e | e in es[..k] :: e in es;
      }
      EndToEnd(cuts, es[..k]);
      AlwaysInvariant(es[..k]);
      assert es[k] in es;
      StepFaithful(cuts, After(es[..k]), es[k]);
    }
  }

  // Accounting

  /** Losses so far plus frames held, modulo the counter's width. */
  function Balance(s: State): u32 {
    Wrap(s.losses + |s.frames|)
  }

  lemma DiscardBalanced(s: State, id: u64)
    ensures Balance(Discard(s, id)) == Balance(s)
  {
    if id in s.frames {
      assert (s.frames - {id}).Keys == s.frames.Keys - {id};
    }
  }

  lemma {:induction false} DiscardAllBalanced(s: State, ids: set<u64>)
    ensures Balance(DiscardAll(s, ids)) == Balance(s)
    decreases |ids|
  {
    if ids != {} {
      var m := Min(ids);
      DiscardBalanced(s, m);
      DiscardAllBalanced(Discard(s, m), ids - {m});
    }
  }

  lemma RoomBalanced(s: State)
    ensures Balance(Room(s)) == Balance(s) && Room(s).frames.Keys <= s.frames.Keys
  {
    hide Balance, Discard;
    if |s.frames| >= 2 && s.frames.Keys != {} {
      var m: u64 := Min(s.frames.Keys);
      DiscardBalanced(s, m);
      DiscardFrames(s, m);
    }
  }

  lemma OpenedBalanced(s: State, f: VideoFragment, now: u64)
    ensures Balance(Opened(s, f, now)) == Wrap(Balance(s) + if f.frameId in s.frames then 0 else 1)
    ensures f.frameId in Opened(s, f, now).frames
  {
    if f.frameId !in s.frames {
      RoomBalanced(s);
      hide Room, Wrap;
      var r, t := Room(s), Opened(s, f, now);
      assert t.frames.Keys == r.frames.Keys + {f.frameId};
      WrapAdd(r.losses + |r.frames|, 1);
    } else {
      WrapBase(s);
    }
  }

  lemma StoreBalanced(s: State, f: VideoFragment)
    requires f.frameId in s.frames
    ensures Balance(Store(s, f).0) == Balance(s)
  {
    assert Store(s, f).0.frames.Keys == s.frames.Keys;
  }

  lemma ExpiredBalanced(s: State, now: u64)
    ensures Balance(Expired(s, now)) == Balance(s)
  {
    DiscardAllBalanced(s, Stale(s, s.frames.Keys, now));
  }

  lemma IngestBalanced(s: State, f: VideoFragment, now: u64)
    ensures Balance(IngestSpec(s, f, now).0) == Wrap(Balance(s) + Entered(s, f, now))
  {
    if FragmentOk(f) && s.last < f.frameId {
      var r := s.(received := Bump(s.received, 1));
      assert Balance(r) == Balance(s);
      hide Balance, Store, Opened, Expired;
      ExpiredBalanced(r, now);
      var e := Expired(r, now);
      OpenedBalanced(e, f, now);
      StoreBalanced(Opened(e, f, now), f);
    }
  }

  /** How many assemblies a poll takes away without counting a loss. */
  function Out(r: NextResult): nat {
    (if r.frame.Some? then 1 else 0) + |r.superseded|
  }

  lemma BalanceDrop(s: State, t: State, n: nat)
    requires s.losses == t.losses && |s.frames| == |t.frames| + n
    ensures Balance(s) == Wrap(Balance(t) + n)
  {
    WrapAdd(t.losses + |t.frames|, n);
  }

  lemma EmitBalanced(s: State, id: u64, now: u64)
    requires id in s.frames
    ensures var r := Emit(s, id, now);
            Balance(s) == Wrap(Balance(r.state) + Out(r))
  {
    hide Emit, Wrap, Balance;
    EmitShape(s, id, now);
    WrapBase(s);
    var r := Emit(s, id, now);
    if r.frame.Some? {
      FramesGone(s, r.state, id, r.superseded);
      assert Out(r) == 1 + |r.superseded|;
      BalanceDrop(s, r.state, Out(r));
    }
  }

  lemma WrapBase(s: State)
    ensures Wrap(Balance(s)) == Balance(s)
  {
  }

  lemma FramesGone(s: State, t: State, id: u64, older: set<u64>)
    requires id in s.frames && id !in older && older <= s.frames.Keys
    requires t.frames == s.frames - ({id} + older)
    ensures |s.frames| == |t.frames| + 1 + |older|
  {
    var gone := {id} + older;
    assert t.frames.Keys == s.frames.Keys - gone;
    assert |gone| == 1 + |older|;
    assert |s.frames.Keys - gone| == |s.frames.Keys| - |gone|;
  }

  /** A poll that drops older frames without counting them has just returned a keyframe. */
  ghost predicate OnlyBehindKeyframe(r: NextResult) {
    r.superseded != {} ==> r.frame.Some? && r.frame.value.video.keyframe == 1
  }

  lemma EmitSupersedes(s: State, id: u64, now: u64)
    requires Invariant(s) && id in s.frames
    requires s.requiresKeyframe ==> s.frames[id].meta.keyframe != 0
    requires Gap(s, id) ==> s.requiresKeyframe
    ensures OnlyBehindKeyframe(Emit(s, id, now))
  {
    var r := Emit(s, id, now);
    if r.superseded != {} {
      HasMember(r.superseded);
      var o: u64 :| o in r.superseded;
      assert s.last < o < id;
    }
  }

  /** What one poll does to the balance. */
  ghost predicate PollBalanced(s: State, r: NextResult) {
    && Balance(s) == Wrap(Balance(r.state) + Out(r))
    && OnlyBehindKeyframe(r)
  }

  lemma NothingPolled(s: State)
    ensures PollBalanced(s, NextResult(s, None, {}))
  {
  }

  lemma PolledFrom(s: State, t: State, r: NextResult)
    requires Balance(s) == Balance(t) && PollBalanced(t, r)
    ensures PollBalanced(s, r)
  {
  }

  lemma EmitPolled(s: State, id: u64, now: u64)
    requires Invariant(s) && id in s.frames
    requires s.requiresKeyframe ==> s.frames[id].meta.keyframe != 0
    requires Gap(s, id) ==> s.requiresKeyframe
    ensures PollBalanced(s, Emit(s, id, now))
  {
    hide Invariant, Emit, Balance, OnlyBehindKeyframe, Wrap;
    EmitBalanced(s, id, now);
    EmitSupersedes(s, id, now);
  }

  lemma FlagBalanced(s: State, t: State)
    requires Invariant(s) && t == s.(requiresKeyframe := t.requiresKeyframe)
             && (s.requiresKeyframe ==> t.requiresKeyframe)
    ensures Invariant(t) && Balance(t) == Balance(s)
  {
  }

  lemma EmitTurn(s: State, t: State, id: u64, now: u64)
    requires Invariant(t) && id in t.frames && (t.requiresKeyframe ==> t.frames[id].meta.keyframe != 0)
    requires t == s.(requiresKeyframe := s.requiresKeyframe || Gap(s, id)) && Balance(t) == Balance(s)
    ensures PollBalanced(s, Emit(t, id, now))
  {
    hide Invariant, Emit, Balance, PollBalanced;
    EmitPolled(t, id, now);
    PolledFrom(s, t, Emit(t, id, now));
  }

  lemma {:induction false} NextBalanced(s: State, ids: seq<u64>, now: u64)
    requires Invariant(s)
    ensures PollBalanced(s, NextOver(s, ids, now))
    decreases |ids|
  {
    hide *;
    NothingPolled(s);
    if ids == [] {
      NextEnds(s, ids, now);
      assert ids[|ids|..] == ids;
    } else {
      var id, rest := ids[0], ids[1..];
      var t := s.(requiresKeyframe := s.requiresKeyframe || Gap(s, id));
      FlagBalanced(s, t);
      NextTurn(s, ids, 0, now);
      assert ids[0..] == ids;
      var d := Discard(t, id);
      DiscardFrames(t, id);
      DiscardBalanced(t, id);
      NextBalanced(s, rest, now);
      FewerFrames(t, d, {id});
      NextBalanced(d, rest, now);
      PolledFrom(s, d, NextOver(d, rest, now));
      if id in t.frames && (t.requiresKeyframe ==> t.frames[id].meta.keyframe != 0) {
        EmitTurn(s, t, id, now);
      }
    }
  }

  /** Bytes held in assemblies. */
  ghost function Buffered(s: State): nat {
    Sum(map id | id in s.frames :: s.frames[id].bytes)
  }

  lemma SumOfTwo(m: map<int, nat>, bound: nat)
    requires |m| <= 2 && forall k | k in m :: m[k] <= bound
    ensures Sum(m) <= 2 * bound
  {
    if m != map[] {
      HasKey(m);
      var a :| a in m;
      SumRemove(m, a);
      var n := m - {a};
      assert n.Keys == m.Keys - {a};
      if n != map[] {
        HasKey(n);
        var b :| b in n;
        SumRemove(n, b);
        assert (n - {b}).Keys == n.Keys - {b};
        assert |n - {b}| == 0;
        assert n - {b} == map[];
      }
    }
  }

  lemma BufferBounded(s: State)
    requires Invariant(s)
    ensures Buffered(s) <= 2 * MAX_FRAME
  {
    var m: map<int, nat> := map id | id in s.frames :: s.frames[id].bytes;
    assert m.Keys == s.frames.Keys;
    SumOfTwo(m, MAX_FRAME);
  }

  /** Everything opened is returned, counted as lost, superseded or still held. */
  ghost predicate Accounted(r: Run) {
    Wrap(r.entered) == Wrap(|r.emitted| + r.superseded + Balance(r.state))
  }

  lemma IngestAccounted(entered: nat, out: nat, b: u32, b': u32, n: nat)
    requires Wrap(entered) == Wrap(out + b) && b' == Wrap(b + n)
    ensures Wrap(entered + n) == Wrap(out + b')
  {
    hide Wrap;
    WrapAdd(entered, n);
    WrapAdd(out + b, n);
    WrapAdd(b + n, out);
  }

  lemma PollAccounted(entered: nat, out: nat, b: u32, b': u32, n: nat)
    requires Wrap(entered) == Wrap(out + b) && b == Wrap(b' + n)
    ensures Wrap(entered) == Wrap(out + n + b')
  {
    hide Wrap;
    WrapAdd(b' + n, out);
  }

  lemma NextAccounted(r: Run, now: u64)
    requires Invariant(r.state) && Accounted(r)
    ensures Accounted(Step(r, Next(now)))
  {
    hide Invariant, NextOver, PollBalanced, Accounted;
    NextBalanced(r.state, Ids(r.state), now);
    PollStep(r, NextSpec(r.state, now));
  }

  lemma PollStep(r: Run, n: NextResult)
    requires Accounted(r) && PollBalanced(r.state, n)
    ensures Accounted(r.(state := n.state, emitted := r.emitted + (if n.frame.Some? then [n.frame.value] else []),
                         superseded := r.superseded + |n.superseded|))
  {
    hide OnlyBehindKeyframe, Balance;
    var emitted := r.emitted + (if n.frame.Some? then [n.frame.value] else []);
    var out := |r.emitted| + r.superseded;
    PollAccounted(r.entered, out, Balance(r.state), Balance(n.state), Out(n));
    assert |emitted| + (r.superseded + |n.superseded|) == out + Out(n);
  }

  lemma StepAccounted(r: Run, e: Event)
    requires Invariant(r.state) && Accounted(r)
    ensures Accounted(Step(r, e))
  {
    hide Invariant, Balance, IngestSpec, NextSpec, Expired, Entered, Wrap;
    match e
    case Ingest(f, now) =>
      IngestBalanced(r.state, f, now);
      IngestAccounted(r.entered, |r.emitted| + r.superseded, Balance(r.state), Balance(IngestSpec(r.state, f, now).0),
                      Entered(r.state, f, now));
    case Expire(now) =>
      ExpiredBalanced(r.state, now);
    case Next(now) =>
      NextAccounted(r, now);
  }

  lemma {:induction false} RunAccounted(es: seq<Event>)
    ensures Accounted(After(es))
  {
    hide Step, Accounted;
    if es == [] {
      StartAccounted();
    } else {
      RunAccounted(es[..|es| - 1]);
      AlwaysInvariant(es[..|es| - 1]);
      StepAccounted(After(es[..|es| - 1]), es[|es| - 1]);
    }
  }

  lemma StartAccounted()
    ensures Accounted(Run(EMPTY, [], false, 0, 0))
  {
  }

  /**
   Bounds and accounting over every run, whatever arrives: at most two assemblies, all newer than
   the last frame returned, within 4 MiB; and openings = emissions + losses + superseded + held.
   */
  lemma AlwaysAccounted(es: seq<Event>)
    ensures var r := After(es);
            && |r.state.frames| <= 2
            && (forall id | id in r.state.frames :: r.state.last < id)
            && Buffered(r.state) <= 4 * 1024 * 1024
            && Wrap(r.entered) == Wrap(|r.emitted| + r.superseded + r.state.losses + |r.state.frames|)
  {
    hide After, Buffered, PartialOk, Wrap;
    var r := After(es);
    AlwaysInvariant(es);
    BufferBounded(r.state);
    RunAccounted(es);
    WrapAdd(r.state.losses + |r.state.frames|, |r.emitted| + r.superseded);
  }

  /** Frames are dropped without being counted as lost only behind a keyframe just returned. */
  lemma SupersededBehindKeyframe(es: seq<Event>, now: u64)
    ensures OnlyBehindKeyframe(NextSpec(After(es).state, now))
  {
    AlwaysInvariant(es);
    NextBalanced(After(es).state, Ids(After(es).state), now);
  }
}
