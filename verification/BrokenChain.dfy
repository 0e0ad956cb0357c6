/** A run in which the decodable chain breaks: the rule on parameter sets is needed. */
module BrokenChain {
  import opened Base
  import opened Fragments
  import opened Assembly
  import opened Decoding
  import opened VideoPath
  import ParameterSets
  import AnnexB

  const FIRST_IDR: seq<AnnexB.Coded> := [AnnexB.Coded(true, [7, 1]), AnnexB.Coded(true, [8, 1]),
    AnnexB.Coded(true, [5, 1])]
  const DELTA_WITH_SPS: seq<AnnexB.Coded> := [AnnexB.Coded(true, [7, 2]), AnnexB.Coded(true, [1, 1])]
  const PLAIN_DELTA: seq<AnnexB.Coded> := [AnnexB.Coded(true, [1, 2])]

  lemma ShortUnit(us: seq<AnnexB.Coded>)
    requires 1 <= |us| <= 3 && forall i | 0 <= i < |us| :: us[i].long && |us[i].nal| == 2 && us[i].nal[1] != 0
    ensures AnnexB.Nals(AnnexB.Join(us)) == Ok(AnnexB.NalsOf(us))
  {
    AnnexB.PrintableScans(us);
    JoinLength(us);
  }

  lemma {:induction false} JoinLength(us: seq<AnnexB.Coded>)
    requires forall i | 0 <= i < |us| :: |us[i].nal| == 2
    ensures |AnnexB.Join(us)| <= 6 * |us| && (us != [] ==> |AnnexB.Join(us)| > 0)
    decreases |us|
  {
    if us != [] {
      JoinLength(us[1..]);
    }
  }

  const OLD_SETS: ParameterSets.Stored := ParameterSets.Stored([7, 1], [8, 1])
  const AFTER_IDR: DecoderState := DecoderState(1, 2, false, Some(OLD_SETS), OLD_SETS)
  const AFTER_SPS: DecoderState := AFTER_IDR.(sets := ParameterSets.Stored([7, 2], [8, 1]))

  /** A frame that fits one fragment. */
  function Single(g: u32, id: u64, keyframe: u8, data: Bytes): VideoFragment
    requires |data| <= MAX_FRAGMENT
  {
    VideoFragment(g, id, 0, 0, 0, keyframe, 0, 1, |data|, data)
  }

  /** The assembler after the frames up to `id` have come whole and in order. */
  function CaughtUp(id: u64): State {
    State(map[], id, 0, Wrap(id), 0, id == 0)
  }

  lemma PartOnly(f: VideoFragment, s: State)
    requires FragmentOk(f) && f.count == 1 && f.totalBytes == |f.data| && s.frames == map[] && s.last < f.frameId
    ensures IngestSpec(s, f, 0) ==
            (s.(received := Bump(s.received, 1),
                frames := map[f.frameId := Partial(f, 0, map[0 := f.data], |f.data|)]), Accepted)
  {
    var r := s.(received := Bump(s.received, 1));
    NothingExpires(r);
    hide Expired;
    assert map[][f.frameId := Partial(f, 0, map[], 0)][f.frameId := Partial(f, 0, map[0 := f.data], |f.data|)]
        == map[f.frameId := Partial(f, 0, map[0 := f.data], |f.data|)];
    assert map[][0 := f.data] == map[0 := f.data];
  }

  /** At time 0 nothing is old. */
  lemma NothingExpires(s: State)
    ensures Expired(s, 0) == s
  {
    assert forall x | x in Stale(s, s.frames.Keys, 0) :: x in {};
    assert Stale(s, s.frames.Keys, 0) == {};
  }

  lemma OnlyId(s: State, id: u64)
    requires s.frames.Keys == {id}
    ensures Ids(s) == [id]
  {
    var r := Ids(s);
    assert id in s.frames.Keys && |s.frames| == |s.frames.Keys| == 1;
    assert forall i | 0 <= i < |r| :: r[i] in r;
    assert forall i | 0 <= i < |r| :: r[i] in s.frames.Keys;
    assert |r| == 1;
    assert id in s.frames && id in r;
  }

  /** The only assembly, complete and due, is handed out whole. */
  lemma OnlyEmitted(s: State, f: VideoFragment)
    requires s.frames == map[f.frameId := Partial(f, 0, map[0 := f.data], |f.data|)]
    requires f.count == 1 && f.totalBytes == |f.data| && !Gap(s, f.frameId) && (s.requiresKeyframe ==> f.keyframe != 0)
    ensures NextSpec(s, 0) == NextResult(
              s.(frames := map[], last := f.frameId, requiresKeyframe := false),
              Some(ReceivedFrame(VideoFrame(f.generation, f.frameId, f.captureTimestamp, f.encodeTimestamp,
                                            f.sendTimestamp, f.keyframe, f.data), 0)), {})
  {
    var id := f.frameId;
    OnlyId(s, id);
    assert id in s.frames;
    var p := s.frames[id];
    assert |p.parts| == 1 && p.Complete();
    hide Emit;
    NextTurn(s, [id], 0, 0);
    assert [id][0..] == [id];
    assert s.(requiresKeyframe := s.requiresKeyframe) == s;
    OnlyGone(s, f);
  }

  lemma OnlyGone(s: State, f: VideoFragment)
    requires s.frames == map[f.frameId := Partial(f, 0, map[0 := f.data], |f.data|)] && f.count == 1
    ensures f.frameId in s.frames
    ensures Emit(s, f.frameId, 0) == NextResult(
              s.(frames := map[], last := f.frameId, requiresKeyframe := false),
              Some(ReceivedFrame(VideoFrame(f.generation, f.frameId, f.captureTimestamp, f.encodeTimestamp,
                                            f.sendTimestamp, f.keyframe, f.data), 0)), {})
  {
    var p := s.frames[f.frameId];
    assert JoinParts(p.parts, 1) == JoinParts(p.parts, 0) + f.data == f.data;
    var older := set o | o in s.frames && o < f.frameId;
    assert forall o | o in older :: o in {};
    assert older == {};
    var left := s.frames - {f.frameId} - older;
    assert forall o | o in left.Keys :: o in {};
    assert left == map[];
  }

  /** What one whole frame does to the assembler. */
  lemma WholeAssembled(g: u32, id: u64, keyframe: u8, data: Bytes)
    requires id > 0 && 0 < |data| <= MAX_FRAGMENT && keyframe == if id == 1 then 1 else 0
    ensures var (s, o) := IngestSpec(CaughtUp(id - 1), Single(g, id, keyframe, data), 0);
            && !o.Throws() && Expired(s, 0) == s
            && NextSpec(s, 0) == NextResult(
                 CaughtUp(id), Some(ReceivedFrame(VideoFrame(g, id, 0, 0, 0, keyframe, data), 0)), {})
  {
    var f := Single(g, id, keyframe, data);
    var s := IngestSpec(CaughtUp(id - 1), f, 0).0;
    PartOnly(f, CaughtUp(id - 1));
    WrapAdd(id - 1, 1);
    NothingExpires(s);
    hide IngestSpec, Expired, NextSpec, Wrap;
    OnlyEmitted(s, f);
  }

  lemma DatagramTurn(c: Client, f: VideoFragment, natives: seq<Native>)
    requires c.generation == Some(f.generation) && !IngestSpec(c.assembler, f, 0).1.Throws()
    ensures ClientStep(c, Datagram(f, 0, 0, natives)) ==
            Drain(c.(assembler := Expired(IngestSpec(c.assembler, f, 0).0, 0)), 0, natives)
  {
    hide IngestSpec, Expired, Drain;
  }

  /** A frame that comes whole is decoded at once. */
  lemma WholeDecoded(c: Client, g: u32, id: u64, keyframe: u8, data: Bytes, natives: seq<Native>)
    requires c.generation == Some(g) && id > 0 && c.assembler == CaughtUp(id - 1)
    requires 0 < |data| <= MAX_FRAGMENT && keyframe == if id == 1 then 1 else 0
    ensures ClientStep(c, Datagram(Single(g, id, keyframe, data), 0, 0, natives)) ==
            Consume(c.(assembler := CaughtUp(id)), VideoFrame(g, id, 0, 0, 0, keyframe, data), First(natives))
  {
    var f := Single(g, id, keyframe, data);
    assert f.generation == g && CaughtUp(id).frames == map[];
    hide *;
    var s := IngestSpec(c.assembler, f, 0).0;
    WholeAssembled(g, id, keyframe, data);
    DatagramTurn(c, f, natives);
    var t, v := c.(assembler := CaughtUp(id)), VideoFrame(g, id, 0, 0, 0, keyframe, data);
    ConsumeAssembler(t, v, First(natives));
    DrainOnce(c.(assembler := s), natives);
    DrainOnce(Consume(t, v, First(natives)), Rest(natives));
    NothingPolled(CaughtUp(id));
  }

  lemma NothingPolled(s: State)
    requires s.frames == map[]
    ensures NextSpec(s, 0) == NextResult(s, None, {})
  {
    NothingToPoll(s, Ids(s), 0);
  }

  lemma DrainOnce(c: Client, natives: seq<Native>)
    ensures var n := NextSpec(c.assembler, 0);
            Drain(c, 0, natives) ==
            if n.frame.None? then c.(assembler := n.state)
            else Drain(Consume(c.(assembler := n.state), n.frame.value.video, First(natives)), 0, Rest(natives))
  {
    NextShrinks(c.assembler, Ids(c.assembler), 0);
    hide NextSpec, Consume;
  }

  lemma FirstConsumed(g: u32, native: Native)
    requires native == Native(true, true, true)
    ensures Consume(Client(CaughtUp(1), ResetSpec(NEW_DECODER), Some(g), []),
                    VideoFrame(g, 1, 0, 0, 0, 1, AnnexB.Join(FIRST_IDR)), native)
         == Client(CaughtUp(1), AFTER_IDR, Some(g), [Submission(g, 1, true)])
  {
    ShortUnit(FIRST_IDR);
    ShortNals();
    Gates(native);
    hide AnnexB.Nals, AnnexB.Join, AnnexB.NalsOf, Gate, ScanSets, ParameterSets.HasKind;
  }

  lemma SecondConsumed(g: u32, native: Native)
    requires native == Native(true, true, true)
    ensures var c := Client(CaughtUp(2), AFTER_IDR, Some(g), [Submission(g, 1, true)]);
            Consume(c, VideoFrame(g, 2, 0, 0, 0, 0, AnnexB.Join(DELTA_WITH_SPS)), native) == c.(decoder := AFTER_SPS)
  {
    ShortUnit(DELTA_WITH_SPS);
    ShortNals();
    Gates(native);
    hide AnnexB.Nals, AnnexB.Join, AnnexB.NalsOf, Gate, ScanSets, ParameterSets.HasKind;
  }

  lemma ThirdConsumed(g: u32, native: Native)
    requires native == Native(true, true, true)
    ensures var c := Client(CaughtUp(3), AFTER_SPS, Some(g), [Submission(g, 1, true)]);
            Consume(c, VideoFrame(g, 3, 0, 0, 0, 0, AnnexB.Join(PLAIN_DELTA)), native).log ==
            [Submission(g, 1, true), Submission(g, 3, false)]
  {
    ShortUnit(PLAIN_DELTA);
    ShortNals();
    Gates(native);
    hide AnnexB.Nals, AnnexB.Join, AnnexB.NalsOf, Gate, ScanSets, ParameterSets.HasKind;
  }

  /** The client is configured and receives three frames, one datagram each. */
  function ThreeFrames(g: u32): seq<ClientEvent>
  {
    ShortJoins();
    [Configure(g),
     Datagram(Single(g, 1, 1, AnnexB.Join(FIRST_IDR)), 0, 0, []),
     Datagram(Single(g, 2, 0, AnnexB.Join(DELTA_WITH_SPS)), 0, 0, []),
     Datagram(Single(g, 3, 0, AnnexB.Join(PLAIN_DELTA)), 0, 0, [])]
  }

  lemma ShortJoins()
    ensures 0 < |AnnexB.Join(FIRST_IDR)| <= 18 && 0 < |AnnexB.Join(DELTA_WITH_SPS)| <= 18
    ensures 0 < |AnnexB.Join(PLAIN_DELTA)| <= 18
  {
    JoinLength(FIRST_IDR);
    JoinLength(DELTA_WITH_SPS);
    JoinLength(PLAIN_DELTA);
  }

  /**
   A run of the client: were a changed SPS to come with a delta frame, the decoder would skip that frame and
   still submit the next one. Of three frames in a row the middle one never reaches the hardware decoder.
   */
  lemma ChainBreaks(g: u32)
    ensures ClientAfter(ThreeFrames(g)).log == [Submission(g, 1, true), Submission(g, 3, false)]
    ensures !Chained(ClientAfter(ThreeFrames(g)).log)
  {
    var native, es := Native(true, true, true), ThreeFrames(g);
    ShortJoins();
    FourSteps(es);
    hide ClientAfter, ClientStep, Consume, CaughtUp, AnnexB.Join;
    var c := Configured(g);
    WholeDecoded(c, g, 1, 1, AnnexB.Join(FIRST_IDR), []);
    FirstConsumed(g, native);
    WholeDecoded(Client(CaughtUp(1), AFTER_IDR, Some(g), [Submission(g, 1, true)]), g, 2, 0,
                 AnnexB.Join(DELTA_WITH_SPS), []);
    SecondConsumed(g, native);
    WholeDecoded(Client(CaughtUp(2), AFTER_SPS, Some(g), [Submission(g, 1, true)]), g, 3, 0,
                 AnnexB.Join(PLAIN_DELTA), []);
    ThirdConsumed(g, native);
    NotChained(g);
  }

  lemma Configured(g: u32) returns (c: Client)
    ensures c == ClientStep(NEW_CLIENT, Configure(g)) == Client(CaughtUp(0), ResetSpec(NEW_DECODER), Some(g), [])
  {
    c := ClientStep(NEW_CLIENT, Configure(g));
  }

  lemma FourSteps(es: seq<ClientEvent>)
    requires |es| == 4
    ensures ClientAfter(es) ==
            ClientStep(ClientStep(ClientStep(ClientStep(NEW_CLIENT, es[0]), es[1]), es[2]), es[3])
  {
    hide ClientStep;
    assert es[..3][..2] == es[..2] && es[..2][..1] == es[..1] && es[..1][..0] == [];
    assert ClientAfter(es[..1]) == ClientStep(ClientAfter([]), es[0]);
    assert ClientAfter(es[..2]) == ClientStep(ClientAfter(es[..1]), es[1]);
    assert ClientAfter(es[..3]) == ClientStep(ClientAfter(es[..2]), es[2]);
  }

  lemma NotChained(g: u32)
    ensures !Chained([Submission(g, 1, true), Submission(g, 3, false)])
  {
    var log := [Submission(g, 1, true), Submission(g, 3, false)];
    assert !Follows(log[0], log[1]);
  }

  lemma Gates(native: Native)
    requires native == Native(true, true, true)
    ensures var r := Gate(ResetSpec(NEW_DECODER), [[7, 1], [8, 1], [5, 1]], native);
            r.submitted && r.state == AFTER_IDR
    ensures var d := AFTER_IDR;
            var r := Gate(d, [[7, 2], [1, 1]], native);
            !r.submitted && r.state == d.(sets := ParameterSets.Stored([7, 2], [8, 1]))
    ensures var d := AFTER_SPS;
            Gate(d, [[1, 2]], native).submitted
    ensures ParameterSets.HasKind([[7, 1], [8, 1], [5, 1]], ParameterSets.IDR)
    ensures !ParameterSets.HasKind([[1, 2]], ParameterSets.IDR)
  {
    Scans();
    hide ScanSets;
    var a: seq<Bytes> := [[7, 1], [8, 1], [5, 1]];
    assert a[2] in a;
  }

  lemma Scans()
    ensures ScanSets(ParameterSets.Stored([], []), [[7, 1], [8, 1], [5, 1]])
            == (ParameterSets.Stored([7, 1], [8, 1]), true)
    ensures ScanSets(ParameterSets.Stored([7, 1], [8, 1]), [[7, 2], [1, 1]])
            == (ParameterSets.Stored([7, 2], [8, 1]), true)
    ensures ScanSets(ParameterSets.Stored([7, 2], [8, 1]), [[1, 2]]) == (ParameterSets.Stored([7, 2], [8, 1]), false)
  {
    var a: seq<Bytes> := [[7, 1], [8, 1], [5, 1]];
    assert a[..2] == [[7, 1], [8, 1]] && a[..2][..1] == [[7, 1]] && a[..2][..1][..0] == [];
    assert ScanSets(ParameterSets.Stored([], []), [[7, 1]]) == (ParameterSets.Stored([7, 1], []), true);
    assert ScanSets(ParameterSets.Stored([], []), [[7, 1], [8, 1]]) == (ParameterSets.Stored([7, 1], [8, 1]), true);
    var b: seq<Bytes> := [[7, 2], [1, 1]];
    assert b[..1] == [[7, 2]] && b[..1][..0] == [];
    var c: seq<Bytes> := [[1, 2]];
    assert c[..0] == [];
  }

  lemma ShortNals()
    ensures AnnexB.NalsOf(FIRST_IDR) == [[7, 1], [8, 1], [5, 1]]
    ensures AnnexB.NalsOf(DELTA_WITH_SPS) == [[7, 2], [1, 1]]
    ensures AnnexB.NalsOf(PLAIN_DELTA) == [[1, 2]]
  {
  }
}
