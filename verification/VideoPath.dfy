/**
 The client's video path: datagrams into the assembler, assembled frames into the decoder. Every
 access unit that reaches the hardware decoder can be decoded: it is an IDR, or it directly
 follows the unit submitted before it.
 */
module VideoPath {
  import opened Base
  import opened Fragments
  import opened Assembly
  import opened Delivery
  import opened Decoding
  import ParameterSets
  import AnnexB
  import Datagrams

  datatype Submission = Submission(generation: u32, id: u64, idr: bool)

  datatype Client = Client(assembler: State, decoder: DecoderState, generation: Option<u32>, log: seq<Submission>)

  datatype ClientEvent =
    | Configure(generation: u32)
    | Datagram(f: VideoFragment, ingested: u64, polled: u64, natives: seq<Native>)
    | Tick(polled: u64, natives: seq<Native>)
    | JobDone(epoch: nat, ok: bool)
    | Stop

  function IsIdr(data: Bytes): bool {
    AnnexB.Nals(data).Ok? && ParameterSets.HasKind(AnnexB.Nals(data).value, ParameterSets.IDR)
  }

  /** The native outcome for the next access unit of an event. */
  function First(natives: seq<Native>): Native {
    if natives == [] then Native(true, true, true) else natives[0]
  }

  function Rest(natives: seq<Native>): seq<Native> {
    if natives == [] then [] else natives[1..]
  }

  /** Decodes one assembled frame. */
  function Consume(c: Client, v: VideoFrame, env: Native): Client {
    var r := DecodeSpec(c.decoder, v.data, env);
    c.(decoder := r.state,
       log := if r.submitted then c.log + [Submission(v.generation, v.frameId, IsIdr(v.data))] else c.log)
  }

  /** Polls the assembler until it has nothing more to hand out. */
  function Drain(c: Client, now: u64, natives: seq<Native>): Client
    decreases |c.assembler.frames|
  {
    var n := NextSpec(c.assembler, now);
    NextShrinks(c.assembler, Ids(c.assembler), now);
    var t := c.(assembler := n.state);
    if n.frame.None? then t
    else Drain(Consume(t, n.frame.value.video, First(natives)), now, Rest(natives))
  }

  function ConsumeFrames(c: Client, now: u64, natives: seq<Native>): Client {
    Drain(c.(assembler := Expired(c.assembler, now)), now, natives)
  }

  /** Whether the decoder asks for a keyframe while what is ready is decoded. */
  function Resets(c: Client, now: u64, natives: seq<Native>): bool
    decreases |c.assembler.frames|
  {
    var n := NextSpec(c.assembler, now);
    NextShrinks(c.assembler, Ids(c.assembler), now);
    if n.frame.None? then false
    else
      var v := n.frame.value.video;
      || DecodeSpec(c.decoder, v.data, First(natives)).resetNeeded
      || Resets(Consume(c.(assembler := n.state), v, First(natives)), now, Rest(natives))
  }

  function ClientStep(c: Client, e: ClientEvent): Client {
    match e
    case Configure(g) =>
      Client(EMPTY, ResetSpec(c.decoder), Some(g), c.log)
    case Datagram(f, ingested, polled, natives) =>
      if c.generation != Some(f.generation) then c
      else
        var (t, o) := IngestSpec(c.assembler, f, ingested);
        if o.Throws() then c.(assembler := t, decoder := ResetSpec(c.decoder))
        else ConsumeFrames(c.(assembler := t), polled, natives)
    case Tick(polled, natives) =>
      ConsumeFrames(c, polled, natives)
    case JobDone(epoch, ok) =>
      c.(decoder := CompletedSpec(c.decoder, epoch, ok))
    case Stop =>
      c.(decoder := ResetSpec(c.decoder))
  }

  const NEW_CLIENT: Client := Client(EMPTY, NEW_DECODER, None, [])

  function ClientAfter(es: seq<ClientEvent>): Client {
    if es == [] then NEW_CLIENT else ClientStep(ClientAfter(es[..|es| - 1]), es[|es| - 1])
  }

  // What a poll hands out

  /** A frame that is not a keyframe comes directly after the last one handed out. */
  ghost predicate DeltaFollows(last: u64, r: NextResult) {
    r.frame.Some? && r.frame.value.video.keyframe == 0 ==>
      last != 0 && r.frame.value.video.frameId == last + 1
  }

  lemma {:induction false} NextFollows(s: State, ids: seq<u64>, now: u64)
    requires Invariant(s)
    ensures DeltaFollows(s.last, NextOver(s, ids, now))
    decreases |ids|
  {
    if ids != [] {
      var id, rest := ids[0], ids[1..];
      var t := s.(requiresKeyframe := s.requiresKeyframe || Gap(s, id));
      assert Invariant(t);
      NextTurn(s, ids, 0, now);
      assert ids[0..] == ids;
      var d := Discard(t, id);
      DiscardFrames(t, id);
      hide NextOver, Discard, FramesOk;
      NextFollows(s, rest, now);
      FewerFrames(t, d, {id});
      NextFollows(d, rest, now);
    }
  }

  // The chain

  /** `b` can be decoded right after `a`. */
  ghost predicate Follows(a: Submission, b: Submission) {
    b.idr || (b.generation == a.generation && b.id == a.id + 1)
  }

  ghost predicate Chained(log: seq<Submission>) {
    && (log != [] ==> log[0].idr)
    && forall i | 0 < i < |log| :: Follows(log[i - 1], log[i])
  }

  /** The chain holds, and a decoder that does not wait has just submitted the last frame handed out. */
  ghost predicate Linked(d: DecoderState, last: u64, g: Option<u32>, log: seq<Submission>) {
    && DecoderOk(d)
    && Chained(log)
    && (!d.waiting ==> log != [] && g == Some(log[|log| - 1].generation) && log[|log| - 1].id == last)
  }

  /** The parameter sets in force at each frame. */
  type Sets = map<u64, ParameterSets.Stored>

  /**
   What the host's encoder path promises of a frame: a keyframe flag only on an IDR access unit, both
   parameter sets on every IDR, and no change of the sets in force on any other unit.
   */
  ghost predicate HostFrame(force: Sets, v: VideoFrame) {
    && v.frameId in force
    && (AnnexB.Nals(v.data).Ok? ==>
          var nals := AnnexB.Nals(v.data).value;
          if ParameterSets.HasKind(nals, ParameterSets.IDR) then
            && ParameterSets.HasKind(nals, ParameterSets.SPS) && ParameterSets.HasKind(nals, ParameterSets.PPS)
            && force[v.frameId] == ScanSets(ParameterSets.Stored([], []), nals).0
          else
            && v.keyframe != 1
            && (v.frameId - 1 in force ==>
                  !ScanSets(force[v.frameId - 1], nals).1 && force[v.frameId] == force[v.frameId - 1]))
  }

  /** A decoder that does not wait goes by the sets in force at the last frame handed out. */
  ghost predicate InForce(force: Sets, d: DecoderState, last: u64) {
    !d.waiting ==> last in force && d.sets == force[last]
  }

  /** The sets after a scan are the last ones found. */
  lemma {:induction false} ScanIsAbsorb(s: ParameterSets.Stored, nals: seq<Bytes>)
    ensures ScanSets(s, nals).0 == ParameterSets.Absorb(s, nals)
    decreases |nals|
  {
    if nals != [] {
      ScanIsAbsorb(s, nals[..|nals| - 1]);
    }
  }

  /** Units that bring both sets leave the same sets whatever was there before. */
  lemma {:induction false} LastAnyway(p: Bytes, q: Bytes, nals: seq<Bytes>, kind: int)
    requires ParameterSets.HasKind(nals, kind)
    ensures ParameterSets.Last(p, nals, kind) == ParameterSets.Last(q, nals, kind)
    decreases |nals|
  {
    var k := |nals| - 1;
    assert nals == nals[..k] + [nals[k]];
    if nals[k] == [] || ParameterSets.Kind(nals[k]) != kind {
      LastAnyway(p, q, nals[..k], kind);
    }
  }

  lemma ScanAnyway(s: ParameterSets.Stored, t: ParameterSets.Stored, nals: seq<Bytes>)
    requires ParameterSets.HasKind(nals, ParameterSets.SPS) && ParameterSets.HasKind(nals, ParameterSets.PPS)
    ensures ScanSets(s, nals).0 == ScanSets(t, nals).0
  {
    ScanIsAbsorb(s, nals);
    ScanIsAbsorb(t, nals);
    LastAnyway(s.sps, t.sps, nals, ParameterSets.SPS);
    LastAnyway(s.pps, t.pps, nals, ParameterSets.PPS);
  }

  /**
   The frames the host prepares keep that promise, the sets in force being those it stores. Of the
   encoder it takes that it changes sets with IDR units only, and that the scanner undoes their repetition.
   An IDR may come from a new encoder, whose stored sets do not go on from the frame before.
   */
  lemma PreparedKeepsPromise(force: Sets, s: ParameterSets.Stored, d: Bytes, v: VideoFrame)
    requires ParameterSets.StoredOk(s) && ParameterSets.PrepareSpec(s, d).1.Ok?
    requires ParameterSets.Repeatable(ParameterSets.Missing(ParameterSets.PrepareSpec(s, d).0,
             AnnexB.Units(d).value), d)
    requires var nals := AnnexB.Units(d).value;
             ParameterSets.HasKind(nals, ParameterSets.IDR) || !ScanSets(s, nals).1
    requires var p := ParameterSets.PrepareSpec(s, d).1.value;
             v.data == p.data && v.keyframe == if p.keyframe then 1 else 0
    requires v.frameId in force && force[v.frameId] == ParameterSets.PrepareSpec(s, d).0
    requires ParameterSets.HasKind(AnnexB.Units(d).value, ParameterSets.IDR)
             || (v.frameId - 1 in force ==> force[v.frameId - 1] == s)
    ensures HostFrame(force, v)
  {
    ParameterSets.KeyframeAgrees(s, d);
    ParameterSets.RepetitionScans(s, d);
    var nals := AnnexB.Units(d).value;
    if ParameterSets.HasKind(nals, ParameterSets.IDR) {
      RepeatedScan(s, d);
    } else {
      NothingMissing(s, d);
      ScanIsAbsorb(s, nals);
      ScanKeepsSets(s, nals);
    }
    hide AnnexB.Units, ParameterSets.Repeatable, ParameterSets.StoredOk, ParameterSets.HasKind, ScanSets;
  }

  lemma NothingMissing(s: ParameterSets.Stored, d: Bytes)
    requires ParameterSets.PrepareSpec(s, d).1.Ok? && !ParameterSets.HasKind(AnnexB.Units(d).value, ParameterSets.IDR)
    ensures var nals := AnnexB.Units(d).value;
            AnnexB.NalsOf(ParameterSets.Missing(ParameterSets.PrepareSpec(s, d).0, nals)) + nals == nals
  {
  }

  lemma {:induction false} LastBehind(p: Bytes, a: seq<Bytes>, b: seq<Bytes>, kind: int)
    ensures ParameterSets.Last(p, a + b, kind) == ParameterSets.Last(ParameterSets.Last(p, a, kind), b, kind)
    decreases |b|
  {
    if b == [] {
      assert a + b == a;
    } else {
      var k := |b| - 1;
      assert (a + b)[..|a + b| - 1] == a + b[..k];
      LastBehind(p, a, b[..k], kind);
    }
  }

  /** Scanning the repeated sets and then the units gives the sets the host has stored. */
  lemma RepeatedScan(s: ParameterSets.Stored, d: Bytes)
    requires ParameterSets.StoredOk(s) && ParameterSets.PrepareSpec(s, d).1.Ok?
    requires ParameterSets.HasKind(AnnexB.Units(d).value, ParameterSets.IDR)
    ensures var t, nals := ParameterSets.PrepareSpec(s, d).0, AnnexB.Units(d).value;
            ScanSets(ParameterSets.Stored([], []), AnnexB.NalsOf(ParameterSets.Missing(t, nals)) + nals).0 == t
  {
    var t, nals := ParameterSets.PrepareSpec(s, d).0, AnnexB.Units(d).value;
    var m := AnnexB.NalsOf(ParameterSets.Missing(t, nals));
    var none := ParameterSets.Stored([], []);
    ParameterSets.PrepareKeepsStored(s, d);
    AnnexB.UnitsOk(d);
    ParameterSets.LastOk(s.sps, nals, ParameterSets.SPS);
    ParameterSets.LastOk(s.pps, nals, ParameterSets.PPS);
    ScanIsAbsorb(none, m + nals);
    LastBehind([], m, nals, ParameterSets.SPS);
    LastBehind([], m, nals, ParameterSets.PPS);
    MissingLast(t, nals);
    hide AnnexB.Units, AnnexB.NalsOf, AnnexB.HasCode, ParameterSets.Last, ParameterSets.HasKind, ScanSets;
    hide ParameterSets.Missing, AnnexB.Join;
    if ParameterSets.HasKind(nals, ParameterSets.SPS) {
      LastAnyway(s.sps, ParameterSets.Last([], m, ParameterSets.SPS), nals, ParameterSets.SPS);
    }
    if ParameterSets.HasKind(nals, ParameterSets.PPS) {
      LastAnyway(s.pps, ParameterSets.Last([], m, ParameterSets.PPS), nals, ParameterSets.PPS);
    }
    if !ParameterSets.HasKind(nals, ParameterSets.SPS) {
      LastNone(t.sps, nals, ParameterSets.SPS);
    }
    if !ParameterSets.HasKind(nals, ParameterSets.PPS) {
      LastNone(t.pps, nals, ParameterSets.PPS);
    }
  }

  lemma {:induction false} LastNone(p: Bytes, nals: seq<Bytes>, kind: int)
    requires !ParameterSets.HasKind(nals, kind)
    ensures ParameterSets.Last(p, nals, kind) == p
    decreases |nals|
  {
    if nals != [] {
      var k := |nals| - 1;
      assert nals == nals[..k] + [nals[k]];
      LastNone(p, nals[..k], kind);
    }
  }

  /** The repeated sets are the stored ones. */
  lemma MissingLast(t: ParameterSets.Stored, nals: seq<Bytes>)
    requires ParameterSets.HasKind(nals, ParameterSets.IDR) && ParameterSets.StoredOk(t) && t.sps != [] && t.pps != []
    ensures var m := AnnexB.NalsOf(ParameterSets.Missing(t, nals));
            && (!ParameterSets.HasKind(nals, ParameterSets.SPS) ==>
               ParameterSets.Last([], m, ParameterSets.SPS) == t.sps)
            && (!ParameterSets.HasKind(nals, ParameterSets.PPS) ==>
               ParameterSets.Last([], m, ParameterSets.PPS) == t.pps)
  {
    var both := [t.sps, t.pps];
    assert both[..1] == [t.sps];
    assert ParameterSets.Last([], [t.sps], ParameterSets.SPS) == t.sps;
    hide AnnexB.HasCode, ParameterSets.HasKind;
    var m := ParameterSets.Missing(t, nals);
    if |m| == 2 {
      assert AnnexB.NalsOf(m) == both;
    }
  }

  lemma NoSilentSkip(force: Sets, d: DecoderState, last: u64, v: VideoFrame)
    requires InForce(force, d, last) && HostFrame(force, v) && v.keyframe <= 1
    requires v.keyframe == 0 ==> v.frameId == last + 1
    ensures !SilentSkip(d, v.data)
  {
    hide AnnexB.Units, ParameterSets.HasKind, ScanSets;
  }

  lemma SubmittedUnit(d: DecoderState, data: Bytes, env: Native)
    requires DecodeSpec(d, data, env).submitted
    ensures AnnexB.Nals(data).Ok? && (d.waiting ==> IsIdr(data))
  {
    hide AnnexB.Units, ParameterSets.HasKind, ScanSets;
  }

  /**
   What one access unit does to the chain: with a keyframe flag that is true and a delta that directly
   follows, the chain goes on from the frame just handed out exactly when the decoder does not skip it silently.
   */
  lemma ChainStep(c: Client, last: u64, v: VideoFrame, env: Native)
    requires Linked(c.decoder, last, c.generation, c.log)
    requires c.generation == Some(v.generation) && v.keyframe <= 1
    requires if v.keyframe == 0 then v.frameId == last + 1 else AnnexB.Nals(v.data).Ok? ==> IsIdr(v.data)
    ensures var t := Consume(c, v, env);
            Linked(t.decoder, v.frameId, t.generation, t.log) <==> !SilentSkip(c.decoder, v.data)
  {
    var r := DecodeSpec(c.decoder, v.data, env);
    DecodeKeeps(c.decoder, v.data, env);
    SkipWithoutWaiting(c.decoder, v.data, env);
    SkippedDelta(c.decoder, v);
    if r.submitted {
      SubmittedUnit(c.decoder, v.data, env);
    }
    hide DecodeSpec, SilentSkip, DecoderOk, IsIdr;
    if r.submitted {
      var s := Submission(v.generation, v.frameId, IsIdr(v.data));
      assert !c.decoder.waiting ==> Follows(c.log[|c.log| - 1], s);
      assert c.decoder.waiting ==> s.idr;
    }
  }

  lemma SkippedDelta(d: DecoderState, v: VideoFrame)
    requires v.keyframe <= 1 && (v.keyframe == 0 || (AnnexB.Nals(v.data).Ok? ==> IsIdr(v.data)))
    ensures SilentSkip(d, v.data) ==> v.keyframe == 0 && !d.waiting
  {
    hide AnnexB.Units, ParameterSets.HasKind, ScanSets;
  }

  /** Whatever was submitted, a decoder that does not wait then goes by the sets in force. */
  lemma StaysInForce(force: Sets, d: DecoderState, last: u64, v: VideoFrame, env: Native)
    requires DecoderOk(d) && InForce(force, d, last) && HostFrame(force, v) && v.keyframe <= 1
    requires v.keyframe == 0 ==> v.frameId == last + 1
    ensures InForce(force, DecodeSpec(d, v.data, env).state, v.frameId)
  {
    NoSilentSkip(force, d, last, v);
    SkipWithoutWaiting(d, v.data, env);
    if d.inFlight < 2 && AnnexB.Nals(v.data).Ok? {
      var nals := AnnexB.Nals(v.data).value;
      ScanKeepsSets(d.sets, nals);
      if IsIdr(v.data) {
        ScanAnyway(d.sets, ParameterSets.Stored([], []), nals);
      }
    }
    hide AnnexB.Units, ParameterSets.HasKind, ScanSets;
  }

  lemma SubmitLinks(force: Sets, c: Client, last: u64, v: VideoFrame, env: Native)
    requires Linked(c.decoder, last, c.generation, c.log) && InForce(force, c.decoder, last) && HostFrame(force, v)
    requires c.generation == Some(v.generation) && v.keyframe <= 1
    requires v.keyframe == 0 ==> v.frameId == last + 1
    ensures var t := Consume(c, v, env);
            Linked(t.decoder, v.frameId, t.generation, t.log) && InForce(force, t.decoder, v.frameId)
  {
    hide DecodeSpec, SilentSkip, InForce, ScanSets, ParameterSets.HasKind, Chained;
    ChainStep(c, last, v, env);
    NoSilentSkip(force, c.decoder, last, v);
    StaysInForce(force, c.decoder, last, v, env);
  }

  /**
   And a silent skip is where the chain ends: the next delta, if it parses, changes no set and the
   hardware takes it, is submitted although the unit before it never was.
   */
  lemma SkipBreaks(c: Client, last: u64, v: VideoFrame, env: Native, w: VideoFrame, env': Native)
    requires Linked(c.decoder, last, c.generation, c.log) && SilentSkip(c.decoder, v.data) && v.frameId == last + 1
    requires AnnexB.Nals(w.data).Ok? && !IsIdr(w.data) && w.frameId == v.frameId + 1
    requires !ScanSets(DecodeSpec(c.decoder, v.data, env).state.sets, AnnexB.Nals(w.data).value).1
    requires env'.sampled && env'.submitted
    ensures var t := Consume(Consume(c, v, env), w, env');
            t.log == c.log + [Submission(w.generation, w.frameId, false)] && !Chained(t.log)
  {
    SkipWithoutWaiting(c.decoder, v.data, env);
    var d := DecodeSpec(c.decoder, v.data, env).state;
    SkippedState(c.decoder, v.data, env);
    PlainSubmitted(d, w.data, env');
    var s := Submission(w.generation, w.frameId, false);
    hide DecodeSpec, SilentSkip, DecoderOk, IsIdr;
    var log := c.log + [s];
    assert !Follows(log[|c.log| - 1], log[|c.log|]);
  }

  lemma SkippedState(d: DecoderState, data: Bytes, env: Native)
    requires DecoderOk(d) && SilentSkip(d, data)
    ensures var r := DecodeSpec(d, data, env);
            !r.submitted && !r.state.waiting && r.state.session.Some? && r.state.inFlight < 2
  {
    hide AnnexB.Units, ParameterSets.HasKind, ScanSets;
  }

  lemma PlainSubmitted(d: DecoderState, data: Bytes, env: Native)
    requires !d.waiting && d.session.Some? && d.inFlight < 2 && AnnexB.Nals(data).Ok? && env.sampled && env.submitted
    requires !ScanSets(d.sets, AnnexB.Nals(data).value).1
    ensures DecodeSpec(d, data, env).submitted
  {
    hide AnnexB.Units, ParameterSets.HasKind, ScanSets;
  }

  // Runs

  /** The frames sent for one generation. */
  function OfGeneration(cuts: map<u64, Cut>, g: u32): map<u64, Cut> {
    map id | id in cuts && cuts[id].frame.generation == g :: cuts[id]
  }

  ghost predicate HostFrames(cuts: map<u64, Cut>, force: Sets) {
    Sent(cuts) && forall id | id in cuts :: HostFrame(force, cuts[id].frame)
  }

  ghost predicate ClientOk(cuts: map<u64, Cut>, force: Sets, c: Client) {
    && Invariant(c.assembler)
    && (c.generation.Some? ==> Faithful(OfGeneration(cuts, c.generation.value), c.assembler))
    && (c.generation.None? ==> c.assembler.frames == map[])
    && Linked(c.decoder, c.assembler.last, c.generation, c.log)
    && InForce(force, c.decoder, c.assembler.last)
  }

  lemma SameHostFrame(force: Sets, v: VideoFrame, sent: VideoFrame)
    requires Same(v, sent) && HostFrame(force, sent)
    ensures HostFrame(force, v)
  {
    hide AnnexB.Nals, ParameterSets.HasKind, ScanSets;
  }

  lemma SentOfGeneration(cuts: map<u64, Cut>, force: Sets, g: u32, v: VideoFrame)
    requires HostFrames(cuts, force)
    ensures Sent(OfGeneration(cuts, g))
    ensures v.frameId in OfGeneration(cuts, g) && Same(v, OfGeneration(cuts, g)[v.frameId].frame) ==>
              HostFrame(force, v) && v.generation == g && v.keyframe <= 1
  {
    hide HostFrame;
    if v.frameId in OfGeneration(cuts, g) && Same(v, OfGeneration(cuts, g)[v.frameId].frame) {
      SameHostFrame(force, v, cuts[v.frameId].frame);
    }
  }

  lemma PollLinks(cuts: map<u64, Cut>, force: Sets, c: Client, now: u64, env: Native)
    requires HostFrames(cuts, force) && ClientOk(cuts, force, c)
    ensures var n := NextSpec(c.assembler, now);
            var t := c.(assembler := n.state);
            ClientOk(cuts, force, if n.frame.None? then t else Consume(t, n.frame.value.video, env))
  {
    var n, ids := NextSpec(c.assembler, now), Ids(c.assembler);
    hide NextOver, Sent, HostFrame, Faithful, Invariant, FramesOk, Linked, InForce, Consume;
    NextOverKeeps(c.assembler, ids, now);
    NextFollows(c.assembler, ids, now);
    if c.generation.Some? {
      var g := c.generation.value;
      var sent := OfGeneration(cuts, g);
      SentOfGeneration(cuts, force, g, if n.frame.Some? then n.frame.value.video else VideoFrame(0, 0, 0, 0, 0, 0, []));
      NextOverFaithful(sent, c.assembler, ids, now);
      if n.frame.Some? {
        SubmitLinks(force, c, c.assembler.last, n.frame.value.video, env);
        ConsumeFields(c, n, env);
      }
    } else {
      NextShrinks(c.assembler, ids, now);
      NothingToPoll(c.assembler, ids, now);
    }
  }

  lemma ConsumeFields(c: Client, n: NextResult, env: Native)
    requires n.frame.Some?
    ensures var v := n.frame.value.video;
            var t, u := Consume(c, v, env), Consume(c.(assembler := n.state), v, env);
            u == t.(assembler := n.state) && u.generation == c.generation
  {
    hide DecodeSpec;
  }

  lemma {:induction false} NothingToPoll(s: State, ids: seq<u64>, now: u64)
    requires s.frames == map[]
    ensures NextOver(s, ids, now) == NextResult(s, None, {})
    decreases |ids|
  {
    if ids != [] {
      NothingToPoll(s, ids[1..], now);
    }
  }

  lemma {:induction false} DrainLinks(cuts: map<u64, Cut>, force: Sets, c: Client, now: u64, natives: seq<Native>)
    requires HostFrames(cuts, force) && ClientOk(cuts, force, c)
    ensures ClientOk(cuts, force, Drain(c, now, natives))
    decreases |c.assembler.frames|
  {
    var n := NextSpec(c.assembler, now);
    NextShrinks(c.assembler, Ids(c.assembler), now);
    assert n.frame.Some? ==> |n.state.frames| < |c.assembler.frames|;
    hide NextSpec, ClientOk, HostFrames, DecodeSpec;
    PollLinks(cuts, force, c, now, First(natives));
    if n.frame.Some? {
      DrainLinks(cuts, force, Consume(c.(assembler := n.state), n.frame.value.video, First(natives)), now,
        Rest(natives));
    }
  }

  lemma ConsumeFramesLinks(cuts: map<u64, Cut>, force: Sets, c: Client, now: u64, natives: seq<Native>)
    requires HostFrames(cuts, force) && ClientOk(cuts, force, c)
    ensures ClientOk(cuts, force, ConsumeFrames(c, now, natives))
  {
    var s := c.assembler;
    ExpiredKeeps(s, now);
    if c.generation.Some? {
      ExpiredFaithful(OfGeneration(cuts, c.generation.value), s, now);
    }
    var ids := Stale(s, s.frames.Keys, now);
    DiscardAllFrames(s, ids);
    assert c.generation.None? ==> s.frames - ids == map[];
    hide Invariant, Faithful, Linked, HostFrames, DiscardAll, Stale;
    DrainLinks(cuts, force, c.(assembler := Expired(s, now)), now, natives);
  }

  lemma IngestLinks(cuts: map<u64, Cut>, force: Sets, c: Client, f: VideoFragment, now: u64)
    requires HostFrames(cuts, force) && ClientOk(cuts, force, c) && Genuine(cuts, f)
             && c.generation == Some(f.generation)
    ensures !IngestSpec(c.assembler, f, now).1.Throws()
    ensures ClientOk(cuts, force, c.(assembler := IngestSpec(c.assembler, f, now).0))
  {
    var sent := OfGeneration(cuts, f.generation);
    assert Genuine(sent, f) && Sent(sent);
    hide Invariant, Faithful, Linked, HostFrames, IngestSpec, Genuine, Sent;
    GenuineIngest(sent, c.assembler, f, now);
    IngestKeeps(c.assembler, f, now);
    IngestLast(c.assembler, f, now);
  }

  lemma ResetLinks(force: Sets, d: DecoderState, last: u64, g: Option<u32>, last': u64, g': Option<u32>,
    log: seq<Submission>)
    requires Linked(d, last, g, log)
    ensures Linked(ResetSpec(d), last', g', log) && InForce(force, ResetSpec(d), last')
  {
  }

  lemma StepLinks(cuts: map<u64, Cut>, force: Sets, c: Client, e: ClientEvent)
    requires HostFrames(cuts, force) && ClientOk(cuts, force, c) && (e.Datagram? ==> Genuine(cuts, e.f))
    ensures ClientOk(cuts, force, ClientStep(c, e))
  {
    match e
    case Configure(g) =>
      ResetLinks(force, c.decoder, c.assembler.last, c.generation, 0, Some(g), c.log);
    case Datagram(f, ingested, polled, natives) =>
      if c.generation == Some(f.generation) {
        hide ClientOk, HostFrames, IngestSpec, ConsumeFrames, Genuine;
        IngestLinks(cuts, force, c, f, ingested);
        ConsumeFramesLinks(cuts, force, c.(assembler := IngestSpec(c.assembler, f, ingested).0), polled, natives);
      }
    case Tick(polled, natives) =>
      ConsumeFramesLinks(cuts, force, c, polled, natives);
    case JobDone(epoch, ok) =>
    case Stop =>
      ResetLinks(force, c.decoder, c.assembler.last, c.generation, c.assembler.last, c.generation, c.log);
  }

  /**
   Decodability: over every run, with any datagrams lost, repeated or reordered, any generation
   changes, job failures and restarts, what reaches the hardware decoder forms a decodable chain, if
   the sets in force change on IDR units only.
   */
  lemma {:induction false} AlwaysDecodable(cuts: map<u64, Cut>, force: Sets, es: seq<ClientEvent>)
    requires HostFrames(cuts, force)
    requires forall i | 0 <= i < |es| && es[i].Datagram? :: Genuine(cuts, es[i].f)
    ensures ClientOk(cuts, force, ClientAfter(es))
    ensures Chained(ClientAfter(es).log)
  {
    hide ClientStep, HostFrames, Genuine;
    if es != [] {
      var k := |es| - 1;
      AlwaysDecodable(cuts, force, es[..k]);
      StepLinks(cuts, force, ClientAfter(es[..k]), es[k]);
    }
  }

  // The clock

  /** The clock is no earlier than any arrival, over this poll and those that follow it. */
  lemma {:induction false} NextClock(s: State, ids: seq<u64>, now: u64)
    requires ClockOk(s, now)
    ensures ClockOk(NextOver(s, ids, now).state, now)
    decreases |ids|
  {
    if ids != [] {
      var id, rest := ids[0], ids[1..];
      var t := s.(requiresKeyframe := s.requiresKeyframe || Gap(s, id));
      NextTurn(s, ids, 0, now);
      assert ids[0..] == ids;
      var d := Discard(t, id);
      DiscardFrames(t, id);
      if id in t.frames {
        EmitShape(t, id, now);
      }
      hide NextOver, Emit, Discard;
      NextClock(s, rest, now);
      NextClock(d, rest, now);
    }
  }

  lemma ExpiredClock(s: State, now: u64)
    requires ClockOk(s, now)
    ensures ClockOk(Expired(s, now), now)
  {
    DiscardAllFrames(s, Stale(s, s.frames.Keys, now));
    hide Stale, DiscardAll;
  }

  lemma IngestClock(s: State, f: VideoFragment, now: u64, later: u64)
    requires ClockOk(s, now) && now <= later
    ensures ClockOk(IngestSpec(s, f, now).0, later)
  {
    var r := s.(received := Bump(s.received, 1));
    assert ClockOk(r, now);
    var e := Expired(r, now);
    hide Expired, Opened, Store, ClockOk, FragmentOk;
    ExpiredClock(r, now);
    if f.frameId in Opened(e, f, now).frames {
      OpenedClock(e, f, now);
      StoredClock(Opened(e, f, now), f, now);
      ClockLater(Store(Opened(e, f, now), f).0, now, later);
    }
    ClockLater(s, now, later);
    OpensFrame(e, f, now);
  }

  lemma OpenedClock(s: State, f: VideoFragment, now: u64)
    requires ClockOk(s, now)
    ensures ClockOk(Opened(s, f, now), now)
  {
    RoomClock(s, now);
    hide Room;
  }

  lemma StoredClock(s: State, f: VideoFragment, now: u64)
    requires ClockOk(s, now) && f.frameId in s.frames
    ensures ClockOk(Store(s, f).0, now)
  {
  }

  lemma RoomClock(s: State, now: u64)
    requires ClockOk(s, now)
    ensures ClockOk(Room(s), now)
  {
    if |s.frames| >= 2 && s.frames.Keys != {} {
      DiscardFrames(s, Min(s.frames.Keys));
      hide Discard;
    }
  }

  lemma {:induction false} ClockAges(s: State, ids: seq<u64>, now: u64)
    requires ClockOk(s, now)
    ensures AgesOk(s, ids, now)
    decreases |ids|
  {
    if ids != [] {
      var id, rest := ids[0], ids[1..];
      var t := s.(requiresKeyframe := s.requiresKeyframe || Gap(s, id));
      DiscardFrames(t, id);
      hide Discard;
      ClockAges(s, rest, now);
      ClockAges(Discard(t, id), rest, now);
    }
  }

  // The clock over runs

  /** When the last event that looked at the clock was over. */
  function LastTime(es: seq<ClientEvent>): u64
    decreases |es|
  {
    if es == [] then 0
    else
      match es[|es| - 1]
      case Datagram(_, _, polled, _) => polled
      case Tick(polled, _) => polled
      case _ => LastTime(es[..|es| - 1])
  }

  /** The clock does not go back. */
  predicate InTime(from: u64, e: ClientEvent) {
    match e
    case Datagram(_, ingested, polled, _) => from <= ingested <= polled
    case Tick(polled, _) => from <= polled
    case _ => true
  }

  ghost predicate Timed(es: seq<ClientEvent>) {
    forall i | 0 <= i < |es| :: InTime(LastTime(es[..i]), es[i])
  }

  /** At this poll and all those that follow it in the same drain, no subtraction of times underflows. */
  ghost predicate PollsOk(s: State, now: u64)
    decreases |s.frames|
  {
    NextShrinks(s, Ids(s), now);
    AgesOk(s, Ids(s), now) && (NextSpec(s, now).frame.Some? ==> PollsOk(NextSpec(s, now).state, now))
  }

  lemma {:induction false} ClockPolls(s: State, now: u64)
    requires ClockOk(s, now)
    ensures PollsOk(s, now)
    decreases |s.frames|
  {
    ClockAges(s, Ids(s), now);
    NextShrinks(s, Ids(s), now);
    NextClock(s, Ids(s), now);
    var n := NextSpec(s, now);
    assert n.frame.Some? ==> |n.state.frames| < |s.frames|;
    hide NextSpec, ClockOk, AgesOk;
    if n.frame.Some? {
      ClockPolls(n.state, now);
    }
  }

  lemma ClockLater(s: State, now: u64, later: u64)
    requires ClockOk(s, now) && now <= later
    ensures ClockOk(s, later)
  {
  }

  lemma {:induction false} DrainClock(c: Client, now: u64, natives: seq<Native>)
    requires ClockOk(c.assembler, now)
    ensures ClockOk(Drain(c, now, natives).assembler, now)
    decreases |c.assembler.frames|
  {
    DrainTurn(c, now, natives);
    hide Drain, ClockOk, Consume, NextSpec;
    var n := NextSpec(c.assembler, now);
    if n.frame.Some? {
      var t := Consume(c.(assembler := n.state), n.frame.value.video, First(natives));
      assert t.assembler == n.state by {
        ConsumeAssembler(c.(assembler := n.state), n.frame.value.video, First(natives));
      }
      DrainClock(t, now, Rest(natives));
    }
  }

  lemma ConsumeAssembler(c: Client, v: VideoFrame, env: Native)
    ensures Consume(c, v, env).assembler == c.assembler
  {
    hide DecodeSpec, IsIdr;
  }

  lemma StepClock(c: Client, from: u64, e: ClientEvent, es: seq<ClientEvent>)
    requires ClockOk(c.assembler, from) && InTime(from, e) && LastTime(es) == from
    ensures ClockOk(ClientStep(c, e).assembler, LastTime(es + [e]))
  {
    assert (es + [e])[..|es + [e]| - 1] == es;
    hide ConsumeFrames, DecodeSpec, ClockOk, IngestSpec;
    match e
    case Datagram(f, ingested, polled, natives) =>
      ClockLater(c.assembler, from, ingested);
      IngestClock(c.assembler, f, ingested, polled);
      ClockLater(c.assembler, from, polled);
      PollClock(c.(assembler := IngestSpec(c.assembler, f, ingested).0), polled, natives);
    case Tick(polled, natives) =>
      ClockLater(c.assembler, from, polled);
      PollClock(c, polled, natives);
    case _ =>
      SameClock(c, e);
  }

  lemma PollClock(c: Client, now: u64, natives: seq<Native>)
    requires ClockOk(c.assembler, now)
    ensures ClockOk(ConsumeFrames(c, now, natives).assembler, now)
  {
    hide Drain, Expired, ClockOk;
    ExpiredClock(c.assembler, now);
    DrainClock(c.(assembler := Expired(c.assembler, now)), now, natives);
  }

  lemma SameClock(c: Client, e: ClientEvent)
    requires !e.Datagram? && !e.Tick?
    ensures ClientStep(c, e).assembler == if e.Configure? then EMPTY else c.assembler
    ensures forall now: u64 :: ClockOk(EMPTY, now)
  {
  }

  lemma {:induction false} AlwaysClock(es: seq<ClientEvent>)
    requires Timed(es)
    ensures ClockOk(ClientAfter(es).assembler, LastTime(es))
    decreases |es|
  {
    hide ClientStep, ClockOk, LastTime, InTime;
    if es == [] {
      NewClock();
    } else {
      var k := |es| - 1;
      forall i | 0 <= i < k
        ensures InTime(LastTime(es[..k][..i]), es[..k][i])
      {
        assert es[..k][..i] == es[..i];
      }
      AlwaysClock(es[..k]);
      StepClock(ClientAfter(es[..k]), LastTime(es[..k]), es[k], es[..k]);
      assert es[..k] + [es[k]] == es;
    }
  }

  lemma NewClock()
    ensures ClockOk(NEW_CLIENT.assembler, LastTime([]))
  {
  }

  /**
   The client's clock not going back, nothing traps: in every run, at the ingest of a datagram and at every
   poll behind it, all the times looked at are in the past.
   */
  lemma NeverTraps(es: seq<ClientEvent>, e: ClientEvent)
    requires Timed(es) && InTime(LastTime(es), e)
    ensures var s := ClientAfter(es).assembler;
            match e
            case Datagram(f, ingested, polled, _) =>
              ClockOk(s, ingested) && PollsOk(Expired(IngestSpec(s, f, ingested).0, polled), polled)
            case Tick(polled, _) => ClockOk(s, polled) && PollsOk(Expired(s, polled), polled)
            case _ => true
  {
    AlwaysClock(es);
    var s := ClientAfter(es).assembler;
    hide ClientAfter, LastTime, Timed, PollsOk, Expired;
    match e
    case Datagram(f, ingested, polled, _) =>
      ClockLater(s, LastTime(es), ingested);
      IngestClock(s, f, ingested, polled);
      hide ClockOk, IngestSpec;
      ExpiredClock(IngestSpec(s, f, ingested).0, polled);
      ClockPolls(Expired(IngestSpec(s, f, ingested).0, polled), polled);
    case Tick(polled, _) =>
      ClockLater(s, LastTime(es), polled);
      hide ClockOk;
      ExpiredClock(s, polled);
      ClockPolls(Expired(s, polled), polled);
    case _ =>
  }

  // The receiver

  datatype Config = Config(generation: u32, codec: u8, width: u32, height: u32, fps: u32, bitDepth: u8, colorSpace: u8)

  predicate ConfigOk(c: Config) {
    && c.codec == 1 && c.bitDepth == 8 && c.colorSpace == 1
    && 320 <= c.width <= 4094 && 320 <= c.height <= 4094 && c.width % 2 == 0 && c.height % 2 == 0 && 30 <= c.fps <= 60
  }

  /** The part of the client's session that takes video: its assembler and its decoder. */
  class VideoReceiver {
    var assembler: FrameAssembler
    const decoder: H264Decoder
    var generation: Option<u32>
    var streaming: bool
    /** The access units handed to the hardware decoder so far. */
    var log: seq<Submission>

    constructor ()
      ensures fresh(assembler) && fresh(decoder) && Valid() && Value() == NEW_CLIENT && !streaming
    {
      assembler := new FrameAssembler();
      decoder := new H264Decoder();
      generation, streaming, log := None, false, [];
    }

    ghost predicate Valid()
      reads this, assembler
    {
      assembler.Valid()
    }

    function Value(): Client
      reads this, assembler, decoder
    {
      Client(assembler.Value(), decoder.Value(), generation, log)
    }

    /** Handles a configuration: refused, it ends the session; taken, a keyframe is to be asked for. */
    method HandleConfig(configured: bool, c: Config) returns (taken: bool)
      requires Valid()
      modifies this, decoder
      ensures Valid() && decoder.Idle() && log == old(log) && streaming == taken
      ensures taken <==> configured && c.codec == 1 && c.bitDepth == 8 && c.colorSpace == 1
                         && 320 <= c.width <= 4094 && c.width % 2 == 0 && 320 <= c.height <= 4094 && c.height % 2 == 0
                         && 30 <= c.fps <= 60
      ensures taken ==> fresh(assembler) && assembler.Value() == EMPTY && generation == Some(c.generation)
      ensures taken ==> Value() == ClientStep(old(Value()), Configure(c.generation))
      ensures !taken ==> assembler == old(assembler) && Value() == ClientStep(old(Value()), Stop)
    {
      if !configured || !ConfigOk(c) {
        streaming := false;
        decoder.Reset();
        return false;
      }
      generation := Some(c.generation);
      assembler := new FrameAssembler();
      decoder.Reset();
      streaming := true;
      return true;
    }

    /** Handles the bytes of one datagram; whatever makes it unreadable ends the session. */
    method HandleDatagram(session: Bytes, d: Bytes, ingested: u64, polled: u64,
      natives: seq<Native>) returns (ask: bool, reset: bool)
      requires Valid() && ClockOk(assembler.Value(), ingested) && ingested <= polled
      modifies this, assembler, decoder
      ensures assembler == old(assembler) && Valid()
      ensures match Datagrams.Arrived(old(streaming), session, d)
              case PassedOver => Value() == old(Value()) && streaming == old(streaming) && !ask && !reset
              case Malformed =>
                Value() == ClientStep(old(Value()), Stop) && !streaming && decoder.Idle() && !ask && !reset
              case Carried(f) =>
                && Value() == ClientStep(old(Value()), Datagram(f, ingested, polled, natives))
                && if old(generation) != Some(f.generation) then
                     Value() == old(Value()) && streaming == old(streaming) && !ask && !reset
                   else if IngestSpec(old(assembler.Value()), f, ingested).1.Throws() then
                     !streaming && decoder.Idle() && log == old(log) && !ask && !reset
                   else
                     && streaming == old(streaming) && ask == assembler.requiresKeyframe
                     && reset == ResetsAfter(old(Value()), f, ingested, polled, natives)
    {
      ask, reset := false, false;
      var r := Datagrams.Read(streaming, session, d);
      hide IngestSpec, ConsumeFrames, ResetsAfter, Datagrams.Arrived;
      match r
      case PassedOver =>
      case Malformed =>
        streaming := false;
        decoder.Reset();
      case Carried(f) =>
        ask, reset := HandleFragment(f, ingested, polled, natives);
    }

    /** Handles one fragment, received at `ingested` and polled for at `polled`. */
    method HandleFragment(f: VideoFragment, ingested: u64, polled: u64,
      natives: seq<Native>) returns (ask: bool, reset: bool)
      requires Valid() && ClockOk(assembler.Value(), ingested) && ingested <= polled
      modifies this, assembler, decoder
      ensures assembler == old(assembler) && Valid()
      ensures Value() == ClientStep(old(Value()), Datagram(f, ingested, polled, natives))
      ensures if old(generation) != Some(f.generation) then
                Value() == old(Value()) && streaming == old(streaming) && !ask && !reset
              else if IngestSpec(old(assembler.Value()), f, ingested).1.Throws() then
                !streaming && decoder.Idle() && log == old(log) && !ask && !reset
              else
                && streaming == old(streaming) && ask == assembler.requiresKeyframe
                && reset == ResetsAfter(old(Value()), f, ingested, polled, natives)
    {
      if generation != Some(f.generation) {
        return false, false;
      }
      IngestClock(assembler.Value(), f, ingested, polled);
      hide IngestSpec, ConsumeFrames, ResetSpec, Resets, Expired, Invariant;
      var o := assembler.Ingest(f, ingested);
      if o.Throws() {
        streaming := false;
        decoder.Reset();
        return false, false;
      }
      ask, reset := PollFrames(polled, natives);
    }

    /** Expires old assemblies and decodes what is ready; a keyframe is asked for if one is then needed. */
    method PollFrames(now: u64, natives: seq<Native>) returns (ask: bool, reset: bool)
      requires Valid() && ClockOk(assembler.Value(), now)
      modifies this, assembler, decoder
      ensures assembler == old(assembler) && Valid() && streaming == old(streaming)
      ensures Value() == ConsumeFrames(old(Value()), now, natives)
      ensures ask == assembler.requiresKeyframe
      ensures reset == Resets(old(Value()).(assembler := Expired(old(assembler.Value()), now)), now, natives)
    {
      hide Drain, Expired, ConsumeFrames, Resets, Invariant, ClockOk;
      ExpirePart(now);
      reset := DrainPart(now, natives);
      ConsumeParts(old(Value()), now, natives);
      ask := assembler.requiresKeyframe;
    }

    method ExpirePart(now: u64)
      requires Valid() && ClockOk(assembler.Value(), now)
      modifies this, assembler
      ensures assembler == old(assembler) && Valid() && ClockOk(assembler.Value(), now) && streaming == old(streaming)
      ensures Value() == old(Value()).(assembler := Expired(old(assembler.Value()), now))
    {
      ExpiredKeeps(assembler.Value(), now);
      ExpiredClock(assembler.Value(), now);
      InvariantFrames(assembler.Value());
      hide Invariant, FramesOk, Expired, ClockOk;
      assembler.Expire(now);
    }

    method DrainPart(now: u64, natives: seq<Native>) returns (reset: bool)
      requires Valid() && ClockOk(assembler.Value(), now)
      modifies this, assembler, decoder
      ensures assembler == old(assembler) && Valid() && streaming == old(streaming)
      ensures Value() == Drain(old(Value()), now, natives) && reset == Resets(old(Value()), now, natives)
    {
      hide Invariant, FramesOk, DecodeSpec, NextSpec, ClockOk, IsIdr, Consume, Drain, Resets;
      ghost var goal, asked := Drain(Value(), now, natives), Resets(Value(), now, natives);
      var left := natives;
      reset := false;
      while true
        invariant assembler == old(assembler) && Valid() && ClockOk(assembler.Value(), now)
        invariant streaming == old(streaming)
        invariant Drain(Value(), now, left) == goal && (reset || Resets(Value(), now, left) <==> asked)
        decreases |assembler.frames|
      {
        ghost var before := Value();
        DrainTurn(before, now, left);
        ClockAges(assembler.Value(), Ids(assembler.Value()), now);
        var frame := assembler.Next(now);
        if frame.None? {
          break;
        }
        var asks := DecodeFrame(frame.value.video, First(left));
        reset := reset || asks;
        left := Rest(left);
      }
    }

    method DecodeFrame(v: VideoFrame, env: Native) returns (reset: bool)
      requires Valid()
      modifies this`log, decoder
      ensures Valid() && Value() == Consume(old(Value()), v, env)
      ensures reset == DecodeSpec(old(decoder.Value()), v.data, env).resetNeeded
    {
      hide Invariant, DecodeSpec, IsIdr;
      var submitted;
      submitted, reset := decoder.Decode(v.data, env);
      if submitted {
        log := log + [Submission(v.generation, v.frameId, IsIdr(v.data))];
      }
    }
  }

  /** The decoder's requests behind one fragment that is stored. */
  function ResetsAfter(c: Client, f: VideoFragment, ingested: u64, polled: u64, natives: seq<Native>): bool {
    Resets(c.(assembler := Expired(IngestSpec(c.assembler, f, ingested).0, polled)), polled, natives)
  }

  lemma ConsumeParts(c: Client, now: u64, natives: seq<Native>)
    ensures ConsumeFrames(c, now, natives) == Drain(c.(assembler := Expired(c.assembler, now)), now, natives)
  {
  }

  lemma InvariantFrames(s: State)
    requires Invariant(s)
    ensures FramesOk(s)
  {
  }

  /** One turn of the polling loop. */
  lemma DrainTurn(c: Client, now: u64, natives: seq<Native>)
    requires ClockOk(c.assembler, now)
    ensures var n := NextSpec(c.assembler, now);
            var t := c.(assembler := n.state);
            && ClockOk(n.state, now)
            && (n.frame.Some? ==> |n.state.frames| < |c.assembler.frames|)
            && Drain(c, now, natives) ==
               (if n.frame.None? then t
                else Drain(Consume(t, n.frame.value.video, First(natives)), now, Rest(natives)))
            && (Resets(c, now, natives) <==>
                n.frame.Some? && (DecodeSpec(c.decoder, n.frame.value.video.data, First(natives)).resetNeeded
                                  || Resets(Consume(t, n.frame.value.video, First(natives)), now, Rest(natives))))
  {
    NextShrinks(c.assembler, Ids(c.assembler), now);
    NextClock(c.assembler, Ids(c.assembler), now);
    hide NextOver, ClockOk, Consume, DecodeSpec;
  }
}
