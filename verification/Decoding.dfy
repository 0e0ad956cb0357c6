/** The decoder's gate: which access units reach the hardware decoder. */
module Decoding {
  import opened Base
  import opened AnnexB
  import opened ParameterSets

  /** The outcomes of the native calls made for one access unit. */
  datatype Native = Native(configured: bool, sampled: bool, submitted: bool)

  /** `session` is the pair of sets with which the native session was created, if there is one. */
  datatype DecoderState = DecoderState(inFlight: nat, epoch: nat, waiting: bool, session: Option<Stored>, sets: Stored)

  const NEW_DECODER: DecoderState := DecoderState(0, 0, true, None, Stored([], []))

  datatype Decoded = Decoded(state: DecoderState, submitted: bool, resetNeeded: bool)

  function ResetSpec(d: DecoderState): DecoderState {
    DecoderState(0, d.epoch + 1, true, None, Stored([], []))
  }

  /** The sets after a scan of the units, and whether any unit differed from the set it replaced. */
  function ScanSets(s: Stored, nals: seq<Bytes>): (Stored, bool)
    decreases |nals|
  {
    if nals == [] then (s, false)
    else
      var (t, changed) := ScanSets(s, nals[..|nals| - 1]);
      var n := nals[|nals| - 1];
      if n != [] && Kind(n) == SPS && n != t.sps then (t.(sps := n), true)
      else if n != [] && Kind(n) == PPS && n != t.pps then (t.(pps := n), true)
      else (t, changed)
  }

  function Submit(d: DecoderState, env: Native): Decoded {
    if !env.sampled then Decoded(ResetSpec(d), false, true)
    else if !env.submitted then Decoded(ResetSpec(d), true, true)
    else Decoded(d.(inFlight := d.inFlight + 1, waiting := false), true, false)
  }

  /** Handling of an access unit with these units. */
  function Gate(d: DecoderState, nals: seq<Bytes>, env: Native): Decoded {
    var (sets, changed) := ScanSets(d.sets, nals);
    var s, idr := d.(sets := sets), HasKind(nals, IDR);
    if d.waiting && !idr then Decoded(s, false, false)
    else if changed || d.session.None? then
      if sets.sps == [] || sets.pps == [] || !idr then Decoded(s, false, true)
      else
        var c := s.(epoch := s.epoch + 1, inFlight := 0, session := None);
        if !env.configured then Decoded(ResetSpec(c), false, true)
        else Submit(c.(session := Some(sets)), env)
    else Submit(s, env)
  }

  function DecodeSpec(d: DecoderState, data: Bytes, env: Native): Decoded {
    if d.inFlight >= 2 then Decoded(d.(waiting := true), false, true)
    else
      match Nals(data)
      case Err(_) => Decoded(ResetSpec(d), false, true)
      case Ok(nals) => Gate(d, nals, env)
  }

  /** The completion callback of a job started in the given epoch. */
  function CompletedSpec(d: DecoderState, epoch: nat, ok: bool): DecoderState {
    if d.epoch != epoch then d
    else d.(inFlight := if d.inFlight > 0 then d.inFlight - 1 else 0, waiting := d.waiting || !ok)
  }

  class H264Decoder {
    var inFlight: nat
    var epoch: nat
    var waitingForIdr: bool
    var session: Option<Stored>
    var sps: Bytes
    var pps: Bytes

    constructor ()
      ensures Value() == NEW_DECODER
    {
      inFlight, epoch, waitingForIdr, session, sps, pps := 0, 0, true, None, [], [];
    }

    function Value(): DecoderState
      reads this
    {
      DecoderState(inFlight, epoch, waitingForIdr, session, Stored(sps, pps))
    }

    /** Nothing in flight, no session and no sets, and waiting for an IDR. */
    predicate Idle()
      reads this
    {
      inFlight == 0 && session == None && sps == [] && pps == [] && waitingForIdr
    }

    method Reset()
      modifies this
      ensures Value() == ResetSpec(old(Value()))
      ensures Idle() && epoch > old(epoch)
    {
      epoch := epoch + 1;
      session, sps, pps := None, [], [];
      inFlight, waitingForIdr := 0, true;
    }

    /** Stores new parameter sets and tells whether there were any. */
    method TakeSets(nals: seq<Bytes>) returns (changed: bool)
      modifies this
      ensures Value() == old(Value()).(sets := ScanSets(old(Value()).sets, nals).0)
      ensures changed == ScanSets(old(Value()).sets, nals).1
    {
      changed := false;
      ghost var start := Value();
      for i := 0 to |nals|
        invariant Value() == start.(sets := ScanSets(start.sets, nals[..i]).0)
        invariant changed == ScanSets(start.sets, nals[..i]).1
      {
        assert nals[..i + 1][..i] == nals[..i];
        var n := nals[i];
        if n == [] {
          continue;
        }
        if Kind(n) == SPS && n != sps {
          sps, changed := n, true;
        }
        if Kind(n) == PPS && n != pps {
          pps, changed := n, true;
        }
      }
      assert nals[..|nals|] == nals;
    }

    /** Decodes one access unit; `env` holds what the native calls return. */
    method Decode(data: Bytes, env: Native) returns (submitted: bool, resetNeeded: bool)
      modifies this
      ensures Decoded(Value(), submitted, resetNeeded) == DecodeSpec(old(Value()), data, env)
    {
      hide Units, HasKind, ScanSets;
      if inFlight >= 2 {
        waitingForIdr := true;
        return false, true;
      }
      if |data| > MAX_FRAME {
        Reset();
        return false, true;
      }
      var units := ComputeUnits(data);
      if units.Err? {
        Reset();
        return false, true;
      }
      var nals := units.value;
      var changed := TakeSets(nals);
      var idr := HasKind(nals, IDR);
      if waitingForIdr && !idr {
        return false, false;
      }
      if changed || session.None? {
        if sps == [] || pps == [] || !idr {
          return false, true;
        }
        epoch := epoch + 1;
        inFlight, session := 0, None;
        if !env.configured {
          Reset();
          return false, true;
        }
        session := Some(Stored(sps, pps));
      }
      if !env.sampled {
        Reset();
        return false, true;
      }
      inFlight := inFlight + 1;
      if !env.submitted {
        inFlight := inFlight - 1;
        Reset();
        return true, true;
      }
      waitingForIdr := false;
      return true, false;
    }

    /** A job is over; a failed one of this epoch asks for a keyframe. */
    method Completed(jobEpoch: nat, ok: bool) returns (resetNeeded: bool)
      modifies this
      ensures Value() == CompletedSpec(old(Value()), jobEpoch, ok)
      ensures resetNeeded == (old(epoch) == jobEpoch && !ok)
      ensures waitingForIdr == (old(waitingForIdr) || resetNeeded)
    {
      if epoch != jobEpoch {
        return false;
      }
      inFlight := if inFlight > 0 then inFlight - 1 else 0;
      if !ok {
        waitingForIdr := true;
      }
      return !ok;
    }
  }

  // What every reachable decoder satisfies

  ghost predicate DecoderOk(d: DecoderState) {
    && d.inFlight <= 2
    && (d.session.Some? ==> d.sets.sps != [] && d.sets.pps != [])
    && (!d.waiting ==> d.session.Some?)
  }

  lemma {:induction false} ScanKeepsSets(s: Stored, nals: seq<Bytes>)
    ensures s.sps != [] ==> ScanSets(s, nals).0.sps != []
    ensures s.pps != [] ==> ScanSets(s, nals).0.pps != []
    ensures !ScanSets(s, nals).1 ==> ScanSets(s, nals).0 == s
    ensures HasKind(nals, SPS) ==> ScanSets(s, nals).0.sps != []
    ensures HasKind(nals, PPS) ==> ScanSets(s, nals).0.pps != []
    ensures !HasKind(nals, SPS) && !HasKind(nals, PPS) ==> !ScanSets(s, nals).1
    decreases |nals|
  {
    if nals != [] {
      var k := |nals| - 1;
      ScanKeepsSets(s, nals[..k]);
      assert nals == nals[..k] + [nals[k]];
    }
  }

  lemma DecodeKeeps(d: DecoderState, data: Bytes, env: Native)
    requires DecoderOk(d)
    ensures DecoderOk(DecodeSpec(d, data, env).state)
  {
    hide Units, HasKind, ScanSets;
    if d.inFlight < 2 && Nals(data).Ok? {
      ScanKeepsSets(d.sets, Nals(data).value);
    }
  }

  /** A unit without an IDR that brings a changed parameter set to a decoder in mid-stream. */
  predicate SilentSkip(d: DecoderState, data: Bytes) {
    && d.inFlight < 2 && !d.waiting && Nals(data).Ok?
    && !HasKind(Nals(data).value, IDR) && ScanSets(d.sets, Nals(data).value).1
  }

  /**
   The decoder drops a unit without then waiting for an IDR exactly on a silent skip; in every
   other case an unsubmitted unit leaves it waiting.
   */
  lemma SkipWithoutWaiting(d: DecoderState, data: Bytes, env: Native)
    requires DecoderOk(d)
    ensures var r := DecodeSpec(d, data, env);
            !r.submitted && !r.state.waiting <==> SilentSkip(d, data)
  {
    hide Units, HasKind, ScanSets;
    if d.inFlight < 2 && Nals(data).Ok? {
      ScanKeepsSets(d.sets, Nals(data).value);
    }
  }

  /** Some unit of the kind is not the set stored. */
  ghost predicate Brings(stored: Bytes, nals: seq<Bytes>, kind: int) {
    exists n | n in nals :: IsOf(n, kind) && n != stored
  }

  /** A scan finds the sets last seen, and tells whether any differed from those stored. */
  lemma {:induction false} ScanExactly(s: Stored, nals: seq<Bytes>)
    ensures var (t, changed) := ScanSets(s, nals);
            && LastOf(s.sps, nals, 7, t.sps) && LastOf(s.pps, nals, 8, t.pps)
            && (changed <==> Brings(s.sps, nals, 7) || Brings(s.pps, nals, 8))
  {
    ScanFinds(s, nals);
    LastIsLast(s.sps, nals, SPS);
    LastIsLast(s.pps, nals, PPS);
    hide LastOf, Last, ScanSets, Brings;
  }

  lemma {:induction false} ScanFinds(s: Stored, nals: seq<Bytes>)
    ensures var (t, changed) := ScanSets(s, nals);
            && t == Absorb(s, nals)
            && (changed <==> Brings(s.sps, nals, 7) || Brings(s.pps, nals, 8))
            && (!changed ==> t == s)
    decreases |nals|
  {
    if nals != [] {
      var k := |nals| - 1;
      ScanFinds(s, nals[..k]);
      assert nals == nals[..k] + [nals[k]];
      OneMore(s.sps, nals, 7);
      OneMore(s.pps, nals, 8);
      hide Brings;
    }
  }

  lemma OneMore(stored: Bytes, nals: seq<Bytes>, kind: int)
    requires nals != []
    ensures var k := |nals| - 1;
            Brings(stored, nals, kind) <==>
            Brings(stored, nals[..k], kind) || (IsOf(nals[k], kind) && nals[k] != stored)
  {
    var k := |nals| - 1;
    assert nals == nals[..k] + [nals[k]];
    assert nals[k] in nals && forall n | n in nals[..k] :: n in nals;
  }

  /**
   For which units a keyframe is asked for, and which go to the hardware. A full decoder and an unreadable unit
   ask. A unit without an IDR asks of a decoder that is not waiting if it brings a set that is not the one stored;
   while waiting it is dropped without asking. An IDR asks if a session has to be made and a set is lacking.
   Otherwise the native calls decide.
   */
  lemma KeyframeAsked(d: DecoderState, data: Bytes, env: Native)
    requires DecoderOk(d)
    ensures var r := DecodeSpec(d, data, env);
            if d.inFlight >= 2 || Nals(data).Err? then r.resetNeeded && !r.submitted
            else
              var nals := Nals(data).value;
              var brings := Brings(d.sets.sps, nals, 7) || Brings(d.sets.pps, nals, 8);
              if !(exists n | n in nals :: IsOf(n, 5)) then
                if d.waiting then !r.resetNeeded && !r.submitted
                else if brings then r.resetNeeded && !r.submitted
                else r.submitted == env.sampled && r.resetNeeded == !(env.sampled && env.submitted)
              else if !brings && d.session.Some? then
                r.submitted == env.sampled && r.resetNeeded == !(env.sampled && env.submitted)
              else if (d.sets.sps == [] && !(exists n | n in nals :: IsOf(n, 7)))
                      || (d.sets.pps == [] && !(exists n | n in nals :: IsOf(n, 8))) then
                r.resetNeeded && !r.submitted
              else
                && r.submitted == (env.configured && env.sampled)
                && r.resetNeeded == !(env.configured && env.sampled && env.submitted)
  {
    hide Units, HasKind, ScanSets, IsOf, Brings;
    if d.inFlight < 2 && Nals(data).Ok? {
      var nals := Nals(data).value;
      ScanFinds(d.sets, nals);
      KindsOccur(nals);
      LastEmpty(d.sets.sps, nals, SPS);
      LastEmpty(d.sets.pps, nals, PPS);
      hide Last, Nals;
    }
  }

  lemma {:induction false} LastEmpty(before: Bytes, nals: seq<Bytes>, kind: int)
    ensures Last(before, nals, kind) == [] <==> before == [] && !HasKind(nals, kind)
    decreases |nals|
  {
    if nals != [] {
      var k := |nals| - 1;
      LastEmpty(before, nals[..k], kind);
      assert nals == nals[..k] + [nals[k]];
    }
  }

  /** The native session was created with the sets last seen. */
  ghost predicate SessionCurrent(d: DecoderState) {
    d.session.Some? ==> d.session.value == d.sets
  }

  /** The sets seen in this unit differ from the session's, and there is no IDR to recreate it. */
  predicate SetsWithoutIdr(d: DecoderState, data: Bytes) {
    && d.inFlight < 2 && d.session.Some? && Nals(data).Ok?
    && !HasKind(Nals(data).value, IDR) && ScanSets(d.sets, Nals(data).value).0 != d.sets
  }

  /** The session stays current exactly when sets do not change without an IDR. */
  lemma SessionStaysCurrent(d: DecoderState, data: Bytes, env: Native)
    requires DecoderOk(d) && SessionCurrent(d)
    ensures SessionCurrent(DecodeSpec(d, data, env).state) <==> !SetsWithoutIdr(d, data)
  {
    hide Units, HasKind, ScanSets;
    if d.inFlight < 2 && Nals(data).Ok? {
      ScanKeepsSets(d.sets, Nals(data).value);
    }
  }

  /** Every keyframe the host prepares lets a freshly reset decoder create its session and submit. */
  lemma KeyframeRestarts(s: Stored, d: Bytes, dec: DecoderState)
    requires StoredOk(s) && PrepareSpec(s, d).1.Ok? && PrepareSpec(s, d).1.value.keyframe
    requires Repeatable(Missing(PrepareSpec(s, d).0, Units(d).value), d)
    ensures var r := DecodeSpec(ResetSpec(dec), PrepareSpec(s, d).1.value.data, Native(true, true, true));
            r.submitted && !r.state.waiting && r.state.session == Some(r.state.sets)
  {
    hide Units, PrepareSpec, Repeatable, HasKind, ScanSets, StoredOk, Missing;
    KeyframeAgrees(s, d);
    var nals := Nals(PrepareSpec(s, d).1.value.data).value;
    ScanKeepsSets(Stored([], []), nals);
  }

  // Jobs in flight

  datatype JobEvent = Offer(data: Bytes, env: Native) | Done(epoch: nat, ok: bool) | Restart

  /** The decoder, and the epochs of the jobs the hardware still has. */
  datatype Jobs = Jobs(decoder: DecoderState, outstanding: multiset<nat>)

  /** A job that the hardware does not have does not complete. */
  function JobStep(j: Jobs, e: JobEvent): Jobs {
    match e
    case Offer(data, env) =>
      var r := DecodeSpec(j.decoder, data, env);
      Jobs(r.state, if r.submitted && !r.resetNeeded then j.outstanding + multiset{r.state.epoch} else j.outstanding)
    case Done(epoch, ok) =>
      if epoch !in j.outstanding then j
      else Jobs(CompletedSpec(j.decoder, epoch, ok), j.outstanding - multiset{epoch})
    case Restart => j.(decoder := ResetSpec(j.decoder))
  }

  function JobsAfter(es: seq<JobEvent>): Jobs {
    if es == [] then Jobs(NEW_DECODER, multiset{}) else JobStep(JobsAfter(es[..|es| - 1]), es[|es| - 1])
  }

  /** The counter is the number of jobs of this epoch that the hardware still has, at most two. */
  ghost predicate Counted(j: Jobs) {
    && j.decoder.inFlight == j.outstanding[j.decoder.epoch] <= 2
    && forall e | e in j.outstanding :: e <= j.decoder.epoch
  }

  lemma OfferCounted(j: Jobs, data: Bytes, env: Native)
    requires Counted(j)
    ensures Counted(JobStep(j, Offer(data, env)))
  {
    hide Nals, HasKind, ScanSets;
    assert j.outstanding[j.decoder.epoch + 1] == 0 && j.outstanding[j.decoder.epoch + 2] == 0;
  }

  lemma DoneCounted(j: Jobs, epoch: nat, ok: bool)
    requires Counted(j)
    ensures Counted(JobStep(j, Done(epoch, ok)))
  {
    hide DecodeSpec;
  }

  /**
   Over every run of decoding, completions in any order and resets, the in-flight counter is exact for its
   epoch, so it never has to be kept from going below zero.
   */
  lemma {:induction false} InFlightExact(es: seq<JobEvent>)
    ensures Counted(JobsAfter(es))
  {
    if es != [] {
      var j := JobsAfter(es[..|es| - 1]);
      InFlightExact(es[..|es| - 1]);
      hide DecodeSpec, JobsAfter;
      match es[|es| - 1]
      case Offer(data, env) => hide Counted; OfferCounted(j, data, env);
      case Done(epoch, ok) => hide Counted; DoneCounted(j, epoch, ok);
      case Restart => assert j.outstanding[j.decoder.epoch + 1] == 0;
    }
  }
}
