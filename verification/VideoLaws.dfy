/**
 What a poll of the client's video path does, told from the frames it hands out: each goes to the decoder, in
 order, and afterwards nothing is ready or too old.
 */
module VideoLaws {
  import opened Base
  import opened Fragments
  import opened Assembly
  import opened Decoding
  import opened VideoPath

  /** Polling again and again hands out these frames and leaves the assembler at `t`, with nothing more to hand out. */
  ghost predicate HandsOut(s: State, frames: seq<VideoFrame>, t: State, now: u64)
    decreases |frames|
  {
    var n := NextSpec(s, now);
    if frames == [] then n.frame.None? && t == n.state
    else n.frame.Some? && n.frame.value.video == frames[0] && HandsOut(n.state, frames[1..], t, now)
  }

  /** The decoder, its submissions, and whether it has asked for a keyframe. */
  datatype Fed = Fed(decoder: DecoderState, log: seq<Submission>, asked: bool)

  /** Feeds the frames to the decoder, each with its own native outcomes. */
  function Feed(f: Fed, frames: seq<VideoFrame>, natives: seq<Native>): Fed
    decreases |frames|
  {
    if frames == [] then f
    else
      var v := frames[0];
      var r := DecodeSpec(f.decoder, v.data, if natives == [] then Native(true, true, true) else natives[0]);
      var log := if r.submitted then f.log + [Submission(v.generation, v.frameId, IsIdr(v.data))] else f.log;
      Feed(Fed(r.state, log, f.asked || r.resetNeeded), frames[1..], if natives == [] then [] else natives[1..])
  }

  lemma {:induction false} DrainFeeds(c: Client, now: u64, natives: seq<Native>, asked: bool)
    returns (frames: seq<VideoFrame>)
    ensures var t := Drain(c, now, natives);
            && HandsOut(c.assembler, frames, t.assembler, now) && t.generation == c.generation
            && Feed(Fed(c.decoder, c.log, asked), frames, natives)
               == Fed(t.decoder, t.log, asked || Resets(c, now, natives))
    decreases |c.assembler.frames|
  {
    var n := NextSpec(c.assembler, now);
    NextShrinks(c.assembler, Ids(c.assembler), now);
    assert n.frame.Some? ==> |n.state.frames| < |c.assembler.frames|;
    hide NextSpec, DecodeSpec, IsIdr;
    if n.frame.None? {
      frames := [];
    } else {
      var v := n.frame.value.video;
      var t := Consume(c.(assembler := n.state), v, First(natives));
      var rest := DrainFeeds(t, now, Rest(natives),
                             asked || DecodeSpec(c.decoder, v.data, First(natives)).resetNeeded);
      frames := [v] + rest;
      assert frames[1..] == rest;
    }
  }

  lemma {:induction false} HandedLeaves(s: State, frames: seq<VideoFrame>, t: State, now: u64)
    requires HandsOut(s, frames, t, now)
    ensures t.frames.Keys <= s.frames.Keys
    decreases |frames|
  {
    NextShrinks(s, Ids(s), now);
    hide NextOver;
    if frames != [] {
      HandedLeaves(NextSpec(s, now).state, frames[1..], t, now);
    }
  }

  /**
   A poll feeds the decoder every frame that is handed out, in order, and asks for a keyframe on the decoder's
   behalf exactly if it asked for one. What is left of the assemblies is not late.
   */
  lemma ConsumeLaw(c: Client, now: u64, natives: seq<Native>) returns (frames: seq<VideoFrame>)
    ensures var t := ConsumeFrames(c, now, natives);
            var e := Expired(c.assembler, now);
            && HandsOut(e, frames, t.assembler, now) && t.generation == c.generation
            && Feed(Fed(c.decoder, c.log, false), frames, natives)
               == Fed(t.decoder, t.log, Resets(c.(assembler := e), now, natives))
            && (forall id | id in t.assembler.frames :: id in c.assembler.frames && id !in Late(c.assembler, now))
  {
    var e := Expired(c.assembler, now);
    ExpiredExactly(c.assembler, now);
    hide *;
    ConsumeParts(c, now, natives);
    frames := DrainFeeds(c.(assembler := e), now, natives, false);
    HandedLeaves(e, frames, Drain(c.(assembler := e), now, natives).assembler, now);
  }
}
