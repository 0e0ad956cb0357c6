/** Encoded frames and the fragments that carry them in datagrams. */
module Fragments {
  import opened Base

  const MAX_FRAGMENT: nat := 1100
  const MAX_FRAGMENTS: nat := 4096

  datatype VideoFrame = VideoFrame(
    generation: u32, frameId: u64, captureTimestamp: u64, encodeTimestamp: u64,
    sendTimestamp: u64, keyframe: u8, data: Bytes)

  datatype VideoFragment = VideoFragment(
    generation: u32, frameId: u64, captureTimestamp: u64, encodeTimestamp: u64,
    sendTimestamp: u64, keyframe: u8, index: u16, count: u16, totalBytes: u32, data: Bytes)

  /** A frame and the chunk size it is cut with. */
  datatype Cut = Cut(frame: VideoFrame, chunk: nat)

  function DivCeil(a: nat, b: nat): nat
    requires b > 0
  {
    (a + b - 1) / b
  }

  /** What `send_frame` checks before it sends anything. */
  predicate Sendable(c: Cut) {
    && 1 <= c.chunk <= MAX_FRAGMENT
    && |c.frame.data| <= MAX_FRAME
    && 1 <= DivCeil(|c.frame.data|, c.chunk) <= MAX_FRAGMENTS
  }

  function Count(c: Cut): nat
    requires c.chunk > 0
  {
    DivCeil(|c.frame.data|, c.chunk)
  }

  /** The number of bytes in the first `i` chunks. */
  function Offset(c: Cut, i: nat): nat {
    if i * c.chunk <= |c.frame.data| then i * c.chunk else |c.frame.data|
  }

  lemma OffsetStep(c: Cut, i: nat)
    requires Sendable(c) && i < Count(c)
    ensures Offset(c, i) < Offset(c, i + 1) <= Offset(c, i) + c.chunk
    ensures Offset(c, i) == i * c.chunk
    ensures i + 1 == Count(c) ==> Offset(c, i + 1) == |c.frame.data|
  {
    var n, b := |c.frame.data|, c.chunk;
    var q := DivCeil(n, b);
    assert q * b <= n + b - 1 < (q + 1) * b;
    assert i * b <= (q - 1) * b == q * b - b < n;
    assert (i + 1) * b == i * b + b;
  }

  /** Chunk `i` of the frame's bytes. */
  function Chunk(c: Cut, i: nat): Bytes
    requires Sendable(c) && i < Count(c)
  {
    OffsetStep(c, i);
    c.frame.data[Offset(c, i)..Offset(c, i + 1)]
  }

  /** Fragment `i` of a frame, stamped with the time it is sent. */
  function Fragment(c: Cut, i: nat, sent: u64): VideoFragment
    requires Sendable(c) && i < Count(c)
  {
    var f := c.frame;
    VideoFragment(f.generation, f.frameId, f.captureTimestamp, f.encodeTimestamp, sent, f.keyframe,
                  i, Count(c), |f.data|, Chunk(c, i))
  }

  /** The frames sent so far, each under its own id, with the encoder's keyframe flag. */
  ghost predicate Sent(cuts: map<u64, Cut>) {
    forall id | id in cuts :: Sendable(cuts[id]) && cuts[id].frame.frameId == id && cuts[id].frame.keyframe <= 1
  }

  /** `f` is some fragment of some sent frame. */
  ghost predicate Genuine(cuts: map<u64, Cut>, f: VideoFragment)
    requires Sent(cuts)
  {
    && f.frameId in cuts
    && f.index < Count(cuts[f.frameId])
    && f == Fragment(cuts[f.frameId], f.index, f.sendTimestamp)
  }
}
