/**
 The host's half of the decodable chain: what its encoders put out, one after the other, prepared and
 numbered on, is a stream of frames that the client can rely on.
 */
module HostStream {
  import opened Base
  import opened Fragments
  import opened ParameterSets
  import opened Decoding
  import opened VideoPath
  import Delivery
  import AnnexB

  /** An access unit of an encoder; `restart` marks the first one of a new encoder. */
  datatype Output = Output(data: Bytes, restart: bool)

  const NOTHING_STORED: Stored := Stored([], [])

  /** The sets stored when unit `i` comes: a new encoder starts with none. */
  function StoredBefore(os: seq<Output>, i: nat): Stored
    requires i < |os|
    decreases i, 1
  {
    if os[i].restart then NOTHING_STORED else StoredAfter(os, i)
  }

  /** The sets stored after the first `n` units. */
  function StoredAfter(os: seq<Output>, n: nat): Stored
    requires n <= |os|
    decreases n, 0
  {
    if n == 0 then NOTHING_STORED else PrepareSpec(StoredBefore(os, n - 1), os[n - 1].data).0
  }

  /**
   What is taken of an encoder's unit `i`: it can be prepared and its repeated sets are scanned back, and
   it is an IDR or, not being the first of its encoder, changes no set.
   */
  ghost predicate OutputOk(os: seq<Output>, i: nat)
    requires i < |os|
  {
    var s, d := StoredBefore(os, i), os[i].data;
    && PrepareSpec(s, d).1.Ok?
    && Repeatable(Missing(PrepareSpec(s, d).0, AnnexB.Units(d).value), d)
    && (HasKind(AnnexB.Units(d).value, IDR) || (!os[i].restart && !ScanSets(s, AnnexB.Units(d).value).1))
  }

  ghost predicate OutputsOk(os: seq<Output>) {
    forall i | 0 <= i < |os| :: OutputOk(os, i)
  }

  /** The sets in force at frame `id`: those stored after unit `id - 1`. Frames are numbered from 1. */
  function SetsOf(os: seq<Output>): Sets {
    map id: u64 | 1 <= id <= |os| :: StoredAfter(os, id)
  }

  /** `v` is the host's frame for unit `v.frameId - 1`. */
  ghost predicate FrameOf(os: seq<Output>, v: VideoFrame)
    requires OutputsOk(os)
  {
    && 1 <= v.frameId <= |os|
    && var i := v.frameId - 1;
       assert OutputOk(os, i);
       var p := PrepareSpec(StoredBefore(os, i), os[i].data).1.value;
       v.data == p.data && v.keyframe == if p.keyframe then 1 else 0
  }

  lemma {:induction false} StoredAlways(os: seq<Output>, n: nat)
    requires n <= |os|
    ensures StoredOk(StoredAfter(os, n)) && (n < |os| ==> StoredOk(StoredBefore(os, n)))
    decreases n
  {
    hide PrepareSpec;
    if n > 0 {
      StoredAlways(os, n - 1);
      PrepareKeepsStored(StoredBefore(os, n - 1), os[n - 1].data);
    }
  }

  /** Each frame of the host keeps the promise that decoding relies on, across new encoders. */
  lemma FrameKeepsPromise(os: seq<Output>, v: VideoFrame)
    requires OutputsOk(os) && FrameOf(os, v)
    ensures HostFrame(SetsOf(os), v)
  {
    hide *;
    var i := FrameParts(os, v);
    StoredAlways(os, i);
    OutputParts(os, i);
    SetsParts(os, v.frameId);
    PreparedKeepsPromise(SetsOf(os), StoredBefore(os, i), os[i].data, v);
  }

  lemma FrameParts(os: seq<Output>, v: VideoFrame) returns (i: nat)
    requires OutputsOk(os) && FrameOf(os, v)
    ensures i < |os| && i == v.frameId - 1 && OutputOk(os, i) && PrepareSpec(StoredBefore(os, i), os[i].data).1.Ok?
    ensures var p := PrepareSpec(StoredBefore(os, i), os[i].data).1.value;
            v.data == p.data && v.keyframe == if p.keyframe then 1 else 0
  {
    i := v.frameId - 1;
    assert OutputOk(os, i);
    hide PrepareSpec, Repeatable, HasKind, ScanSets, AnnexB.Units, Missing;
  }

  lemma OutputParts(os: seq<Output>, i: nat)
    requires i < |os| && OutputOk(os, i)
    ensures PrepareSpec(StoredBefore(os, i), os[i].data).1.Ok?
    ensures Repeatable(Missing(PrepareSpec(StoredBefore(os, i), os[i].data).0, AnnexB.Units(os[i].data).value),
            os[i].data)
    ensures HasKind(AnnexB.Units(os[i].data).value, IDR)
         || (!os[i].restart && !ScanSets(StoredBefore(os, i), AnnexB.Units(os[i].data).value).1)
  {
    hide PrepareSpec, Repeatable, HasKind, ScanSets, AnnexB.Units, Missing, StoredBefore;
  }

  lemma SetsParts(os: seq<Output>, id: u64)
    requires 1 <= id <= |os|
    ensures id in SetsOf(os) && SetsOf(os)[id] == PrepareSpec(StoredBefore(os, id - 1), os[id - 1].data).0
    ensures !os[id - 1].restart && id - 1 in SetsOf(os) ==> SetsOf(os)[id - 1] == StoredBefore(os, id - 1)
  {
    hide PrepareSpec;
  }

  /** The frames sent are frames of the host. */
  ghost predicate FromHost(cuts: map<u64, Cut>, os: seq<Output>)
    requires OutputsOk(os)
  {
    Sent(cuts) && forall id | id in cuts :: FrameOf(os, cuts[id].frame)
  }

  /**
   Decodability from end to end. The encoders' units, prepared, numbered and cut, of which any datagrams are
   lost, repeated or reordered, through any generation changes, job failures and restarts of either side:
   each unit that reaches the hardware decoder is an IDR or directly follows the one before it.
   */
  lemma StreamDecodable(os: seq<Output>, cuts: map<u64, Cut>, es: seq<ClientEvent>)
    requires OutputsOk(os) && FromHost(cuts, os)
    requires forall i | 0 <= i < |es| && es[i].Datagram? :: Genuine(cuts, es[i].f)
    ensures HostFrames(cuts, SetsOf(os)) && Chained(ClientAfter(es).log)
  {
    hide HostFrame, FrameOf, OutputsOk, SetsOf, Genuine, ClientAfter, Chained;
    forall id | id in cuts
      ensures HostFrame(SetsOf(os), cuts[id].frame)
    {
      FrameKeepsPromise(os, cuts[id].frame);
    }
    AlwaysDecodable(cuts, SetsOf(os), es);
  }
}
