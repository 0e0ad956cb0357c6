/**
 The exchange ends well: wherever it stands, a few more steps lead to the session, unless something has
 already stopped it.
 */
module Progress {
  import opened Base
  import opened Handshake
  import opened Sessions

  /** How far the host has come. */
  function Rank(pc: HostPc): nat {
    match pc
    case AwaitHello => 0
    case SendVersion => 1
    case SendInfo => 2
    case SendChallenge => 3
    case AwaitAnswer => 4
    case Trusting => 5
    case SendProof => 6
    case AwaitCapabilities => 7
    case SendStart => 8
    case SendEncoder => 9
    case InSession => 10
    case _ => 11
  }

  /** The host does not wait for a packet. */
  predicate Acting(pc: HostPc) {
    !Reading(pc) && Rank(pc) < 10
  }

  /** There is room for a new record where one may be made. */
  predicate HasRoom(w: World, l: Link) {
    |w.devices| < MAX_DEVICES || l.client.trusted.Some? || Rank(l.host.pc) > 5
  }

  /** Nothing has stopped the exchange: neither end has given up, no second proof is under way, and there is room. */
  predicate Ongoing(w: World, l: Link) {
    && w.link == Some(l) && l.client.failure.None? && Rank(l.host.pc) <= 10
    && !Twice(l.clientLog) && HasRoom(w, l)
  }

  /** Which end moves, and how. */
  function NextAction(l: Link, d: Draw): Action {
    if l.clientLog == [] then ClientStarts
    else if Acting(l.host.pc) then HostMoves(d)
    else if l.clientRead < |l.clientLog| then HostReads
    else if l.hostRead < |l.hostLog| then ClientReads(true)
    else EnterCode(l.host.key)
  }

  function Count(l: Link): nat {
    Rank(l.host.pc) + l.hostRead + |l.clientLog|
  }

  predicate Lucky(d: Draw) {
    d.saveOk && d.token != 0
  }

  /** One step forward. */
  ghost predicate Forward(w: World, l: Link, u: World) {
    u.link.Some? && Ongoing(u, u.link.value) && Count(u.link.value) > Count(l)
  }

  lemma CountBound(w: World, l: Link)
    requires LinkOk(w, l) && Ongoing(w, l) && Rank(l.host.pc) < 10
    ensures Count(l) <= 17
  {
    hide HostLogOk, ClientLogOk, InputsOk;
  }

  lemma StartsForward(w: World, l: Link)
    requires LinkOk(w, l) && Ongoing(w, l) && l.clientLog == []
    ensures Forward(w, l, Step(w, ClientStarts))
  {
    hide HostLogOk, ClientLogOk, InputsOk;
  }

  lemma HostTrustsForward(w: World, l: Link, d: Draw)
    requires LinkOk(w, l) && Ongoing(w, l) && l.host.pc.Trusting? && Lucky(d) && l.clientLog != []
    ensures Forward(w, l, Step(w, HostMoves(d)))
  {
    hide HostLogOk, ClientLogOk, InputsOk;
  }

  lemma HostSendsForward(w: World, l: Link, d: Draw)
    requires LinkOk(w, l) && Ongoing(w, l) && Acting(l.host.pc) && !l.host.pc.Trusting? && Lucky(d) && l.clientLog != []
    ensures Forward(w, l, Step(w, HostMoves(d)))
  {
    hide HostLogOk, ClientLogOk, InputsOk, ClientPart;
  }

  lemma HostReadsForward(w: World, l: Link)
    requires LinkOk(w, l) && Ongoing(w, l) && Reading(l.host.pc) && Rank(l.host.pc) < 10 && l.clientRead < |l.clientLog|
    ensures Forward(w, l, Step(w, HostReads))
  {
    HeardByHost(l);
    hide HostLogOk, ClientLogOk, InputsOk;
  }

  lemma ClientPairsForward(w: World, l: Link)
    requires LinkOk(w, l) && Ongoing(w, l) && Rank(l.host.pc) < 10 && l.hostRead < |l.hostLog| && 2 <= l.hostRead < 4
    ensures Forward(w, l, Step(w, ClientReads(true)))
  {
    HeardByClient(l);
    hide HostLogOk, ClientLogOk, InputsOk;
  }

  lemma ClientFollowsForward(w: World, l: Link)
    requires LinkOk(w, l) && Ongoing(w, l) && Rank(l.host.pc) < 10 && l.hostRead < |l.hostLog| && !(2 <= l.hostRead < 4)
    ensures Forward(w, l, Step(w, ClientReads(true)))
  {
    HeardByClient(l);
    hide HostLogOk, ClientLogOk, InputsOk;
  }

  lemma CodeForward(w: World, l: Link)
    requires LinkOk(w, l) && Ongoing(w, l) && Reading(l.host.pc) && Rank(l.host.pc) < 10
    requires l.clientLog != [] && l.clientRead >= |l.clientLog| && l.hostRead >= |l.hostLog|
    ensures Forward(w, l, Step(w, EnterCode(l.host.key)))
  {
    hide HostLogOk, ClientLogOk, InputsOk;
  }

  lemma Advance(w: World, l: Link, d: Draw)
    requires Fine(w) && Ongoing(w, l) && Rank(l.host.pc) < 10 && Lucky(d)
    ensures Count(l) <= 17 && Honest(w, NextAction(l, d)) && Forward(w, l, Step(w, NextAction(l, d)))
  {
    hide LinkOk, Ongoing, Forward, Step;
    OngoingRank(w, l);
    CountBound(w, l);
    if l.clientLog == [] {
      StartsForward(w, l);
    } else if Acting(l.host.pc) {
      if l.host.pc.Trusting? {
        HostTrustsForward(w, l, d);
      } else {
        HostSendsForward(w, l, d);
      }
    } else if l.clientRead < |l.clientLog| {
      HostReadsForward(w, l);
    } else if l.hostRead < |l.hostLog| {
      if 2 <= l.hostRead < 4 {
        ClientPairsForward(w, l);
      } else {
        ClientFollowsForward(w, l);
      }
    } else {
      CodeForward(w, l);
    }
  }

  lemma OneMoreHonest(acts: seq<Action>, a: Action)
    requires AllHonest(acts) && Honest(After(acts), a)
    ensures AllHonest(acts + [a]) && After(acts + [a]) == Step(After(acts), a)
  {
    var more := acts + [a];
    assert more[..|acts|] == acts;
    hide Honest, Step;
    forall i | 0 <= i < |more|
      ensures Honest(After(more[..i]), more[i])
    {
      if i < |acts| {
        assert more[..i] == acts[..i];
      }
    }
  }

  lemma {:induction false} Reach(acts: seq<Action>, l: Link, d: Draw) returns (more: seq<Action>)
    requires AllHonest(acts) && Ongoing(After(acts), l) && Lucky(d)
    ensures AllHonest(acts + more) && |more| <= (if Count(l) <= 18 then 18 - Count(l) else 0)
    ensures After(acts + more).link.Some? && After(acts + more).link.value.host.pc.InSession?
    decreases 18 - Count(l)
  {
    hide *;
    var w := After(acts);
    OngoingRank(w, l);
    if Rank(l.host.pc) == 10 {
      more := [];
      assert acts + [] == acts;
    } else {
      AlwaysFine(acts);
      Advance(w, l, d);
      var a := NextAction(l, d);
      OneMoreHonest(acts, a);
      ForwardParts(w, l, Step(w, a));
      var m := Step(w, a).link.value;
      var rest := Reach(acts + [a], m, d);
      more := [a] + rest;
      assert acts + more == (acts + [a]) + rest;
    }
  }

  lemma ForwardParts(w: World, l: Link, u: World)
    requires Forward(w, l, u)
    ensures u.link.Some? && Ongoing(u, u.link.value) && Count(u.link.value) > Count(l)
  {
  }

  lemma OngoingRank(w: World, l: Link)
    requires Ongoing(w, l)
    ensures w.link == Some(l) && Rank(l.host.pc) <= 10 && (Rank(l.host.pc) == 10 ==> l.host.pc.InSession?)
  {
  }

  /**
   From every reachable state of a connection in which neither end has given up, the code has not been
   entered twice and there is room for the record, at most 18 more steps lead to the session, if keeping
   the secrets succeeds.
   */
  lemma SessionReached(acts: seq<Action>, l: Link, d: Draw) returns (more: seq<Action>)
    requires AllHonest(acts) && After(acts).link == Some(l) && d.saveOk && d.token != 0
    requires !l.host.pc.HostFailed? && !l.host.pc.Ended? && l.client.failure.None? && !Twice(l.clientLog)
    requires |After(acts).devices| < MAX_DEVICES || l.client.trusted.Some?
          || (l.clientRead > 1 && !l.host.pc.Trusting?)
    ensures AllHonest(acts + more) && |more| <= 18
    ensures After(acts + more).link.Some? && After(acts + more).link.value.host.pc.InSession?
  {
    AlwaysFine(acts);
    hide After, AllHonest;
    VerifiedRank(After(acts), l);
    more := Reach(acts, l, d);
  }

  lemma VerifiedRank(w: World, l: Link)
    requires Fine(w) && w.link == Some(l) && !l.host.pc.HostFailed? && !l.host.pc.Ended?
    ensures Rank(l.host.pc) <= 10
    ensures l.clientRead > 1 && !l.host.pc.Trusting? ==> Rank(l.host.pc) > 5
  {
    hide HostLogOk, ClientLogOk, InputsOk, Persistent;
  }
}
