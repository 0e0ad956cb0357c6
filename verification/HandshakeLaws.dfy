/**
 Which packets each end of the exchange takes, whoever sends them, and what it does with them; and what the host
 has taken and said after any packets at all.
 */
module HandshakeLaws {
  import opened Base
  import opened Handshake

  // The host

  /** The host waits for a packet. */
  predicate Waits(pc: HostPc) {
    pc.AwaitHello? || pc.AwaitAnswer? || pc.AwaitCapabilities? || pc.InSession?
  }

  /** The packet's kind is the one waited for. */
  predicate RightKind(pc: HostPc, b: Body) {
    match pc
    case AwaitHello => b.Hello?
    case AwaitAnswer => b.Pairing?
    case AwaitCapabilities => b.Capabilities?
    case InSession => b.SessionStop? || b.KeyframeRequest? || b.Statistics? || b.Ping?
    case _ => false
  }

  /** The answer to this challenge: phase, nonce and proof are those asked for, and there is no secret in it. */
  predicate Answers(h: Host, b: Body) {
    b == Pairing(2, h.nonce, Some(Proof(h.key, h.client, h.nonce, 1)), None)
  }

  /**
   The host takes a packet exactly if it is newer than any before, of its session, and what it waits for. For each
   other there is one error; the number is looked at first outside a session, and the session first within.
   */
  lemma HostTakes(h: Host, p: Packet)
    requires Waits(h.pc)
    ensures var g := HostReceives(h, p).0;
            var later, ours, b := p.sequence > h.guard, p.session == h.session, p.body;
            && (!g.pc.HostFailed? <==>
                && later && ours && RightKind(h.pc, b)
                && (h.pc.AwaitHello? ==> b.min <= 1 <= b.max) && (h.pc.AwaitAnswer? ==> Answers(h, b)))
            && (g.pc == HostFailed(Replayed) <==> !later && (h.pc.InSession? ==> ours))
            && (g.pc == HostFailed(WrongSession) <==> !ours && (!h.pc.InSession? ==> later))
            && (g.pc == HostFailed(WrongKind) <==> later && ours && !RightKind(h.pc, b))
            && (g.pc == HostFailed(NoVersion) <==>
                && later && ours && h.pc.AwaitHello? && b.Hello? && !(b.min <= 1 <= b.max))
            && (g.pc == HostFailed(BadAnswer) <==>
                && later && ours && h.pc.AwaitAnswer? && b.Pairing?
                && !(b.phase == 2 && b.nonce == h.nonce && b.secret == None))
            && (g.pc == HostFailed(BadProof) <==>
                && later && ours && h.pc.AwaitAnswer? && b.Pairing? && b.phase == 2 && b.nonce == h.nonce
                && b.secret == None && !Answers(h, b))
  {
  }

  /**
   What a packet taken changes: the guard, where the host goes on, and what it has learnt; only a ping
   is answered.
   */
  lemma HostGoesOn(h: Host, p: Packet)
    requires Waits(h.pc) && !HostReceives(h, p).0.pc.HostFailed?
    ensures var (g, sent) := HostReceives(h, p);
            && (h.pc.AwaitHello? ==>
                  g == h.(guard := p.sequence, pc := SendVersion, client := p.body.client,
                    trustedFlag := p.body.trusted))
            && (h.pc.AwaitAnswer? ==>
                  g == h.(guard := p.sequence, pc := Trusting, verified := Some(Proof(h.key, h.client, h.nonce, 1))))
            && (h.pc.AwaitCapabilities? ==> g == h.(guard := p.sequence, pc := SendStart))
            && (h.pc.InSession? ==>
                  g == h.(guard := p.sequence, pc := if p.body.SessionStop? then Ended else InSession,
                          sequence := if p.body.Ping? then h.sequence + 1 else h.sequence))
            && sent == if h.pc.InSession? && p.body.Ping? then Some(Packet(h.sequence + 1, h.session, Pong)) else None
  {
  }

  /**
   The first challenge draws a code to be entered; a client on record that says so is asked for its
   secret instead.
   */
  lemma HostAsks(h: Host, devices: map<nat, nat>, disk: map<nat, nat>, d: Draw)
    requires h.pc.SendChallenge? && h.trustedFlag <= 1
    ensures var t := HostActs(h, devices, disk, d);
            && t.host.pc.AwaitAnswer? && t.host.nonce == d.nonce && (t.devices, t.disk) == (devices, disk)
            && (t.host.isNew <==> h.trustedFlag == 0 || h.client !in devices)
            && t.host.key == (if t.host.isNew then d.code else devices[h.client])
            && t.sent == Some(Packet(h.sequence + 1, h.session,
                                     Pairing(if t.host.isNew then 0 else 1, d.nonce, None, None)))
  {
  }

  /** A new client gets a secret of its own, on record before it is told; a known one keeps its secret. */
  lemma HostRecordsSecret(h: Host, devices: map<nat, nat>, disk: map<nat, nat>, d: Draw)
    requires h.pc.Trusting?
    ensures var t := HostActs(h, devices, disk, d);
            && t.sent == None
            && (!h.isNew ==> t.host.pc.SendProof? && t.host.secret == h.key && (t.devices, t.disk) == (devices, disk))
            && (h.isNew ==>
                  && (t.host.pc.SendProof? <==> |devices| < 64 && d.saveOk) && t.host.secret == d.secret
                  && t.devices == (if |devices| < 64 then devices[h.client := d.secret] else devices)
                  && t.disk == (if |devices| < 64 && d.saveOk then devices[h.client := d.secret] else disk)
                  && (t.host.pc == HostFailed(DeviceLimit) <==> |devices| >= 64))
  {
  }

  /** The session begins under the token drawn, with the pipeline connected; each new configuration is told at once. */
  lemma HostStarts(h: Host, devices: map<nat, nat>, disk: map<nat, nat>, d: Draw)
    ensures var t := HostActs(h, devices, disk, d);
            && (h.pc.SendStart? ==>
                  && t.host == h.(connected := true, session := d.token, sequence := h.sequence + 1, pc := SendEncoder)
                  && t.sent == Some(Packet(h.sequence + 1, d.token, SessionStart)))
            && (h.pc.InSession? ==>
                  && t.host == h.(sequence := h.sequence + 1)
                  && t.sent == Some(Packet(h.sequence + 1, h.session, VideoConfig(d.generation))))
            && (h.pc.SendStart? || h.pc.InSession? ==> (t.devices, t.disk) == (devices, disk))
  {
  }

  // Any packets at all

  datatype HostEvent = Gets(p: Packet) | Moves(devices: map<nat, nat>, disk: map<nat, nat>, d: Draw)

  /** The host with the packets it has taken and those it has sent. */
  datatype HostRun = HostRun(host: Host, taken: seq<Packet>, sent: seq<Packet>)

  function Said(sent: seq<Packet>, p: Option<Packet>): seq<Packet> {
    if p.Some? then sent + [p.value] else sent
  }

  function HostStep(r: HostRun, e: HostEvent): HostRun {
    match e
    case Gets(p) =>
      if !Waits(r.host.pc) then r
      else
        var (g, sent) := HostReceives(r.host, p);
        HostRun(g, if g.pc.HostFailed? then r.taken else r.taken + [p], Said(r.sent, sent))
    case Moves(devices, disk, d) =>
      if r.host.pc.HostFailed? then r
      else
        var t := HostActs(r.host, devices, disk, d);
        r.(host := t.host, sent := Said(r.sent, t.sent))
  }

  function HostAfter(es: seq<HostEvent>): HostRun {
    if es == [] then HostRun(NEW_HOST, [], []) else HostStep(HostAfter(es[..|es| - 1]), es[|es| - 1])
  }

  /** The host has taken nothing but a greeting, the answer to its challenge, capabilities, and then session packets. */
  ghost predicate TookOnly(r: HostRun) {
    var h, taken := r.host, r.taken;
    && (|taken| > 0 ==> taken[0].body.Hello? && taken[0].body.min <= 1 <= taken[0].body.max
                        && taken[0].body.client == h.client)
    && (|taken| > 1 ==> Answers(h, taken[1].body))
    && (|taken| > 2 ==> taken[2].body.Capabilities?)
    && (forall i | 0 <= i < |taken| && i < 3 :: taken[i].session == 0)
    && (forall i | 3 <= i < |taken| :: taken[i].session == h.session && RightKind(InSession, taken[i].body))
    && (forall i, j | 0 <= i < j < |taken| && (j < 3 || i >= 3) :: taken[i].sequence < taken[j].sequence)
  }

  /**
   The host has sent its six packets in order, each with what it stands for, and behind them
   configurations and pongs.
   */
  ghost predicate SentOnly(r: HostRun) {
    var h, sent := r.host, r.sent;
    && (|sent| > 0 ==> sent[0].body == Version(1))
    && (|sent| > 1 ==> sent[1].body == HostInfo(HOST_ID))
    && (|sent| > 2 ==> sent[2].body == Pairing(if h.isNew then 0 else 1, h.nonce, None, None))
    && (|sent| > 3 ==> sent[3].body == Pairing(3, h.nonce, Some(Proof(h.key, h.client, h.nonce, 2)),
                                               if h.isNew then Some(h.secret) else None))
    && (|sent| > 4 ==> sent[4].body == SessionStart)
    && (|sent| > 5 ==> sent[5].body == EncoderCapabilities)
    && (forall i | 6 <= i < |sent| :: sent[i].body.VideoConfig? || sent[i].body.Pong?)
    && (forall i | 0 <= i < |sent| :: Stamped(h, i, sent[i]))
  }

  /** Numbered from 1 under no session up to the proof, then under the session's; the video stream numbers from 11. */
  ghost predicate Stamped(h: Host, i: nat, p: Packet) {
    && p.sequence == (if i < 6 then i + 1 else i + 5)
    && p.session == (if i < 4 then 0 else h.session)
  }

  /** How far the host is. */
  ghost predicate Progress(r: HostRun) {
    var n, k := |r.taken|, |r.sent|;
    match r.host.pc
    case AwaitHello => n == 0 && k == 0
    case SendVersion => n == 1 && k == 0
    case SendInfo => n == 1 && k == 1
    case SendChallenge => n == 1 && k == 2
    case AwaitAnswer => n == 1 && k == 3
    case Trusting => n == 2 && k == 3
    case SendProof => n == 2 && k == 3
    case AwaitCapabilities => n == 2 && k == 4
    case SendStart => n == 3 && k == 4
    case SendEncoder => n == 3 && k == 5
    case InSession => n >= 3 && k >= 6
    case Ended => n >= 4 && k >= 6
    case HostFailed(_) => (k >= 4 ==> n >= 2) && (k >= 5 ==> n >= 3)
  }

  /** The host's own counters. */
  ghost predicate Counting(r: HostRun) {
    var h, n, k := r.host, |r.taken|, |r.sent|;
    && (!h.pc.HostFailed? ==> h.sequence == if h.pc.InSession? || h.pc.Ended? then k + 4 else k)
    && (k < 5 ==> h.session == 0)
    && (h.connected <==> k >= 5)
    && (!h.pc.InSession? && !h.pc.Ended? && !h.pc.HostFailed? ==>
          forall i | 0 <= i < n :: r.taken[i].sequence <= h.guard)
    && (h.pc.InSession? ==> forall i | 3 <= i < n :: r.taken[i].sequence <= h.guard)
    && (h.verified.Some? ==> n >= 2)
  }

  ghost predicate Guarded(r: HostRun) {
    TookOnly(r) && SentOnly(r) && Progress(r) && Counting(r)
  }

  lemma StepGuarded(r: HostRun, e: HostEvent)
    requires Guarded(r)
    ensures Guarded(HostStep(r, e))
  {
    match e
    case Gets(p) =>
      if Waits(r.host.pc) {
        GetsGuarded(r, p);
      }
    case Moves(devices, disk, d) =>
      if !r.host.pc.HostFailed? {
        MovesGuarded(r, devices, disk, d);
      }
  }

  lemma GetsGuarded(r: HostRun, p: Packet)
    requires Guarded(r) && Waits(r.host.pc)
    ensures Guarded(HostStep(r, Gets(p)))
  {
    if HostReceives(r.host, p).0.pc.HostFailed? {
      RefusedGuarded(r, p);
    } else {
      TakenGuarded(r, p);
      SaidGuarded(r, p);
      CountedOn(r, p);
    }
  }

  lemma RefusedGuarded(r: HostRun, p: Packet)
    requires Guarded(r) && Waits(r.host.pc) && HostReceives(r.host, p).0.pc.HostFailed?
    ensures Guarded(HostStep(r, Gets(p)))
  {
    RefusedSame(r.host, p);
    hide HostReceives, Guarded;
    FailedGuarded(r, HostReceives(r.host, p).0);
  }

  lemma RefusedSame(h: Host, p: Packet)
    requires Waits(h.pc) && HostReceives(h, p).0.pc.HostFailed?
    ensures var (g, sent) := HostReceives(h, p); g == h.(pc := g.pc, guard := g.guard) && sent == None
  {
  }

  lemma FailedGuarded(r: HostRun, g: Host)
    requires Guarded(r) && Waits(r.host.pc) && g == r.host.(pc := g.pc, guard := g.guard) && g.pc.HostFailed?
    ensures Guarded(HostRun(g, r.taken, r.sent))
  {
    var t := HostRun(g, r.taken, r.sent);
    assert TookOnly(t);
    hide TookOnly, RightKind;
    assert SentOnly(t);
    hide SentOnly;
  }

  lemma TakenGuarded(r: HostRun, p: Packet)
    requires Guarded(r) && Waits(r.host.pc) && !HostReceives(r.host, p).0.pc.HostFailed?
    ensures TookOnly(HostStep(r, Gets(p)))
  {
    HostTakes(r.host, p);
    HostGoesOn(r.host, p);
    hide HostReceives, SentOnly;
    var t := HostStep(r, Gets(p));
    assert t.taken == r.taken + [p];
    forall i, j | 0 <= i < j < |t.taken| && (j < 3 || i >= 3)
      ensures t.taken[i].sequence < t.taken[j].sequence
    {
      if j < |r.taken| {
        assert r.taken[i].sequence < r.taken[j].sequence;
      }
    }
  }

  lemma SaidGuarded(r: HostRun, p: Packet)
    requires Guarded(r) && Waits(r.host.pc) && !HostReceives(r.host, p).0.pc.HostFailed?
    ensures SentOnly(HostStep(r, Gets(p)))
  {
    HostGoesOn(r.host, p);
    hide HostReceives, TookOnly;
  }

  lemma CountedOn(r: HostRun, p: Packet)
    requires Guarded(r) && Waits(r.host.pc) && !HostReceives(r.host, p).0.pc.HostFailed?
    ensures Progress(HostStep(r, Gets(p))) && Counting(HostStep(r, Gets(p)))
  {
    HostTakes(r.host, p);
    HostGoesOn(r.host, p);
    hide HostReceives, TookOnly, SentOnly, RightKind, Answers;
  }

  lemma MovesGuarded(r: HostRun, devices: map<nat, nat>, disk: map<nat, nat>, d: Draw)
    requires Guarded(r) && !r.host.pc.HostFailed?
    ensures Guarded(HostStep(r, Moves(devices, disk, d)))
  {
    MovesTook(r, devices, disk, d);
    MovesSaid(r, devices, disk, d);
    MovesCounted(r, devices, disk, d);
  }

  lemma MovesTook(r: HostRun, devices: map<nat, nat>, disk: map<nat, nat>, d: Draw)
    requires Guarded(r) && !r.host.pc.HostFailed?
    ensures TookOnly(HostStep(r, Moves(devices, disk, d)))
  {
    hide SentOnly, Counting, Said, RightKind;
    var t := HostStep(r, Moves(devices, disk, d));
    assert t.taken == r.taken;
  }

  lemma MovesSaid(r: HostRun, devices: map<nat, nat>, disk: map<nat, nat>, d: Draw)
    requires Guarded(r) && !r.host.pc.HostFailed?
    ensures SentOnly(HostStep(r, Moves(devices, disk, d)))
  {
    hide TookOnly, TrustSpec;
  }

  lemma MovesCounted(r: HostRun, devices: map<nat, nat>, disk: map<nat, nat>, d: Draw)
    requires Guarded(r) && !r.host.pc.HostFailed?
    ensures var t := HostStep(r, Moves(devices, disk, d)); Progress(t) && Counting(t)
  {
    hide TookOnly, SentOnly, TrustSpec;
  }

  /** So it is after any packets, whoever sent them: no session starts but behind the right proof. */
  lemma {:induction false} AlwaysGuarded(es: seq<HostEvent>)
    ensures Guarded(HostAfter(es))
  {
    if es != [] {
      AlwaysGuarded(es[..|es| - 1]);
      hide Guarded, HostStep;
      StepGuarded(HostAfter(es[..|es| - 1]), es[|es| - 1]);
    }
  }

  // The client

  /** The packet is of its session: a session's start names a new one, once the pairing is done. */
  predicate OfSession(c: Client, p: Packet) {
    if p.body.SessionStart? then c.configured && p.session != 0 else p.session == c.session
  }

  /** What the client can do something with. */
  predicate Sensible(c: Client, b: Body, saveOk: bool) {
    match b
    case Version(major) => major == 1
    case HostInfo(_) => true
    case Pairing(phase, nonce, proof, secret) =>
      || phase == 0
      || (phase == 1 && c.trusted.Some? && c.hostId == HOST_ID)
      || (phase == 3 && c.nonce == Some(nonce) && proof == Some(Proof(c.pairKey, c.id, nonce, 2))
          && (c.pairingNew ==> secret.Some? && saveOk))
    case SessionStart => true
    case EncoderCapabilities => true
    case VideoConfig(_) => c.configured
    case Pong => true
    case _ => false
  }

  /** The client takes a packet exactly if it is newer than any before, of its session, and sensible. */
  lemma ClientTakes(c: Client, p: Packet, saveOk: bool)
    requires c.failure.None?
    ensures var t := ClientReceives(c, p, saveOk).client;
            var later, b := p.sequence > c.last, p.body;
            && (t.failure.None? <==> later && OfSession(c, p) && Sensible(c, b, saveOk))
            && (t.failure == Some(Replay) <==> !later || (!b.SessionStart? && p.session != c.session))
            && (t.failure == Some(NotSaved) <==>
                && later && OfSession(c, p) && !saveOk && c.pairingNew && b.Pairing? && Sensible(c, b, true)
                && b.phase == 3)
            && (t.failure.Some? ==> ClientReceives(c, p, saveOk).sent.None? && t.trusted == c.trusted
                                    && t.configured == c.configured && t.session == c.session)
  {
  }

  /**
   What a packet taken does: the pairing's phases answer with a proof or with capabilities, the others
   tell something.
   */
  lemma ClientGoesOn(c: Client, p: Packet, saveOk: bool)
    requires c.failure.None? && ClientReceives(c, p, saveOk).client.failure.None?
    ensures var (t, sent) := (ClientReceives(c, p, saveOk).client, ClientReceives(c, p, saveOk).sent);
            var b, d := p.body, c.(last := p.sequence);
            && (b.HostInfo? ==> t == d.(hostId := b.host))
            && (b.SessionStart? ==> t == d.(session := p.session))
            && (b.VideoConfig? ==> t == d.(generation := Some(b.generation), phase := Streaming))
            && (b.Version? || b.EncoderCapabilities? || b.Pong? ==> t == d)
            && (b.Pairing? && b.phase == 0 ==> t == d.(pairingNew := true, nonce := Some(b.nonce), phase := AwaitCode))
            && (b.Pairing? && b.phase == 1 ==>
                  && c.trusted.Some?
                  && t == d.(pairingNew := false, nonce := Some(b.nonce), pairKey := c.trusted.value,
                             sequence := c.sequence + 1)
                  && sent == Some(Packet(c.sequence + 1, c.session,
                                         Pairing(2, b.nonce, Some(Proof(c.trusted.value, c.id, b.nonce, 1)), None))))
            && (b.Pairing? && b.phase == 3 ==>
                  && t == d.(trusted := if c.pairingNew then b.secret else c.trusted, pairKey := 0, configured := true,
                             phase := Connecting, verified := b.proof, sequence := c.sequence + 1)
                  && sent == Some(Packet(c.sequence + 1, c.session, Capabilities)))
            && (!b.Pairing? || b.phase == 0 ==> sent == None)
  {
  }
}
