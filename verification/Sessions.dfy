/**
 Runs of the pairing and session exchange: any number of clients, one connection at a time, cut at any
 step, in every interleaving of the two ends. Neither end ever rejects the other's sequence number,
 session, kind, phase or proof, and a client's saved secret is always the host's.
 */
module Sessions {
  import opened Base
  import opened Handshake

  /**
   One connection. Each log holds all that has been sent one way; of it the receiver has read the
   first `hostRead` (the client, of the host's) or `clientRead` packets. Input events have a stream and
   a replay guard of their own.
   */
  datatype Link = Link(
    host: Host, client: Client, hostLog: seq<Packet>, hostRead: nat, clientLog: seq<Packet>, clientRead: nat,
    inputs: Inputs)

  datatype Inputs = Inputs(log: seq<Packet>, read: nat, guard: nat, refused: Option<HostError>)

  const NO_INPUTS: Inputs := Inputs([], 0, 0, None)

  /** The host's records in memory and on disk, each client's saved secret, and the connection. */
  datatype World = World(devices: map<nat, nat>, disk: map<nat, nat>, saved: map<nat, nat>, link: Option<Link>)

  datatype Action =
    | Open(id: nat)
    | Cut
    | Restart
    | Forget(id: nat)
    | ClientStarts
    | ClientReads(saveOk: bool)
    | EnterCode(code: nat)
    | ClientSays(body: Body)
    | ClientInputs
    | HostReads
    | HostTakesInput
    | HostMoves(draw: Draw)

  const START: World := World(map[], map[], map[], None)

  function Find(m: map<nat, nat>, id: nat): Option<nat> {
    if id in m then Some(m[id]) else None
  }

  function OneMore(log: seq<Packet>, p: Option<Packet>): seq<Packet> {
    if p.Some? then log + [p.value] else log
  }

  function WithClient(w: World, l: Link, t: ClientTurn): World {
    w.(link := Some(l.(client := t.client, clientLog := OneMore(l.clientLog, t.sent))))
  }

  /** What a client may say once it streams. */
  predicate Streamed(b: Body) {
    b.Ping? || b.Statistics? || b.KeyframeRequest? || b.SessionStop?
  }

  /** The step the action stands for; an action that is not possible changes nothing. */
  function Step(w: World, a: Action): World {
    match a
    case Open(id) =>
      if w.link.Some? then w
      else w.(link := Some(Link(NEW_HOST, NewClient(id, Find(w.saved, id)), [], 0, [], 0, NO_INPUTS)))
    case Cut => w.(link := None)
    case Restart => w.(link := None, devices := w.disk)
    case Forget(id) => if w.link.Some? then w else w.(saved := w.saved - {id})
    case _ => if w.link.None? then w else Move(w, w.link.value, a)
  }

  function Move(w: World, l: Link, a: Action): World {
    match a
    case ClientStarts =>
      if l.client.failure.Some? || l.clientLog != [] then w
      else WithClient(w, l, ClientSends(l.client, Hello(1, 1, l.client.id, if l.client.trusted.Some? then 1 else 0)))
    case ClientReads(saveOk) =>
      if l.client.failure.Some? || l.hostRead >= |l.hostLog| then w
      else
        var t := ClientReceives(l.client, l.hostLog[l.hostRead], saveOk);
        var u := WithClient(w, l.(hostRead := l.hostRead + 1), t);
        if t.client.trusted.Some? && t.client.trusted != l.client.trusted
        then u.(saved := u.saved[l.client.id := t.client.trusted.value]) else u
    case EnterCode(code) =>
      if l.client.failure.Some? || !l.client.phase.AwaitCode? then w
      else WithClient(w, l, SendsProof(l.client.(pairKey := code)))
    case ClientSays(body) =>
      if l.client.failure.Some? || !l.client.phase.Streaming? || !Streamed(body) then w
      else WithClient(w, l, ClientSends(l.client, body))
    case ClientInputs =>
      if l.client.failure.Some? || !l.client.phase.Streaming? then w
      else
        var p := Packet(|l.inputs.log| + 1, l.client.session, InputEvent);
        w.(link := Some(l.(inputs := l.inputs.(log := l.inputs.log + [p]))))
    case HostTakesInput =>
      if !l.host.pc.InSession? || l.inputs.refused.Some? || l.inputs.read >= |l.inputs.log| then w
      else w.(link := Some(l.(inputs := TakesInput(l.inputs, l.host.session, l.inputs.log[l.inputs.read]))))
    case HostReads =>
      if l.host.pc.HostFailed? || l.host.pc.Ended? || !Reading(l.host.pc) || l.clientRead >= |l.clientLog| then w
      else
        var (h, p) := HostReceives(l.host, l.clientLog[l.clientRead]);
        w.(link := Some(l.(host := h, clientRead := l.clientRead + 1, hostLog := OneMore(l.hostLog, p))))
    case HostMoves(draw) =>
      if l.host.pc.HostFailed? then w
      else
        var t := HostActs(l.host, w.devices, w.disk, draw);
        w.(devices := t.devices, disk := t.disk,
          link := Some(l.(host := t.host, hostLog := OneMore(l.hostLog, t.sent))))
    case _ => w
  }

  function TakesInput(i: Inputs, session: nat, p: Packet): Inputs {
    var j := i.(read := i.read + 1);
    if p.session != session then j.(refused := Some(WrongSession))
    else if p.sequence <= i.guard then j.(refused := Some(Replayed))
    else if !p.body.InputEvent? then j.(refused := Some(WrongKind), guard := p.sequence)
    else j.(guard := p.sequence)
  }

  /** An input packet is taken exactly if it is the session's, newer than any before, and an input event. */
  lemma InputTaken(i: Inputs, session: nat, p: Packet)
    requires i.refused == None
    ensures var j := TakesInput(i, session, p);
            var ours, later := p.session == session, p.sequence > i.guard;
            && (j.refused == None <==> ours && later && p.body.InputEvent?)
            && (j.refused == Some(WrongSession) <==> !ours) && (j.refused == Some(Replayed) <==> ours && !later)
            && j == i.(read := i.read + 1, refused := j.refused, guard := if ours && later then p.sequence else i.guard)
  {
  }

  /** The host reads only where it waits for a packet. */
  predicate Reading(pc: HostPc) {
    pc.AwaitHello? || pc.AwaitAnswer? || pc.AwaitCapabilities? || pc.InSession?
  }

  /** What is assumed of a run: fresh tokens are not zero, and a code entered is the one displayed. */
  predicate Honest(w: World, a: Action) {
    && (a.HostMoves? ==> a.draw.token != 0)
    && (a.EnterCode? && w.link.Some? ==> a.code == w.link.value.host.key)
  }

  function After(acts: seq<Action>): World {
    if acts == [] then START else Step(After(acts[..|acts| - 1]), acts[|acts| - 1])
  }

  ghost predicate AllHonest(acts: seq<Action>) {
    forall i | 0 <= i < |acts| :: Honest(After(acts[..i]), acts[i])
  }

  // What holds in every reachable world

  /** The sequence number of the host's packet `i`: first one counter from 1, then one from 10. */
  function HostSequence(i: nat): nat {
    if i < 6 then i + 1 else i + 5
  }

  function Flag(c: Client): u8 {
    if !c.pairingNew && c.trusted.Some? then 1 else 0
  }

  /** `p` is what the host sends as packet `i`. */
  ghost predicate HostSaid(h: Host, i: nat, p: Packet) {
    && p.sequence == HostSequence(i)
    && p.session == (if i < 4 then 0 else h.session)
    && (i == 0 ==> p.body == Version(1))
    && (i == 1 ==> p.body == HostInfo(HOST_ID))
    && (i == 2 ==> p.body == Pairing(if h.isNew then 0 else 1, h.nonce, None, None))
    && (i == 3 ==>
          p.body == Pairing(3, h.nonce, Some(Proof(h.key, h.client, h.nonce, 2)),
                            if h.isNew then Some(h.secret) else None))
    && (i == 4 ==> p.body == SessionStart)
    && (i == 5 ==> p.body == EncoderCapabilities)
    && (i >= 6 ==> p.body.VideoConfig? || p.body.Pong?)
  }

  /** The client has sent its proof a second time: the code was entered again before the host's proof came. */
  predicate Twice(log: seq<Packet>) {
    |log| > 2 && log[2].body.Pairing?
  }

  /** The client's proof. */
  predicate IsProof(h: Host, c: Client, b: Body) {
    b == Pairing(2, h.nonce, Some(Proof(h.key, c.id, h.nonce, 1)), None)
  }

  /** `p` is what the client sends as packet `i`. */
  ghost predicate ClientSaid(h: Host, c: Client, twice: bool, i: nat, p: Packet) {
    && p.sequence == i + 1
    && p.session == (if i < 3 || twice then 0 else h.session)
    && (i == 0 ==> p.body == Hello(1, 1, c.id, Flag(c)))
    && (i == 1 ==> IsProof(h, c, p.body))
    && (p.body.Capabilities? ==> i >= 2 && c.configured)
    && (i == 2 ==> if twice then IsProof(h, c, p.body) else p.body.Capabilities?)
    && (i >= 3 ==> if twice then IsProof(h, c, p.body) || p.body.Capabilities? else Streamed(p.body))
  }

  ghost predicate HostLogOk(h: Host, log: seq<Packet>) {
    forall i | 0 <= i < |log| :: HostSaid(h, i, log[i])
  }

  ghost predicate ClientLogOk(h: Host, c: Client, log: seq<Packet>) {
    forall i | 0 <= i < |log| :: ClientSaid(h, c, Twice(log), i, log[i])
  }

  /** How many packets the host has sent and read where it is. */
  ghost predicate HostAt(pc: HostPc, sent: nat, read: nat) {
    match pc
    case AwaitHello => sent == 0 && read == 0
    case SendVersion => sent == 0 && read == 1
    case SendInfo => sent == 1 && read == 1
    case SendChallenge => sent == 2 && read == 1
    case AwaitAnswer => sent == 3 && read == 1
    case Trusting => sent == 3 && read == 2
    case SendProof => sent == 3 && read == 2
    case AwaitCapabilities => sent == 4 && read == 2
    case SendStart => sent == 4 && read == 3
    case SendEncoder => sent == 5 && read == 3
    case InSession => sent >= 6 && read >= 3
    case Ended => sent >= 6 && read >= 4
    case HostFailed(e) =>
      if e.WrongKind? then sent == 4 && read == 3 else (e.DeviceLimit? || e.SaveFailed?) && sent == 3 && read == 2
  }

  ghost predicate HostOk(devices: map<nat, nat>, disk: map<nat, nat>, l: Link) {
    var h, sent, read := l.host, |l.hostLog|, l.clientRead;
    && read <= |l.clientLog|
    && HostAt(h.pc, sent, read)
    && (Twice(l.clientLog) ==> h.isNew && sent <= 4 && (read <= 2 || h.pc.HostFailed?))
    && (h.pc.HostFailed? && h.pc.error.WrongKind? ==> Twice(l.clientLog))
    && h.sequence == (if h.pc.InSession? || h.pc.Ended? then sent + 4 else sent)
    && h.guard <= read
    && (if sent >= 5 then h.session != 0 else h.session == 0)
    && (h.connected <==> sent >= 5)
    && (read >= 1 ==> h.client == l.client.id && h.trustedFlag == Flag(l.client))
    && (read >= 2 ==> h.verified == Some(Proof(h.key, h.client, h.nonce, 1)))
    && (sent >= 3 && !h.isNew ==> l.client.trusted == Some(h.key))
    && (sent >= 3 && h.isNew ==> Flag(l.client) == 0)
    && (h.isNew && (h.pc.SendProof? || sent >= 4) ==> Find(devices, h.client) == Find(disk, h.client) == Some(h.secret))
  }

  ghost predicate ClientOk(l: Link) {
    var h, c, sent, read := l.host, l.client, |l.clientLog|, l.hostRead;
    && read <= |l.hostLog|
    && c.last == (if read == 0 then 0 else HostSequence(read - 1))
    && c.session == (if read >= 5 then h.session else 0)
    && c.sequence == sent
    && (read >= 2 ==> c.hostId == HOST_ID)
    && (c.configured <==> read >= 4)
    && (read >= 3 ==> c.nonce == Some(h.nonce))
    && c.pairingNew == (read >= 3 && h.isNew)
    && (read == 3 && sent >= 2 ==> c.pairKey == h.key)
    && (c.phase.AwaitCode? <==> read == 3 && h.isNew)
    && (c.phase.Streaming? ==> read >= 7)
    && (read >= 4 ==> c.verified == Some(Proof(h.key, c.id, h.nonce, 2)))
    && (read >= 4 && h.isNew ==> c.trusted == Some(h.secret))
    && (read < 4 && h.isNew && read == 3 ==> c.trusted == None)
    && (Twice(l.clientLog) ==> 3 <= read <= 4)
    && (read < 7 && !Twice(l.clientLog) ==> sent <= 1 + (if read >= 3 then 1 else 0) + (if read >= 4 then 1 else 0))
    && (read >= 1 ==> sent >= 1) && (read >= 3 && !h.isNew ==> sent >= 2) && (read >= 4 ==> sent >= 3)
  }

  /** The client gives up only when its keychain does not take the secret. */
  ghost predicate ClientGone(l: Link) {
    && l.client.failure == Some(NotSaved) && l.client.pairingNew && l.client.trusted == None && !l.client.configured
    && l.host.isNew && (|l.clientLog| == 2 || Twice(l.clientLog)) && |l.hostLog| == 4 && l.hostRead <= 4
    && (l.host.pc.AwaitCapabilities? || l.host.pc.HostFailed?)
  }

  /** Input events flow only within the session, under its token and numbered from 1. */
  ghost predicate InputsOk(l: Link) {
    var i := l.inputs;
    && i.refused.None? && i.read <= |i.log| && i.guard <= i.read
    && (i.log != [] ==> |l.hostLog| >= 5)
    && forall k | 0 <= k < |i.log| :: i.log[k] == Packet(k + 1, l.host.session, InputEvent)
  }

  ghost predicate ClientPart(l: Link) {
    if l.client.failure.None? then ClientOk(l) else ClientGone(l)
  }

  ghost predicate LinkOk(w: World, l: Link) {
    && HostLogOk(l.host, l.hostLog)
    && ClientLogOk(l.host, l.client, l.clientLog)
    && InputsOk(l)
    && HostOk(w.devices, w.disk, l)
    && ClientPart(l)
    && l.client.trusted == Find(w.saved, l.client.id)
  }

  /** Whatever a client has saved, the host has on record, in memory and on disk. */
  ghost predicate Persistent(w: World) {
    forall i | i in w.saved :: i in w.devices && i in w.disk && w.devices[i] == w.disk[i] == w.saved[i]
  }

  ghost predicate Fine(w: World) {
    Persistent(w) && (w.link.Some? ==> LinkOk(w, w.link.value))
  }

  // How a step keeps each part

  lemma SavedKept(w: World, u: World)
    requires Persistent(w) && u.saved == w.saved && u.devices == w.devices && u.disk == w.disk
    ensures Persistent(u)
  {
  }

  /** Steps that leave input events and token alone keep the input stream in order. */
  lemma InputsKept(l: Link, m: Link)
    requires InputsOk(l) && m.inputs == l.inputs && |m.hostLog| >= |l.hostLog|
    requires m.host.session == l.host.session || |l.hostLog| < 5
    ensures InputsOk(m)
  {
  }

  /** The host's packets are still what they were, though the host has moved on. */
  lemma HostLogSame(h: Host, g: Host, log: seq<Packet>)
    requires HostLogOk(h, log)
    requires |log| <= 2 || (g.isNew == h.isNew && g.nonce == h.nonce)
    requires |log| <= 3 || (g.key == h.key && g.client == h.client && g.secret == h.secret)
    requires |log| <= 4 || g.session == h.session
    ensures HostLogOk(g, log)
  {
    forall i | 0 <= i < |log|
      ensures HostSaid(g, i, log[i])
    {
      assert HostSaid(h, i, log[i]);
    }
  }

  lemma HostLogMore(h: Host, log: seq<Packet>, p: Packet)
    requires HostLogOk(h, log) && HostSaid(h, |log|, p)
    ensures HostLogOk(h, log + [p])
  {
    hide HostSaid;
  }

  lemma ClientLogSame(h: Host, c: Client, g: Host, d: Client, log: seq<Packet>)
    requires ClientLogOk(h, c, log) && d.id == c.id && (c.configured ==> d.configured)
    requires log == [] || Flag(d) == Flag(c)
    requires |log| <= 1 || (g.key == h.key && g.nonce == h.nonce)
    requires |log| <= 3 || Twice(log) || g.session == h.session
    ensures ClientLogOk(g, d, log)
  {
    forall i | 0 <= i < |log|
      ensures ClientSaid(g, d, Twice(log), i, log[i])
    {
      assert ClientSaid(h, c, Twice(log), i, log[i]);
    }
  }

  lemma ClientLogMore(h: Host, c: Client, log: seq<Packet>, p: Packet)
    requires ClientLogOk(h, c, log) && ClientSaid(h, c, Twice(log + [p]), |log|, p)
    ensures ClientLogOk(h, c, log + [p])
  {
    var more := log + [p];
    forall i | 0 <= i < |more|
      ensures ClientSaid(h, c, Twice(more), i, more[i])
    {
      if i < |log| {
        assert ClientSaid(h, c, Twice(log), i, log[i]);
      }
    }
  }

  /** A packet read by the host is the one the client sent. */
  lemma HeardByHost(l: Link)
    requires ClientLogOk(l.host, l.client, l.clientLog) && l.clientRead < |l.clientLog|
    ensures ClientSaid(l.host, l.client, Twice(l.clientLog), l.clientRead, l.clientLog[l.clientRead])
  {
  }

  lemma HeardByClient(l: Link)
    requires HostLogOk(l.host, l.hostLog) && l.hostRead < |l.hostLog|
    ensures HostSaid(l.host, l.hostRead, l.hostLog[l.hostRead])
  {
  }

  /** A step that moves the host only, and perhaps sends a packet. */
  lemma HostMoved(w: World, l: Link, u: World, m: Link)
    requires LinkOk(w, l) && w.link == Some(l) && Persistent(u)
    requires u == w.(devices := u.devices, disk := u.disk, link := Some(m))
    requires m == l.(host := m.host, clientRead := m.clientRead, hostLog := m.hostLog)
    requires m.hostLog == l.hostLog
             || (|m.hostLog| == |l.hostLog| + 1 && m.hostLog == l.hostLog + [m.hostLog[|l.hostLog|]])
    requires |m.hostLog| > |l.hostLog| ==> HostSaid(m.host, |l.hostLog|, m.hostLog[|l.hostLog|])
    requires |l.hostLog| <= 2
             || (m.host.isNew == l.host.isNew && m.host.nonce == l.host.nonce && m.host.key == l.host.key)
    requires |l.hostLog| <= 3 || (m.host.client == l.host.client && m.host.secret == l.host.secret)
    requires |l.hostLog| <= 4 ==> |l.clientLog| <= 3 || Twice(l.clientLog)
    requires |l.hostLog| <= 2 ==> |l.clientLog| <= 1
    requires m.host.session == l.host.session || |l.hostLog| <= 4
    requires HostOk(u.devices, u.disk, m) && ClientPart(m)
    ensures Fine(u)
  {
    hide HostSaid, ClientSaid, HostOk, ClientPart, Persistent, Flag, Twice;
    HostLogSame(l.host, m.host, l.hostLog);
    if |m.hostLog| > |l.hostLog| {
      HostLogMore(m.host, l.hostLog, m.hostLog[|l.hostLog|]);
    }
    ClientLogSame(l.host, l.client, m.host, l.client, l.clientLog);
    hide HostLogOk, ClientLogOk, InputsOk;
    InputsKept(l, m);
  }

  /** How far the client can be while the host is at the exchange. */
  lemma ClientBehind(w: World, l: Link)
    requires LinkOk(w, l)
    ensures |l.hostLog| <= 2 ==> |l.clientLog| <= 1
    ensures |l.hostLog| <= 4 ==> |l.clientLog| <= 3 || Twice(l.clientLog)
    ensures l.client.trusted == Find(w.saved, l.client.id)
    ensures |l.hostLog| <= 3 ==> l.client.failure.None? && l.hostRead <= 3
  {
    hide HostLogOk, ClientLogOk, InputsOk;
  }

  lemma HostReadsFirst(w: World, l: Link)
    requires Fine(w) && w.link == Some(l) && !l.host.pc.InSession?
    ensures Fine(Step(w, HostReads))
  {
    hide HostLogOk, ClientLogOk, InputsOk, Persistent;
    if Reading(l.host.pc) && l.clientRead < |l.clientLog| {
      HeardByHost(l);
      ClientBehind(w, l);
      var u := Step(w, HostReads);
      SavedKept(w, u);
      HostMoved(w, l, u, u.link.value);
    }
  }

  lemma HostReadsSession(w: World, l: Link)
    requires Fine(w) && w.link == Some(l) && l.host.pc.InSession?
    ensures Fine(Step(w, HostReads))
  {
    hide HostLogOk, ClientLogOk, InputsOk, Persistent;
    if l.clientRead < |l.clientLog| {
      HeardByHost(l);
      var u := Step(w, HostReads);
      SavedKept(w, u);
      HostMoved(w, l, u, u.link.value);
    }
  }

  lemma HostOpens(w: World, l: Link, d: Draw)
    requires Fine(w) && w.link == Some(l) && (l.host.pc.SendVersion? || l.host.pc.SendInfo?)
    ensures Fine(Step(w, HostMoves(d)))
  {
    hide HostLogOk, ClientLogOk, InputsOk, Persistent;
    ClientBehind(w, l);
    var u := Step(w, HostMoves(d));
    SavedKept(w, u);
    HostMoved(w, l, u, u.link.value);
  }

  /** A client that has a secret is one whose secret the host has on record. */
  lemma KnownIsSame(w: World, l: Link)
    requires Persistent(w) && l.client.trusted == Find(w.saved, l.client.id)
    ensures l.client.trusted.Some? ==> Find(w.devices, l.client.id) == l.client.trusted
  {
  }

  lemma HostChallenges(w: World, l: Link, d: Draw)
    requires Fine(w) && w.link == Some(l) && l.host.pc.SendChallenge?
    ensures Fine(Step(w, HostMoves(d)))
  {
    hide HostLogOk, ClientLogOk, InputsOk;
    KnownIsSame(w, l);
    hide Persistent;
    ClientBehind(w, l);
    var u := Step(w, HostMoves(d));
    SavedKept(w, u);
    HostMoved(w, l, u, u.link.value);
  }

  /** A new record for a client that has nothing saved leaves every saved secret on record. */
  lemma RecordedKept(w: World, u: World, id: nat, secret: nat)
    requires Persistent(w) && id !in w.saved && u.saved == w.saved && u.devices == w.devices[id := secret]
    requires u.disk == w.disk || u.disk == u.devices
    ensures Persistent(u)
  {
  }

  lemma HostKnows(w: World, l: Link, d: Draw)
    requires Fine(w) && w.link == Some(l) && l.host.pc.Trusting? && (!l.host.isNew || |w.devices| >= MAX_DEVICES)
    ensures Fine(Step(w, HostMoves(d)))
  {
    hide HostLogOk, ClientLogOk, InputsOk, Persistent;
    ClientBehind(w, l);
    var u := Step(w, HostMoves(d));
    SavedKept(w, u);
    HostMoved(w, l, u, u.link.value);
  }

  lemma HostRecords(w: World, l: Link, d: Draw)
    requires Fine(w) && w.link == Some(l) && l.host.pc.Trusting? && l.host.isNew && |w.devices| < MAX_DEVICES
    ensures Fine(Step(w, HostMoves(d)))
  {
    hide HostLogOk, ClientLogOk, InputsOk, Persistent;
    ClientBehind(w, l);
    var u := Step(w, HostMoves(d));
    RecordedKept(w, u, l.client.id, d.secret);
    HostMoved(w, l, u, u.link.value);
  }

  lemma HostTrusts(w: World, l: Link, d: Draw)
    requires Fine(w) && w.link == Some(l) && l.host.pc.Trusting?
    ensures Fine(Step(w, HostMoves(d)))
  {
    hide Fine, Step;
    if !l.host.isNew || |w.devices| >= MAX_DEVICES {
      HostKnows(w, l, d);
    } else {
      HostRecords(w, l, d);
    }
  }

  lemma HostProves(w: World, l: Link, d: Draw)
    requires Fine(w) && w.link == Some(l) && l.host.pc.SendProof?
    ensures Fine(Step(w, HostMoves(d)))
  {
    hide HostLogOk, ClientLogOk, InputsOk, Persistent;
    ClientBehind(w, l);
    var u := Step(w, HostMoves(d));
    SavedKept(w, u);
    HostMoved(w, l, u, u.link.value);
  }

  lemma HostStarts(w: World, l: Link, d: Draw)
    requires Fine(w) && w.link == Some(l) && l.host.pc.SendStart? && d.token != 0
    ensures Fine(Step(w, HostMoves(d)))
  {
    hide HostLogOk, ClientLogOk, InputsOk, Persistent;
    ClientBehind(w, l);
    var u := Step(w, HostMoves(d));
    SavedKept(w, u);
    HostMoved(w, l, u, u.link.value);
  }

  lemma HostStreams(w: World, l: Link, d: Draw)
    requires Fine(w) && w.link == Some(l) && (l.host.pc.SendEncoder? || l.host.pc.InSession?)
    ensures Fine(Step(w, HostMoves(d)))
  {
    hide HostLogOk, ClientLogOk, InputsOk, Persistent;
    var u := Step(w, HostMoves(d));
    SavedKept(w, u);
    HostMoved(w, l, u, u.link.value);
  }

  lemma HostRests(w: World, l: Link, d: Draw)
    requires w.link == Some(l) && (Reading(l.host.pc) || l.host.pc.Ended? || l.host.pc.HostFailed?)
             && !l.host.pc.InSession?
    ensures Step(w, HostMoves(d)) == w
  {
  }

  lemma HostMovesKeeps(w: World, l: Link, d: Draw)
    requires Fine(w) && w.link == Some(l) && d.token != 0
    ensures Fine(Step(w, HostMoves(d)))
  {
    hide Fine, Step;
    match l.host.pc
    case SendVersion => HostOpens(w, l, d);
    case SendInfo => HostOpens(w, l, d);
    case SendChallenge => HostChallenges(w, l, d);
    case Trusting => HostTrusts(w, l, d);
    case SendProof => HostProves(w, l, d);
    case SendStart => HostStarts(w, l, d);
    case SendEncoder => HostStreams(w, l, d);
    case InSession => HostStreams(w, l, d);
    case _ => HostRests(w, l, d);
  }

  /** A step that moves the client only, and perhaps sends a packet. */
  lemma ClientMoved(w: World, l: Link, u: World, m: Link)
    requires LinkOk(w, l) && w.link == Some(l) && Persistent(u)
    requires u == w.(saved := u.saved, link := Some(m))
    requires m == l.(client := m.client, hostRead := m.hostRead, clientLog := m.clientLog)
    requires m.client.id == l.client.id && (l.client.configured ==> m.client.configured)
    requires l.clientLog == [] || Flag(m.client) == Flag(l.client)
    requires m.clientLog == l.clientLog
          || (|m.clientLog| == |l.clientLog| + 1 && m.clientLog == l.clientLog + [m.clientLog[|l.clientLog|]])
    requires |m.clientLog| > |l.clientLog| ==>
               ClientSaid(m.host, m.client, Twice(m.clientLog), |l.clientLog|, m.clientLog[|l.clientLog|])
    requires HostOk(u.devices, u.disk, m) && ClientPart(m)
    requires m.client.trusted == Find(u.saved, m.client.id)
    ensures Fine(u)
  {
    hide HostSaid, ClientSaid, HostOk, ClientPart, Persistent, Flag, Twice;
    ClientLogSame(l.host, l.client, l.host, m.client, l.clientLog);
    if |m.clientLog| > |l.clientLog| {
      ClientLogMore(l.host, m.client, l.clientLog, m.clientLog[|l.clientLog|]);
    }
    hide HostLogOk, ClientLogOk, InputsOk;
    InputsKept(l, m);
  }

  lemma ClientChallenged(w: World, l: Link, saveOk: bool)
    requires Fine(w) && w.link == Some(l) && l.client.failure.None? && l.hostRead == 2
    ensures Fine(Step(w, ClientReads(saveOk)))
  {
    hide HostLogOk, ClientLogOk, InputsOk, Persistent;
    if l.hostRead < |l.hostLog| {
      HeardByClient(l);
      var u := Step(w, ClientReads(saveOk));
      SavedKept(w, u);
      ClientMoved(w, l, u, u.link.value);
    }
  }

  lemma SavedNow(w: World, u: World, id: nat, secret: nat)
    requires Persistent(w) && Find(w.devices, id) == Find(w.disk, id) == Some(secret)
    requires u.saved == w.saved[id := secret] && u.devices == w.devices && u.disk == w.disk
    ensures Persistent(u)
  {
  }

  lemma ClientVerifies(w: World, l: Link, saveOk: bool)
    requires Fine(w) && w.link == Some(l) && l.client.failure.None? && l.hostRead == 3
    ensures Fine(Step(w, ClientReads(saveOk)))
  {
    hide HostLogOk, ClientLogOk, InputsOk, Persistent;
    if l.hostRead < |l.hostLog| {
      HeardByClient(l);
      var u := Step(w, ClientReads(saveOk));
      if u.saved == w.saved {
        SavedKept(w, u);
      } else {
        SavedNow(w, u, l.client.id, l.host.secret);
      }
      ClientMoved(w, l, u, u.link.value);
    }
  }

  lemma ClientFollows(w: World, l: Link, saveOk: bool)
    requires Fine(w) && w.link == Some(l) && l.client.failure.None? && !(2 <= l.hostRead < 4)
    ensures Fine(Step(w, ClientReads(saveOk)))
  {
    hide HostLogOk, ClientLogOk, InputsOk, Persistent;
    if l.hostRead < |l.hostLog| {
      HeardByClient(l);
      var u := Step(w, ClientReads(saveOk));
      SavedKept(w, u);
      ClientMoved(w, l, u, u.link.value);
    }
  }

  lemma ClientSpeaks(w: World, l: Link, a: Action)
    requires Fine(w) && w.link == Some(l) && Honest(w, a)
    requires a.ClientStarts? || a.EnterCode? || a.ClientSays?
    ensures Fine(Step(w, a))
  {
    hide HostLogOk, ClientLogOk, InputsOk, Persistent;
    var u := Step(w, a);
    if u != w {
      SavedKept(w, u);
      ClientMoved(w, l, u, u.link.value);
    }
  }

  lemma InputsFlow(w: World, l: Link, a: Action)
    requires Fine(w) && w.link == Some(l) && (a.ClientInputs? || a.HostTakesInput?)
    ensures Fine(Step(w, a))
  {
    hide HostSaid, ClientSaid;
  }

  lemma StepKeeps(w: World, a: Action)
    requires Fine(w) && Honest(w, a)
    ensures Fine(Step(w, a))
  {
    if a.Open? || a.Cut? || a.Restart? || a.Forget? {
      WorldKeeps(w, a);
    } else if w.link.Some? {
      var l := w.link.value;
      hide Fine, Step, Honest;
      match a
      case HostReads => if l.host.pc.InSession? { HostReadsSession(w, l); } else { HostReadsFirst(w, l); }
      case HostMoves(d) => HonestDraw(w, a); HostMovesKeeps(w, l, d);
      case ClientReads(saveOk) => ClientReadsKeeps(w, l, saveOk);
      case ClientInputs => InputsFlow(w, l, a);
      case HostTakesInput => InputsFlow(w, l, a);
      case ClientStarts => ClientSpeaks(w, l, a);
      case EnterCode(_) => ClientSpeaks(w, l, a);
      case ClientSays(_) => ClientSpeaks(w, l, a);
    }
  }

  lemma WorldKeeps(w: World, a: Action)
    requires Fine(w) && (a.Open? || a.Cut? || a.Restart? || a.Forget?)
    ensures Fine(Step(w, a))
  {
  }

  lemma HonestDraw(w: World, a: Action)
    requires Honest(w, a) && a.HostMoves?
    ensures a.draw.token != 0
  {
  }

  lemma ClientReadsKeeps(w: World, l: Link, saveOk: bool)
    requires Fine(w) && w.link == Some(l)
    ensures Fine(Step(w, ClientReads(saveOk)))
  {
    if l.client.failure.None? {
      if l.hostRead == 2 {
        ClientChallenged(w, l, saveOk);
      } else if l.hostRead == 3 {
        ClientVerifies(w, l, saveOk);
      } else {
        ClientFollows(w, l, saveOk);
      }
    }
  }

  lemma {:induction false} AlwaysFine(acts: seq<Action>)
    requires AllHonest(acts)
    ensures Fine(After(acts))
  {
    hide Fine, Honest, Step;
    if acts == [] {
      StartFine();
    } else {
      var k := |acts| - 1;
      forall i | 0 <= i < k
        ensures Honest(After(acts[..k][..i]), acts[..k][i])
      {
        assert acts[..k][..i] == acts[..i];
      }
      AlwaysFine(acts[..k]);
      StepKeeps(After(acts[..k]), acts[k]);
    }
  }

  lemma StartFine()
    ensures Fine(START)
  {
  }

  // What follows

  /** Each packet of the log carries a higher sequence number than the one before it. */
  ghost predicate Increasing(log: seq<Packet>) {
    forall i, j | 0 <= i < j < |log| :: log[i].sequence < log[j].sequence
  }

  /**
   No false rejection: over every run no end ever refuses a packet of the other, but for a second proof of
   the client. The host stops only at that, at its limit of devices or when it cannot save, the client only
   when it cannot save; and though the host counts its packets with two counters, its stream's sequence
   numbers strictly increase.
   */
  lemma NeverRejected(acts: seq<Action>, l: Link)
    requires AllHonest(acts) && After(acts).link == Some(l)
    ensures l.host.pc.HostFailed? ==>
              || l.host.pc.error.DeviceLimit? || l.host.pc.error.SaveFailed?
              || (l.host.pc.error.WrongKind? && Twice(l.clientLog))
    ensures l.client.failure.Some? ==> l.client.failure.value.NotSaved?
    ensures l.inputs.refused.None?
    ensures Increasing(l.hostLog) && Increasing(l.clientLog) && Increasing(l.inputs.log)
  {
    hide After, AllHonest;
    AlwaysFine(acts);
    forall i, j | 0 <= i < j < |l.hostLog|
      ensures l.hostLog[i].sequence < l.hostLog[j].sequence
    {
      assert HostSaid(l.host, i, l.hostLog[i]) && HostSaid(l.host, j, l.hostLog[j]);
    }
    forall i, j | 0 <= i < j < |l.clientLog|
      ensures l.clientLog[i].sequence < l.clientLog[j].sequence
    {
      assert ClientSaid(l.host, l.client, Twice(l.clientLog), i, l.clientLog[i]);
      assert ClientSaid(l.host, l.client, Twice(l.clientLog), j, l.clientLog[j]);
    }
  }

  /**
   The code entered again, in every run and interleaving: the host refuses a packet's kind exactly when it
   has read a second proof, and then no session ever starts. What it reads third decides: it goes on to
   the session exactly when that is not a second proof.
   */
  lemma SecondProofDecides(acts: seq<Action>, l: Link)
    requires AllHonest(acts) && After(acts).link == Some(l)
    ensures l.clientRead <= |l.clientLog|
    ensures l.host.pc == HostFailed(WrongKind) <==> l.clientRead > 2 && l.clientLog[2].body.Pairing?
    ensures Twice(l.clientLog) ==> !l.host.connected
    ensures l.clientRead > 2 ==>
              (l.host.pc.SendStart? || l.host.pc.SendEncoder? || l.host.pc.InSession? || l.host.pc.Ended? <==>
               !Twice(l.clientLog))
  {
    hide After, AllHonest;
    AlwaysFine(acts);
    hide HostLogOk, ClientLogOk, InputsOk;
  }

  /**
   Mutual proof: the client has sent its capabilities only if it verified the host's proof, and the host
   has connected its pipeline only if it verified the client's, both made with one key and one nonce.
   */
  lemma MutualProof(acts: seq<Action>, l: Link)
    requires AllHonest(acts) && After(acts).link == Some(l)
    ensures (exists p | p in l.clientLog :: p.body.Capabilities?) ==>
              l.client.verified == Some(Proof(l.host.key, l.client.id, l.host.nonce, 2))
    ensures l.host.connected ==>
              && l.host.client == l.client.id
              && l.host.verified == Some(Proof(l.host.key, l.client.id, l.host.nonce, 1))
              && l.client.verified == Some(Proof(l.host.key, l.client.id, l.host.nonce, 2))
  {
    hide After, AllHonest;
    AlwaysFine(acts);
    if p :| p in l.clientLog && p.body.Capabilities? {
      var i :| 0 <= i < |l.clientLog| && l.clientLog[i] == p;
      assert ClientSaid(l.host, l.client, Twice(l.clientLog), i, p);
    }
  }

  /** Pairing persists: wherever connections are cut, a saved secret is the one the host has on record. */
  lemma PairingPersists(acts: seq<Action>, id: nat)
    requires AllHonest(acts) && id in After(acts).saved
    ensures var w := After(acts); Find(w.devices, id) == Find(w.disk, id) == Some(w.saved[id])
  {
    hide After, AllHonest;
    AlwaysFine(acts);
  }

  // Pairing afresh

  /** An undisturbed exchange with a client that has nothing saved, up to its entering the code. */
  function Challenged(w: World, id: nat, d: Draw): World {
    var greeted := Step(Step(Step(w, Open(id)), ClientStarts), HostReads);
    var asked := Step(Step(Step(greeted, HostMoves(d)), HostMoves(d)), HostMoves(d));
    Step(Step(Step(asked, ClientReads(true)), ClientReads(true)), ClientReads(true))
  }

  /** The exchange goes on: the code is entered and checked, the host trusts, and the client saves. */
  function Paired(w: World, id: nat, d: Draw): World {
    var checked := Step(Step(Challenged(w, id, d), EnterCode(d.code)), HostReads);
    Step(Step(Step(checked, HostMoves(d)), HostMoves(d)), ClientReads(true))
  }

  /** The host awaits the proof, and the client the code. */
  ghost predicate ChallengeAt(w: World, u: World, id: nat, d: Draw) {
    && u == w.(link := u.link) && u.link.Some?
    && var l := u.link.value;
       && l.host == NEW_HOST.(pc := AwaitAnswer, sequence := 3, guard := 1, client := id, key := d.code,
          nonce := d.nonce, isNew := true)
       && l.client == NewClient(id, None).(last := 3, sequence := 1, hostId := HOST_ID, pairingNew := true,
          nonce := Some(d.nonce), phase := AwaitCode)
       && |l.hostLog| == 3 == l.hostRead && |l.clientLog| == 1 == l.clientRead
  }

  lemma Greeted(w: World, id: nat, d: Draw)
    requires w.link.None? && id !in w.saved
    ensures Step(Step(Step(w, Open(id)), ClientStarts), HostReads) ==
            w.(link := Some(Link(NEW_HOST.(pc := SendVersion, guard := 1, client := id),
              NewClient(id, None).(sequence := 1),
                                 [], 0, [Packet(1, 0, Hello(1, 1, id, 0))], 1, NO_INPUTS)))
  {
    var l0 := Link(NEW_HOST, NewClient(id, None), [], 0, [], 0, NO_INPUTS);
    assert Step(w, Open(id)) == w.(link := Some(l0));
    var started := Step(Step(w, Open(id)), ClientStarts);
    assert started.link.value.clientLog == [Packet(1, 0, Hello(1, 1, id, 0))];
  }

  /** The host's three packets are on their way. */
  ghost predicate AskedAt(w: World, u: World, id: nat, d: Draw) {
    && u == w.(link := u.link) && u.link.Some?
    && var l := u.link.value;
       && l.host == NEW_HOST.(pc := AwaitAnswer, sequence := 3, guard := 1, client := id, key := d.code,
          nonce := d.nonce, isNew := true)
       && l.client == NewClient(id, None).(sequence := 1)
       && l.hostLog == [Packet(1, 0, Version(1)), Packet(2, 0, HostInfo(HOST_ID)),
          Packet(3, 0, Pairing(0, d.nonce, None, None))]
       && l.hostRead == 0 && |l.clientLog| == 1 == l.clientRead
  }

  lemma Asked(w: World, id: nat, d: Draw)
    requires w.link.None? && id !in w.saved
    ensures var greeted := Step(Step(Step(w, Open(id)), ClientStarts), HostReads);
            AskedAt(w, Step(Step(Step(greeted, HostMoves(d)), HostMoves(d)), HostMoves(d)), id, d)
  {
    Greeted(w, id, d);
    hide HostReceives, ClientReceives;
  }

  lemma AskedThenChallenged(w: World, u: World, id: nat, d: Draw)
    requires AskedAt(w, u, id, d)
    ensures ChallengeAt(w, Step(Step(Step(u, ClientReads(true)), ClientReads(true)), ClientReads(true)), id, d)
  {
  }

  lemma ChallengeReached(w: World, id: nat, d: Draw)
    requires w.link.None? && id !in w.saved
    ensures ChallengeAt(w, Challenged(w, id, d), id, d)
  {
    hide Step, AskedAt, ChallengeAt;
    Asked(w, id, d);
    var greeted := Step(Step(Step(w, Open(id)), ClientStarts), HostReads);
    AskedThenChallenged(w, Step(Step(Step(greeted, HostMoves(d)), HostMoves(d)), HostMoves(d)), id, d);
  }

  /** The host has checked the proof; the client has sent it once, or twice. */
  ghost predicate TrustingAt(w: World, u: World, id: nat, d: Draw, times: nat) {
    && u == w.(link := u.link) && u.link.Some?
    && var l := u.link.value;
       && l.host.pc.Trusting? && l.host.guard == 2 && l.host.sequence == 3 && l.host.session == 0
       && l.host.client == id && l.host.key == d.code && l.host.nonce == d.nonce && l.host.isNew
       && l.client == NewClient(id, None).(last := 3, sequence := 1 + times, hostId := HOST_ID, pairingNew := true,
                                           nonce := Some(d.nonce), phase := AwaitCode, pairKey := d.code)
       && |l.hostLog| == 3 == l.hostRead && |l.clientLog| == 1 + times && l.clientRead == 2
       && (times == 2 ==> l.clientLog[2].sequence == 3 && l.clientLog[2].session == 0 && l.clientLog[2].body.Pairing?)
  }

  lemma EnteredOnce(w: World, u: World, id: nat, d: Draw)
    requires ChallengeAt(w, u, id, d)
    ensures TrustingAt(w, Step(Step(u, EnterCode(d.code)), HostReads), id, d, 1)
  {
  }

  lemma EnteredAgain(w: World, u: World, id: nat, d: Draw)
    requires ChallengeAt(w, u, id, d)
    ensures TrustingAt(w, Step(Step(Step(u, EnterCode(d.code)), EnterCode(d.code)), HostReads), id, d, 2)
  {
  }

  /** The host has made its record and sent its proof. */
  ghost predicate ProvenAt(w: World, u: World, id: nat, d: Draw, times: nat) {
    && u.devices == u.disk == w.devices[id := d.secret] && u.saved == w.saved && u.link.Some?
    && var l := u.link.value;
       && l.host.pc.AwaitCapabilities? && l.host.guard == 2 && l.host.session == 0
       && l.client == NewClient(id, None).(last := 3, sequence := 1 + times, hostId := HOST_ID, pairingNew := true,
                                           nonce := Some(d.nonce), phase := AwaitCode, pairKey := d.code)
       && |l.hostLog| == 4 && l.hostRead == 3 && |l.clientLog| == 1 + times && l.clientRead == 2
       && l.hostLog[3] == Packet(4, 0, Pairing(3, d.nonce, Some(Proof(d.code, id, d.nonce, 2)), Some(d.secret)))
       && (times == 2 ==> l.clientLog[2].sequence == 3 && l.clientLog[2].session == 0 && l.clientLog[2].body.Pairing?)
  }

  lemma TrustThenProof(w: World, u: World, id: nat, d: Draw, times: nat)
    requires TrustingAt(w, u, id, d, times) && d.saveOk && |w.devices| < MAX_DEVICES
    ensures ProvenAt(w, Step(Step(u, HostMoves(d)), HostMoves(d)), id, d, times)
  {
  }

  lemma TrustRefused(w: World, u: World, id: nat, d: Draw)
    requires TrustingAt(w, u, id, d, 1) && |w.devices| >= MAX_DEVICES
    ensures var t := Step(Step(Step(u, HostMoves(d)), HostMoves(d)), ClientReads(true));
            t == w.(link := t.link) && t.link.Some? && t.link.value.host.pc == HostFailed(DeviceLimit)
  {
  }

  lemma ProofSaved(w: World, u: World, id: nat, d: Draw)
    requires ProvenAt(w, u, id, d, 1)
    ensures var t := Step(u, ClientReads(true));
            t.saved == w.saved[id := d.secret] && t.devices == t.disk == w.devices[id := d.secret]
  {
  }

  lemma ProofRepeated(w: World, u: World, id: nat, d: Draw)
    requires ProvenAt(w, u, id, d, 2)
    ensures var t := Step(u, HostReads); t.link.Some? && t.link.value.host.pc == HostFailed(WrongKind)
  {
  }

  /**
   A fresh pairing, also of a client the host still has on record from one that was cut, ends with both
   sides holding the same secret exactly when the host has fewer than 64 records.
   */
  lemma FreshPairing(w: World, id: nat, d: Draw)
    requires w.link.None? && id !in w.saved && d.saveOk
    ensures var t := Paired(w, id, d);
            && (id in t.saved <==> |w.devices| < MAX_DEVICES)
            && (if |w.devices| < MAX_DEVICES
                then t.saved == w.saved[id := d.secret] && t.devices == t.disk == w.devices[id := d.secret]
                else t == w.(link := t.link) && t.link.Some? && t.link.value.host.pc == HostFailed(DeviceLimit))
  {
    hide Challenged, Step, TrustingAt, ProvenAt, ChallengeAt;
    var u := Challenged(w, id, d);
    ChallengeReached(w, id, d);
    EnteredOnce(w, u, id, d);
    var checked := Step(Step(u, EnterCode(d.code)), HostReads);
    if |w.devices| < MAX_DEVICES {
      TrustThenProof(w, checked, id, d, 1);
      ProofSaved(w, Step(Step(checked, HostMoves(d)), HostMoves(d)), id, d);
    } else {
      TrustRefused(w, checked, id, d);
    }
  }

  /** Entering the code a second time before the host's proof arrives makes the host break off. */
  lemma CodeEnteredTwice(w: World, id: nat, d: Draw)
    requires w.link.None? && id !in w.saved && d.saveOk && |w.devices| < MAX_DEVICES
    ensures var twice := Step(Step(Challenged(w, id, d), EnterCode(d.code)), EnterCode(d.code));
            var t := Step(Step(Step(Step(twice, HostReads), HostMoves(d)), HostMoves(d)), HostReads);
            t.link.Some? && t.link.value.host.pc == HostFailed(WrongKind)
  {
    hide Challenged, Step, TrustingAt, ProvenAt, ChallengeAt;
    ChallengeReached(w, id, d);
    EnteredAgain(w, Challenged(w, id, d), id, d);
    var twice := Step(Step(Challenged(w, id, d), EnterCode(d.code)), EnterCode(d.code));
    TrustThenProof(w, Step(twice, HostReads), id, d, 2);
    ProofRepeated(w, Step(Step(Step(twice, HostReads), HostMoves(d)), HostMoves(d)), id, d);
  }

  // Sixty-four records

  const ANY_DRAW: Draw := Draw(1, 2, 3, 4, true, 0)

  /** A first pairing that is cut when the host has made its record and the client has not. */
  function CutPairing(w: World, id: nat): World {
    var checked := Step(Step(Challenged(w, id, ANY_DRAW), EnterCode(ANY_DRAW.code)), HostReads);
    Step(Step(Step(checked, HostMoves(ANY_DRAW)), HostMoves(ANY_DRAW)), Cut)
  }

  /** First pairings of the clients from 0 up, each of them cut. */
  function CutPairings(n: nat): World {
    if n == 0 then START else CutPairing(CutPairings(n - 1), n - 1)
  }

  lemma OneCut(w: World, id: nat)
    requires w.link.None? && id !in w.saved && |w.devices| < MAX_DEVICES
    ensures CutPairing(w, id) == World(w.devices[id := 3], w.devices[id := 3], w.saved, None)
  {
    var d := ANY_DRAW;
    var u := Challenged(w, id, d);
    ChallengeReached(w, id, d);
    EnteredOnce(w, u, id, d);
    var checked := Step(Step(u, EnterCode(d.code)), HostReads);
    TrustThenProof(w, checked, id, d, 1);
    hide Challenged, TrustingAt, ChallengeAt;
    var proven := Step(Step(checked, HostMoves(d)), HostMoves(d));
    assert proven.devices == proven.disk == w.devices[id := 3] && proven.saved == w.saved;
    assert Step(proven, Cut) == proven.(link := None);
  }

  /** The records these leave. */
  function CutRecords(n: nat): map<nat, nat> {
    if n == 0 then map[] else CutRecords(n - 1)[n - 1 := 3]
  }

  lemma {:induction false} CutRecordsSize(n: nat)
    ensures |CutRecords(n)| == n && forall id | id in CutRecords(n) :: id < n
  {
    if n > 0 {
      CutRecordsSize(n - 1);
      var m := CutRecords(n - 1);
      assert n - 1 !in m;
      assert m[n - 1 := 3].Keys == m.Keys + {n - 1};
    }
  }

  lemma {:induction false} ManyCut(n: nat)
    requires n <= MAX_DEVICES
    ensures CutPairings(n) == World(CutRecords(n), CutRecords(n), map[], None)
  {
    hide *;
    CutTurn(n);
    if n > 0 {
      ManyCut(n - 1);
      CutRecordsSize(n - 1);
      OneCut(CutPairings(n - 1), n - 1);
    }
  }

  lemma CutTurn(n: nat)
    ensures if n == 0 then CutPairings(n) == World(CutRecords(n), CutRecords(n), map[], None)
            else
              && CutPairings(n) == CutPairing(CutPairings(n - 1), n - 1)
              && CutRecords(n) == CutRecords(n - 1)[n - 1 := 3]
  {
    hide CutPairing;
  }

  /**
   The limit in a run: after 64 first pairings, all cut, the client with id 63 is on record and cannot
   pair again, though its new record would only replace the old one.
   */
  lemma LimitReached()
    ensures var w := CutPairings(MAX_DEVICES);
            var t := Paired(w, 63, ANY_DRAW);
            && 63 in w.devices && 63 !in w.saved
            && 63 !in t.saved && t.link.Some? && t.link.value.host.pc == HostFailed(DeviceLimit)
  {
    ManyCut(MAX_DEVICES);
    CutRecordsSize(MAX_DEVICES);
    assert 63 in CutRecords(MAX_DEVICES);
    hide CutPairings, Paired, CutRecords;
    FreshPairing(CutPairings(MAX_DEVICES), 63, ANY_DRAW);
  }
}
