/**
 Pairing and session set-up between one host and its clients, one connection at a time, over ordered
 reliable streams. Proofs are values that are equal only when made from equal parts; the certificate,
 which both ends of a connection share, is left out of them.
 */
module Handshake {
  import opened Base

  const MAX_DEVICES: nat := 64
  const HOST_ID: nat := 1

  datatype Proof = Proof(key: nat, client: nat, nonce: nat, role: nat)

  datatype Body =
    | Hello(min: u8, max: u8, client: nat, trusted: u8)
    | Version(major: u8)
    | HostInfo(host: nat)
    | Pairing(phase: u8, nonce: nat, proof: Option<Proof>, secret: Option<nat>)
    | Capabilities
    | SessionStart
    | EncoderCapabilities
    | VideoConfig(generation: u32)
    | Ping
    | Pong
    | Statistics
    | KeyframeRequest
    | SessionStop(reason: u8)
    | InputEvent

  /** A packet; session 0 stands for the all-zero token. */
  datatype Packet = Packet(sequence: nat, session: nat, body: Body)

  // The host's records

  /** The host's device secrets, in memory and on disk. */
  datatype Records = Records(devices: map<nat, nat>, disk: map<nat, nat>)

  function TrustSpec(r: Records, client: nat, key: nat, saveOk: bool): (Records, Option<HostError>) {
    if |r.devices| >= MAX_DEVICES then (r, Some(DeviceLimit))
    else
      var kept := r.devices[client := key];
      if saveOk then (Records(kept, kept), None) else (Records(kept, r.disk), Some(SaveFailed))
  }

  class Identity {
    var devices: map<nat, nat>
    var disk: map<nat, nat>

    constructor ()
      ensures Value() == Records(map[], map[])
    {
      devices, disk := map[], map[];
    }

    function Value(): Records
      reads this
    {
      Records(devices, disk)
    }

    method Save(saveOk: bool) returns (ok: bool)
      modifies this`disk
      ensures ok == saveOk && disk == if saveOk then devices else old(disk)
    {
      if saveOk {
        disk := devices;
      }
      return saveOk;
    }

    /** Records a client's secret; at the limit even a client already on record is refused. */
    method Trust(client: nat, key: nat, saveOk: bool) returns (e: Option<HostError>)
      modifies this
      ensures (Value(), e) == TrustSpec(old(Value()), client, key, saveOk)
    {
      if |devices| >= MAX_DEVICES {
        return Some(DeviceLimit);
      }
      devices := devices[client := key];
      var ok := Save(saveOk);
      return if ok then None else Some(SaveFailed);
    }

    method ForgetAll(saveOk: bool) returns (ok: bool)
      modifies this
      ensures devices == map[] && ok == saveOk && disk == if saveOk then map[] else old(disk)
    {
      devices := map[];
      ok := Save(saveOk);
    }
  }

  // The host

  datatype HostError =
    | Replayed | WrongSession | WrongKind | NoVersion | BadTrust | BadAnswer | BadProof | DeviceLimit | SaveFailed

  /** Where the host is in the exchange: what it does or waits for next. */
  datatype HostPc =
    | AwaitHello | SendVersion | SendInfo | SendChallenge | AwaitAnswer | Trusting | SendProof | AwaitCapabilities
    | SendStart | SendEncoder | InSession | Ended | HostFailed(error: HostError)

  datatype Host = Host(
    pc: HostPc, sequence: nat, guard: nat, session: nat, client: nat, trustedFlag: u8,
    key: nat, nonce: nat, isNew: bool, secret: nat, verified: Option<Proof>, connected: bool)

  const NEW_HOST: Host := Host(AwaitHello, 0, 0, 0, 0, 0, 0, 0, false, 0, None, false)

  /** The random values the host draws, what its store answers, and the pipeline's next generation. */
  datatype Draw = Draw(code: nat, nonce: nat, secret: nat, token: nat, saveOk: bool, generation: u32)

  /** What one step of the host leaves: its state, a packet sent, and the device records in memory and on disk. */
  datatype HostTurn = HostTurn(host: Host, sent: Option<Packet>, devices: map<nat, nat>, disk: map<nat, nat>)

  function Fail(h: Host, e: HostError): Host {
    h.(pc := HostFailed(e))
  }

  function Emit(h: Host, body: Body): Option<Packet> {
    Some(Packet(h.sequence + 1, h.session, body))
  }

  /** Sequence number and session of a packet, as checked outside a session. */
  function Checked(h: Host, p: Packet): Host {
    if p.sequence <= h.guard then Fail(h, Replayed)
    else
      var g := h.(guard := p.sequence);
      if p.session != h.session then Fail(g, WrongSession) else g
  }

  /** The host's control stream up to the session: a counter, a guard and the session token. */
  class Control {
    var sequence: nat
    var guard: nat
    var session: nat

    constructor ()
      ensures sequence == 0 && guard == 0 && session == 0
    {
      sequence, guard, session := 0, 0, 0;
    }

    method Send(body: Body) returns (p: Packet)
      modifies this`sequence
      ensures p == Packet(old(sequence) + 1, session, body) && sequence == old(sequence) + 1
    {
      sequence := sequence + 1;
      return Packet(sequence, session, body);
    }

    /** The checks of `Checked`, on the stream's own counters. */
    method Receive(p: Packet) returns (e: Option<HostError>)
      modifies this`guard
      ensures e == if p.sequence <= old(guard) then Some(Replayed)
              else if p.session != session then Some(WrongSession) else None
      ensures guard == if p.sequence <= old(guard) then old(guard) else p.sequence
    {
      if p.sequence <= guard {
        return Some(Replayed);
      }
      guard := p.sequence;
      return if p.session != session then Some(WrongSession) else None;
    }
  }

  /** What is done with the body of a packet received before the session. */
  function HostBody(h: Host, b: Body): Host {
    match h.pc
    case AwaitHello =>
      if !b.Hello? then Fail(h, WrongKind)
      else if b.min > 1 || b.max < 1 || b.min > b.max then Fail(h, NoVersion)
      else h.(pc := SendVersion, client := b.client, trustedFlag := b.trusted)
    case AwaitAnswer =>
      if !b.Pairing? then Fail(h, WrongKind)
      else if b.phase != 2 || b.nonce != h.nonce || b.secret.Some? then Fail(h, BadAnswer)
      else if b.proof != Some(Proof(h.key, h.client, h.nonce, 1)) then Fail(h, BadProof)
      else h.(pc := Trusting, verified := b.proof)
    case AwaitCapabilities =>
      if !b.Capabilities? then Fail(h, WrongKind) else h.(pc := SendStart)
    case _ => h
  }

  function HostReceives(h: Host, p: Packet): (Host, Option<Packet>) {
    if h.pc.InSession? then
      if p.session != h.session then (Fail(h, WrongSession), None)
      else if p.sequence <= h.guard then (Fail(h, Replayed), None)
      else
        var g := h.(guard := p.sequence);
        match p.body
        case SessionStop(_) => (g.(pc := Ended), None)
        case KeyframeRequest => (g, None)
        case Statistics => (g, None)
        case Ping => (g.(sequence := g.sequence + 1), Emit(g, Pong))
        case _ => (Fail(g, WrongKind), None)
    else
      var g := Checked(h, p);
      (if g.pc.HostFailed? then g else HostBody(g, p.body), None)
  }

  function HostSends(h: Host, body: Body, next: HostPc, devices: map<nat, nat>, disk: map<nat, nat>): HostTurn {
    HostTurn(h.(sequence := h.sequence + 1, pc := next), Emit(h, body), devices, disk)
  }

  /** A step the host takes of its own accord. */
  function HostActs(h: Host, devices: map<nat, nat>, disk: map<nat, nat>, d: Draw): HostTurn {
    match h.pc
    case SendVersion => HostSends(h, Version(1), SendInfo, devices, disk)
    case SendInfo => HostSends(h, HostInfo(HOST_ID), SendChallenge, devices, disk)
    case SendChallenge =>
      if h.trustedFlag > 1 then HostTurn(Fail(h, BadTrust), None, devices, disk)
      else
        var known := h.trustedFlag == 1 && h.client in devices;
        var g := h.(isNew := !known, key := if known then devices[h.client] else d.code, nonce := d.nonce);
        HostSends(g, Pairing(if known then 1 else 0, d.nonce, None, None), AwaitAnswer, devices, disk)
    case Trusting =>
      if !h.isNew then HostTurn(h.(pc := SendProof, secret := h.key), None, devices, disk)
      else
        var r := TrustSpec(Records(devices, disk), h.client, d.secret, d.saveOk);
        var g := h.(secret := d.secret);
        HostTurn(if r.1.Some? then Fail(g, r.1.value) else g.(pc := SendProof), None, r.0.devices, r.0.disk)
    case SendProof =>
      HostSends(h, Pairing(3, h.nonce, Some(Proof(h.key, h.client, h.nonce, 2)),
                           if h.isNew then Some(h.secret) else None),
                AwaitCapabilities, devices, disk)
    case SendStart =>
      HostSends(h.(connected := true, session := d.token), SessionStart, SendEncoder, devices, disk)
    case SendEncoder =>
      var t := HostSends(h, EncoderCapabilities, InSession, devices, disk);
      t.(host := t.host.(sequence := 10, guard := 0))
    case InSession => HostSends(h, VideoConfig(d.generation), InSession, devices, disk)
    case _ => HostTurn(h, None, devices, disk)
  }

  // The client

  datatype ClientError = Replay | Unexpected | NoCommonVersion | InvalidProof | NotSaved

  datatype Phase = Connecting | AwaitCode | Streaming

  datatype Client = Client(
    id: nat, phase: Phase, last: nat, session: nat, sequence: nat, hostId: nat, trusted: Option<nat>,
    pairingNew: bool, nonce: Option<nat>, pairKey: nat, configured: bool, generation: Option<u32>,
    verified: Option<Proof>, failure: Option<ClientError>)

  function NewClient(id: nat, trusted: Option<nat>): Client {
    Client(id, Connecting, 0, 0, 0, 0, trusted, false, None, 0, false, None, None, None)
  }

  datatype ClientTurn = ClientTurn(client: Client, sent: Option<Packet>)

  function Reject(c: Client, e: ClientError): ClientTurn {
    ClientTurn(c.(failure := Some(e)), None)
  }

  function ClientSends(c: Client, body: Body): ClientTurn {
    ClientTurn(c.(sequence := c.sequence + 1), Some(Packet(c.sequence + 1, c.session, body)))
  }

  function SendsProof(c: Client): ClientTurn {
    if c.nonce.None? then Reject(c, Unexpected)
    else ClientSends(c, Pairing(2, c.nonce.value, Some(Proof(c.pairKey, c.id, c.nonce.value, 1)), None))
  }

  function ClientPairing(c: Client, b: Body, saveOk: bool): ClientTurn
    requires b.Pairing?
  {
    if b.phase == 0 then ClientTurn(c.(pairingNew := true, nonce := Some(b.nonce), phase := AwaitCode), None)
    else if b.phase == 1 then
      if c.trusted.None? || c.hostId != HOST_ID then Reject(c, InvalidProof)
      else SendsProof(c.(pairingNew := false, nonce := Some(b.nonce), pairKey := c.trusted.value))
    else if b.phase == 3 then
      if c.nonce != Some(b.nonce) || b.proof != Some(Proof(c.pairKey, c.id, b.nonce, 2)) then Reject(c, InvalidProof)
      else if c.pairingNew && b.secret.None? then Reject(c, InvalidProof)
      else if c.pairingNew && !saveOk then Reject(c, NotSaved)
      else
        ClientSends(c.(trusted := if c.pairingNew then b.secret else c.trusted, pairKey := 0, configured := true,
                       phase := Connecting, verified := b.proof), Capabilities)
    else Reject(c, Unexpected)
  }

  function ClientReceives(c: Client, p: Packet, saveOk: bool): ClientTurn {
    if p.sequence <= c.last then Reject(c, Replay)
    else
      var d := c.(last := p.sequence);
      if p.body.SessionStart? && (!d.configured || p.session == 0) then Reject(d, Unexpected)
      else if !p.body.SessionStart? && p.session != d.session then Reject(d, Replay)
      else
        match p.body
        case Version(major) => if major != 1 then Reject(d, NoCommonVersion) else ClientTurn(d, None)
        case HostInfo(host) => ClientTurn(d.(hostId := host), None)
        case Pairing(_, _, _, _) => ClientPairing(d, p.body, saveOk)
        case SessionStart => ClientTurn(d.(session := p.session), None)
        case EncoderCapabilities => ClientTurn(d, None)
        case VideoConfig(g) =>
          if !d.configured then Reject(d, Unexpected)
          else ClientTurn(d.(generation := Some(g), phase := Streaming), None)
        case Pong => ClientTurn(d, None)
        case _ => Reject(d, Unexpected)
  }

  /** The client's session object: the fields its packet handler updates. */
  class SessionModel {
    const id: nat
    var phase: Phase
    var last: nat
    var session: nat
    var sequence: nat
    var hostId: nat
    var trusted: Option<nat>
    var pairingNew: bool
    var nonce: Option<nat>
    var pairKey: nat
    var configured: bool
    var generation: Option<u32>
    var verified: Option<Proof>
    var failure: Option<ClientError>

    constructor (i: nat, t: Option<nat>)
      ensures Value() == NewClient(i, t)
    {
      id, trusted := i, t;
      phase, last, session, sequence, hostId, pairingNew, nonce := Connecting, 0, 0, 0, 0, false, None;
      pairKey, configured, generation, verified, failure := 0, false, None, None, None;
    }

    function Value(): Client
      reads this
    {
      Client(id, phase, last, session, sequence, hostId, trusted, pairingNew, nonce, pairKey, configured, generation,
             verified, failure)
    }

    method Refuse(e: ClientError) returns (sent: Option<Packet>)
      modifies this
      ensures ClientTurn(Value(), sent) == Reject(old(Value()), e)
    {
      failure := Some(e);
      return None;
    }

    method Send(body: Body) returns (sent: Option<Packet>)
      modifies this
      ensures ClientTurn(Value(), sent) == ClientSends(old(Value()), body)
    {
      sequence := sequence + 1;
      return Some(Packet(sequence, session, body));
    }

    method SendProof() returns (sent: Option<Packet>)
      modifies this
      ensures ClientTurn(Value(), sent) == SendsProof(old(Value()))
    {
      if nonce.None? {
        sent := Refuse(Unexpected);
        return;
      }
      sent := Send(Pairing(2, nonce.value, Some(Proof(pairKey, id, nonce.value, 1)), None));
    }

    /** Handles one packet; `saveOk` is what the keychain answers if it is asked. */
    method Receive(p: Packet, saveOk: bool) returns (sent: Option<Packet>)
      modifies this
      ensures ClientTurn(Value(), sent) == ClientReceives(old(Value()), p, saveOk)
    {
      if p.sequence <= last {
        sent := Refuse(Replay);
        return;
      }
      last := p.sequence;
      if p.body.SessionStart? {
        if !configured || p.session == 0 {
          sent := Refuse(Unexpected);
          return;
        }
        session := p.session;
      } else if p.session != session {
        sent := Refuse(Replay);
        return;
      }
      sent := None;
      match p.body
      case Version(major) =>
        if major != 1 {
          sent := Refuse(NoCommonVersion);
        }
      case HostInfo(host) =>
        hostId := host;
      case Pairing(_, _, _, _) =>
        sent := Pair(p.body, saveOk);
      case VideoConfig(g) =>
        if !configured {
          sent := Refuse(Unexpected);
        } else {
          generation, phase := Some(g), Streaming;
        }
      case SessionStart =>
      case EncoderCapabilities =>
      case Pong =>
      case _ =>
        sent := Refuse(Unexpected);
    }

    method Pair(b: Body, saveOk: bool) returns (sent: Option<Packet>)
      requires b.Pairing?
      modifies this
      ensures ClientTurn(Value(), sent) == ClientPairing(old(Value()), b, saveOk)
    {
      if b.phase == 0 {
        pairingNew, nonce, phase := true, Some(b.nonce), AwaitCode;
        return None;
      } else if b.phase == 1 {
        if trusted.None? || hostId != HOST_ID {
          sent := Refuse(InvalidProof);
          return;
        }
        pairingNew, nonce, pairKey := false, Some(b.nonce), trusted.value;
        sent := SendProof();
      } else if b.phase == 3 {
        if nonce != Some(b.nonce) || b.proof != Some(Proof(pairKey, id, b.nonce, 2)) {
          sent := Refuse(InvalidProof);
          return;
        }
        if pairingNew {
          if b.secret.None? {
            sent := Refuse(InvalidProof);
            return;
          }
          if !saveOk {
            sent := Refuse(NotSaved);
            return;
          }
          trusted := b.secret;
        }
        pairKey, configured, phase, verified := 0, true, Connecting, b.proof;
        sent := Send(Capabilities);
      } else {
        sent := Refuse(Unexpected);
      }
    }
  }
}
