/**
 The host's pipeline thread: session, virtual monitor, encoder and input through turns of its loop. What
 the driver and the encoder answer is given with each turn.
 */
module Pipeline {
  import opened Base

  datatype Mode = Mode(width: u32, height: u32, fps: u32)

  datatype SessionState = Idle | Streaming(device: nat) | Grace(device: nat, deadline: nat) {
    predicate Accepts(d: nat) {
      match this
      case Idle => true
      case Streaming(_) => false
      case Grace(mine, _) => mine == d
    }

    function Disconnected(now: nat, grace: nat): SessionState {
      if Streaming? then Grace(device, now + grace) else this
    }

    predicate Expired(now: nat) {
      Grace? && now >= deadline
    }
  }

  datatype Command =
    | Connect(device: nat, modes: seq<Mode>)
    | Disconnect(immediate: bool)
    | Input
    | ModeChange(mode: Mode)
    | Placement
    | Shutdown

  datatype Monitor = Monitor(device: nat, modes: seq<Mode>)

  /** What is asked of the driver. */
  datatype Call = Start(device: nat, modes: seq<Mode>) | Stop | Close

  /** The encoder is present with the generation it was made for. */
  datatype Pipe = Pipe(
    state: SessionState, open: bool, monitor: Option<Monitor>, encoder: Option<nat>, input: bool, modes: seq<Mode>,
    serial: nat, frames: seq<nat>, calls: seq<Call>)

  const NEW_PIPE: Pipe := Pipe(Idle, false, None, None, false, [], 0, [], [])

  /** How a topology attempt ends, if one is due. */
  datatype Attempt = NotDue | Failed | Placed(injector: bool)

  /**
   The world's answers during one turn. `cleared` tells whether a refused START or STOP took the monitor
   away all the same; `frames` is how many encoded frames are polled, and `polled` whether that ends well.
   */
  datatype World = World(
    command: Option<Command>, now: nat, grace: nat, handle: bool, started: bool, stopped: bool, cleared: bool,
    injected: bool, attempt: Attempt, status: bool, visible: bool, late: bool, generation: nat, encoder: bool,
    tuned: bool, frames: nat, polled: bool, consumed: bool)

  /** How a part of a turn ends: it goes on, the turn is over, it failed, or the thread ends. */
  datatype Part = Go(p: Pipe) | Over(p: Pipe) | Fail(p: Pipe) | Quit(p: Pipe)

  function DriverStart(p: Pipe, device: nat, modes: seq<Mode>, w: World): Part {
    var q := p.(calls := p.calls + [Start(device, modes)]);
    if !p.open then Fail(p)
    else if w.started then Go(q.(monitor := Some(Monitor(device, modes))))
    else Fail(if w.cleared then q.(monitor := None) else q)
  }

  function DriverStop(p: Pipe, w: World): Part {
    var q := p.(calls := p.calls + [Stop]);
    if !p.open then Go(p)
    else if w.stopped then Go(q.(monitor := None))
    else Fail(if w.cleared then q.(monitor := None) else q)
  }

  function Connected(p: Pipe, device: nat, modes: seq<Mode>, w: World): Part {
    if !p.state.Accepts(device) then Fail(p)
    else if !p.open && !w.handle then Fail(p)
    else
      var q := p.(open := true);
      var r := if p.state.Idle? || modes != p.modes then DriverStart(q, device, modes, w) else Go(q);
      if !r.Go? then r
      else if modes == [] then Fail(r.p)
      else Go(r.p.(modes := modes, state := Streaming(device), encoder := None, input := false))
  }

  function Disconnected(p: Pipe, immediate: bool, w: World): Part {
    var q := p.(encoder := None, input := false);
    if !immediate then Go(q.(state := p.state.Disconnected(w.now, w.grace)))
    else
      var r := DriverStop(q, w);
      if r.Go? then Go(r.p.(state := Idle)) else r
  }

  predicate ModeValid(m: Mode) {
    && 320 <= m.width <= 4094 && 320 <= m.height <= 4094 && m.width % 2 == 0 && m.height % 2 == 0 && 30 <= m.fps <= 60
  }

  predicate Advertised(modes: seq<Mode>, m: Mode) {
    exists i | 0 <= i < |modes| :: modes[i].width == m.width && modes[i].height == m.height
  }

  predicate OtherRate(modes: seq<Mode>, fps: u32) {
    exists i | 0 <= i < |modes| :: modes[i].fps != fps
  }

  function AtRate(modes: seq<Mode>, fps: u32): (r: seq<Mode>)
    ensures |r| == |modes| && forall i | 0 <= i < |r| :: r[i] == modes[i].(fps := fps)
  {
    if modes == [] then [] else AtRate(modes[..|modes| - 1], fps) + [modes[|modes| - 1].(fps := fps)]
  }

  function ModeChanged(p: Pipe, m: Mode, w: World): Part {
    if !ModeValid(m) || !Advertised(p.modes, m) then Fail(p)
    else if !OtherRate(p.modes, m.fps) then Go(p)
    else
      var q := p.(encoder := None, input := false, modes := AtRate(p.modes, m.fps));
      if p.state.Streaming? then DriverStart(q, p.state.device, q.modes, w) else Go(q)
  }

  function Commanded(p: Pipe, w: World): Part {
    match w.command
    case None => Go(p)
    case Some(c) =>
      match c
      case Connect(device, modes) => Connected(p, device, modes, w)
      case Disconnect(immediate) => Disconnected(p, immediate, w)
      case Input => if p.input && !w.injected then Fail(p) else Go(p)
      case ModeChange(m) => ModeChanged(p, m, w)
      case Placement => Go(p)
      case Shutdown => Quit(p)
  }

  function ExpiredPart(p: Pipe, w: World): Part {
    if !p.state.Expired(w.now) then Go(p)
    else
      var r := DriverStop(p, w);
      if r.Go? then Go(r.p.(state := Idle)) else r
  }

  function Reconciled(p: Pipe, w: World): Part {
    match w.attempt
    case NotDue => Go(p)
    case Failed => Go(p)
    case Placed(injector) => if p.input then Go(p) else if injector then Go(p.(input := true)) else Fail(p)
  }

  /** The next `n` frames, numbered on. */
  function Polled(p: Pipe, n: nat): Pipe {
    if n == 0 then p
    else
      var q := Polled(p, n - 1);
      q.(serial := q.serial + 1, frames := q.frames + [q.serial + 1])
  }

  function Encoded(p: Pipe, w: World): Part {
    if !w.visible || !p.input then (if w.late then Fail(p) else Over(p))
    else if p.encoder != Some(w.generation) && !w.encoder then Fail(p.(encoder := None))
    else
      var q := p.(encoder := Some(w.generation));
      if !w.tuned then Fail(q)
      else
        var r := Polled(q, if w.frames < 4 then w.frames else 4);
        if !w.polled || !w.consumed then Fail(r) else Over(r)
  }

  function Then(a: Part, f: Pipe -> Part): Part {
    if a.Go? then f(a.p) else a
  }

  function Streamed(p: Pipe, w: World): Part {
    if !p.state.Streaming? then Over(p)
    else
      var r := Reconciled(p, w);
      if !r.Go? then r
      else if !r.p.open || !w.status then Fail(r.p)
      else Encoded(r.p, w)
  }

  /** What a turn does before errors are handled. */
  function Operation(p: Pipe, w: World): Part {
    Then(Then(Commanded(p, w), q => ExpiredPart(q, w)), q => Streamed(q, w))
  }

  /** Closing the handle makes the driver take its monitor away. */
  function Closed(p: Pipe): Pipe {
    if p.open then p.(open := false, monitor := None, calls := p.calls + [Stop, Close]) else p
  }

  function Abandoned(p: Pipe): Pipe {
    Closed(p).(encoder := None, input := false, state := Idle)
  }

  /** One turn of the loop, and whether there is another. */
  function Turn(p: Pipe, w: World): (Pipe, bool) {
    match Operation(p, w)
    case Go(q) => (q, true)
    case Over(q) => (q, true)
    case Fail(q) => (Abandoned(q), true)
    case Quit(q) => (Closed(q).(encoder := None, input := false), false)
  }

  // What holds at the end of every turn

  /** The frames handed out so far are numbered from 1 without a gap. */
  ghost predicate Numbered(p: Pipe) {
    p.serial == |p.frames| && forall i | 0 <= i < |p.frames| :: p.frames[i] == i + 1
  }

  ghost predicate Sound(p: Pipe) {
    && (p.monitor.Some? <==> !p.state.Idle?)
    && (p.encoder.Some? ==> p.input)
    && (p.input ==> p.state.Streaming?)
    && (!p.state.Idle? ==> p.open && p.monitor.value.device == p.state.device)
    && Numbered(p)
  }

  /** The same in the middle of a turn that has failed: only what the error path does not put right. */
  ghost predicate Mendable(p: Pipe) {
    Numbered(p) && (p.monitor.Some? ==> p.open)
  }

  ghost predicate PartSound(r: Part) {
    if r.Go? || r.Over? then Sound(r.p) else Mendable(r.p)
  }

  lemma ConnectedSound(p: Pipe, device: nat, modes: seq<Mode>, w: World)
    requires Sound(p)
    ensures PartSound(Connected(p, device, modes, w))
  {
  }

  lemma DisconnectedSound(p: Pipe, immediate: bool, w: World)
    requires Sound(p)
    ensures PartSound(Disconnected(p, immediate, w))
  {
  }

  lemma ModeChangedSound(p: Pipe, m: Mode, w: World)
    requires Sound(p)
    ensures PartSound(ModeChanged(p, m, w))
  {
    hide Advertised, OtherRate, AtRate, ModeValid;
  }

  lemma CommandedSound(p: Pipe, w: World)
    requires Sound(p)
    ensures PartSound(Commanded(p, w))
  {
    if w.command.Some? {
      hide Connected, Disconnected, ModeChanged;
      match w.command.value
      case Connect(device, modes) => ConnectedSound(p, device, modes, w);
      case Disconnect(immediate) => DisconnectedSound(p, immediate, w);
      case ModeChange(m) => ModeChangedSound(p, m, w);
      case _ =>
    }
  }

  lemma ExpiredSound(p: Pipe, w: World)
    requires Sound(p)
    ensures PartSound(ExpiredPart(p, w))
  {
  }

  lemma {:induction false} PolledNumbered(p: Pipe, n: nat)
    requires Numbered(p)
    ensures Numbered(Polled(p, n)) && Polled(p, n) == p.(serial := Polled(p, n).serial, frames := Polled(p, n).frames)
    ensures Polled(p, n).serial == p.serial + n && p.frames <= Polled(p, n).frames
  {
    if n > 0 {
      PolledNumbered(p, n - 1);
    }
  }

  lemma StreamedSound(p: Pipe, w: World)
    requires Sound(p)
    ensures PartSound(Streamed(p, w))
  {
    var n := if w.frames < 4 then w.frames else 4;
    PolledNumbered(p.(encoder := Some(w.generation), input := true), n);
    PolledNumbered(p.(encoder := Some(w.generation)), n);
    hide Polled;
  }

  lemma OperationSound(p: Pipe, w: World)
    requires Sound(p)
    ensures PartSound(Operation(p, w))
  {
    hide Commanded, ExpiredPart, Streamed, Sound;
    CommandedSound(p, w);
    var a := Commanded(p, w);
    if a.Go? {
      ExpiredSound(a.p, w);
      var b := ExpiredPart(a.p, w);
      if b.Go? {
        StreamedSound(b.p, w);
      }
    }
  }

  lemma TurnSound(p: Pipe, w: World)
    requires Sound(p)
    ensures Turn(p, w).1 ==> Sound(Turn(p, w).0)
    ensures !Turn(p, w).1 ==> Turn(p, w).0.monitor.None? && Numbered(Turn(p, w).0)
  {
    hide Operation;
    OperationSound(p, w);
  }

  /** The pipeline after turns that all went on. */
  function After(ws: seq<World>): Pipe {
    if ws == [] then NEW_PIPE else Turn(After(ws[..|ws| - 1]), ws[|ws| - 1]).0
  }

  ghost predicate GoesOn(ws: seq<World>) {
    forall i | 0 <= i < |ws| :: Turn(After(ws[..i]), ws[i]).1
  }

  /**
   The life cycle, over every sequence of commands with every outcome of the calls: at the end of each turn
   there is a monitor exactly when the state is not idle, and it is the session's; encoder implies input
   implies streaming implies an open driver; and frames are numbered from 1 without a gap, across sessions.
   */
  lemma {:induction false} AlwaysSound(ws: seq<World>)
    requires GoesOn(ws)
    ensures Sound(After(ws))
  {
    hide Turn, Sound;
    if ws == [] {
      NewSound();
    } else {
      var k := |ws| - 1;
      forall i | 0 <= i < k
        ensures Turn(After(ws[..k][..i]), ws[..k][i]).1
      {
        assert ws[..k][..i] == ws[..i];
      }
      AlwaysSound(ws[..k]);
      TurnSound(After(ws[..k]), ws[k]);
    }
  }

  lemma NewSound()
    ensures Sound(NEW_PIPE)
  {
  }

  /** Whatever ends the thread, no monitor is left. */
  lemma NoMonitorAtEnd(ws: seq<World>, w: World)
    requires GoesOn(ws) && !Turn(After(ws), w).1
    ensures Turn(After(ws), w).0.monitor.None?
  {
    hide After, GoesOn, Turn;
    AlwaysSound(ws);
    TurnSound(After(ws), w);
  }

  // Who may connect

  /** No call after the first `n` starts a monitor for a device other than `d`. */
  ghost predicate StartsOnly(calls: seq<Call>, n: nat, d: nat) {
    forall i | n <= i < |calls| && calls[i].Start? :: calls[i].device == d
  }

  /** A monitor is only ever started for the device of the session, or by a connection when there is none. */
  lemma StartsForOwner(p: Pipe, w: World)
    requires Sound(p) && !p.state.Idle?
    ensures StartsOnly(Turn(p, w).0.calls, |p.calls|, p.state.device)
  {
    hide Advertised, OtherRate, AtRate, ModeValid, Numbered;
    CommandCalls(p, w);
    OperationCalls(p, w);
    hide Operation, Commanded;
  }

  lemma CommandCalls(p: Pipe, w: World)
    requires Sound(p) && !p.state.Idle?
    ensures var r := Commanded(p, w).p; |p.calls| <= |r.calls| && StartsOnly(r.calls, |p.calls|, p.state.device)
  {
    hide Advertised, OtherRate, AtRate, ModeValid, Numbered;
  }

  lemma {:induction false} PolledCalls(p: Pipe, n: nat)
    ensures Polled(p, n).calls == p.calls
  {
    if n > 0 {
      PolledCalls(p, n - 1);
    }
  }

  lemma StreamedCalls(p: Pipe, w: World)
    ensures Streamed(p, w).p.calls == p.calls
  {
    var n := if w.frames < 4 then w.frames else 4;
    PolledCalls(p.(encoder := Some(w.generation), input := true), n);
    PolledCalls(p.(encoder := Some(w.generation)), n);
    hide Polled;
  }

  lemma ExpiredCalls(p: Pipe, w: World)
    ensures var r := ExpiredPart(p, w).p; r.calls == p.calls || r.calls == p.calls + [Stop]
    ensures !p.state.Expired(w.now) ==> ExpiredPart(p, w) == Go(p)
  {
  }

  lemma OperationCalls(p: Pipe, w: World)
    ensures var c, r := Commanded(p, w).p.calls, Operation(p, w).p.calls; r == c || r == c + [Stop]
  {
    hide Commanded, ExpiredPart, Streamed;
    var a := Commanded(p, w);
    if a.Go? {
      ExpiredCalls(a.p, w);
      var b := ExpiredPart(a.p, w);
      if b.Go? {
        StreamedCalls(b.p, w);
      }
    }
  }

  /** During grace another device is turned away: no monitor is started for it, and the reservation ends. */
  lemma OtherDeviceRefused(p: Pipe, w: World, other: nat, modes: seq<Mode>)
    requires Sound(p) && p.state.Grace? && other != p.state.device && w.command == Some(Connect(other, modes))
    ensures var (q, on) := Turn(p, w);
            on && q.state.Idle? && q.monitor.None? && StartsOnly(q.calls, |p.calls|, p.state.device)
  {
    StartsForOwner(p, w);
    assert Operation(p, w) == Fail(p);
  }

  /** The same device coming back during grace with the same modes keeps its monitor: nothing is asked of the driver. */
  lemma SameDeviceKeepsMonitor(p: Pipe, w: World)
    requires Sound(p) && p.state.Grace? && p.modes != [] && w.command == Some(Connect(p.state.device, p.modes))
    ensures var r := Operation(p, w);
            && r.p.calls == p.calls && r.p.monitor == p.monitor
            && (!r.Fail? ==> Turn(p, w).0.calls == p.calls && Turn(p, w).0.monitor == p.monitor)
  {
    var q := p.(state := Streaming(p.state.device), encoder := None, input := false);
    assert Commanded(p, w) == Go(q);
    assert ExpiredPart(q, w) == Go(q);
    StreamedCalls(q, w);
    StreamedMonitor(q, w);
    hide Streamed;
  }

  lemma {:induction false} PolledMonitor(p: Pipe, n: nat)
    ensures Polled(p, n).monitor == p.monitor && Polled(p, n).modes == p.modes && Polled(p, n).state == p.state
  {
    if n > 0 {
      PolledMonitor(p, n - 1);
    }
  }

  lemma StreamedMonitor(p: Pipe, w: World)
    ensures var r := Streamed(p, w).p; r.monitor == p.monitor && r.modes == p.modes && r.state == p.state
  {
    var n := if w.frames < 4 then w.frames else 4;
    PolledMonitor(p.(encoder := Some(w.generation), input := true), n);
    PolledMonitor(p.(encoder := Some(w.generation)), n);
    hide Polled;
  }

  // Which modes the monitor shows

  /** The monitor was started with the modes the pipeline believes in. */
  ghost predicate Current(p: Pipe) {
    p.monitor.Some? ==> p.monitor.value.modes == p.modes
  }

  /** A mode change that is taken during grace alters the modes believed in, but not the monitor's. */
  predicate ChangesUnseen(p: Pipe, w: World) {
    && p.state.Grace? && !p.state.Expired(w.now)
    && w.command.Some? && w.command.value.ModeChange?
    && ModeValid(w.command.value.mode) && Advertised(p.modes, w.command.value.mode)
    && OtherRate(p.modes, w.command.value.mode.fps)
  }

  predicate TakesMode(p: Pipe, w: World) {
    && p.state.Grace?
    && w.command.Some? && w.command.value.ModeChange?
    && ModeValid(w.command.value.mode) && Advertised(p.modes, w.command.value.mode)
    && OtherRate(p.modes, w.command.value.mode.fps)
  }

  lemma CommandCurrent(p: Pipe, w: World)
    requires Sound(p) && Current(p) && Commanded(p, w).Go?
    ensures if TakesMode(p, w) then !Current(Commanded(p, w).p) && Commanded(p, w).p.state == p.state
            else
              && Current(Commanded(p, w).p)
              && (p.state.Grace? && w.command.Some? && w.command.value.ModeChange? ==> Commanded(p, w).p == p)
  {
    if TakesMode(p, w) {
      var m := w.command.value.mode;
      assert AtRate(p.modes, m.fps) != p.modes by {
        var i :| 0 <= i < |p.modes| && p.modes[i].fps != m.fps;
        assert AtRate(p.modes, m.fps)[i] != p.modes[i];
      }
    }
    hide Advertised, AtRate, ModeValid, Numbered, OtherRate;
  }

  lemma ExpiredCurrent(p: Pipe, w: World)
    requires ExpiredPart(p, w).Go? && (p.monitor.Some? ==> p.open)
    ensures if p.state.Expired(w.now) then ExpiredPart(p, w).p.monitor.None? else ExpiredPart(p, w).p == p
  {
  }

  /**
   At the end of a turn the monitor shows the modes the pipeline goes by, as before it, exactly when the
   turn does not take a mode change with a new rate during grace: that one never reaches the driver.
   */
  lemma ModesCurrent(p: Pipe, w: World)
    requires Sound(p) && Current(p) && Turn(p, w).1
    ensures Current(Turn(p, w).0) <==> !ChangesUnseen(p, w)
  {
    hide Numbered, ModeValid, Advertised, OtherRate, Commanded, Streamed;
    CommandedSound(p, w);
    QuitsOnly(p, w);
    var a := Commanded(p, w);
    if a.Go? {
      CommandCurrent(p, w);
      var b := ExpiredPart(a.p, w);
      if b.Go? {
        ExpiredCurrent(a.p, w);
        StreamedMonitor(b.p, w);
        StreamedEnds(b.p, w);
      }
    }
    assert ChangesUnseen(p, w) <==> TakesMode(p, w) && !p.state.Expired(w.now);
  }

  /** Over every run in which no turn does that, the monitor shows the modes the pipeline goes by. */
  lemma {:induction false} AlwaysCurrent(ws: seq<World>)
    requires GoesOn(ws) && forall i | 0 <= i < |ws| :: !ChangesUnseen(After(ws[..i]), ws[i])
    ensures Current(After(ws))
  {
    hide Turn, Sound, Current, ChangesUnseen;
    if ws == [] {
      NewCurrent();
    } else {
      var k := |ws| - 1;
      forall i | 0 <= i < k
        ensures Turn(After(ws[..k][..i]), ws[..k][i]).1 && !ChangesUnseen(After(ws[..k][..i]), ws[..k][i])
      {
        assert ws[..k][..i] == ws[..i];
      }
      AlwaysCurrent(ws[..k]);
      AlwaysSound(ws[..k]);
      ModesCurrent(After(ws[..k]), ws[k]);
    }
  }

  lemma NewCurrent()
    ensures Current(NEW_PIPE)
  {
  }

  lemma QuitsOnly(p: Pipe, w: World)
    ensures !Commanded(p, w).Over? && (TakesMode(p, w) ==> Commanded(p, w).Go?)
  {
    hide ModeValid, Advertised, OtherRate, AtRate;
  }

  /** Outside streaming the last part of a turn does nothing. */
  lemma StreamedEnds(p: Pipe, w: World)
    ensures !p.state.Streaming? ==> Streamed(p, w) == Over(p)
    ensures !Streamed(p, w).Quit?
  {
  }

  // The thread

  datatype Status = Going | Finished | Failing | Quitting

  function Ending(r: Part): Status {
    match r
    case Go(_) => Going
    case Over(_) => Finished
    case Fail(_) => Failing
    case Quit(_) => Quitting
  }

  class PipelineThread {
    var state: SessionState
    var open: bool
    /** The driver's monitor. */
    var monitor: Option<Monitor>
    var encoder: Option<nat>
    var input: bool
    var modes: seq<Mode>
    var serial: nat
    var frames: seq<nat>
    var calls: seq<Call>

    constructor ()
      ensures Value() == NEW_PIPE
    {
      state, open, monitor, encoder, input, modes, serial, frames, calls := Idle, false, None, None, false, [], 0,
        [], [];
    }

    function Value(): Pipe
      reads this
    {
      Pipe(state, open, monitor, encoder, input, modes, serial, frames, calls)
    }

    method StartMonitor(device: nat, wanted: seq<Mode>, w: World) returns (s: Status)
      modifies this
      ensures var r := DriverStart(old(Value()), device, wanted, w); Value() == r.p && s == Ending(r)
    {
      if !open {
        return Failing;
      }
      calls := calls + [Start(device, wanted)];
      if w.started {
        monitor := Some(Monitor(device, wanted));
        return Going;
      }
      if w.cleared {
        monitor := None;
      }
      return Failing;
    }

    method StopMonitor(w: World) returns (s: Status)
      modifies this
      ensures var r := DriverStop(old(Value()), w); Value() == r.p && s == Ending(r)
    {
      if !open {
        return Going;
      }
      calls := calls + [Stop];
      if w.stopped || w.cleared {
        monitor := None;
      }
      return if w.stopped then Going else Failing;
    }

    method HandleConnect(device: nat, wanted: seq<Mode>, w: World) returns (s: Status)
      modifies this
      ensures var r := Connected(old(Value()), device, wanted, w); Value() == r.p && s == Ending(r)
    {
      if !state.Accepts(device) {
        return Failing;
      }
      if !open {
        if !w.handle {
          return Failing;
        }
        open := true;
      }
      if state.Idle? || wanted != modes {
        s := StartMonitor(device, wanted, w);
        if !s.Going? {
          return;
        }
      }
      if wanted == [] {
        return Failing;
      }
      modes := wanted;
      state := Streaming(device);
      encoder, input := None, false;
      return Going;
    }

    method HandleDisconnect(immediate: bool, w: World) returns (s: Status)
      modifies this
      ensures var r := Disconnected(old(Value()), immediate, w); Value() == r.p && s == Ending(r)
    {
      encoder, input := None, false;
      if immediate {
        s := StopMonitor(w);
        if s.Going? {
          state := Idle;
        }
        return;
      }
      if state.Streaming? {
        state := Grace(state.device, w.now + w.grace);
      }
      return Going;
    }

    method HandleMode(m: Mode, w: World) returns (s: Status)
      modifies this
      ensures var r := ModeChanged(old(Value()), m, w); Value() == r.p && s == Ending(r)
    {
      hide ModeValid, Advertised, OtherRate;
      if !ModeValid(m) || !Advertised(modes, m) {
        return Failing;
      }
      if OtherRate(modes, m.fps) {
        encoder, input := None, false;
        modes := AtRate(modes, m.fps);
        if state.Streaming? {
          s := StartMonitor(state.device, modes, w);
          return;
        }
      }
      return Going;
    }

    method HandleCommand(w: World) returns (s: Status)
      modifies this
      ensures var r := Commanded(old(Value()), w); Value() == r.p && s == Ending(r)
    {
      hide Connected, Disconnected, ModeChanged;
      match w.command
      case None => return Going;
      case Some(c) =>
        match c
        case Connect(device, wanted) => s := HandleConnect(device, wanted, w);
        case Disconnect(immediate) => s := HandleDisconnect(immediate, w);
        case Input => return if input && !w.injected then Failing else Going;
        case ModeChange(m) => s := HandleMode(m, w);
        case Placement => return Going;
        case Shutdown => return Quitting;
    }

    method Reconcile(w: World) returns (s: Status)
      modifies this
      ensures var r := Reconciled(old(Value()), w); Value() == r.p && s == Ending(r)
    {
      if w.attempt.Placed? && !input {
        if !w.attempt.injector {
          return Failing;
        }
        input := true;
      }
      return Going;
    }

    method Encode(w: World) returns (s: Status)
      modifies this
      ensures var r := Encoded(old(Value()), w); Value() == r.p && s == Ending(r)
    {
      if !w.visible || !input {
        return if w.late then Failing else Finished;
      }
      if encoder != Some(w.generation) {
        encoder := None;
        if !w.encoder {
          return Failing;
        }
        encoder := Some(w.generation);
      }
      if !w.tuned {
        return Failing;
      }
      ghost var start := Value();
      var n := if w.frames < 4 then w.frames else 4;
      for i := 0 to n
        invariant Value() == Polled(start, i)
      {
        PolledLog(start, i);
        serial := serial + 1;
        frames := frames + [serial];
      }
      return if w.polled && w.consumed then Finished else Failing;
    }

    /** One turn of the loop; the answer tells whether there is another. */
    method RunTurn(w: World) returns (on: bool)
      modifies this
      ensures (Value(), on) == Turn(old(Value()), w)
    {
      var s := Operate(w);
      match s
      case Going => return true;
      case Finished => return true;
      case Failing =>
        CloseDriver();
        encoder, input, state := None, false, Idle;
        return true;
      case Quitting =>
        CloseDriver();
        encoder, input := None, false;
        return false;
    }

    method Operate(w: World) returns (s: Status)
      modifies this
      ensures var r := Operation(old(Value()), w); Value() == r.p && s == Ending(r)
    {
      hide Commanded, Reconciled, Encoded;
      s := HandleCommand(w);
      if !s.Going? {
        return;
      }
      if state.Expired(w.now) {
        s := StopMonitor(w);
        if !s.Going? {
          return;
        }
        state := Idle;
      }
      if !state.Streaming? {
        return Finished;
      }
      s := Reconcile(w);
      if !s.Going? {
        return;
      }
      if !open || !w.status {
        return Failing;
      }
      s := Encode(w);
    }

    method CloseDriver()
      modifies this
      ensures Value() == Closed(old(Value()))
    {
      if open {
        calls := calls + [Stop, Close];
        open, monitor := false, None;
      }
    }
  }

  lemma PolledLog(p: Pipe, n: nat)
    ensures var q := Polled(p, n); Polled(p, n + 1) == q.(serial := q.serial + 1, frames := q.frames + [q.serial + 1])
  {
  }

  // A mode change that never reaches the monitor

  const SLOW: Mode := Mode(1920, 1080, 30)
  const FAST: Mode := Mode(1920, 1080, 60)

  /** A turn with this command in which every call succeeds and nothing is shown yet. */
  function Smooth(c: Command): World {
    World(Some(c), 0, 4000, true, true, true, true, true, NotDue, true, false, false, 1, true, true, 0, true, true)
  }

  /**
   A run: a device connects and drops out, a new rate is taken during grace, and the device comes back with
   just these modes. It keeps its monitor, which still has the old rate.
   */
  lemma StaleMonitor()
    ensures var connected := Turn(NEW_PIPE, Smooth(Connect(1, [SLOW]))).0;
            var grace := Turn(connected, Smooth(Disconnect(false))).0;
            var changed := Turn(grace, Smooth(ModeChange(FAST))).0;
            var back := Turn(changed, Smooth(Connect(1, [FAST]))).0;
            && Current(grace) && !Current(changed)
            && changed.state.Grace? && changed.modes == [FAST]
            && back.state == Streaming(1) && back.modes == [FAST]
            && back.monitor == Some(Monitor(1, [SLOW])) && back.calls == [Start(1, [SLOW])]
  {
    ConnectFirst();
    DropOut();
    ChangeRate();
    ComeBack();
    hide Turn;
  }

  const SHOWN: Pipe := Pipe(Streaming(1), true, Some(Monitor(1, [SLOW])), None, false, [SLOW], 0, [],
    [Start(1, [SLOW])])

  lemma ConnectFirst()
    ensures Turn(NEW_PIPE, Smooth(Connect(1, [SLOW]))).0 == SHOWN
  {
  }

  lemma DropOut()
    ensures Turn(SHOWN, Smooth(Disconnect(false))).0 == SHOWN.(state := Grace(1, 4000))
  {
  }

  lemma ChangeRate()
    ensures Turn(SHOWN.(state := Grace(1, 4000)), Smooth(ModeChange(FAST))).0 ==
            SHOWN.(state := Grace(1, 4000), modes := [FAST])
  {
    assert SHOWN.modes[0].width == FAST.width && SHOWN.modes[0].height == FAST.height && SHOWN.modes[0].fps != FAST.fps;
    assert AtRate([SLOW], 60) == [FAST];
  }

  lemma ComeBack()
    ensures Turn(SHOWN.(state := Grace(1, 4000), modes := [FAST]), Smooth(Connect(1, [FAST]))).0 ==
            SHOWN.(modes := [FAST])
  {
  }
}
