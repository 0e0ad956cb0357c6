/**
 What one turn of the pipeline's loop does, told from the state before, the command and the world's answers: which
 calls are made, which monitor is left, and what is encoded.
 */
module PipelineLaws {
  import opened Base
  import opened Pipeline

  // How a turn ends

  /** Everything is given up: the driver's handle is closed, behind a STOP, and with it goes the monitor. */
  ghost predicate GivenUp(p: Pipe, q: Pipe) {
    && q.state == Idle && !q.open && q.monitor == None && q.encoder == None && !q.input
    && q.modes == p.modes && q.serial == p.serial && q.frames == p.frames
    && q.calls == p.calls + (if p.open then [Stop, Close] else [])
  }

  /** The session is over: one STOP if the driver is open, and everything given up if that is refused. */
  ghost predicate Ended(p: Pipe, q: Pipe, w: World) {
    && q.state == Idle && q.monitor == None && q.encoder == None && !q.input
    && q.open == (p.open && w.stopped)
    && q.modes == p.modes && q.serial == p.serial && q.frames == p.frames
    && q.calls == p.calls + (if !p.open then [] else if w.stopped then [Stop] else [Stop, Stop, Close])
  }

  /** `n` frames more than before, numbered on. */
  ghost predicate MoreFrames(p: Pipe, q: Pipe, n: nat) {
    && q.serial == p.serial + n && |q.frames| == |p.frames| + n
    && (forall i | 0 <= i < |p.frames| :: q.frames[i] == p.frames[i])
    && (forall i | |p.frames| <= i < |q.frames| :: q.frames[i] == p.serial + 1 + i - |p.frames|)
  }

  /**
   The streaming part of a turn. Input comes with the placement. Nothing is encoded before there is input and a
   picture, and waiting for them ends in time. Then there is an encoder for the driver's generation, and at most
   four frames are taken from it.
   */
  ghost predicate StreamsOn(p: Pipe, q: Pipe, w: World) {
    var input := p.input || w.attempt == Placed(true);
    var placed := p.input || w.attempt != Placed(false);
    var shows := placed && p.open && w.status && w.visible && input;
    var encodes := shows && (p.encoder == Some(w.generation) || w.encoder) && w.tuned;
    var fails := !placed || !p.open || !w.status
                 || (if shows then !encodes || !w.polled || !w.consumed else w.late);
    && q.modes == p.modes && MoreFrames(p, q, if !encodes then 0 else if w.frames < 4 then w.frames else 4)
    && if fails then
         && q.state == Idle && !q.open && q.monitor == None && q.encoder == None && !q.input
         && q.calls == p.calls + (if p.open then [Stop, Close] else [])
       else
         && q.state == p.state && q.open && q.monitor == p.monitor && q.calls == p.calls
         && q.input == input && q.encoder == if shows then Some(w.generation) else p.encoder
  }

  /** What the rest of a turn makes of the state behind the command. */
  ghost predicate Goes(p: Pipe, q: Pipe, w: World) {
    match p.state
    case Grace(_, deadline) => if w.now >= deadline then Ended(p, q, w) else q == p
    case Streaming(_) => StreamsOn(p, q, w)
    case Idle => q == p
  }

  /** A turn that got past its command. */
  lemma TurnGoes(p: Pipe, r: Pipe, w: World)
    requires Commanded(p, w) == Go(r) && Sound(r)
    ensures Turn(p, w).1 && Goes(r, Turn(p, w).0, w)
  {
    hide Commanded, Streamed, Sound;
    if r.state.Streaming? {
      assert Operation(p, w) == Streamed(r, w);
      StreamsLaw(r, w);
    } else {
      EndsLaw(r, w);
    }
  }

  /** The turn of which nothing is left but the streaming part. */
  function Closing(r: Part): Pipe {
    if r.Fail? then Abandoned(r.p) else r.p
  }

  lemma {:induction false} PolledFrames(p: Pipe, n: nat)
    ensures MoreFrames(p, Polled(p, n), n)
  {
    if n > 0 {
      PolledFrames(p, n - 1);
    }
  }

  lemma {:induction false} PolledRest(p: Pipe, n: nat)
    ensures var q := Polled(p, n); q == p.(serial := q.serial, frames := q.frames)
  {
    if n > 0 {
      PolledRest(p, n - 1);
    }
  }

  lemma MoreAlike(p: Pipe, r: Pipe, q: Pipe, t: Pipe, n: nat)
    requires MoreFrames(p, q, n)
    requires r.serial == p.serial && r.frames == p.frames && t.serial == q.serial && t.frames == q.frames
    ensures MoreFrames(r, t, n)
  {
  }

  lemma StreamsLaw(p: Pipe, w: World)
    requires Sound(p) && p.state.Streaming?
    ensures !Streamed(p, w).Quit? && StreamsOn(p, Closing(Streamed(p, w)), w)
  {
    var r := Streamed(p, w);
    var t := Closing(r);
    var n := if w.frames < 4 then w.frames else 4;
    var e := p.(encoder := Some(w.generation), input := p.input || w.attempt == Placed(true));
    PolledFrames(e, n);
    PolledRest(e, n);
    hide Polled, MoreFrames;
    assert p.calls + [] == p.calls;
    if (p.input || w.attempt != Placed(false)) && p.open && w.status && w.visible && e.input
       && (p.encoder == Some(w.generation) || w.encoder) && w.tuned {
      assert r.p == Polled(e, n);
      MoreAlike(e, p, Polled(e, n), t, n);
    } else {
      NoneMore(p, t);
    }
  }

  lemma NoneMore(p: Pipe, q: Pipe)
    requires q.serial == p.serial && q.frames == p.frames
    ensures MoreFrames(p, q, 0)
  {
  }

  lemma EndsLaw(p: Pipe, w: World)
    requires Sound(p) && !p.state.Streaming?
    ensures !Then(ExpiredPart(p, w), q => Streamed(q, w)).Quit?
    ensures Goes(p, Closing(Then(ExpiredPart(p, w), q => Streamed(q, w))), w)
  {
    hide Numbered;
  }

  /** A turn whose command fails. */
  lemma TurnFails(p: Pipe, r: Pipe, w: World)
    requires Commanded(p, w) == Fail(r) && (r.monitor.Some? ==> r.open)
    ensures Turn(p, w).1 && GivenUp(r, Turn(p, w).0)
  {
    hide Commanded, Streamed;
    assert Operation(p, w) == Fail(r);
    assert r.calls + [] == r.calls;
  }

  // One law for each command

  /** Without a command, and behind one that only the display placement looks at, a turn is its rest. */
  lemma QuietLaw(p: Pipe, w: World)
    requires Sound(p) && (w.command == None || w.command == Some(Placement))
    ensures Turn(p, w).1 && Goes(p, Turn(p, w).0, w)
  {
    assert Commanded(p, w) == Go(p);
    hide Commanded, Sound, Goes, Turn;
    TurnGoes(p, p, w);
  }

  /** Input goes to the injector if there is one; its failure ends the session. */
  lemma InputLaw(p: Pipe, w: World)
    requires Sound(p) && w.command == Some(Input)
    ensures Turn(p, w).1
    ensures if p.input && !w.injected then GivenUp(p, Turn(p, w).0) else Goes(p, Turn(p, w).0, w)
  {
    hide Numbered;
    if p.input && !w.injected {
      TurnFails(p, p, w);
    } else {
      hide Goes, Turn;
      TurnGoes(p, p, w);
    }
  }

  lemma ShutdownLaw(p: Pipe, w: World)
    requires Sound(p) && w.command == Some(Shutdown)
    ensures var (q, on) := Turn(p, w);
            && !on && !q.open && q.monitor == None && q.encoder == None && !q.input
            && q.serial == p.serial && q.frames == p.frames
            && q.calls == p.calls + (if p.open then [Stop, Close] else [])
  {
    assert p.calls + [] == p.calls;
    hide Streamed;
  }

  /**
   A disconnection ends the session at once if it is immediate, or if it comes without grace or after it. Otherwise
   a streaming session goes into grace: nothing is asked of the driver, the monitor stays, and the session is kept
   for its device until the grace is over.
   */
  lemma DisconnectLaw(p: Pipe, w: World, immediate: bool)
    requires Sound(p) && w.command == Some(Disconnect(immediate))
    ensures Turn(p, w).1
    ensures var q := Turn(p, w).0;
            if immediate || (p.state.Streaming? && w.grace == 0) || (p.state.Grace? && w.now >= p.state.deadline) then
              Ended(p, q, w)
            else if p.state.Streaming? then
              q == p.(state := Grace(p.state.device, w.now + w.grace), encoder := None, input := false)
            else q == p
  {
    var gone := p.(encoder := None, input := false);
    if immediate {
      if p.open && !w.stopped {
        var t := gone.(calls := p.calls + [Stop], monitor := if w.cleared then None else p.monitor);
        assert Commanded(p, w) == Fail(t);
        TurnFails(p, t, w);
        assert p.calls + [Stop] + [Stop, Close] == p.calls + [Stop, Stop, Close];
      } else {
        var t := gone.(state := Idle, monitor := None, calls := p.calls + (if p.open then [Stop] else []));
        assert p.calls + [] == p.calls;
        assert Commanded(p, w) == Go(t);
        TurnGoes(p, t, w);
      }
    } else {
      var t := gone.(state := if p.state.Streaming? then Grace(p.state.device, w.now + w.grace) else p.state);
      assert Commanded(p, w) == Go(t);
      TurnGoes(p, t, w);
    }
  }

  /**
   A connection is taken if nothing is reserved, or for this device, and if the driver opens, starts the monitor
   where one is asked for, and there is a mode. A monitor is asked for when there was none, or one with other modes.
   If it is not taken, everything is given up.
   */
  lemma ConnectLaw(p: Pipe, w: World, device: nat, modes: seq<Mode>)
    requires Sound(p) && w.command == Some(Connect(device, modes))
    ensures Turn(p, w).1
    ensures var q := Turn(p, w).0;
            var accepted := p.state.Idle? || (p.state.Grace? && p.state.device == device);
            var ready := p.open || w.handle;
            var asks := p.state.Idle? || modes != p.modes;
            var calls := p.calls + (if accepted && ready && asks then [Start(device, modes)] else []);
            if accepted && ready && (asks ==> w.started) && modes != [] then
              StreamsOn(Pipe(Streaming(device), true, if asks then Some(Monitor(device, modes)) else p.monitor, None,
                             false, modes, p.serial, p.frames, calls), q, w)
            else GivenUp(p.(open := p.open || (accepted && ready), calls := calls), q)
  {
    hide Numbered;
    assert p.calls + [] == p.calls;
    var accepted := p.state.Idle? || (p.state.Grace? && p.state.device == device);
    var ready := p.open || w.handle;
    var asks := p.state.Idle? || modes != p.modes;
    var t := Commanded(p, w).p;
    if accepted && ready && (asks ==> w.started) && modes != [] {
      assert Commanded(p, w) == Go(t);
      CommandedSound(p, w);
      hide Commanded, Turn, StreamsOn;
      TurnGoes(p, t, w);
    } else {
      assert Commanded(p, w) == Fail(t);
      TurnFails(p, t, w);
    }
  }

  /**
   A mode change out of range, or of a size that was not advertised, ends the session. One at the rate all modes
   have changes nothing. Any other sets the rate of every mode, and while streaming restarts the monitor with them.
   */
  lemma ModeLaw(p: Pipe, w: World, m: Mode) returns (modes: seq<Mode>)
    requires Sound(p) && w.command == Some(ModeChange(m))
    ensures |modes| == |p.modes|
    ensures forall i | 0 <= i < |modes| :: modes[i] == Mode(p.modes[i].width, p.modes[i].height, m.fps)
    ensures Turn(p, w).1
    ensures var q := Turn(p, w).0;
            var valid := && 320 <= m.width <= 4094 && m.width % 2 == 0 && 320 <= m.height <= 4094 && m.height % 2 == 0
                         && 30 <= m.fps <= 60
                         && exists i | 0 <= i < |p.modes| ::
                              p.modes[i].width == m.width && p.modes[i].height == m.height;
            if !valid then GivenUp(p, q)
            else if modes == p.modes then Goes(p, q, w)
            else
              var r := p.(encoder := None, input := false, modes := modes);
              if !p.state.Streaming? then Goes(r, q, w)
              else
                var calls := p.calls + [Start(p.state.device, modes)];
                if w.started then
                  Goes(r.(monitor := Some(Monitor(p.state.device, modes)), calls := calls), q, w)
                else GivenUp(r.(calls := calls), q)
  {
    modes := AtRate(p.modes, m.fps);
    RateSame(p.modes, m.fps);
    var t := Commanded(p, w).p;
    assert ModeValid(m) <==> && 320 <= m.width <= 4094 && m.width % 2 == 0 && 320 <= m.height <= 4094
                             && m.height % 2 == 0 && 30 <= m.fps <= 60;
    hide Numbered, AtRate, OtherRate, ModeValid;
    if Commanded(p, w).Go? {
      hide Turn, Goes;
      TurnGoes(p, t, w);
    } else {
      TurnFails(p, t, w);
    }
  }

  lemma RateSame(modes: seq<Mode>, fps: u32)
    ensures OtherRate(modes, fps) <==> AtRate(modes, fps) != modes
  {
    var at := AtRate(modes, fps);
    if OtherRate(modes, fps) {
      var i :| 0 <= i < |modes| && modes[i].fps != fps;
      assert at[i] != modes[i];
    } else {
      assert forall i | 0 <= i < |modes| :: at[i] == modes[i];
    }
  }
}
