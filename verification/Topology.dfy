/** When the host tries to put the displays in order again: changes are coalesced and failures spaced out. */
module Topology {
  import opened Base

  const SETTLE_MS: nat := 200
  const RETRY_MS: nat := 750
  const MAX_RETRIES: nat := 3

  datatype State = State(due: nat, retries: nat, dirty: bool, lastApplied: Option<nat>)

  function Fresh(now: nat): State {
    State(now, 0, true, None)
  }

  /** A change within the quiet time after a failed attempt is its own doing and is ignored. */
  predicate Ignores(s: State, now: nat) {
    s.lastApplied.Some? && now < s.lastApplied.value + RETRY_MS
  }

  function ChangedSpec(s: State, now: nat): State {
    if Ignores(s, now) then s else s.(due := now + SETTLE_MS, retries := 0, dirty := true)
  }

  predicate ReadySpec(s: State, now: nat) {
    s.dirty && s.retries < MAX_RETRIES && now >= s.due
  }

  function ResultSpec(s: State, now: nat, matched: bool): State {
    if matched then s.(dirty := false)
    else s.(dirty := true, retries := s.retries + 1, due := now + RETRY_MS, lastApplied := Some(now))
  }

  class Reconciler {
    var due: nat
    var retries: nat
    var dirty: bool
    var lastApplied: Option<nat>

    constructor (now: nat)
      ensures Value() == Fresh(now)
    {
      due, retries, dirty, lastApplied := now, 0, true, None;
    }

    function Value(): State
      reads this
    {
      State(due, retries, dirty, lastApplied)
    }

    method Changed(now: nat)
      modifies this
      ensures Value() == ChangedSpec(old(Value()), now)
    {
      if lastApplied.Some? && now - lastApplied.value < RETRY_MS {
        return;
      }
      due := now + SETTLE_MS;
      retries := 0;
      dirty := true;
    }

    method Ready(now: nat) returns (r: bool)
      ensures r == ReadySpec(Value(), now)
    {
      r := dirty && retries < MAX_RETRIES && now >= due;
    }

    method Result(now: nat, matched: bool)
      modifies this
      ensures Value() == ResultSpec(old(Value()), now, matched)
    {
      dirty := !matched;
      if !matched {
        retries := retries + 1;
        due := now + RETRY_MS;
        lastApplied := Some(now);
      }
    }
  }

  // Runs

  /** A change reported, or a look whether an attempt is due; an attempt takes until `done`. */
  datatype Event = Change(now: nat) | Look(now: nat, done: nat, matched: bool)

  datatype Entry = Accepted(at: nat) | Tried(start: nat, done: nat, matched: bool)

  /** The reconciler, when its last event ended, and what it did. */
  datatype Run = Run(state: State, now: nat, log: seq<Entry>)

  function Step(r: Run, e: Event): Run {
    match e
    case Change(now) =>
      Run(ChangedSpec(r.state, now), now, if Ignores(r.state, now) then r.log else r.log + [Accepted(now)])
    case Look(now, done, matched) =>
      if ReadySpec(r.state, now) then Run(ResultSpec(r.state, done, matched), done, r.log + [Tried(now, done, matched)])
      else r.(now := done)
  }

  function After(start: nat, es: seq<Event>): Run {
    if es == [] then Run(Fresh(start), start, []) else Step(After(start, es[..|es| - 1]), es[|es| - 1])
  }

  /** The clock does not go back. */
  predicate InTime(r: Run, e: Event) {
    r.now <= e.now && (e.Look? ==> e.now <= e.done)
  }

  ghost predicate AllInTime(start: nat, es: seq<Event>) {
    forall i | 0 <= i < |es| :: InTime(After(start, es[..i]), es[i])
  }

  predicate Unmatched(e: Entry) {
    e.Tried? && !e.matched
  }

  /** An attempt after a failed one starts at least 750 ms after the failure. */
  ghost predicate Spaced(log: seq<Entry>) {
    forall i, j | 0 <= i < j < |log| && Unmatched(log[i]) && log[j].Tried? :: log[i].done + RETRY_MS <= log[j].start
  }

  /** Failed attempts since the last accepted change. */
  function Failures(log: seq<Entry>): nat {
    if log == [] || log[|log| - 1].Accepted? then 0
    else Failures(log[..|log| - 1]) + if Unmatched(log[|log| - 1]) then 1 else 0
  }

  /** No stretch without an accepted change ever holds more than three failed attempts. */
  ghost predicate Bounded(log: seq<Entry>) {
    forall n | 0 <= n <= |log| :: Failures(log[..n]) <= MAX_RETRIES
  }

  ghost predicate RunOk(r: Run) {
    && Spaced(r.log) && Bounded(r.log)
    && Failures(r.log) == r.state.retries <= MAX_RETRIES
    && (forall i | 0 <= i < |r.log| && Unmatched(r.log[i]) ::
          && r.state.lastApplied.Some? && r.log[i].done <= r.state.lastApplied.value
          && (r.state.due >= r.log[i].done + RETRY_MS))
    && (r.state.lastApplied.Some? ==> r.state.lastApplied.value <= r.now)
    && (forall i | 0 <= i < |r.log| && r.log[i].Tried? :: r.log[i].start <= r.log[i].done <= r.now)
  }

  lemma OneMoreBounded(log: seq<Entry>, e: Entry)
    requires Bounded(log) && Failures(log + [e]) <= MAX_RETRIES
    ensures Bounded(log + [e])
  {
    var more := log + [e];
    forall n | 0 <= n <= |more|
      ensures Failures(more[..n]) <= MAX_RETRIES
    {
      if n <= |log| {
        assert more[..n] == log[..n];
      } else {
        assert more[..n] == more;
      }
    }
  }

  lemma ChangeKeeps(r: Run, now: nat)
    requires RunOk(r) && r.now <= now
    ensures RunOk(Step(r, Change(now)))
  {
    if !Ignores(r.state, now) {
      var e := Accepted(now);
      assert Failures(r.log + [e]) == 0;
      OneMoreBounded(r.log, e);
    }
  }

  lemma LookKeeps(r: Run, now: nat, done: nat, matched: bool)
    requires RunOk(r) && r.now <= now <= done
    ensures RunOk(Step(r, Look(now, done, matched)))
  {
    if ReadySpec(r.state, now) {
      var e := Tried(now, done, matched);
      assert (r.log + [e])[..|r.log|] == r.log;
      OneMoreBounded(r.log, e);
    }
  }

  lemma {:induction false} AlwaysSpaced(start: nat, es: seq<Event>)
    requires AllInTime(start, es)
    ensures RunOk(After(start, es))
  {
    hide RunOk, Step;
    if es == [] {
      FreshOk(start);
    } else {
      var k := |es| - 1;
      forall i | 0 <= i < k
        ensures InTime(After(start, es[..k][..i]), es[..k][i])
      {
        assert es[..k][..i] == es[..i];
      }
      AlwaysSpaced(start, es[..k]);
      var r := After(start, es[..k]);
      match es[k]
      case Change(now) => ChangeKeeps(r, now);
      case Look(now, done, matched) => LookKeeps(r, now, done, matched);
    }
  }

  lemma FreshOk(start: nat)
    ensures RunOk(Run(Fresh(start), start, []))
  {
  }

  /** Failed attempts that start in the window from `a` to `b`. */
  function Within(log: seq<Entry>, a: nat, b: nat): nat {
    if log == [] then 0
    else
      var e := log[|log| - 1];
      Within(log[..|log| - 1], a, b) + if Unmatched(e) && a <= e.start <= b then 1 else 0
  }

  lemma {:induction false} WindowBounded(log: seq<Entry>, a: nat, b: nat)
    requires Spaced(log) && a <= b
    requires forall i | 0 <= i < |log| && log[i].Tried? :: log[i].start <= log[i].done
    ensures Within(log, a, b) <= (b - a) / RETRY_MS + 1
    decreases b - a, |log|
  {
    if log != [] {
      var k := |log| - 1;
      var e := log[k];
      if Unmatched(e) && a <= e.start <= b {
        EarlierOnly(log, a, b, k);
        if e.start >= a + RETRY_MS {
          WindowBounded(log[..k], a, e.start - RETRY_MS);
          assert (e.start - RETRY_MS - a) / RETRY_MS + 1 == (e.start - a) / RETRY_MS <= (b - a) / RETRY_MS;
        }
      } else {
        WindowBounded(log[..k], a, b);
      }
    }
  }

  /** Those before the last one in the window started at least 750 ms before it. */
  lemma EarlierOnly(log: seq<Entry>, a: nat, b: nat, k: nat)
    requires Spaced(log) && k < |log| && Unmatched(log[k]) && a <= log[k].start <= b
    requires forall i | 0 <= i < |log| && log[i].Tried? :: log[i].start <= log[i].done
    ensures log[k].start < a + RETRY_MS ==> Within(log[..k], a, b) == 0
    ensures log[k].start >= a + RETRY_MS ==> Within(log[..k], a, b) == Within(log[..k], a, log[k].start - RETRY_MS)
  {
    Squeezed(log[..k], a, b, log[k].start);
  }

  lemma {:induction false} Squeezed(log: seq<Entry>, a: nat, b: nat, s: nat)
    requires s <= b && forall i | 0 <= i < |log| && Unmatched(log[i]) :: log[i].start + RETRY_MS <= s
    ensures s < a + RETRY_MS ==> Within(log, a, b) == 0
    ensures s >= a + RETRY_MS ==> Within(log, a, b) == Within(log, a, s - RETRY_MS)
    decreases |log|
  {
    if log != [] {
      Squeezed(log[..|log| - 1], a, b, s);
    }
  }

  /**
   The retry rate, for every run of one reconciler under a clock that does not go back: an attempt after a
   failed one comes at least 750 ms later, whatever changes are reported; at most three attempts fail
   between accepted changes; so a window of T ms holds at most T / 750 + 1 failed attempts.
   */
  lemma RetryRate(start: nat, es: seq<Event>, a: nat, t: nat)
    requires AllInTime(start, es)
    ensures var log := After(start, es).log;
            Spaced(log) && Bounded(log) && Within(log, a, a + t) <= t / RETRY_MS + 1
  {
    AlwaysSpaced(start, es);
    hide After, Spaced, Bounded;
    WindowBounded(After(start, es).log, a, a + t);
  }

  // When an attempt comes, told from the log

  /** The log ends with something to do: nothing yet, an accepted change, or a failed attempt. */
  predicate Pending(log: seq<Entry>) {
    log == [] || log[|log| - 1].Accepted? || Unmatched(log[|log| - 1])
  }

  /** 200 ms after an accepted change, 750 ms after a failed attempt, and at once in the beginning. */
  function DueBy(log: seq<Entry>, start: nat): nat
    requires Pending(log)
  {
    if log == [] then start
    else
      match log[|log| - 1]
      case Accepted(at) => at + 200
      case Tried(_, done, _) => done + 750
  }

  ghost predicate FailedWithin(log: seq<Entry>, now: nat) {
    exists i | 0 <= i < |log| :: Unmatched(log[i]) && now < log[i].done + 750
  }

  ghost predicate StateOf(r: Run, start: nat) {
    && (r.state.dirty <==> Pending(r.log))
    && (r.state.dirty ==> r.state.due == DueBy(r.log, start))
    && (forall t | r.state.lastApplied == Some(t) ::
          exists i | 0 <= i < |r.log| :: Unmatched(r.log[i]) && r.log[i].done == t)
  }

  lemma StateStep(r: Run, start: nat, e: Event)
    requires StateOf(r, start)
    ensures StateOf(Step(r, e), start)
  {
    var t := Step(r, e);
    if t.state.lastApplied.Some? && t.state.lastApplied == r.state.lastApplied {
      var i :| 0 <= i < |r.log| && Unmatched(r.log[i]) && r.log[i].done == t.state.lastApplied.value;
      assert Unmatched(t.log[i]) && t.log[i].done == t.state.lastApplied.value;
    } else if t.state.lastApplied.Some? {
      assert Unmatched(t.log[|r.log|]);
    }
  }

  lemma {:induction false} AlwaysStateOf(start: nat, es: seq<Event>)
    ensures StateOf(After(start, es), start)
  {
    hide StateOf, Step;
    if es == [] {
      FreshStateOf(start);
    } else {
      AlwaysStateOf(start, es[..|es| - 1]);
      StateStep(After(start, es[..|es| - 1]), start, es[|es| - 1]);
    }
  }

  lemma FreshStateOf(start: nat)
    ensures StateOf(Run(Fresh(start), start, []), start)
  {
  }

  /** What an event adds to the log, told from the log. */
  ghost function Adds(log: seq<Entry>, start: nat, e: Event): seq<Entry> {
    match e
    case Change(now) => if FailedWithin(log, now) then [] else [Accepted(now)]
    case Look(now, done, matched) =>
      if Pending(log) && Failures(log) < 3 && now >= DueBy(log, start) then [Tried(now, done, matched)] else []
  }

  /**
   In every run a look makes an attempt exactly if there is something to do, fewer than three attempts have failed
   since the last accepted change, and the time has come; and a change is accepted exactly if no attempt failed in
   the last 750 ms.
   */
  lemma AttemptExactly(start: nat, es: seq<Event>, e: Event)
    requires AllInTime(start, es) && InTime(After(start, es), e)
    ensures After(start, es + [e]).log == After(start, es).log + Adds(After(start, es).log, start, e)
  {
    AlwaysSpaced(start, es);
    AlwaysStateOf(start, es);
    var r := After(start, es);
    assert (es + [e])[..|es|] == es;
    assert After(start, es + [e]) == Step(r, e);
    hide After, Spaced, Bounded;
    assert e.Change? ==> (FailedWithin(r.log, e.now) <==> Ignores(r.state, e.now));
    assert r.log + [] == r.log;
  }
}
