/**
 * lib/circuit-breaker.ts: a three-state breaker whose half-open probes carry
 * release closures tied to the probe window that admitted them.
 *
 * `BreakerState` and the functions over it are the specification; the class
 * `CircuitBreaker` and its `ProbeRelease` closures are proved against it.
 */
module Breaker {
  import opened Prelude

  datatype Config = Config(failureThreshold: int, failureWindowMs: int, resetTimeoutMs: int, halfOpenMaxAttempts: int)

  datatype Phase = Closed | Open | HalfOpen

  /** A probe window is an object identity in the source; here it is a number that is never reused. */
  datatype BreakerState = BreakerState(
    phase: Phase, failures: seq<int>, lastStateChange: int, halfOpenAttempts: int, probeWindow: nat)

  datatype Admission = Admitted | Rejected(gate: Phase, retryAfterMs: int)

  function Remaining(b: BreakerState, cfg: Config, now: int): int {
    Max(0, cfg.resetTimeoutMs - (now - b.lastStateChange))
  }

  predicate WaitElapsed(b: BreakerState, cfg: Config, now: int) {
    now - b.lastStateChange >= cfg.resetTimeoutMs
  }

  /** Every change of phase, and every reset of a half-open window, starts a fresh window. */
  function Enter(b: BreakerState, phase: Phase, now: int): BreakerState {
    b.(phase := phase, lastStateChange := now, halfOpenAttempts := 0, probeWindow := b.probeWindow + 1)
  }

  function Prune(failures: seq<int>, cutoff: int): seq<int> {
    if failures == [] then []
    else (if failures[0] >= cutoff then [failures[0]] else []) + Prune(failures[1..], cutoff)
  }

  /** Result of an admission: the new state, the answer, and whether a probe slot was taken. */
  datatype Acquisition = Acquisition(state: BreakerState, answer: Admission, tookSlot: bool)

  function TakeSlot(b: BreakerState): Acquisition {
    Acquisition(b.(halfOpenAttempts := b.halfOpenAttempts + 1), Admitted, true)
  }

  function AcquireHalfOpen(b: BreakerState, cfg: Config, now: int): Acquisition {
    var w := if b.halfOpenAttempts == 0 then Enter(b, HalfOpen, now) else b;
    if w.halfOpenAttempts < cfg.halfOpenMaxAttempts then TakeSlot(w)
    else if WaitElapsed(w, cfg, now) then TakeSlot(Enter(w, HalfOpen, now))
    else Acquisition(w, Rejected(HalfOpen, Remaining(w, cfg, now)), false)
  }

  function Acquire(b: BreakerState, cfg: Config, now: int): Acquisition {
    match b.phase
    case Closed => Acquisition(b, Admitted, false)
    case Open =>
      if WaitElapsed(b, cfg, now) then AcquireHalfOpen(Enter(b, HalfOpen, now), cfg, now)
      else Acquisition(b, Rejected(Open, Remaining(b, cfg, now)), false)
    case HalfOpen => AcquireHalfOpen(b, cfg, now)
  }

  function Released(b: BreakerState, window: nat): BreakerState {
    if b.phase == HalfOpen && b.probeWindow == window then b.(halfOpenAttempts := b.halfOpenAttempts - 1) else b
  }

  function Succeeded(b: BreakerState, cfg: Config, now: int): BreakerState {
    match b.phase
    case HalfOpen => Enter(b, Closed, now).(failures := [])
    case Closed => b.(failures := Prune(b.failures, now - cfg.failureWindowMs))
    case Open => b
  }

  function Failed(b: BreakerState, cfg: Config, now: int): BreakerState {
    var f := b.(failures := Prune(b.failures, now - cfg.failureWindowMs) + [now]);
    if b.phase == HalfOpen || (b.phase == Closed && |f.failures| >= cfg.failureThreshold) then Enter(f, Open, now) else f
  }

  function Available(b: BreakerState, cfg: Config, now: int): bool {
    match b.phase
    case Open => WaitElapsed(b, cfg, now)
    case HalfOpen => b.halfOpenAttempts < cfg.halfOpenMaxAttempts || WaitElapsed(b, cfg, now)
    case Closed => true
  }

  function TimeUntilAvailable(b: BreakerState, cfg: Config, now: int): int {
    if b.phase == Open || (b.phase == HalfOpen && b.halfOpenAttempts >= cfg.halfOpenMaxAttempts)
    then Remaining(b, cfg, now) else 0
  }

  // ---- Admission agrees with the two read-only queries ----

  ghost predicate Agree(b: BreakerState, cfg: Config, now: int) {
    var a := Acquire(b, cfg, now);
    && (a.answer.Admitted? <==> Available(b, cfg, now))
    && (a.answer.Admitted? <==> TimeUntilAvailable(b, cfg, now) == 0)
    && (a.answer.Rejected? ==> a.answer.retryAfterMs == TimeUntilAvailable(b, cfg, now))
  }

  /** With at least one probe slot the three answers agree in every state, at any clock reading. */
  lemma AdmissionAgrees(b: BreakerState, cfg: Config, now: int)
    requires cfg.halfOpenMaxAttempts >= 1 && b.halfOpenAttempts >= 0
    ensures Agree(b, cfg, now)
  {
    if b.phase == Open && WaitElapsed(b, cfg, now) {
      assert AcquireHalfOpen(Enter(b, HalfOpen, now), cfg, now).answer.Admitted?;
    }
  }

  ghost predicate AlwaysAgrees(cfg: Config) {
    forall b: BreakerState, now: int | b.halfOpenAttempts >= 0 && now >= b.lastStateChange :: Agree(b, cfg, now)
  }

  /** The exact condition: a breaker with no probe slot agrees only if its reset timeout is not positive. */
  lemma AgreementCondition(cfg: Config)
    ensures AlwaysAgrees(cfg) <==> cfg.halfOpenMaxAttempts >= 1 || cfg.resetTimeoutMs <= 0
  {
    if cfg.halfOpenMaxAttempts >= 1 {
      forall b: BreakerState, now: int | b.halfOpenAttempts >= 0 ensures Agree(b, cfg, now) {
        AdmissionAgrees(b, cfg, now);
      }
    } else if cfg.resetTimeoutMs > 0 {
      var b := BreakerState(Open, [], 0, 0, 0);
      assert !Agree(b, cfg, cfg.resetTimeoutMs);
    }
  }

  /** Waiting exactly the announced time makes the breaker available, and no shorter wait does. */
  lemma WaitIsExact(b: BreakerState, cfg: Config, now: int, delay: int)
    requires delay >= 0
    ensures Available(b, cfg, now + delay) <==> delay >= TimeUntilAvailable(b, cfg, now)
  {
    if b.phase == Closed || (b.phase == HalfOpen && b.halfOpenAttempts < cfg.halfOpenMaxAttempts) {
      assert TimeUntilAvailable(b, cfg, now) == 0;
    } else {
      assert WaitElapsed(b, cfg, now + delay) <==> delay >= cfg.resetTimeoutMs - (now - b.lastStateChange);
    }
  }

  // ---- The class and its release closures ----

  /** The closure handed to `onProbeAcquired`: it remembers its window and whether it ran. */
  class ProbeRelease {
    const breaker: CircuitBreaker
    const window: nat
    var released: bool

    constructor (breaker: CircuitBreaker, window: nat)
      ensures this.breaker == breaker && this.window == window && !released
    {
      this.breaker := breaker;
      this.window := window;
      released := false;
    }

    method Release()
      modifies this, breaker`halfOpenAttempts
      ensures released
      ensures breaker.View() == if old(released) then old(breaker.View()) else Released(old(breaker.View()), window)
    {
      if released { return; }
      released := true;
      if breaker.state == HalfOpen && breaker.probeWindow == window {
        breaker.halfOpenAttempts := breaker.halfOpenAttempts - 1;
      }
    }
  }

  class CircuitBreaker {
    const config: Config
    var state: Phase
    var failures: seq<int>
    var lastStateChange: int
    var halfOpenAttempts: int
    var probeWindow: nat

    ghost function View(): BreakerState
      reads this
    {
      BreakerState(state, failures, lastStateChange, halfOpenAttempts, probeWindow)
    }

    constructor (config: Config, now: int)
      ensures this.config == config && View() == BreakerState(Closed, [], now, 0, 0)
    {
      this.config := config;
      state, failures, lastStateChange, halfOpenAttempts, probeWindow := Closed, [], now, 0, 0;
    }

    method EnterPhase(phase: Phase, now: int)
      modifies this
      ensures View() == Enter(old(View()), phase, now)
    {
      state := phase;
      lastStateChange := now;
      halfOpenAttempts := 0;
      probeWindow := probeWindow + 1;
    }

    method TryCanExecute(now: int) returns (answer: Admission, probe: ProbeRelease?)
      modifies this
      ensures Acquire(old(View()), config, now) == Acquisition(View(), answer, probe != null)
      ensures probe != null ==>
        fresh(probe) && probe.breaker == this && probe.window == probeWindow && !probe.released
    {
      if state == Open {
        if now - lastStateChange >= config.resetTimeoutMs {
          EnterPhase(HalfOpen, now);
        } else {
          return Rejected(Open, Max(0, config.resetTimeoutMs - (now - lastStateChange))), null;
        }
      }
      if state == HalfOpen {
        if halfOpenAttempts == 0 { EnterPhase(HalfOpen, now); }
        if halfOpenAttempts >= config.halfOpenMaxAttempts {
          if now - lastStateChange >= config.resetTimeoutMs {
            EnterPhase(HalfOpen, now);
          } else {
            return Rejected(HalfOpen, Max(0, config.resetTimeoutMs - (now - lastStateChange))), null;
          }
        }
        halfOpenAttempts := halfOpenAttempts + 1;
        probe := new ProbeRelease(this, probeWindow);
        return Admitted, probe;
      }
      return Admitted, null;
    }

    method IsAvailable(now: int) returns (available: bool)
      ensures available == Available(View(), config, now)
    {
      if state == Open { return now - lastStateChange >= config.resetTimeoutMs; }
      if state == HalfOpen {
        return halfOpenAttempts < config.halfOpenMaxAttempts || now - lastStateChange >= config.resetTimeoutMs;
      }
      return true;
    }

    method GetTimeUntilAvailable(now: int) returns (waitMs: int)
      ensures waitMs == TimeUntilAvailable(View(), config, now)
    {
      if state == Open { return Max(0, config.resetTimeoutMs - (now - lastStateChange)); }
      if state == HalfOpen && halfOpenAttempts >= config.halfOpenMaxAttempts {
        return Max(0, config.resetTimeoutMs - (now - lastStateChange));
      }
      return 0;
    }

    method RecordSuccess(now: int)
      modifies this
      ensures View() == Succeeded(old(View()), config, now)
    {
      if state == HalfOpen {
        ResetToClosed(now);
        return;
      }
      if state == Closed { failures := Prune(failures, now - config.failureWindowMs); }
    }

    method RecordFailure(now: int)
      modifies this
      ensures View() == Failed(old(View()), config, now)
    {
      failures := Prune(failures, now - config.failureWindowMs);
      failures := failures + [now];
      if state == HalfOpen {
        EnterPhase(Open, now);
        return;
      }
      if state == Closed && |failures| >= config.failureThreshold { EnterPhase(Open, now); }
    }

    method ResetToClosed(now: int)
      modifies this
      ensures View() == Enter(old(View()), Closed, now).(failures := [])
    {
      EnterPhase(Closed, now);
      failures := [];
    }
  }
}

/**
 * Every interleaving of acquisitions, releases, outcomes and resets on one
 * breaker, with a ledger of the probes it ever handed out.
 */
module BreakerRuns {
  import opened Prelude
  import opened Breaker

  datatype Probe = Probe(window: nat, released: bool)

  datatype Ledger = Ledger(b: BreakerState, probes: seq<Probe>, firstHalfOpen: Option<int>)

  datatype Action = Acquiring | Releasing(probe: nat) | Succeeding | Failing | Resetting

  datatype Event = Event(now: int, action: Action)

  function Start(now: int): Ledger {
    Ledger(BreakerState(Closed, [], now, 0, 0), [], None)
  }

  function AcquireStep(l: Ledger, cfg: Config, now: int): Ledger {
    var a := Acquire(l.b, cfg, now);
    Ledger(a.state,
           if a.tookSlot then l.probes + [Probe(a.state.probeWindow, false)] else l.probes,
           if l.firstHalfOpen == None && a.state.phase == HalfOpen then Some(now) else l.firstHalfOpen)
  }

  /** Releasing an unknown probe, or one already released, does nothing. */
  function ReleaseStep(l: Ledger, k: nat): Ledger {
    if k < |l.probes| && !l.probes[k].released
    then l.(b := Released(l.b, l.probes[k].window), probes := l.probes[k := l.probes[k].(released := true)])
    else l
  }

  function Step(l: Ledger, cfg: Config, e: Event): Ledger {
    match e.action
    case Acquiring => AcquireStep(l, cfg, e.now)
    case Releasing(k) => ReleaseStep(l, k)
    case Succeeding => l.(b := Succeeded(l.b, cfg, e.now))
    case Failing => l.(b := Failed(l.b, cfg, e.now))
    case Resetting => l.(b := Enter(l.b, Closed, e.now).(failures := []))
  }

  function Run(start: int, cfg: Config, events: seq<Event>): Ledger {
    if events == [] then Start(start)
    else Step(Run(start, cfg, events[..|events| - 1]), cfg, events[|events| - 1])
  }

  function Clock(start: int, events: seq<Event>): int {
    if events == [] then start else events[|events| - 1].now
  }

  /** The clock never goes back. */
  predicate Clocked(start: int, events: seq<Event>) {
    events == [] ||
    (Clocked(start, events[..|events| - 1]) && Clock(start, events[..|events| - 1]) <= events[|events| - 1].now)
  }

  function Weight(p: Probe): nat { if p.released then 0 else 1 }

  function Unreleased(probes: seq<Probe>): nat {
    if probes == [] then 0 else Unreleased(probes[..|probes| - 1]) + Weight(probes[|probes| - 1])
  }

  function InWindow(probes: seq<Probe>, window: nat): nat {
    if probes == [] then 0
    else InWindow(probes[..|probes| - 1], window) +
         (if probes[|probes| - 1].window == window then Weight(probes[|probes| - 1]) else 0)
  }

  lemma {:induction false} ReleaseCounts(probes: seq<Probe>, k: nat, window: nat)
    requires k < |probes| && !probes[k].released
    ensures Unreleased(probes[k := probes[k].(released := true)]) == Unreleased(probes) - 1
    ensures InWindow(probes[k := probes[k].(released := true)], window) ==
            InWindow(probes, window) - (if probes[k].window == window then 1 else 0)
  {
    var n := |probes| - 1;
    var after := probes[k := probes[k].(released := true)];
    if k < n {
      assert after[..n] == probes[..n][k := probes[..n][k].(released := true)];
      ReleaseCounts(probes[..n], k, window);
    } else {
      assert after[..n] == probes[..n];
    }
  }

  lemma {:induction false} NoneInLaterWindow(probes: seq<Probe>, window: nat)
    requires forall k :: 0 <= k < |probes| ==> probes[k].window < window
    ensures InWindow(probes, window) == 0
  {
    if probes != [] { NoneInLaterWindow(probes[..|probes| - 1], window); }
  }

  lemma {:induction false} WindowWithinTotal(probes: seq<Probe>, window: nat)
    ensures InWindow(probes, window) <= Unreleased(probes)
  {
    if probes != [] { WindowWithinTotal(probes[..|probes| - 1], window); }
  }

  /** The slot counter is exactly the number of unreleased probes of the current window. */
  ghost predicate SlotsMatch(l: Ledger, cfg: Config) {
    && l.b.halfOpenAttempts == InWindow(l.probes, l.b.probeWindow)
    && 0 <= l.b.halfOpenAttempts <= cfg.halfOpenMaxAttempts
    && (l.b.phase != HalfOpen ==> l.b.halfOpenAttempts == 0)
    && (forall k :: 0 <= k < |l.probes| ==> l.probes[k].window <= l.b.probeWindow)
  }

  /** The three ways an acquisition can go: refused or unmetered, one more probe in a window, or the first probe of a new one. */
  lemma AcquireShape(b: BreakerState, cfg: Config, now: int)
    requires cfg.halfOpenMaxAttempts >= 1 && b.halfOpenAttempts >= 0
    ensures var a := Acquire(b, cfg, now);
            if !a.tookSlot then a.state == b
            else if b.phase == HalfOpen && 0 < b.halfOpenAttempts < cfg.halfOpenMaxAttempts then
              a.state == b.(halfOpenAttempts := b.halfOpenAttempts + 1)
            else a.state.phase == HalfOpen && a.state.probeWindow > b.probeWindow && a.state.halfOpenAttempts == 1 && a.state.lastStateChange == now
  {
  }

  lemma InWindowAppend(probes: seq<Probe>, p: Probe, window: nat)
    ensures InWindow(probes + [p], window) == InWindow(probes, window) + (if p.window == window then Weight(p) else 0)
    ensures Unreleased(probes + [p]) == Unreleased(probes) + Weight(p)
  {
    assert (probes + [p])[..|probes|] == probes;
  }

  lemma SlotsMatchAcquire(l: Ledger, cfg: Config, now: int)
    requires cfg.halfOpenMaxAttempts >= 1 && SlotsMatch(l, cfg)
    ensures SlotsMatch(AcquireStep(l, cfg, now), cfg)
  {
    var a := Acquire(l.b, cfg, now);
    AcquireShape(l.b, cfg, now);
    if a.tookSlot {
      InWindowAppend(l.probes, Probe(a.state.probeWindow, false), a.state.probeWindow);
      if a.state.probeWindow > l.b.probeWindow { NoneInLaterWindow(l.probes, a.state.probeWindow); }
    }
  }

  lemma SlotsMatchRelease(l: Ledger, cfg: Config, k: nat)
    requires SlotsMatch(l, cfg)
    ensures SlotsMatch(ReleaseStep(l, k), cfg)
  {
    if k < |l.probes| && !l.probes[k].released {
      ReleaseCounts(l.probes, k, l.b.probeWindow);
      WindowWithinTotal(l.probes, l.b.probeWindow);
    }
  }

  lemma SlotsMatchMove(l: Ledger, cfg: Config, b: BreakerState)
    requires SlotsMatch(l, cfg)
    requires (b.halfOpenAttempts == l.b.halfOpenAttempts && b.probeWindow == l.b.probeWindow && b.phase == l.b.phase)
             || (b.halfOpenAttempts == 0 && b.probeWindow == l.b.probeWindow + 1)
    ensures SlotsMatch(l.(b := b), cfg)
  {
    if b.probeWindow > l.b.probeWindow { NoneInLaterWindow(l.probes, b.probeWindow); }
  }

  lemma SlotsMatchStep(l: Ledger, cfg: Config, e: Event)
    requires cfg.halfOpenMaxAttempts >= 1 && SlotsMatch(l, cfg)
    ensures SlotsMatch(Step(l, cfg, e), cfg)
  {
    match e.action
    case Releasing(k) => SlotsMatchRelease(l, cfg, k);
    case Acquiring => SlotsMatchAcquire(l, cfg, e.now);
    case _ => SlotsMatchMove(l, cfg, Step(l, cfg, e).b);
  }

  /** Ledger law: over every run, whatever the clock does, the slot counter is the unreleased probes of its window. */
  lemma {:induction false} SlotLedger(start: int, cfg: Config, events: seq<Event>)
    requires cfg.halfOpenMaxAttempts >= 1
    ensures SlotsMatch(Run(start, cfg, events), cfg)
  {
    if events != [] {
      SlotLedger(start, cfg, events[..|events| - 1]);
      SlotsMatchStep(Run(start, cfg, events[..|events| - 1]), cfg, events[|events| - 1]);
    }
  }

  /** A second release, and a release from a window that is no longer current, leave the breaker as it was. */
  lemma StaleReleaseIsNoop(l: Ledger, cfg: Config, k: nat, now: int)
    requires k < |l.probes|
    requires l.probes[k].released || l.probes[k].window != l.b.probeWindow
    ensures Step(l, cfg, Event(now, Releasing(k))).b == l.b
    ensures l.probes[k].released ==> Step(l, cfg, Event(now, Releasing(k))) == l
  {
    assert l.probes[k].window != l.b.probeWindow ==> Released(l.b, l.probes[k].window) == l.b;
  }

  // ---- The load bound ----

  /** The earliest instant at which a window after the present one could begin to hold probes. */
  function NextStart(b: BreakerState, cfg: Config): int {
    if b.phase == HalfOpen then b.lastStateChange else b.lastStateChange + cfg.resetTimeoutMs
  }

  /** `max` for every whole reset timeout `d` that fits into `span`. */
  function Cap(max: int, d: int, span: int): int
    requires d > 0
    decreases span
  {
    if span < d then 0 else max + Cap(max, d, span - d)
  }

  lemma {:induction false} CapMonotone(max: int, d: int, a: int, b: int)
    requires d > 0 && max >= 0 && a <= b
    ensures 0 <= Cap(max, d, a) <= Cap(max, d, b)
    decreases b
  {
    if b >= d {
      CapMonotone(max, d, if a < d then b - d else a - d, b - d);
    }
  }

  lemma {:induction false} CapIsRounds(max: int, d: int, span: int)
    requires d > 0 && span >= 0
    ensures Cap(max, d, span) == max * (span / d)
    decreases span
  {
    if span >= d {
      CapIsRounds(max, d, span - d);
      Quotient(span - d, d);
      OneMoreRound(max, (span - d) / d);
    }
  }

  lemma OneMoreRound(max: int, rounds: int)
    ensures max * (1 + rounds) == max + max * rounds
  {
  }

  /** Probes left behind in earlier windows are paid for by one reset timeout per window. */
  ghost predicate Paid(l: Ledger, cfg: Config, now: int)
    requires cfg.resetTimeoutMs > 0
  {
    && l.b.lastStateChange <= now
    && match l.firstHalfOpen
       case None => l.probes == [] && l.b.phase != HalfOpen
       case Some(t0) =>
         && t0 <= l.b.lastStateChange
         && Unreleased(l.probes) - l.b.halfOpenAttempts
            <= Cap(cfg.halfOpenMaxAttempts, cfg.resetTimeoutMs, NextStart(l.b, cfg) - t0)
  }

  lemma Quotient(x: int, d: int)
    requires d > 0
    ensures (x + d) / d == 1 + x / d
  {
    var q := x / d;
    assert d * q <= x < d * q + d;
    DivBound(x + d, d, q + 1);
    if (x + d) / d > q + 1 {
      MulMonotone(d, q + 2, (x + d) / d);
      assert false;
    }
  }

  /** The window of `l` is left behind, with its unreleased probes, for one that starts no earlier. */
  lemma PayWindow(l: Ledger, cfg: Config, now: int, next: int)
    requires cfg.halfOpenMaxAttempts >= 1 && cfg.resetTimeoutMs > 0
    requires SlotsMatch(l, cfg) && Paid(l, cfg, now) && l.firstHalfOpen.Some?
    requires NextStart(l.b, cfg) + cfg.resetTimeoutMs <= next ||
             (l.b.halfOpenAttempts == 0 && NextStart(l.b, cfg) <= next)
    ensures Unreleased(l.probes)
            <= Cap(cfg.halfOpenMaxAttempts, cfg.resetTimeoutMs, next - l.firstHalfOpen.value)
  {
    var span := NextStart(l.b, cfg) - l.firstHalfOpen.value;
    var later := if l.b.halfOpenAttempts == 0 then span else span + cfg.resetTimeoutMs;
    CapMonotone(cfg.halfOpenMaxAttempts, cfg.resetTimeoutMs, later, next - l.firstHalfOpen.value);
  }

  /** A probe in the current window: the windows left behind are as they were. */
  lemma PaidSameWindow(l: Ledger, cfg: Config, now: int, later: int)
    requires cfg.halfOpenMaxAttempts >= 1 && cfg.resetTimeoutMs > 0 && Paid(l, cfg, now) && now <= later
    requires l.b.phase == HalfOpen
    ensures Paid(Ledger(l.b.(halfOpenAttempts := l.b.halfOpenAttempts + 1), l.probes + [Probe(l.b.probeWindow, false)], l.firstHalfOpen), cfg, later)
  {
    InWindowAppend(l.probes, Probe(l.b.probeWindow, false), l.b.probeWindow);
  }

  /** The first probe of a new window: the window before it is paid for by now. */
  lemma PaidNewWindow(l: Ledger, cfg: Config, now: int, later: int, b: BreakerState)
    requires cfg.halfOpenMaxAttempts >= 1 && cfg.resetTimeoutMs > 0 && SlotsMatch(l, cfg) && Paid(l, cfg, now) && now <= later
    requires b.phase == HalfOpen && b.halfOpenAttempts == 1 && b.lastStateChange == later
    requires l.firstHalfOpen.Some? ==>
      NextStart(l.b, cfg) + cfg.resetTimeoutMs <= later || (l.b.halfOpenAttempts == 0 && NextStart(l.b, cfg) <= later)
    ensures Paid(Ledger(b, l.probes + [Probe(b.probeWindow, false)], if l.firstHalfOpen == None then Some(later) else l.firstHalfOpen), cfg, later)
  {
    InWindowAppend(l.probes, Probe(b.probeWindow, false), b.probeWindow);
    if l.firstHalfOpen.Some? {
      PayWindow(l, cfg, now, later);
    } else {
      assert l.probes == [] && Cap(cfg.halfOpenMaxAttempts, cfg.resetTimeoutMs, 0) == 0;
    }
  }

  /** A window is only left for a new one once it is empty or has run its timeout. */
  lemma NewWindowIsDue(b: BreakerState, cfg: Config, now: int)
    requires cfg.halfOpenMaxAttempts >= 1 && cfg.resetTimeoutMs > 0 && b.lastStateChange <= now
    requires 0 <= b.halfOpenAttempts <= cfg.halfOpenMaxAttempts && (b.phase != HalfOpen ==> b.halfOpenAttempts == 0)
    requires Acquire(b, cfg, now).tookSlot && !(b.phase == HalfOpen && 0 < b.halfOpenAttempts < cfg.halfOpenMaxAttempts)
    ensures NextStart(b, cfg) + cfg.resetTimeoutMs <= now || (b.halfOpenAttempts == 0 && NextStart(b, cfg) <= now)
  {
  }

  lemma PaidAcquire(l: Ledger, cfg: Config, now: int, later: int)
    requires cfg.halfOpenMaxAttempts >= 1 && cfg.resetTimeoutMs > 0
    requires SlotsMatch(l, cfg) && Paid(l, cfg, now) && now <= later
    ensures Paid(AcquireStep(l, cfg, later), cfg, later)
  {
    var a := Acquire(l.b, cfg, later);
    AcquireShape(l.b, cfg, later);
    if a.tookSlot {
      if l.b.phase == HalfOpen && 0 < l.b.halfOpenAttempts < cfg.halfOpenMaxAttempts {
        PaidSameWindow(l, cfg, now, later);
      } else {
        NewWindowIsDue(l.b, cfg, later);
        PaidNewWindow(l, cfg, now, later, a.state);
      }
    }
  }

  lemma PaidRelease(l: Ledger, cfg: Config, now: int, k: nat)
    requires cfg.halfOpenMaxAttempts >= 1 && cfg.resetTimeoutMs > 0
    requires SlotsMatch(l, cfg) && Paid(l, cfg, now)
    ensures Paid(ReleaseStep(l, k), cfg, now)
  {
    if k < |l.probes| && !l.probes[k].released {
      ReleaseCounts(l.probes, k, l.b.probeWindow);
    }
  }

  lemma PaidMove(l: Ledger, cfg: Config, now: int, later: int, phase: Phase)
    requires cfg.halfOpenMaxAttempts >= 1 && cfg.resetTimeoutMs > 0
    requires SlotsMatch(l, cfg) && Paid(l, cfg, now) && now <= later && phase != HalfOpen
    ensures Paid(l.(b := Enter(l.b, phase, later)), cfg, later)
  {
    if l.firstHalfOpen.Some? { PayWindow(l, cfg, now, later + cfg.resetTimeoutMs); }
  }

  lemma PaidStep(l: Ledger, cfg: Config, now: int, e: Event)
    requires cfg.halfOpenMaxAttempts >= 1 && cfg.resetTimeoutMs > 0
    requires SlotsMatch(l, cfg) && Paid(l, cfg, now) && now <= e.now
    ensures Paid(Step(l, cfg, e), cfg, e.now)
  {
    match e.action
    case Releasing(k) => PaidRelease(l, cfg, now, k);
    case Acquiring => PaidAcquire(l, cfg, now, e.now);
    case _ =>
      PaidMove(l, cfg, now, e.now, Open);
      PaidMove(l, cfg, now, e.now, Closed);
  }

  lemma {:induction false} PaidRun(start: int, cfg: Config, events: seq<Event>)
    requires cfg.halfOpenMaxAttempts >= 1 && cfg.resetTimeoutMs > 0 && Clocked(start, events)
    ensures Paid(Run(start, cfg, events), cfg, Clock(start, events))
  {
    if events != [] {
      var prior := events[..|events| - 1];
      PaidRun(start, cfg, prior);
      SlotLedger(start, cfg, prior);
      PaidStep(Run(start, cfg, prior), cfg, Clock(start, prior), events[|events| - 1]);
    }
  }

  lemma CapAtInstant(max: int, d: int, span: int, start: int)
    requires d > 0 && max >= 0 && span >= 0 && start <= span + d
    ensures Cap(max, d, start) <= max * (1 + span / d)
    ensures start <= span ==> max + Cap(max, d, start) <= max * (1 + span / d)
  {
    CapIsRounds(max, d, span);
    Distribute(max, span / d);
    CapMonotone(max, d, start, span + d);
    if start <= span { CapMonotone(max, d, start, span); }
  }

  lemma Distribute(max: int, q: int)
    ensures max * (1 + q) == max + max * q
  {
  }

  /**
   * The probes never yet released number at most max for every reset timeout
   * begun since the first half-open window opened at t0; before that window
   * there are none.
   */
  ghost predicate LoadBounded(l: Ledger, cfg: Config, t: int)
    requires cfg.resetTimeoutMs > 0
  {
    match l.firstHalfOpen
    case None => l.probes == []
    case Some(t0) => t0 <= t && Unreleased(l.probes) <= cfg.halfOpenMaxAttempts * (1 + (t - t0) / cfg.resetTimeoutMs)
  }

  lemma PaidMeansBounded(l: Ledger, cfg: Config, now: int, t: int)
    requires cfg.halfOpenMaxAttempts >= 1 && cfg.resetTimeoutMs > 0 && now <= t
    requires Paid(l, cfg, now) && SlotsMatch(l, cfg)
    ensures LoadBounded(l, cfg, t)
  {
    if l.firstHalfOpen.Some? {
      var t0 := l.firstHalfOpen.value;
      CapAtInstant(cfg.halfOpenMaxAttempts, cfg.resetTimeoutMs, t - t0, NextStart(l.b, cfg) - t0);
    }
  }

  /** Load bound: it holds after any run, at any later instant t. */
  lemma LoadBound(start: int, cfg: Config, events: seq<Event>, t: int)
    requires cfg.halfOpenMaxAttempts >= 1 && cfg.resetTimeoutMs > 0
    requires Clocked(start, events) && Clock(start, events) <= t
    ensures LoadBounded(Run(start, cfg, events), cfg, t)
  {
    PaidRun(start, cfg, events);
    SlotLedger(start, cfg, events);
    PaidMeansBounded(Run(start, cfg, events), cfg, Clock(start, events), t);
  }
}
