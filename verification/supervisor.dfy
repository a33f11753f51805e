/** Restart bookkeeping of the dev supervisor: what one tick decides, and what that adds up to over
    whole runs. Times are nanoseconds of a monotone clock. */
module Supervisor {
  import opened Options

  const SECOND: nat := 1_000_000_000
  const BACKOFF_INITIAL: nat := SECOND
  const BACKOFF_MAX: nat := 30 * SECOND
  const RESET_AFTER: nat := 60 * SECOND
  const MAX_CONSECUTIVE: nat := 5

  datatype Action = Nothing | Wait | Restart | RestartIntentional | GaveUp

  /** The policy's fields as a value. */
  datatype Policy = Policy(
    backoff: nat,
    lastRestart: Option<nat>,
    lastUp: nat,
    wasDown: bool,
    consecutive: nat,
    intentional: nat,
    gaveUp: bool)

  predicate Intentional(code: Option<int>) {
    code == Some(3) || code == Some(4)
  }

  function Since(now: nat, then_: nat): nat {
    if now >= then_ then now - then_ else 0
  }

  function Fresh(now: nat): Policy {
    Policy(BACKOFF_INITIAL, None, now, false, 0, 0, false)
  }

  /** An alive tick: note a recovery, and forget past flapping after a stable minute. */
  function Alive(p: Policy, now: nat): Policy {
    var q := if p.wasDown then p.(wasDown := false, lastUp := now) else p;
    if Since(now, q.lastUp) > RESET_AFTER
    then q.(backoff := BACKOFF_INITIAL, consecutive := 0, intentional := 0, lastRestart := None)
    else q
  }

  function Step(p: Policy, now: nat, alive: bool, code: Option<int>): (Policy, Action) {
    if p.gaveUp then (p, Nothing)
    else if alive then (Alive(p, now), Nothing)
    else
      var q := p.(wasDown := true);
      if q.lastRestart.Some? && Since(now, q.lastRestart.value) < q.backoff then (q, Wait)
      else if Intentional(code) then
        (q.(intentional := q.intentional + 1, lastRestart := Some(now)), RestartIntentional)
      else if q.consecutive >= MAX_CONSECUTIVE then (q.(gaveUp := true), GaveUp)
      else
        (q.(consecutive := q.consecutive + 1, lastRestart := Some(now),
            backoff := if q.backoff * 2 < BACKOFF_MAX then q.backoff * 2 else BACKOFF_MAX), Restart)
  }

  class RestartPolicy {
    var backoff: nat
    var lastRestart: Option<nat>
    var lastUp: nat
    var wasDown: bool
    var consecutiveRestarts: nat
    var intentionalRestarts: nat
    var gaveUp: bool

    ghost function State(): Policy
      reads this
    {
      Policy(backoff, lastRestart, lastUp, wasDown, consecutiveRestarts, intentionalRestarts, gaveUp)
    }

    constructor (now: nat)
      ensures State() == Fresh(now)
    {
      backoff, lastRestart, lastUp, wasDown := BACKOFF_INITIAL, None, now, false;
      consecutiveRestarts, intentionalRestarts, gaveUp := 0, 0, false;
    }

    method Tick(now: nat, alive: bool, exitCode: Option<int>) returns (action: Action)
      modifies this
      ensures (State(), action) == Step(old(State()), now, alive, exitCode)
    {
      if gaveUp {
        return Nothing;
      }
      if alive {
        if wasDown {
          wasDown := false;
          lastUp := now;
        }
        if Since(now, lastUp) > RESET_AFTER {
          backoff := BACKOFF_INITIAL;
          consecutiveRestarts := 0;
          intentionalRestarts := 0;
          lastRestart := None;
        }
        return Nothing;
      }
      wasDown := true;
      if lastRestart.Some? && Since(now, lastRestart.value) < backoff {
        return Wait;
      }
      if Intentional(exitCode) {
        intentionalRestarts := intentionalRestarts + 1;
        lastRestart := Some(now);
        return RestartIntentional;
      }
      if consecutiveRestarts >= MAX_CONSECUTIVE {
        gaveUp := true;
        return GaveUp;
      }
      consecutiveRestarts := consecutiveRestarts + 1;
      lastRestart := Some(now);
      backoff := if backoff * 2 < BACKOFF_MAX then backoff * 2 else BACKOFF_MAX;
      action := Restart;
    }
  }

  // ---------- runs ----------

  datatype Event = Event(at: nat, alive: bool, code: Option<int>)

  /** Ticks come in time order, none before the policy was made. */
  predicate InOrder(start: nat, run: seq<Event>) {
    && (forall i | 0 <= i < |run| :: start <= run[i].at)
    && forall i, j | 0 <= i < j < |run| :: run[i].at <= run[j].at
  }

  function Replay(start: nat, run: seq<Event>): (Policy, seq<Action>) {
    if run == [] then (Fresh(start), [])
    else
      var n := |run| - 1;
      var (p, log) := Replay(start, run[..n]);
      var (q, a) := Step(p, run[n].at, run[n].alive, run[n].code);
      (q, log + [a])
  }

  /** Everything the run bounds talk about, collected tick by tick. `streak` holds the times of the crash
      restarts since the counter was last reset; `last` the latest restart of either kind with the backoff it
      left in force. */
  datatype Trail = Trail(
    policy: Policy,
    now: nat,
    crashes: nat,
    resets: nat,
    resetAt: nat,
    last: Option<(nat, nat)>,
    streak: seq<nat>)

  predicate IsRestart(a: Action) {
    a == Restart || a == RestartIntentional
  }

  function Extend(t: Trail, e: Event): Trail {
    var (q, a) := Step(t.policy, e.at, e.alive, e.code);
    var restarted := IsRestart(a);
    var counterReset := t.policy.consecutive > 0 && q.consecutive == 0;
    Trail(
      q,
      e.at,
      if a == Restart then t.crashes + 1 else t.crashes,
      if counterReset then t.resets + 1 else t.resets,
      if counterReset then e.at else t.resetAt,
      if restarted then Some((e.at, q.backoff)) else t.last,
      if counterReset then [] else if a == Restart then t.streak + [e.at] else t.streak)
  }

  function TrailOf(start: nat, run: seq<Event>): Trail {
    if run == [] then Trail(Fresh(start), start, 0, 0, start, None, [])
    else Extend(TrailOf(start, run[..|run| - 1]), run[|run| - 1])
  }

  function Pow2(n: nat): nat {
    if n == 0 then 1 else 2 * Pow2(n - 1)
  }

  /** The backoff a streak of `n` crash restarts leaves. */
  function BackoffAfter(n: nat): nat {
    if Pow2(n) < 30 then Pow2(n) * SECOND else BACKOFF_MAX
  }

  lemma BackoffValues()
    ensures BackoffAfter(0) == SECOND && BackoffAfter(1) == 2 * SECOND && BackoffAfter(2) == 4 * SECOND
    ensures BackoffAfter(3) == 8 * SECOND && BackoffAfter(4) == 16 * SECOND && BackoffAfter(5) == 30 * SECOND
  {
    assert Pow2(1) == 2 && Pow2(2) == 4 && Pow2(3) == 8 && Pow2(4) == 16 && Pow2(5) == 32;
  }

  /** From when on the current streak can have begun: the last effective reset, or the first tick. */
  function StreakBase(first: nat, t: Trail): nat { if t.resets > 0 then t.resetAt else first }

  /** The counters: each effective reset comes more than a minute after the one before, or after the first tick. */
  ghost predicate Counted(first: nat, t: Trail) {
    var p := t.policy;
    && p.lastUp <= t.now && t.resetAt <= t.now
    && p.consecutive <= MAX_CONSECUTIVE && p.backoff == BackoffAfter(p.consecutive)
    && t.crashes <= MAX_CONSECUTIVE * t.resets + p.consecutive
    && (t.resets > 0 ==> first + RESET_AFTER * t.resets <= t.resetAt)
    && (p.consecutive > 0 ==> p.wasDown || p.lastUp >= StreakBase(first, t))
  }

  /** The latest restart: it still gates the next one, or lies more than a minute back. */
  ghost predicate Gated(t: Trail) {
    var p := t.policy;
    && (t.last == None ==> p.lastRestart == None)
    && (t.last.Some? ==>
          && t.last.value.0 <= t.now
          && (p.wasDown || p.lastUp >= t.last.value.0)
          && t.last.value.1 <= BACKOFF_MAX
          && (p.lastRestart == None ==> t.now > t.last.value.0 + RESET_AFTER)
          && (p.lastRestart.Some? ==> p.lastRestart.value == t.last.value.0 && p.backoff == t.last.value.1))
  }

  /** The streak: its restarts are spaced by the growing backoff. */
  ghost predicate Streaked(t: Trail) {
    var p := t.policy;
    && |t.streak| == p.consecutive
    && (forall i | 0 <= i < |t.streak| - 1 :: t.streak[i] + BackoffAfter(i + 1) <= t.streak[i + 1])
    && (p.consecutive > 0 ==> p.lastRestart.Some? && t.streak[|t.streak| - 1] <= p.lastRestart.value)
  }

  /** What every tick keeps. */
  ghost predicate Sound(first: nat, t: Trail) {
    Counted(first, t) && Gated(t) && Streaked(t)
  }

  lemma TickKeepsCounted(first: nat, t: Trail, e: Event)
    requires Counted(first, t) && t.now <= e.at && first <= e.at
    ensures Counted(first, Extend(t, e))
  {
    BackoffValues();
  }

  lemma BackoffBounded(n: nat)
    ensures BackoffAfter(n) <= BACKOFF_MAX
  {
  }

  lemma TickKeepsGated(first: nat, t: Trail, e: Event)
    requires Sound(first, t) && t.now <= e.at && first <= e.at
    ensures Gated(Extend(t, e))
  {
    TickKeepsCounted(first, t, e);
    BackoffBounded(Extend(t, e).policy.consecutive);
  }

  lemma TickKeepsStreaked(first: nat, t: Trail, e: Event)
    requires Sound(first, t) && t.now <= e.at && first <= e.at
    ensures Streaked(Extend(t, e))
  {
    var u := Extend(t, e);
    if |u.streak| == |t.streak| + 1 {
      assert u.streak[..|t.streak|] == t.streak;
    }
  }

  lemma {:induction false} RunSound(start: nat, first: nat, run: seq<Event>)
    requires InOrder(start, run) && forall i | 0 <= i < |run| :: first <= run[i].at
    ensures Sound(first, TrailOf(start, run)) && TrailOf(start, run).now == if run == [] then start else run[|run| - 1].at
  {
    BackoffValues();
    if run != [] {
      RunSound(start, first, run[..|run| - 1]);
      var t, e := TrailOf(start, run[..|run| - 1]), run[|run| - 1];
      TickKeepsCounted(first, t, e);
      TickKeepsGated(first, t, e);
      TickKeepsStreaked(first, t, e);
    }
  }

  // ---------- the trail is the replay ----------

  function CountCrashes(log: seq<Action>): nat {
    if log == [] then 0 else CountCrashes(log[..|log| - 1]) + if log[|log| - 1] == Restart then 1 else 0
  }

  function Log(start: nat, run: seq<Event>): (log: seq<Action>)
    ensures |log| == |run|
  {
    ReplayLength(start, run);
    Replay(start, run).1
  }

  lemma {:induction false} ReplayLength(start: nat, run: seq<Event>)
    ensures |Replay(start, run).1| == |run|
  {
    if run != [] { ReplayLength(start, run[..|run| - 1]); }
  }

  lemma {:induction false} TrailIsReplay(start: nat, run: seq<Event>)
    ensures TrailOf(start, run).policy == Replay(start, run).0
    ensures TrailOf(start, run).crashes == CountCrashes(Log(start, run))
  {
    if run != [] {
      var n := |run| - 1;
      TrailIsReplay(start, run[..n]);
      assert Log(start, run)[..n] == Log(start, run[..n]);
    }
  }

  /** A later tick does not rewrite the log. */
  lemma {:induction false} LogPrefix(start: nat, run: seq<Event>, n: nat)
    requires n <= |run|
    ensures Log(start, run[..n]) == Log(start, run)[..n]
    decreases |run| - n
  {
    if n < |run| {
      LogPrefix(start, run, n + 1);
      assert run[..n + 1][..n] == run[..n];
    } else {
      assert run[..n] == run;
    }
  }

  lemma {:induction false} TrailStep(start: nat, run: seq<Event>, i: nat)
    requires i < |run|
    ensures TrailOf(start, run[..i + 1]) == Extend(TrailOf(start, run[..i]), run[i])
  {
    assert run[..i + 1][..i] == run[..i];
  }

  lemma {:induction false} ReplayStep(start: nat, run: seq<Event>)
    requires run != []
    ensures var e := run[|run| - 1];
      Log(start, run)[|run| - 1] == Step(Replay(start, run[..|run| - 1]).0, e.at, e.alive, e.code).1
  {
    ReplayLength(start, run[..|run| - 1]);
  }

  lemma {:induction false} ActionAt(start: nat, run: seq<Event>, i: nat)
    requires i < |run|
    ensures Log(start, run)[i] == Step(TrailOf(start, run[..i]).policy, run[i].at, run[i].alive, run[i].code).1
    ensures TrailOf(start, run[..i + 1]) == Extend(TrailOf(start, run[..i]), run[i])
  {
    TrailStep(start, run, i);
    LogPrefix(start, run, i + 1);
    ReplayStep(start, run[..i + 1]);
    assert run[..i + 1][..i] == run[..i] && Log(start, run)[..i + 1][i] == Log(start, run)[i];
    TrailIsReplay(start, run[..i]);
  }

  // ---------- whole-run bounds ----------

  lemma CrashesWithin(first: nat, t: Trail)
    requires Counted(first, t) && first <= t.now
    ensures t.crashes <= MAX_CONSECUTIVE * (1 + (t.now - first) / RESET_AFTER)
  {
    var span := t.now - first;
    assert RESET_AFTER * t.resets <= span;
    assert t.resets <= span / RESET_AFTER;
  }

  /** Crash restarts in a run whose ticks span T: at most 5 (1 + floor(T / 60 s)). */
  lemma RestartRate(start: nat, run: seq<Event>)
    requires InOrder(start, run)
    ensures var span := if run == [] then 0 else run[|run| - 1].at - run[0].at;
      CountCrashes(Log(start, run)) <= MAX_CONSECUTIVE * (1 + span / RESET_AFTER)
  {
    if run != [] {
      RunSound(start, run[0].at, run);
      TrailIsReplay(start, run);
      CrashesWithin(run[0].at, TrailOf(start, run));
    }
  }

  /** The backoff in every reachable state. */
  lemma {:induction false} BackoffOfState(start: nat, run: seq<Event>)
    requires InOrder(start, run)
    ensures var p := Replay(start, run).0;
      p.consecutive <= MAX_CONSECUTIVE && p.backoff == BackoffAfter(p.consecutive)
  {
    RunSound(start, start, run);
    TrailIsReplay(start, run);
  }

  lemma ExtendLast(t: Trail, e: Event, a: Action)
    requires a == Step(t.policy, e.at, e.alive, e.code).1
    ensures Extend(t, e).last == if IsRestart(a) then Some((e.at, Extend(t, e).policy.backoff)) else t.last
  {
  }

  lemma {:induction false} LastStep(start: nat, run: seq<Event>, k: nat, a: Action)
    requires k < |run| && a == Log(start, run)[k]
    ensures TrailOf(start, run[..k + 1]).last
         == if IsRestart(a) then Some((run[k].at, TrailOf(start, run[..k + 1]).policy.backoff)) else TrailOf(start, run[..k]).last
  {
    ActionAt(start, run, k);
    ExtendLast(TrailOf(start, run[..k]), run[k], a);
  }

  lemma {:induction false} LastRestart(start: nat, run: seq<Event>, log: seq<Action>, i: nat, n: nat)
    requires i < n <= |run| && log == Log(start, run) && IsRestart(log[i])
    requires forall k | i < k < n :: !IsRestart(log[k])
    ensures TrailOf(start, run[..n]).last == Some((run[i].at, TrailOf(start, run[..i + 1]).policy.backoff))
    decreases n
  {
    if n == i + 1 {
      LastStep(start, run, i, log[i]);
    } else {
      LastRestart(start, run, log, i, n - 1);
      LastStep(start, run, n - 1, log[n - 1]);
    }
  }

  /** Two successive restarts, of either kind, are at least the backoff in force apart, across resets too. */
  lemma {:induction false} RestartsAreSpaced(start: nat, run: seq<Event>, i: nat, j: nat)
    requires InOrder(start, run) && i < j < |run|
    requires IsRestart(Log(start, run)[i]) && IsRestart(Log(start, run)[j])
    requires forall k | i < k < j :: !IsRestart(Log(start, run)[k])
    ensures run[j].at >= run[i].at + Replay(start, run[..i + 1]).0.backoff
  {
    LastRestart(start, run, Log(start, run), i, j);
    TrailIsReplay(start, run[..i + 1]);
    RunSound(start, start, run[..j]);
    ActionAt(start, run, j);
  }

  lemma StreakSpan(start: nat, t: Trail)
    requires Sound(start, t) && |t.streak| == 5
    ensures t.streak[0] + 30 * SECOND <= t.streak[4]
  {
    BackoffValues();
    assert t.streak[0] + BackoffAfter(1) <= t.streak[1];
    assert t.streak[1] + BackoffAfter(2) <= t.streak[2];
    assert t.streak[2] + BackoffAfter(3) <= t.streak[3];
    assert t.streak[3] + BackoffAfter(4) <= t.streak[4];
  }

  /** Giving up: only on an exit that is not intentional, with exactly five crash restarts since the counter
      was last reset, and at least a minute after the first of them. */
  lemma {:induction false} GivingUp(start: nat, run: seq<Event>, i: nat)
    requires InOrder(start, run) && i < |run| && Log(start, run)[i] == GaveUp
    ensures !run[i].alive && !Intentional(run[i].code)
    ensures var streak := TrailOf(start, run[..i]).streak; |streak| == 5 && run[i].at >= streak[0] + RESET_AFTER
  {
    RunSound(start, start, run[..i]);
    ActionAt(start, run, i);
    BackoffValues();
    StreakSpan(start, TrailOf(start, run[..i]));
  }

  lemma GaveUpStays(p: Policy, e: Event)
    ensures p.gaveUp ==> Step(p, e.at, e.alive, e.code) == (p, Nothing)
    ensures Step(p, e.at, e.alive, e.code).1 == GaveUp ==> Step(p, e.at, e.alive, e.code).0.gaveUp
  {
  }

  /** After giving up nothing happens again. */
  lemma {:induction false} GivingUpIsFinal(start: nat, run: seq<Event>, i: nat, j: nat)
    requires i < j < |run| && Log(start, run)[i] == GaveUp
    ensures Log(start, run)[j] == Nothing && TrailOf(start, run[..j + 1]).policy.gaveUp
    decreases j
  {
    ActionAt(start, run, j);
    GaveUpStays(TrailOf(start, run[..j]).policy, run[j]);
    if j > i + 1 {
      GivingUpIsFinal(start, run, i, j - 1);
    } else {
      ActionAt(start, run, i);
      GaveUpStays(TrailOf(start, run[..i]).policy, run[i]);
    }
  }
}
