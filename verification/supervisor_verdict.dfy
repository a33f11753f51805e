/** What the supervisor answers to a tick, by the ticks alone and the answers before: liveness, exit code, the time since the last
    restart, and the crash restarts since the last stable minute. */
module SupervisorVerdict {
  import opened Options
  import opened Supervisor

  // ---------- stable minutes, by the ticks ----------

  /** The last dead tick before `n`, or -1. */
  function LastDead(run: seq<Event>, n: nat): (d: int)
    requires n <= |run|
    ensures -1 <= d < n && (d >= 0 ==> !run[d].alive) && forall k | d < k < n :: run[k].alive
  {
    if n == 0 then -1 else if !run[n - 1].alive then n - 1 else LastDead(run, n - 1)
  }

  /** Since when the service is up at an alive tick: the first tick after the last dead one, or the start. */
  function UpFrom(start: nat, run: seq<Event>, j: nat): nat
    requires j < |run|
  {
    if LastDead(run, j) < 0 then start else run[LastDead(run, j) + 1].at
  }

  /** An alive tick more than a minute after the service came up. */
  predicate Stable(start: nat, run: seq<Event>, j: nat)
    requires j < |run|
  {
    run[j].alive && Since(run[j].at, UpFrom(start, run, j)) > 60 * SECOND
  }

  /** The last such tick before `n`, or -1. */
  function LastStable(start: nat, run: seq<Event>, n: nat): (a: int)
    requires n <= |run|
    ensures -1 <= a < n && (a >= 0 ==> Stable(start, run, a)) && forall k | a < k < n :: !Stable(start, run, k)
  {
    if n == 0 then -1 else if Stable(start, run, n - 1) then n - 1 else LastStable(start, run, n - 1)
  }

  // ---------- what was answered since ----------

  /** The times of the crash restarts after tick `a` and before tick `n`. */
  function CrashTimes(run: seq<Event>, log: seq<Action>, a: int, n: nat): seq<nat>
    requires -1 <= a && n <= |run| == |log|
    decreases n
  {
    if n <= a + 1 then [] else CrashTimes(run, log, a, n - 1) + if log[n - 1] == Restart then [run[n - 1].at] else []
  }

  /** The latest restart of either kind there, or -1. */
  function LatestRestart(log: seq<Action>, a: int, n: nat): (r: int)
    requires -1 <= a && n <= |log|
    ensures r == -1 || (a < r < n && IsRestart(log[r]))
    ensures forall k | a < k < n && IsRestart(log[k]) :: k <= r
    decreases n
  {
    if n <= a + 1 then -1 else if IsRestart(log[n - 1]) then n - 1 else LatestRestart(log, a, n - 1)
  }

  function Intentionals(log: seq<Action>, a: int, n: nat): nat
    requires -1 <= a && n <= |log|
    decreases n
  {
    if n <= a + 1 then 0 else Intentionals(log, a, n - 1) + if log[n - 1] == RestartIntentional then 1 else 0
  }

  predicate GaveUpBefore(log: seq<Action>, n: nat)
    requires n <= |log|
  {
    exists k :: 0 <= k < n && log[k] == GaveUp
  }

  // ---------- the policy's fields say just that ----------

  ghost predicate FieldsRight(start: nat, run: seq<Event>, log: seq<Action>, n: nat, t: Trail)
    requires n <= |run| == |log|
  {
    var p, a := t.policy, LastStable(start, run, n);
    var crashes, r := CrashTimes(run, log, a, n), LatestRestart(log, a, n);
    && p.consecutive == |crashes| <= MAX_CONSECUTIVE && p.backoff == BackoffAfter(p.consecutive) && t.streak == crashes
    && p.intentional == Intentionals(log, a, n)
    && p.lastRestart == (if r < 0 then None else Some(run[r].at))
    && p.wasDown == (n > 0 && !run[n - 1].alive)
    && (!p.wasDown ==> p.lastUp == if n == 0 then start else UpFrom(start, run, n - 1))
  }

  ghost predicate Mirrors(start: nat, run: seq<Event>, log: seq<Action>, n: nat, t: Trail)
    requires n <= |run| == |log|
  {
    && (t.policy.gaveUp <==> GaveUpBefore(log, n))
    && (!t.policy.gaveUp ==> FieldsRight(start, run, log, n, t))
  }

  /** An alive tick resets exactly when it is stable. */
  lemma AliveMirrors(start: nat, run: seq<Event>, log: seq<Action>, n: nat, t: Trail)
    requires n < |run| == |log| && FieldsRight(start, run, log, n, t) && !t.policy.gaveUp && run[n].alive && log[n] == Nothing
    ensures FieldsRight(start, run, log, n + 1, Extend(t, run[n])) && !Extend(t, run[n]).policy.gaveUp
  {
    BackoffValues();
    var p, q := t.policy, Extend(t, run[n]).policy;
    if n > 0 && run[n - 1].alive { assert LastDead(run, n) == LastDead(run, n - 1); }
    assert q.lastUp == UpFrom(start, run, n);
    if Stable(start, run, n) {
      assert LastStable(start, run, n + 1) == n;
      assert q.consecutive == 0 && q.lastRestart == None;
    } else {
      assert LastStable(start, run, n + 1) == LastStable(start, run, n);
    }
  }

  /** The counts with one more tick. */
  lemma CountsStep(run: seq<Event>, log: seq<Action>, a: int, n: nat)
    requires -1 <= a < n < |run| == |log| || (a == -1 && n < |run| == |log|)
    ensures CrashTimes(run, log, a, n + 1) == CrashTimes(run, log, a, n) + if log[n] == Restart then [run[n].at] else []
    ensures LatestRestart(log, a, n + 1) == if IsRestart(log[n]) then n else LatestRestart(log, a, n)
    ensures Intentionals(log, a, n + 1) == Intentionals(log, a, n) + if log[n] == RestartIntentional then 1 else 0
  {
  }

  /** What a dead tick does to the fields. */
  lemma DeadStep(t: Trail, e: Event, a: Action)
    requires !t.policy.gaveUp && !e.alive && a == Step(t.policy, e.at, false, e.code).1 && t.policy.consecutive <= MAX_CONSECUTIVE
    requires t.policy.backoff == BackoffAfter(t.policy.consecutive)
    ensures var p, u := t.policy, Extend(t, e);
      && u.policy.wasDown && (u.policy.gaveUp <==> a == GaveUp)
      && u.policy.consecutive == p.consecutive + (if a == Restart then 1 else 0) <= MAX_CONSECUTIVE && u.policy.backoff == BackoffAfter(u.policy.consecutive)
      && u.policy.intentional == p.intentional + (if a == RestartIntentional then 1 else 0)
      && u.policy.lastRestart == (if IsRestart(a) then Some(e.at) else p.lastRestart)
      && u.streak == t.streak + if a == Restart then [e.at] else []
  {
    BackoffValues();
  }

  /** A dead tick is never stable; its answer is counted. */
  lemma DeadMirrors(start: nat, run: seq<Event>, log: seq<Action>, n: nat, t: Trail)
    requires n < |run| == |log| && FieldsRight(start, run, log, n, t) && !t.policy.gaveUp && !run[n].alive
    requires log[n] == Step(t.policy, run[n].at, false, run[n].code).1
    ensures FieldsRight(start, run, log, n + 1, Extend(t, run[n]))
    ensures Extend(t, run[n]).policy.gaveUp <==> log[n] == GaveUp
  {
    DeadStep(t, run[n], log[n]);
    CountsStep(run, log, LastStable(start, run, n), n);
    assert LastStable(start, run, n + 1) == LastStable(start, run, n);
  }

  lemma GaveUpNow(log: seq<Action>, n: nat)
    requires n < |log|
    ensures GaveUpBefore(log, n + 1) <==> GaveUpBefore(log, n) || log[n] == GaveUp
  {
  }

  lemma TickMirrors(start: nat, run: seq<Event>, log: seq<Action>, n: nat, t: Trail)
    requires n < |run| == |log| && Mirrors(start, run, log, n, t) && log[n] == Step(t.policy, run[n].at, run[n].alive, run[n].code).1
    ensures Mirrors(start, run, log, n + 1, Extend(t, run[n]))
  {
    GaveUpNow(log, n);
    GaveUpStays(t.policy, run[n]);
    if !t.policy.gaveUp {
      if run[n].alive { AliveMirrors(start, run, log, n, t); } else { DeadMirrors(start, run, log, n, t); }
    }
  }

  lemma {:induction false} PolicyMirrors(start: nat, run: seq<Event>, log: seq<Action>, n: nat)
    requires n <= |run| && log == Log(start, run)
    ensures Mirrors(start, run, log, n, TrailOf(start, run[..n]))
    decreases n
  {
    if n == 0 {
      BackoffValues();
    } else {
      var m := n - 1;
      var t := TrailOf(start, run[..m]);
      PolicyMirrors(start, run, log, m);
      ActionAt(start, run, m);
      TickMirrors(start, run, log, m, t);
    }
  }

  // ---------- the answers, exactly ----------

  /** The supervisor still acts, and the service is down. */
  predicate Down(run: seq<Event>, log: seq<Action>, i: nat)
    requires i < |run| == |log|
  {
    !run[i].alive && !GaveUpBefore(log, i)
  }

  /** Crash restarts since the last stable minute. */
  function Streak(start: nat, run: seq<Event>, log: seq<Action>, i: nat): seq<nat>
    requires i < |run| == |log|
  {
    CrashTimes(run, log, LastStable(start, run, i), i)
  }

  /** The latest restart since the last stable minute lies less than the backoff of the streak back. */
  predicate TooSoon(start: nat, run: seq<Event>, log: seq<Action>, i: nat)
    requires i < |run| == |log|
  {
    var r := LatestRestart(log, LastStable(start, run, i), i);
    r >= 0 && Since(run[i].at, run[r].at) < BackoffAfter(|Streak(start, run, log, i)|)
  }

  /** What every tick of every run is answered. */
  lemma VerdictExact(start: nat, run: seq<Event>, i: nat)
    requires i < |run|
    ensures var log := Log(start, run);
      var down, soon, streak, meant := Down(run, log, i), TooSoon(start, run, log, i), |Streak(start, run, log, i)|, run[i].code == Some(3) || run[i].code == Some(4);
      && (log[i] == Nothing <==> !down)
      && (log[i] == Wait <==> down && soon)
      && (log[i] == RestartIntentional <==> down && !soon && meant)
      && (log[i] == Restart <==> down && !soon && !meant && streak < 5)
      && (log[i] == GaveUp <==> down && !soon && !meant && streak == 5)
  {
    PolicyMirrors(start, run, Log(start, run), i);
    ActionAt(start, run, i);
  }

  /** Giving up: exactly on an exit that is not intentional, past the backoff, with five crash restarts since the last stable minute;
      and then at least a minute after the first of them. */
  lemma GivingUpExactly(start: nat, run: seq<Event>, i: nat)
    requires InOrder(start, run) && i < |run|
    ensures var log := Log(start, run);
      log[i] == GaveUp <==>
        Down(run, log, i) && !TooSoon(start, run, log, i) && run[i].code !in {Some(3), Some(4)} && |Streak(start, run, log, i)| == 5
    ensures Log(start, run)[i] == GaveUp ==> run[i].at >= Streak(start, run, Log(start, run), i)[0] + RESET_AFTER
  {
    VerdictExact(start, run, i);
    if Log(start, run)[i] == GaveUp {
      GivingUp(start, run, i);
      PolicyMirrors(start, run, Log(start, run), i);
    }
  }
}
