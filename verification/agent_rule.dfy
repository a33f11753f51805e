/** When the agent's safety rule holds: runs that reach the bound on silence, and the exact condition on the lease. */
module AgentRule {
  import opened Options
  import opened Agent
  import opened AgentPrompt
  import opened AgentMix
  import opened AgentLease

  // ---------- the bound is reached ----------

  /** A report that is refused until the window has just not run out, then waits for a last post to time out. */
  function WorstPosts(window: nat): nat -> Post {
    i => if i < window / RETRY_PAUSE then Post(0, false)
         else if i == window / RETRY_PAUSE then Post(window % RETRY_PAUSE, false)
         else Post(POST_TIMEOUT, false)
  }

  lemma {:induction false} WorstReport(window: nat, i: nat)
    requires i <= window / RETRY_PAUSE
    ensures i * RETRY_PAUSE <= window + RETRY_PAUSE
    ensures ReportTime(WorstPosts(window), window, i, i * RETRY_PAUSE) == window + RETRY_PAUSE + POST_TIMEOUT
    decreases window / RETRY_PAUSE - i
  {
    var posts := WorstPosts(window);
    if i < window / RETRY_PAUSE {
      WorstReport(window, i + 1);
    } else {
      assert i * RETRY_PAUSE + Took(posts(i)) == window;
      assert ReportTime(posts, window, i + 1, window + RETRY_PAUSE) == window + RETRY_PAUSE + POST_TIMEOUT;
    }
  }

  ghost predicate GenuineRun(cfg: Config, s: State, es: seq<Event>) {
    ValidRun(cfg, s, es) && PromptRun(cfg, s, es) && SteadyRun(cfg, s, es)
  }

  /** Take one more turn. */
  lemma Extend(cfg: Config, s: State, es: seq<Event>, e: Event) returns (out: seq<Event>, t: State)
    requires GenuineRun(cfg, s, es) && Steady(cfg, RunFrom(cfg, s, es), e)
    requires Enabled(RunFrom(cfg, s, es), e) && Prompt(RunFrom(cfg, s, es), e)
    ensures GenuineRun(cfg, s, out) && t == RunFrom(cfg, s, out) == Next(cfg, RunFrom(cfg, s, es), e)
  {
    RunStep(cfg, s, es, e);
    out := es + [e];
    t := RunFrom(cfg, s, out);
    assert out[..|es|] == es;
  }

  lemma ExtendReply(cfg: Config, s: State, es: seq<Event>, acts: seq<Act>) returns (out: seq<Event>, t: State)
    requires GenuineRun(cfg, s, es) && Orderly(acts) && RunFrom(cfg, s, es).exit == Running && RunFrom(cfg, s, es).inbox == []
    ensures GenuineRun(cfg, s, out) && t == RunFrom(cfg, s, out) == OnPollOk(cfg, RunFrom(cfg, s, es), 0, acts)
  {
    OrderlyIsSteady(cfg, RunFrom(cfg, s, es), 0, acts);
    out, t := Extend(cfg, s, es, PollOk(0, acts));
  }

  /** Attempts 0, 1, 2, ... of the witness; the i-th is the i-th start. */
  function Job(i: nat): Attempt { Attempt("job", i) }

  ghost predicate Live(s: State, i: nat) {
    Job(i) in s.running && s.running[Job(i)] == i && Task(Job(i), i) in s.alive
  }

  ghost predicate LiveFrom(s: State, i: nat, n: nat) {
    forall j: nat | i <= j < n :: Live(s, j)
  }

  /** The witness at the start of a turn: job 0 and jobs i, ..., n - 1 are at work, nothing waits in the channel. */
  ghost predicate Poised(s: State, i: nat, n: nat) {
    s.exit == Running && s.inbox == [] && s.now >= s.lastContact && Live(s, 0) && LiveFrom(s, i, n)
  }

  function AssignJobs(n: nat): seq<Act> { seq(n, i requires i >= 0 => Do(Assign(Job(i)))) }

  lemma {:induction false} JobsAssigned(cfg: Config, s: State, n: nat)
    requires s.running == map[] && s.starts == 0
    ensures var t := OnActs(cfg, s, AssignJobs(n));
      && t == s.(running := t.running, alive := t.alive, started := t.started, starts := n)
      && LiveFrom(t, 0, n) && forall j | j >= n :: Job(j) !in t.running
  {
    if n > 0 {
      JobsAssigned(cfg, s, n - 1);
      assert AssignJobs(n)[..n - 1] == AssignJobs(n - 1);
      var u, t := OnActs(cfg, s, AssignJobs(n - 1)), OnActs(cfg, s, AssignJobs(n));
      forall j: nat | 0 <= j < n ensures Live(t, j) { assert j < n - 1 ==> Live(u, j); }
    }
  }

  lemma {:induction false} AssignsAreOrderly(n: nat)
    ensures Orderly(AssignJobs(n)) && CancelsIn(AssignJobs(n)) == {}
  {
    if n > 0 {
      AssignsAreOrderly(n - 1);
      assert AssignJobs(n)[..n - 1] == AssignJobs(n - 1);
    }
  }

  /** Cancels, from job `i` on, whose reports take `d` together. */
  function SlowCancels(i: nat, d: nat): seq<Act>
    decreases d
  {
    if d <= POST_TIMEOUT then [Do(Cancel(Job(i), _ => Post(d, true), 0))]
    else SlowCancels(i + 1, d - POST_TIMEOUT) + [Do(Cancel(Job(i), _ => Post(POST_TIMEOUT, true), 0))]
  }

  function CancelCount(d: nat): nat {
    if d <= POST_TIMEOUT then 1 else 1 + CancelCount(d - POST_TIMEOUT)
  }

  lemma {:induction false} CancelsAreOrderly(i: nat, d: nat)
    ensures Orderly(SlowCancels(i, d))
    decreases d
  {
    var acts := SlowCancels(i, d);
    if d > POST_TIMEOUT {
      CancelsAreOrderly(i + 1, d - POST_TIMEOUT);
      assert acts[..|acts| - 1] == SlowCancels(i + 1, d - POST_TIMEOUT);
    }
  }

  lemma OneCancel(cfg: Config, s: State, i: nat, d: nat)
    requires 0 < i && Live(s, i) && Live(s, 0) && d <= POST_TIMEOUT
    ensures var t := OnCommand(cfg, s, Cancel(Job(i), _ => Post(d, true), 0));
      && t.now == s.now + d && t.exit == s.exit && t.inbox == s.inbox && t.consumed == s.consumed
      && Live(t, 0) && forall j: nat | j != i && Live(s, j) :: Live(t, j)
  {
    assert Job(0) in s.running - {Job(i)};
  }

  lemma {:induction false} CancelsTake(cfg: Config, s: State, i: nat, d: nat)
    requires 0 < i && Live(s, 0) && LiveFrom(s, i, i + CancelCount(d))
    ensures var t := OnActs(cfg, s, SlowCancels(i, d));
      && t.now == s.now + d && t.exit == s.exit && t.inbox == s.inbox && t.consumed == s.consumed
      && Live(t, 0) && forall j: nat | j < i && Live(s, j) :: Live(t, j)
    decreases d
  {
    var acts := SlowCancels(i, d);
    if d > POST_TIMEOUT {
      CancelsTake(cfg, s, i + 1, d - POST_TIMEOUT);
      assert acts[..|acts| - 1] == SlowCancels(i + 1, d - POST_TIMEOUT);
      assert Live(s, i);
      OneCancel(cfg, OnActs(cfg, s, SlowCancels(i + 1, d - POST_TIMEOUT)), i, POST_TIMEOUT);
    } else {
      assert acts[..0] == [] && OnActs(cfg, s, []) == s;
      assert Live(s, i);
      OneCancel(cfg, s, i, d);
    }
  }

  /** A first reply assigns jobs 0, ..., n - 1. */
  lemma Load(cfg: Config, s: State, n: nat) returns (es: seq<Event>, t: State)
    requires s.running == map[] && s.starts == 0 && s.exit == Running && s.inbox == [] && n > 0
    ensures GenuineRun(cfg, s, es) && t == RunFrom(cfg, s, es) && Poised(t, 1, n)
  {
    AssignsAreOrderly(n);
    es, t := ExtendReply(cfg, s, [], AssignJobs(n));
    var u := OnActs(cfg, Contacted(s, 0), AssignJobs(n));
    JobsAssigned(cfg, Contacted(s, 0), n);
    assert !HasShutdown(AssignJobs(n));
    forall j: nat | j < n ensures Live(t, j) { assert Live(u, j); }
  }

  lemma {:induction false} NoShutdownInCancels(i: nat, d: nat)
    ensures !HasShutdown(SlowCancels(i, d))
    decreases d
  {
    if d > POST_TIMEOUT { NoShutdownInCancels(i + 1, d - POST_TIMEOUT); }
  }

  lemma SlowReply(cfg: Config, u: State, k: nat, h: nat)
    requires h >= POLL_PAUSE && Poised(u, 1, k + 1 + CancelCount(h - POLL_PAUSE))
    ensures var t := OnPollOk(cfg, u, 0, SlowCancels(k + 1, h - POLL_PAUSE));
      Poised(t, 1, k + 1) && t.handled == Silence(t) == h && t.consumed == 0
  {
    var acts, b := SlowCancels(k + 1, h - POLL_PAUSE), Contacted(u, 0);
    NoShutdownInCancels(k + 1, h - POLL_PAUSE);
    SameJobs(u, b, 1, k + 1 + CancelCount(h - POLL_PAUSE));
    CancelsTake(cfg, b, k + 1, h - POLL_PAUSE);
    SomeJobs(cfg, b, acts, OnPollOk(cfg, u, 0, acts), k);
  }

  /** A second reply cancels the jobs behind job `k`, so slowly that it is dealt with after `h`. */
  lemma Slow(cfg: Config, s: State, es: seq<Event>, k: nat, h: nat) returns (out: seq<Event>, t: State)
    requires GenuineRun(cfg, s, es) && h >= POLL_PAUSE && Poised(RunFrom(cfg, s, es), 1, k + 1 + CancelCount(h - POLL_PAUSE))
    ensures GenuineRun(cfg, s, out) && t == RunFrom(cfg, s, out) && Poised(t, 1, k + 1)
    ensures t.handled == Silence(t) == h && t.consumed == 0
  {
    CancelsAreOrderly(k + 1, h - POLL_PAUSE);
    SlowReply(cfg, RunFrom(cfg, s, es), k, h);
    out, t := ExtendReply(cfg, s, es, SlowCancels(k + 1, h - POLL_PAUSE));
  }

  lemma SameJobs(s: State, t: State, i: nat, n: nat)
    requires Live(s, 0) && LiveFrom(s, i, n) && t.running == s.running && t.alive == s.alive
    ensures Live(t, 0) && LiveFrom(t, i, n)
  {
    forall j: nat | i <= j < n ensures Live(t, j) { assert Live(s, j); }
  }

  lemma {:induction false} SomeJobs(cfg: Config, b: State, acts: seq<Act>, t: State, k: nat)
    requires LiveFrom(b, 1, k + 1) && (forall j: nat | j < k + 1 && Live(b, j) :: Live(OnActs(cfg, b, acts), j))
    requires t.running == OnActs(cfg, b, acts).running && t.alive == OnActs(cfg, b, acts).alive
    ensures LiveFrom(t, 1, k + 1)
  {
    forall j: nat | 1 <= j < k + 1 ensures Live(t, j) { assert Live(b, j); }
  }

  lemma FailStep(cfg: Config, t: State, wait: nat)
    requires t.exit == Running && t.now >= t.lastContact && wait <= POLL_TIMEOUT && Silence(t) + wait <= Limit(cfg)
    ensures Next(cfg, t, PollFailed(wait, 0)) == t.(now := t.now + wait + RETRY_PAUSE, stopping := {})
  {
  }

  /** Failed polls up to the last one that is not yet too late. */
  lemma {:induction false} Climb(cfg: Config, s: State, es: seq<Event>) returns (out: seq<Event>, t: State)
    requires GenuineRun(cfg, s, es)
    requires var u := RunFrom(cfg, s, es); u.exit == Running && u.inbox == [] && u.now >= u.lastContact && Silence(u) <= Limit(cfg)
    ensures GenuineRun(cfg, s, out) && t == RunFrom(cfg, s, out)
    ensures var u := RunFrom(cfg, s, es); t == u.(now := u.lastContact + Limit(cfg) + RETRY_PAUSE, stopping := {})
    decreases Limit(cfg) - Silence(RunFrom(cfg, s, es))
  {
    var u := RunFrom(cfg, s, es);
    var left := Limit(cfg) - Silence(u);
    if left <= POLL_TIMEOUT {
      FailStep(cfg, u, left);
      out, t := Extend(cfg, s, es, PollFailed(left, 0));
    } else {
      FailStep(cfg, u, POLL_TIMEOUT - RETRY_PAUSE);
      out, t := Extend(cfg, s, es, PollFailed(POLL_TIMEOUT - RETRY_PAUSE, 0));
      out, t := Climb(cfg, s, out);
    }
  }

  /** The i-th job ends just when its poll has been held to the last, and its report takes as long as it can. */
  function LateDone(cfg: Config, i: nat): Event {
    Done(POLL_TIMEOUT, Some(Message(Task(Job(i), i), Success)), WorstPosts(cfg.GiveUpAfter()), 0)
  }

  lemma DoneBlocks(cfg: Config, s: State, i: nat, n: nat)
    requires 0 < i < n && Poised(s, i, n)
    ensures Enabled(s, LateDone(cfg, i)) && Prompt(s, LateDone(cfg, i))
    ensures var t := Next(cfg, s, LateDone(cfg, i));
      && Poised(t, i + 1, n) && t.lastContact == s.lastContact && t.handled == s.handled && t.consumed == s.consumed + 1
      && t.now == s.now + POLL_TIMEOUT + cfg.GiveUpAfter() + RETRY_PAUSE + POST_TIMEOUT
  {
    var e, task := LateDone(cfg, i), Task(Job(i), i);
    assert Live(s, i) && Live(s, 0);
    var u := Received(Began(s, POLL_TIMEOUT), e.sent);
    assert u.inbox == [Message(task, Success)] && u.alive == s.alive - {task} && u.running == s.running;
    WorstReport(cfg.GiveUpAfter(), 0);
    assert Job(0) in u.running - {Job(i)};
    var t := Next(cfg, s, e);
    assert t.running == s.running - {Job(i)} && t.alive == s.alive - {task};
    forall j: nat | i + 1 <= j < n ensures Live(t, j) { assert Live(s, j); }
  }

  /** Each consumed message costs a whole poll and a whole report. */
  lemma {:induction false} DonesBlock(cfg: Config, s: State, es: seq<Event>, k: nat, n: nat) returns (out: seq<Event>, t: State)
    requires k < n && GenuineRun(cfg, s, es) && Poised(RunFrom(cfg, s, es), 1, n) && RunFrom(cfg, s, es).consumed == 0
    ensures GenuineRun(cfg, s, out) && t == RunFrom(cfg, s, out) && Poised(t, k + 1, n)
    ensures var u := RunFrom(cfg, s, es);
      t.lastContact == u.lastContact && t.handled == u.handled && t.consumed == k && t.now == u.now + Blocked(cfg, k)
    decreases k
  {
    if k == 0 {
      out, t := es, RunFrom(cfg, s, es);
    } else {
      out, t := DonesBlock(cfg, s, es, k - 1, n);
      DoneBlocks(cfg, t, k, n);
      out, t := Extend(cfg, s, out, LateDone(cfg, k));
    }
  }

  /** The longest silence with which a poll can begin while jobs run, over all runs whose replies are dealt with within `h`. */
  function Worst(cfg: Config, h: nat): nat {
    if Limit(cfg) < POLL_PAUSE then h else Max(h, Limit(cfg) + RETRY_PAUSE)
  }

  lemma LastPoll(cfg: Config, s: State)
    requires s.exit == Running && s.now >= s.lastContact && Silence(s) > Limit(cfg) && s.alive <= Tasks(s.running) && s.running != map[]
    ensures BusyUntil(cfg, s, PollFailed(POLL_TIMEOUT, 0)) == s.now + POLL_TIMEOUT
  {
    var b := Began(s, POLL_TIMEOUT);
    assert Drained(b).alive == {};
  }

  /** For every k and every h there is a run that reaches the bound. */
  lemma WorstRun(cfg: Config, start: nat, k: nat, h: nat) returns (es: seq<Event>, e: Event)
    requires h >= POLL_PAUSE
    ensures Genuine(cfg, start, es, e)
    ensures var s := RunFrom(cfg, Initial(start), es);
      && s.alive != {} && s.handled <= h && ConsumedBy(s, e) == k
      && BusyUntil(cfg, s, e) - s.lastContact == Worst(cfg, h) + POLL_TIMEOUT + Blocked(cfg, k)
  {
    var climbs := Limit(cfg) >= POLL_PAUSE && h <= Limit(cfg) + RETRY_PAUSE;
    var reply := if climbs then POLL_PAUSE else h;
    var n := k + 1 + CancelCount(reply - POLL_PAUSE);
    var t;
    es, t := Load(cfg, Initial(start), n);
    es, t := Slow(cfg, Initial(start), es, k, reply);
    if climbs {
      var u := t;
      es, t := Climb(cfg, Initial(start), es);
      SameJobs(u, t, 1, k + 1);
    }
    assert Poised(t, 1, k + 1) && Silence(t) == Worst(cfg, h) && t.handled <= h && t.consumed == 0;
    es, t := DonesBlock(cfg, Initial(start), es, k, k + 1);
    e := PollFailed(POLL_TIMEOUT, 0);
    OutcomesAreOwn(cfg, start, es);
    assert Live(t, 0);
    LastPoll(cfg, t);
  }

  // ---------- when the rule holds ----------

  /** Some task is still at work, the backend's stop grace included, when the scheduler may hand its job on. */
  ghost predicate Violates(cfg: Config, start: nat, es: seq<Event>, e: Event, contact: nat, time: nat, handled: nat, k: nat, lag: nat) {
    && Genuine(cfg, start, es, e) && AtWork(cfg, RunFrom(cfg, Initial(start), es), e, contact, time, handled, k)
    && MayHandOver(cfg, contact, lag, time + STOP_GRACE)
  }

  /** No run violates the rule whose replies are dealt with within `h`, and that consumes at most `k` messages after a contact. */
  ghost predicate RuleHolds(cfg: Config, k: nat, h: nat, lag: nat) {
    forall start: nat, es: seq<Event>, e: Event, contact: nat, time: nat, handled: nat, j: nat
      {:trigger Violates(cfg, start, es, e, contact, time, handled, j, lag)} ::
      handled <= h && j <= k ==> !Violates(cfg, start, es, e, contact, time, handled, j, lag)
  }

  lemma {:induction false} WithinWorst(cfg: Config, start: nat, es: seq<Event>, e: Event, contact: nat, time: nat, handled: nat, j: nat, k: nat, h: nat)
    requires Genuine(cfg, start, es, e) && AtWork(cfg, RunFrom(cfg, Initial(start), es), e, contact, time, handled, j)
    requires handled <= h && j <= k
    ensures time - contact <= Worst(cfg, h) + POLL_TIMEOUT + Blocked(cfg, k)
  {
    PartitionBound(cfg, start, es, e, contact, time, handled, j);
    BlockedGrows(cfg, j, k);
  }

  /** The rule holds exactly when the lease is longer than the longest silence, a held poll, what the messages cost, the stop
      grace and the renewal lag together. */
  lemma RuleExact(cfg: Config, k: nat, h: nat, lag: nat)
    requires h >= POLL_PAUSE
    ensures RuleHolds(cfg, k, h, lag)
       <==> cfg.Lease() > Worst(cfg, h) + 40 * SECOND + k * (cfg.GiveUpAfter() + 46 * SECOND) + lag
  {
    BlockedIs(cfg, k);
    if cfg.Lease() > Worst(cfg, h) + 40 * SECOND + k * (cfg.GiveUpAfter() + 46 * SECOND) + lag {
      forall start: nat, es: seq<Event>, e: Event, contact: nat, time: nat, handled: nat, j: nat | handled <= h && j <= k
        ensures !Violates(cfg, start, es, e, contact, time, handled, j, lag)
      {
        if Genuine(cfg, start, es, e) && AtWork(cfg, RunFrom(cfg, Initial(start), es), e, contact, time, handled, j) {
          WithinWorst(cfg, start, es, e, contact, time, handled, j, k, h);
        }
      }
    } else {
      var es, e := WorstRun(cfg, 0, k, h);
      var s := RunFrom(cfg, Initial(0), es);
      assert Violates(cfg, 0, es, e, s.lastContact, BusyUntil(cfg, s, e), s.handled, k, lag);
    }
  }

  /** In the usual case the condition is on the stop margin alone. */
  lemma MarginExact(cfg: Config, k: nat, h: nat, lag: nat)
    requires 0 < cfg.leaseSecs && cfg.stopMarginSecs < cfg.leaseSecs && POLL_PAUSE <= h <= cfg.GiveUpAfter() + RETRY_PAUSE
    ensures RuleHolds(cfg, k, h, lag) <==> cfg.Margin() > 41 * SECOND + k * (cfg.GiveUpAfter() + 46 * SECOND) + lag
  {
    RuleExact(cfg, k, h, lag);
  }

  /** The margin the pool engine hands out: a third of the lease, between 1 and 30 s. */
  function ShippedMargin(leaseSecs: nat): nat {
    if leaseSecs / 3 < 1 then 1 else if leaseSecs / 3 > 30 then 30 else leaseSecs / 3
  }

  /** It is too short for every lease, even without completions, slow replies or lag: some run overlaps. */
  lemma ShippedMarginIsTooShort(cfg: Config)
    requires cfg.stopMarginSecs == ShippedMargin(cfg.leaseSecs)
    ensures !RuleHolds(cfg, 0, POLL_PAUSE, 0)
  {
    RuleExact(cfg, 0, POLL_PAUSE, 0);
  }
}
