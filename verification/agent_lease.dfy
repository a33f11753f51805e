/** How long a job can outlive the last scheduler contact, and when that keeps it inside its lease. */
module AgentLease {
  import opened Agent
  import opened AgentPrompt
  import opened AgentMix

  function Max(a: nat, b: nat): nat { if a > b then a else b }

  /** Time `k` consumed messages can add to a silence: a poll each, and a report each. */
  function Blocked(cfg: Config, k: nat): nat {
    if k == 0 then 0
    else Blocked(cfg, k - 1) + POLL_TIMEOUT + cfg.GiveUpAfter() + RETRY_PAUSE + POST_TIMEOUT
  }

  lemma {:induction false} BlockedIs(cfg: Config, k: nat)
    ensures Blocked(cfg, k) == k * (cfg.GiveUpAfter() + 46 * SECOND)
  {
    if k > 0 {
      BlockedIs(cfg, k - 1);
      var each := cfg.GiveUpAfter() + 46 * SECOND;
      assert k * each == (k - 1) * each + each;
    }
  }

  lemma {:induction false} BlockedGrows(cfg: Config, j: nat, k: nat)
    requires j <= k
    ensures Blocked(cfg, j) <= Blocked(cfg, k)
    decreases k
  {
    if j < k { BlockedGrows(cfg, j, k - 1); }
  }

  /** The longest silence after which a failed poll still leaves the jobs running. */
  function Limit(cfg: Config): nat {
    if cfg.GiveUpAfter() < cfg.OrphanAfter() then cfg.GiveUpAfter() else cfg.OrphanAfter()
  }

  /** The silence with which a poll can at most begin while jobs run, when the last reply was dealt with after `handled`. */
  function Head(cfg: Config, handled: nat): nat {
    if handled <= Limit(cfg) then Limit(cfg) + RETRY_PAUSE else handled
  }

  /** What every turn keeps. */
  ghost predicate Timely(cfg: Config, s: State) {
    && s.now >= s.lastContact
    && (s.exit == Running && s.running != map[] ==>
          POLL_PAUSE <= s.handled <= Silence(s) <= Head(cfg, s.handled) + Blocked(cfg, s.consumed))
  }

  lemma {:induction false} ActsKeepExit(cfg: Config, s: State, acts: seq<Act>)
    ensures var t := OnActs(cfg, s, acts); t.exit == s.exit && t.consumed == s.consumed
  {
    if acts != [] { ActsKeepExit(cfg, s, acts[..|acts| - 1]); }
  }

  lemma ContactResets(cfg: Config, s: State, wait: nat, acts: seq<Act>)
    ensures var t := OnPollOk(cfg, s, wait, acts);
      && t.now >= t.lastContact && t.lastContact == s.now + Waited(wait) && Silence(t) == t.handled && t.consumed == 0
      && (s.exit == Running ==> (if HasShutdown(acts) then t.exit == Dismissed && t.running == map[] else t.exit == Running && t.handled >= POLL_PAUSE))
  {
    ActsKeepExit(cfg, Contacted(s, wait), acts);
  }

  /** A completion: the poll held so far, a report, and a restart if nothing runs any more. */
  lemma DoneTakes(cfg: Config, s: State, e: Event)
    requires Enabled(s, e) && e.Done?
    ensures var t := Next(cfg, s, e);
      && t.lastContact == s.lastContact && t.handled == s.handled && t.exit == s.exit && t.consumed == s.consumed + 1
      && s.now <= t.now <= s.now + POLL_TIMEOUT + cfg.GiveUpAfter() + RETRY_PAUSE + POST_TIMEOUT + e.restart
      && (t.running != map[] ==> s.running != map[] && t.now <= s.now + POLL_TIMEOUT + cfg.GiveUpAfter() + RETRY_PAUSE + POST_TIMEOUT)
  {
  }

  lemma TurnKeepsTimely(cfg: Config, s: State, e: Event)
    requires Timely(cfg, s) && Enabled(s, e)
    ensures Timely(cfg, Next(cfg, s, e))
  {
    match e
    case PollOk(wait, acts) => ContactResets(cfg, s, wait, acts);
    case Done(_, _, _, _) => DoneTakes(cfg, s, e);
    case _ =>
  }

  lemma {:induction false} RunIsTimely(cfg: Config, start: nat, es: seq<Event>)
    requires ValidRun(cfg, Initial(start), es)
    ensures Timely(cfg, RunFrom(cfg, Initial(start), es))
  {
    if es != [] {
      RunIsTimely(cfg, start, es[..|es| - 1]);
      TurnKeepsTimely(cfg, RunFrom(cfg, Initial(start), es[..|es| - 1]), es[|es| - 1]);
    }
  }

  // ---------- when work stops ----------

  /** Up to when tasks that are at work at the start of a turn can be at work under the contact they started it with:
      until they are aborted, until the turn ends with some still at work, or until a poll renews the contact. */
  function BusyUntil(cfg: Config, s: State, e: Event): nat
    requires Enabled(s, e)
  {
    match e
    case Finish(_) => s.now
    case PollOk(wait, _) => s.now + Waited(wait)
    case _ => if Next(cfg, s, e).alive == {} then s.now + Waited(e.wait) else Next(cfg, s, e).now
  }

  /** The messages consumed since the last contact, this turn included. */
  function ConsumedBy(s: State, e: Event): nat {
    s.consumed + if e.Done? then 1 else 0
  }

  /** The state at a command boundary of a reply. */
  function Amid(cfg: Config, s: State, e: Event, n: nat): State
    requires e.PollOk? && n <= |e.acts|
  {
    OnActs(cfg, Contacted(s, e.wait), e.acts[..n])
  }

  /** In this turn some task is at work at `time`, the last contact being at `contact`, its reply taking `handled` to deal
      with, and `k` messages having been consumed since. Work amid a reply counts under the contact it brought. */
  ghost predicate AtWork(cfg: Config, s: State, e: Event, contact: nat, time: nat, handled: nat, k: nat)
    requires Enabled(s, e)
  {
    || (s.alive != {} && contact == s.lastContact && time == BusyUntil(cfg, s, e) && handled == s.handled && k == ConsumedBy(s, e))
    || (e.PollOk? && contact == s.now + Waited(e.wait) && handled == Next(cfg, s, e).handled && k == 0
        && exists n | 0 <= n <= |e.acts| :: Amid(cfg, s, e, n).alive != {} && time == Amid(cfg, s, e, n).now)
  }

  /** The runs of the loop, and a last turn: messages are read promptly, and no reply recalls an attempt. */
  ghost predicate Genuine(cfg: Config, start: nat, es: seq<Event>, e: Event) {
    && ValidRun(cfg, Initial(start), es) && PromptRun(cfg, Initial(start), es) && SteadyRun(cfg, Initial(start), es)
    && Enabled(RunFrom(cfg, Initial(start), es), e) && Prompt(RunFrom(cfg, Initial(start), es), e)
    && Steady(cfg, RunFrom(cfg, Initial(start), es), e)
  }

  lemma {:induction false} ActsTakeTime(cfg: Config, s: State, acts: seq<Act>, n: nat)
    requires n <= |acts|
    ensures OnActs(cfg, s, acts[..n]).now <= OnActs(cfg, s, acts).now
    decreases |acts|
  {
    if n < |acts| {
      assert acts[..|acts| - 1][..n] == acts[..n];
      ActsTakeTime(cfg, s, acts[..|acts| - 1], n);
    } else {
      assert acts[..n] == acts;
    }
  }

  lemma AmidInTime(cfg: Config, s: State, e: Event, n: nat)
    requires Enabled(s, e) && e.PollOk? && n <= |e.acts|
    ensures Amid(cfg, s, e, n).now - (s.now + Waited(e.wait)) <= Next(cfg, s, e).handled
  {
    ActsTakeTime(cfg, Contacted(s, e.wait), e.acts, n);
  }

  lemma {:induction false} StopsInTime(cfg: Config, s: State, e: Event)
    requires Enabled(s, e) && s.alive != {} && Timely(cfg, s) && s.alive <= Tasks(s.running)
    requires Timely(cfg, Next(cfg, s, e)) && Next(cfg, s, e).alive <= Tasks(Next(cfg, s, e).running)
    requires Next(cfg, s, e).exit != Running ==> Next(cfg, s, e).running == map[]
    ensures BusyUntil(cfg, s, e) - s.lastContact <= Head(cfg, s.handled) + POLL_TIMEOUT + Blocked(cfg, ConsumedBy(s, e))
    ensures POLL_PAUSE <= s.handled
  {
    BlockedGrows(cfg, s.consumed, ConsumedBy(s, e));
    var t :| t in s.alive;
    assert t in Tasks(s.running) && s.running != map[];
    if !e.PollOk? && Next(cfg, s, e).alive != {} {
      var u :| u in Next(cfg, s, e).alive;
      assert u in Tasks(Next(cfg, s, e).running) && Next(cfg, s, e).running != map[];
      SameContact(cfg, s, e);
    }
  }

  lemma SameContact(cfg: Config, s: State, e: Event)
    requires Enabled(s, e) && !e.PollOk?
    ensures var t := Next(cfg, s, e); t.lastContact == s.lastContact && t.handled == s.handled && t.consumed == ConsumedBy(s, e)
  {
  }

  lemma ExitStopsAll(cfg: Config, s: State, e: Event)
    requires Enabled(s, e)
    ensures Next(cfg, s, e).exit != Running ==> Next(cfg, s, e).running == map[]
  {
    match e
    case PollOk(wait, acts) => ContactResets(cfg, s, wait, acts);
    case _ =>
  }

  lemma {:induction false} WorkIsBounded(cfg: Config, start: nat, es: seq<Event>, e: Event)
    requires Genuine(cfg, start, es, e)
    ensures var s := RunFrom(cfg, Initial(start), es);
      s.alive != {} ==>
        && POLL_PAUSE <= s.handled
        && BusyUntil(cfg, s, e) - s.lastContact <= Head(cfg, s.handled) + POLL_TIMEOUT + Blocked(cfg, ConsumedBy(s, e))
  {
    var s := RunFrom(cfg, Initial(start), es);
    RunIsTimely(cfg, start, es);
    OutcomesAreOwn(cfg, start, es);
    if s.alive != {} {
      TurnKeepsTimely(cfg, s, e);
      TurnKeepsCurrent(cfg, s, e);
      ExitStopsAll(cfg, s, e);
      StopsInTime(cfg, s, e);
    }
  }

  /** In every run of the loop, no task is at work later than this after the last contact. */
  lemma {:induction false} PartitionBound(cfg: Config, start: nat, es: seq<Event>, e: Event, contact: nat, time: nat, handled: nat, k: nat)
    requires Genuine(cfg, start, es, e) && AtWork(cfg, RunFrom(cfg, Initial(start), es), e, contact, time, handled, k)
    ensures time - contact <= Head(cfg, handled) + POLL_TIMEOUT + Blocked(cfg, k)
    ensures time - contact <= handled || (POLL_PAUSE <= handled && RunFrom(cfg, Initial(start), es).alive != {})
  {
    var s := RunFrom(cfg, Initial(start), es);
    WorkIsBounded(cfg, start, es, e);
    if !(s.alive != {} && contact == s.lastContact && time == BusyUntil(cfg, s, e) && handled == s.handled && k == ConsumedBy(s, e)) {
      var n :| 0 <= n <= |e.acts| && Amid(cfg, s, e, n).alive != {} && time == Amid(cfg, s, e, n).now;
      AmidInTime(cfg, s, e, n);
    }
  }

  /** Command handling: how late after contact a reply has been dealt with. */
  function Cancels(cfg: Config, acts: seq<Act>): nat {
    if acts == [] then 0
    else
      var a := acts[|acts| - 1];
      Cancels(cfg, acts[..|acts| - 1])
        + if a.Do? && a.command.Cancel? then cfg.GiveUpAfter() + RETRY_PAUSE + POST_TIMEOUT + a.command.restart else 0
  }

  lemma {:induction false} ReplyTime(cfg: Config, s: State, acts: seq<Act>)
    ensures OnActs(cfg, s, acts).now <= s.now + Cancels(cfg, acts)
  {
    if acts != [] { ReplyTime(cfg, s, acts[..|acts| - 1]); }
  }

  /** A reply takes the pause, and a report and a restart for each cancel; a shutdown takes no pause. */
  lemma {:induction false} HandledAfterReply(cfg: Config, s: State, wait: nat, acts: seq<Act>)
    ensures OnPollOk(cfg, s, wait, acts).handled <= Cancels(cfg, acts) + if HasShutdown(acts) then 0 else POLL_PAUSE
  {
    ReplyTime(cfg, Contacted(s, wait), acts);
  }

  // ---------- giving the machine up ----------

  predicate RestartsWithin(e: Event, most: nat) {
    e.Done? || e.PollFailed? ==> e.restart <= most
  }

  /** Time `k` consumed messages can add to a silence, with a backend restart each. */
  function BlockedWith(cfg: Config, k: nat, most: nat): nat {
    if k == 0 then 0
    else BlockedWith(cfg, k - 1, most) + POLL_TIMEOUT + cfg.GiveUpAfter() + RETRY_PAUSE + POST_TIMEOUT + most
  }

  /** The longest silence with which the loop still goes on; once it has ended, what that says. */
  ghost predicate Patient(cfg: Config, s: State, most: nat) {
    && s.now >= s.lastContact
    && (s.exit == Running ==> Silence(s) <= Max(s.handled, cfg.OrphanAfter() + RETRY_PAUSE + most) + BlockedWith(cfg, s.consumed, most))
    && (s.exit == Orphaned ==> Silence(s) > cfg.OrphanAfter())
    && (s.exit != Running ==> s.running == map[])
  }

  lemma TurnKeepsPatient(cfg: Config, s: State, e: Event, most: nat)
    requires Patient(cfg, s, most) && Enabled(s, e) && RestartsWithin(e, most)
    ensures Patient(cfg, Next(cfg, s, e), most)
  {
    match e
    case PollOk(wait, acts) => ContactResets(cfg, s, wait, acts);
    case Done(_, _, _, _) => DoneTakes(cfg, s, e);
    case PollFailed(wait, restart) => FailedIsPatient(cfg, Began(s, wait), restart, most);
    case _ =>
  }

  lemma FailedIsPatient(cfg: Config, s: State, restart: nat, most: nat)
    requires s.now >= s.lastContact && s.exit == Running && restart <= most
    ensures Patient(cfg, OnPollFailed(cfg, s, restart), most)
  {
  }

  /** In every run with restarts of at most `most`: an agent that is still polling heard from the scheduler within this
      bound; one that exited as an orphan was silent for longer than the orphan time; and an exit leaves nothing running. */
  lemma {:induction false} OrphanBound(cfg: Config, start: nat, es: seq<Event>, most: nat)
    requires ValidRun(cfg, Initial(start), es) && forall i | 0 <= i < |es| :: RestartsWithin(es[i], most)
    ensures Patient(cfg, RunFrom(cfg, Initial(start), es), most)
  {
    if es != [] {
      OrphanBound(cfg, start, es[..|es| - 1], most);
      TurnKeepsPatient(cfg, RunFrom(cfg, Initial(start), es[..|es| - 1]), es[|es| - 1], most);
    }
  }

  // ---------- no two machines ----------

  /** The scheduler hands a job on only when its lease is over. The lease it granted with the last contact may have
      started up to `lag` before the agent noted that contact. */
  ghost predicate MayHandOver(cfg: Config, contact: nat, lag: nat, at: nat) {
    at + lag >= contact + cfg.Lease()
  }

  /** With a lease that long, a job has stopped, the backend's grace included, before anyone else may start it. */
  lemma {:induction false} NoTwoMachines(cfg: Config, start: nat, es: seq<Event>, e: Event, contact: nat, time: nat, handled: nat, k: nat, lag: nat, other: nat)
    requires Genuine(cfg, start, es, e) && AtWork(cfg, RunFrom(cfg, Initial(start), es), e, contact, time, handled, k)
    requires MayHandOver(cfg, contact, lag, other)
    requires cfg.Lease() > Head(cfg, handled) + POLL_TIMEOUT + Blocked(cfg, k) + STOP_GRACE + lag
    ensures time + STOP_GRACE < other
  {
    PartitionBound(cfg, start, es, e, contact, time, handled, k);
  }
}
