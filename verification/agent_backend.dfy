/** How the loop ends, and what it leaves the backend doing. */
module AgentBackend {
  import opened Options
  import opened Agent
  import opened AgentPrompt
  import opened AgentMix

  // ---------- exits ----------

  /** When the poll ends, contact has been lost for longer than that. */
  predicate SilentFor(s: State, e: Event, time: int)
    requires e.PollFailed?
  {
    s.now + Waited(e.wait) - s.lastContact > time
  }

  /** How a turn ends the loop, by the event alone and the time without contact. */
  lemma ExitExact(cfg: Config, s: State, e: Event)
    requires Enabled(s, e)
    ensures var exit := Next(cfg, s, e).exit;
      && (exit == Signalled <==> e.Signal?)
      && (exit == Dismissed <==> e.PollDismissed? || (e.PollOk? && Do(Shutdown) in e.acts))
      && (exit == Orphaned <==> e.PollFailed? && SilentFor(s, e, 1000 * cfg.orphanSecs) && SilentFor(s, e, 1000 * cfg.leaseSecs))
  {
    match e
    case PollOk(wait, acts) =>
      ActsGoOn(cfg, Contacted(s, wait), acts);
      assert HasShutdown(acts) <==> Do(Shutdown) in acts;
    case _ =>
  }

  lemma {:induction false} ActsGoOn(cfg: Config, s: State, acts: seq<Act>)
    ensures OnActs(cfg, s, acts).exit == s.exit
  {
    if acts != [] { ActsGoOn(cfg, s, acts[..|acts| - 1]); }
  }

  // ---------- restarts ----------

  /** A failed poll stops the jobs exactly when contact has been lost for longer than the lease less the margin, and brings the
      backend back exactly when it stopped some; a finished job does so exactly when recycling is on and it was the last one. The
      time a turn takes shows it. */
  lemma RestartExact(cfg: Config, s: State, e: Event)
    requires Enabled(s, e)
    ensures var t := Next(cfg, s, e);
      && (e.PollFailed? && t.exit == Running ==>
          && t.running == (if SilentFor(s, e, 0) && SilentFor(s, e, 1000 * ((if cfg.leaseSecs == 0 then 1 else cfg.leaseSecs) - cfg.stopMarginSecs))
                           then map[] else s.running)
          && t.now == s.now + Waited(e.wait) + 1000 + if t.running != s.running then e.restart else 0)
      && (e.Done? ==>
          && t.now == s.now + Waited(e.wait)
                    + (if t.reports != s.reports then ReportTime(e.posts, cfg.GiveUpAfter(), 0, 0) else 0)
                    + (if t.reports != s.reports && t.running == map[] && cfg.recyclePerJob then e.restart else 0)
          && (t.reports == s.reports <==> t.running == s.running))
  {
  }

  // ---------- aborted work ----------

  /** While nothing runs, the backend works on no aborted job. */
  ghost predicate IdleIsClean(s: State) {
    s.exit == Running && s.running == map[] ==> !s.soiled
  }

  lemma {:induction false} ActsLeaveClean(cfg: Config, s: State, acts: seq<Act>)
    requires IdleIsClean(s) && s.exit == Running
    ensures IdleIsClean(OnActs(cfg, s, acts)) && OnActs(cfg, s, acts).exit == Running
  {
    if acts != [] { ActsLeaveClean(cfg, s, acts[..|acts| - 1]); }
  }

  lemma TurnLeavesClean(cfg: Config, s: State, e: Event)
    requires IdleIsClean(s) && Enabled(s, e) && cfg.recyclePerJob
    ensures IdleIsClean(Next(cfg, s, e))
  {
    if e.PollOk? { ActsLeaveClean(cfg, Contacted(s, e.wait), e.acts); }
  }

  lemma {:induction false} RunLeavesClean(cfg: Config, start: nat, es: seq<Event>)
    requires ValidRun(cfg, Initial(start), es) && cfg.recyclePerJob
    ensures IdleIsClean(RunFrom(cfg, Initial(start), es))
  {
    if es != [] {
      RunLeavesClean(cfg, start, es[..|es| - 1]);
      TurnLeavesClean(cfg, RunFrom(cfg, Initial(start), es[..|es| - 1]), es[|es| - 1]);
    }
  }

  lemma LastOneEnds(cfg: Config, s: State, b: Attempt)
    requires !cfg.recyclePerJob && s.exit == Running && s.inbox == [] && s.soiled && s.running == map[b := 0] && Task(b, 0) in s.alive
    ensures var e := Done(0, Some(Message(Task(b, 0), Success)), Answered(0), 0);
      && Enabled(s, e) && Prompt(s, e)
      && Next(cfg, s, e).running == map[] && Next(cfg, s, e).soiled && Next(cfg, s, e).exit == Running
  {
  }

  /** Two jobs; one is cancelled, which only drops its request, and the other ends. */
  lemma AbortedWorkGoesOn(cfg: Config, start: nat, a: Attempt, b: Attempt) returns (es: seq<Event>)
    requires !cfg.recyclePerJob && a != b
    ensures ValidRun(cfg, Initial(start), es) && PromptRun(cfg, Initial(start), es) && !IdleIsClean(RunFrom(cfg, Initial(start), es))
  {
    var t, cancel := Initial(start), Cancel(a, Answered(0), 0);
    BothRun(cfg, Contacted(t, 0), a, b);
    es, t := PromptReply(cfg, Initial(start), [], TwoAssigned(a, b));
    var u := Contacted(t, 0);
    ActsAppend(cfg, u, [], Do(cancel));
    assert [] + [Do(cancel)] == [Do(cancel)];
    OneOfTwoCancelled(cfg, u, a, b);
    es, t := PromptReply(cfg, Initial(start), es, [Do(cancel)]);
    LastOneEnds(cfg, t, b);
    es, t := PromptStep(cfg, Initial(start), es, Done(0, Some(Message(Task(b, 0), Success)), Answered(0), 0));
  }

  lemma OneOfTwoCancelled(cfg: Config, s: State, a: Attempt, b: Attempt)
    requires a != b && s.running == map[b := 0, a := 1] && s.alive == {Task(b, 0), Task(a, 1)}
    ensures var t := OnCommand(cfg, s, Cancel(a, Answered(0), 0));
      t.running == map[b := 0] && Task(b, 0) in t.alive && t.inbox == s.inbox && t.exit == s.exit && t.soiled
  {
    assert b in s.running - {a} && s.running[a] == 1;
    assert Task(a, 1) in s.alive * {Task(a, 1)};
  }

  /** Whenever nothing runs the backend is clean, in every run, exactly when it is recycled per job. */
  lemma {:induction false} CleanExactly(cfg: Config)
    ensures (forall start: nat, es: seq<Event> | ValidRun(cfg, Initial(start), es) && PromptRun(cfg, Initial(start), es) ::
               IdleIsClean(RunFrom(cfg, Initial(start), es)))
       <==> cfg.recyclePerJob
  {
    if cfg.recyclePerJob {
      forall start: nat, es: seq<Event> | ValidRun(cfg, Initial(start), es) && PromptRun(cfg, Initial(start), es)
        ensures IdleIsClean(RunFrom(cfg, Initial(start), es))
      {
        RunLeavesClean(cfg, start, es);
      }
    } else {
      var a, b := Attempt("a", 0), Attempt("b", 0);
      assert "a"[0] != "b"[0];
      var es := AbortedWorkGoesOn(cfg, 0, a, b);
    }
  }
}
