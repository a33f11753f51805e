/** Whose outcome a report carries: that of the task it takes out of `running`, unless a reply cancels an attempt that runs and
    assigns it again. */
module AgentMix {
  import opened Options
  import opened Agent
  import opened AgentBooks
  import opened AgentPrompt

  function Commands(acts: seq<Act>): seq<Command> {
    if acts == [] then []
    else Commands(acts[..|acts| - 1]) + if acts[|acts| - 1].Do? then [acts[|acts| - 1].command] else []
  }

  /** The commands, with nothing sent between them. */
  function Plain(cs: seq<Command>): seq<Act> {
    if cs == [] then [] else Plain(cs[..|cs| - 1]) + [Do(cs[|cs| - 1])]
  }

  lemma {:induction false} PlainAppend(cs: seq<Command>, c: Command)
    ensures Plain(cs + [c]) == Plain(cs) + [Do(c)]
  {
    assert (cs + [c])[..|cs|] == cs;
  }

  lemma {:induction false} CommandsAppend(acts: seq<Act>, a: Act)
    ensures Commands(acts + [a]) == Commands(acts) + if a.Do? then [a.command] else []
  {
    assert (acts + [a])[..|acts|] == acts;
  }

  lemma {:induction false} ActsAppend(cfg: Config, s: State, acts: seq<Act>, a: Act)
    ensures OnActs(cfg, s, acts + [a]) == OnAct(cfg, OnActs(cfg, s, acts), a)
  {
    assert (acts + [a])[..|acts|] == acts;
  }

  /** The attempts cancelled while they ran. */
  function Recalled(cfg: Config, s: State, acts: seq<Act>): set<Attempt> {
    if acts == [] then {}
    else
      var front, a := acts[..|acts| - 1], acts[|acts| - 1];
      Recalled(cfg, s, front) +
        if a.Do? && a.command.Cancel? && a.command.attempt in OnActs(cfg, s, front).running then {a.command.attempt} else {}
  }

  lemma {:induction false} RecalledAppend(cfg: Config, s: State, acts: seq<Act>, a: Act)
    ensures Recalled(cfg, s, acts + [a])
         == Recalled(cfg, s, acts) + if a.Do? && a.command.Cancel? && a.command.attempt in OnActs(cfg, s, acts).running then {a.command.attempt} else {}
  {
    assert (acts + [a])[..|acts|] == acts;
  }

  // ---------- what is sent meanwhile does not steer the commands ----------

  lemma SameRunning(cfg: Config, s: State, t: State, c: Command)
    requires s.running == t.running && s.starts == t.starts
    ensures OnCommand(cfg, s, c).running == OnCommand(cfg, t, c).running && OnCommand(cfg, s, c).starts == OnCommand(cfg, t, c).starts
  {
  }

  lemma {:induction false} SendsDoNotSteer(cfg: Config, s: State, acts: seq<Act>)
    ensures var t, u := OnActs(cfg, s, acts), OnActs(cfg, s, Plain(Commands(acts))); t.running == u.running && t.starts == u.starts
    ensures Recalled(cfg, s, acts) == Recalled(cfg, s, Plain(Commands(acts)))
  {
    if acts != [] {
      var front, a := acts[..|acts| - 1], acts[|acts| - 1];
      SendsDoNotSteer(cfg, s, front);
      if a.Do? {
        PlainAppend(Commands(front), a.command);
        ActsAppend(cfg, s, Plain(Commands(front)), a);
        RecalledAppend(cfg, s, Plain(Commands(front)), a);
        SameRunning(cfg, OnActs(cfg, s, front), OnActs(cfg, s, Plain(Commands(front))), a.command);
      } else {
        assert Commands(acts) == Commands(front);
      }
    }
  }

  // ---------- stale messages come of recalled attempts ----------

  /** A message whose attempt runs, but by another start. */
  ghost predicate Stale(s: State, t: Task) {
    t in Who(s.inbox) && t.attempt in s.running && t !in Tasks(s.running)
  }

  /** Amid a reply: everything out of date is of an attempt recalled in it. */
  ghost predicate Traced(s: State, gone: set<Attempt>) {
    && Books(s) && s.alive <= Tasks(s.running)
    && (forall t | t in s.stopping :: t.attempt in gone)
    && forall t | t in Who(s.inbox) :: t in Tasks(s.running) || t.attempt in gone
  }

  lemma AssignTraced(cfg: Config, s: State, a: Attempt, gone: set<Attempt>)
    requires Traced(s, gone)
    ensures Traced(OnCommand(cfg, s, Assign(a)), gone)
  {
    AssignKeeps(cfg, s, a);
    if a !in s.running { TasksWith(s.running, a, s.starts); }
  }

  lemma CancelTraced(cfg: Config, s: State, a: Attempt, posts: nat -> Post, restart: nat, gone: set<Attempt>)
    requires Traced(s, gone)
    ensures Traced(OnCommand(cfg, s, Cancel(a, posts, restart)), if a in s.running then gone + {a} else gone)
  {
    CancelKeeps(cfg, s, a, posts, restart);
    if a in s.running { TasksWithout(s.running, a); }
  }

  lemma SendTraced(s: State, m: Message, gone: set<Attempt>)
    requires Traced(s, gone)
    ensures Traced(Sent(s, m), gone)
  {
    SentKeeps(s, m);
    WhoAppend(s.inbox, m);
  }

  lemma {:induction false} ActsTraced(cfg: Config, s: State, acts: seq<Act>)
    requires Traced(s, {})
    ensures Traced(OnActs(cfg, s, acts), Recalled(cfg, s, acts))
  {
    if acts != [] {
      var front := acts[..|acts| - 1];
      var t, gone := OnActs(cfg, s, front), Recalled(cfg, s, front);
      ActsTraced(cfg, s, front);
      match acts[|acts| - 1]
      case Do(Assign(x)) => AssignTraced(cfg, t, x, gone);
      case Do(Cancel(x, posts, restart)) => CancelTraced(cfg, t, x, posts, restart, gone);
      case Do(Shutdown) =>
      case Send(m) => SendTraced(t, m, gone);
    }
  }

  // ---------- and every recalled attempt can leave one ----------

  lemma {:induction false} PlainSendsNothing(cfg: Config, s: State, cs: seq<Command>)
    ensures OnActs(cfg, s, Plain(cs)).inbox == s.inbox && Commands(Plain(cs)) == cs
  {
    if cs != [] {
      var front, c := cs[..|cs| - 1], cs[|cs| - 1];
      PlainSendsNothing(cfg, s, front);
      ActsAppend(cfg, s, Plain(front), Do(c));
      CommandsAppend(Plain(front), Do(c));
      assert cs == front + [c];
    }
  }

  /** A left-over: it has been sent, and its attempt does not run by this start. */
  ghost predicate LeftOver(s: State, t: Task) {
    Books(s) && t in Who(s.inbox) && t !in Tasks(s.running)
  }

  lemma StaysLeftOver(cfg: Config, s: State, c: Command, t: Task)
    requires LeftOver(s, t)
    ensures LeftOver(OnCommand(cfg, s, c), t)
  {
    ActKeeps(cfg, s, Do(c));
    match c
    case Assign(a) => if a !in s.running { TasksWith(s.running, a, s.starts); }
    case Cancel(a, _, _) => if a in s.running { TasksWithout(s.running, a); }
    case Shutdown =>
  }

  lemma SendThenCancel(cfg: Config, s: State, a: Attempt, posts: nat -> Post, restart: nat)
    requires Books(s) && s.inbox == [] && a in s.running
    ensures var t := Task(a, s.running[a]); LeftOver(OnCommand(cfg, Sent(s, Message(t, Success)), Cancel(a, posts, restart)), t)
  {
    var t := Task(a, s.running[a]);
    assert t in Tasks(s.running) && t in s.alive;
    var u := Sent(s, Message(t, Success));
    SentKeeps(s, Message(t, Success));
    WhoAppend(s.inbox, Message(t, Success));
    CancelKeeps(cfg, u, a, posts, restart);
    TasksWithout(u.running, a);
  }

  /** Let the task of a recalled attempt send just before it is cancelled. */
  lemma {:induction false} Craft(cfg: Config, s: State, cs: seq<Command>, a: Attempt) returns (acts: seq<Act>, t: Task)
    requires Books(s) && s.inbox == [] && a in Recalled(cfg, s, Plain(cs))
    ensures Commands(acts) == cs && t.attempt == a && LeftOver(OnActs(cfg, s, acts), t)
  {
    var front, c := cs[..|cs| - 1], cs[|cs| - 1];
    var u := OnActs(cfg, s, Plain(front));
    assert cs == front + [c];
    PlainAppend(front, c);
    RecalledAppend(cfg, s, Plain(front), Do(c));
    if a in Recalled(cfg, s, Plain(front)) {
      acts, t := Craft(cfg, s, front, a);
      StaysLeftOver(cfg, OnActs(cfg, s, acts), c, t);
    } else {
      t := Task(a, u.running[a]);
      ActsKeep(cfg, s, Plain(front));
      PlainSendsNothing(cfg, s, front);
      SendThenCancel(cfg, u, a, c.posts, c.restart);
      ActsAppend(cfg, s, Plain(front), Send(Message(t, Success)));
      CommandsAppend(Plain(front), Send(Message(t, Success)));
      acts := Plain(front) + [Send(Message(t, Success))];
    }
    ActsAppend(cfg, s, acts, Do(c));
    CommandsAppend(acts, Do(c));
    acts := acts + [Do(c)];
  }

  /** The reply cancels an attempt that runs, and leaves it running. */
  ghost predicate Recalls(cfg: Config, s: State, cs: seq<Command>) {
    exists a :: a in Recalled(cfg, s, Plain(cs)) && a in OnActs(cfg, s, Plain(cs)).running
  }

  ghost predicate LeavesStale(cfg: Config, s: State, acts: seq<Act>) {
    exists t :: Stale(OnActs(cfg, s, acts), t)
  }

  /** A reply to a poll, by what is sent meanwhile, can leave a message that will be taken for another start's exactly when it
      cancels an attempt that runs and leaves it running. */
  lemma MixExact(cfg: Config, s: State, wait: nat, cs: seq<Command>)
    requires Current(s) && s.inbox == []
    ensures (exists acts :: Commands(acts) == cs && LeavesStale(cfg, Contacted(s, wait), acts)) <==> Recalls(cfg, Contacted(s, wait), cs)
  {
    var b := Contacted(s, wait);
    BeganIsCurrent(s, wait);
    if acts :| Commands(acts) == cs && LeavesStale(cfg, b, acts) {
      var t :| Stale(OnActs(cfg, b, acts), t);
      ActsTraced(cfg, b, acts);
      SendsDoNotSteer(cfg, b, acts);
    }
    if Recalls(cfg, b, cs) {
      var a :| a in Recalled(cfg, b, Plain(cs)) && a in OnActs(cfg, b, Plain(cs)).running;
      var acts, t := Craft(cfg, b, cs, a);
      SendsDoNotSteer(cfg, b, acts);
      assert Stale(OnActs(cfg, b, acts), t);
      assert LeavesStale(cfg, b, acts);
    }
  }

  // ---------- whole runs ----------

  /** The reply, if there is one, recalls nothing. */
  ghost predicate Steady(cfg: Config, s: State, e: Event) {
    e.PollOk? ==> !Recalls(cfg, Contacted(s, e.wait), Commands(e.acts))
  }

  ghost predicate SteadyRun(cfg: Config, s: State, es: seq<Event>)
    requires ValidRun(cfg, s, es)
  {
    es == [] || (SteadyRun(cfg, s, es[..|es| - 1]) && Steady(cfg, RunFrom(cfg, s, es[..|es| - 1]), es[|es| - 1]))
  }

  lemma {:induction false} ActsReportOwn(cfg: Config, s: State, acts: seq<Act>)
    requires OwnOutcomes(s)
    ensures OwnOutcomes(OnActs(cfg, s, acts))
  {
    if acts != [] { ActsReportOwn(cfg, s, acts[..|acts| - 1]); }
  }

  lemma {:induction false} ReplyStaysCurrent(cfg: Config, s: State, wait: nat, acts: seq<Act>)
    requires Current(s) && s.inbox == [] && !Recalls(cfg, Contacted(s, wait), Commands(acts))
    ensures Current(OnPollOk(cfg, s, wait, acts))
  {
    var b := Contacted(s, wait);
    var u, t := OnActs(cfg, b, acts), OnPollOk(cfg, s, wait, acts);
    BeganIsCurrent(s, wait);
    ActsTraced(cfg, b, acts);
    ActsReportOwn(cfg, b, acts);
    SendsDoNotSteer(cfg, b, acts);
    NothingRecalled(cfg, b, acts);
    if HasShutdown(acts) { DrainStaysCurrent(u, t); } else { SameKeeps(u, t); }
  }

  lemma {:induction false} NothingRecalled(cfg: Config, b: State, acts: seq<Act>)
    requires !Recalls(cfg, b, Commands(acts))
    ensures forall a | a in Recalled(cfg, b, acts) :: a !in OnActs(cfg, b, acts).running
  {
    SendsDoNotSteer(cfg, b, acts);
  }

  lemma TurnKeepsCurrent(cfg: Config, s: State, e: Event)
    requires Current(s) && Enabled(s, e) && Prompt(s, e) && Steady(cfg, s, e)
    ensures Current(Next(cfg, s, e))
  {
    match e
    case Finish(m) => SentStaysCurrent(s, m);
    case PollOk(wait, acts) => ReplyStaysCurrent(cfg, s, wait, acts);
    case Done(wait, sent, posts, restart) =>
      BeganIsCurrent(s, wait);
      if sent.Some? { SentStaysCurrent(Began(s, wait), sent.value); }
      DoneStaysCurrent(cfg, Received(Began(s, wait), sent), posts, restart);
    case PollFailed(wait, restart) =>
      BeganIsCurrent(s, wait);
      FailedStaysCurrent(cfg, Began(s, wait), restart);
    case _ =>
      BeganIsCurrent(s, e.wait);
      DrainStaysCurrent(Began(s, e.wait), Next(cfg, s, e));
  }

  /** In every run of the loop whose replies recall nothing: every report says what the very task it takes out of `running` sent
      in the run, or that it was cancelled, and every task at work is one the loop runs. */
  lemma {:induction false} OutcomesAreOwn(cfg: Config, start: nat, es: seq<Event>)
    requires ValidRun(cfg, Initial(start), es) && PromptRun(cfg, Initial(start), es) && SteadyRun(cfg, Initial(start), es)
    ensures Current(RunFrom(cfg, Initial(start), es))
    ensures var rs := RunFrom(cfg, Initial(start), es).reports;
      forall i | 0 <= i < |rs| && rs[i].outcome != Cancelled :: SentIn(es, Message(rs[i].task, rs[i].outcome))
  {
    ReportsSaySo(cfg, start, es);
    if es == [] {
      BooksAlways(cfg, start, es);
    } else {
      OutcomesAreOwn(cfg, start, es[..|es| - 1]);
      TurnKeepsCurrent(cfg, RunFrom(cfg, Initial(start), es[..|es| - 1]), es[|es| - 1]);
    }
  }

  // ---------- replies that recall nothing ----------

  function CancelsIn(acts: seq<Act>): set<Attempt> {
    if acts == [] then {}
    else
      var a := acts[|acts| - 1];
      CancelsIn(acts[..|acts| - 1]) + if a.Do? && a.command.Cancel? then {a.command.attempt} else {}
  }

  /** A reply that assigns no attempt it cancelled before, as the engine's replies are. */
  predicate Orderly(acts: seq<Act>) {
    acts == [] ||
      (var front, a := acts[..|acts| - 1], acts[|acts| - 1];
       Orderly(front) && (a.Do? && a.command.Assign? ==> a.command.attempt !in CancelsIn(front)))
  }

  lemma {:induction false} CancelledStayOut(cfg: Config, s: State, acts: seq<Act>)
    requires Orderly(acts)
    ensures Recalled(cfg, s, acts) <= CancelsIn(acts) && forall a | a in Recalled(cfg, s, acts) :: a !in OnActs(cfg, s, acts).running
  {
    if acts != [] { CancelledStayOut(cfg, s, acts[..|acts| - 1]); }
  }

  lemma {:induction false} OrderlyIsSteady(cfg: Config, s: State, wait: nat, acts: seq<Act>)
    requires Orderly(acts)
    ensures Steady(cfg, s, PollOk(wait, acts))
  {
    CancelledStayOut(cfg, Contacted(s, wait), acts);
    SendsDoNotSteer(cfg, Contacted(s, wait), acts);
  }

  // ---------- such a run ----------

  function Answered(took: nat): nat -> Post { _ => Post(took, true) }

  function TwoAssigned(a: Attempt, b: Attempt): seq<Act> { [Do(Assign(b)), Do(Assign(a))] }

  /** While the report of one cancel takes its time the other task sends; then its attempt is cancelled and assigned again. */
  function CancelledAndBack(a: Attempt, b: Attempt, o: Outcome, took: nat): seq<Act> {
    [Do(Cancel(b, Answered(took), 0)), Send(Message(Task(a, 1), o)), Do(Cancel(a, Answered(0), 0)), Do(Assign(a))]
  }

  lemma {:induction false} BothRun(cfg: Config, s: State, a: Attempt, b: Attempt)
    requires a != b && s.running == map[] && s.alive == {} && s.starts == 0
    ensures var t := OnActs(cfg, s, TwoAssigned(a, b));
      && t == s.(running := map[b := 0, a := 1], alive := {Task(b, 0), Task(a, 1)}, started := t.started, starts := 2)
  {
    var acts := TwoAssigned(a, b);
    assert acts[..1] == [Do(Assign(b))] && acts[..1][..0] == [];
    assert OnActs(cfg, s, acts[..0]) == s;
    ActsAppend(cfg, s, [], Do(Assign(b)));
    assert [] + [Do(Assign(b))] == acts[..1];
  }

  lemma OtherCancelled(cfg: Config, s: State, a: Attempt, b: Attempt, took: nat)
    requires a != b && s.running == map[b := 0, a := 1] && s.alive == {Task(b, 0), Task(a, 1)}
    ensures var t := OnCommand(cfg, s, Cancel(b, Answered(took), 0));
      t.running == map[a := 1] && t.alive == {Task(a, 1)} && t.inbox == s.inbox && t.starts == s.starts && t.exit == s.exit
  {
  }

  lemma ThenSent(s: State, t: Task, o: Outcome)
    requires o != Cancelled && s.alive == {t} && s.inbox == []
    ensures var u := Sent(s, Message(t, o)); u.running == s.running && u.inbox == [Message(t, o)] && u.starts == s.starts && u.exit == s.exit
  {
  }

  lemma ThenBack(cfg: Config, s: State, a: Attempt)
    requires s.running == map[a := 1] && s.starts == 2
    ensures var t := OnCommand(cfg, OnCommand(cfg, s, Cancel(a, Answered(0), 0)), Assign(a));
      t.running == map[a := 2] && Task(a, 2) in t.alive && t.inbox == s.inbox && t.exit == s.exit
  {
    assert OnCommand(cfg, s, Cancel(a, Answered(0), 0)).running == map[];
  }

  lemma {:induction false} FourActs(cfg: Config, s: State, a: Act, b: Act, c: Act, d: Act)
    ensures OnActs(cfg, s, [a, b, c, d]) == OnAct(cfg, OnAct(cfg, OnAct(cfg, OnAct(cfg, s, a), b), c), d)
  {
    assert [a, b, c, d] == [a, b, c] + [d] && [a, b, c] == [a, b] + [c] && [a, b] == [a] + [b] && [a] == [] + [a];
    ActsAppend(cfg, s, [], a);
    ActsAppend(cfg, s, [a], b);
    ActsAppend(cfg, s, [a, b], c);
    ActsAppend(cfg, s, [a, b, c], d);
  }

  lemma {:induction false} BackAgain(cfg: Config, s: State, a: Attempt, b: Attempt, o: Outcome, took: nat)
    requires a != b && o != Cancelled && s.running == map[b := 0, a := 1] && s.alive == {Task(b, 0), Task(a, 1)}
    requires s.inbox == [] && s.starts == 2
    ensures var t := OnActs(cfg, s, CancelledAndBack(a, b, o, took));
      t.exit == s.exit && t.running == map[a := 2] && Task(a, 2) in t.alive && t.inbox == [Message(Task(a, 1), o)]
  {
    var m := Message(Task(a, 1), o);
    FourActs(cfg, s, Do(Cancel(b, Answered(took), 0)), Send(m), Do(Cancel(a, Answered(0), 0)), Do(Assign(a)));
    OtherCancelled(cfg, s, a, b, took);
    var u := OnCommand(cfg, s, Cancel(b, Answered(took), 0));
    ThenSent(u, Task(a, 1), o);
    ThenBack(cfg, Sent(u, m), a);
  }

  lemma TakenForNew(cfg: Config, s: State, a: Attempt, o: Outcome)
    requires s.exit == Running && s.running == map[a := 2] && Task(a, 2) in s.alive && s.inbox == [Message(Task(a, 1), o)]
    ensures var t := Next(cfg, s, Done(0, None, Answered(0), 0));
      t.reports == s.reports + [Report(Task(a, 2), o, Task(a, 1))] && Task(a, 2) in t.alive && t.running == map[]
  {
  }

  lemma PromptStep(cfg: Config, s: State, es: seq<Event>, e: Event) returns (out: seq<Event>, t: State)
    requires ValidRun(cfg, s, es) && PromptRun(cfg, s, es) && Enabled(RunFrom(cfg, s, es), e) && Prompt(RunFrom(cfg, s, es), e)
    ensures ValidRun(cfg, s, out) && PromptRun(cfg, s, out) && t == RunFrom(cfg, s, out) == Next(cfg, RunFrom(cfg, s, es), e)
  {
    RunStep(cfg, s, es, e);
    out := es + [e];
    t := RunFrom(cfg, s, out);
    assert out[..|es|] == es;
  }

  lemma PromptReply(cfg: Config, s: State, es: seq<Event>, acts: seq<Act>) returns (out: seq<Event>, t: State)
    requires ValidRun(cfg, s, es) && PromptRun(cfg, s, es) && RunFrom(cfg, s, es).exit == Running && RunFrom(cfg, s, es).inbox == []
    ensures ValidRun(cfg, s, out) && PromptRun(cfg, s, out) && t == RunFrom(cfg, s, out)
    ensures !HasShutdown(acts) ==>
      var u := OnActs(cfg, Contacted(RunFrom(cfg, s, es), 0), acts);
      t == u.(now := t.now, handled := t.handled)
  {
    out, t := PromptStep(cfg, s, es, PollOk(0, acts));
  }

  /** In every config some run of the loop, with one reply that cancels an attempt and assigns it again, reports the outcome of
      the first start for the second, which stays at work without the loop knowing it. */
  lemma RecallMixesOutcomes(cfg: Config, start: nat, a: Attempt, b: Attempt, o: Outcome, took: nat) returns (es: seq<Event>)
    requires a != b && o != Cancelled
    ensures ValidRun(cfg, Initial(start), es) && PromptRun(cfg, Initial(start), es)
    ensures var s := RunFrom(cfg, Initial(start), es);
      Report(Task(a, 2), o, Task(a, 1)) in s.reports && Task(a, 2) in s.alive && a !in s.running
  {
    var t;
    BothRun(cfg, Contacted(Initial(start), 0), a, b);
    es, t := PromptReply(cfg, Initial(start), [], TwoAssigned(a, b));
    BackAgain(cfg, Contacted(t, 0), a, b, o, took);
    es, t := PromptReply(cfg, Initial(start), es, CancelledAndBack(a, b, o, took));
    TakenForNew(cfg, t, a, o);
    es, t := PromptStep(cfg, Initial(start), es, Done(0, None, Answered(0), 0));
  }
}
