/** What the loop does with messages. It waits on the channel and on the poll at once, so a message that is there already is
    read before any poll is answered. */
module AgentPrompt {
  import opened Agent
  import opened AgentBooks

  /** With a message waiting, a turn reads it, or obeys a signal, at once. */
  predicate Prompt(s: State, e: Event) {
    s.inbox == [] || e.Finish? || ((e.Done? || e.Signal?) && e.wait == 0)
  }

  predicate PromptRun(cfg: Config, s: State, es: seq<Event>)
    requires ValidRun(cfg, s, es)
  {
    es == [] || (PromptRun(cfg, s, es[..|es| - 1]) && Prompt(RunFrom(cfg, s, es[..|es| - 1]), es[|es| - 1]))
  }

  // ---------- a dropped start is never reported ----------

  /** The outcomes reported so far come from tasks that neither run nor were dropped. */
  ghost predicate FromsOk(s: State) {
    forall i | 0 <= i < |s.reports| ::
      s.reports[i].from in s.started && s.reports[i].from !in Tasks(s.running) && s.reports[i].from !in s.dropped
  }

  ghost predicate Parted(s: State) {
    && Books(s) && FromsOk(s)
    && (s.running != map[] ==> s.dropped !! s.stopping && s.dropped !! Who(s.inbox))
  }

  /** Within a reply nothing dropped is around any more. */
  ghost predicate Clear(s: State) {
    Books(s) && FromsOk(s) && s.dropped !! s.stopping && s.dropped !! Who(s.inbox)
  }

  lemma FromsAppend(s: State, u: State, r: Report)
    requires FromsOk(s) && u.started == s.started && u.dropped == s.dropped && u.reports == s.reports + [r]
    requires Tasks(u.running) <= Tasks(s.running)
    requires r.from in s.started && r.from !in Tasks(u.running) && r.from !in s.dropped
    ensures FromsOk(u)
  {
  }

  lemma SentStaysClear(s: State, m: Message)
    requires Clear(s)
    ensures Clear(Sent(s, m))
  {
    SentKeeps(s, m);
    WhoAppend(s.inbox, m);
  }

  lemma AssignStaysClear(cfg: Config, s: State, a: Attempt)
    requires Clear(s)
    ensures Clear(OnCommand(cfg, s, Assign(a)))
  {
    AssignKeeps(cfg, s, a);
    if a !in s.running { TasksWith(s.running, a, s.starts); }
  }

  lemma CancelStaysClear(cfg: Config, s: State, a: Attempt, posts: nat -> Post, restart: nat)
    requires Clear(s)
    ensures Clear(OnCommand(cfg, s, Cancel(a, posts, restart)))
  {
    CancelKeeps(cfg, s, a, posts, restart);
    if a in s.running {
      var t := Task(a, s.running[a]);
      TasksWithout(s.running, a);
      FromsAppend(s, OnCommand(cfg, s, Cancel(a, posts, restart)), Report(t, Cancelled, t));
    }
  }

  lemma {:induction false} ActsStayClear(cfg: Config, s: State, acts: seq<Act>)
    requires Clear(s)
    ensures Clear(OnActs(cfg, s, acts))
  {
    if acts != [] {
      var t := OnActs(cfg, s, acts[..|acts| - 1]);
      ActsStayClear(cfg, s, acts[..|acts| - 1]);
      match acts[|acts| - 1]
      case Do(Assign(x)) => AssignStaysClear(cfg, t, x);
      case Do(Cancel(x, posts, restart)) => CancelStaysClear(cfg, t, x, posts, restart);
      case Do(Shutdown) =>
      case Send(m) => SentStaysClear(t, m);
    }
  }

  lemma DrainParts(s: State, t: State)
    requires Books(s) && FromsOk(s) && SameBooks(Drained(s), t)
    ensures Parted(t)
  {
    LeaveKeeps(s, t);
  }

  lemma SentParts(s: State, m: Message)
    requires Parted(s)
    ensures Parted(Sent(s, m))
  {
    SentKeeps(s, m);
    WhoAppend(s.inbox, m);
  }

  lemma DoneParts(cfg: Config, s: State, posts: nat -> Post, restart: nat)
    requires Parted(s) && s.inbox != []
    ensures Parted(OnDone(cfg, s, posts, restart))
  {
    DoneKeeps(cfg, s, posts, restart);
    WhoTail(s.inbox);
    var m := s.inbox[0];
    var a := m.task.attempt;
    if a in s.running {
      TasksWithout(s.running, a);
      FromsAppend(s, OnDone(cfg, s, posts, restart), Report(Task(a, s.running[a]), m.outcome, m.task));
    }
  }

  lemma FailedParts(cfg: Config, s: State, restart: nat)
    requires Parted(s)
    ensures Parted(OnPollFailed(cfg, s, restart))
  {
    FailedKeeps(cfg, s, restart);
    var t := OnPollFailed(cfg, s, restart);
    if !SameBooks(s, t) { DrainParts(s, t); }
  }

  lemma ReplyParts(cfg: Config, s: State, wait: nat, acts: seq<Act>)
    requires Parted(s) && s.inbox == []
    ensures Parted(OnPollOk(cfg, s, wait, acts))
  {
    BeganKeeps(s, wait);
    ActsStayClear(cfg, Contacted(s, wait), acts);
    var u, t := OnActs(cfg, Contacted(s, wait), acts), OnPollOk(cfg, s, wait, acts);
    if HasShutdown(acts) { DrainParts(u, t); } else { SameKeeps(u, t); }
  }

  lemma TurnKeepsParted(cfg: Config, s: State, e: Event)
    requires Parted(s) && Enabled(s, e) && Prompt(s, e)
    ensures Parted(Next(cfg, s, e))
  {
    match e
    case Finish(m) => SentParts(s, m);
    case PollOk(wait, acts) => ReplyParts(cfg, s, wait, acts);
    case Done(wait, sent, posts, restart) =>
      BeganKeeps(s, wait);
      if sent.Some? { SentParts(Began(s, wait), sent.value); }
      DoneParts(cfg, Received(Began(s, wait), sent), posts, restart);
    case PollFailed(wait, restart) =>
      BeganKeeps(s, wait);
      FailedParts(cfg, Began(s, wait), restart);
    case _ =>
      BeganKeeps(s, e.wait);
      DrainParts(Began(s, e.wait), Next(cfg, s, e));
  }

  /** In every run of the loop the outcome of a start that was dropped is never reported, even when its attempt is assigned
      again and whatever its task still sends. */
  lemma {:induction false} DroppedIsNeverReported(cfg: Config, start: nat, es: seq<Event>)
    requires ValidRun(cfg, Initial(start), es) && PromptRun(cfg, Initial(start), es)
    ensures Parted(RunFrom(cfg, Initial(start), es))
  {
    if es == [] {
      BooksAlways(cfg, start, es);
    } else {
      DroppedIsNeverReported(cfg, start, es[..|es| - 1]);
      TurnKeepsParted(cfg, RunFrom(cfg, Initial(start), es[..|es| - 1]), es[|es| - 1]);
    }
  }

  // ---------- every report carries its own task's outcome ----------

  ghost predicate OwnOutcomes(s: State) {
    forall i | 0 <= i < |s.reports| :: s.reports[i].from == s.reports[i].task
  }

  /** Every task at work is one the loop runs; a message is of a task that runs, or of an attempt that does not. */
  ghost predicate Current(s: State) {
    && Books(s) && OwnOutcomes(s) && s.alive <= Tasks(s.running)
    && (forall t | t in s.stopping :: t.attempt !in s.running)
    && forall t | t in Who(s.inbox) :: t.attempt in s.running ==> t in Tasks(s.running)
  }

  lemma SentStaysCurrent(s: State, m: Message)
    requires Current(s)
    ensures Current(Sent(s, m))
  {
    SentKeeps(s, m);
    WhoAppend(s.inbox, m);
  }

  lemma DrainStaysCurrent(s: State, t: State)
    requires Current(s) && SameBooks(Drained(s), t)
    ensures Current(t)
  {
    LeaveKeeps(s, t);
  }

  lemma DoneStaysCurrent(cfg: Config, s: State, posts: nat -> Post, restart: nat)
    requires Current(s) && s.inbox != []
    ensures Current(OnDone(cfg, s, posts, restart))
  {
    DoneKeeps(cfg, s, posts, restart);
    WhoTail(s.inbox);
    var a := s.inbox[0].task.attempt;
    if a in s.running { TasksWithout(s.running, a); }
  }

  lemma FailedStaysCurrent(cfg: Config, s: State, restart: nat)
    requires Current(s)
    ensures Current(OnPollFailed(cfg, s, restart))
  {
    FailedKeeps(cfg, s, restart);
    var t := OnPollFailed(cfg, s, restart);
    if !SameBooks(s, t) { DrainStaysCurrent(s, t); }
  }

  lemma BeganIsCurrent(s: State, wait: nat)
    requires Current(s)
    ensures Current(Began(s, wait)) && Current(Contacted(s, wait))
  {
    BeganKeeps(s, wait);
  }
}
