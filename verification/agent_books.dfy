/** What becomes of everything the agent starts: it runs, is reported once, or is dropped. */
module AgentBooks {
  import opened Options
  import opened Agent

  ghost function Who(ms: seq<Message>): set<Task> {
    set i | 0 <= i < |ms| :: ms[i].task
  }

  ghost function Taken(rs: seq<Report>): set<Task> {
    set i | 0 <= i < |rs| :: rs[i].task
  }

  ghost predicate SentOnce(ms: seq<Message>) {
    forall i, j | 0 <= i < j < |ms| :: ms[i].task != ms[j].task
  }

  ghost predicate ReportedOnce(rs: seq<Report>) {
    forall i, j | 0 <= i < j < |rs| :: rs[i].task != rs[j].task
  }

  lemma WhoAppend(ms: seq<Message>, m: Message)
    ensures Who(ms + [m]) == Who(ms) + {m.task}
    ensures m.task !in Who(ms) && SentOnce(ms) ==> SentOnce(ms + [m])
  {
    forall t ensures t in Who(ms + [m]) <==> t in Who(ms) || t == m.task {
      if t in Who(ms) {
        var i :| 0 <= i < |ms| && ms[i].task == t;
        assert (ms + [m])[i].task == t;
      }
      assert (ms + [m])[|ms|].task == m.task;
    }
    if m.task !in Who(ms) && SentOnce(ms) {
      forall i | 0 <= i < |ms| ensures ms[i].task != m.task { assert ms[i].task in Who(ms); }
    }
  }

  lemma WhoTail(ms: seq<Message>)
    requires ms != []
    ensures Who(ms) == Who(ms[1..]) + {ms[0].task}
    ensures SentOnce(ms) ==> SentOnce(ms[1..]) && ms[0].task !in Who(ms[1..])
  {
    forall t ensures t in Who(ms) <==> t in Who(ms[1..]) || t == ms[0].task {
      if t in Who(ms[1..]) {
        var i :| 0 <= i < |ms[1..]| && ms[1..][i].task == t;
        assert ms[i + 1].task == t;
      }
      if t in Who(ms) {
        var i :| 0 <= i < |ms| && ms[i].task == t;
        assert i > 0 ==> ms[1..][i - 1].task == t;
      }
    }
  }

  lemma TakenAppend(rs: seq<Report>, r: Report)
    ensures Taken(rs + [r]) == Taken(rs) + {r.task}
    ensures r.task !in Taken(rs) && ReportedOnce(rs) ==> ReportedOnce(rs + [r])
  {
    forall t ensures t in Taken(rs + [r]) <==> t in Taken(rs) || t == r.task {
      if t in Taken(rs) {
        var i :| 0 <= i < |rs| && rs[i].task == t;
        assert (rs + [r])[i].task == t;
      }
      assert (rs + [r])[|rs|].task == r.task;
    }
    if r.task !in Taken(rs) && ReportedOnce(rs) {
      forall i | 0 <= i < |rs| ensures rs[i].task != r.task { assert rs[i].task in Taken(rs); }
    }
  }

  lemma TasksWith(running: map<Attempt, nat>, a: Attempt, n: nat)
    requires a !in running
    ensures Tasks(running[a := n]) == Tasks(running) + {Task(a, n)}
  {
    var more := running[a := n];
    forall t ensures t in Tasks(more) <==> t in Tasks(running) || t == Task(a, n) {
      assert t in Tasks(more) <==> t.attempt in more && more[t.attempt] == t.start;
      assert t in Tasks(running) <==> t.attempt in running && running[t.attempt] == t.start;
    }
  }

  lemma TasksWithout(running: map<Attempt, nat>, a: Attempt)
    requires a in running
    ensures Tasks(running) == Tasks(running - {a}) + {Task(a, running[a])} && Task(a, running[a]) !in Tasks(running - {a})
  {
    var less := running - {a};
    forall t ensures t in Tasks(running) <==> t in Tasks(less) || t == Task(a, running[a]) {
      assert t in Tasks(less) <==> t.attempt in less && less[t.attempt] == t.start;
      assert t in Tasks(running) <==> t.attempt in running && running[t.attempt] == t.start;
    }
  }

  // ---------- the books, by start ----------

  /** Starts are numbered, so each names one task. */
  ghost predicate Numbered(s: State) {
    && (forall t | t in s.started :: t.start < s.starts)
    && forall t, u | t in s.started && u in s.started && t.start == u.start :: t == u
  }

  /** Every started task is in exactly one place. */
  ghost predicate Split(s: State) {
    && s.started == Tasks(s.running) + Taken(s.reports) + s.dropped
    && Tasks(s.running) !! Taken(s.reports) && Tasks(s.running) !! s.dropped && Taken(s.reports) !! s.dropped
  }

  /** Reported at most once, and as cancelled exactly when it was cancelled. */
  ghost predicate ReportsOk(s: State) {
    && ReportedOnce(s.reports) && s.cancelled <= Taken(s.reports)
    && forall i | 0 <= i < |s.reports| :: s.reports[i].outcome == Cancelled <==> s.reports[i].task in s.cancelled
  }

  /** Every task sends at most once; one that runs has sent or will; an aborted one has no place to come back to. */
  ghost predicate ChannelOk(s: State) {
    && s.alive <= s.started && s.stopping <= s.started && Who(s.inbox) <= s.started
    && s.alive !! s.stopping && s.alive !! Who(s.inbox) && s.stopping !! Who(s.inbox) && SentOnce(s.inbox)
    && Tasks(s.running) <= s.alive + Who(s.inbox)
    && s.alive !! s.dropped && s.alive !! s.cancelled && s.stopping <= s.dropped + s.cancelled
    && forall i | 0 <= i < |s.inbox| :: s.inbox[i].outcome != Cancelled
  }

  ghost predicate Books(s: State) {
    Numbered(s) && Split(s) && ReportsOk(s) && ChannelOk(s)
  }

  // ---------- every step keeps them ----------

  lemma AssignKeeps(cfg: Config, s: State, a: Attempt)
    requires Books(s)
    ensures Books(OnCommand(cfg, s, Assign(a)))
  {
    if a !in s.running { TasksWith(s.running, a, s.starts); }
  }

  /** A running task is taken out with a report. */
  lemma ReportKeeps(s: State, u: State, r: Report)
    requires Split(s) && ReportsOk(s) && r.task in Tasks(s.running)
    requires u.started == s.started && u.dropped == s.dropped && u.reports == s.reports + [r]
    requires u.running == s.running - {r.task.attempt}
    requires u.cancelled == if r.outcome == Cancelled then s.cancelled + {r.task} else s.cancelled
    ensures Split(u) && ReportsOk(u)
  {
    TasksWithout(s.running, r.task.attempt);
    TakenAppend(s.reports, r);
    forall i | 0 <= i < |u.reports| ensures u.reports[i].outcome == Cancelled <==> u.reports[i].task in u.cancelled {
      if i < |s.reports| {
        assert u.reports[i] == s.reports[i] && s.reports[i].task in Taken(s.reports);
      } else {
        assert r.task !in s.cancelled;
      }
    }
  }

  lemma CancelKeeps(cfg: Config, s: State, a: Attempt, posts: nat -> Post, restart: nat)
    requires Books(s)
    ensures Books(OnCommand(cfg, s, Cancel(a, posts, restart)))
  {
    if a in s.running {
      var t, u := Task(a, s.running[a]), OnCommand(cfg, s, Cancel(a, posts, restart));
      TasksWithout(s.running, a);
      ReportKeeps(s, u, Report(t, Cancelled, t));
    }
  }

  lemma SentKeeps(s: State, m: Message)
    requires Books(s)
    ensures Books(Sent(s, m))
  {
    WhoAppend(s.inbox, m);
  }

  lemma DrainKeeps(s: State)
    requires Books(s)
    ensures Books(Drained(s))
  {
    assert Tasks(Drained(s).running) == {};
  }

  lemma DoneKeeps(cfg: Config, s: State, posts: nat -> Post, restart: nat)
    requires Books(s) && s.inbox != []
    ensures Books(OnDone(cfg, s, posts, restart))
  {
    var m, u := s.inbox[0], OnDone(cfg, s, posts, restart);
    var a := m.task.attempt;
    WhoTail(s.inbox);
    if a in s.running {
      TasksWithout(s.running, a);
      ReportKeeps(s, u, Report(Task(a, s.running[a]), m.outcome, m.task));
    }
  }

  lemma ActKeeps(cfg: Config, s: State, a: Act)
    requires Books(s)
    ensures Books(OnAct(cfg, s, a))
  {
    match a
    case Do(Assign(x)) => AssignKeeps(cfg, s, x);
    case Do(Cancel(x, posts, restart)) => CancelKeeps(cfg, s, x, posts, restart);
    case Do(Shutdown) =>
    case Send(m) => SentKeeps(s, m);
  }

  lemma {:induction false} ActsKeep(cfg: Config, s: State, acts: seq<Act>)
    requires Books(s)
    ensures Books(OnActs(cfg, s, acts))
  {
    if acts != [] {
      ActsKeep(cfg, s, acts[..|acts| - 1]);
      ActKeeps(cfg, OnActs(cfg, s, acts[..|acts| - 1]), acts[|acts| - 1]);
    }
  }

  /** The books do not look at clocks. */
  ghost predicate SameBooks(s: State, t: State) {
    && t.running == s.running && t.alive == s.alive && t.stopping == s.stopping && t.inbox == s.inbox && t.starts == s.starts
    && t.started == s.started && t.reports == s.reports && t.dropped == s.dropped && t.cancelled == s.cancelled
  }

  lemma SameKeeps(s: State, t: State)
    requires Books(s) && SameBooks(s, t)
    ensures Books(t)
  {
  }

  lemma BeganKeeps(s: State, wait: nat)
    requires Books(s)
    ensures Books(Began(s, wait)) && Books(Contacted(s, wait))
  {
    SameKeeps(Began(s, wait), Contacted(s, wait));
  }

  lemma LeaveKeeps(s: State, t: State)
    requires Books(s) && SameBooks(Drained(s), t)
    ensures Books(t)
  {
    DrainKeeps(s);
    SameKeeps(Drained(s), t);
  }

  lemma FailedKeeps(cfg: Config, s: State, restart: nat)
    requires Books(s)
    ensures Books(OnPollFailed(cfg, s, restart))
  {
    var t := OnPollFailed(cfg, s, restart);
    if SameBooks(s, t) { SameKeeps(s, t); } else { LeaveKeeps(s, t); }
  }

  lemma ReplyKeeps(cfg: Config, s: State, wait: nat, acts: seq<Act>)
    requires Books(s)
    ensures Books(OnPollOk(cfg, s, wait, acts))
  {
    BeganKeeps(s, wait);
    ActsKeep(cfg, Contacted(s, wait), acts);
    var u, t := OnActs(cfg, Contacted(s, wait), acts), OnPollOk(cfg, s, wait, acts);
    if HasShutdown(acts) { LeaveKeeps(u, t); } else { SameKeeps(u, t); }
  }

  lemma ReceivedKeeps(s: State, sent: Option<Message>)
    requires Books(s)
    ensures Books(Received(s, sent))
  {
    if sent.Some? { SentKeeps(s, sent.value); }
  }

  lemma TurnKeepsBooks(cfg: Config, s: State, e: Event)
    requires Books(s) && Enabled(s, e)
    ensures Books(Next(cfg, s, e))
  {
    match e
    case Finish(m) => SentKeeps(s, m);
    case PollOk(wait, acts) => ReplyKeeps(cfg, s, wait, acts);
    case Done(wait, sent, posts, restart) =>
      BeganKeeps(s, wait);
      ReceivedKeeps(Began(s, wait), sent);
      DoneKeeps(cfg, Received(Began(s, wait), sent), posts, restart);
    case PollFailed(wait, restart) =>
      BeganKeeps(s, wait);
      FailedKeeps(cfg, Began(s, wait), restart);
    case _ =>
      BeganKeeps(s, e.wait);
      LeaveKeeps(Began(s, e.wait), Next(cfg, s, e));
  }

  /** In every run, at all times, whatever is assigned again: running, reported and dropped partition what was started;
      each start is reported at most once, as cancelled exactly when it was cancelled; a dropped one never. */
  lemma {:induction false} BooksAlways(cfg: Config, start: nat, es: seq<Event>)
    requires ValidRun(cfg, Initial(start), es)
    ensures Books(RunFrom(cfg, Initial(start), es))
  {
    if es != [] {
      BooksAlways(cfg, start, es[..|es| - 1]);
      TurnKeepsBooks(cfg, RunFrom(cfg, Initial(start), es[..|es| - 1]), es[|es| - 1]);
    }
  }

  // ---------- where reports come from ----------

  /** The event is, or brings, this message. */
  ghost predicate Sends(e: Event, m: Message) {
    e == Finish(m) || (e.Done? && e.sent == Some(m)) || (e.PollOk? && Send(m) in e.acts)
  }

  /** The event brings a command to cancel the attempt. */
  ghost predicate Cancels(e: Event, a: Attempt) {
    e.PollOk? && exists c :: Do(c) in e.acts && c.Cancel? && c.attempt == a
  }

  ghost predicate SentIn(es: seq<Event>, m: Message) {
    exists i :: 0 <= i < |es| && Sends(es[i], m)
  }

  ghost predicate CancelledIn(es: seq<Event>, a: Attempt) {
    exists i :: 0 <= i < |es| && Cancels(es[i], a)
  }

  /** A report says what a task of the run sent, or that its attempt was cancelled. */
  ghost predicate SaidSo(es: seq<Event>, r: Report) {
    if r.outcome == Cancelled then CancelledIn(es, r.task.attempt) && r.from == r.task
    else SentIn(es, Message(r.from, r.outcome)) && r.from.attempt == r.task.attempt
  }

  ghost predicate Sourced(es: seq<Event>, s: State) {
    && (forall i | 0 <= i < |s.inbox| :: s.inbox[i].outcome != Cancelled && SentIn(es, s.inbox[i]))
    && forall i | 0 <= i < |s.reports| :: SaidSo(es, s.reports[i])
  }

  lemma SourcedGrows(es: seq<Event>, e: Event, s: State)
    requires Sourced(es, s)
    ensures Sourced(es + [e], s)
  {
    var more := es + [e];
    forall m | SentIn(es, m) ensures SentIn(more, m) {
      var i :| 0 <= i < |es| && Sends(es[i], m);
      assert more[i] == es[i];
    }
    forall a | CancelledIn(es, a) ensures CancelledIn(more, a) {
      var i :| 0 <= i < |es| && Cancels(es[i], a);
      assert more[i] == es[i];
    }
  }

  lemma SentIsSourced(es: seq<Event>, s: State, m: Message)
    requires Sourced(es, s) && SentIn(es, m)
    ensures Sourced(es, Sent(s, m))
  {
  }

  lemma CommandIsSourced(cfg: Config, es: seq<Event>, s: State, c: Command)
    requires Sourced(es, s) && (c.Cancel? ==> CancelledIn(es, c.attempt))
    ensures Sourced(es, OnCommand(cfg, s, c))
  {
  }

  lemma {:induction false} ActsAreSourced(cfg: Config, es: seq<Event>, s: State, e: Event, n: nat)
    requires Sourced(es, s) && es != [] && es[|es| - 1] == e && e.PollOk? && n <= |e.acts|
    ensures Sourced(es, OnActs(cfg, s, e.acts[..n]))
    decreases n
  {
    if n > 0 {
      ActsAreSourced(cfg, es, s, e, n - 1);
      assert e.acts[..n][..n - 1] == e.acts[..n - 1] && e.acts[n - 1] in e.acts;
      var t := OnActs(cfg, s, e.acts[..n - 1]);
      match e.acts[n - 1]
      case Do(c) =>
        if c.Cancel? { assert Cancels(es[|es| - 1], c.attempt); }
        CommandIsSourced(cfg, es, t, c);
      case Send(m) =>
        assert Sends(es[|es| - 1], m);
        SentIsSourced(es, t, m);
    }
  }

  lemma DoneIsSourced(cfg: Config, es: seq<Event>, s: State, posts: nat -> Post, restart: nat)
    requires Sourced(es, s) && s.inbox != []
    ensures Sourced(es, OnDone(cfg, s, posts, restart))
  {
  }

  lemma TurnIsSourced(cfg: Config, es: seq<Event>, s: State, e: Event)
    requires Sourced(es, s) && es != [] && es[|es| - 1] == e && Enabled(s, e)
    ensures Sourced(es, Next(cfg, s, e))
  {
    match e
    case Finish(m) => assert Sends(es[|es| - 1], m); SentIsSourced(es, s, m);
    case Done(wait, sent, posts, restart) =>
      if sent.Some? { assert Sends(es[|es| - 1], sent.value); SentIsSourced(es, Began(s, wait), sent.value); }
      DoneIsSourced(cfg, es, Received(Began(s, wait), sent), posts, restart);
    case PollOk(wait, acts) =>
      ActsAreSourced(cfg, es, Contacted(s, wait), e, |acts|);
      assert acts[..|acts|] == acts;
    case _ =>
  }

  /** In every run, every report says what some task of its attempt sent in it, word for word, or that the attempt was cancelled
      in it. */
  lemma {:induction false} ReportsSaySo(cfg: Config, start: nat, es: seq<Event>)
    requires ValidRun(cfg, Initial(start), es)
    ensures Sourced(es, RunFrom(cfg, Initial(start), es))
  {
    if es != [] {
      var front, e := es[..|es| - 1], es[|es| - 1];
      ReportsSaySo(cfg, start, front);
      SourcedGrows(front, e, RunFrom(cfg, Initial(start), front));
      assert front + [e] == es;
      TurnIsSourced(cfg, es, RunFrom(cfg, Initial(start), front), e);
    }
  }

  // ---------- the books, by attempt ----------

  ghost function Attempts(ts: set<Task>): set<Attempt> {
    set t | t in ts :: t.attempt
  }

  /** The same by attempt: every attempt ever started is in exactly one place, is reported at most once, and as cancelled
      exactly when it was cancelled. */
  ghost predicate AttemptBooks(s: State) {
    && Attempts(s.started) == s.running.Keys + Attempts(Taken(s.reports)) + Attempts(s.dropped)
    && s.running.Keys !! Attempts(Taken(s.reports)) && s.running.Keys !! Attempts(s.dropped)
    && Attempts(Taken(s.reports)) !! Attempts(s.dropped)
    && (forall i, j | 0 <= i < j < |s.reports| :: s.reports[i].task.attempt != s.reports[j].task.attempt)
    && forall i | 0 <= i < |s.reports| :: s.reports[i].outcome == Cancelled <==> s.reports[i].task.attempt in Attempts(s.cancelled)
  }

  ghost predicate OneStartEach(ts: set<Task>) {
    forall t, u | t in ts && u in ts && t.attempt == u.attempt :: t == u
  }

  lemma KeysAreAttempts(running: map<Attempt, nat>)
    ensures running.Keys == Attempts(Tasks(running))
  {
    forall a ensures a in running.Keys <==> a in Attempts(Tasks(running)) {
      if a in running { assert Task(a, running[a]) in Tasks(running); }
    }
  }

  lemma Apart(all: set<Task>, x: set<Task>, y: set<Task>)
    requires OneStartEach(all) && x <= all && y <= all && x !! y
    ensures Attempts(x) !! Attempts(y)
  {
  }

  lemma AttemptsOfThree(x: set<Task>, y: set<Task>, z: set<Task>)
    ensures Attempts(x + y + z) == Attempts(x) + Attempts(y) + Attempts(z)
  {
    forall a ensures a in Attempts(x + y + z) <==> a in Attempts(x) + Attempts(y) + Attempts(z) {
      if a in Attempts(x) { var t :| t in x && t.attempt == a; assert t in x + y + z; }
      if a in Attempts(y) { var t :| t in y && t.attempt == a; assert t in x + y + z; }
      if a in Attempts(z) { var t :| t in z && t.attempt == a; assert t in x + y + z; }
    }
  }

  lemma ReportsByAttempt(s: State)
    requires Books(s) && OneStartEach(s.started)
    ensures forall i, j | 0 <= i < j < |s.reports| :: s.reports[i].task.attempt != s.reports[j].task.attempt
    ensures forall i | 0 <= i < |s.reports| :: s.reports[i].outcome == Cancelled <==> s.reports[i].task.attempt in Attempts(s.cancelled)
  {
    forall i | 0 <= i < |s.reports| ensures s.reports[i].task in s.started { assert s.reports[i].task in Taken(s.reports); }
    forall i | 0 <= i < |s.reports|
      ensures s.reports[i].outcome == Cancelled <==> s.reports[i].task.attempt in Attempts(s.cancelled)
    {
      var t := s.reports[i].task;
      if t.attempt in Attempts(s.cancelled) {
        var u :| u in s.cancelled && u.attempt == t.attempt;
        assert u in Taken(s.reports) && u in s.started;
      }
    }
  }

  lemma AttemptsFollow(s: State)
    requires Books(s) && OneStartEach(s.started)
    ensures AttemptBooks(s)
  {
    var x, y, z := Tasks(s.running), Taken(s.reports), s.dropped;
    KeysAreAttempts(s.running);
    AttemptsOfThree(x, y, z);
    Apart(s.started, x, y);
    Apart(s.started, x, z);
    Apart(s.started, y, z);
    ReportsByAttempt(s);
  }

  /** No attempt is assigned again once it has left `running`. */
  ghost predicate FreshAct(s: State, a: Act) {
    a.Do? && a.command.Assign? ==> a.command.attempt in s.running || a.command.attempt !in Attempts(s.started)
  }

  lemma AssignedAgain(cfg: Config, s: State, a: Attempt)
    requires Books(s) && a !in s.running && a in Attempts(s.started)
    ensures !AttemptBooks(OnCommand(cfg, s, Assign(a)))
  {
    var t :| t in s.started && t.attempt == a;
    assert t !in Tasks(s.running);
    assert t in Taken(s.reports) || t in s.dropped;
    var u := OnCommand(cfg, s, Assign(a));
    assert a in u.running.Keys && (a in Attempts(Taken(u.reports)) || a in Attempts(u.dropped));
  }

  /** After one step the attempts' books hold exactly when it was fresh. */
  lemma FreshExact(cfg: Config, s: State, a: Act)
    requires Books(s) && OneStartEach(s.started)
    ensures AttemptBooks(OnAct(cfg, s, a)) <==> FreshAct(s, a)
    ensures FreshAct(s, a) ==> OneStartEach(OnAct(cfg, s, a).started)
  {
    ActKeeps(cfg, s, a);
    if FreshAct(s, a) {
      FreshKeepsOne(cfg, s, a);
      AttemptsFollow(OnAct(cfg, s, a));
    } else {
      AssignedAgain(cfg, s, a.command.attempt);
    }
  }

  lemma FreshKeepsOne(cfg: Config, s: State, a: Act)
    requires OneStartEach(s.started) && FreshAct(s, a)
    ensures OneStartEach(OnAct(cfg, s, a).started)
  {
    var out := OnAct(cfg, s, a).started;
    if out != s.started {
      var x := a.command.attempt;
      forall t | t in s.started ensures t.attempt != x { assert t.attempt in Attempts(s.started); }
    }
  }

  ghost predicate FreshActs(cfg: Config, s: State, acts: seq<Act>) {
    acts == [] || (FreshActs(cfg, s, acts[..|acts| - 1]) && FreshAct(OnActs(cfg, s, acts[..|acts| - 1]), acts[|acts| - 1]))
  }

  /** At every command boundary of a reply. */
  ghost predicate BooksThroughActs(cfg: Config, s: State, acts: seq<Act>) {
    AttemptBooks(OnActs(cfg, s, acts)) && (acts == [] || BooksThroughActs(cfg, s, acts[..|acts| - 1]))
  }

  lemma {:induction false} FreshActsExact(cfg: Config, s: State, acts: seq<Act>)
    requires Books(s) && OneStartEach(s.started)
    ensures BooksThroughActs(cfg, s, acts) <==> FreshActs(cfg, s, acts)
    ensures FreshActs(cfg, s, acts) ==> OneStartEach(OnActs(cfg, s, acts).started)
  {
    if acts == [] {
      AttemptsFollow(s);
    } else {
      var front := acts[..|acts| - 1];
      FreshActsExact(cfg, s, front);
      if FreshActs(cfg, s, front) {
        ActsKeep(cfg, s, front);
        FreshExact(cfg, OnActs(cfg, s, front), acts[|acts| - 1]);
      }
    }
  }

  ghost predicate FreshEvent(cfg: Config, s: State, e: Event) {
    e.PollOk? ==> FreshActs(cfg, Contacted(s, e.wait), e.acts)
  }

  ghost predicate BooksThroughTurn(cfg: Config, s: State, e: Event)
    requires Enabled(s, e)
  {
    AttemptBooks(Next(cfg, s, e)) && (e.PollOk? ==> BooksThroughActs(cfg, Contacted(s, e.wait), e.acts))
  }

  lemma DoneStartsNothing(cfg: Config, s: State, e: Event)
    requires Enabled(s, e) && !e.PollOk?
    ensures Next(cfg, s, e).started == s.started
  {
  }

  lemma FreshTurnExact(cfg: Config, s: State, e: Event)
    requires Books(s) && OneStartEach(s.started) && Enabled(s, e)
    ensures BooksThroughTurn(cfg, s, e) <==> FreshEvent(cfg, s, e)
    ensures FreshEvent(cfg, s, e) ==> OneStartEach(Next(cfg, s, e).started)
  {
    TurnKeepsBooks(cfg, s, e);
    if e.PollOk? {
      BeganKeeps(s, e.wait);
      FreshActsExact(cfg, Contacted(s, e.wait), e.acts);
      assert Next(cfg, s, e).started == OnActs(cfg, Contacted(s, e.wait), e.acts).started;
    } else {
      DoneStartsNothing(cfg, s, e);
    }
    if OneStartEach(Next(cfg, s, e).started) { AttemptsFollow(Next(cfg, s, e)); }
  }

  ghost predicate FreshRun(cfg: Config, s: State, es: seq<Event>)
    requires ValidRun(cfg, s, es)
  {
    es == [] || (FreshRun(cfg, s, es[..|es| - 1]) && FreshEvent(cfg, RunFrom(cfg, s, es[..|es| - 1]), es[|es| - 1]))
  }

  /** After every turn, and at every command boundary. */
  ghost predicate BooksThrough(cfg: Config, s: State, es: seq<Event>)
    requires ValidRun(cfg, s, es)
  {
    if es == [] then AttemptBooks(s)
    else BooksThrough(cfg, s, es[..|es| - 1]) && BooksThroughTurn(cfg, RunFrom(cfg, s, es[..|es| - 1]), es[|es| - 1])
  }

  /** The books hold by attempt throughout a run exactly when no attempt is assigned again after it left `running`. */
  lemma {:induction false} AttemptBooksExact(cfg: Config, start: nat, es: seq<Event>)
    requires ValidRun(cfg, Initial(start), es)
    ensures BooksThrough(cfg, Initial(start), es) <==> FreshRun(cfg, Initial(start), es)
    ensures FreshRun(cfg, Initial(start), es) ==> OneStartEach(RunFrom(cfg, Initial(start), es).started)
  {
    if es == [] {
      BooksAlways(cfg, start, es);
      AttemptsFollow(Initial(start));
    } else {
      var front := es[..|es| - 1];
      AttemptBooksExact(cfg, start, front);
      if FreshRun(cfg, Initial(start), front) {
        BooksAlways(cfg, start, front);
        FreshTurnExact(cfg, RunFrom(cfg, Initial(start), front), es[|es| - 1]);
      }
    }
  }

  // ---------- dropped for good ----------

  lemma StillDropped(cfg: Config, s: State, e: Event, t: Task)
    requires Enabled(s, e) && t in s.dropped
    ensures t in Next(cfg, s, e).dropped
  {
    if e.PollOk? { ActsKeepDropped(cfg, Contacted(s, e.wait), e.acts); }
  }

  lemma {:induction false} ActsKeepDropped(cfg: Config, s: State, acts: seq<Act>)
    ensures OnActs(cfg, s, acts).dropped == s.dropped
  {
    if acts != [] { ActsKeepDropped(cfg, s, acts[..|acts| - 1]); }
  }

  /** A task that was dropped stays so, and no report ever takes it for its own. */
  lemma {:induction false} DroppedForGood(cfg: Config, start: nat, es: seq<Event>, n: nat, t: Task)
    requires ValidRun(cfg, Initial(start), es) && n <= |es|
    requires ValidRun(cfg, Initial(start), es[..n]) && t in RunFrom(cfg, Initial(start), es[..n]).dropped
    ensures t in RunFrom(cfg, Initial(start), es).dropped && t !in Taken(RunFrom(cfg, Initial(start), es).reports)
    decreases |es|
  {
    BooksAlways(cfg, start, es);
    if n < |es| {
      var front := es[..|es| - 1];
      assert front[..n] == es[..n];
      DroppedForGood(cfg, start, front, n, t);
      StillDropped(cfg, RunFrom(cfg, Initial(start), front), es[|es| - 1], t);
    } else {
      assert es[..n] == es;
    }
  }
}
