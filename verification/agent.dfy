/** The pool agent's poll loop: what one turn of the loop does to the attempts it runs, to its clock on
    scheduler contact, and to what it reports. Times are milliseconds. */
module Agent {
  import opened Options

  datatype Attempt = Attempt(job: string, epoch: nat)
  datatype Outcome = Success | Failed | DeadlineExceeded | Cancelled
  datatype Exit = Running | Dismissed | Orphaned | Signalled

  const SECOND: nat := 1000
  const POLL_TIMEOUT: nat := 30 * SECOND
  const POST_TIMEOUT: nat := 15 * SECOND
  const RETRY_PAUSE: nat := 1 * SECOND
  const POLL_PAUSE: nat := 200
  const STOP_GRACE: nat := 10 * SECOND

  /** The lease parameters of the hello reply, in seconds. */
  datatype Config = Config(leaseSecs: nat, stopMarginSecs: nat, orphanSecs: nat, recyclePerJob: bool) {
    function Lease(): nat { (if leaseSecs > 1 then leaseSecs else 1) * SECOND }
    function Margin(): nat { stopMarginSecs * SECOND }
    function GiveUpAfter(): nat { if Lease() >= Margin() then Lease() - Margin() else 0 }
    function OrphanAfter(): nat { (if orphanSecs > leaseSecs then orphanSecs else leaseSecs) * SECOND }
  }

  // ---------- what the outside decides ----------

  /** One try to post a result: how long it took, and whether the scheduler answered (accepted or dismissed). */
  datatype Post = Post(took: nat, answered: bool)

  function Took(p: Post): nat { if p.took < POST_TIMEOUT then p.took else POST_TIMEOUT }

  function Waited(wait: nat): nat { if wait < POLL_TIMEOUT then wait else POLL_TIMEOUT }

  datatype Command =
    | Assign(attempt: Attempt)
    | Cancel(attempt: Attempt, posts: nat -> Post, restart: nat)
    | Shutdown

  /** A spawned job task: the attempt it works on, and which start of the loop's life it is. */
  datatype Task = Task(attempt: Attempt, start: nat)

  /** What a task sends when its job has ended. The loop reads the attempt and the outcome only. */
  datatype Message = Message(task: Task, outcome: Outcome)

  /** While a reply is dealt with: a command of it, or a job task sending meanwhile. */
  datatype Act = Do(command: Command) | Send(message: Message)

  /** One turn of the loop (or, for `Finish`, a job task sending between two turns). `wait` is how long the
      poll was held when the turn was decided, `sent` the message that ended the wait; `restart` how long the
      backend took to come back. */
  datatype Event =
    | Signal(wait: nat)
    | Done(wait: nat, sent: Option<Message>, posts: nat -> Post, restart: nat)
    | PollDismissed(wait: nat)
    | PollFailed(wait: nat, restart: nat)
    | PollOk(wait: nat, acts: seq<Act>)
    | Finish(message: Message)

  // ---------- the loop's state ----------

  /** A report: the task it takes out of `running`, and the task whose outcome it carries. */
  datatype Report = Report(task: Task, outcome: Outcome, from: Task)

  /** `running` (with the task behind each handle), `inbox` and `lastContact` are the loop's variables; `alive` are the
      spawned tasks that have neither sent nor been aborted, `stopping` those aborted in the last turn, whose
      last step may still send. The rest records what happened: every task started, every report made, what was stopped
      without one, what was cancelled; how long after the last contact its reply was dealt with, and the messages
      consumed since; whether the backend may still work on a job that was aborted. */
  datatype State = State(
    running: map<Attempt, nat>,
    alive: set<Task>,
    stopping: set<Task>,
    inbox: seq<Message>,
    lastContact: nat,
    now: nat,
    exit: Exit,
    starts: nat,
    started: set<Task>,
    reports: seq<Report>,
    dropped: set<Task>,
    cancelled: set<Task>,
    handled: nat,
    consumed: nat,
    soiled: bool)

  function Initial(now: nat): State {
    State(map[], {}, {}, [], now, now, Running, 0, {}, [], {}, {}, 0, 0, false)
  }

  function Silence(s: State): nat { if s.now >= s.lastContact then s.now - s.lastContact else 0 }

  function Tasks(running: map<Attempt, nat>): set<Task> {
    set a | a in running :: Task(a, running[a])
  }

  // ---------- reporting and stopping ----------

  /** How long a report takes: post, and retry after a pause until answered or past the window. */
  function ReportTime(posts: nat -> Post, window: nat, i: nat, elapsed: nat): (t: nat)
    requires elapsed <= window + RETRY_PAUSE
    ensures elapsed <= t <= window + RETRY_PAUSE + POST_TIMEOUT
    decreases window + RETRY_PAUSE - elapsed
  {
    var e := elapsed + Took(posts(i));
    if posts(i).answered || e > window then e else ReportTime(posts, window, i + 1, e + RETRY_PAUSE)
  }

  function Reported(cfg: Config, s: State, r: Report, posts: nat -> Post): State {
    s.(now := s.now + ReportTime(posts, cfg.GiveUpAfter(), 0, 0), reports := s.reports + [r])
  }

  function Aborted(s: State, ts: set<Task>): State {
    s.(alive := s.alive - ts, stopping := s.stopping + s.alive * ts, soiled := s.soiled || s.alive * ts != {})
  }

  /** Stop every job without a report. */
  function Drained(s: State): State {
    Aborted(s, Tasks(s.running)).(running := map[], dropped := s.dropped + Tasks(s.running))
  }

  /** A new backend process works on nothing. */
  function Restarted(s: State, restart: nat): State { s.(now := s.now + restart, soiled := false) }

  /** A task that can still send does. */
  function Sent(s: State, m: Message): State {
    if m.outcome == Cancelled || m.task !in s.alive + s.stopping then s
    else s.(alive := s.alive - {m.task}, stopping := s.stopping - {m.task}, inbox := s.inbox + [m])
  }

  // ---------- a poll reply ----------

  function OnCommand(cfg: Config, s: State, c: Command): (t: State)
    ensures t.now >= s.now && t.lastContact == s.lastContact
  {
    match c
    case Assign(a) =>
      if a in s.running then s
      else
        var t := Task(a, s.starts);
        s.(running := s.running[a := s.starts], alive := s.alive + {t}, started := s.started + {t}, starts := s.starts + 1)
    case Cancel(a, posts, restart) =>
      if a !in s.running then s
      else
        var t := Task(a, s.running[a]);
        var u := Aborted(s, {t}).(running := s.running - {a}, cancelled := s.cancelled + {t});
        var v := Reported(cfg, u, Report(t, Cancelled, t), posts);
        if v.running == map[] then Restarted(v, restart) else v
    case Shutdown => s
  }

  function OnAct(cfg: Config, s: State, a: Act): (t: State)
    ensures t.now >= s.now && t.lastContact == s.lastContact
  {
    match a
    case Do(c) => OnCommand(cfg, s, c)
    case Send(m) => Sent(s, m)
  }

  function OnActs(cfg: Config, s: State, acts: seq<Act>): (t: State)
    ensures t.now >= s.now && t.lastContact == s.lastContact
  {
    if acts == [] then s else OnAct(cfg, OnActs(cfg, s, acts[..|acts| - 1]), acts[|acts| - 1])
  }

  lemma {:induction false} ActsStep(cfg: Config, s: State, acts: seq<Act>, k: nat)
    requires k < |acts|
    ensures OnActs(cfg, s, acts[..k + 1]) == OnAct(cfg, OnActs(cfg, s, acts[..k]), acts[k])
  {
    assert acts[..k + 1][..k] == acts[..k];
  }

  // ---------- one turn ----------

  /** A turn begins: the tasks aborted in the last one are gone. */
  function Began(s: State, wait: nat): State {
    s.(now := s.now + Waited(wait), stopping := {})
  }

  function Received(s: State, sent: Option<Message>): State {
    if sent.Some? then Sent(s, sent.value) else s
  }

  function OnDone(cfg: Config, s: State, posts: nat -> Post, restart: nat): State
    requires s.inbox != []
  {
    var m := s.inbox[0];
    var a := m.task.attempt;
    var t := s.(inbox := s.inbox[1..], consumed := s.consumed + 1);
    if a !in t.running then t
    else
      var u := Reported(cfg, t.(running := t.running - {a}), Report(Task(a, t.running[a]), m.outcome, m.task), posts);
      if cfg.recyclePerJob && u.running == map[] then Restarted(u, restart) else u
  }

  function OnPollFailed(cfg: Config, s: State, restart: nat): State {
    if Silence(s) > cfg.OrphanAfter() then Drained(s).(exit := Orphaned)
    else
      var u := if Silence(s) > cfg.GiveUpAfter() && s.running != map[] then Restarted(Drained(s), restart) else s;
      u.(now := u.now + RETRY_PAUSE)
  }

  function Contacted(s: State, wait: nat): State {
    var t := Began(s, wait);
    t.(lastContact := t.now, handled := 0, consumed := 0)
  }

  /** The end of the turn after a reply: leave, or pause and poll again. */
  function Resumed(s: State, shutdown: bool): State
    requires s.now >= s.lastContact
  {
    var t := if shutdown then Drained(s).(exit := Dismissed) else s.(now := s.now + POLL_PAUSE);
    t.(handled := t.now - t.lastContact)
  }

  predicate HasShutdown(acts: seq<Act>) {
    exists i :: 0 <= i < |acts| && acts[i] == Do(Shutdown)
  }

  function OnPollOk(cfg: Config, s: State, wait: nat, acts: seq<Act>): State {
    Resumed(OnActs(cfg, Contacted(s, wait), acts), HasShutdown(acts))
  }

  /** Which events can come next. */
  predicate Enabled(s: State, e: Event) {
    s.exit == Running && (e.Done? ==> Received(Began(s, e.wait), e.sent).inbox != [])
  }

  function Next(cfg: Config, s: State, e: Event): State
    requires Enabled(s, e)
  {
    match e
    case Signal(wait) => Drained(Began(s, wait)).(exit := Signalled)
    case Done(wait, sent, posts, restart) => OnDone(cfg, Received(Began(s, wait), sent), posts, restart)
    case PollDismissed(wait) => Drained(Began(s, wait)).(exit := Dismissed)
    case PollFailed(wait, restart) => OnPollFailed(cfg, Began(s, wait), restart)
    case PollOk(wait, acts) => OnPollOk(cfg, s, wait, acts)
    case Finish(m) => Sent(s, m)
  }

  // ---------- the code ----------

  class PollLoop {
    const cfg: Config
    var running: map<Attempt, nat>
    var alive: set<Task>
    var stopping: set<Task>
    var inbox: seq<Message>
    var lastContact: nat
    var now: nat
    var exit: Exit
    var starts: nat
    var started: set<Task>
    var reports: seq<Report>
    var dropped: set<Task>
    var cancelled: set<Task>
    var handled: nat
    var consumed: nat
    var soiled: bool

    ghost function Value(): State
      reads this
    {
      State(running, alive, stopping, inbox, lastContact, now, exit, starts, started, reports, dropped, cancelled, handled, consumed, soiled)
    }

    constructor (cfg: Config, now: nat)
      ensures this.cfg == cfg && Value() == Initial(now)
    {
      this.cfg, this.now := cfg, now;
      running, alive, stopping, inbox, lastContact, exit := map[], {}, {}, [], now, Running;
      starts, started, reports, dropped, cancelled, handled, consumed, soiled := 0, {}, [], {}, {}, 0, 0, false;
    }

    /** Deliver an outcome, retrying for as long as the attempt can still own its job. */
    method DeliverReport(r: Report, posts: nat -> Post)
      modifies this
      ensures Value() == Reported(cfg, old(Value()), r, posts)
    {
      var window := cfg.GiveUpAfter();
      var elapsed := 0;
      var i := 0;
      var waiting := true;
      while waiting
        invariant waiting ==> elapsed <= window + RETRY_PAUSE && ReportTime(posts, window, i, elapsed) == ReportTime(posts, window, 0, 0)
        invariant !waiting ==> elapsed == ReportTime(posts, window, 0, 0)
        decreases waiting, window + RETRY_PAUSE - elapsed
      {
        var post := posts(i);
        elapsed := elapsed + Took(post);
        if post.answered || elapsed > window {
          waiting := false;
        } else {
          elapsed := elapsed + RETRY_PAUSE;
          i := i + 1;
        }
      }
      now := now + elapsed;
      reports := reports + [r];
    }

    method Abort(ts: set<Task>)
      modifies this
      ensures Value() == Aborted(old(Value()), ts)
    {
      soiled := soiled || alive * ts != {};
      stopping := stopping + alive * ts;
      alive := alive - ts;
    }

    method Drain()
      modifies this
      ensures Value() == Drained(old(Value()))
    {
      Abort(Tasks(running));
      dropped := dropped + Tasks(running);
      running := map[];
    }

    method Receive(m: Message)
      modifies this
      ensures Value() == Sent(old(Value()), m)
    {
      if m.outcome != Cancelled && m.task in alive + stopping {
        alive, stopping, inbox := alive - {m.task}, stopping - {m.task}, inbox + [m];
      }
    }

    method RestartBackend(restart: nat)
      modifies this
      ensures Value() == Restarted(old(Value()), restart)
    {
      now := now + restart;
      soiled := false;
    }

    method CancelOne(a: Attempt, posts: nat -> Post, restart: nat)
      modifies this
      ensures Value() == OnCommand(cfg, old(Value()), Cancel(a, posts, restart))
    {
      if a !in running {
        return;
      }
      var t := Task(a, running[a]);
      running := running - {a};
      Abort({t});
      cancelled := cancelled + {t};
      DeliverReport(Report(t, Cancelled, t), posts);
      if running == map[] {
        RestartBackend(restart);
      }
    }

    method Handle(c: Command)
      modifies this
      ensures Value() == OnCommand(cfg, old(Value()), c)
    {
      match c {
        case Assign(a) =>
          if a in running {
            return;
          }
          running := running[a := starts];
          alive := alive + {Task(a, starts)};
          started := started + {Task(a, starts)};
          starts := starts + 1;
        case Cancel(a, posts, restart) => CancelOne(a, posts, restart);
        case Shutdown =>
      }
    }

    method HandleAct(a: Act)
      modifies this
      ensures Value() == OnAct(cfg, old(Value()), a)
    {
      match a {
        case Do(c) => Handle(c);
        case Send(m) => Receive(m);
      }
    }

    method HandleAll(acts: seq<Act>) returns (shutdown: bool)
      modifies this
      ensures Value() == OnActs(cfg, old(Value()), acts)
      ensures shutdown == HasShutdown(acts)
    {
      shutdown := false;
      for k := 0 to |acts|
        invariant Value() == OnActs(cfg, old(Value()), acts[..k])
        invariant shutdown <==> exists i :: 0 <= i < k && acts[i] == Do(Shutdown)
      {
        ActsStep(cfg, old(Value()), acts, k);
        HandleAct(acts[k]);
        if acts[k] == Do(Shutdown) {
          shutdown := true;
        }
      }
      assert acts[..|acts|] == acts;
    }

    method Resume(shutdown: bool)
      requires now >= lastContact
      modifies this
      ensures Value() == Resumed(old(Value()), shutdown)
    {
      if shutdown {
        Drain();
        exit := Dismissed;
      } else {
        now := now + POLL_PAUSE;
      }
      handled := now - lastContact;
    }

    method Begin(wait: nat)
      modifies this
      ensures Value() == Began(old(Value()), wait)
    {
      now := now + Waited(wait);
      stopping := {};
    }

    /** A successful poll: renew contact, then obey the commands in order. */
    method Obey(wait: nat, acts: seq<Act>)
      modifies this
      ensures Value() == OnPollOk(cfg, old(Value()), wait, acts)
    {
      Begin(wait);
      lastContact, handled, consumed := now, 0, 0;
      ghost var t := Value();
      assert t == Contacted(old(Value()), wait);
      var shutdown := HandleAll(acts);
      assert Value() == OnActs(cfg, t, acts);
      Resume(shutdown);
    }

    /** The completion branch of the loop. */
    method Consume(posts: nat -> Post, restart: nat)
      requires inbox != []
      modifies this
      ensures Value() == OnDone(cfg, old(Value()), posts, restart)
    {
      var m := inbox[0];
      var a := m.task.attempt;
      inbox := inbox[1..];
      consumed := consumed + 1;
      if a !in running {
        return;
      }
      var t := Task(a, running[a]);
      running := running - {a};
      DeliverReport(Report(t, m.outcome, m.task), posts);
      if cfg.recyclePerJob && running == map[] {
        RestartBackend(restart);
      }
    }

    /** The failed-poll branch of the loop. */
    method Endure(restart: nat)
      modifies this
      ensures Value() == OnPollFailed(cfg, old(Value()), restart)
    {
      var silent := if now >= lastContact then now - lastContact else 0;
      if silent > cfg.OrphanAfter() {
        Drain();
        exit := Orphaned;
        return;
      }
      if silent > cfg.GiveUpAfter() && running != map[] {
        Drain();
        RestartBackend(restart);
      }
      now := now + RETRY_PAUSE;
    }

    /** One turn of the loop, or a job task finishing meanwhile. */
    method Turn(e: Event)
      requires Enabled(Value(), e)
      modifies this
      ensures Value() == Next(cfg, old(Value()), e)
    {
      match e {
        case Signal(wait) => Begin(wait); Drain(); exit := Signalled;
        case Done(wait, sent, posts, restart) =>
          Begin(wait);
          if sent.Some? {
            Receive(sent.value);
          }
          Consume(posts, restart);
        case PollDismissed(wait) => Begin(wait); Drain(); exit := Dismissed;
        case PollFailed(wait, restart) => Begin(wait); Endure(restart);
        case PollOk(wait, acts) => Obey(wait, acts);
        case Finish(m) => Receive(m);
      }
    }
  }

  // ---------- runs ----------

  /** Every event of the run can come where it comes. */
  predicate ValidRun(cfg: Config, s: State, es: seq<Event>)
    decreases |es|, 0
  {
    es == [] || (ValidRun(cfg, s, es[..|es| - 1]) && Enabled(RunFrom(cfg, s, es[..|es| - 1]), es[|es| - 1]))
  }

  function RunFrom(cfg: Config, s: State, es: seq<Event>): State
    requires ValidRun(cfg, s, es)
    decreases |es|, 1
  {
    if es == [] then s else Next(cfg, RunFrom(cfg, s, es[..|es| - 1]), es[|es| - 1])
  }

  lemma {:induction false} RunStep(cfg: Config, s: State, es: seq<Event>, e: Event)
    requires ValidRun(cfg, s, es) && Enabled(RunFrom(cfg, s, es), e)
    ensures ValidRun(cfg, s, es + [e]) && RunFrom(cfg, s, es + [e]) == Next(cfg, RunFrom(cfg, s, es), e)
  {
    assert (es + [e])[..|es|] == es;
  }
}
