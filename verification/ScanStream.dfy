/** The streaming scan of the service: a trigger write cancels the running stream task, waits for it
    and starts a new one; the task notifies `begin`, one `net` per network, then `end` or `err`.

    Code between two suspension points is one atomic step. A stream task is suspended in its two
    sleeps and inside `wifi.scan`; a trigger handler is suspended while it awaits the old task. */
module ScanStream {
  import opened Text
  import opened WifiScan

  // ---------- frames and tasks ----------

  datatype Frame = Begin | Net(net: Network) | End(n: nat) | Err(msg: string)

  predicate Terminator(f: Frame) { f.End? || f.Err? }

  datatype Ending = Completed | Errored(msg: string) | Aborted

  /** Where a stream task stands. Sending(k) sleeps after its k-th network. */
  datatype Pc = Ready | AfterBegin | Scanning | Sending(sent: nat) | Finished(how: Ending)

  /** What `wifi.scan` does for a stream: it returns a list, or it raises WifiError (a failing or
      timed-out nmcli). Any other exception is the Crash action below. The machine is proved for every
      list; what `scan` really returns is the business of WifiScan. */
  datatype Reply = Found(nets: seq<Network>) | Raised(msg: string)

  /** A stream task: program counter, pending cancel request, what `scan` returned to it, its local
      variable `networks`, and every frame the task has notified. */
  datatype Task = Task(pc: Pc, cancelling: bool, found: Option<seq<Network>>, networks: seq<Network>, block: seq<Frame>)

  const NEW_TASK := Task(Ready, false, None, [], [])

  predicate Live(t: Task) { !t.pc.Finished? }

  const STREAM_LIMIT := 30

  /** One resumption of a stream task; at most one frame is appended to its block. */
  function RunTask(t: Task, reply: Reply): (r: Task)
    requires Live(t)
    ensures t.block <= r.block && |r.block| <= |t.block| + 1 && r.cancelling == t.cancelling
  {
    match t.pc
    case Ready => t.(pc := AfterBegin, block := t.block + [Begin])
    case AfterBegin => t.(pc := Scanning)
    case Scanning =>
      (match reply
       case Raised(msg) => t.(pc := Finished(Errored(msg)), block := t.block + [Err(msg)])
       case Found(nets) => SendNext(t.(found := Some(nets), networks := SortDesc(nets)), 0))
    case Sending(k) => SendNext(t, k)
    case Finished(_) => assert false; t
  }

  /** The loop head of the `for` over the networks: notify the next one, or the end. */
  function SendNext(t: Task, k: nat): Task {
    if k < |t.networks|
    then t.(pc := Sending(k + 1), block := t.block + [Net(t.networks[k])])
    else t.(pc := Finished(Completed), block := t.block + [End(|t.networks|)])
  }

  // ---------- the service ----------

  /** All stream tasks ever created, in order; `_scan_task`; the task each suspended trigger handler
      awaits; and the notifications of the scan characteristic, in order. */
  datatype Service = Service(tasks: seq<Task>, scanTask: Option<nat>, waiting: seq<nat>, log: seq<Frame>)

  const IDLE := Service([], None, [], [])

  /** The atomic steps.
      Trigger: a trigger write arrives. Resume(h): the h-th suspended handler goes on.
      Run(t, reply): task t is resumed. CancelLands(t): a requested cancel takes effect.
      Crash(t): an exception other than WifiError ends task t. */
  datatype Action = Trigger | Resume(h: nat) | Run(t: nat, reply: Reply) | CancelLands(t: nat) | Crash(t: nat)

  predicate LiveAt(s: Service, t: int) { 0 <= t < |s.tasks| && Live(s.tasks[t]) }

  predicate Enabled(s: Service, a: Action) {
    match a
    case Trigger => true
    case Resume(h) => h < |s.waiting| && !LiveAt(s, s.waiting[h])
    case Run(t, _) => LiveAt(s, t)
    case CancelLands(t) => LiveAt(s, t) && s.tasks[t].cancelling
    case Crash(t) => LiveAt(s, t)
  }

  /** One ATT bearer delivers one request at a time (Bluetooth Core Specification, Vol 3, Part F,
      section 3.3.2): no trigger arrives while another trigger's handler is still suspended. */
  predicate SerialEnabled(s: Service, a: Action) {
    Enabled(s, a) && (a.Trigger? ==> s.waiting == [])
  }

  function Start(s: Service): Service {
    s.(tasks := s.tasks + [NEW_TASK], scanTask := Some(|s.tasks|))
  }

  function RequestCancel(s: Service, t: nat): Service {
    if LiveAt(s, t) then s.(tasks := s.tasks[t := s.tasks[t].(cancelling := true)]) else s
  }

  function Abort(s: Service, t: nat): Service
    requires t < |s.tasks|
  {
    s.(tasks := s.tasks[t := s.tasks[t].(pc := Finished(Aborted))])
  }

  function Apply(s: Service, a: Action): Service
    requires Enabled(s, a)
  {
    match a
    case Trigger =>
      if s.scanTask.Some? && LiveAt(s, s.scanTask.value)
      then RequestCancel(s, s.scanTask.value).(waiting := s.waiting + [s.scanTask.value])
      else Start(s)
    case Resume(h) => Start(s.(waiting := s.waiting[..h] + s.waiting[h + 1..]))
    case Run(t, reply) =>
      var task := RunTask(s.tasks[t], reply);
      s.(tasks := s.tasks[t := task], log := s.log + task.block[|s.tasks[t].block|..])
    case CancelLands(t) => Abort(s, t)
    case Crash(t) => Abort(s, t)
  }

  // ---------- runs ----------

  predicate IsRun(s: Service, acts: seq<Action>)
    decreases |acts|
  {
    acts == [] || (Enabled(s, acts[0]) && IsRun(Apply(s, acts[0]), acts[1..]))
  }

  predicate IsSerialRun(s: Service, acts: seq<Action>)
    decreases |acts|
  {
    acts == [] || (SerialEnabled(s, acts[0]) && IsSerialRun(Apply(s, acts[0]), acts[1..]))
  }

  function Exec(s: Service, acts: seq<Action>): Service
    requires IsRun(s, acts)
    decreases |acts|
  {
    if acts == [] then s else Exec(Apply(s, acts[0]), acts[1..])
  }

  // ---------- blocks ----------

  function NetFrames(nets: seq<Network>): (r: seq<Frame>)
    ensures |r| == |nets| && forall i :: 0 <= i < |r| ==> r[i] == Net(nets[i])
  {
    seq(|nets|, i requires 0 <= i < |nets| => Net(nets[i]))
  }

  /** The whole output of a stream that found these networks. */
  function FullBlock(nets: seq<Network>): seq<Frame> {
    [Begin] + NetFrames(nets) + [End(|nets|)]
  }

  /** The blocks of the tasks, run together. */
  function Flatten(tasks: seq<Task>): seq<Frame> {
    if tasks == [] then [] else Flatten(tasks[..|tasks| - 1]) + tasks[|tasks| - 1].block
  }

  /** What a task may have notified, by where it stands. */
  predicate TaskOk(t: Task) {
    match t.pc
    case Ready => t.block == []
    case AfterBegin => t.block == [Begin]
    case Scanning => t.block == [Begin]
    case Sending(k) => 1 <= k <= |t.networks| && t.block == FullBlock(t.networks)[..1 + k]
    case Finished(Completed) => t.block == FullBlock(t.networks)
    case Finished(Errored(msg)) => t.block == [Begin, Err(msg)]
    case Finished(Aborted) => |t.block| <= 1 + |t.networks| && t.block == FullBlock(t.networks)[..|t.block|]
  }

  /** Where a task's networks come from. */
  predicate FoundOk(t: Task) {
    && t.networks == (if t.found.Some? then SortDesc(t.found.value) else [])
    && (t.found.None? ==> !t.pc.Sending? && t.pc != Finished(Completed))
  }

  /** Every task is as it should be, and only the newest may be live. */
  ghost predicate TasksOk(tasks: seq<Task>) {
    && (forall i :: 0 <= i < |tasks| ==> TaskOk(tasks[i]))
    && (forall i :: 0 <= i < |tasks| ==> FoundOk(tasks[i]))
    && (forall i :: 0 <= i < |tasks| - 1 ==> !Live(tasks[i]))
  }

  ghost predicate Inv(s: Service) {
    && TasksOk(s.tasks)
    && s.scanTask == (if s.tasks == [] then None else Some(|s.tasks| - 1))
    && (s.waiting != [] ==> s.tasks != [] && s.waiting == [|s.tasks| - 1])
    && (s.waiting != [] && LiveAt(s, |s.tasks| - 1) ==> s.tasks[|s.tasks| - 1].cancelling)
    && s.log == Flatten(s.tasks)
  }

  lemma FullBlockTake(nets: seq<Network>, k: nat)
    requires k <= |nets|
    ensures FullBlock(nets)[..1] == [Begin]
    ensures FullBlock(nets)[..k + 1] + [if k < |nets| then Net(nets[k]) else End(k)] == FullBlock(nets)[..k + 2]
    ensures FullBlock(nets)[..|nets| + 2] == FullBlock(nets)
  {
  }

  lemma SendNextOk(t: Task, k: nat)
    requires k <= |t.networks| && t.block == FullBlock(t.networks)[..1 + k]
    ensures TaskOk(SendNext(t, k))
  {
    FullBlockTake(t.networks, k);
  }

  lemma RunTaskOk(t: Task, reply: Reply)
    requires Live(t) && TaskOk(t)
    ensures TaskOk(RunTask(t, reply))
  {
    match t.pc
    case Scanning =>
      if reply.Found? {
        var nets := SortDesc(reply.nets);
        FullBlockTake(nets, 0);
        SendNextOk(t.(found := Some(reply.nets), networks := nets), 0);
      }
    case Sending(k) => SendNextOk(t, k);
    case _ =>
  }

  lemma RunTaskFound(t: Task, reply: Reply)
    requires Live(t) && FoundOk(t)
    ensures FoundOk(RunTask(t, reply))
  {
  }

  lemma AbortOk(t: Task)
    requires Live(t) && TaskOk(t) && FoundOk(t)
    ensures TaskOk(t.(pc := Finished(Aborted))) && FoundOk(t.(pc := Finished(Aborted)))
  {
    FullBlockTake(t.networks, 0);
    if !t.pc.Sending? { assert t.block == [] || t.block == [Begin]; }
  }

  lemma FlattenLast(tasks: seq<Task>, t: Task)
    ensures Flatten(tasks + [t]) == Flatten(tasks) + t.block
  {
    assert (tasks + [t])[..|tasks|] == tasks;
  }

  /** Changing the last task appends to the flattened output what the task appends to its block. */
  lemma FlattenGrow(tasks: seq<Task>, t: Task)
    requires tasks != [] && tasks[|tasks| - 1].block <= t.block
    ensures Flatten(tasks[|tasks| - 1 := t]) == Flatten(tasks) + t.block[|tasks[|tasks| - 1].block|..]
  {
    var n := |tasks| - 1;
    assert tasks[n := t] == tasks[..n] + [t];
    FlattenLast(tasks[..n], t);
    assert t.block == tasks[n].block + t.block[|tasks[n].block|..];
  }

  /** The newest task goes on as `task`. */
  function ReplaceLast(s: Service, task: Task): Service
    requires s.tasks != [] && s.tasks[|s.tasks| - 1].block <= task.block
  {
    s.(tasks := s.tasks[|s.tasks| - 1 := task], log := s.log + task.block[|s.tasks[|s.tasks| - 1].block|..])
  }

  lemma TasksOkReplace(tasks: seq<Task>, task: Task)
    requires TasksOk(tasks) && tasks != [] && TaskOk(task) && FoundOk(task)
    ensures TasksOk(tasks[|tasks| - 1 := task])
  {
  }

  lemma TasksOkStart(tasks: seq<Task>)
    requires TasksOk(tasks) && (tasks != [] ==> !Live(tasks[|tasks| - 1]))
    ensures TasksOk(tasks + [NEW_TASK])
  {
    var r := tasks + [NEW_TASK];
    assert forall i :: 0 <= i < |tasks| ==> r[i] == tasks[i];
  }

  lemma ReplaceLastKeepsInv(s: Service, task: Task)
    requires Inv(s) && LiveAt(s, |s.tasks| - 1)
    requires TaskOk(task) && FoundOk(task) && s.tasks[|s.tasks| - 1].block <= task.block
    requires s.tasks[|s.tasks| - 1].cancelling ==> task.cancelling
    ensures Inv(ReplaceLast(s, task))
  {
    FlattenGrow(s.tasks, task);
    TasksOkReplace(s.tasks, task);
  }

  lemma StartKeepsInv(s: Service)
    requires Inv(s) && s.waiting == [] && !LiveAt(s, |s.tasks| - 1)
    ensures Inv(Start(s))
  {
    FlattenLast(s.tasks, NEW_TASK);
    TasksOkStart(s.tasks);
  }

  lemma CancelKeepsInv(s: Service, t: nat)
    requires Inv(s) && s.scanTask == Some(t)
    ensures Inv(RequestCancel(s, t))
    ensures LiveAt(s, t) ==> RequestCancel(s, t).tasks[t].cancelling
  {
    if LiveAt(s, t) {
      var task := s.tasks[t].(cancelling := true);
      ReplaceLastKeepsInv(s, task);
      assert s.log + task.block[|s.tasks[t].block|..] == s.log;
    }
  }

  lemma InvTrigger(s: Service)
    requires Inv(s) && s.waiting == []
    ensures Inv(Apply(s, Trigger))
  {
    if s.scanTask.Some? && LiveAt(s, s.scanTask.value) {
      CancelKeepsInv(s, s.scanTask.value);
    } else {
      StartKeepsInv(s);
    }
  }

  lemma InvResume(s: Service, h: nat)
    requires Inv(s) && Enabled(s, Resume(h))
    ensures Inv(Apply(s, Resume(h)))
  {
    assert s.waiting[..h] + s.waiting[h + 1..] == [];
    StartKeepsInv(s.(waiting := []));
  }

  lemma OnlyLastLive(s: Service, t: nat)
    requires TasksOk(s.tasks) && LiveAt(s, t)
    ensures t == |s.tasks| - 1
  {
  }

  lemma InvRunStep(s: Service, t: nat, reply: Reply)
    requires Inv(s) && LiveAt(s, t)
    ensures Inv(Apply(s, Run(t, reply)))
  {
    OnlyLastLive(s, t);
    var task := RunTask(s.tasks[t], reply);
    RunTaskOk(s.tasks[t], reply);
    RunTaskFound(s.tasks[t], reply);
    ReplaceLastKeepsInv(s, task);
    assert Apply(s, Run(t, reply)) == ReplaceLast(s, task);
  }

  lemma InvAbort(s: Service, t: nat)
    requires Inv(s) && LiveAt(s, t)
    ensures Inv(Abort(s, t))
  {
    OnlyLastLive(s, t);
    AbortOk(s.tasks[t]);
    var task := s.tasks[t].(pc := Finished(Aborted));
    ReplaceLastKeepsInv(s, task);
    assert s.log + task.block[|s.tasks[t].block|..] == s.log;
  }

  lemma InvStep(s: Service, a: Action)
    requires Inv(s) && SerialEnabled(s, a)
    ensures Inv(Apply(s, a))
  {
    match a
    case Trigger => InvTrigger(s);
    case Resume(h) => InvResume(s, h);
    case Run(t, reply) => InvRunStep(s, t, reply);
    case CancelLands(t) => InvAbort(s, t);
    case Crash(t) => InvAbort(s, t);
  }

  lemma {:induction false} InvRun(s: Service, acts: seq<Action>)
    requires Inv(s) && IsSerialRun(s, acts)
    ensures IsRun(s, acts) && Inv(Exec(s, acts))
    decreases |acts|
  {
    if acts != [] {
      InvStep(s, acts[0]);
      InvRun(Apply(s, acts[0]), acts[1..]);
    }
  }

  // ---------- main results ----------

  /** A block a central may see: a prefix of begin, net..., end(n) with n the number of nets, or begin, err. */
  ghost predicate LegalBlock(b: seq<Frame>) {
    || (exists nets: seq<Network> :: b <= [Begin] + NetFrames(nets) + [End(|nets|)])
    || (exists msg :: b == [Begin, Err(msg)])
  }

  /** A block that ends in a terminator. */
  ghost predicate ClosedBlock(b: seq<Frame>) {
    b != [] && Terminator(b[|b| - 1])
  }

  lemma TaskBlockLegal(t: Task)
    requires TaskOk(t)
    ensures LegalBlock(t.block)
    ensures ClosedBlock(t.block) <==> t.pc.Finished? && t.pc.how != Aborted
    ensures forall i :: 0 <= i < |t.block| - 1 ==> !Terminator(t.block[i])
    ensures forall i :: 0 <= i < |t.block| ==> (t.block[i] == Begin <==> i == 0)
  {
    var full := FullBlock(t.networks);
    if !(t.pc.Finished? && t.pc.how.Errored?) {
      assert full == [Begin] + NetFrames(t.networks) + [End(|t.networks|)];
      assert forall i :: 0 < i <= |t.networks| ==> full[i] == Net(t.networks[i - 1]);
      assert t.block <= full;
    }
  }

  /** In every run with serialised triggers, whatever the cancels do: at most the newest stream task
      is live, and the notifications are the tasks' blocks one after the other, each legal; so no
      frame of an old block follows a newer begin. */
  lemma StreamsNeverInterleave(acts: seq<Action>)
    requires IsSerialRun(IDLE, acts)
    ensures IsRun(IDLE, acts)
    ensures var s := Exec(IDLE, acts);
      && s.log == Flatten(s.tasks)
      && (forall i :: 0 <= i < |s.tasks| ==> LegalBlock(s.tasks[i].block))
      && (forall i :: 0 <= i < |s.tasks| - 1 ==> !Live(s.tasks[i]))
  {
    InvRun(IDLE, acts);
    var s := Exec(IDLE, acts);
    forall i | 0 <= i < |s.tasks|
      ensures LegalBlock(s.tasks[i].block)
    {
      TaskBlockLegal(s.tasks[i]);
    }
  }

  /** The past is frozen: a longer run leaves every finished task exactly as it was and only extends
      the newest block. */
  ghost predicate Extends(s: Service, r: Service) {
    && |s.tasks| <= |r.tasks|
    && s.log <= r.log
    && (forall i :: 0 <= i < |s.tasks| && !Live(s.tasks[i]) ==> r.tasks[i] == s.tasks[i])
    && (forall i :: 0 <= i < |s.tasks| ==> s.tasks[i].block <= r.tasks[i].block)
  }

  lemma ExtendsStep(s: Service, a: Action)
    requires Enabled(s, a)
    ensures Extends(s, Apply(s, a))
  {
  }

  lemma {:induction false} OnlyTheNewestBlockGrows(s: Service, acts: seq<Action>)
    requires Inv(s) && IsSerialRun(s, acts)
    ensures IsRun(s, acts) && Extends(s, Exec(s, acts))
    ensures forall i :: 0 <= i < |s.tasks| - 1 ==> Exec(s, acts).tasks[i] == s.tasks[i]
    decreases |acts|
  {
    InvRun(s, acts);
    if acts != [] {
      ExtendsStep(s, acts[0]);
      InvStep(s, acts[0]);
      OnlyTheNewestBlockGrows(Apply(s, acts[0]), acts[1..]);
      var m, r := Apply(s, acts[0]), Exec(s, acts);
      forall i | 0 <= i < |s.tasks|
        ensures s.tasks[i].block <= r.tasks[i].block
        ensures !Live(s.tasks[i]) ==> r.tasks[i] == s.tasks[i]
      {
        assert s.tasks[i].block <= m.tasks[i].block <= r.tasks[i].block;
      }
    }
  }

  // ---------- termination of a stream ----------

  /** Resumptions a live task has left, for the networks it has found or may still find. */
  function Left(t: Task): nat {
    match t.pc
    case Ready => STREAM_LIMIT + 3
    case AfterBegin => STREAM_LIMIT + 2
    case Scanning => STREAM_LIMIT + 1
    case Sending(k) => if k <= |t.networks| then |t.networks| - k + 1 else 0
    case Finished(_) => 0
  }

  /** Every resumption uses one up, so with at most 30 networks a task is finished after at most 33 of
      them and the handler that awaits it goes on; a cancel or a crash only ends it sooner. */
  lemma StreamsAreFinite(t: Task, reply: Reply)
    requires TaskOk(t) && FoundOk(t) && Live(t)
    requires t.found.Some? ==> |t.found.value| <= STREAM_LIMIT
    requires reply.Found? ==> |reply.nets| <= STREAM_LIMIT
    ensures 1 <= Left(t) <= STREAM_LIMIT + 3
    ensures Left(RunTask(t, reply)) < Left(t)
  {
    if t.pc.Scanning? && reply.Found? { SortLength(reply.nets); }
    if t.pc.Sending? { SortLength(t.found.value); }
  }

  /** How often task t is resumed. */
  function RunsOf(acts: seq<Action>, t: nat): nat {
    if acts == [] then 0 else (if acts[0].Run? && acts[0].t == t then 1 else 0) + RunsOf(acts[1..], t)
  }

  /** The scans that streams run return at most 30 networks, as `limit=30` makes them. */
  predicate ScansLimited(acts: seq<Action>) {
    forall i :: 0 <= i < |acts| && acts[i].Run? && acts[i].reply.Found? ==> |acts[i].reply.nets| <= STREAM_LIMIT
  }

  predicate TasksLimited(tasks: seq<Task>) {
    forall i :: 0 <= i < |tasks| && tasks[i].found.Some? ==> |tasks[i].found.value| <= STREAM_LIMIT
  }

  /** Resumptions task t has left, whether it has been created or not. */
  function Budget(s: Service, t: nat): nat {
    if t < |s.tasks| then Left(s.tasks[t]) else STREAM_LIMIT + 3
  }

  lemma LimitedStep(s: Service, a: Action)
    requires Enabled(s, a) && TasksLimited(s.tasks)
    requires a.Run? && a.reply.Found? ==> |a.reply.nets| <= STREAM_LIMIT
    ensures TasksLimited(Apply(s, a).tasks)
  {
  }

  lemma BudgetStep(s: Service, a: Action, t: nat)
    requires Enabled(s, a) && TasksLimited(s.tasks)
    requires a.Run? ==> TaskOk(s.tasks[a.t]) && FoundOk(s.tasks[a.t])
    requires a.Run? && a.reply.Found? ==> |a.reply.nets| <= STREAM_LIMIT
    ensures Budget(Apply(s, a), t) + (if a.Run? && a.t == t then 1 else 0) <= Budget(s, t)
  {
    if a.Run? { StreamsAreFinite(s.tasks[a.t], a.reply); }
  }

  lemma {:induction false} BudgetRun(s: Service, acts: seq<Action>, t: nat)
    requires Inv(s) && IsSerialRun(s, acts) && TasksLimited(s.tasks) && ScansLimited(acts)
    ensures IsRun(s, acts) && RunsOf(acts, t) + Budget(Exec(s, acts), t) <= Budget(s, t)
    decreases |acts|
  {
    if acts != [] {
      assert acts[0].Run? && acts[0].reply.Found? ==> |acts[0].reply.nets| <= STREAM_LIMIT;
      LimitedStep(s, acts[0]);
      BudgetStep(s, acts[0], t);
      InvStep(s, acts[0]);
      assert forall i :: 0 <= i < |acts[1..]| ==> acts[1..][i] == acts[i + 1];
      BudgetRun(Apply(s, acts[0]), acts[1..], t);
    }
  }

  /** In every run with serialised triggers whose scans return at most 30 networks, no stream task is
      resumed more than 33 times, and one that has been resumed so often is over: so the handler that
      awaits it can go on. */
  lemma StreamsEnd(acts: seq<Action>, t: nat)
    requires IsSerialRun(IDLE, acts) && ScansLimited(acts)
    ensures IsRun(IDLE, acts) && RunsOf(acts, t) <= STREAM_LIMIT + 3
    ensures RunsOf(acts, t) == STREAM_LIMIT + 3 ==> !LiveAt(Exec(IDLE, acts), t)
  {
    BudgetRun(IDLE, acts, t);
    InvRun(IDLE, acts);
    var s := Exec(IDLE, acts);
    if LiveAt(s, t) { assert TaskOk(s.tasks[t]); }
  }

  // ---------- every trigger gets its stream ----------

  function Triggers(acts: seq<Action>): nat {
    if acts == [] then 0 else (if acts[0].Trigger? then 1 else 0) + Triggers(acts[1..])
  }

  /** In any run whatever, from any state, each trigger has started a stream of its own or waits to: no
      trigger is ignored, and nothing else starts a stream. */
  lemma {:induction false} EveryTriggerCounts(s: Service, acts: seq<Action>)
    requires IsRun(s, acts)
    ensures var r := Exec(s, acts); |r.tasks| + |r.waiting| == |s.tasks| + |s.waiting| + Triggers(acts)
    decreases |acts|
  {
    if acts != [] { EveryTriggerCounts(Apply(s, acts[0]), acts[1..]); }
  }

  /** What a trigger does at once, in any state of a run with serialised triggers. With a stream running, that
      stream is asked to cancel and awaited; otherwise a new stream stands ready. Nothing is notified. */
  lemma TriggerActs(s: Service)
    requires Inv(s) && s.waiting == []
    ensures var r, n := Apply(s, Trigger), |s.tasks|;
      && r.log == s.log
      && (LiveAt(s, n - 1) ==>
            r.tasks == s.tasks[n - 1 := s.tasks[n - 1].(cancelling := true)] && r.waiting == [n - 1])
      && (!LiveAt(s, n - 1) ==> r.tasks == s.tasks + [NEW_TASK] && r.scanTask == Some(n) && r.waiting == [])
  {
  }

  /** The awaiting handler goes on once the old stream is over and not before, and then a new stream stands
      ready: the cancel may land at once or never. */
  lemma HandlerGoesOnIff(s: Service)
    requires Inv(s) && s.waiting != []
    ensures var n := |s.tasks|;
      && (Enabled(s, Resume(0)) <==> !LiveAt(s, n - 1))
      && (LiveAt(s, n - 1) ==> Enabled(s, CancelLands(n - 1)) && !LiveAt(Apply(s, CancelLands(n - 1)), n - 1))
      && (!LiveAt(s, n - 1) ==> Apply(s, Resume(0)).tasks == s.tasks + [NEW_TASK])
  {
    assert s.waiting == [|s.tasks| - 1];
  }

  // ---------- why the triggers must be serialised ----------

  lemma ConsRun(s: Service, a: Action, rest: seq<Action>)
    requires Enabled(s, a) && IsRun(Apply(s, a), rest)
    ensures IsRun(s, [a] + rest) && Exec(s, [a] + rest) == Exec(Apply(s, a), rest)
  {
    assert ([a] + rest)[1..] == rest;
  }

  predicate NoTrigger(acts: seq<Action>) {
    forall i :: 0 <= i < |acts| ==> !acts[i].Trigger?
  }

  lemma ConsNoTrigger(a: Action, rest: seq<Action>)
    requires !a.Trigger? && NoTrigger(rest)
    ensures NoTrigger([a] + rest)
  {
  }

  /** Let one more trigger in while a handler is suspended on a running stream, and two streams can
      be live at once with their begins side by side: the old task is cancelled, both handlers go on,
      and both new streams begin. */
  lemma OverlapBreaksExclusion(s: Service) returns (acts: seq<Action>)
    requires var n := |s.tasks|;
      s.waiting == [n - 1] && s.scanTask == Some(n - 1) && LiveAt(s, n - 1) && s.tasks[n - 1].cancelling
    ensures NoTrigger(acts) && IsRun(Apply(s, Trigger), acts)
    ensures var r, n := Exec(Apply(s, Trigger), acts), |s.tasks|;
      LiveAt(r, n) && LiveAt(r, n + 1) && r.log == s.log + [Begin] + [Begin]
  {
    var n := |s.tasks|;
    var s1 := s.(waiting := [n - 1, n - 1]);
    assert Apply(s, Trigger) == s1 by {
      assert s.tasks[n - 1 := s.tasks[n - 1].(cancelling := true)] == s.tasks;
    }
    var rest := BothHandlersStart(Apply(s1, CancelLands(n - 1)), n);
    ConsRun(s1, CancelLands(n - 1), rest);
    ConsNoTrigger(CancelLands(n - 1), rest);
    acts := [CancelLands(n - 1)] + rest;
  }

  lemma BothHandlersStart(s: Service, n: nat) returns (acts: seq<Action>)
    requires n == |s.tasks| && n > 0 && !LiveAt(s, n - 1) && s.waiting == [n - 1, n - 1]
    ensures NoTrigger(acts) && IsRun(s, acts) && LiveAt(Exec(s, acts), n) && LiveAt(Exec(s, acts), n + 1)
    ensures Exec(s, acts).log == s.log + [Begin] + [Begin]
  {
    var s3 := s.(tasks := s.tasks + [NEW_TASK], scanTask := Some(n), waiting := [n - 1]);
    var s4 := s.(tasks := s.tasks + [NEW_TASK] + [NEW_TASK], scanTask := Some(n + 1), waiting := []);
    assert Apply(s, Resume(0)) == s3 && Apply(s3, Resume(0)) == s4;
    var rest := BothStreamsBegin(s4, n);
    ConsRun(s3, Resume(0), rest);
    ConsRun(s, Resume(0), [Resume(0)] + rest);
    ConsNoTrigger(Resume(0), rest);
    ConsNoTrigger(Resume(0), [Resume(0)] + rest);
    acts := [Resume(0)] + ([Resume(0)] + rest);
  }

  lemma BothStreamsBegin(s: Service, n: nat) returns (acts: seq<Action>)
    requires |s.tasks| == n + 2 && s.tasks[n] == NEW_TASK && s.tasks[n + 1] == NEW_TASK
    ensures NoTrigger(acts) && IsRun(s, acts) && LiveAt(Exec(s, acts), n) && LiveAt(Exec(s, acts), n + 1)
    ensures Exec(s, acts).log == s.log + [Begin] + [Begin]
  {
    var reply := Raised("");
    var begun := RunTask(NEW_TASK, reply);
    assert begun.block == [Begin] && begun.block[0..] == [Begin];
    var s5 := Apply(s, Run(n, reply));
    assert s5.log == s.log + [Begin] && s5.tasks[n + 1] == NEW_TASK;
    ConsRun(s5, Run(n + 1, reply), []);
    ConsRun(s, Run(n, reply), [Run(n + 1, reply)] + []);
    acts := [Run(n, reply)] + ([Run(n + 1, reply)] + []);
  }

  predicate Exclusive(s: Service) {
    forall i, j :: 0 <= i < |s.tasks| && 0 <= j < |s.tasks| && Live(s.tasks[i]) && Live(s.tasks[j]) ==> i == j
  }

  lemma {:induction false} TriggerFreeIsSerial(s: Service, acts: seq<Action>)
    requires IsRun(s, acts) && NoTrigger(acts)
    ensures IsSerialRun(s, acts)
    decreases |acts|
  {
    if acts != [] {
      assert NoTrigger(acts[1..]);
      TriggerFreeIsSerial(Apply(s, acts[0]), acts[1..]);
    }
  }

  /** The window in which the awaited stream is over and its handler has not resumed: one more trigger
      starts a stream at once, and the handler starts another. */
  lemma LateTriggerBreaksExclusion(s: Service, n: nat) returns (acts: seq<Action>)
    requires n == |s.tasks| && s.waiting == [n - 1] && s.scanTask == Some(n - 1) && !LiveAt(s, n - 1)
    ensures NoTrigger(acts) && IsRun(Apply(s, Trigger), acts)
    ensures var r := Exec(Apply(s, Trigger), acts); LiveAt(r, n) && LiveAt(r, n + 1)
  {
    var s1 := Start(s);
    assert Apply(s, Trigger) == s1;
    ConsRun(s1, Resume(0), []);
    ConsNoTrigger(Resume(0), []);
    acts := [Resume(0)] + [];
  }

  /** The hypothesis is exactly what is needed: in any state of a run with serialised triggers, one more
      trigger keeps at most one stream live on every continuation if and only if no handler is suspended
      when it arrives. */
  lemma ExclusionNeedsSerialTriggers(s: Service)
    requires Inv(s)
    ensures s.waiting == [] <==>
      forall acts :: NoTrigger(acts) && IsRun(Apply(s, Trigger), acts) ==> Exclusive(Exec(Apply(s, Trigger), acts))
  {
    if s.waiting == [] {
      InvStep(s, Trigger);
      forall acts | NoTrigger(acts) && IsRun(Apply(s, Trigger), acts)
        ensures Exclusive(Exec(Apply(s, Trigger), acts))
      {
        TriggerFreeIsSerial(Apply(s, Trigger), acts);
        InvRun(Apply(s, Trigger), acts);
      }
    } else {
      var n := |s.tasks|;
      var acts;
      if LiveAt(s, n - 1) {
        acts := OverlapBreaksExclusion(s);
      } else {
        acts := LateTriggerBreaksExclusion(s, n);
      }
      assert LiveAt(Exec(Apply(s, Trigger), acts), n) && LiveAt(Exec(Apply(s, Trigger), acts), n + 1);
      assert !Exclusive(Exec(Apply(s, Trigger), acts));
    }
  }
}
