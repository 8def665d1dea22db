/** The streaming scan on a clock. Time passes between steps, but not beyond what is due: a task is resumed
    at most `slack` after its sleep or its scan is over, a scan takes at most `scanMs`, a frame leaves the
    channel at most `lag` after it was sent; and a listener's timer fires no sooner than 20 s after it was
    armed. So it follows from the delays, and need not be supposed, that a listener does not time out. */
module ScanClock {
  import opened WifiScan
  import opened ScanStream
  import opened ScanClient
  import opened ScanSystem
  import ScanService

  datatype Pace = Pace(slack: nat, scanMs: nat, lag: nat)

  /** `due`: when the live task is to be resumed at the latest. Times by task started, frame sent and
      listener attached. */
  datatype Clocked = Clocked(sys: System, now: nat, due: nat, started: seq<nat>, sentAt: seq<nat>, since: seq<nat>)

  const START := Clocked(INIT, 0, 0, [], [], [])

  datatype Beat = Tick(ms: nat) | Act(m: Move)

  /** How long a task stays where it is, at most. */
  function Stay(p: Pace, pc: Pc): nat {
    match pc
    case Ready => p.slack
    case Scanning => p.scanMs + p.slack
    case Finished(_) => 0
    case _ => ScanService.NOTIFY_INTERVAL_MS + p.slack
  }

  predicate Aligned(c: Clocked) {
    |c.started| == |c.sys.svc.tasks| && |c.sentAt| == |c.sys.svc.log| && |c.since| == |c.sys.clients|
  }

  predicate Running(s: Service) { LiveAt(s, |s.tasks| - 1) }

  /** Nothing that is due lies before t. */
  predicate NothingDue(p: Pace, c: Clocked, t: nat)
    requires Aligned(c)
  {
    && (Running(c.sys.svc) ==> t <= c.due)
    && (c.sys.delivered < |c.sys.svc.log| ==> t <= c.sentAt[c.sys.delivered] + p.lag)
  }

  predicate MayBeat(p: Pace, c: Clocked, b: Beat) {
    && Aligned(c)
    && match b
       case Tick(ms) => NothingDue(p, c, c.now + ms)
       case Act(m) =>
         && Can(c.sys, m)
         && (m.Serve? && m.a.Run? && m.a.reply.Found? ==> |m.a.reply.nets| <= STREAM_LIMIT)
         && (m.Local? && m.e.TimerFired? ==> c.now >= c.since[m.i] + ScanService.CLIENT_TIMEOUT_MS)
  }

  function Grown(times: seq<nat>, before: nat, after: nat, now: nat): seq<nat> {
    if after > before then times + [now] else times
  }

  function NextDue(p: Pace, c: Clocked, m: Move): nat
    requires Can(c.sys, m)
  {
    var tasks := Do(c.sys, m).svc.tasks;
    if m.Serve? && tasks != [] && (m.a.Run? || |tasks| > |c.sys.svc.tasks|)
    then c.now + Stay(p, tasks[|tasks| - 1].pc)
    else c.due
  }

  function OnBeat(p: Pace, c: Clocked, b: Beat): Clocked
    requires MayBeat(p, c, b)
  {
    match b
    case Tick(ms) => c.(now := c.now + ms)
    case Act(m) =>
      var r := Do(c.sys, m);
      Clocked(r, c.now, NextDue(p, c, m),
              Grown(c.started, |c.sys.svc.tasks|, |r.svc.tasks|, c.now),
              Grown(c.sentAt, |c.sys.svc.log|, |r.svc.log|, c.now),
              Grown(c.since, |c.sys.clients|, |r.clients|, c.now))
  }

  predicate IsPlay(p: Pace, c: Clocked, beats: seq<Beat>)
    decreases |beats|
  {
    beats == [] || (MayBeat(p, c, beats[0]) && IsPlay(p, OnBeat(p, c, beats[0]), beats[1..]))
  }

  function Played(p: Pace, c: Clocked, beats: seq<Beat>): Clocked
    requires IsPlay(p, c, beats)
    decreases |beats|
  {
    if beats == [] then c else Played(p, OnBeat(p, c, beats[0]), beats[1..])
  }

  // ---------- how long a stream can take ----------

  function Many(n: nat, w: nat): nat { if n == 0 then 0 else w + Many(n - 1, w) }

  lemma {:induction false} ManyGrows(m: nat, n: nat, w: nat)
    requires m <= n
    ensures Many(m, w) <= Many(n, w)
  {
    if m < n { ManyGrows(m, n - 1, w); }
  }

  function PerNet(p: Pace): nat { ScanService.NOTIFY_INTERVAL_MS + p.slack }

  /** What may pass between the next resumption of a task and its end. */
  function Rest(p: Pace, t: Task): nat {
    match t.pc
    case Ready => PerNet(p) + (p.scanMs + p.slack) + Many(STREAM_LIMIT, PerNet(p))
    case AfterBegin => (p.scanMs + p.slack) + Many(STREAM_LIMIT, PerNet(p))
    case Scanning => Many(STREAM_LIMIT, PerNet(p))
    case Sending(k) => if k <= |t.networks| then Many(|t.networks| - k, PerNet(p)) else 0
    case Finished(_) => 0
  }

  /** What may pass between the start of a stream and its end. */
  function Total(p: Pace): nat { p.slack + Rest(p, NEW_TASK) }

  lemma RestShrinks(p: Pace, t: Task, reply: Reply)
    requires Live(t) && TaskOk(t) && FoundOk(t)
    requires reply.Found? ==> |reply.nets| <= STREAM_LIMIT
    ensures var u := RunTask(t, reply); Stay(p, u.pc) + Rest(p, u) <= Rest(p, t)
  {
    if t.pc.Scanning? && reply.Found? {
      SortLength(reply.nets);
      ManyGrows(|reply.nets|, STREAM_LIMIT, PerNet(p));
    }
  }

  lemma {:induction false} ManyIs(n: nat, w: nat)
    ensures Many(n, w) == n * w
  {
    if n > 0 { ManyIs(n - 1, w); }
  }

  /** 31 sleeps of 50 ms, the scan, and at most 33 late resumptions. */
  lemma TotalIs(p: Pace)
    ensures Total(p) == 1550 + p.scanMs + 33 * p.slack
  {
    ManyIs(STREAM_LIMIT, PerNet(p));
  }

  // ---------- what every play keeps ----------

  /** Every frame up to the end of a block was sent within `total` of that stream's start. */
  predicate SentInTime(tasks: seq<Task>, started: seq<nat>, sentAt: seq<nat>, total: nat) {
    && |started| == |tasks|
    && forall i, k {:trigger started[i], sentAt[k]} ::
         0 <= i < |tasks| && 0 <= k < |sentAt| && k < StartOf(tasks, i + 1) ==> sentAt[k] <= started[i] + total
  }

  /** A running stream will be over in time. */
  predicate DueInTime(p: Pace, s: Service, due: nat, started: seq<nat>) {
    && |started| == |s.tasks|
    && (Running(s) ==> due + Rest(p, s.tasks[|s.tasks| - 1]) <= started[|s.tasks| - 1] + Total(p))
  }

  ghost predicate OnTime(p: Pace, c: Clocked) {
    && Aligned(c) && TasksLimited(c.sys.svc.tasks)
    && DueInTime(p, c.sys.svc, c.due, c.started)
    && SentInTime(c.sys.svc.tasks, c.started, c.sentAt, Total(p))
  }

  predicate Chronicle(c: Clocked) {
    forall a, b :: 0 <= a <= b < |c.sentAt| ==> c.sentAt[a] <= c.sentAt[b] <= c.now
  }

  /** A listener that timed out did so after its 20 s, before any terminator, and before everything that
      was delivered later. */
  ghost predicate TimedLate(lag: nat, log: seq<Frame>, sentAt: seq<nat>, now: nat, since: nat, cl: Client) {
    cl.l.done == Rejected(TimedOut) ==>
      && now >= since + ScanService.CLIENT_TIMEOUT_MS
      && cl.from + cl.span <= |log| && NoTerminator(log[cl.from..cl.from + cl.span])
      && forall k :: cl.from + cl.span <= k < |sentAt| ==> sentAt[k] + lag >= since + ScanService.CLIENT_TIMEOUT_MS
  }

  ghost predicate TimedRight(p: Pace, c: Clocked, j: nat)
    requires Aligned(c) && j < |c.since|
  {
    TimedLate(p.lag, c.sys.svc.log, c.sentAt, c.now, c.since[j], c.sys.clients[j])
  }

  ghost predicate ClockInv(p: Pace, c: Clocked) {
    && Reached(c.sys) && OnTime(p, c) && NothingDue(p, c, c.now) && Chronicle(c)
    && forall j :: 0 <= j < |c.since| ==> TimedRight(p, c, j)
  }

  // ---------- one beat ----------

  lemma AtMostOneMore(s: Service, a: Action)
    requires Enabled(s, a)
    ensures var r := Apply(s, a);
      && |s.tasks| <= |r.tasks| <= |s.tasks| + 1 && |s.log| <= |r.log| <= |s.log| + 1 && s.log <= r.log
      && (|r.tasks| > |s.tasks| ==> r.log == s.log && r.tasks == s.tasks + [NEW_TASK])
  {
  }

  lemma StaysAligned(p: Pace, c: Clocked, b: Beat)
    requires MayBeat(p, c, b)
    ensures Aligned(OnBeat(p, c, b))
  {
    if b.Act? && b.m.Serve? { AtMostOneMore(c.sys.svc, b.m.a); }
  }

  lemma StaysChronicle(p: Pace, c: Clocked, b: Beat)
    requires MayBeat(p, c, b) && Chronicle(c)
    ensures Chronicle(OnBeat(p, c, b))
  {
  }

  lemma SameStarts(tasks: seq<Task>, u: Task, i: nat)
    requires i < |tasks|
    ensures StartOf(tasks[|tasks| - 1 := u], i) == StartOf(tasks, i)
  {
    assert tasks[|tasks| - 1 := u][..i] == tasks[..i];
  }

  lemma WholeLog(tasks: seq<Task>)
    ensures StartOf(tasks, |tasks|) == |Flatten(tasks)|
  {
    assert tasks[..|tasks|] == tasks;
  }

  /** The newest task goes on, and may send a frame before its time is up. */
  lemma RunSent(tasks: seq<Task>, u: Task, started: seq<nat>, sentAt: seq<nat>, sentAt': seq<nat>, now: nat, total: nat)
    requires SentInTime(tasks, started, sentAt, total) && tasks != [] && |sentAt| == |Flatten(tasks)|
    requires sentAt' == sentAt || sentAt' == sentAt + [now]
    requires now <= started[|tasks| - 1] + total
    ensures SentInTime(tasks[|tasks| - 1 := u], started, sentAt', total)
  {
    var n := |tasks| - 1;
    WholeLog(tasks);
    forall i, k | 0 <= i < |tasks| && 0 <= k < |sentAt'| && k < StartOf(tasks[n := u], i + 1)
      ensures sentAt'[k] <= started[i] + total
    {
      if i < n {
        SameStarts(tasks, u, i + 1);
        StartsGrow(tasks, i + 1, |tasks|);
      }
      if k < |sentAt| { assert sentAt[k] <= started[i] + total; }
    }
  }

  /** A new stream starts when all that was ever sent lies behind. */
  lemma StartSent(tasks: seq<Task>, started: seq<nat>, sentAt: seq<nat>, now: nat, total: nat)
    requires SentInTime(tasks, started, sentAt, total) && forall k :: 0 <= k < |sentAt| ==> sentAt[k] <= now
    ensures SentInTime(tasks + [NEW_TASK], started + [now], sentAt, total)
  {
    forall i, k | 0 <= i <= |tasks| && 0 <= k < |sentAt| && k < StartOf(tasks + [NEW_TASK], i + 1)
      ensures sentAt[k] <= (started + [now])[i] + total
    {
      if i < |tasks| {
        assert (tasks + [NEW_TASK])[..i + 1] == tasks[..i + 1];
        assert sentAt[k] <= started[i] + total;
      }
    }
  }

  /** Nothing is sent. */
  lemma StillSent(tasks: seq<Task>, tasks': seq<Task>, started: seq<nat>, sentAt: seq<nat>, total: nat)
    requires SentInTime(tasks, started, sentAt, total) && |tasks'| == |tasks|
    requires forall i :: 0 <= i < |tasks| ==> tasks'[i].block == tasks[i].block
    ensures SentInTime(tasks', started, sentAt, total)
  {
    forall i, k | 0 <= i < |tasks| && 0 <= k < |sentAt| && k < StartOf(tasks', i + 1)
      ensures sentAt[k] <= started[i] + total
    {
      SameFlatten(tasks[..i + 1], tasks'[..i + 1]);
      assert sentAt[k] <= started[i] + total;
    }
  }

  lemma RunDue(p: Pace, s: Service, reply: Reply, now: nat, due: nat, started: seq<nat>)
    requires DueInTime(p, s, due, started) && Running(s) && now <= due
    requires var t := s.tasks[|s.tasks| - 1]; TaskOk(t) && FoundOk(t)
    requires reply.Found? ==> |reply.nets| <= STREAM_LIMIT
    ensures var n := |s.tasks| - 1;
      var u := RunTask(s.tasks[n], reply);
      now <= started[n] + Total(p) && DueInTime(p, Apply(s, Run(n, reply)), now + Stay(p, u.pc), started)
  {
    var n := |s.tasks| - 1;
    RestShrinks(p, s.tasks[n], reply);
    assert Apply(s, Run(n, reply)).tasks == s.tasks[n := RunTask(s.tasks[n], reply)];
  }

  /** The live task is resumed, at a time when nothing is overdue. */
  lemma RunOnTime(p: Pace, c: Clocked, t: nat, reply: Reply)
    requires MayBeat(p, c, Act(Serve(Run(t, reply)))) && ClockInv(p, c)
    ensures OnTime(p, OnBeat(p, c, Act(Serve(Run(t, reply)))))
  {
    var s := c.sys.svc;
    var u := RunTask(s.tasks[t], reply);
    StaysAligned(p, c, Act(Serve(Run(t, reply))));
    ReachedInv(c.sys);
    OnlyLastLive(s, t);
    LimitedStep(s, Run(t, reply));
    RunDue(p, s, reply, c.now, c.due, c.started);
    RunSent(s.tasks, u, c.started, c.sentAt, OnBeat(p, c, Act(Serve(Run(t, reply)))).sentAt, c.now, Total(p));
  }

  lemma StartOnTime(p: Pace, c: Clocked, a: Action)
    requires MayBeat(p, c, Act(Serve(a))) && ClockInv(p, c)
    requires |Apply(c.sys.svc, a).tasks| > |c.sys.svc.tasks|
    ensures OnTime(p, OnBeat(p, c, Act(Serve(a))))
  {
    StaysAligned(p, c, Act(Serve(a)));
    AtMostOneMore(c.sys.svc, a);
    StartSent(c.sys.svc.tasks, c.started, c.sentAt, c.now, Total(p));
  }

  /** Cancels, crashes and triggers that wait change neither blocks nor times. */
  lemma WaitOnTime(p: Pace, c: Clocked, a: Action)
    requires MayBeat(p, c, Act(Serve(a))) && ClockInv(p, c)
    requires !a.Run? && |Apply(c.sys.svc, a).tasks| == |c.sys.svc.tasks|
    ensures OnTime(p, OnBeat(p, c, Act(Serve(a))))
  {
    var s, r := c.sys.svc, Apply(c.sys.svc, a);
    StaysAligned(p, c, Act(Serve(a)));
    SameBlocks(s, a);
    SameRest(p, s, r, c.due, c.started);
    StillSent(s.tasks, r.tasks, c.started, c.sentAt, Total(p));
  }

  lemma SameRest(p: Pace, s: Service, r: Service, due: nat, started: seq<nat>)
    requires DueInTime(p, s, due, started) && |r.tasks| == |s.tasks|
    requires forall i :: 0 <= i < |s.tasks| && Live(r.tasks[i]) ==>
      r.tasks[i].pc == s.tasks[i].pc && r.tasks[i].networks == s.tasks[i].networks
    ensures DueInTime(p, r, due, started)
  {
  }

  lemma SameBlocks(s: Service, a: Action)
    requires Enabled(s, a) && !a.Run? && |Apply(s, a).tasks| == |s.tasks|
    ensures var r := Apply(s, a);
      && r.log == s.log
      && forall i :: 0 <= i < |s.tasks| ==>
           && r.tasks[i].block == s.tasks[i].block && r.tasks[i].found == s.tasks[i].found
           && (Live(r.tasks[i]) ==> r.tasks[i].pc == s.tasks[i].pc && r.tasks[i].networks == s.tasks[i].networks)
  {
  }

  lemma {:induction false} SameFlatten(a: seq<Task>, b: seq<Task>)
    requires |a| == |b| && forall i :: 0 <= i < |a| ==> a[i].block == b[i].block
    ensures Flatten(a) == Flatten(b)
  {
    if a != [] { SameFlatten(a[..|a| - 1], b[..|b| - 1]); }
  }

  lemma ActOnTime(p: Pace, c: Clocked, m: Move)
    requires MayBeat(p, c, Act(m)) && ClockInv(p, c)
    ensures OnTime(p, OnBeat(p, c, Act(m)))
  {
    if m.Serve? {
      AtMostOneMore(c.sys.svc, m.a);
      if m.a.Run? {
        RunOnTime(p, c, m.a.t, m.a.reply);
      } else if |Apply(c.sys.svc, m.a).tasks| > |c.sys.svc.tasks| {
        StartOnTime(p, c, m.a);
      } else {
        WaitOnTime(p, c, m.a);
      }
    }
  }

  lemma NotOverdue(p: Pace, c: Clocked, m: Move)
    requires MayBeat(p, c, Act(m)) && ClockInv(p, c)
    ensures var r := OnBeat(p, c, Act(m)); Aligned(r) && NothingDue(p, r, r.now)
  {
    StaysAligned(p, c, Act(m));
    StaysChronicle(p, c, Act(m));
    if m.Serve? {
      AtMostOneMore(c.sys.svc, m.a);
      ReachedInv(c.sys);
      if m.a.Run? { OnlyLastLive(c.sys.svc, m.a.t); }
      else if |Apply(c.sys.svc, m.a).tasks| == |c.sys.svc.tasks| { SameBlocks(c.sys.svc, m.a); }
    }
  }

  lemma TimerKept(p: Pace, c: Clocked, m: Move, j: nat)
    requires MayBeat(p, c, Act(m)) && ClockInv(p, c) && j < |c.since|
    ensures var r := OnBeat(p, c, Act(m)); Aligned(r) && TimedRight(p, r, j)
  {
    StaysAligned(p, c, Act(m));
    ClientTracks(c.sys, j);
    assert TimedRight(p, c, j);
    match m
    case Serve(a) => TimerServed(p, c, a, j);
    case Local(i, e) => TimerLocal(p, c, i, e, j);
    case _ =>
  }

  lemma TimerLocal(p: Pace, c: Clocked, i: nat, e: Event, j: nat)
    requires MayBeat(p, c, Act(Local(i, e))) && j < |c.since| && TimedRight(p, c, j)
    requires Tracks(c.sys.svc.log, c.sys.delivered, c.sys.lossy, c.sys.clients[j])
    requires NothingDue(p, c, c.now) && Chronicle(c)
    ensures var r := OnBeat(p, c, Act(Local(i, e))); Aligned(r) && TimedRight(p, r, j)
  {
  }

  lemma TimerServed(p: Pace, c: Clocked, a: Action, j: nat)
    requires MayBeat(p, c, Act(Serve(a))) && Aligned(c) && j < |c.since| && TimedRight(p, c, j)
    requires c.sys.clients[j].from + c.sys.clients[j].span <= |c.sys.svc.log|
    ensures var r := OnBeat(p, c, Act(Serve(a))); Aligned(r) && TimedRight(p, r, j)
  {
    var r := OnBeat(p, c, Act(Serve(a)));
    StaysAligned(p, c, Act(Serve(a)));
    AtMostOneMore(c.sys.svc, a);
    LateLonger(p.lag, c.sys.svc.log, r.sys.svc.log, c.sentAt, r.sentAt, c.now, c.since[j], c.sys.clients[j]);
  }

  lemma LateLonger(lag: nat, log: seq<Frame>, log': seq<Frame>, sentAt: seq<nat>, sentAt': seq<nat>, now: nat,
                   since: nat, cl: Client)
    requires TimedLate(lag, log, sentAt, now, since, cl) && log <= log' && cl.from + cl.span <= |log|
    requires sentAt' == sentAt || sentAt' == sentAt + [now]
    ensures TimedLate(lag, log', sentAt', now, since, cl)
  {
    assert log'[cl.from..cl.from + cl.span] == log[cl.from..cl.from + cl.span];
  }

  lemma BeatKeeps(p: Pace, c: Clocked, b: Beat)
    requires MayBeat(p, c, b) && ClockInv(p, c)
    ensures ClockInv(p, OnBeat(p, c, b))
  {
    var r := OnBeat(p, c, b);
    StaysAligned(p, c, b);
    StaysChronicle(p, c, b);
    match b
    case Tick(ms) =>
      forall j | 0 <= j < |r.since| ensures TimedRight(p, r, j) { assert TimedRight(p, c, j); }
    case Act(m) =>
      ReachedStep(c.sys, m);
      ActOnTime(p, c, m);
      NotOverdue(p, c, m);
      forall j | 0 <= j < |r.since|
        ensures TimedRight(p, r, j)
      {
        if j < |c.since| { TimerKept(p, c, m, j); }
      }
  }

  lemma {:induction false} PlayKeeps(p: Pace, c: Clocked, beats: seq<Beat>)
    requires ClockInv(p, c) && IsPlay(p, c, beats)
    ensures ClockInv(p, Played(p, c, beats))
    decreases |beats|
  {
    if beats != [] {
      BeatKeeps(p, c, beats[0]);
      PlayKeeps(p, OnBeat(p, c, beats[0]), beats[1..]);
    }
  }

  // ---------- main results ----------

  ghost predicate Attained(p: Pace, c: Clocked) {
    exists beats :: IsPlay(p, START, beats) && Played(p, START, beats) == c
  }

  lemma AttainedInv(p: Pace, c: Clocked)
    requires Attained(p, c)
    ensures ClockInv(p, c)
  {
    var beats :| IsPlay(p, START, beats) && Played(p, START, beats) == c;
    assert IsHistory(INIT, []) && After(INIT, []) == INIT;
    PlayKeeps(p, START, beats);
  }

  /** A stream is over, and all its frames have left the channel, 1550 ms plus the scan plus 33 times the
      slack plus the lag after it started. */
  lemma StreamOverInTime(p: Pace, c: Clocked, i: nat)
    requires Attained(p, c) && i < |c.sys.svc.tasks| && |c.started| == |c.sys.svc.tasks|
    requires c.now > c.started[i] + 1550 + p.scanMs + 33 * p.slack + p.lag
    ensures !LiveAt(c.sys.svc, i) && StartOf(c.sys.svc.tasks, i + 1) <= c.sys.delivered
  {
    AttainedInv(p, c);
    ReachedInv(c.sys);
    TotalIs(p);
    if LiveAt(c.sys.svc, i) { OnlyLastLive(c.sys.svc, i); }
    AllDelivered(p, c, i);
  }

  lemma AllDelivered(p: Pace, c: Clocked, i: nat)
    requires OnTime(p, c) && NothingDue(p, c, c.now) && i < |c.sys.svc.tasks|
    requires c.sys.svc.log == Flatten(c.sys.svc.tasks) && c.now > c.started[i] + Total(p) + p.lag
    ensures StartOf(c.sys.svc.tasks, i + 1) <= c.sys.delivered
  {
    StartsGrow(c.sys.svc.tasks, i + 1, |c.sys.svc.tasks|);
    WholeLog(c.sys.svc.tasks);
  }

  /** If a stream started early enough before a listener's 20 s were over, and its end is the first the
      listener met, the listener did not time out. */
  lemma NoTimeoutBefore(p: Pace, c: Clocked, j: nat, i: nat)
    requires Attained(p, c) && Aligned(c) && j < |c.since|
    requires FirstEnd(c.sys.svc.tasks, c.sys.delivered, c.sys.clients[j].from, i)
    requires c.started[i] + 1550 + p.scanMs + 33 * p.slack + p.lag < c.since[j] + ScanService.CLIENT_TIMEOUT_MS
    ensures c.sys.clients[j].l.done != Rejected(TimedOut)
  {
    AttainedInv(p, c);
    ClientTracks(c.sys, j);
    LastFrameAt(c.sys.svc.tasks, i);
    EndSentBy(p, c, i);
    assert TimedRight(p, c, j);
    if c.sys.clients[j].l.done == Rejected(TimedOut) {
      TimedOutLate(p, c, j, StartOf(c.sys.svc.tasks, i + 1));
    }
  }

  lemma EndSentBy(p: Pace, c: Clocked, i: nat)
    requires OnTime(p, c) && i < |c.started| && 0 < StartOf(c.sys.svc.tasks, i + 1) <= |c.sentAt|
    ensures c.sentAt[StartOf(c.sys.svc.tasks, i + 1) - 1] <= c.started[i] + 1550 + p.scanMs + 33 * p.slack
  {
    TotalIs(p);
  }

  lemma TimedOutLate(p: Pace, c: Clocked, j: nat, e: nat)
    requires Aligned(c) && j < |c.since| && TimedRight(p, c, j) && c.sys.clients[j].l.done == Rejected(TimedOut)
    requires c.sys.clients[j].from < e <= |c.sys.svc.log| && Terminator(c.sys.svc.log[e - 1])
    ensures c.sentAt[e - 1] + p.lag >= c.since[j] + ScanService.CLIENT_TIMEOUT_MS
  {
    var cl := c.sys.clients[j];
    NoneEarlier(c.sys.svc.log, cl.from, cl.from + cl.span, e);
  }

  /** On the clock, then, without supposing that anything has arrived or that nobody timed out: when the
      time a stream can take is up, every listener that attached before its begin, met no terminator until
      it, still had that long to go, and did not fail to subscribe, holds the stream's whole list if the
      channel lost nothing and the stream completed. */
  lemma AnswersInTime(p: Pace, c: Clocked, j: nat, i: nat)
    requires Attained(p, c) && Aligned(c) && j < |c.since| && i < |c.started|
    requires c.started[i] + 1550 + p.scanMs + 33 * p.slack + p.lag < c.now
    requires c.started[i] + 1550 + p.scanMs + 33 * p.slack + p.lag < c.since[j] + ScanService.CLIENT_TIMEOUT_MS
    requires c.sys.clients[j].from <= StartOf(c.sys.svc.tasks, i) <= |c.sys.svc.log|
    requires NoTerminator(c.sys.svc.log[c.sys.clients[j].from..StartOf(c.sys.svc.tasks, i)])
    requires !c.sys.lossy && c.sys.svc.tasks[i].pc == Finished(Completed)
    requires c.sys.clients[j].l.stage != Left(SubscribeFailed)
    ensures c.sys.clients[j].l.done == Resolved(c.sys.svc.tasks[i].networks)
  {
    AttainedInv(p, c);
    ReachedInv(c.sys);
    StreamOverInTime(p, c, i);
    CompletedBlock(c.sys.svc.tasks[i]);
    EndAfterPrefix(c.sys.svc.tasks, c.sys.delivered, c.sys.clients[j].from, i);
    NoTimeoutBefore(p, c, j, i);
    WholeListIff(c.sys, j, i);
  }
}
