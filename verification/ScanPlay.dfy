/** Streams as they happen, on the clock of ScanClock: an undisturbed stream and the listener that waits for
    it, everything being as late as the pace allows. They show that the bounds of ScanClock are met, and that
    they cannot be improved. */
module ScanPlay {
  import opened Text
  import opened WifiScan
  import opened ScanStream
  import opened ScanClient
  import opened ScanSystem
  import opened ScanClock

  lemma {:induction false} PlayedOneMore(p: Pace, c: Clocked, beats: seq<Beat>, b: Beat)
    requires IsPlay(p, c, beats) && MayBeat(p, Played(p, c, beats), b)
    ensures IsPlay(p, c, beats + [b]) && Played(p, c, beats + [b]) == OnBeat(p, Played(p, c, beats), b)
    decreases |beats|
  {
    if beats == [] {
      assert beats + [b] == [b] && [b][1..] == [];
    } else {
      assert (beats + [b])[1..] == beats[1..] + [b];
      PlayedOneMore(p, OnBeat(p, c, beats[0]), beats[1..], b);
    }
  }

  lemma AttainedBeat(p: Pace, c: Clocked, b: Beat) returns (r: Clocked)
    requires Attained(p, c) && MayBeat(p, c, b)
    ensures r == OnBeat(p, c, b) && Attained(p, r)
  {
    var beats :| IsPlay(p, START, beats) && Played(p, START, beats) == c;
    PlayedOneMore(p, START, beats, b);
    r := OnBeat(p, c, b);
  }

  /** A listener that waits for a stream it has heard from its begin. */
  predicate Waits(l: Listener, nets: seq<Network>) {
    l.attached && l.timer && l.done == Pending && l.stage == Awaiting && l.networks == nets
  }

  /** The one stream is as t says and started at `start`; its frames have all arrived at the one listener,
      which attached at time 0 and has heard of `nets` so far. */
  ghost predicate Underway(p: Pace, c: Clocked, start: nat, t: Task, nets: seq<Network>) {
    && Attained(p, c) && Aligned(c) && c.sys.svc == OneStream(t)
    && c.sys.delivered == |t.block| && !c.sys.lossy && c.started == [start] && c.since == [0]
    && |c.sys.clients| == 1 && c.sys.clients[0].from == 0 && Waits(c.sys.clients[0].l, nets)
    && c.due == c.now + Stay(p, t.pc)
  }

  lemma Attaches(p: Pace) returns (c: Clocked)
    ensures Attained(p, c) && c.now == 0 && c.started == [] && c.sentAt == [] && c.since == [0]
    ensures c.sys.svc == IDLE && c.sys.delivered == 0 && !c.sys.lossy
    ensures |c.sys.clients| == 1 && c.sys.clients[0].from == 0 && Waits(c.sys.clients[0].l, [])
  {
    assert IsPlay(p, START, []) && Played(p, START, []) == START;
    c := AttainedBeat(p, START, Act(Attach));
    c := AttainedBeat(p, c, Act(Local(0, Subscribed(true))));
    c := AttainedBeat(p, c, Act(Local(0, Written(true))));
  }

  /** Page and trigger: the listener attaches, its subscription and its write succeed, and the stream
      starts. */
  lemma Opens(p: Pace, start: nat) returns (c: Clocked)
    ensures Underway(p, c, start, NEW_TASK, []) && c.now == start
  {
    c := Attaches(p);
    c := AttainedBeat(p, c, Tick(start));
    c := AttainedBeat(p, c, Act(Serve(Trigger)));
  }

  /** The task is resumed when it is due. */
  lemma Resumes(p: Pace, c: Clocked, start: nat, t: Task, nets: seq<Network>, reply: Reply) returns (r: Clocked)
    requires Underway(p, c, start, t, nets) && ScanStream.Live(t)
    requires reply.Found? ==> |reply.nets| <= STREAM_LIMIT
    ensures Attained(p, r) && Aligned(r) && r.now == c.now + Stay(p, t.pc)
    ensures r.sys == c.sys.(svc := OneStream(RunTask(t, reply))) && r.started == [start] && r.since == [0]
    ensures r.due == r.now + Stay(p, RunTask(t, reply).pc)
    ensures |RunTask(t, reply).block| > |t.block| ==> r.sentAt[|t.block|] == r.now
  {
    RunOneStream(t, reply);
    var late := AttainedBeat(p, c, Tick(Stay(p, t.pc)));
    r := AttainedBeat(p, late, Act(Serve(Run(0, reply))));
  }

  /** It goes on without notifying anything. */
  lemma GoesOn(p: Pace, c: Clocked, start: nat, t: Task, nets: seq<Network>, reply: Reply) returns (r: Clocked)
    requires Underway(p, c, start, t, nets) && ScanStream.Live(t)
    requires reply.Found? ==> |reply.nets| <= STREAM_LIMIT
    requires RunTask(t, reply).block == t.block
    ensures Underway(p, r, start, RunTask(t, reply), nets) && r.now == c.now + Stay(p, t.pc)
  {
    r := Resumes(p, c, start, t, nets, reply);
  }

  /** It notifies a frame, which arrives at once. */
  lemma Notifies(p: Pace, c: Clocked, start: nat, t: Task, nets: seq<Network>, reply: Reply, f: Frame)
    returns (r: Clocked)
    requires Underway(p, c, start, t, nets) && ScanStream.Live(t)
    requires reply.Found? ==> |reply.nets| <= STREAM_LIMIT
    requires RunTask(t, reply).block == t.block + [f] && !Terminator(f)
    ensures Underway(p, r, start, RunTask(t, reply), if f.Net? then nets + [f.net] else [])
    ensures r.now == c.now + Stay(p, t.pc)
  {
    var sent := Resumes(p, c, start, t, nets, reply);
    r := AttainedBeat(p, sent, Act(Deliver));
  }

  /** A stream that has sent k of its networks. */
  function SentSome(nets: seq<Network>, k: nat): Task
    requires k <= |nets|
  {
    Task(Sending(k), false, Some(nets), nets, [Begin] + NetFrames(nets[..k]))
  }

  function SentAll(nets: seq<Network>): Task {
    Task(Finished(Completed), false, Some(nets), nets, FullBlock(nets))
  }

  lemma SendsOne(nets: seq<Network>, k: nat, reply: Reply)
    requires k < |nets|
    ensures RunTask(SentSome(nets, k), reply) == SentSome(nets, k + 1)
    ensures SentSome(nets, k + 1).block == SentSome(nets, k).block + [Net(nets[k])]
  {
  }

  lemma {:induction false} SendsRest(p: Pace, c: Clocked, start: nat, nets: seq<Network>, k: nat)
    returns (r: Clocked)
    requires 1 <= k <= |nets| && Underway(p, c, start, SentSome(nets, k), nets[..k])
    ensures Underway(p, r, start, SentSome(nets, |nets|), nets)
    ensures r.now == c.now + Many(|nets| - k, PerNet(p))
    decreases |nets| - k
  {
    if k == |nets| {
      assert nets[..k] == nets;
      r := c;
    } else {
      SendsOne(nets, k, Raised(""));
      assert nets[..k] + [nets[k]] == nets[..k + 1];
      r := Notifies(p, c, start, SentSome(nets, k), nets[..k], Raised(""), Net(nets[k]));
      r := SendsRest(p, r, start, nets, k + 1);
    }
  }

  /** What passes between the start of a stream of n networks and its end, with everything as late as the
      pace allows. */
  function Longest(p: Pace, n: nat): nat { 50 * (n + 1) + p.scanMs + (n + 3) * p.slack }

  lemma LongestIs(p: Pace, n: nat)
    ensures p.slack + PerNet(p) + (p.scanMs + p.slack) + Many(n, PerNet(p)) == Longest(p, n)
  {
    ManyIs(n, PerNet(p));
  }

  function InScan(): Task { Task(Scanning, false, None, [], [Begin]) }

  /** The begin is sent and has arrived, and nmcli has been asked. */
  lemma Scans(p: Pace, start: nat) returns (c: Clocked)
    ensures Underway(p, c, start, InScan(), []) && c.now == start + p.slack + PerNet(p)
  {
    var t := Task(AfterBegin, false, None, [], [Begin]);
    assert RunTask(NEW_TASK, Raised("")) == t && RunTask(t, Raised("")) == InScan();
    c := Opens(p, start);
    c := Notifies(p, c, start, NEW_TASK, [], Raised(""), Begin);
    c := GoesOn(p, c, start, t, [], Raised(""));
  }

  predicate Descending(nets: seq<Network>) {
    forall a, b :: 0 <= a < b < |nets| ==> nets[a].signal >= nets[b].signal
  }

  /** The last resumption of a stream lies ahead. */
  ghost predicate AboutToEnd(p: Pace, c: Clocked, start: nat, t: Task, reply: Reply, nets: seq<Network>) {
    && Underway(p, c, start, t, nets) && ScanStream.Live(t)
    && (reply.Found? ==> |reply.nets| <= STREAM_LIMIT)
    && RunTask(t, reply) == SentAll(nets) && |t.block| == |nets| + 1
    && c.now + Stay(p, t.pc) == start + Longest(p, |nets|)
  }

  lemma NothingFound()
    ensures RunTask(InScan(), Found([])) == SentAll([])
  {
  }

  lemma SomeFound(nets: seq<Network>)
    requires nets != [] && Descending(nets)
    ensures RunTask(InScan(), Found(nets)) == SentSome(nets, 1)
  {
    SortIdentity(nets);
  }

  lemma SendsFirst(p: Pace, c: Clocked, start: nat, nets: seq<Network>) returns (r: Clocked)
    requires Underway(p, c, start, InScan(), []) && nets != [] && Descending(nets) && |nets| <= STREAM_LIMIT
    ensures Underway(p, r, start, SentSome(nets, 1), nets[..1]) && r.now == c.now + p.scanMs + p.slack
  {
    SomeFound(nets);
    assert SentSome(nets, 1).block == [Begin] + [Net(nets[0])];
    r := Notifies(p, c, start, InScan(), [], Found(nets), Net(nets[0]));
    assert [nets[0]] == nets[..1];
  }

  lemma EndOnly(nets: seq<Network>)
    requires nets != []
    ensures RunTask(SentSome(nets, |nets|), Raised("")) == SentAll(nets)
  {
    assert nets[..|nets|] == nets;
  }

  lemma BeforeEnd(p: Pace, start: nat, nets: seq<Network>) returns (c: Clocked, t: Task, reply: Reply)
    requires Descending(nets) && |nets| <= STREAM_LIMIT
    ensures AboutToEnd(p, c, start, t, reply, nets)
  {
    c := Scans(p, start);
    LongestIs(p, |nets|);
    if nets == [] {
      NothingFound();
      t, reply := InScan(), Found([]);
    } else {
      c := SendsFirst(p, c, start, nets);
      c := SendsRest(p, c, start, nets, 1);
      EndOnly(nets);
      t, reply := SentSome(nets, |nets|), Raised("");
    }
  }

  /** The stream of these networks is over, its end has arrived at the one listener, which attached at
      time 0, and nothing was lost. */
  ghost predicate Over(p: Pace, c: Clocked, start: nat, nets: seq<Network>) {
    && Attained(p, c) && Aligned(c) && !c.sys.lossy
    && c.sys.svc.tasks == [SentAll(nets)] && c.sys.delivered == |nets| + 2
    && c.started == [start] && c.since == [0] && |c.sys.clients| == 1 && c.sys.clients[0].from == 0
  }

  /** Whatever descending list of at most 30 networks the scan returns, and however slow everything is: the
      page can end up with that list. */
  lemma PageGetsList(p: Pace, start: nat, nets: seq<Network>) returns (c: Clocked)
    requires Descending(nets) && |nets| <= 30
    ensures Over(p, c, start, nets) && Returned(c.sys.clients[0].l) == Resolved(nets)
  {
    var t, reply;
    c, t, reply := BeforeEnd(p, start, nets);
    var sent := Resumes(p, c, start, t, nets, reply);
    c := AttainedBeat(p, sent, Act(Deliver));
  }

  /** If its end may come as late as 20 s after the listener attached, the timer can be first. */
  lemma TimerCanWin(p: Pace, start: nat, nets: seq<Network>) returns (c: Clocked)
    requires Descending(nets) && |nets| <= 30
    requires start + Longest(p, |nets|) + p.lag >= 20000
    ensures Over(p, c, start, nets) && c.sys.clients[0].l.done == Rejected(TimedOut)
    ensures Returned(c.sys.clients[0].l) == Rejected(TimedOut)
  {
    var t, reply;
    c, t, reply := BeforeEnd(p, start, nets);
    var sent := Resumes(p, c, start, t, nets, reply);
    var late := AttainedBeat(p, sent, Tick(p.lag));
    var fired := AttainedBeat(p, late, Act(Local(0, TimerFired)));
    c := AttainedBeat(p, fired, Act(Deliver));
  }

  lemma OverIsFirstEnd(p: Pace, c: Clocked, start: nat, nets: seq<Network>)
    requires Over(p, c, start, nets)
    ensures FirstEnd(c.sys.svc.tasks, c.sys.delivered, 0, 0)
  {
    assert c.sys.svc.tasks[..0] == [] && c.sys.svc.tasks[..1] == [SentAll(nets)];
    EndAfterPrefix(c.sys.svc.tasks, c.sys.delivered, 0, 0);
  }

  /** The bound of `NoTimeoutBefore` is exact: a stream that fills the limit of 30 can lose against the timer
      if and only if start, sleeps, scan, late resumptions and transport can add up to 20 s. */
  lemma TimeoutIff(p: Pace, start: nat, nets: seq<Network>)
    requires Descending(nets) && |nets| == 30
    ensures (exists c :: Over(p, c, start, nets) && c.sys.clients[0].l.done == Rejected(TimedOut))
      <==> start + 1550 + p.scanMs + 33 * p.slack + p.lag >= 20000
  {
    if start + Longest(p, 30) + p.lag >= 20000 {
      var c := TimerCanWin(p, start, nets);
    } else {
      forall c | Over(p, c, start, nets)
        ensures c.sys.clients[0].l.done != Rejected(TimedOut)
      {
        OverIsFirstEnd(p, c, start, nets);
        NoTimeoutBefore(p, c, 0, 0);
      }
    }
  }
}
