/** The service object behind the scan characteristic, in its own imperative form. Each method is
    one stretch of code between suspension points and refines one action of the step machine;
    `StreamScan` is the whole stream coroutine when nothing disturbs it, with its sleeps. */
module ScanService {
  import opened Text
  import opened WifiScan
  import opened ScanStream
  import opened ScanClient

  const NOTIFY_INTERVAL_MS := 50

  /** k resumptions of one task, all with the same scan reply at hand. */
  function RunTimes(t: Task, reply: Reply, k: nat): Task {
    if k == 0 then t
    else
      var u := RunTimes(t, reply, k - 1);
      if Live(u) then RunTask(u, reply) else u
  }

  /** How the nmcli listing under `wifi.scan` turns out, and what `scan` makes of it. */
  datatype ScanListing = Listed(out: string) | Failed(msg: string)

  function ScanReply(nm: ScanListing): Reply {
    match nm
    case Listed(out) => Found(ScanNets(out, STREAM_LIMIT))
    case Failed(msg) => Raised(msg)
  }

  /** Where a stream that nobody cancels ends. */
  function StreamOutcome(nm: ScanListing): Task {
    match nm
    case Failed(msg) => Task(Finished(Errored(msg)), false, None, [], [Begin, Err(msg)])
    case Listed(out) =>
      var nets := ScanNets(out, STREAM_LIMIT);
      Task(Finished(Completed), false, Some(nets), nets, FullBlock(nets))
  }

  /** n clock readings 50 ms apart. */
  function Ticks(start: nat, n: nat): (r: seq<nat>)
    ensures |r| == n && forall k :: 0 <= k < n ==> r[k] == start + NOTIFY_INTERVAL_MS * k
  {
    seq(n, (k: nat) => start + NOTIFY_INTERVAL_MS * k)
  }

  lemma TicksSnoc(start: nat, n: nat)
    ensures Ticks(start, n + 1) == Ticks(start, n) + [start + NOTIFY_INTERVAL_MS * n]
  {
  }

  lemma EndLast(frames: seq<Frame>, nets: seq<Network>)
    ensures frames + NetFrames(nets) + [End(|nets|)] == frames + (NetFrames(nets) + [End(|nets|)])
  {
  }

  /** When an undisturbed stream that starts at `begin` notifies its frames: the begin at once, the others
      50 ms apart from 50 ms plus the scan's time after it. */
  function SendTimes(nm: ScanListing, begin: nat, scanMs: nat): (r: seq<nat>)
    ensures |r| == |StreamOutcome(nm).networks| + 2 == |StreamOutcome(nm).block|
  {
    [begin] + Ticks(begin + NOTIFY_INTERVAL_MS + scanMs, |StreamOutcome(nm).networks| + 1)
  }

  /** A successful stream, put together from what its parts send. */
  lemma {:induction false} SuccessParts(out: string, nets: seq<Network>, log: seq<Frame>, times: seq<nat>,
                                        begin: nat, scanMs: nat)
    requires nets == ScanNets(out, STREAM_LIMIT)
    ensures var nm, rest := Listed(out), NetFrames(nets) + [End(|nets|)];
      && log + [Begin] + rest == log + StreamOutcome(nm).block
      && times + [begin] + Ticks(begin + NOTIFY_INTERVAL_MS + scanMs, |nets| + 1)
           == times + SendTimes(nm, begin, scanMs)
      && StreamOutcome(nm) == Task(Finished(Completed), false, Some(nets), nets, [Begin] + rest)
    ensures SortDesc(nets) == nets
  {
    ResortIsIdentity(out, STREAM_LIMIT);
    assert [Begin] + (NetFrames(nets) + [End(|nets|)]) == FullBlock(nets);
  }

  lemma {:induction false} FailureParts(msg: string, log: seq<Frame>, times: seq<nat>, begin: nat, scanMs: nat)
    ensures var nm := Failed(msg);
      && log + [Begin] + [Err(msg)] == log + StreamOutcome(nm).block
      && times + [begin] + [begin + NOTIFY_INTERVAL_MS + scanMs] == times + SendTimes(nm, begin, scanMs)
      && StreamOutcome(nm) == Task(Finished(Errored(msg)), false, None, [], [Begin] + [Err(msg)])
  {
    assert SendTimes(Failed(msg), begin, scanMs) == [begin] + [begin + NOTIFY_INTERVAL_MS + scanMs];
  }

  class ProvisioningService {
    var tasks: seq<Task>
    var scanTask: Option<nat>
    var waiting: seq<nat>
    var log: seq<Frame>
    var clock: nat
    /** The clock reading of each notification. */
    var sentAt: seq<nat>

    ghost function View(): Service
      reads this
    {
      Service(tasks, scanTask, waiting, log)
    }

    constructor ()
      ensures View() == IDLE && clock == 0 && sentAt == []
    {
      tasks, scanTask, waiting, log, clock, sentAt := [], None, [], [], 0, [];
    }

    /** `_on_write_scan` up to its first suspension. */
    method OnWriteScan()
      modifies this
      ensures View() == Apply(old(View()), Trigger) && clock == old(clock) && sentAt == old(sentAt)
    {
      if scanTask.Some? && scanTask.value < |tasks| && !tasks[scanTask.value].pc.Finished? {
        var t := scanTask.value;
        tasks := tasks[t := tasks[t].(cancelling := true)];
        waiting := waiting + [t];
        return;
      }
      CreateStreamTask();
    }

    /** `_on_write_scan` after `await self._scan_task`. */
    method ResumeWriteScan(h: nat)
      requires Enabled(View(), Resume(h))
      modifies this
      ensures View() == Apply(old(View()), Resume(h)) && clock == old(clock) && sentAt == old(sentAt)
    {
      waiting := waiting[..h] + waiting[h + 1..];
      CreateStreamTask();
    }

    method CreateStreamTask()
      modifies this
      ensures View() == Start(old(View())) && clock == old(clock) && sentAt == old(sentAt)
    {
      scanTask := Some(|tasks|);
      tasks := tasks + [NEW_TASK];
    }

    /** `_notify_scan`: never suspends. */
    method NotifyScan(t: nat, frame: Frame)
      requires t < |tasks|
      modifies this`tasks, this`log, this`sentAt
      ensures log == old(log) + [frame] && sentAt == old(sentAt) + [clock]
      ensures tasks == old(tasks)[t := old(tasks)[t].(block := old(tasks)[t].block + [frame])]
    {
      log, sentAt := log + [frame], sentAt + [clock];
      tasks := tasks[t := tasks[t].(block := tasks[t].block + [frame])];
    }

    /** `_stream_scan` from one suspension point to the next. */
    method ResumeStream(t: nat, reply: Reply)
      requires Enabled(View(), Run(t, reply))
      modifies this`tasks, this`log, this`sentAt
      ensures View() == Apply(old(View()), Run(t, reply))
    {
      match tasks[t].pc
      case Ready =>
        NotifyScan(t, Begin);
        tasks := tasks[t := tasks[t].(pc := AfterBegin)];
      case AfterBegin =>
        tasks := tasks[t := tasks[t].(pc := Scanning)];
      case Scanning =>
        match reply {
          case Raised(msg) =>
            NotifyScan(t, Err(msg));
            tasks := tasks[t := tasks[t].(pc := Finished(Errored(msg)))];
          case Found(nets) =>
            tasks := tasks[t := tasks[t].(found := Some(nets), networks := SortDesc(nets))];
            NextNetwork(t, 0);
        }
      case Sending(k) =>
        NextNetwork(t, k);
    }

    method NextNetwork(t: nat, k: nat)
      requires t < |tasks|
      modifies this`tasks, this`log, this`sentAt
      ensures tasks == old(tasks)[t := SendNext(old(tasks)[t], k)]
      ensures log == old(log) + tasks[t].block[|old(tasks)[t].block|..]
    {
      if k < |tasks[t].networks| {
        NotifyScan(t, Net(tasks[t].networks[k]));
        tasks := tasks[t := tasks[t].(pc := Sending(k + 1))];
      } else {
        NotifyScan(t, End(|tasks[t].networks|));
        tasks := tasks[t := tasks[t].(pc := Finished(Completed))];
      }
    }

    /** A cancel takes effect, or an exception other than WifiError escapes. */
    method EndStream(t: nat)
      requires LiveAt(View(), t)
      modifies this`tasks
      ensures View() == Apply(old(View()), Crash(t))
      ensures old(tasks)[t].cancelling ==> View() == Apply(old(View()), CancelLands(t))
    {
      tasks := tasks[t := tasks[t].(pc := Finished(Aborted))];
    }

    method Sleep(ms: nat)
      modifies this`clock
      ensures clock == old(clock) + ms
    {
      clock := clock + ms;
    }

    /** The loop of `_stream_scan`: one notification and one sleep per network. */
    method SendNetworks(t: nat, networks: seq<Network>)
      requires t < |tasks|
      modifies this`tasks, this`log, this`sentAt, this`clock
      ensures tasks == old(tasks)[t := old(tasks)[t].(block := old(tasks)[t].block + NetFrames(networks))]
      ensures log == old(log) + NetFrames(networks) && sentAt == old(sentAt) + Ticks(old(clock), |networks|)
      ensures clock == old(clock) + NOTIFY_INTERVAL_MS * |networks|
    {
      ghost var block := tasks[t].block;
      assert NetFrames(networks[..0]) == [];
      assert tasks[t] == tasks[t].(block := block + []);
      for k := 0 to |networks|
        invariant tasks == old(tasks)[t := old(tasks)[t].(block := block + NetFrames(networks[..k]))]
        invariant log == old(log) + NetFrames(networks[..k]) && sentAt == old(sentAt) + Ticks(old(clock), k)
        invariant clock == old(clock) + NOTIFY_INTERVAL_MS * k
      {
        assert NetFrames(networks[..k + 1]) == NetFrames(networks[..k]) + [Net(networks[k])];
        TicksSnoc(old(clock), k);
        NotifyScan(t, Net(networks[k]));
        Sleep(NOTIFY_INTERVAL_MS);
        assert block + NetFrames(networks[..k]) + [Net(networks[k])] == block + NetFrames(networks[..k + 1]);
      }
      assert networks[..|networks|] == networks;
    }

    /** `_stream_scan` from start to finish, undisturbed: n networks cost exactly n + 1 sleeps of
        50 ms on top of the scan itself, and the frames leave at the times `SendTimes` says. */
    method StreamScan(t: nat, nm: ScanListing, scanMs: nat)
      requires t < |tasks| && tasks[t] == NEW_TASK
      modifies this`tasks, this`log, this`sentAt, this`clock
      ensures tasks == old(tasks)[t := StreamOutcome(nm)]
      ensures log == old(log) + StreamOutcome(nm).block
      ensures sentAt == old(sentAt) + SendTimes(nm, old(clock), scanMs)
      ensures clock == old(clock) + scanMs + NOTIFY_INTERVAL_MS * (|StreamOutcome(nm).networks| + 1)
    {
      SendBegin(t);
      Sleep(scanMs);
      match nm
      case Failed(msg) =>
        FailureParts(msg, old(log), old(sentAt), old(clock), scanMs);
        SendError(t, msg);
      case Listed(out) =>
        var networks := Scan(out, STREAM_LIMIT);
        SuccessParts(out, networks, old(log), old(sentAt), old(clock), scanMs);
        SendFound(t, networks);
    }

    /** `_stream_scan` up to the scan. */
    method SendBegin(t: nat)
      requires t < |tasks| && tasks[t] == NEW_TASK
      modifies this`tasks, this`log, this`sentAt, this`clock
      ensures log == old(log) + [Begin] && sentAt == old(sentAt) + [old(clock)]
      ensures tasks == old(tasks)[t := NEW_TASK.(block := [Begin])] && clock == old(clock) + NOTIFY_INTERVAL_MS
    {
      NotifyScan(t, Begin);
      assert tasks[t].block == [Begin];
      Sleep(NOTIFY_INTERVAL_MS);
    }

    /** `_stream_scan` after a failed scan. */
    method SendError(t: nat, msg: string)
      requires t < |tasks|
      modifies this`tasks, this`log, this`sentAt
      ensures log == old(log) + [Err(msg)] && sentAt == old(sentAt) + [clock]
      ensures tasks == old(tasks)[t := old(tasks)[t].(pc := Finished(Errored(msg)),
                                                      block := old(tasks)[t].block + [Err(msg)])]
    {
      NotifyScan(t, Err(msg));
      tasks := tasks[t := tasks[t].(pc := Finished(Errored(msg)))];
    }

    /** `_stream_scan` after a successful scan. */
    method SendFound(t: nat, found: seq<Network>)
      requires t < |tasks|
      modifies this`tasks, this`log, this`sentAt, this`clock
      ensures var nets := SortDesc(found);
        && log == old(log) + (NetFrames(nets) + [End(|nets|)])
        && clock == old(clock) + NOTIFY_INTERVAL_MS * |nets|
        && sentAt == old(sentAt) + Ticks(old(clock), |nets| + 1)
        && tasks == old(tasks)[t := Task(Finished(Completed), old(tasks)[t].cancelling, Some(found), nets,
                                         old(tasks)[t].block + (NetFrames(nets) + [End(|nets|)]))]
    {
      var networks := SortDesc(found);
      tasks := tasks[t := tasks[t].(found := Some(found), networks := networks)];
      SendNetworks(t, networks);
      TicksSnoc(old(clock), |networks|);
      EndLast(old(log), networks);
      EndLast(old(tasks)[t].block, networks);
      NotifyScan(t, End(|networks|));
      tasks := tasks[t := tasks[t].(pc := Finished(Completed))];
    }
  }

  /** The coroutine and the step machine agree: left alone, a task reaches the same end in n + 3
      resumptions (3 when the scan fails), having slept at most 31 * 50 = 1550 ms. */
  lemma {:induction false} UndisturbedStream(nm: ScanListing)
    ensures RunTimes(NEW_TASK, ScanReply(nm), |StreamOutcome(nm).networks| + 3) == StreamOutcome(nm)
    ensures NOTIFY_INTERVAL_MS * (|StreamOutcome(nm).networks| + 1) <= 1550
  {
    match nm
    case Failed(msg) => UndisturbedFailure(msg);
    case Listed(out) => UndisturbedSuccess(out, ScanNets(out, STREAM_LIMIT));
  }

  lemma {:induction false} UndisturbedFailure(msg: string)
    ensures RunTimes(NEW_TASK, Raised(msg), 3) == Task(Finished(Errored(msg)), false, None, [], [Begin, Err(msg)])
  {
    var t := RunTimes(NEW_TASK, Raised(msg), 2);
    UndisturbedStart(Raised(msg));
    assert t.block + [Err(msg)] == [Begin, Err(msg)];
    assert RunTimes(NEW_TASK, Raised(msg), 3) == RunTask(t, Raised(msg));
  }

  lemma {:induction false} UndisturbedSuccess(out: string, nets: seq<Network>)
    requires nets == ScanNets(out, STREAM_LIMIT)
    ensures RunTimes(NEW_TASK, Found(nets), |nets| + 3) ==
      Task(Finished(Completed), false, Some(nets), nets, FullBlock(nets))
    ensures |nets| <= STREAM_LIMIT
  {
    ResortIsIdentity(out, STREAM_LIMIT);
    ScanAtMost(out, STREAM_LIMIT);
    Undisturbed(nets, |nets|);
    FullBlockTake(nets, |nets|);
  }

  lemma UndisturbedStart(reply: Reply)
    ensures RunTimes(NEW_TASK, reply, 2) == NEW_TASK.(pc := Scanning, block := [Begin])
  {
    assert RunTimes(NEW_TASK, reply, 0) == NEW_TASK;
    assert RunTimes(NEW_TASK, reply, 1) == NEW_TASK.(pc := AfterBegin, block := [Begin]);
  }

  /** The step machine, left alone, walks through the block frame by frame. */
  lemma {:induction false} Undisturbed(nets: seq<Network>, k: nat)
    requires SortDesc(nets) == nets && k <= |nets|
    ensures RunTimes(NEW_TASK, Found(nets), k + 3) ==
      Task(if k < |nets| then Sending(k + 1) else Finished(Completed), false, Some(nets), nets,
           FullBlock(nets)[..k + 2])
  {
    FullBlockTake(nets, k);
    if k == 0 {
      UndisturbedStart(Found(nets));
    } else {
      Undisturbed(nets, k - 1);
    }
  }

  /** The whole pipeline in one piece, for all access points whose SSIDs and security names are on one line:
      nmcli's rendering, line splitting, parsing, reduction, streaming and the client's fold end in a promise
      resolved with their declarative reduction. */
  lemma {:induction false} PipelineResolves(aps: seq<AccessPoint>)
    requires forall k :: 0 <= k < |aps| ==> OneLinePoint(aps[k])
    ensures var p := Hear(FRESH, StreamOutcome(Listed(Listing(Table(aps)))).block).done;
      p.Resolved? && IsScanResult(Visible(aps), 30, p.nets)
  {
    var nets := ScanNets(Listing(Table(aps)), STREAM_LIMIT);
    HearBlock([], nets);
    assert [] + FullBlock(nets) == FullBlock(nets);
    ScanShowsWhatIsThere(aps, STREAM_LIMIT);
  }

  // ---------- against the client's timer ----------

  const CLIENT_TIMEOUT_MS := 20000

  /** A listener on a clock: it hears the frames that arrive before the deadline, then its timer fires
      if it is still armed. */
  function HearUntil(frames: seq<Frame>, arrivals: seq<nat>, deadline: nat): Listener
    requires |arrivals| == |frames|
  {
    if frames == [] then FRESH
    else
      var n := |frames| - 1;
      var l := HearUntil(frames[..n], arrivals[..n], deadline);
      if arrivals[n] < deadline then OnFrame(l, frames[n])
      else if l.timer then OnEvent(l, TimerFired) else l
  }

  lemma {:induction false} InTimeHearsAll(frames: seq<Frame>, arrivals: seq<nat>, deadline: nat)
    requires |arrivals| == |frames| && forall k :: 0 <= k < |arrivals| ==> arrivals[k] < deadline
    ensures HearUntil(frames, arrivals, deadline) == Hear(FRESH, frames)
  {
    if frames != [] { InTimeHearsAll(frames[..|frames| - 1], arrivals[..|arrivals| - 1], deadline); }
  }

  /** What an undisturbed stream makes of a listener that hears all of it. */
  function ClientOutcome(nm: ScanListing): Promise {
    match nm
    case Listed(out) => Resolved(ScanNets(out, STREAM_LIMIT))
    case Failed(msg) => Rejected(Remote(Shown(msg)))
  }

  lemma HearOutcome(before: seq<Frame>, nm: ScanListing)
    requires NoTerminator(before)
    ensures Hear(FRESH, before + StreamOutcome(nm).block).done == ClientOutcome(nm)
  {
    match nm
    case Listed(out) => HearBlock(before, ScanNets(out, STREAM_LIMIT));
    case Failed(msg) =>
      assert before + [Begin, Err(msg)] == before + [Begin] + [Err(msg)];
      HearError(before + [Begin], msg);
  }

  lemma LastSend(nm: ScanListing, begin: nat, scanMs: nat)
    ensures var times := SendTimes(nm, begin, scanMs); times[|times| - 1] <= begin + scanMs + 1550
  {
    UndisturbedStream(nm);
  }

  lemma LastIsLatest(arrivals: seq<nat>, bound: nat)
    requires arrivals != [] && arrivals[|arrivals| - 1] < bound
    requires forall i, k :: 0 <= i < k < |arrivals| ==> arrivals[i] <= arrivals[k]
    ensures forall k :: 0 <= k < |arrivals| ==> arrivals[k] < bound
  {
    forall k | 0 <= k < |arrivals| - 1 ensures arrivals[k] <= arrivals[|arrivals| - 1] {}
  }

  /** A stream that starts `begin` ms after the client armed its timer sends its frames at `SendTimes`, as
      `StreamScan` does. They arrive in order, each at most `delay` ms after it was sent, perhaps behind
      leftovers that hold no terminator. If start, scan and delay stay under 18450 ms together, the
      client settles on the stream's own outcome before its 20 s timer. */
  lemma ResolvesBeforeTimeout(nm: ScanListing, begin: nat, scanMs: nat, delay: nat,
                              before: seq<Frame>, arrivals: seq<nat>)
    requires NoTerminator(before) && |arrivals| == |before + StreamOutcome(nm).block|
    requires forall i, k :: 0 <= i < k < |arrivals| ==> arrivals[i] <= arrivals[k]
    requires forall k :: 0 <= k < |SendTimes(nm, begin, scanMs)| ==>
      arrivals[|before| + k] <= SendTimes(nm, begin, scanMs)[k] + delay
    requires begin + scanMs + delay < 18450
    ensures HearUntil(before + StreamOutcome(nm).block, arrivals, 20000).done ==
      match nm
      case Listed(out) => Resolved(ScanNets(out, 30))
      case Failed(msg) => Rejected(Remote(if msg == "" then "scan error" else msg))
  {
    var frames, times := before + StreamOutcome(nm).block, SendTimes(nm, begin, scanMs);
    LastSend(nm, begin, scanMs);
    assert arrivals[|before| + (|times| - 1)] <= times[|times| - 1] + delay;
    LastIsLatest(arrivals, CLIENT_TIMEOUT_MS);
    InTimeHearsAll(frames, arrivals, CLIENT_TIMEOUT_MS);
    HearOutcome(before, nm);
  }
}
