/** The whole streaming scan: the service, the notification channel and any number of browser
    listeners, interleaved step by step. The channel is first-in first-out; it may lose net frames
    (BlueZ coalesces notifications that come too fast) and never anything else. */
module ScanSystem {
  import opened Text
  import opened WifiScan
  import opened ScanStream
  import opened ScanClient

  /** A listener with its history: the position of the channel when it attached, how many stream tasks
      existed then and whether all was quiet, how many frames went by while it was attached, and
      those it heard. */
  datatype Client = Client(from: nat, tasksBefore: nat, quiet: bool, span: nat, heard: seq<Frame>, l: Listener)

  /** `delivered` frames have left the channel; `got` says of each whether it reached the listeners. */
  datatype System = System(svc: Service, delivered: nat, lossy: bool, got: seq<bool>, clients: seq<Client>)

  const INIT := System(IDLE, 0, false, [], [])

  /** Serve: a step of the service. Attach: a new call of `streamWifi`. Deliver / Lose: the next frame
      reaches the attached listeners / is coalesced away. Local: a timer, or the outcome of the
      subscription or of the trigger write, at one listener. */
  datatype Move = Serve(a: Action) | Attach | Deliver | Lose | Local(i: nat, e: Event)

  /** No stream is running and everything it ever notified has been delivered. */
  predicate Quiet(sys: System) {
    sys.delivered == |sys.svc.log| && !LiveAt(sys.svc, |sys.svc.tasks| - 1)
  }

  predicate Can(sys: System, m: Move) {
    match m
    case Serve(a) => SerialEnabled(sys.svc, a)
    case Attach => true
    case Deliver => sys.delivered < |sys.svc.log|
    case Lose => sys.delivered < |sys.svc.log| && sys.svc.log[sys.delivered].Net?
    case Local(i, e) => i < |sys.clients| && !e.Notified? && Possible(sys.clients[i].l, e)
  }

  function PassBy(c: Client): Client {
    if c.l.attached then c.(span := c.span + 1) else c
  }

  function Notify(c: Client, f: Frame): Client {
    if c.l.attached then c.(span := c.span + 1, heard := c.heard + [f], l := OnFrame(c.l, f)) else c
  }

  function Do(sys: System, m: Move): System
    requires Can(sys, m)
  {
    match m
    case Serve(a) => sys.(svc := Apply(sys.svc, a))
    case Attach =>
      sys.(clients := sys.clients + [Client(sys.delivered, |sys.svc.tasks|, Quiet(sys), 0, [], FRESH)])
    case Deliver =>
      sys.(delivered := sys.delivered + 1, got := sys.got + [true],
           clients := seq(|sys.clients|, i requires 0 <= i < |sys.clients| =>
                            Notify(sys.clients[i], sys.svc.log[sys.delivered])))
    case Lose =>
      sys.(delivered := sys.delivered + 1, lossy := true, got := sys.got + [false],
           clients := seq(|sys.clients|, i requires 0 <= i < |sys.clients| => PassBy(sys.clients[i])))
    case Local(i, e) =>
      sys.(clients := sys.clients[i := sys.clients[i].(l := OnEvent(sys.clients[i].l, e))])
  }

  predicate IsHistory(sys: System, moves: seq<Move>)
    decreases |moves|
  {
    moves == [] || (Can(sys, moves[0]) && IsHistory(Do(sys, moves[0]), moves[1..]))
  }

  function After(sys: System, moves: seq<Move>): System
    requires IsHistory(sys, moves)
    decreases |moves|
  {
    if moves == [] then sys else After(Do(sys, moves[0]), moves[1..])
  }

  // ---------- where blocks lie in the log ----------

  function StartOf(tasks: seq<Task>, k: nat): nat
    requires k <= |tasks|
  {
    |Flatten(tasks[..k])|
  }

  lemma {:induction false} FlattenPrefix(tasks: seq<Task>, k: nat)
    requires k <= |tasks|
    ensures Flatten(tasks[..k]) <= Flatten(tasks)
    ensures k < |tasks| ==>
      && StartOf(tasks, k + 1) == StartOf(tasks, k) + |tasks[k].block|
      && StartOf(tasks, k + 1) <= |Flatten(tasks)|
      && Flatten(tasks)[StartOf(tasks, k)..StartOf(tasks, k + 1)] == tasks[k].block
  {
    var n := |tasks| - 1;
    if k == |tasks| {
      assert tasks[..k] == tasks;
    } else if k == n {
      assert tasks[..k + 1] == tasks;
    } else {
      FlattenPrefix(tasks[..n], k);
      assert tasks[..n][..k] == tasks[..k] && tasks[..n][..k + 1] == tasks[..k + 1];
    }
  }

  lemma StartsGrow(tasks: seq<Task>, i: nat, j: nat)
    requires i <= j <= |tasks|
    ensures StartOf(tasks, i) <= StartOf(tasks, j) <= |Flatten(tasks)|
  {
    FlattenPrefix(tasks[..j], i);
    assert tasks[..j][..i] == tasks[..i];
    FlattenPrefix(tasks, j);
  }

  lemma StartOfPrefix(tasks: seq<Task>, n: nat, k: nat)
    requires k <= n <= |tasks|
    ensures StartOf(tasks[..n], k) == StartOf(tasks, k)
  {
    assert tasks[..n][..k] == tasks[..k];
  }

  /** A terminator in the log is the last frame of some task's block. */
  lemma {:induction false} TerminatorEndsBlock(tasks: seq<Task>, e: nat) returns (i: nat)
    requires forall k :: 0 <= k < |tasks| ==> TaskOk(tasks[k])
    requires 0 < e <= |Flatten(tasks)| && Terminator(Flatten(tasks)[e - 1])
    ensures i < |tasks| && StartOf(tasks, i) < e == StartOf(tasks, i + 1)
    ensures ClosedBlock(tasks[i].block)
  {
    var n := |tasks| - 1;
    var start := |Flatten(tasks[..n])|;
    if e > start {
      i := n;
      LastBlockEnds(tasks[n], e - 1 - start);
      assert tasks[..n + 1] == tasks;
    } else {
      i := TerminatorEndsBlock(tasks[..n], e);
      StartOfPrefix(tasks, n, i);
      StartOfPrefix(tasks, n, i + 1);
    }
  }

  lemma LastBlockEnds(t: Task, k: nat)
    requires TaskOk(t) && k < |t.block| && Terminator(t.block[k])
    ensures k == |t.block| - 1 && ClosedBlock(t.block)
  {
    TaskBlockLegal(t);
  }

  // ---------- what a listener has heard ----------

  ghost predicate FirstTerminatorLast(frames: seq<Frame>) {
    frames != [] && Terminator(frames[|frames| - 1]) && NoTerminator(frames[..|frames| - 1])
  }

  predicate FromFrame(p: Promise) {
    p.Resolved? || (p.Rejected? && p.why.Remote?)
  }

  /** The listener's state is what hearing a lossy copy of the frames sent past it makes it. */
  ghost predicate HeardOk(sent: seq<Frame>, lossy: bool, heard: seq<Frame>, l: Listener) {
    && ListenerInv(l)
    && Loses(sent, heard)
    && (!lossy ==> heard == sent)
    && (l.attached ==> NoTerminator(sent) && Alike(l, Hear(FRESH, heard)))
    && (FromFrame(l.done) ==> FirstTerminatorLast(sent) && Hear(FRESH, heard).done == l.done)
  }

  ghost predicate Tracks(log: seq<Frame>, delivered: nat, lossy: bool, c: Client) {
    && c.from + c.span <= delivered <= |log|
    && (c.l.attached ==> c.from + c.span == delivered)
    && HeardOk(log[c.from..c.from + c.span], lossy, c.heard, c.l)
  }

  /** A quiet attachment lies between two blocks, all earlier ones being final. */
  ghost predicate QuietOk(tasks: seq<Task>, c: Client) {
    c.quiet ==>
      && c.tasksBefore <= |tasks| && StartOf(tasks, c.tasksBefore) == c.from
      && forall k :: 0 <= k < c.tasksBefore ==> !ScanStream.Live(tasks[k])
  }

  ghost predicate ClientOk(sys: System, c: Client) {
    Tracks(sys.svc.log, sys.delivered, sys.lossy, c) && QuietOk(sys.svc.tasks, c)
  }

  ghost predicate SystemInv(sys: System) {
    && Inv(sys.svc) && sys.delivered <= |sys.svc.log|
    && forall i :: 0 <= i < |sys.clients| ==> ClientOk(sys, sys.clients[i])
  }

  lemma TracksLonger(log: seq<Frame>, log': seq<Frame>, delivered: nat, lossy: bool, c: Client)
    requires Tracks(log, delivered, lossy, c) && log <= log'
    ensures Tracks(log', delivered, lossy, c)
  {
    assert log'[c.from..c.from + c.span] == log[c.from..c.from + c.span];
  }

  lemma QuietLonger(tasks: seq<Task>, tasks': seq<Task>, c: Client)
    requires QuietOk(tasks, c) && |tasks| <= |tasks'|
    requires forall k :: 0 <= k < |tasks| && !ScanStream.Live(tasks[k]) ==> tasks'[k] == tasks[k]
    ensures QuietOk(tasks', c)
  {
    if c.quiet {
      assert tasks'[..c.tasksBefore] == tasks[..c.tasksBefore];
    }
  }

  lemma LosesSnoc(sent: seq<Frame>, got: seq<Frame>, f: Frame)
    requires Loses(sent, got)
    ensures Loses(sent + [f], got + [f])
    ensures f.Net? ==> Loses(sent + [f], got)
  {
    assert (sent + [f])[..|sent|] == sent && (got + [f])[..|got|] == got;
  }

  lemma HearsFrame(sent: seq<Frame>, lossy: bool, heard: seq<Frame>, l: Listener, f: Frame)
    requires HeardOk(sent, lossy, heard, l) && l.attached
    ensures HeardOk(sent + [f], lossy, heard + [f], OnFrame(l, f))
  {
    LosesSnoc(sent, heard, f);
    assert (heard + [f])[..|heard|] == heard && (sent + [f])[..|sent|] == sent;
    AlikeOnFrame(l, Hear(FRESH, heard), f);
  }

  lemma MissesFrame(sent: seq<Frame>, lossy: bool, heard: seq<Frame>, l: Listener, f: Frame)
    requires HeardOk(sent, lossy, heard, l) && l.attached && f.Net?
    ensures HeardOk(sent + [f], true, heard, l)
  {
    LosesSnoc(sent, heard, f);
  }

  lemma SentGrows(log: seq<Frame>, from: nat, to: nat)
    requires from <= to < |log|
    ensures log[from..to + 1] == log[from..to] + [log[to]]
  {
  }

  lemma DeliverTracks(log: seq<Frame>, delivered: nat, lossy: bool, c: Client)
    requires Tracks(log, delivered, lossy, c) && delivered < |log|
    ensures Tracks(log, delivered + 1, lossy, Notify(c, log[delivered]))
  {
    if c.l.attached {
      SentGrows(log, c.from, delivered);
      HearsFrame(log[c.from..delivered], lossy, c.heard, c.l, log[delivered]);
    }
  }

  lemma LoseTracks(log: seq<Frame>, delivered: nat, lossy: bool, c: Client)
    requires Tracks(log, delivered, lossy, c) && delivered < |log| && log[delivered].Net?
    ensures Tracks(log, delivered + 1, true, PassBy(c))
  {
    if c.l.attached {
      SentGrows(log, c.from, delivered);
      MissesFrame(log[c.from..delivered], lossy, c.heard, c.l, log[delivered]);
    }
  }

  lemma LocalTracks(log: seq<Frame>, delivered: nat, lossy: bool, c: Client, e: Event)
    requires Tracks(log, delivered, lossy, c) && Possible(c.l, e) && !e.Notified?
    ensures Tracks(log, delivered, lossy, c.(l := OnEvent(c.l, e)))
  {
  }

  lemma AttachOk(sys: System)
    requires SystemInv(sys)
    ensures ClientOk(sys, Client(sys.delivered, |sys.svc.tasks|, Quiet(sys), 0, [], FRESH))
  {
    assert sys.svc.tasks[..|sys.svc.tasks|] == sys.svc.tasks;
    assert sys.svc.log[sys.delivered..sys.delivered] == [];
  }

  lemma SystemStep(sys: System, m: Move)
    requires SystemInv(sys) && Can(sys, m)
    ensures SystemInv(Do(sys, m))
  {
    var r := Do(sys, m);
    if m.Serve? {
      InvStep(sys.svc, m.a);
      ExtendsStep(sys.svc, m.a);
    }
    if m.Attach? { AttachOk(sys); }
    forall i | 0 <= i < |r.clients|
      ensures ClientOk(r, r.clients[i])
    {
      if i < |sys.clients| {
        assert ClientOk(sys, sys.clients[i]);
        ClientStep(sys, m, i);
      }
    }
  }

  lemma ClientServed(sys: System, a: Action, c: Client)
    requires SerialEnabled(sys.svc, a) && ClientOk(sys, c)
    ensures ClientOk(sys.(svc := Apply(sys.svc, a)), c)
  {
    var svc := Apply(sys.svc, a);
    ExtendsStep(sys.svc, a);
    TracksLonger(sys.svc.log, svc.log, sys.delivered, sys.lossy, c);
    QuietLonger(sys.svc.tasks, svc.tasks, c);
  }

  lemma ClientStep(sys: System, m: Move, i: nat)
    requires Can(sys, m) && i < |sys.clients| && ClientOk(sys, sys.clients[i])
    ensures ClientOk(Do(sys, m), Do(sys, m).clients[i])
  {
    var c, log := sys.clients[i], sys.svc.log;
    match m
    case Serve(a) => ClientServed(sys, a, c);
    case Attach =>
    case Deliver =>
      DeliverTracks(log, sys.delivered, sys.lossy, c);
      assert Do(sys, m).clients[i] == Notify(c, log[sys.delivered]);
    case Lose =>
      LoseTracks(log, sys.delivered, sys.lossy, c);
      assert Do(sys, m).clients[i] == PassBy(c);
    case Local(k, e) => if k == i { LocalTracks(log, sys.delivered, sys.lossy, c, e); }
  }

  lemma {:induction false} SystemRun(sys: System, moves: seq<Move>)
    requires SystemInv(sys) && IsHistory(sys, moves)
    ensures SystemInv(After(sys, moves))
    decreases |moves|
  {
    if moves != [] {
      SystemStep(sys, moves[0]);
      SystemRun(Do(sys, moves[0]), moves[1..]);
    }
  }

  // ---------- what a resolved listener holds ----------

  /** How many frames of block i went by before the listener attached. */
  function MissedFrames(tasks: seq<Task>, from: nat, i: nat): nat
    requires i < |tasks|
  {
    if from <= StartOf(tasks, i) then 0 else from - StartOf(tasks, i)
  }

  /** The networks of a block of which the first `missed` frames, the begin among them, were missed. */
  function Remaining(nets: seq<Network>, missed: nat): seq<Network> {
    if missed == 0 then nets else if missed <= |nets| + 1 then nets[missed - 1..] else []
  }

  /** What a finished stream tells a listener that missed its first frames. */
  function Verdict(t: Task, missed: nat): Promise {
    match t.pc
    case Finished(Completed) => Resolved(Remaining(t.networks, missed))
    case Finished(Errored(msg)) => Rejected(Remote(Shown(msg)))
    case _ => Pending
  }

  /** A listener attached before the block's begin hears the whole of it. */
  lemma SentWhole(before: seq<Frame>, t: Task)
    requires TaskOk(t) && ClosedBlock(t.block) && FirstTerminatorLast(before + t.block)
    ensures Hear(FRESH, before + t.block).done == Verdict(t, 0)
  {
    var frames := before + t.block;
    ClosedIsFinished(t);
    assert NoTerminator(before) by {
      forall k | 0 <= k < |before| ensures !Terminator(before[k]) {
        assert before[k] == frames[..|frames| - 1][k];
      }
    }
    match t.pc.how
    case Completed => HearBlock(before, t.networks);
    case Errored(msg) =>
      assert frames == frames[..|frames| - 1] + [Err(msg)];
      HearError(frames[..|frames| - 1], msg);
  }

  lemma ClosedIsFinished(t: Task)
    requires TaskOk(t) && ClosedBlock(t.block)
    ensures t.pc.Finished? && t.pc.how != Aborted
  {
    TaskBlockLegal(t);
  }

  lemma RestOfBlock(nets: seq<Network>, d: nat)
    requires 0 < d < |FullBlock(nets)|
    ensures FullBlock(nets)[d..] == NetFrames(nets[d - 1..]) + [End(|nets|)]
  {
  }

  lemma HearRestOfNets(nets: seq<Network>, d: nat)
    requires 0 < d < |FullBlock(nets)|
    ensures Hear(FRESH, FullBlock(nets)[d..]).done == Resolved(nets[d - 1..])
  {
    var rest := nets[d - 1..];
    RestOfBlock(nets, d);
    HearTail(FRESH, rest, |nets|);
    assert [] + rest == rest;
  }

  lemma HearRestOfError(msg: string)
    ensures Hear(FRESH, [Begin, Err(msg)][1..]).done == Rejected(Remote(Shown(msg)))
  {
    HearError([], msg);
    assert [Begin, Err(msg)][1..] == [] + [Err(msg)];
  }

  /** One that attached later hears the rest. */
  lemma SentRest(t: Task, d: nat)
    requires TaskOk(t) && ClosedBlock(t.block) && 0 < d < |t.block|
    ensures Hear(FRESH, t.block[d..]).done == Verdict(t, d)
  {
    ClosedIsFinished(t);
    if t.pc.how.Completed? {
      HearRestOfNets(t.networks, d);
    } else {
      HearRestOfError(t.pc.how.msg);
    }
  }

  /** The frames up to the first terminator after attaching determine the outcome. */
  lemma SentOutcome(tasks: seq<Task>, from: nat, e: nat, i: nat)
    requires i < |tasks| && TaskOk(tasks[i]) && ClosedBlock(tasks[i].block)
    requires from < e == StartOf(tasks, i + 1) <= |Flatten(tasks)| && StartOf(tasks, i) < e
    requires FirstTerminatorLast(Flatten(tasks)[from..e])
    ensures Hear(FRESH, Flatten(tasks)[from..e]).done == Verdict(tasks[i], MissedFrames(tasks, from, i))
  {
    FlattenPrefix(tasks, i);
    SentPart(Flatten(tasks), from, StartOf(tasks, i), e, tasks[i]);
  }

  lemma SentPart(log: seq<Frame>, from: nat, start: nat, e: nat, t: Task)
    requires from < e <= |log| && start < e && log[start..e] == t.block
    requires TaskOk(t) && ClosedBlock(t.block) && FirstTerminatorLast(log[from..e])
    ensures Hear(FRESH, log[from..e]).done == Verdict(t, if from <= start then 0 else from - start)
  {
    if from <= start {
      assert log[from..e] == log[from..start] + t.block;
      SentWhole(log[from..start], t);
    } else {
      assert log[from..e] == t.block[from - start..];
      SentRest(t, from - start);
    }
  }

  // ---------- the first end of a stream settles a listener ----------

  /** The end of stream i has gone by, and is the first to do so since position `from`. */
  ghost predicate FirstEnd(tasks: seq<Task>, delivered: nat, from: nat, i: nat) {
    && i < |tasks| && ClosedBlock(tasks[i].block)
    && from < StartOf(tasks, i + 1) <= delivered && StartOf(tasks, i + 1) <= |Flatten(tasks)|
    && NoTerminator(Flatten(tasks)[from..StartOf(tasks, i + 1) - 1])
  }

  /** What a listener made of a verdict: the verdict itself, but for networks lost on the way. */
  predicate Received(p: Promise, verdict: Promise, lossy: bool) {
    if verdict.Resolved? then
      p.Resolved? && Within(p.nets, verdict.nets) && (!lossy ==> p == verdict)
    else p == verdict
  }

  /** The listener's timer fired first, or its subscription failed before anything settled it. */
  predicate GaveUp(l: Listener) {
    l.done == Rejected(TimedOut) || (l.done.Pending? && l.stage == Left(SubscribeFailed))
  }

  /** The listener settled at the end of stream i, on what it caught of it. */
  predicate SettledOn(tasks: seq<Task>, lossy: bool, c: Client, i: nat)
    requires i < |tasks|
  {
    && c.from + c.span == StartOf(tasks, i + 1)
    && Received(c.l.done, Verdict(tasks[i], MissedFrames(tasks, c.from, i)), lossy)
  }

  lemma HeardVerdict(sent: seq<Frame>, lossy: bool, heard: seq<Frame>, l: Listener)
    requires HeardOk(sent, lossy, heard, l) && FromFrame(l.done)
    ensures Received(l.done, Hear(FRESH, sent).done, lossy)
  {
    LossKeepsOrder(sent, heard);
  }

  lemma {:induction false} LastFrameAt(tasks: seq<Task>, i: nat)
    requires i < |tasks| && ClosedBlock(tasks[i].block)
    ensures StartOf(tasks, i) < StartOf(tasks, i + 1) <= |Flatten(tasks)|
    ensures Terminator(Flatten(tasks)[StartOf(tasks, i + 1) - 1])
  {
    FlattenPrefix(tasks, i);
    BlockEnds(Flatten(tasks), StartOf(tasks, i), StartOf(tasks, i + 1), tasks[i].block);
  }

  lemma BlockEnds(log: seq<Frame>, start: nat, e: nat, block: seq<Frame>)
    requires start <= e <= |log| && log[start..e] == block && block != []
    ensures start < e && log[e - 1] == block[|block| - 1]
  {
  }

  lemma NoneEarlier(log: seq<Frame>, from: nat, to: nat, e: nat)
    requires from <= to <= |log| && NoTerminator(log[from..to])
    requires from < e <= |log| && Terminator(log[e - 1])
    ensures to < e
  {
    forall p | from <= p < to
      ensures !Terminator(log[p])
    {
      assert log[from..to][p - from] == log[p];
    }
  }

  lemma LastOfSent(log: seq<Frame>, from: nat, e: nat)
    requires from <= e <= |log| && FirstTerminatorLast(log[from..e])
    ensures from < e && Terminator(log[e - 1]) && NoTerminator(log[from..e - 1])
  {
    var sent := log[from..e];
    assert sent[|sent| - 1] == log[e - 1] && sent[..|sent| - 1] == log[from..e - 1];
  }

  /** Two ways to the first terminator after `from` lead to the same place. */
  lemma SameEnd(log: seq<Frame>, from: nat, e1: nat, e2: nat)
    requires from < e1 <= |log| && Terminator(log[e1 - 1]) && NoTerminator(log[from..e1 - 1])
    requires from <= e2 <= |log| && FirstTerminatorLast(log[from..e2])
    ensures e1 == e2
  {
    LastOfSent(log, from, e2);
    NoneEarlier(log, from, e1 - 1, e2);
    NoneEarlier(log, from, e2 - 1, e1);
  }

  lemma AttachedMetNoEnd(log: seq<Frame>, delivered: nat, lossy: bool, c: Client, e: nat)
    requires Tracks(log, delivered, lossy, c) && c.from < e <= delivered && Terminator(log[e - 1])
    ensures !c.l.attached
  {
    NoneEarlier(log, c.from, if c.l.attached then c.from + c.span else c.from, e);
  }

  lemma SettledAtFirstEnd(tasks: seq<Task>, delivered: nat, lossy: bool, c: Client, i: nat)
    requires Tracks(Flatten(tasks), delivered, lossy, c) && FirstEnd(tasks, delivered, c.from, i) && TaskOk(tasks[i])
    ensures !c.l.attached && (GaveUp(c.l) || SettledOn(tasks, lossy, c, i))
  {
    var log, e := Flatten(tasks), StartOf(tasks, i + 1);
    LastFrameAt(tasks, i);
    AttachedMetNoEnd(log, delivered, lossy, c, e);
    if FromFrame(c.l.done) {
      SameEnd(log, c.from, e, c.from + c.span);
      SentOutcome(tasks, c.from, e, i);
      HeardVerdict(log[c.from..e], lossy, c.heard, c.l);
    }
  }

  /** The stream at whose end a listener settled. */
  lemma EndOf(tasks: seq<Task>, delivered: nat, lossy: bool, c: Client) returns (i: nat)
    requires forall k :: 0 <= k < |tasks| ==> TaskOk(tasks[k])
    requires Tracks(Flatten(tasks), delivered, lossy, c) && FromFrame(c.l.done)
    ensures FirstEnd(tasks, delivered, c.from, i) && SettledOn(tasks, lossy, c, i)
  {
    LastOfSent(Flatten(tasks), c.from, c.from + c.span);
    i := TerminatorEndsBlock(tasks, c.from + c.span);
    SettledAtFirstEnd(tasks, delivered, lossy, c, i);
  }

  // ---------- main results: every state of every history ----------

  ghost predicate Reached(sys: System) {
    exists moves :: IsHistory(INIT, moves) && After(INIT, moves) == sys
  }

  lemma {:induction false} OneMore(sys: System, moves: seq<Move>, m: Move)
    requires IsHistory(sys, moves) && Can(After(sys, moves), m)
    ensures IsHistory(sys, moves + [m]) && After(sys, moves + [m]) == Do(After(sys, moves), m)
    decreases |moves|
  {
    if moves == [] {
      assert moves + [m] == [m] && [m][1..] == [];
    } else {
      assert (moves + [m])[1..] == moves[1..] + [m];
      OneMore(Do(sys, moves[0]), moves[1..], m);
    }
  }

  lemma ReachedStep(sys: System, m: Move)
    requires Reached(sys) && Can(sys, m)
    ensures Reached(Do(sys, m))
  {
    var moves :| IsHistory(INIT, moves) && After(INIT, moves) == sys;
    OneMore(INIT, moves, m);
  }

  lemma ReachedInv(sys: System)
    requires Reached(sys)
    ensures SystemInv(sys) && forall k :: 0 <= k < |sys.svc.tasks| ==> TaskOk(sys.svc.tasks[k])
  {
    var moves :| IsHistory(INIT, moves) && After(INIT, moves) == sys;
    assert SystemInv(INIT);
    SystemRun(INIT, moves);
  }

  lemma ClientTracks(sys: System, j: nat)
    requires Reached(sys) && j < |sys.clients|
    ensures sys.svc.log == Flatten(sys.svc.tasks)
    ensures Tracks(Flatten(sys.svc.tasks), sys.delivered, sys.lossy, sys.clients[j])
    ensures QuietOk(sys.svc.tasks, sys.clients[j])
  {
    ReachedInv(sys);
    assert ClientOk(sys, sys.clients[j]);
  }

  /** When the end of stream i is the first to have gone by since a listener attached, the listener is
      detached, and unless its own timer or subscription had ended it before, it has settled there:
      resolved with the networks that stream notified after it attached, in order (with a subsequence of
      them if the channel loses nets), or rejected with the stream's message. */
  lemma StreamSettles(sys: System, j: nat, i: nat)
    requires Reached(sys) && j < |sys.clients|
    requires FirstEnd(sys.svc.tasks, sys.delivered, sys.clients[j].from, i)
    ensures var c := sys.clients[j];
      !c.l.attached && (GaveUp(c.l) || SettledOn(sys.svc.tasks, sys.lossy, c, i))
  {
    ReachedInv(sys);
    ClientTracks(sys, j);
    SettledAtFirstEnd(sys.svc.tasks, sys.delivered, sys.lossy, sys.clients[j], i);
  }

  /** Conversely a listener resolves only so: at the first end of a stream since it attached, the stream
      completed, and
      - over a lossless channel it holds exactly the networks of that stream that were notified after
        it attached, in order: all of them if it attached before the stream's begin, whatever
        leftovers it heard first;
      - over a channel that loses nets it holds an in-order subsequence of those. */
  lemma ListenerOutcome(sys: System, j: nat) returns (i: nat)
    requires Reached(sys) && j < |sys.clients| && sys.clients[j].l.done.Resolved?
    ensures FirstEnd(sys.svc.tasks, sys.delivered, sys.clients[j].from, i)
    ensures var c := sys.clients[j];
      && sys.svc.tasks[i].pc == Finished(Completed)
      && StartOf(sys.svc.tasks, i + 1) == c.from + c.span
      && var nets := sys.svc.tasks[i].networks;
      && MissedFrames(sys.svc.tasks, c.from, i) <= |nets| + 1
      && Within(c.l.done.nets, Remaining(nets, MissedFrames(sys.svc.tasks, c.from, i)))
      && (!sys.lossy ==> c.l.done.nets == Remaining(nets, MissedFrames(sys.svc.tasks, c.from, i)))
  {
    ReachedInv(sys);
    ClientTracks(sys, j);
    i := EndOf(sys.svc.tasks, sys.delivered, sys.lossy, sys.clients[j]);
    FlattenPrefix(sys.svc.tasks, i);
    CompletedBlock(sys.svc.tasks[i]);
  }

  /** And it rejects for a remote reason only at the end of a stream that failed, with the message that
      stream notified. */
  lemma ListenerRejection(sys: System, j: nat) returns (i: nat)
    requires Reached(sys) && j < |sys.clients|
    requires var p := sys.clients[j].l.done; p.Rejected? && p.why.Remote?
    ensures FirstEnd(sys.svc.tasks, sys.delivered, sys.clients[j].from, i)
    ensures var c := sys.clients[j];
      && sys.svc.tasks[i].pc.Finished? && sys.svc.tasks[i].pc.how.Errored?
      && StartOf(sys.svc.tasks, i + 1) == c.from + c.span
      && c.l.done == Rejected(Remote(Shown(sys.svc.tasks[i].pc.how.msg)))
  {
    ReachedInv(sys);
    ClientTracks(sys, j);
    i := EndOf(sys.svc.tasks, sys.delivered, sys.lossy, sys.clients[j]);
    ClosedIsFinished(sys.svc.tasks[i]);
  }

  lemma CompletedBlock(t: Task)
    requires TaskOk(t)
    ensures t.pc == Finished(Completed) ==> |t.block| == |t.networks| + 2 && ClosedBlock(t.block)
  {
  }

  lemma {:induction false} FirstTerminator(log: seq<Frame>, from: nat, e: nat) returns (first: nat)
    requires from < e <= |log| && Terminator(log[e - 1])
    ensures from < first <= e && Terminator(log[first - 1]) && NoTerminator(log[from..first - 1])
    decreases e
  {
    if NoTerminator(log[from..e - 1]) {
      first := e;
    } else {
      var k :| 0 <= k < |log[from..e - 1]| && Terminator(log[from..e - 1][k]);
      first := FirstTerminator(log, from, from + k + 1);
    }
  }

  /** Once the end of any stream k has gone by since a listener attached, there is a first such end, of a
      stream no later than k, and it has released the listener: nobody waits for a stream that is over. */
  lemma TerminatorReleases(sys: System, j: nat, k: nat) returns (i: nat)
    requires Reached(sys) && j < |sys.clients| && k < |sys.svc.tasks| && ClosedBlock(sys.svc.tasks[k].block)
    requires sys.clients[j].from < StartOf(sys.svc.tasks, k + 1) <= sys.delivered
    ensures i <= k && FirstEnd(sys.svc.tasks, sys.delivered, sys.clients[j].from, i)
    ensures var c := sys.clients[j];
      !c.l.attached && !c.l.timer && (GaveUp(c.l) || SettledOn(sys.svc.tasks, sys.lossy, c, i))
  {
    ReachedInv(sys);
    ClientTracks(sys, j);
    i := EarliestEnd(sys.svc.tasks, sys.delivered, sys.clients[j].from, k);
    SettledAtFirstEnd(sys.svc.tasks, sys.delivered, sys.lossy, sys.clients[j], i);
  }

  lemma EarliestEnd(tasks: seq<Task>, delivered: nat, from: nat, k: nat) returns (i: nat)
    requires forall n :: 0 <= n < |tasks| ==> TaskOk(tasks[n])
    requires k < |tasks| && ClosedBlock(tasks[k].block) && from < StartOf(tasks, k + 1) <= delivered
    ensures i <= k && FirstEnd(tasks, delivered, from, i)
  {
    LastFrameAt(tasks, k);
    var e := FirstTerminator(Flatten(tasks), from, StartOf(tasks, k + 1));
    i := TerminatorEndsBlock(tasks, e);
    if i > k { StartsGrow(tasks, k + 1, i); }
  }

  /** Over a lossless channel a listener that neither timed out nor failed to subscribe, and for which the
      first end to go by is that of a completed stream, is resolved, and with the stream's whole list
      exactly when it attached before the stream's first net went by: so a stale `end`, of a stream
      already under way, is the one way to a wrong list. */
  lemma WholeListIff(sys: System, j: nat, i: nat)
    requires Reached(sys) && j < |sys.clients| && !sys.lossy && !GaveUp(sys.clients[j].l)
    requires FirstEnd(sys.svc.tasks, sys.delivered, sys.clients[j].from, i)
    requires sys.svc.tasks[i].pc == Finished(Completed)
    ensures var c := sys.clients[j];
      && c.l.done.Resolved?
      && (c.l.done.nets == sys.svc.tasks[i].networks <==> c.from <= StartOf(sys.svc.tasks, i) + 1)
  {
    ReachedInv(sys);
    StreamSettles(sys, j, i);
    FlattenPrefix(sys.svc.tasks, i);
    CompletedBlock(sys.svc.tasks[i]);
  }

  // ---------- the stale end, as it happens ----------

  /** A stream that has found a and b, after `begin` and the first of them. */
  function HalfSent(a: Network, b: Network): Task {
    Task(Sending(1), false, Some([a, b]), [a, b], [Begin, Net(a)])
  }

  function AllSent(a: Network, b: Network): Task {
    Task(Finished(Completed), false, Some([a, b]), [a, b], [Begin, Net(a), Net(b), End(2)])
  }

  function OneStream(t: Task): Service { Service([t], Some(0), [], t.block) }

  lemma HalfSentReached(a: Network, b: Network)
    requires a.signal >= b.signal
    ensures Reached(System(OneStream(HalfSent(a, b)), 0, false, [], []))
  {
    var reply := Found([a, b]);
    var t1 := NEW_TASK.(pc := AfterBegin, block := [Begin]);
    var t2 := t1.(pc := Scanning);
    SortIdentity([a, b]);
    assert IsHistory(INIT, []) && After(INIT, []) == INIT;
    ReachedStep(INIT, Serve(Trigger));
    assert Apply(IDLE, Trigger) == OneStream(NEW_TASK);
    RunReached(NEW_TASK, t1, reply);
    RunReached(t1, t2, reply);
    RunReached(t2, HalfSent(a, b), reply);
  }

  lemma RunReached(t: Task, u: Task, reply: Reply)
    requires Reached(System(OneStream(t), 0, false, [], [])) && ScanStream.Live(t) && u == RunTask(t, reply)
    ensures Reached(System(OneStream(u), 0, false, [], []))
  {
    ReachedStep(System(OneStream(t), 0, false, [], []), Serve(Run(0, reply)));
    RunOneStream(t, reply);
  }

  lemma RunOneStream(t: Task, reply: Reply)
    requires ScanStream.Live(t)
    ensures Apply(OneStream(t), Run(0, reply)) == OneStream(RunTask(t, reply))
  {
    var u := RunTask(t, reply);
    assert t.block + u.block[|t.block|..] == u.block;
    assert [t][0 := u] == [u];
  }

  /** A listener that attaches while a stream is under way: it heard neither the begin nor the first
      network, yet the end settles it, on half of the stream's list. */
  lemma StaleEndKeepsPart(a: Network, b: Network) returns (sys: System)
    requires a.signal >= b.signal
    ensures Reached(sys) && !sys.lossy && |sys.clients| == 1 && |sys.svc.tasks| == 1
    ensures sys.svc.tasks[0].pc == Finished(Completed) && sys.svc.tasks[0].networks == [a, b]
    ensures sys.clients[0].l.done == Resolved([b])
  {
    var half := OneStream(HalfSent(a, b));
    var late := Client(2, 1, false, 0, [], FRESH);
    var s0, s1, s2 := System(half, 0, false, [], []), System(half, 1, false, [true], []),
                      System(half, 2, false, [true, true], []);
    HalfSentReached(a, b);
    ReachedStep(s0, Deliver);
    assert Do(s0, Deliver) == s1;
    ReachedStep(s1, Deliver);
    assert Do(s1, Deliver) == s2;
    ReachedStep(s2, Attach);
    sys := LateListenerSettles(a, b, s2.(clients := [late]));
  }

  lemma LateListenerSettles(a: Network, b: Network, s3: System) returns (sys: System)
    requires s3 == System(OneStream(HalfSent(a, b)), 2, false, [true, true], [Client(2, 1, false, 0, [], FRESH)])
    requires Reached(s3)
    ensures Reached(sys) && !sys.lossy && |sys.clients| == 1 && sys.svc.tasks == [AllSent(a, b)]
    ensures sys.clients[0].l.done == Resolved([b])
  {
    var reply := Found([a, b]);
    var both := HalfSent(a, b).(pc := Sending(2), block := [Begin, Net(a), Net(b)]);
    RunOneStream(HalfSent(a, b), reply);
    RunOneStream(both, reply);
    ReachedStep(s3, Serve(Run(0, reply)));
    var s4 := s3.(svc := OneStream(both));
    assert RunTask(HalfSent(a, b), reply) == both && Do(s3, Serve(Run(0, reply))) == s4;
    ReachedStep(s4, Serve(Run(0, reply)));
    var s5 := s4.(svc := OneStream(AllSent(a, b)));
    assert RunTask(both, reply) == AllSent(a, b) && Do(s4, Serve(Run(0, reply))) == s5;
    ReachedStep(s5, Deliver);
    var s6 := Do(s5, Deliver);
    assert s6.clients[0].l.networks == [b];
    ReachedStep(s6, Deliver);
    sys := Do(s6, Deliver);
  }

  lemma {:induction false} EndAfterPrefix(tasks: seq<Task>, delivered: nat, from: nat, i: nat)
    requires i < |tasks| && TaskOk(tasks[i]) && ClosedBlock(tasks[i].block)
    requires from <= StartOf(tasks, i) <= |Flatten(tasks)| && StartOf(tasks, i + 1) <= delivered
    requires NoTerminator(Flatten(tasks)[from..StartOf(tasks, i)])
    ensures FirstEnd(tasks, delivered, from, i)
  {
    FlattenPrefix(tasks, i);
    TaskBlockLegal(tasks[i]);
    OnlyLastEnds(Flatten(tasks), from, StartOf(tasks, i), StartOf(tasks, i + 1), tasks[i].block);
  }

  lemma OnlyLastEnds(log: seq<Frame>, from: nat, start: nat, e: nat, block: seq<Frame>)
    requires from <= start <= e <= |log| && log[start..e] == block && block != []
    requires NoTerminator(log[from..start]) && forall k :: 0 <= k < |block| - 1 ==> !Terminator(block[k])
    ensures start < e && NoTerminator(log[from..e - 1])
  {
    assert log[from..e - 1] == log[from..start] + block[..|block| - 1];
  }

  /** Stream i completed over a lossless channel and its end has gone by; listener j attached before its
      begin, met no terminator until that begin, and neither timed out nor failed to subscribe. */
  ghost predicate Witnesses(sys: System, j: nat, i: nat) {
    && !sys.lossy && j < |sys.clients| && i < |sys.svc.tasks|
    && sys.svc.tasks[i].pc == Finished(Completed)
    && sys.clients[j].from <= StartOf(sys.svc.tasks, i) <= |sys.svc.log|
    && NoTerminator(sys.svc.log[sys.clients[j].from..StartOf(sys.svc.tasks, i)])
    && StartOf(sys.svc.tasks, i + 1) <= sys.delivered && !GaveUp(sys.clients[j].l)
  }

  /** For every table of raw rows, whatever characters their fields contain but line breaks: if the stream's
      scan read nmcli's rendering of it, the listener is resolved with the stream's networks, and they are
      the table's own reduction. So is the promise its caller holds, once the trigger write is done. */
  lemma {:induction false} TableToPage(sys: System, j: nat, i: nat, table: seq<Row>)
    requires Reached(sys) && Witnesses(sys, j, i)
    requires forall k :: 0 <= k < |table| ==> OneLineRow(table[k])
    requires sys.svc.tasks[i].found == Some(ScanNets(Listing(table), STREAM_LIMIT))
    ensures var p := sys.clients[j].l.done;
      p.Resolved? && p.nets == sys.svc.tasks[i].networks && IsScanResult(Readings(table), STREAM_LIMIT, p.nets)
    ensures sys.clients[j].l.stage.Awaiting? ==> Returned(sys.clients[j].l) == sys.clients[j].l.done
  {
    ReachedInv(sys);
    CompletedBlock(sys.svc.tasks[i]);
    EndAfterPrefix(sys.svc.tasks, sys.delivered, sys.clients[j].from, i);
    WholeListIff(sys, j, i);
    assert FoundOk(sys.svc.tasks[i]);
    TableReduced(table);
  }

  /** End to end, in every state of every history, for all access points whose SSIDs and security names are
      on one line: if the stream's scan read what nmcli lists of them, the listener is resolved, with per SSID
      the strongest access point, strongest first, the first 30, as they are. */
  lemma {:induction false} EndToEnd(sys: System, j: nat, i: nat, aps: seq<AccessPoint>)
    requires Reached(sys) && Witnesses(sys, j, i)
    requires forall k :: 0 <= k < |aps| ==> OneLinePoint(aps[k])
    requires sys.svc.tasks[i].found == Some(ScanNets(Listing(Table(aps)), 30))
    ensures var p := sys.clients[j].l.done; p.Resolved? && IsScanResult(Visible(aps), 30, p.nets)
    ensures sys.clients[j].l.stage.Awaiting? ==> Returned(sys.clients[j].l) == sys.clients[j].l.done
  {
    TableReads(aps);
    TableOneLine(aps);
    TableToPage(sys, j, i, Table(aps));
  }

  lemma TableReduced(table: seq<Row>)
    requires forall k :: 0 <= k < |table| ==> OneLineRow(table[k])
    ensures IsScanResult(Readings(table), STREAM_LIMIT, SortDesc(ScanNets(Listing(table), STREAM_LIMIT)))
  {
    ResortIsIdentity(Listing(table), STREAM_LIMIT);
    ListingReads(table);
    ScanMeetsSpec(Listing(table), STREAM_LIMIT);
  }

  // ---------- a listener that attaches while all is quiet ----------

  lemma JoinQuiet(log: seq<Frame>, s: nat, m: nat, e: nat)
    requires s <= m <= e <= |log| && NoTerminator(log[s..m]) && NoTerminator(log[m..e])
    ensures NoTerminator(log[s..e])
  {
    assert log[s..e] == log[s..m] + log[m..e];
  }

  lemma {:induction false} QuietBlocks(tasks: seq<Task>, a: nat, b: nat)
    requires a <= b <= |tasks| && forall k :: a <= k < b ==> NoTerminator(tasks[k].block)
    ensures StartOf(tasks, a) <= StartOf(tasks, b) <= |Flatten(tasks)|
    ensures NoTerminator(Flatten(tasks)[StartOf(tasks, a)..StartOf(tasks, b)])
    decreases b
  {
    StartsGrow(tasks, a, b);
    if a < b {
      QuietBlocks(tasks, a, b - 1);
      FlattenPrefix(tasks, b - 1);
      JoinQuiet(Flatten(tasks), StartOf(tasks, a), StartOf(tasks, b - 1), StartOf(tasks, b));
    }
  }

  lemma AbortedIsQuiet(t: Task)
    requires TaskOk(t) && t.pc == Finished(Aborted)
    ensures NoTerminator(t.block)
  {
    TaskBlockLegal(t);
  }

  /** A listener that attaches while no stream runs and nothing is in flight cannot meet a stale frame.
      If the streams started since were all aborted but the last, which completed, and its end has
      arrived, then unless it gave up it holds that stream's complete list. */
  lemma QuietListenerResolves(sys: System, j: nat, i: nat)
    requires Reached(sys) && !sys.lossy && j < |sys.clients| && sys.clients[j].quiet && !GaveUp(sys.clients[j].l)
    requires sys.clients[j].tasksBefore <= i < |sys.svc.tasks| && sys.svc.tasks[i].pc == Finished(Completed)
    requires forall k :: sys.clients[j].tasksBefore <= k < i ==> sys.svc.tasks[k].pc == Finished(Aborted)
    requires StartOf(sys.svc.tasks, i + 1) <= sys.delivered
    ensures sys.svc.tasks[i].found.Some?
    ensures sys.clients[j].l.done == Resolved(SortDesc(sys.svc.tasks[i].found.value))
  {
    var tasks, c := sys.svc.tasks, sys.clients[j];
    ReachedInv(sys);
    ClientTracks(sys, j);
    forall k | c.tasksBefore <= k < i
      ensures NoTerminator(tasks[k].block)
    {
      AbortedIsQuiet(tasks[k]);
    }
    QuietBlocks(tasks, c.tasksBefore, i);
    CompletedBlock(tasks[i]);
    EndAfterPrefix(tasks, sys.delivered, c.from, i);
    WholeListIff(sys, j, i);
    assert FoundOk(tasks[i]);
  }

  /** Conversely, whenever such a listener resolves, it holds the complete list of a stream started after
      it attached, the first since then whose end has gone by. */
  lemma QuietListenerIsExact(sys: System, j: nat) returns (i: nat)
    requires Reached(sys) && !sys.lossy && j < |sys.clients|
    requires sys.clients[j].l.done.Resolved? && sys.clients[j].quiet
    ensures FirstEnd(sys.svc.tasks, sys.delivered, sys.clients[j].from, i)
    ensures var c := sys.clients[j];
      && c.tasksBefore <= i && sys.svc.tasks[i].pc == Finished(Completed)
      && StartOf(sys.svc.tasks, i + 1) == c.from + c.span
      && sys.svc.tasks[i].found.Some? && c.l.done.nets == SortDesc(sys.svc.tasks[i].found.value)
  {
    i := ListenerOutcome(sys, j);
    ReachedInv(sys);
    ClientTracks(sys, j);
    QuietBoundary(sys.svc.tasks, sys.clients[j], i);
    assert FoundOk(sys.svc.tasks[i]);
  }

  lemma QuietBoundary(tasks: seq<Task>, c: Client, i: nat)
    requires QuietOk(tasks, c) && c.quiet && i < |tasks| && c.from < StartOf(tasks, i + 1)
    ensures c.tasksBefore <= i && c.from <= StartOf(tasks, i)
  {
    if i < c.tasksBefore {
      StartsGrow(tasks, i + 1, c.tasksBefore);
    } else {
      StartsGrow(tasks, c.tasksBefore, i);
    }
  }

  lemma {:induction false} AttachmentKept(sys: System, moves: seq<Move>, j: nat)
    requires IsHistory(sys, moves) && j < |sys.clients|
    ensures var r := After(sys, moves);
      && j < |r.clients| && r.clients[j].from == sys.clients[j].from
      && r.clients[j].tasksBefore == sys.clients[j].tasksBefore && r.clients[j].quiet == sys.clients[j].quiet
    decreases |moves|
  {
    if moves != [] { AttachmentKept(Do(sys, moves[0]), moves[1..], j); }
  }

  lemma {:induction false} ReachedRun(sys: System, moves: seq<Move>)
    requires Reached(sys) && IsHistory(sys, moves)
    ensures Reached(After(sys, moves))
    decreases |moves|
  {
    if moves != [] {
      ReachedStep(sys, moves[0]);
      ReachedRun(Do(sys, moves[0]), moves[1..]);
    }
  }

  /** The two seen from the attachment on: `streamWifi` is called while no stream is live and every frame has
      been delivered, and then anything happens. If nothing was ever lost, the first stream since that was
      not aborted, once it has completed and its end has arrived, is what the listener resolves with. */
  lemma {:induction false} NextStreamResolves(sys: System, moves: seq<Move>, i: nat)
    requires Reached(sys) && sys.delivered == |sys.svc.log|
    requires forall k :: 0 <= k < |sys.svc.tasks| ==> !ScanStream.Live(sys.svc.tasks[k])
    requires IsHistory(Do(sys, Attach), moves)
    ensures var r := After(Do(sys, Attach), moves);
      && |sys.clients| < |r.clients|
      && (&& !r.lossy && !GaveUp(r.clients[|sys.clients|].l)
          && |sys.svc.tasks| <= i < |r.svc.tasks| && r.svc.tasks[i].pc == Finished(Completed)
          && (forall k :: |sys.svc.tasks| <= k < i ==> r.svc.tasks[k].pc == Finished(Aborted))
          && StartOf(r.svc.tasks, i + 1) <= r.delivered
          ==>
          && r.svc.tasks[i].found.Some?
          && r.clients[|sys.clients|].l.done == Resolved(SortDesc(r.svc.tasks[i].found.value)))
  {
    var j, s1 := |sys.clients|, Do(sys, Attach);
    var r := After(s1, moves);
    ReachedStep(sys, Attach);
    ReachedRun(s1, moves);
    AttachmentKept(s1, moves, j);
    if && !r.lossy && !GaveUp(r.clients[j].l)
       && |sys.svc.tasks| <= i < |r.svc.tasks| && r.svc.tasks[i].pc == Finished(Completed)
       && (forall k :: |sys.svc.tasks| <= k < i ==> r.svc.tasks[k].pc == Finished(Aborted))
       && StartOf(r.svc.tasks, i + 1) <= r.delivered
    {
      QuietListenerResolves(r, j, i);
    }
  }

  // ---------- a lost network, as it happens ----------

  lemma HalfSentTo(a: Network, b: Network) returns (sys: System)
    requires a.signal >= b.signal
    ensures Reached(sys) && sys.svc == OneStream(HalfSent(a, b)) && sys.delivered == 1 && !sys.lossy
    ensures sys.clients == [Client(0, 1, false, 1, [Begin], FRESH.(calls := [OnBegin]))]
  {
    HalfSentReached(a, b);
    sys := System(OneStream(HalfSent(a, b)), 0, false, [], []);
    var first := Client(0, 1, false, 0, [], FRESH);
    ReachedStep(sys, Attach);
    sys := Do(sys, Attach);
    assert sys.clients == [first];
    ReachedStep(sys, Deliver);
    sys := Do(sys, Deliver);
    assert sys.clients == [Notify(first, Begin)];
    assert [] + [Begin] == [Begin] && [] + [OnBegin] == [OnBegin];
  }

  /** The channel may lose any network, and the listener then resolves without it: a history for any two. */
  lemma LostNetIsMissing(a: Network, b: Network) returns (sys: System)
    requires a.signal >= b.signal
    ensures Reached(sys) && sys.lossy && sys.svc.tasks == [AllSent(a, b)] && |sys.clients| == 1
    ensures sys.clients[0].from == 0 && sys.clients[0].l.done == Resolved([b])
  {
    var reply := Found([a, b]);
    var both := HalfSent(a, b).(pc := Sending(2), block := [Begin, Net(a), Net(b)]);
    RunOneStream(HalfSent(a, b), reply);
    RunOneStream(both, reply);
    sys := HalfSentTo(a, b);
    ReachedStep(sys, Lose);
    sys := Do(sys, Lose);
    assert RunTask(HalfSent(a, b), reply) == both;
    ReachedStep(sys, Serve(Run(0, reply)));
    sys := Do(sys, Serve(Run(0, reply)));
    assert RunTask(both, reply) == AllSent(a, b);
    ReachedStep(sys, Serve(Run(0, reply)));
    sys := Do(sys, Serve(Run(0, reply)));
    ReachedStep(sys, Deliver);
    sys := Do(sys, Deliver);
    assert sys.clients[0].l.networks == [b];
    ReachedStep(sys, Deliver);
    sys := Do(sys, Deliver);
  }
}
