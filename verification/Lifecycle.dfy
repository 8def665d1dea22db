/** The service's other tasks and its shutdown, around the scan machine: the periodic status loop, the
    staged refreshes after a successful connect, and any number of calls of `shutdown`, each of which may
    itself be suspended while everything else goes on. */
module Lifecycle {
  import opened Text
  import opened ScanStream

  /** `_status_loop`: at its loop head, inside one of the two halves of a refresh, waiting for the stop
      event or ten seconds, or over. */
  datatype StatusPc = Entry | Refreshing(part: nat) | Waiting | Over

  datatype StatusTask = StatusTask(pc: StatusPc, cancelling: bool)

  /** `_delayed_refreshes`: sleeping its k-th delay, inside the k-th refresh, or over. */
  datatype DelayPc = Sleeping(k: nat) | Pushing(k: nat, part: nat) | Done

  const DELAYS_MS: seq<nat> := [2000, 5000, 10000]

  /** A call of `shutdown`: awaiting the status task with the stream task it noted when it was called,
      awaiting that stream task, closing the peripheral (which may take any time), or returned. */
  datatype ShutPc = AwaitStatus(scan: Option<nat>) | AwaitScan(t: nat) | Closing | Returned

  /** What the two kinds of refreshing tasks do visibly. */
  datatype Note = StatusBegan | StatusPush(part: nat) | DelayBegan(d: nat) | DelayPush(d: nat, part: nat)

  datatype Life = Life(svc: Service, stop: bool, status: Option<StatusTask>, delayed: seq<DelayPc>,
                       shuts: seq<ShutPc>, notes: seq<Note>)

  /** Stream: a step of the scan machine. StatusRun / DelayRun: the task is resumed, and the half of the
      refresh it was in succeeded or not. Connected: a connect succeeded. ShutdownResume(h): the h-th call
      of `shutdown` goes on. */
  datatype Step = Stream(a: Action) | StatusRun(ok: bool) | StatusCancelLands | DelayRun(d: nat, ok: bool)
                | Connected | Shutdown | ShutdownResume(h: nat)

  predicate StatusOver(l: Life) { l.status.Some? ==> l.status.value.pc.Over? }

  predicate May(l: Life, s: Step) {
    match s
    case Stream(a) => SerialEnabled(l.svc, a)
    case StatusRun(_) => l.status.Some? && !l.status.value.pc.Over?
    case StatusCancelLands => l.status.Some? && !l.status.value.pc.Over? && l.status.value.cancelling
    case DelayRun(d, _) => d < |l.delayed| && !l.delayed[d].Done?
    case Connected => true
    case Shutdown => true
    case ShutdownResume(h) =>
      && h < |l.shuts|
      && (match l.shuts[h]
          case AwaitStatus(_) => StatusOver(l)
          case AwaitScan(t) => !LiveAt(l.svc, t)
          case Closing => true
          case Returned => false)
  }

  function SetStatus(l: Life, pc: StatusPc): Life
    requires l.status.Some?
  {
    l.(status := Some(l.status.value.(pc := pc)))
  }

  function RunStatus(l: Life, ok: bool): Life
    requires l.status.Some?
  {
    match l.status.value.pc
    case Refreshing(part) =>
      SetStatus(l, if part == 0 then Refreshing(1) else Waiting)
        .(notes := l.notes + if ok then [StatusPush(part)] else [])
    case _ =>
      if l.stop then SetStatus(l, Over)
      else SetStatus(l, Refreshing(0)).(notes := l.notes + [StatusBegan])
  }

  function RunDelay(l: Life, d: nat, ok: bool): Life
    requires d < |l.delayed|
  {
    match l.delayed[d]
    case Sleeping(k) =>
      if l.stop then l.(delayed := l.delayed[d := Done])
      else l.(delayed := l.delayed[d := Pushing(k, 0)], notes := l.notes + [DelayBegan(d)])
    case Pushing(k, part) =>
      l.(delayed := l.delayed[d := if part == 0 then Pushing(k, 1)
                                   else if k + 1 < |DELAYS_MS| then Sleeping(k + 1) else Done],
         notes := l.notes + if ok then [DelayPush(d, part)] else [])
    case Done => l
  }

  /** The second turn of `shutdown`'s loop: cancel the stream task it had noted, and await it. */
  function CancelNoted(svc: Service, scan: Option<nat>): Service {
    match scan case Some(t) => RequestCancel(svc, t) case None => svc
  }

  function AfterCancel(scan: Option<nat>): ShutPc {
    match scan case Some(t) => AwaitScan(t) case None => Closing
  }

  function Next(l: Life, s: Step): Life
    requires May(l, s)
  {
    match s
    case Stream(a) => l.(svc := Apply(l.svc, a))
    case StatusRun(ok) => RunStatus(l, ok)
    case StatusCancelLands => SetStatus(l, Over)
    case DelayRun(d, ok) => RunDelay(l, d, ok)
    case Connected => l.(delayed := l.delayed + [Sleeping(0)])
    case Shutdown =>
      if l.status.Some?
      then l.(stop := true, status := Some(l.status.value.(cancelling := true)),
              shuts := l.shuts + [AwaitStatus(l.svc.scanTask)])
      else l.(stop := true, svc := CancelNoted(l.svc, l.svc.scanTask), shuts := l.shuts + [AfterCancel(l.svc.scanTask)])
    case ShutdownResume(h) =>
      if l.shuts[h].AwaitStatus?
      then l.(svc := CancelNoted(l.svc, l.shuts[h].scan), shuts := l.shuts[h := AfterCancel(l.shuts[h].scan)])
      else l.(shuts := l.shuts[h := if l.shuts[h].AwaitScan? then Closing else Returned])
  }

  predicate IsCourse(l: Life, steps: seq<Step>)
    decreases |steps|
  {
    steps == [] || (May(l, steps[0]) && IsCourse(Next(l, steps[0]), steps[1..]))
  }

  function Ahead(l: Life, steps: seq<Step>): Life
    requires IsCourse(l, steps)
    decreases |steps|
  {
    if steps == [] then l else Ahead(Next(l, steps[0]), steps[1..])
  }

  lemma ConsCourse(l: Life, s: Step, rest: seq<Step>)
    requires May(l, s) && IsCourse(Next(l, s), rest)
    ensures IsCourse(l, [s] + rest) && Ahead(l, [s] + rest) == Ahead(Next(l, s), rest)
  {
    assert ([s] + rest)[1..] == rest;
  }

  // ---------- before it: the loops do refresh ----------

  /** The notes of a refresh whose halves succeed as told. */
  function Turn(begin: Note, ok: bool, first: Note, ok': bool, second: Note): seq<Note> {
    [begin] + (if ok then [first] else []) + (if ok' then [second] else [])
  }

  predicate Idling(l: Life) {
    l.status.Some? && (l.status.value.pc.Entry? || l.status.value.pc.Waiting?)
  }

  lemma Thrice(l: Life, a: Step, b: Step, c: Step)
    requires May(l, a) && May(Next(l, a), b) && May(Next(Next(l, a), b), c)
    ensures IsCourse(l, [a, b, c]) && Ahead(l, [a, b, c]) == Next(Next(Next(l, a), b), c)
  {
    var l1 := Next(l, a);
    var l2 := Next(l1, b);
    ConsCourse(l2, c, []);
    ConsCourse(l1, b, [c] + []);
    ConsCourse(l, a, [b] + ([c] + []));
    assert [a] + ([b] + ([c] + [])) == [a, b, c];
  }

  /** One turn of the status loop while nobody has stopped it: three resumptions begin a refresh and push
      the status and the addresses, each unless it fails, and the loop waits again. */
  lemma StatusTurn(l: Life, first: bool, second: bool)
    requires Idling(l) && !l.stop
    ensures var turn := [StatusRun(true), StatusRun(first), StatusRun(second)];
      && IsCourse(l, turn)
      && Ahead(l, turn).status == Some(StatusTask(Waiting, l.status.value.cancelling))
      && Ahead(l, turn).notes == l.notes + Turn(StatusBegan, first, StatusPush(0), second, StatusPush(1))
  {
    Thrice(l, StatusRun(true), StatusRun(first), StatusRun(second));
    JoinNotes(l.notes, [StatusBegan], if first then [StatusPush(0)] else [], if second then [StatusPush(1)] else []);
  }

  lemma JoinNotes(notes: seq<Note>, a: seq<Note>, b: seq<Note>, c: seq<Note>)
    ensures notes + a + b + c == notes + (a + b + c)
  {
  }

  function StatusRuns(steps: seq<Step>): nat {
    if steps == [] then 0 else (if steps[0].StatusRun? then 1 else 0) + StatusRuns(steps[1..])
  }

  function Count(notes: seq<Note>, n: Note): nat {
    if notes == [] then 0 else Count(notes[..|notes| - 1], n) + if notes[|notes| - 1] == n then 1 else 0
  }

  predicate ShutdownFree(steps: seq<Step>) {
    forall i :: 0 <= i < |steps| ==> !steps[i].Shutdown?
  }

  lemma CountMore(notes: seq<Note>, more: seq<Note>, n: Note)
    requires |more| <= 1
    ensures Count(notes + more, n) == Count(notes, n) + if more == [n] then 1 else 0
  {
    if more == [] { assert notes + more == notes; } else { assert (notes + more)[..|notes|] == notes; }
  }

  /** Resumptions until the turn is over. */
  function TurnLeft(pc: StatusPc): int {
    match pc case Refreshing(part) => (if part == 0 then 2 else 1) case _ => 0
  }

  /** The status loop has not been stopped, cancelled or finished. */
  predicate Looping(l: Life) {
    !l.stop && l.status.Some? && !l.status.value.pc.Over? && !l.status.value.cancelling
  }

  lemma StatusProgress(l: Life, s: Step)
    requires Looping(l) && May(l, s) && !s.Shutdown?
    ensures var r := Next(l, s);
      && Looping(r)
      && 3 * Count(r.notes, StatusBegan) - TurnLeft(r.status.value.pc)
           == 3 * Count(l.notes, StatusBegan) - TurnLeft(l.status.value.pc) + (if s.StatusRun? then 1 else 0)
  {
    var more := Next(l, s).notes[|l.notes|..];
    assert Next(l, s).notes == l.notes + more;
    CountMore(l.notes, more, StatusBegan);
  }

  /** In every course without a shutdown the refreshes begun follow from the resumptions of the status loop:
      three of them make a turn, and each turn begins one. */
  lemma {:induction false} StatusLoopRefreshes(l: Life, steps: seq<Step>)
    requires Looping(l) && IsCourse(l, steps) && ShutdownFree(steps)
    ensures var r := Ahead(l, steps);
      && Looping(r)
      && 3 * Count(r.notes, StatusBegan) - TurnLeft(r.status.value.pc)
           == 3 * Count(l.notes, StatusBegan) - TurnLeft(l.status.value.pc) + StatusRuns(steps)
    decreases |steps|
  {
    if steps != [] {
      StatusProgress(l, steps[0]);
      assert forall i :: 0 <= i < |steps[1..]| ==> steps[1..][i] == steps[i + 1];
      StatusLoopRefreshes(Next(l, steps[0]), steps[1..]);
    }
  }

  lemma DelayBegins(l: Life, d: nat, k: nat, ok: bool)
    requires d < |l.delayed| && l.delayed[d] == Sleeping(k) && !l.stop
    ensures May(l, DelayRun(d, ok))
    ensures Next(l, DelayRun(d, ok)) == l.(delayed := l.delayed[d := Pushing(k, 0)], notes := l.notes + [DelayBegan(d)])
  {
  }

  function AfterPush(k: nat, part: nat): DelayPc {
    if part == 0 then Pushing(k, 1) else if k + 1 < 3 then Sleeping(k + 1) else Done
  }

  lemma LastCounts(ps: seq<DelayPc>, d: nat, p: DelayPc, q: DelayPc, r: DelayPc)
    requires d < |ps|
    ensures ps[d := p][d := q][d := r] == ps[d := r]
  {
  }

  lemma DelayPushes(l: Life, d: nat, k: nat, part: nat, ok: bool)
    requires d < |l.delayed| && l.delayed[d] == Pushing(k, part)
    ensures May(l, DelayRun(d, ok))
    ensures Next(l, DelayRun(d, ok)) ==
      l.(delayed := l.delayed[d := AfterPush(k, part)], notes := l.notes + if ok then [DelayPush(d, part)] else [])
  {
  }

  /** A staged refresh, while nobody has stopped the service: the k-th delay is followed by a refresh of its
      two parts, and then by the next delay or, after the third, the end. */
  lemma DelayTurn(l: Life, d: nat, k: nat, first: bool, second: bool)
    requires d < |l.delayed| && l.delayed[d] == Sleeping(k) && !l.stop
    ensures var turn := [DelayRun(d, true), DelayRun(d, first), DelayRun(d, second)];
      && IsCourse(l, turn)
      && Ahead(l, turn).delayed == l.delayed[d := if k + 1 < 3 then Sleeping(k + 1) else Done]
      && Ahead(l, turn).notes == l.notes + Turn(DelayBegan(d), first, DelayPush(d, 0), second, DelayPush(d, 1))
  {
    var l1 := Next(l, DelayRun(d, true));
    DelayBegins(l, d, k, true);
    DelayPushes(l1, d, k, 0, first);
    DelayPushes(Next(l1, DelayRun(d, first)), d, k, 1, second);
    Thrice(l, DelayRun(d, true), DelayRun(d, first), DelayRun(d, second));
    LastCounts(l.delayed, d, Pushing(k, 0), Pushing(k, 1), AfterPush(k, 1));
    JoinNotes(l.notes, [DelayBegan(d)],
              if first then [DelayPush(d, 0)] else [], if second then [DelayPush(d, 1)] else []);
  }

  function DelayRuns(steps: seq<Step>, d: nat): nat {
    if steps == [] then 0
    else (if steps[0].DelayRun? && steps[0].d == d then 1 else 0) + DelayRuns(steps[1..], d)
  }

  /** Refreshes a staged task has begun. */
  function Begun(p: DelayPc): nat {
    match p case Sleeping(k) => k case Pushing(k, _) => k + 1 case Done => 3
  }

  function PushLeft(p: DelayPc): int {
    match p case Pushing(_, part) => (if part == 0 then 2 else 1) case _ => 0
  }

  predicate InStage(p: DelayPc) {
    match p case Sleeping(k) => k < 3 case Pushing(k, _) => k < 3 case Done => true
  }

  lemma DelayProgress(l: Life, s: Step, d: nat)
    requires !l.stop && May(l, s) && !s.Shutdown? && d < |l.delayed| && InStage(l.delayed[d])
    ensures var r := Next(l, s);
      && !r.stop && |l.delayed| <= |r.delayed| && InStage(r.delayed[d])
      && Count(r.notes, DelayBegan(d)) - Begun(r.delayed[d]) == Count(l.notes, DelayBegan(d)) - Begun(l.delayed[d])
      && 3 * Begun(r.delayed[d]) - PushLeft(r.delayed[d])
           == 3 * Begun(l.delayed[d]) - PushLeft(l.delayed[d]) + (if s.DelayRun? && s.d == d then 1 else 0)
  {
    if s.DelayRun? && s.d == d {
      match l.delayed[d] {
        case Sleeping(k) =>
          DelayBegins(l, d, k, s.ok);
          CountMore(l.notes, [DelayBegan(d)], DelayBegan(d));
        case Pushing(k, part) =>
          DelayPushes(l, d, k, part, s.ok);
          CountMore(l.notes, if s.ok then [DelayPush(d, part)] else [], DelayBegan(d));
      }
    } else {
      OthersNotes(l, s, d);
    }
  }

  /** What else happens neither moves the d-th staged task nor notes a begin of its. */
  lemma OthersNotes(l: Life, s: Step, d: nat)
    requires !l.stop && May(l, s) && !s.Shutdown? && d < |l.delayed| && !(s.DelayRun? && s.d == d)
    ensures var r := Next(l, s);
      && !r.stop && |l.delayed| <= |r.delayed| && r.delayed[d] == l.delayed[d]
      && Count(r.notes, DelayBegan(d)) == Count(l.notes, DelayBegan(d))
  {
    var more := Next(l, s).notes[|l.notes|..];
    assert Next(l, s).notes == l.notes + more;
    CountMore(l.notes, more, DelayBegan(d));
  }

  /** In every course without a shutdown a staged task begins its refreshes one by one as it is resumed, three
      resumptions each, and is done after the third: what the notes show and where it stands agree. */
  lemma {:induction false} StagedTaskRefreshes(l: Life, steps: seq<Step>, d: nat)
    requires !l.stop && d < |l.delayed| && InStage(l.delayed[d]) && IsCourse(l, steps) && ShutdownFree(steps)
    ensures var r := Ahead(l, steps);
      && d < |r.delayed| && InStage(r.delayed[d])
      && Count(r.notes, DelayBegan(d)) - Begun(r.delayed[d]) == Count(l.notes, DelayBegan(d)) - Begun(l.delayed[d])
      && 3 * Begun(r.delayed[d]) - PushLeft(r.delayed[d])
           == 3 * Begun(l.delayed[d]) - PushLeft(l.delayed[d]) + DelayRuns(steps, d)
    decreases |steps|
  {
    if steps != [] {
      DelayProgress(l, steps[0], d);
      assert forall i :: 0 <= i < |steps[1..]| ==> steps[1..][i] == steps[i + 1];
      StagedTaskRefreshes(Next(l, steps[0]), steps[1..], d);
    }
  }

  /** Every connect that succeeds starts one staged task of its own, at its first delay. */
  lemma ConnectStages(l: Life)
    ensures May(l, Connected) && Next(l, Connected) == l.(delayed := l.delayed + [Sleeping(0)])
  {
  }

  // ---------- after the stop event ----------

  predicate Began(n: Note) { n.StatusBegan? || n.DelayBegan? }

  /** Once the stop event is set no refresh begins any more, neither in the status loop nor staged after a connect. */
  lemma {:induction false} NoRefreshAfterStop(l: Life, steps: seq<Step>)
    requires l.stop && IsCourse(l, steps)
    ensures var r := Ahead(l, steps);
      r.stop && l.notes <= r.notes && forall i :: |l.notes| <= i < |r.notes| ==> !Began(r.notes[i])
    decreases |steps|
  {
    if steps != [] {
      NoRefreshAfterStop(Next(l, steps[0]), steps[1..]);
    }
  }

  function StatusLeft(s: Option<StatusTask>): nat {
    match s
    case None => 0
    case Some(t) => match t.pc case Refreshing(part) => (if part == 0 then 3 else 2) case Over => 0 case _ => 1
  }

  function DelayLeft(p: DelayPc): nat {
    match p case Pushing(_, part) => (if part == 0 then 3 else 2) case Sleeping(_) => 1 case Done => 0
  }

  function DelaysLeft(ps: seq<DelayPc>): nat {
    if ps == [] then 0 else DelaysLeft(ps[..|ps| - 1]) + DelayLeft(ps[|ps| - 1])
  }

  /** Resumptions the loops have left once the stop event is set. */
  function LoopsLeft(l: Life): nat { StatusLeft(l.status) + DelaysLeft(l.delayed) }

  predicate LoopStep(s: Step) { s.StatusRun? || s.StatusCancelLands? || s.DelayRun? }

  function LoopSteps(steps: seq<Step>): nat {
    if steps == [] then 0 else (if LoopStep(steps[0]) then 1 else 0) + LoopSteps(steps[1..])
  }

  function Connects(steps: seq<Step>): nat {
    if steps == [] then 0 else (if steps[0].Connected? then 1 else 0) + Connects(steps[1..])
  }

  lemma {:induction false} DelaysLeftUpdate(ps: seq<DelayPc>, d: nat, p: DelayPc)
    requires d < |ps|
    ensures DelaysLeft(ps[d := p]) + DelayLeft(ps[d]) == DelaysLeft(ps) + DelayLeft(p)
  {
    var n := |ps| - 1;
    if d == n {
      assert ps[d := p][..n] == ps[..n];
    } else {
      DelaysLeftUpdate(ps[..n], d, p);
      assert ps[d := p][..n] == ps[..n][d := p];
    }
  }

  lemma LoopStepDrains(l: Life, s: Step)
    requires l.stop && May(l, s)
    ensures LoopsLeft(Next(l, s)) + (if LoopStep(s) then 1 else 0) <= LoopsLeft(l) + (if s.Connected? then 1 else 0)
  {
    if s.DelayRun? { DelaysLeftUpdate(l.delayed, s.d, Next(l, s).delayed[s.d]); }
    if s.Connected? { assert Next(l, s).delayed[..|l.delayed|] == l.delayed; }
  }

  /** Both kinds of loops end: after the stop event they are resumed at most three times each (once for
      a task that is asleep), plus once for every connect that still succeeds. */
  lemma {:induction false} LoopsEnd(l: Life, steps: seq<Step>)
    requires l.stop && IsCourse(l, steps)
    ensures LoopSteps(steps) + LoopsLeft(Ahead(l, steps)) <= LoopsLeft(l) + Connects(steps)
    decreases |steps|
  {
    if steps != [] {
      LoopStepDrains(l, steps[0]);
      LoopsEnd(Next(l, steps[0]), steps[1..]);
    }
  }

  // ---------- shutdown ----------

  predicate TriggerFree(steps: seq<Step>) {
    forall i :: 0 <= i < |steps| ==> !(steps[i].Stream? && steps[i].a.Trigger?)
  }

  /** Nothing of the status loop or the scan is left to run. */
  ghost predicate Silent(l: Life) {
    && l.stop && Inv(l.svc) && l.svc.waiting == []
    && StatusOver(l) && !LiveAt(l.svc, |l.svc.tasks| - 1)
  }

  /** What holds of the k-th call of `shutdown` from its start on, if no handler was suspended then and
      no trigger comes. */
  ghost predicate ShuttingDown(l: Life, k: nat) {
    && l.stop && Inv(l.svc) && l.svc.waiting == [] && k < |l.shuts|
    && match l.shuts[k]
       case AwaitStatus(scan) => scan == l.svc.scanTask
       case AwaitScan(t) => StatusOver(l) && l.svc.scanTask == Some(t)
       case _ => StatusOver(l) && !LiveAt(l.svc, |l.svc.tasks| - 1)
  }

  lemma CancelNotedKeeps(s: Service, scan: Option<nat>)
    requires Inv(s)
    ensures var r := CancelNoted(s, scan);
      Inv(r) && r.waiting == s.waiting && r.scanTask == s.scanTask && |r.tasks| == |s.tasks| && r.log == s.log
      && (scan.Some? && LiveAt(s, scan.value) ==> r.tasks[scan.value].cancelling)
      && forall t :: LiveAt(r, t) <==> LiveAt(s, t)
  {
    if scan.Some? && LiveAt(s, scan.value) {
      OnlyLastLive(s, scan.value);
      CancelKeepsInv(s, scan.value);
    }
  }

  lemma ShuttingDownScan(l: Life, k: nat, a: Action)
    requires ShuttingDown(l, k) && SerialEnabled(l.svc, a) && !a.Trigger?
    ensures ShuttingDown(l.(svc := Apply(l.svc, a)), k)
  {
    InvStep(l.svc, a);
  }

  lemma ShuttingDownResume(l: Life, k: nat, h: nat)
    requires ShuttingDown(l, k) && May(l, ShutdownResume(h))
    ensures ShuttingDown(Next(l, ShutdownResume(h)), k)
  {
    if l.shuts[h].AwaitStatus? { CancelNotedKeeps(l.svc, l.shuts[h].scan); }
  }

  lemma ShuttingDownAgain(l: Life, k: nat)
    requires ShuttingDown(l, k)
    ensures ShuttingDown(Next(l, Shutdown), k)
  {
    CancelNotedKeeps(l.svc, l.svc.scanTask);
    assert Next(l, Shutdown).shuts[k] == l.shuts[k];
  }

  lemma ShutdownStarts(l: Life)
    requires Inv(l.svc) && l.svc.waiting == []
    ensures ShuttingDown(Next(l, Shutdown), |l.shuts|)
  {
    CancelNotedKeeps(l.svc, l.svc.scanTask);
  }

  lemma ShuttingDownStep(l: Life, k: nat, s: Step)
    requires ShuttingDown(l, k) && May(l, s) && !(s.Stream? && s.a.Trigger?)
    ensures ShuttingDown(Next(l, s), k)
  {
    match s
    case Stream(a) => ShuttingDownScan(l, k, a);
    case Shutdown => ShuttingDownAgain(l, k);
    case ShutdownResume(h) => ShuttingDownResume(l, k, h);
    case _ =>
  }

  lemma {:induction false} ShuttingDownRun(l: Life, k: nat, steps: seq<Step>)
    requires ShuttingDown(l, k) && IsCourse(l, steps) && TriggerFree(steps)
    ensures ShuttingDown(Ahead(l, steps), k)
    decreases |steps|
  {
    if steps != [] {
      ShuttingDownStep(l, k, steps[0]);
      assert TriggerFree(steps[1..]);
      ShuttingDownRun(Next(l, steps[0]), k, steps[1..]);
    }
  }

  function StatusNotes(notes: seq<Note>): seq<Note> {
    if notes == [] then []
    else
      var n := notes[|notes| - 1];
      StatusNotes(notes[..|notes| - 1]) + if n.StatusBegan? || n.StatusPush? then [n] else []
  }

  lemma DelayKeepsStatusNotes(l: Life, d: nat, ok: bool)
    requires d < |l.delayed|
    ensures var r := RunDelay(l, d, ok);
      StatusNotes(r.notes) == StatusNotes(l.notes) && r.svc == l.svc && r.stop == l.stop && r.status == l.status
  {
    var now := RunDelay(l, d, ok).notes;
    if |now| > |l.notes| {
      assert now[..|l.notes|] == l.notes;
    } else {
      assert now == l.notes;
    }
  }

  /** With no live stream and no suspended handler only a trigger can move the scan machine. */
  lemma ScanStill(s: Service, a: Action)
    requires Inv(s) && s.waiting == [] && !LiveAt(s, |s.tasks| - 1) && !a.Trigger?
    ensures !Enabled(s, a)
  {
  }

  lemma SilentShut(l: Life, s: Step)
    requires Silent(l) && May(l, s) && (s.Shutdown? || s.ShutdownResume?)
    ensures Next(l, s).svc == l.svc && Silent(Next(l, s)) && Next(l, s).notes == l.notes
  {
    var scan := if s.Shutdown? then l.svc.scanTask else if l.shuts[s.h].AwaitStatus? then l.shuts[s.h].scan else None;
    if scan.Some? { CancelStill(l.svc, scan.value); }
  }

  /** Cancelling what is over changes nothing. */
  lemma CancelStill(s: Service, t: nat)
    requires Inv(s) && !LiveAt(s, |s.tasks| - 1)
    ensures RequestCancel(s, t) == s
  {
  }

  lemma SilentStep(l: Life, s: Step)
    requires Silent(l) && May(l, s) && !s.Stream?
    ensures Silent(Next(l, s)) && Next(l, s).svc == l.svc
    ensures StatusNotes(Next(l, s).notes) == StatusNotes(l.notes)
  {
    if s.DelayRun? { DelayKeepsStatusNotes(l, s.d, s.ok); }
    else if s.Shutdown? || s.ShutdownResume? { SilentShut(l, s); }
  }

  lemma {:induction false} SilentRun(l: Life, steps: seq<Step>)
    requires Silent(l) && IsCourse(l, steps) && TriggerFree(steps)
    ensures var r := Ahead(l, steps);
      Silent(r) && r.svc == l.svc && StatusNotes(r.notes) == StatusNotes(l.notes)
    decreases |steps|
  {
    if steps != [] {
      if steps[0].Stream? { ScanStill(l.svc, steps[0].a); }
      SilentStep(l, steps[0]);
      assert TriggerFree(steps[1..]);
      SilentRun(Next(l, steps[0]), steps[1..]);
    }
  }

  /** The call of `shutdown` made in state l returns in the course `until`. */
  predicate ReturnsIn(l: Life, until: seq<Step>) {
    && IsCourse(Next(l, Shutdown), until)
    && var m := Ahead(Next(l, Shutdown), until); |l.shuts| < |m.shuts| && m.shuts[|l.shuts|].Returned?
  }

  /** If no trigger handler is suspended when `shutdown` is called and no trigger arrives afterwards,
      then once that call has returned neither the status loop nor any stream emits anything, on every
      continuation, whatever other calls of `shutdown` are under way or follow; and no stream task is
      ever started. */
  lemma QuietAfterShutdown(l: Life, until: seq<Step>, beyond: seq<Step>)
    requires Inv(l.svc) && l.svc.waiting == []
    requires ReturnsIn(l, until) && TriggerFree(until)
    requires IsCourse(Ahead(Next(l, Shutdown), until), beyond) && TriggerFree(beyond)
    ensures var m := Ahead(Next(l, Shutdown), until);
      var r := Ahead(m, beyond);
      r.svc == m.svc && StatusNotes(r.notes) == StatusNotes(m.notes)
  {
    ShutdownStarts(l);
    ShuttingDownRun(Next(l, Shutdown), |l.shuts|, until);
    SilentRun(Ahead(Next(l, Shutdown), until), beyond);
  }

  /** A stream frame can be emitted after the call of `shutdown` has returned, with no trigger after it. */
  ghost predicate Leaks(l: Life) {
    exists until, beyond ::
      && TriggerFree(until) && TriggerFree(beyond) && ReturnsIn(l, until)
      && IsCourse(Ahead(Next(l, Shutdown), until), beyond)
      && |Ahead(Ahead(Next(l, Shutdown), until), beyond).svc.log| > |Ahead(Next(l, Shutdown), until).svc.log|
  }

  /** A called `shutdown` can always return, with nothing but the tasks it cancelled and awaits ending: the
      status loop ends, the stream it noted is cancelled and ends, and the peripheral is closed. A handler
      that was suspended at the call may then still be so. */
  lemma ShutdownReturns(l: Life) returns (until: seq<Step>)
    requires Inv(l.svc)
    ensures TriggerFree(until) && ReturnsIn(l, until) && |until| <= 5
    ensures var m := Ahead(Next(l, Shutdown), until);
      m.svc.waiting == l.svc.waiting && |m.svc.tasks| == |l.svc.tasks| && !LiveAt(m.svc, |m.svc.tasks| - 1)
  {
    var k := |l.shuts|;
    var l1 := Next(l, Shutdown);
    CancelNotedKeeps(l.svc, l.svc.scanTask);
    if l.status.None? {
      until := AwaitedStreamEnds(l1, l.svc.scanTask, k);
    } else if l.status.value.pc.Over? {
      assert l1.shuts[k] == AwaitStatus(l.svc.scanTask);
      until := NotedStreamEnds(l1, l.svc.scanTask, k);
    } else {
      assert l1.shuts[k] == AwaitStatus(l.svc.scanTask);
      until := CancelledLoopEnds(l1, l.svc.scanTask, k);
    }
  }

  lemma CancelledLoopEnds(l: Life, scan: Option<nat>, k: nat) returns (until: seq<Step>)
    requires Inv(l.svc) && scan == l.svc.scanTask
    requires k < |l.shuts| && l.shuts[k] == AwaitStatus(scan) && May(l, StatusCancelLands)
    ensures TriggerFree(until) && IsCourse(l, until) && |until| <= 5
    ensures var m := Ahead(l, until);
      && |m.shuts| == |l.shuts| && m.shuts[k].Returned?
      && m.svc.waiting == l.svc.waiting && |m.svc.tasks| == |l.svc.tasks| && !LiveAt(m.svc, |m.svc.tasks| - 1)
  {
    var rest := NotedStreamEnds(Next(l, StatusCancelLands), scan, k);
    ConsCourse(l, StatusCancelLands, rest);
    until := [StatusCancelLands] + rest;
  }

  lemma NotedStreamEnds(l: Life, scan: Option<nat>, k: nat) returns (until: seq<Step>)
    requires Inv(l.svc) && scan == l.svc.scanTask
    requires k < |l.shuts| && l.shuts[k] == AwaitStatus(scan) && StatusOver(l)
    ensures TriggerFree(until) && IsCourse(l, until) && |until| <= 4
    ensures var m := Ahead(l, until);
      && |m.shuts| == |l.shuts| && m.shuts[k].Returned?
      && m.svc.waiting == l.svc.waiting && |m.svc.tasks| == |l.svc.tasks| && !LiveAt(m.svc, |m.svc.tasks| - 1)
  {
    var go := ShutdownResume(k);
    CancelNotedKeeps(l.svc, scan);
    var rest := AwaitedStreamEnds(Next(l, go), scan, k);
    ConsCourse(l, go, rest);
    until := [go] + rest;
  }

  lemma AwaitedStreamEnds(l: Life, scan: Option<nat>, k: nat) returns (until: seq<Step>)
    requires Inv(l.svc) && scan == l.svc.scanTask && k < |l.shuts| && l.shuts[k] == AfterCancel(scan)
    requires scan.Some? && LiveAt(l.svc, scan.value) ==> l.svc.tasks[scan.value].cancelling
    ensures TriggerFree(until) && IsCourse(l, until) && |until| <= 3
    ensures var m := Ahead(l, until);
      && |m.shuts| == |l.shuts| && m.shuts[k].Returned?
      && m.svc.waiting == l.svc.waiting && |m.svc.tasks| == |l.svc.tasks| && !LiveAt(m.svc, |m.svc.tasks| - 1)
  {
    if scan.None? {
      ConsCourse(l, ShutdownResume(k), []);
      until := [ShutdownResume(k)] + [];
    } else if LiveAt(l.svc, scan.value) {
      var cancel := Stream(CancelLands(scan.value));
      var rest := OverStreamLetsGo(Next(l, cancel), scan.value, k);
      ConsCourse(l, cancel, rest);
      until := [cancel] + rest;
    } else {
      until := OverStreamLetsGo(l, scan.value, k);
    }
  }

  lemma OverStreamLetsGo(l: Life, t: nat, k: nat) returns (until: seq<Step>)
    requires k < |l.shuts| && l.shuts[k] == AwaitScan(t) && !LiveAt(l.svc, t)
    ensures TriggerFree(until) && IsCourse(l, until) && |until| == 2
    ensures var m := Ahead(l, until); |m.shuts| == |l.shuts| && m.shuts[k].Returned? && m.svc == l.svc
  {
    var go := ShutdownResume(k);
    var l1 := Next(l, go);
    ConsCourse(l1, go, []);
    ConsCourse(l, go, [go] + []);
    until := [go] + ([go] + []);
  }

  /** The hypothesis is exact: with serialised triggers before the call, a stream outlives `shutdown`
      on some trigger-free continuation if and only if a trigger handler is suspended at the call. */
  lemma ShutdownLeaksIff(l: Life)
    requires Inv(l.svc)
    ensures Leaks(l) <==> l.svc.waiting != []
  {
    if l.svc.waiting == [] {
      if Leaks(l) {
        var until, beyond :|
          && TriggerFree(until) && TriggerFree(beyond) && ReturnsIn(l, until)
          && IsCourse(Ahead(Next(l, Shutdown), until), beyond)
          && |Ahead(Ahead(Next(l, Shutdown), until), beyond).svc.log| > |Ahead(Next(l, Shutdown), until).svc.log|;
        QuietAfterShutdown(l, until, beyond);
      }
    } else {
      var until := ShutdownReturns(l);
      var beyond := HandlerGoesOn(Ahead(Next(l, Shutdown), until));
    }
  }

  /** A suspended handler whose awaited stream is over starts a stream, and the stream begins. */
  lemma HandlerGoesOn(m: Life) returns (beyond: seq<Step>)
    requires m.svc.waiting != [] && m.svc.waiting[0] == |m.svc.tasks| - 1 && !LiveAt(m.svc, |m.svc.tasks| - 1)
    ensures TriggerFree(beyond) && IsCourse(m, beyond) && |Ahead(m, beyond).svc.log| > |m.svc.log|
  {
    var n := |m.svc.tasks|;
    var go, begin := Stream(Resume(0)), Stream(Run(n, Raised("")));
    var m1 := Next(m, go);
    assert m1.svc.tasks[n] == NEW_TASK;
    ConsCourse(m1, begin, []);
    ConsCourse(m, go, [begin] + []);
    beyond := [go] + ([begin] + []);
  }

  // ---------- the tasks in their own form ----------

  /** The service's loops and `shutdown`, each method one stretch of code between two suspension points. */
  class ServiceTasks {
    var svc: Service
    var stop: bool
    var status: Option<StatusTask>
    var delayed: seq<DelayPc>
    var shuts: seq<ShutPc>
    var notes: seq<Note>

    ghost function View(): Life
      reads this
    {
      Life(svc, stop, status, delayed, shuts, notes)
    }

    constructor ()
      ensures View() == Life(IDLE, false, None, [], [], [])
    {
      svc, stop, status, delayed, shuts, notes := IDLE, false, None, [], [], [];
    }

    /** `_status_loop`, resumed. */
    method ResumeStatusLoop(ok: bool)
      requires May(View(), StatusRun(ok))
      modifies this`status, this`notes
      ensures View() == Next(old(View()), StatusRun(ok))
    {
      var pc := status.value.pc;
      if pc.Refreshing? {
        notes := notes + if ok then [StatusPush(pc.part)] else [];
        pc := if pc.part == 0 then Refreshing(1) else Waiting;
      } else if stop {
        pc := Over;
      } else {
        notes := notes + [StatusBegan];
        pc := Refreshing(0);
      }
      status := Some(StatusTask(pc, status.value.cancelling));
    }

    /** `_delayed_refreshes`, resumed. */
    method ResumeDelayedRefreshes(d: nat, ok: bool)
      requires May(View(), DelayRun(d, ok))
      modifies this`delayed, this`notes
      ensures View() == Next(old(View()), DelayRun(d, ok))
    {
      match delayed[d]
      case Sleeping(k) =>
        if stop {
          delayed := delayed[d := Done];
        } else {
          notes := notes + [DelayBegan(d)];
          delayed := delayed[d := Pushing(k, 0)];
        }
      case Pushing(k, part) =>
        notes := notes + if ok then [DelayPush(d, part)] else [];
        if part == 0 {
          delayed := delayed[d := Pushing(k, 1)];
        } else if k + 1 < |DELAYS_MS| {
          delayed := delayed[d := Sleeping(k + 1)];
        } else {
          delayed := delayed[d := Done];
        }
    }

    /** `shutdown` up to its first suspension, or to its end if there is nothing to await. */
    method CallShutdown()
      modifies this
      ensures View() == Next(old(View()), Shutdown)
    {
      stop := true;
      var noted := svc.scanTask;
      if status.Some? {
        status := Some(StatusTask(status.value.pc, true));
        shuts := shuts + [AwaitStatus(noted)];
      } else {
        var pc := CancelStream(noted);
        shuts := shuts + [pc];
      }
    }

    /** Cancels the noted stream task, if there is one, to await it. */
    method CancelStream(scan: Option<nat>) returns (pc: ShutPc)
      modifies this`svc
      ensures svc == CancelNoted(old(svc), scan) && pc == AfterCancel(scan)
    {
      match scan
      case Some(t) =>
        if t < |svc.tasks| && !svc.tasks[t].pc.Finished? {
          svc := svc.(tasks := svc.tasks[t := svc.tasks[t].(cancelling := true)]);
        }
        pc := AwaitScan(t);
      case None =>
        pc := Closing;
    }

    /** The h-th call of `shutdown`, when the task it awaits is over or the peripheral is closed. */
    method ResumeShutdown(h: nat)
      requires May(View(), ShutdownResume(h))
      modifies this`svc, this`shuts
      ensures View() == Next(old(View()), ShutdownResume(h))
    {
      var pc := if shuts[h].AwaitScan? then Closing else Returned;
      if shuts[h].AwaitStatus? {
        pc := CancelStream(shuts[h].scan);
      }
      shuts := shuts[h := pc];
    }
  }

  // ---------- the staged refreshes on a clock ----------

  /** Sum of the delays up to and including the k-th. */
  function DelaySum(delays: seq<nat>, k: nat): nat
    requires k <= |delays|
  {
    if k == 0 then 0 else DelaySum(delays, k - 1) + delays[k - 1]
  }

  /** `_delayed_refreshes` on a clock that starts at 0: the times at which refreshes begin, when the
      k-th takes costs[k] and the stop event is set at time `stopAt`, if ever. The sleeps are taken one
      after the other, so the k-th refresh begins after the sum of the first k + 1 delays and of the
      refreshes in between; none begins at or after the stop, and all before it do. */
  method DelayedRefreshes(delays: seq<nat>, costs: seq<nat>, stopAt: Option<nat>) returns (starts: seq<nat>)
    requires |costs| == |delays|
    ensures |starts| <= |delays|
    ensures forall k {:trigger starts[k]} :: 0 <= k < |starts| ==>
      starts[k] == DelaySum(delays, k + 1) + DelaySum(costs, k) && (stopAt.Some? ==> starts[k] < stopAt.value)
    ensures |starts| < |delays| ==>
      stopAt.Some? && DelaySum(delays, |starts| + 1) + DelaySum(costs, |starts|) >= stopAt.value
  {
    var now := 0;
    starts := [];
    for i := 0 to |delays|
      invariant |starts| == i && now == DelaySum(delays, i) + DelaySum(costs, i)
      invariant forall k {:trigger starts[k]} :: 0 <= k < i ==>
        starts[k] == DelaySum(delays, k + 1) + DelaySum(costs, k) && (stopAt.Some? ==> starts[k] < stopAt.value)
    {
      now := now + delays[i];
      assert now == DelaySum(delays, i + 1) + DelaySum(costs, i);
      if stopAt.Some? && now >= stopAt.value {
        return;
      }
      starts := starts + [now];
      now := now + costs[i];
      assert DelaySum(costs, i + 1) == DelaySum(costs, i) + costs[i];
    }
  }

  /** With the service's delays the refreshes come at 2, 7 and 17 seconds and not at 2, 5 and 10. */
  lemma StagedRefreshTimes()
    ensures DelaySum(DELAYS_MS, 1) == 2000 && DelaySum(DELAYS_MS, 2) == 7000 && DelaySum(DELAYS_MS, 3) == 17000
  {
    assert DelaySum(DELAYS_MS, 0) == 0;
    assert DelaySum(DELAYS_MS, 1) == DelaySum(DELAYS_MS, 0) + 2000;
    assert DelaySum(DELAYS_MS, 2) == DelaySum(DELAYS_MS, 1) + 5000;
  }
}
