/** `PiBleClient.streamWifi`: a notification handler and a timer around one promise. */
module ScanClient {
  import opened WifiScan
  import opened ScanStream

  datatype Reason = Remote(msg: string) | TimedOut | SubscribeFailed | WriteFailed

  datatype Promise = Pending | Resolved(nets: seq<Network>) | Rejected(why: Reason)

  datatype Callback = OnBegin | OnNetwork(net: Network, count: nat) | OnEnd(count: nat) | OnError(msg: string)

  /** How far the async function itself has come; Left means it threw before returning `done`. */
  datatype Stage = Subscribing | Writing | Awaiting | Left(why: Reason)

  /** The closure's variables: the network array, the promise `done`, how often it was settled,
      whether the handler is attached and the timer armed, and the callbacks made so far. */
  datatype Listener = Listener(networks: seq<Network>, done: Promise, settles: nat,
                               attached: bool, timer: bool, stage: Stage, calls: seq<Callback>)

  const FRESH := Listener([], Pending, 0, true, true, Subscribing, [])

  function Cleanup(l: Listener): Listener { l.(attached := false, timer := false) }

  /** The first settlement wins; any further one only counts. */
  function Settle(l: Listener, p: Promise): Listener {
    l.(done := if l.done.Pending? then p else l.done, settles := l.settles + 1)
  }

  function Called(l: Listener, c: Callback): Listener { l.(calls := l.calls + [c]) }

  /** `frame.msg || "scan error"`. */
  function Shown(msg: string): string { if msg == "" then "scan error" else msg }

  /** The handler; an event that arrives after its removal does not reach it. The n of `end` is not
      looked at. */
  function OnFrame(l: Listener, f: Frame): Listener {
    if !l.attached then l
    else
      match f
      case Begin => Called(l.(networks := []), OnBegin)
      case Net(net) => Called(l.(networks := l.networks + [net]), OnNetwork(net, |l.networks| + 1))
      case End(_) => Settle(Called(Cleanup(l), OnEnd(|l.networks|)), Resolved(l.networks))
      case Err(msg) =>
        Settle(Called(Cleanup(l), OnError(Shown(msg))), Rejected(Remote(Shown(msg))))
  }

  datatype Event = Notified(f: Frame) | TimerFired | Subscribed(ok: bool) | Written(ok: bool)

  predicate Possible(l: Listener, e: Event) {
    match e
    case Notified(_) => true
    case TimerFired => l.timer
    case Subscribed(_) => l.stage.Subscribing?
    case Written(_) => l.stage.Writing?
  }

  function OnEvent(l: Listener, e: Event): Listener
    requires Possible(l, e)
  {
    match e
    case Notified(f) => OnFrame(l, f)
    case TimerFired => Settle(Cleanup(l), Rejected(TimedOut))
    case Subscribed(ok) => if ok then l.(stage := Writing) else Cleanup(l).(stage := Left(SubscribeFailed))
    case Written(ok) => l.(stage := if ok then Awaiting else Left(WriteFailed))
  }

  predicate IsLife(l: Listener, events: seq<Event>)
    decreases |events|
  {
    events == [] || (Possible(l, events[0]) && IsLife(OnEvent(l, events[0]), events[1..]))
  }

  function Lived(l: Listener, events: seq<Event>): Listener
    requires IsLife(l, events)
    decreases |events|
  {
    if events == [] then l else Lived(OnEvent(l, events[0]), events[1..])
  }

  // ---------- the handler in its own form ----------

  class StreamWifi {
    var networks: seq<Network>
    var done: Promise
    var settles: nat
    var attached: bool
    var timer: bool
    var stage: Stage
    var calls: seq<Callback>

    ghost function View(): Listener
      reads this
    {
      Listener(networks, done, settles, attached, timer, stage, calls)
    }

    constructor ()
      ensures View() == FRESH
    {
      networks, done, settles, attached, timer, stage, calls := [], Pending, 0, true, true, Subscribing, [];
    }

    method Settled(p: Promise)
      modifies this`done, this`settles
      ensures View() == Settle(old(View()), p)
    {
      if done.Pending? { done := p; }
      settles := settles + 1;
    }

    method CleanUp()
      modifies this`attached, this`timer
      ensures View() == Cleanup(old(View()))
    {
      timer := false;
      attached := false;
    }

    method Handler(frame: Frame)
      modifies this
      ensures View() == OnFrame(old(View()), frame)
    {
      if !attached { return; }
      match frame
      case Begin =>
        networks := [];
        calls := calls + [OnBegin];
      case Net(net) =>
        networks := networks + [net];
        calls := calls + [OnNetwork(net, |networks|)];
      case End(_) =>
        CleanUp();
        calls := calls + [OnEnd(|networks|)];
        Settled(Resolved(networks));
      case Err(msg) =>
        CleanUp();
        var m := if msg == "" then "scan error" else msg;
        calls := calls + [OnError(m)];
        Settled(Rejected(Remote(m)));
    }

    method Timeout()
      requires timer
      modifies this
      ensures View() == OnEvent(old(View()), TimerFired)
    {
      CleanUp();
      Settled(Rejected(TimedOut));
    }

    /** The outcome of `await ch.startNotifications()`. */
    method AfterSubscribe(ok: bool)
      requires stage.Subscribing?
      modifies this
      ensures View() == OnEvent(old(View()), Subscribed(ok))
    {
      if ok {
        stage := Writing;
      } else {
        CleanUp();
        stage := Left(SubscribeFailed);
      }
    }

    /** The outcome of the trigger write: no clean-up when it throws. */
    method AfterWrite(ok: bool)
      requires stage.Writing?
      modifies this
      ensures View() == OnEvent(old(View()), Written(ok))
    {
      stage := if ok then Awaiting else Left(WriteFailed);
    }
  }

  // ---------- one settlement, and silence after it ----------

  predicate ListenerInv(l: Listener) {
    && l.attached == l.timer
    && l.settles == (if l.done.Pending? then 0 else 1)
    && (l.attached ==> l.done.Pending?)
    && (l.done.Rejected? ==> l.done.why.Remote? || l.done.why.TimedOut?)
    && (!l.attached && l.done.Pending? ==> l.stage == Left(SubscribeFailed))
    && (l.stage == Left(SubscribeFailed) ==> !l.attached)
  }

  /** In every life of a listener, whatever fails and in whatever order: the promise is settled at
      most once, and rejected only by a remote error or the timer; the handler is attached exactly
      while the timer is armed; and unless subscribing failed, a detached listener has settled. */
  lemma {:induction false} SettlesAtMostOnce(l: Listener, events: seq<Event>)
    requires ListenerInv(l) && IsLife(l, events)
    ensures ListenerInv(Lived(l, events)) && Lived(l, events).settles <= 1
    decreases |events|
  {
    if events != [] { SettlesAtMostOnce(OnEvent(l, events[0]), events[1..]); }
  }

  /** Once detached, a listener makes no callback and its result never changes, whatever still
      arrives; and a firing timer always detaches it, even after a failed trigger write. */
  lemma {:induction false} DetachedIsSilent(l: Listener, events: seq<Event>)
    requires ListenerInv(l) && !l.attached && IsLife(l, events)
    ensures var r := Lived(l, events);
      !r.attached && !r.timer && r.calls == l.calls && r.done == l.done && r.networks == l.networks
    decreases |events|
  {
    if events != [] { DetachedIsSilent(OnEvent(l, events[0]), events[1..]); }
  }

  lemma TimerDetaches(l: Listener)
    requires ListenerInv(l) && l.timer
    ensures var r := OnEvent(l, TimerFired);
      !r.attached && !r.timer && r.done == Rejected(TimedOut) && r.calls == l.calls
  {
  }

  // ---------- what the caller of streamWifi holds ----------

  /** The promise the async function returns: its own failure if it threw, else `done` once it gets there. */
  function Returned(l: Listener): Promise {
    match l.stage
    case Left(why) => Rejected(why)
    case Awaiting => l.done
    case _ => Pending
  }

  /** In every life the returned promise settles once and for all: a failed subscription or trigger write
      is its outcome whatever the frames bring later, and otherwise the first settlement of `done` is. */
  lemma {:induction false} ReturnedSettlesOnce(l: Listener, events: seq<Event>)
    requires ListenerInv(l) && IsLife(l, events) && !Returned(l).Pending?
    ensures Returned(Lived(l, events)) == Returned(l)
    decreases |events|
  {
    if events != [] { ReturnedSettlesOnce(OnEvent(l, events[0]), events[1..]); }
  }

  // ---------- hearing frames ----------

  /** The listener after a sequence of notifications. */
  function Hear(l: Listener, frames: seq<Frame>): Listener {
    if frames == [] then l else OnFrame(Hear(l, frames[..|frames| - 1]), frames[|frames| - 1])
  }

  predicate NoTerminator(frames: seq<Frame>) {
    forall i :: 0 <= i < |frames| ==> !Terminator(frames[i])
  }

  lemma {:induction false} HearAppend(l: Listener, a: seq<Frame>, b: seq<Frame>)
    ensures Hear(l, a + b) == Hear(Hear(l, a), b)
  {
    if b == [] {
      assert a + b == a;
    } else {
      var n := |b| - 1;
      assert (a + b)[..|a + b| - 1] == a + b[..n];
      HearAppend(l, a, b[..n]);
    }
  }

  lemma {:induction false} HearQuiet(l: Listener, frames: seq<Frame>)
    requires l.attached && NoTerminator(frames)
    ensures var r := Hear(l, frames); r.attached && r.done == l.done
  {
    if frames != [] { HearQuiet(l, frames[..|frames| - 1]); }
  }

  lemma {:induction false} HearNets(l: Listener, nets: seq<Network>)
    requires l.attached
    ensures var r := Hear(l, NetFrames(nets));
      r.attached && r.done == l.done && r.networks == l.networks + nets
  {
    if nets == [] {
      assert NetFrames(nets) == [];
    } else {
      var n := |nets| - 1;
      assert NetFrames(nets)[..n] == NetFrames(nets[..n]);
      HearNets(l, nets[..n]);
      assert l.networks + nets[..n] + [nets[n]] == l.networks + nets;
    }
  }

  /** A listener that hears nets and then the end resolves with what it had plus those nets. */
  lemma HearTail(l: Listener, nets: seq<Network>, n: nat)
    requires l.attached && l.done.Pending?
    ensures Hear(l, NetFrames(nets) + [End(n)]).done == Resolved(l.networks + nets)
  {
    HearNets(l, nets);
    var frames := NetFrames(nets) + [End(n)];
    assert frames[..|frames| - 1] == NetFrames(nets);
  }

  // ---------- the callbacks of one block ----------

  /** What the page is told about a stream that brings these networks. */
  function Told(nets: seq<Network>): seq<Callback> {
    [OnBegin] + ToldNets(nets, 0) + [OnEnd(|nets|)]
  }

  function ToldNets(nets: seq<Network>, before: nat): (r: seq<Callback>)
    ensures |r| == |nets| && forall k :: 0 <= k < |nets| ==> r[k] == OnNetwork(nets[k], before + k + 1)
  {
    seq(|nets|, k requires 0 <= k < |nets| => OnNetwork(nets[k], before + k + 1))
  }

  lemma {:induction false} NetsAreTold(l: Listener, nets: seq<Network>)
    requires l.attached
    ensures Hear(l, NetFrames(nets)).calls == l.calls + ToldNets(nets, |l.networks|)
  {
    if nets == [] {
      assert NetFrames(nets) == [] && l.calls + ToldNets(nets, |l.networks|) == l.calls;
    } else {
      var n := |nets| - 1;
      var told := ToldNets(nets[..n], |l.networks|);
      assert NetFrames(nets)[..n] == NetFrames(nets[..n]);
      NetsAreTold(l, nets[..n]);
      HearNets(l, nets[..n]);
      assert ToldNets(nets, |l.networks|) == told + [OnNetwork(nets[n], |l.networks| + n + 1)];
      assert l.calls + told + [OnNetwork(nets[n], |l.networks| + n + 1)] == l.calls + ToldNets(nets, |l.networks|);
    }
  }

  /** An attached listener that hears a whole block tells the page of its begin, of each network with the
      number so far, in order, and of its end with their number; no more and no less. */
  lemma BlockIsTold(l: Listener, nets: seq<Network>)
    requires l.attached
    ensures Hear(l, FullBlock(nets)).calls == l.calls + Told(nets)
  {
    var begun := OnFrame(l, Begin);
    var tail := NetFrames(nets) + [End(|nets|)];
    assert FullBlock(nets) == [Begin] + tail;
    HearAppend(l, [Begin], tail);
    assert Hear(l, [Begin]) == OnFrame(Hear(l, []), Begin);
    NetsAreTold(begun, nets);
    HearNets(begun, nets);
    assert tail[..|tail| - 1] == NetFrames(nets);
    assert l.calls + [OnBegin] + ToldNets(nets, 0) + [OnEnd(|nets|)] == l.calls + Told(nets);
  }

  /** And of a block that ends in an error, its begin and the error, with a stock text if it has none. */
  lemma ErrorIsTold(l: Listener, msg: string)
    requires l.attached && l.done.Pending?
    ensures var r := Hear(l, [Begin, Err(msg)]);
      && r.calls == l.calls + [OnBegin, OnError(if msg == "" then "scan error" else msg)]
      && r.done == Rejected(Remote(if msg == "" then "scan error" else msg)) && !r.attached
  {
    assert [Begin, Err(msg)][..1] == [Begin] && [Begin][..0] == [];
    assert Hear(l, [Begin]) == OnFrame(Hear(l, []), Begin);
  }

  // ---------- a whole call of streamWifi ----------

  function Notifications(frames: seq<Frame>): (r: seq<Event>)
    ensures |r| == |frames| && forall k :: 0 <= k < |r| ==> r[k] == Notified(frames[k])
  {
    seq(|frames|, k requires 0 <= k < |frames| => Notified(frames[k]))
  }

  lemma {:induction false} LivesOn(l: Listener, a: seq<Event>, b: seq<Event>)
    requires IsLife(l, a) && IsLife(Lived(l, a), b)
    ensures IsLife(l, a + b) && Lived(l, a + b) == Lived(Lived(l, a), b)
    decreases |a|
  {
    if a == [] {
      assert a + b == b;
    } else {
      assert (a + b)[1..] == a[1..] + b;
      LivesOn(OnEvent(l, a[0]), a[1..], b);
    }
  }

  lemma {:induction false} LivesThrough(l: Listener, frames: seq<Frame>)
    ensures IsLife(l, Notifications(frames)) && Lived(l, Notifications(frames)) == Hear(l, frames)
  {
    if frames != [] {
      var n := |frames| - 1;
      var last := [Notified(frames[n])];
      LivesThrough(l, frames[..n]);
      assert Notifications(frames) == Notifications(frames[..n]) + last;
      assert last[1..] == [];
      assert IsLife(OnFrame(Hear(l, frames[..n]), frames[n]), []);
      LivesOn(l, Notifications(frames[..n]), last);
    }
  }

  lemma Twice(l: Listener, a: Event, b: Event)
    requires Possible(l, a) && Possible(OnEvent(l, a), b)
    ensures IsLife(l, [a, b]) && Lived(l, [a, b]) == OnEvent(OnEvent(l, a), b)
  {
    assert [a, b][1..] == [b] && [b][1..] == [];
    assert Lived(OnEvent(OnEvent(l, a), b), []) == OnEvent(OnEvent(l, a), b);
  }

  /** A call of `streamWifi` whose subscription and trigger write go well and that then hears a block returns
      a promise resolved with the block's networks, having told the page of all of it. */
  lemma CallReturns(nets: seq<Network>)
    ensures var events := [Subscribed(true), Written(true)] + Notifications(FullBlock(nets));
      && IsLife(FRESH, events)
      && Returned(Lived(FRESH, events)) == Resolved(nets) && Lived(FRESH, events).calls == Told(nets)
  {
    var ready := FRESH.(stage := Awaiting);
    Twice(FRESH, Subscribed(true), Written(true));
    LivesThrough(ready, FullBlock(nets));
    LivesOn(FRESH, [Subscribed(true), Written(true)], Notifications(FullBlock(nets)));
    BlockResolves(ready, nets);
    BlockIsTold(ready, nets);
    StageStays(ready, FullBlock(nets));
    assert [] + Told(nets) == Told(nets);
  }

  /** One whose trigger write fails is rejected with that failure, whatever comes then; its handler and timer
      are left behind. */
  lemma FailedWriteReturns(events: seq<Event>)
    ensures var failed := [Subscribed(true), Written(false)];
      && IsLife(FRESH, failed) && Lived(FRESH, failed).attached && Lived(FRESH, failed).timer
      && (IsLife(Lived(FRESH, failed), events) ==>
            Returned(Lived(Lived(FRESH, failed), events)) == Rejected(WriteFailed))
  {
    Twice(FRESH, Subscribed(true), Written(false));
    var l := Lived(FRESH, [Subscribed(true), Written(false)]);
    if IsLife(l, events) { ReturnedSettlesOnce(l, events); }
  }

  /** One whose subscription fails is rejected with that failure, whatever comes then, and leaves nothing
      behind and tells the page nothing. */
  lemma FailedSubscriptionReturns(events: seq<Event>)
    ensures var failed := [Subscribed(false)];
      && IsLife(FRESH, failed) && !Lived(FRESH, failed).attached && !Lived(FRESH, failed).timer
      && (IsLife(Lived(FRESH, failed), events) ==>
            Returned(Lived(Lived(FRESH, failed), events)) == Rejected(SubscribeFailed)
            && Lived(Lived(FRESH, failed), events).calls == [])
  {
    var l := OnEvent(FRESH, Subscribed(false));
    assert [Subscribed(false)][1..] == [] && Lived(l, []) == l;
    if IsLife(l, events) {
      ReturnedSettlesOnce(l, events);
      DetachedIsSilent(l, events);
    }
  }

  lemma {:induction false} StageStays(l: Listener, frames: seq<Frame>)
    ensures Hear(l, frames).stage == l.stage
  {
    if frames != [] { StageStays(l, frames[..|frames| - 1]); }
  }

  /** The block, heard by any listener that is attached and pending, in any stage. */
  lemma BlockResolves(l: Listener, nets: seq<Network>)
    requires l.attached && l.done.Pending?
    ensures Hear(l, FullBlock(nets)).done == Resolved(nets)
  {
    var tail := NetFrames(nets) + [End(|nets|)];
    assert FullBlock(nets) == [Begin] + tail;
    HearAppend(l, [Begin], tail);
    assert Hear(l, [Begin]) == OnFrame(Hear(l, []), Begin);
    HearTail(OnFrame(l, Begin), nets, |nets|);
    assert [] + nets == nets;
  }

  /** Anything without a terminator may come first; from the begin on, exactly the block counts. */
  lemma HearBlock(before: seq<Frame>, nets: seq<Network>)
    requires NoTerminator(before)
    ensures Hear(FRESH, before + FullBlock(nets)).done == Resolved(nets)
  {
    HearQuiet(FRESH, before);
    HearAppend(FRESH, before, FullBlock(nets));
    BlockResolves(Hear(FRESH, before), nets);
  }

  lemma HearError(before: seq<Frame>, msg: string)
    requires NoTerminator(before)
    ensures Hear(FRESH, before + [Err(msg)]).done == Rejected(Remote(Shown(msg)))
  {
    HearQuiet(FRESH, before);
    var frames := before + [Err(msg)];
    assert frames[..|frames| - 1] == before;
  }

  /** Same networks, same attachment, same promise; callbacks may differ. */
  predicate Alike(l1: Listener, l2: Listener) {
    l1.networks == l2.networks && l1.attached == l2.attached && l1.done == l2.done
  }

  /** Two listeners that heard the same begin and then the same frames agree on the outcome, however
      different their histories before it. */
  lemma SameBeginSameOutcome(before1: seq<Frame>, before2: seq<Frame>, rest: seq<Frame>)
    requires NoTerminator(before1) && NoTerminator(before2)
    ensures Alike(Hear(FRESH, before1 + ([Begin] + rest)), Hear(FRESH, before2 + ([Begin] + rest)))
  {
    HearQuiet(FRESH, before1);
    HearQuiet(FRESH, before2);
    HearAppend(FRESH, before1, [Begin] + rest);
    HearAppend(FRESH, before2, [Begin] + rest);
    var l1, l2 := Hear(FRESH, before1), Hear(FRESH, before2);
    HearAppend(l1, [Begin], rest);
    HearAppend(l2, [Begin], rest);
    assert Hear(l1, [Begin]) == OnFrame(Hear(l1, []), Begin);
    assert Hear(l2, [Begin]) == OnFrame(Hear(l2, []), Begin);
    HearAlike(OnFrame(l1, Begin), OnFrame(l2, Begin), rest);
  }

  lemma AlikeOnFrame(l1: Listener, l2: Listener, f: Frame)
    requires Alike(l1, l2)
    ensures Alike(OnFrame(l1, f), OnFrame(l2, f))
  {
  }

  lemma {:induction false} HearAlike(l1: Listener, l2: Listener, frames: seq<Frame>)
    requires Alike(l1, l2)
    ensures Alike(Hear(l1, frames), Hear(l2, frames))
  {
    if frames != [] {
      var n := |frames| - 1;
      HearAlike(l1, l2, frames[..n]);
      AlikeOnFrame(Hear(l1, frames[..n]), Hear(l2, frames[..n]), frames[n]);
    }
  }

  // ---------- coalescing loss ----------

  /** got is sent with some of its net frames dropped. */
  predicate Loses(sent: seq<Frame>, got: seq<Frame>) {
    if sent == [] then got == []
    else
      var n := |sent| - 1;
      || (got != [] && got[|got| - 1] == sent[n] && Loses(sent[..n], got[..|got| - 1]))
      || (sent[n].Net? && Loses(sent[..n], got))
  }

  /** In-order subsequence. */
  predicate Within(part: seq<Network>, whole: seq<Network>) {
    part == [] ||
    (whole != [] &&
     var n := |whole| - 1;
     || (part[|part| - 1] == whole[n] && Within(part[..|part| - 1], whole[..n]))
     || Within(part, whole[..n]))
  }

  lemma WithinSnoc(part: seq<Network>, whole: seq<Network>, x: Network)
    requires Within(part, whole)
    ensures Within(part + [x], whole + [x]) && Within(part, whole + [x])
  {
    assert (whole + [x])[..|whole|] == whole;
    assert (part + [x])[..|part|] == part;
  }

  /** g is what s would be with some networks lost. */
  predicate LostSome(s: Listener, g: Listener) {
    && g.attached == s.attached && Within(g.networks, s.networks)
    && (s.done.Resolved? ==> g.done.Resolved? && Within(g.done.nets, s.done.nets))
    && (!s.done.Resolved? ==> g.done == s.done)
  }

  lemma LostSomeOnFrame(s: Listener, g: Listener, f: Frame)
    requires LostSome(s, g)
    ensures LostSome(OnFrame(s, f), OnFrame(g, f))
    ensures f.Net? ==> LostSome(OnFrame(s, f), g)
  {
    if f.Net? { WithinSnoc(g.networks, s.networks, f.net); }
  }

  /** When only net frames are lost, the outcome is of the same kind, and the networks are an in-order
      subsequence of those sent. */
  lemma {:induction false} LossKeepsOrder(sent: seq<Frame>, got: seq<Frame>)
    requires Loses(sent, got)
    ensures LostSome(Hear(FRESH, sent), Hear(FRESH, got))
  {
    if sent != [] {
      var n := |sent| - 1;
      if got != [] && got[|got| - 1] == sent[n] && Loses(sent[..n], got[..|got| - 1]) {
        LossKeepsOrder(sent[..n], got[..|got| - 1]);
        LostSomeOnFrame(Hear(FRESH, sent[..n]), Hear(FRESH, got[..|got| - 1]), sent[n]);
      } else {
        LossKeepsOrder(sent[..n], got);
        LostSomeOnFrame(Hear(FRESH, sent[..n]), Hear(FRESH, got), sent[n]);
      }
    }
  }

  /** Any two entries of a subsequence come from two entries of the whole, in the same order. */
  lemma {:induction false} WithinPair(part: seq<Network>, whole: seq<Network>, i: nat, j: nat)
    requires Within(part, whole) && i < j < |part|
    ensures exists p, q :: 0 <= p < q < |whole| && whole[p] == part[i] && whole[q] == part[j]
  {
    var n := |whole| - 1;
    if Within(part, whole[..n]) {
      WithinPair(part, whole[..n], i, j);
    } else if j < |part| - 1 {
      WithinPair(part[..|part| - 1], whole[..n], i, j);
    } else {
      WithinOne(part[..|part| - 1], whole[..n], i);
    }
  }

  lemma {:induction false} WithinOne(part: seq<Network>, whole: seq<Network>, i: nat)
    requires Within(part, whole) && i < |part|
    ensures exists p :: 0 <= p < |whole| && whole[p] == part[i]
  {
    var n := |whole| - 1;
    if Within(part, whole[..n]) {
      WithinOne(part, whole[..n], i);
    } else if i < |part| - 1 {
      WithinOne(part[..|part| - 1], whole[..n], i);
    }
  }

  lemma {:induction false} WithinShorter(part: seq<Network>, whole: seq<Network>)
    requires Within(part, whole)
    ensures |part| <= |whole|
  {
    if part != [] {
      var n := |whole| - 1;
      if Within(part, whole[..n]) { WithinShorter(part, whole[..n]); }
      else { WithinShorter(part[..|part| - 1], whole[..n]); }
    }
  }

  /** A listener that catches a stream's begin and end but loses any of its nets still gets a list
      with distinct SSIDs and descending signals, in order, of at most n networks. */
  lemma LossyStream(before: seq<Frame>, out: string, got: seq<Frame>)
    requires NoTerminator(before) && Loses(before + FullBlock(ScanNets(out, STREAM_LIMIT)), got)
    ensures var nets, p := ScanNets(out, STREAM_LIMIT), Hear(FRESH, got).done;
      && p.Resolved? && Within(p.nets, nets) && |p.nets| <= |nets|
      && DistinctDescending(p.nets)
  {
    var nets := ScanNets(out, STREAM_LIMIT);
    HearBlock(before, nets);
    LossKeepsOrder(before + FullBlock(nets), got);
    ScanShape(out, STREAM_LIMIT);
    var r := Hear(FRESH, got).done.nets;
    WithinShorter(r, nets);
    forall i, j | 0 <= i < j < |r|
      ensures r[i].ssid != r[j].ssid && r[i].signal >= r[j].signal
    {
      WithinPair(r, nets, i, j);
    }
  }
}
