/** Listeners agree: what the channel delivers or loses, it delivers to or keeps from all of them. */
module ScanAgreement {
  import opened ScanStream
  import opened ScanClient
  import opened ScanSystem

  /** The frames from position a up to b that were delivered. */
  function Caught(log: seq<Frame>, got: seq<bool>, a: nat, b: nat): seq<Frame>
    requires a <= b <= |log| && b <= |got|
    decreases b
  {
    if a == b then [] else Caught(log, got, a, b - 1) + if got[b - 1] then [log[b - 1]] else []
  }

  /** A listener has heard exactly what was delivered while it was attached. */
  predicate HeardAll(log: seq<Frame>, got: seq<bool>, c: Client) {
    && c.from + c.span <= |got| <= |log| && (c.l.attached ==> c.from + c.span == |got|)
    && c.heard == Caught(log, got, c.from, c.from + c.span)
  }

  /** Only nets are lost. */
  predicate OnlyNetsLost(log: seq<Frame>, got: seq<bool>) {
    |got| <= |log| && forall k :: 0 <= k < |got| && !got[k] ==> log[k].Net?
  }

  ghost predicate ChannelInv(sys: System) {
    && |sys.got| == sys.delivered && OnlyNetsLost(sys.svc.log, sys.got)
    && forall i :: 0 <= i < |sys.clients| ==> HeardAll(sys.svc.log, sys.got, sys.clients[i])
  }

  lemma {:induction false} CaughtLonger(log: seq<Frame>, log': seq<Frame>, got: seq<bool>, got': seq<bool>,
                                        a: nat, b: nat)
    requires a <= b <= |log| && b <= |got| && log <= log' && got <= got'
    ensures Caught(log', got', a, b) == Caught(log, got, a, b)
    decreases b
  {
    if a < b { CaughtLonger(log, log', got, got', a, b - 1); }
  }

  lemma HeardMore(log: seq<Frame>, got: seq<bool>, c: Client, delivered: bool)
    requires HeardAll(log, got, c) && |got| < |log|
    ensures HeardAll(log, got + [delivered], if delivered then Notify(c, log[|got|]) else PassBy(c))
  {
    CaughtLonger(log, log, got, got + [delivered], c.from, c.from + c.span);
  }

  lemma ChannelClient(sys: System, m: Move, i: nat)
    requires ChannelInv(sys) && Can(sys, m) && i < |sys.clients|
    ensures var r := Do(sys, m); HeardAll(r.svc.log, r.got, r.clients[i])
  {
    var c := sys.clients[i];
    match m
    case Serve(a) =>
      ExtendsStep(sys.svc, a);
      CaughtLonger(sys.svc.log, Apply(sys.svc, a).log, sys.got, sys.got, c.from, c.from + c.span);
    case Deliver =>
      HeardMore(sys.svc.log, sys.got, c, true);
      assert Do(sys, m).clients[i] == Notify(c, sys.svc.log[sys.delivered]);
    case Lose =>
      HeardMore(sys.svc.log, sys.got, c, false);
      assert Do(sys, m).clients[i] == PassBy(c);
    case _ =>
  }

  lemma ChannelStep(sys: System, m: Move)
    requires ChannelInv(sys) && Can(sys, m)
    ensures ChannelInv(Do(sys, m))
  {
    var r := Do(sys, m);
    if m.Serve? { ExtendsStep(sys.svc, m.a); }
    forall i | 0 <= i < |r.clients|
      ensures HeardAll(r.svc.log, r.got, r.clients[i])
    {
      if i < |sys.clients| { ChannelClient(sys, m, i); }
    }
  }

  lemma {:induction false} ChannelRun(sys: System, moves: seq<Move>)
    requires ChannelInv(sys) && IsHistory(sys, moves)
    ensures ChannelInv(After(sys, moves))
    decreases |moves|
  {
    if moves != [] {
      ChannelStep(sys, moves[0]);
      ChannelRun(Do(sys, moves[0]), moves[1..]);
    }
  }

  lemma ReachedChannel(sys: System)
    requires Reached(sys)
    ensures ChannelInv(sys)
  {
    var moves :| IsHistory(INIT, moves) && After(INIT, moves) == sys;
    ChannelRun(INIT, moves);
  }

  // ---------- two listeners ----------

  lemma {:induction false} CaughtSplit(log: seq<Frame>, got: seq<bool>, a: nat, m: nat, b: nat)
    requires a <= m <= b <= |log| && b <= |got|
    ensures Caught(log, got, a, b) == Caught(log, got, a, m) + Caught(log, got, m, b)
    decreases b
  {
    if m < b {
      CaughtSplit(log, got, a, m, b - 1);
    } else {
      assert Caught(log, got, a, m) + [] == Caught(log, got, a, m);
    }
  }

  lemma {:induction false} CaughtQuiet(log: seq<Frame>, got: seq<bool>, a: nat, b: nat)
    requires a <= b <= |log| && b <= |got| && NoTerminator(log[a..b])
    ensures NoTerminator(Caught(log, got, a, b))
    decreases b
  {
    if a < b {
      assert log[a..b - 1] == log[a..b][..b - 1 - a] && log[a..b][b - 1 - a] == log[b - 1];
      CaughtQuiet(log, got, a, b - 1);
    }
  }

  lemma CaughtFromBegin(log: seq<Frame>, got: seq<bool>, s: nat, e: nat)
    requires s < e <= |got| && OnlyNetsLost(log, got) && log[s] == Begin
    ensures Caught(log, got, s, e) == [Begin] + Caught(log, got, s + 1, e)
  {
    CaughtSplit(log, got, s, s + 1, e);
    assert got[s];
    assert Caught(log, got, s, s + 1) == Caught(log, got, s, s) + [log[s]];
  }

  /** What two listeners heard that were attached before the begin at s, met no terminator until it, and
      settled at e. */
  lemma HeardAlikeFrom(log: seq<Frame>, got: seq<bool>, a: nat, b: nat, s: nat, e: nat)
    requires a <= s && b <= s < e <= |got| && OnlyNetsLost(log, got) && log[s] == Begin
    requires NoTerminator(log[a..s]) && NoTerminator(log[b..s])
    ensures Hear(FRESH, Caught(log, got, a, e)).done == Hear(FRESH, Caught(log, got, b, e)).done
  {
    CaughtSplit(log, got, a, s, e);
    CaughtSplit(log, got, b, s, e);
    CaughtFromBegin(log, got, s, e);
    CaughtQuiet(log, got, a, s);
    CaughtQuiet(log, got, b, s);
    SameBeginSameOutcome(Caught(log, got, a, s), Caught(log, got, b, s), Caught(log, got, s + 1, e));
  }

  lemma BlockBegins(tasks: seq<Task>, i: nat)
    requires i < |tasks| && TaskOk(tasks[i]) && ClosedBlock(tasks[i].block)
    ensures StartOf(tasks, i) < StartOf(tasks, i + 1) <= |Flatten(tasks)| && Flatten(tasks)[StartOf(tasks, i)] == Begin
  {
    FlattenPrefix(tasks, i);
    TaskBlockLegal(tasks[i]);
    var s, e := StartOf(tasks, i), StartOf(tasks, i + 1);
    assert Flatten(tasks)[s..e][0] == Flatten(tasks)[s];
  }

  /** Listener j attached before the begin of stream i, met no terminator until then, and did not give up. */
  ghost predicate SawBegin(sys: System, j: nat, i: nat) {
    && j < |sys.clients| && i < |sys.svc.tasks| && !GaveUp(sys.clients[j].l)
    && sys.clients[j].from <= StartOf(sys.svc.tasks, i) <= |sys.svc.log|
    && NoTerminator(sys.svc.log[sys.clients[j].from..StartOf(sys.svc.tasks, i)])
  }

  lemma SettledHeard(log: seq<Frame>, got: seq<bool>, delivered: nat, lossy: bool, c: Client)
    requires Tracks(log, delivered, lossy, c) && HeardAll(log, got, c) && FromFrame(c.l.done)
    ensures c.l.done == Hear(FRESH, Caught(log, got, c.from, c.from + c.span)).done
  {
  }

  /** A listener that saw the begin has, once the end has gone by, the outcome of what was delivered up to
      that end. */
  lemma OutcomeIsCaught(sys: System, j: nat, i: nat)
    requires Reached(sys) && SawBegin(sys, j, i)
    requires ClosedBlock(sys.svc.tasks[i].block) && StartOf(sys.svc.tasks, i + 1) <= sys.delivered
    ensures var e := StartOf(sys.svc.tasks, i + 1);
      && sys.clients[j].from <= e <= |sys.got| <= |sys.svc.log|
      && sys.clients[j].l.done == Hear(FRESH, Caught(sys.svc.log, sys.got, sys.clients[j].from, e)).done
    ensures !sys.clients[j].l.done.Pending?
  {
    ReachedInv(sys);
    ClientTracks(sys, j);
    ReachedChannel(sys);
    EndAfterPrefix(sys.svc.tasks, sys.delivered, sys.clients[j].from, i);
    StreamSettles(sys, j, i);
    SettledFromFrame(sys.svc.tasks, sys.lossy, sys.clients[j], i);
    assert HeardAll(sys.svc.log, sys.got, sys.clients[j]);
    SettledHeard(sys.svc.log, sys.got, sys.delivered, sys.lossy, sys.clients[j]);
  }

  lemma SettledFromFrame(tasks: seq<Task>, lossy: bool, c: Client, i: nat)
    requires i < |tasks| && TaskOk(tasks[i]) && ClosedBlock(tasks[i].block) && SettledOn(tasks, lossy, c, i)
    ensures FromFrame(c.l.done)
  {
    ClosedIsFinished(tasks[i]);
  }

  /** In every reachable state, over a lossy channel too: two listeners that attached before the begin of a
      stream, met no terminator until it and did not give up have settled alike, on the same list or the
      same error, once its end has gone by. */
  lemma ListenersAgree(sys: System, j: nat, k: nat, i: nat)
    requires Reached(sys) && SawBegin(sys, j, i) && SawBegin(sys, k, i)
    requires ClosedBlock(sys.svc.tasks[i].block) && StartOf(sys.svc.tasks, i + 1) <= sys.delivered
    ensures sys.clients[j].l.done == sys.clients[k].l.done && !sys.clients[j].l.done.Pending?
  {
    var tasks := sys.svc.tasks;
    ReachedInv(sys);
    ClientTracks(sys, j);
    ReachedChannel(sys);
    BlockBegins(tasks, i);
    OutcomeIsCaught(sys, j, i);
    OutcomeIsCaught(sys, k, i);
    HeardAlikeFrom(sys.svc.log, sys.got, sys.clients[j].from, sys.clients[k].from,
                   StartOf(tasks, i), StartOf(tasks, i + 1));
  }
}
