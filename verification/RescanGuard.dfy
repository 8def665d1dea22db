/** The background rescan of `wifi.scan`: any number of scans interleave, and each that asks for a rescan
    starts one unless the last one it finds is still running. Check and creation share one atomic step,
    between the scan's two suspensions. A command that times out ends the scan where it stands. */
module RescanGuard {
  import opened Text

  /** A scan is finding the interface, listing, or over. */
  datatype ScanPc = FindingIface(rescan: bool) | Listing | Over

  /** `_rescan_task` by its number, which of the rescan tasks ever created still run, and the scans. */
  datatype Rescans = Rescans(current: Option<nat>, running: seq<bool>, scans: seq<ScanPc>)

  /** Resume(i, ok): the command scan i awaits is done, or has timed out and raises. */
  datatype Step = Call(rescan: bool) | Resume(i: nat, ok: bool) | RescanEnds(k: nat)

  predicate Can(r: Rescans, s: Step) {
    match s
    case Call(_) => true
    case Resume(i, _) => i < |r.scans| && !r.scans[i].Over?
    case RescanEnds(k) => k < |r.running| && r.running[k]
  }

  predicate Busy(r: Rescans) { r.current.Some? && r.current.value < |r.running| && r.running[r.current.value] }

  function Do(r: Rescans, s: Step): Rescans
    requires Can(r, s)
  {
    match s
    case Call(rescan) => r.(scans := r.scans + [FindingIface(rescan)])
    case Resume(i, ok) =>
      (match r.scans[i]
       case FindingIface(rescan) =>
         var next := r.(scans := r.scans[i := if ok then Listing else Over]);
         if ok && rescan && !Busy(r) then next.(current := Some(|r.running|), running := r.running + [true]) else next
       case _ => r.(scans := r.scans[i := Over]))
    case RescanEnds(k) => r.(running := r.running[k := false])
  }

  predicate IsRun(r: Rescans, steps: seq<Step>)
    decreases |steps|
  {
    steps == [] || (Can(r, steps[0]) && IsRun(Do(r, steps[0]), steps[1..]))
  }

  function After(r: Rescans, steps: seq<Step>): Rescans
    requires IsRun(r, steps)
    decreases |steps|
  {
    if steps == [] then r else After(Do(r, steps[0]), steps[1..])
  }

  /** Only the task the guard knows can be running. */
  predicate Guarded(r: Rescans) {
    forall k :: 0 <= k < |r.running| && r.running[k] ==> r.current == Some(k)
  }

  /** A scan that asks, finds its interface and finds no rescan running starts its own: so one that has ended
      never stands in the way of the next. */
  lemma StartsWhenIdle(r: Rescans, i: nat)
    requires Guarded(r) && i < |r.scans| && r.scans[i] == FindingIface(true)
    ensures var n := |r.running|;
      (forall k :: 0 <= k < n ==> !r.running[k]) <==>
        Do(r, Resume(i, true)).running == r.running + [true] && Do(r, Resume(i, true)).current == Some(n)
  {
    if exists k :: 0 <= k < |r.running| && r.running[k] {
      var k :| 0 <= k < |r.running| && r.running[k];
      assert |r.running + [true]| != |r.running|;
    }
  }

  lemma {:induction false} GuardHolds(r: Rescans, steps: seq<Step>)
    requires Guarded(r) && IsRun(r, steps)
    ensures Guarded(After(r, steps))
    decreases |steps|
  {
    if steps != [] { GuardHolds(Do(r, steps[0]), steps[1..]); }
  }

  /** In every interleaving at most one background rescan runs; a scan that asks for one and finds its
      interface leaves one running, its own or an earlier one; and one whose lookup raises, or that does not
      ask, starts none. */
  lemma AtMostOneRescan(steps: seq<Step>, j: nat, k: nat, i: nat)
    requires IsRun(Rescans(None, [], []), steps)
    ensures var r := After(Rescans(None, [], []), steps);
      && (j < |r.running| && k < |r.running| && r.running[j] && r.running[k] ==> j == k)
      && (i < |r.scans| && r.scans[i] == FindingIface(true) ==>
            Busy(Do(r, Resume(i, true))) && Do(r, Resume(i, false)).running == r.running)
      && (i < |r.scans| && !r.scans[i].Over? && r.scans[i] != FindingIface(true) ==>
            Do(r, Resume(i, true)).running == r.running && Do(r, Resume(i, false)).running == r.running)
  {
    GuardHolds(Rescans(None, [], []), steps);
  }

  /** The module-level `_rescan_task` and its users, as `scan` handles them. */
  class Scanner {
    var current: Option<nat>
    var running: seq<bool>
    var scans: seq<ScanPc>

    ghost function View(): Rescans
      reads this
    {
      Rescans(current, running, scans)
    }

    constructor ()
      ensures View() == Rescans(None, [], [])
    {
      current, running, scans := None, [], [];
    }

    /** `scan` up to the answer of `get_wifi_iface`. */
    method Scan(rescan: bool)
      modifies this`scans
      ensures View() == Do(old(View()), Call(rescan))
    {
      scans := scans + [FindingIface(rescan)];
    }

    /** `scan` from there up to the listing, or from the listing to its end; or the awaited command raises. */
    method ResumeScan(i: nat, ok: bool)
      requires Can(View(), Resume(i, ok))
      modifies this
      ensures View() == Do(old(View()), Resume(i, ok))
    {
      if !ok {
        scans := scans[i := Over];
        return;
      }
      match scans[i]
      case FindingIface(rescan) =>
        if rescan && (current.None? || current.value >= |running| || !running[current.value]) {
          current := Some(|running|);
          running := running + [true];
        }
        scans := scans[i := Listing];
      case Listing =>
        scans := scans[i := Over];
    }
  }
}
