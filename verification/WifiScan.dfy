/** `wifi.scan`: from nmcli's access-point listing to the list of networks the UI shows. */
module WifiScan {
  import opened Text
  import Terse

  datatype Network = Network(ssid: string, signal: int, security: string, inUse: bool)

  // ---------- one line ----------

  /** What four raw fields mean; None when the network hides its SSID. */
  function Reading(inUse: string, ssid: string, signal: string, security: string): Option<Network> {
    if ssid == "" then None
    else Some(Network(ssid,
                      match ParseInt(signal) case Some(v) => v case None => 0,
                      if security == "" then "--" else security,
                      Strip(inUse) == "*"))
  }

  function NetworkOf(line: string): Option<Network> {
    var f := Terse.Fields(line);
    if |f| < 4 then None else Reading(f[0], f[1], f[2], f[3])
  }

  function Networks(lines: seq<string>): seq<Network> {
    if lines == [] then []
    else
      var n := |lines| - 1;
      Networks(lines[..n]) + (match NetworkOf(lines[n]) case Some(net) => [net] case None => [])
  }

  lemma {:induction false} NetworksAreNamed(lines: seq<string>)
    ensures forall i :: 0 <= i < |Networks(lines)| ==> Networks(lines)[i].ssid != ""
  {
    if lines != [] { NetworksAreNamed(lines[..|lines| - 1]); }
  }

  // ---------- the dictionary of the strongest network per SSID ----------

  /** A Python dict from SSID to network: `order` is its insertion order. */
  datatype Seen = Seen(order: seq<string>, best: map<string, Network>) {
    predicate Valid() {
      && (forall i :: 0 <= i < |order| ==> order[i] in best)
      && (forall s :: s in best ==> s in order)
    }

    function Put(net: Network): (r: Seen)
      requires Valid()
      ensures r.Valid()
    {
      var r := Seen(if net.ssid in best then order else order + [net.ssid], best[net.ssid := net]);
      assert forall s :: s in r.best ==> s == net.ssid || s in best;
      assert net.ssid !in best ==> r.order[|order|] == net.ssid;
      r
    }

    function Insert(net: Network): (r: Seen)
      requires Valid()
      ensures r.Valid()
    {
      if net.ssid !in best || net.signal > best[net.ssid].signal then Put(net) else this
    }

    function Values(): seq<Network>
      requires Valid()
    {
      seq(|order|, i requires 0 <= i < |order| => best[order[i]])
    }
  }

  function Reduce(ns: seq<Network>): (r: Seen)
    ensures r.Valid()
  {
    if ns == [] then Seen([], map[])
    else Reduce(ns[..|ns| - 1]).Insert(ns[|ns| - 1])
  }

  // ---------- sorting and slicing ----------

  function Place(net: Network, sorted: seq<Network>): seq<Network> {
    if sorted == [] || sorted[0].signal <= net.signal then [net] + sorted
    else [sorted[0]] + Place(net, sorted[1..])
  }

  /** `sorted(nets, key=signal, reverse=True)`: descending and stable. */
  function SortDesc(nets: seq<Network>): seq<Network> {
    if nets == [] then [] else Place(nets[0], SortDesc(nets[1..]))
  }

  /** `nets[:limit] if limit else nets`; a negative limit drops from the end. */
  function Slice(nets: seq<Network>, limit: int): seq<Network> {
    if limit == 0 then nets
    else if limit > 0 then nets[..if limit < |nets| then limit else |nets|]
    else nets[..if |nets| + limit > 0 then |nets| + limit else 0]
  }

  /** The list `scan` returns for a listing `out`. */
  function ScanNets(out: string, limit: int): seq<Network> {
    Slice(SortDesc(Reduce(Networks(SplitLines(out))).Values()), limit)
  }

  /** The reduction loop of `scan`, run on the text of a successful listing. */
  method Scan(out: string, limit: int) returns (nets: seq<Network>)
    ensures nets == ScanNets(out, limit)
    ensures limit >= 0 ==> IsScanResult(Networks(SplitLines(out)), limit, nets)
  {
    var lines := SplitLines(out);
    var order: seq<string>, best: map<string, Network> := [], map[];
    for i := 0 to |lines|
      invariant Seen(order, best) == Reduce(Networks(lines[..i]))
    {
      ReduceNextLine(lines, i);
      var fields := Terse.ParseTerse(lines[i]);
      if |fields| < 4 {
        continue;
      }
      var ssid := fields[1];
      if ssid == "" {
        continue;
      }
      var parsed := ParseInt(fields[2]);
      var signal := if parsed.Some? then parsed.value else 0;
      var net := Network(ssid, signal, if fields[3] == "" then "--" else fields[3], Strip(fields[0]) == "*");
      if ssid !in best {
        order := order + [ssid];
        best := best[ssid := net];
      } else if net.signal > best[ssid].signal {
        best := best[ssid := net];
      }
    }
    assert lines[..|lines|] == lines;
    nets := Slice(SortDesc(Seen(order, best).Values()), limit);
    if limit >= 0 { ScanMeetsSpec(out, limit); }
  }

  lemma ReduceNextLine(lines: seq<string>, i: nat)
    requires i < |lines|
    ensures Reduce(Networks(lines[..i + 1])) ==
      match NetworkOf(lines[i])
      case Some(net) => Reduce(Networks(lines[..i])).Insert(net)
      case None => Reduce(Networks(lines[..i]))
  {
    var before := Networks(lines[..i]);
    assert lines[..i + 1][..i] == lines[..i];
    match NetworkOf(lines[i])
    case Some(net) => assert (before + [net])[..|before|] == before;
    case None => assert before + [] == before;
  }

  // ---------- what a scan result is ----------

  /** The i-th network is the first to reach the maximum signal of its SSID. */
  ghost predicate ChampionAt(ns: seq<Network>, i: nat)
    requires i < |ns|
  {
    forall j :: 0 <= j < |ns| && ns[j].ssid == ns[i].ssid ==>
      ns[j].signal <= ns[i].signal && (j < i ==> ns[j].signal < ns[i].signal)
  }

  ghost predicate Champion(ns: seq<Network>, e: Network) {
    exists i :: 0 <= i < |ns| && ns[i] == e && ChampionAt(ns, i)
  }

  /** Where an SSID first appears. */
  function FirstAt(ns: seq<Network>, ssid: string): nat {
    if ns == [] || ns[0].ssid == ssid then 0 else 1 + FirstAt(ns[1..], ssid)
  }

  /** Stronger first; equal signals in order of the SSID's first appearance. */
  predicate Before(ns: seq<Network>, a: Network, b: Network) {
    a.signal > b.signal || (a.signal == b.signal && FirstAt(ns, a.ssid) < FirstAt(ns, b.ssid))
  }

  ghost predicate Ordered(ns: seq<Network>, r: seq<Network>) {
    forall a, b :: 0 <= a < b < |r| ==> Before(ns, r[a], r[b])
  }

  /** The declarative result: only champions, in order, and a champion is missing only when the
      limit is reached by champions that come before it. */
  ghost predicate IsScanResult(ns: seq<Network>, limit: nat, r: seq<Network>) {
    && (forall e :: e in r ==> Champion(ns, e))
    && Ordered(ns, r)
    && (limit != 0 ==> |r| <= limit)
    && (forall e :: Champion(ns, e) && e !in r ==>
          limit != 0 && |r| == limit && forall x :: x in r ==> Before(ns, x, e))
  }

  // ---------- the dictionary loop finds the champions ----------

  lemma {:induction false} FirstAtSnoc(ns: seq<Network>, x: Network, ssid: string)
    ensures FirstAt(ns, ssid) <= |ns|
    ensures (exists i :: 0 <= i < |ns| && ns[i].ssid == ssid) <==> FirstAt(ns, ssid) < |ns|
    ensures FirstAt(ns, ssid) < |ns| ==> FirstAt(ns + [x], ssid) == FirstAt(ns, ssid)
    ensures FirstAt(ns, ssid) == |ns| && x.ssid == ssid ==> FirstAt(ns + [x], ssid) == |ns|
  {
    if ns != [] {
      FirstAtSnoc(ns[1..], x, ssid);
      assert (ns + [x])[1..] == ns[1..] + [x];
      if ns[0].ssid != ssid {
        if i :| 0 <= i < |ns| && ns[i].ssid == ssid { assert ns[1..][i - 1] == ns[i]; }
        if i :| 0 <= i < |ns[1..]| && ns[1..][i].ssid == ssid { assert ns[i + 1] == ns[1..][i]; }
      }
    }
  }

  ghost predicate Reduced(ns: seq<Network>, r: Seen)
    requires r.Valid()
  {
    && (forall i :: 0 <= i < |ns| ==> ns[i].ssid in r.best)
    && (forall s :: s in r.best ==> r.best[s].ssid == s && Champion(ns, r.best[s]))
    && (forall a, b :: 0 <= a < b < |r.order| ==> FirstAt(ns, r.order[a]) < FirstAt(ns, r.order[b]))
  }

  lemma ChampionSnoc(ns: seq<Network>, x: Network, e: Network)
    requires Champion(ns, e)
    requires e.ssid == x.ssid ==> x.signal <= e.signal
    ensures Champion(ns + [x], e)
  {
    var i :| 0 <= i < |ns| && ns[i] == e && ChampionAt(ns, i);
    assert (ns + [x])[i] == e && ChampionAt(ns + [x], i);
  }

  lemma InsertKeepsChampions(m: seq<Network>, x: Network, was: Seen, s: string)
    requires was.Valid() && Reduced(m, was) && s in was.Insert(x).best
    ensures was.Insert(x).best[s].ssid == s && Champion(m + [x], was.Insert(x).best[s])
  {
    var ns := m + [x];
    if s == x.ssid && (s !in was.best || x.signal > was.best[s].signal) {
      if s in was.best {
        var i :| 0 <= i < |m| && m[i] == was.best[s] && ChampionAt(m, i);
      }
      assert ns[|m|] == x && ChampionAt(ns, |m|);
    } else {
      ChampionSnoc(m, x, was.best[s]);
    }
  }

  lemma InsertKeepsOrder(m: seq<Network>, x: Network, was: Seen)
    requires was.Valid() && Reduced(m, was)
    ensures var order := was.Insert(x).order;
      forall a, b :: 0 <= a < b < |order| ==> FirstAt(m + [x], order[a]) < FirstAt(m + [x], order[b])
  {
    forall s | s in was.best
      ensures FirstAt(m, s) < |m| && FirstAt(m + [x], s) == FirstAt(m, s)
    {
      FirstAtSnoc(m, x, s);
      var i :| 0 <= i < |m| && m[i] == was.best[s];
      assert m[i].ssid == s;
    }
    FirstAtSnoc(m, x, x.ssid);
  }

  lemma {:induction false} ReduceFindsChampions(ns: seq<Network>)
    ensures Reduced(ns, Reduce(ns))
  {
    if ns != [] {
      var m := ns[..|ns| - 1];
      var x := ns[|ns| - 1];
      assert ns == m + [x];
      ReduceFindsChampions(m);
      forall s | s in Reduce(m).Insert(x).best
        ensures Reduce(m).Insert(x).best[s].ssid == s && Champion(ns, Reduce(m).Insert(x).best[s])
      {
        InsertKeepsChampions(m, x, Reduce(m), s);
      }
      InsertKeepsOrder(m, x, Reduce(m));
    }
  }

  // ---------- the stable sort puts them in order ----------

  lemma {:induction false} PlaceKeeps(net: Network, t: seq<Network>)
    ensures |Place(net, t)| == |t| + 1
    ensures forall e :: e in Place(net, t) <==> e == net || e in t
  {
    if t != [] && t[0].signal > net.signal {
      PlaceKeeps(net, t[1..]);
      assert t == [t[0]] + t[1..];
    }
  }

  lemma {:induction false} PlaceOrders(ns: seq<Network>, net: Network, t: seq<Network>)
    requires Ordered(ns, t)
    requires forall e :: e in t ==> FirstAt(ns, net.ssid) < FirstAt(ns, e.ssid)
    ensures Ordered(ns, Place(net, t))
  {
    if t != [] && t[0].signal > net.signal {
      assert Ordered(ns, t[1..]) by {
        assert forall i :: 0 <= i < |t[1..]| ==> t[1..][i] == t[i + 1];
      }
      PlaceOrders(ns, net, t[1..]);
      PlaceKeeps(net, t[1..]);
      var r := Place(net, t[1..]);
      forall b | 0 <= b < |r|
        ensures Before(ns, t[0], r[b])
      {
        assert r[b] in r;
        if r[b] != net {
          var k :| 0 <= k < |t[1..]| && t[1..][k] == r[b];
          assert t[k + 1] == r[b];
        }
      }
    } else if t != [] {
      forall b | 0 <= b < |t|
        ensures Before(ns, net, t[b])
      {
        assert b > 0 ==> Before(ns, t[0], t[b]);
        assert t[b] in t;
      }
    }
  }

  lemma {:induction false} SortOrders(ns: seq<Network>, vals: seq<Network>)
    requires forall a, b :: 0 <= a < b < |vals| ==> FirstAt(ns, vals[a].ssid) < FirstAt(ns, vals[b].ssid)
    ensures Ordered(ns, SortDesc(vals))
    ensures |SortDesc(vals)| == |vals| && forall e :: e in SortDesc(vals) <==> e in vals
  {
    if vals != [] {
      var rest := vals[1..];
      SortOrders(ns, rest);
      PlaceKeeps(vals[0], SortDesc(rest));
      assert vals == [vals[0]] + rest;
      forall e | e in SortDesc(rest)
        ensures FirstAt(ns, vals[0].ssid) < FirstAt(ns, e.ssid)
      {
        var k :| 0 <= k < |rest| && rest[k] == e;
        assert vals[k + 1] == e;
      }
      PlaceOrders(ns, vals[0], SortDesc(rest));
    }
  }

  /** There is one champion per SSID. */
  lemma ChampionUnique(ns: seq<Network>, e: Network, f: Network)
    requires Champion(ns, e) && Champion(ns, f) && e.ssid == f.ssid
    ensures e == f
  {
    var i :| 0 <= i < |ns| && ns[i] == e && ChampionAt(ns, i);
    var j :| 0 <= j < |ns| && ns[j] == f && ChampionAt(ns, j);
  }

  lemma ChampionIsListed(ns: seq<Network>, r: Seen, e: Network)
    requires r.Valid() && Reduced(ns, r) && Champion(ns, e)
    ensures e in r.Values()
  {
    var i :| 0 <= i < |ns| && ns[i] == e && ChampionAt(ns, i);
    assert ns[i].ssid in r.best;
    ChampionUnique(ns, e, r.best[e.ssid]);
    var k :| 0 <= k < |r.order| && r.order[k] == e.ssid;
    assert r.Values()[k] == e;
  }

  lemma ListedAreChampions(ns: seq<Network>, r: Seen)
    requires r.Valid() && Reduced(ns, r)
    ensures forall e :: e in r.Values() ==> Champion(ns, e)
    ensures forall a, b :: 0 <= a < b < |r.Values()| ==>
      FirstAt(ns, r.Values()[a].ssid) < FirstAt(ns, r.Values()[b].ssid)
  {
  }

  lemma SortedChampions(ns: seq<Network>)
    ensures IsScanResult(ns, 0, SortDesc(Reduce(ns).Values()))
  {
    var r := Reduce(ns);
    ReduceFindsChampions(ns);
    ListedAreChampions(ns, r);
    SortOrders(ns, r.Values());
    forall e | Champion(ns, e)
      ensures e in r.Values()
    {
      ChampionIsListed(ns, r, e);
    }
  }

  lemma SliceKeepsSpec(ns: seq<Network>, all: seq<Network>, limit: nat)
    requires IsScanResult(ns, 0, all)
    ensures IsScanResult(ns, limit, Slice(all, limit))
  {
    var r := Slice(all, limit);
    forall e | Champion(ns, e) && e !in r
      ensures limit != 0 && |r| == limit && forall x :: x in r ==> Before(ns, x, e)
    {
      var k :| 0 <= k < |all| && all[k] == e;
      assert k >= |r|;
      forall x | x in r
        ensures Before(ns, x, e)
      {
        var j :| 0 <= j < |r| && r[j] == x;
        assert all[j] == x;
      }
    }
  }

  /** Dictionary, sort and slice compute the declarative result. */
  lemma ScanMeetsSpec(out: string, limit: nat)
    ensures IsScanResult(Networks(SplitLines(out)), limit, ScanNets(out, limit))
  {
    var ns := Networks(SplitLines(out));
    SortedChampions(ns);
    SliceKeepsSpec(ns, SortDesc(Reduce(ns).Values()), limit);
  }

  // ---------- the declarative result is the only one ----------

  lemma NotBeforeItself(ns: seq<Network>, r1: seq<Network>, r2: seq<Network>, j: nat, k: nat)
    requires Ordered(ns, r1) && j < k < |r1| && k <= |r2| && r1[..k] == r2[..k]
    ensures r2[j] != r1[k]
  {
    assert r1[..k][j] == r2[..k][j];
    assert Before(ns, r1[j], r1[k]);
  }

  /** Where two results stop agreeing, the second goes on with something no later. */
  lemma NextIsNoLater(ns: seq<Network>, limit: nat, r1: seq<Network>, r2: seq<Network>, k: nat)
    requires IsScanResult(ns, limit, r1) && IsScanResult(ns, limit, r2)
    requires k < |r1| && k <= |r2| && r1[..k] == r2[..k]
    ensures k < |r2| && (r1[k] == r2[k] || Before(ns, r2[k], r1[k]))
  {
    var e := r1[k];
    assert e in r1;
    forall j | 0 <= j < k ensures r2[j] != e { NotBeforeItself(ns, r1, r2, j, k); }
    if e in r2 {
      var j :| 0 <= j < |r2| && r2[j] == e;
    } else if k < |r2| {
      assert r2[k] in r2;
    }
  }

  lemma {:induction false} AgreeUpTo(ns: seq<Network>, limit: nat, r1: seq<Network>, r2: seq<Network>, k: nat)
    requires IsScanResult(ns, limit, r1) && IsScanResult(ns, limit, r2)
    requires k <= |r1|
    ensures k <= |r2| && r1[..k] == r2[..k]
  {
    if k > 0 {
      AgreeUpTo(ns, limit, r1, r2, k - 1);
      var i := k - 1;
      NextIsNoLater(ns, limit, r1, r2, i);
      NextIsNoLater(ns, limit, r2, r1, i);
      assert r1[..k] == r1[..i] + [r1[i]];
      assert r2[..k] == r2[..i] + [r2[i]];
    }
  }

  /** The specification leaves no freedom: a list meets it exactly when it is the one `scan` computes. */
  lemma ScanIsTheOnlyResult(out: string, limit: nat, r: seq<Network>)
    ensures IsScanResult(Networks(SplitLines(out)), limit, r) <==> r == ScanNets(out, limit)
  {
    var ns := Networks(SplitLines(out));
    var s := ScanNets(out, limit);
    ScanMeetsSpec(out, limit);
    if IsScanResult(ns, limit, r) {
      AgreeUpTo(ns, limit, r, s, |r|);
      AgreeUpTo(ns, limit, s, r, |s|);
      assert r[..|r|] == r && s[..|s|] == s;
    }
  }

  lemma {:induction false} FirstAtHits(ns: seq<Network>, i: nat)
    requires i < |ns|
    ensures FirstAt(ns, ns[i].ssid) <= i && ns[FirstAt(ns, ns[i].ssid)].ssid == ns[i].ssid
  {
    if ns[0].ssid != ns[i].ssid {
      assert ns[1..][i - 1] == ns[i];
      FirstAtHits(ns[1..], i - 1);
    }
  }

  lemma FirstAtOnly(ns: seq<Network>, i: nat)
    requires i < |ns| && forall j :: 0 <= j < i ==> ns[j].ssid != ns[i].ssid
    ensures FirstAt(ns, ns[i].ssid) == i
  {
    FirstAtHits(ns, i);
  }

  predicate DistinctDescending(nets: seq<Network>) {
    forall i, j :: 0 <= i < j < |nets| ==> nets[i].ssid != nets[j].ssid && nets[i].signal >= nets[j].signal
  }

  lemma ReducedIsResult(ns: seq<Network>, limit: nat)
    requires DistinctDescending(ns) && (limit == 0 || |ns| <= limit)
    ensures IsScanResult(ns, limit, ns)
  {
    forall e | e in ns
      ensures Champion(ns, e)
    {
      var i :| 0 <= i < |ns| && ns[i] == e;
      assert ChampionAt(ns, i);
    }
    forall a, b | 0 <= a < b < |ns|
      ensures Before(ns, ns[a], ns[b])
    {
      FirstAtOnly(ns, a);
      FirstAtOnly(ns, b);
    }
  }

  /** A listing that is already reduced and in order passes through unchanged. */
  lemma ReducedListingIsFixed(out: string, limit: nat)
    requires DistinctDescending(Networks(SplitLines(out)))
    requires limit == 0 || |Networks(SplitLines(out))| <= limit
    ensures ScanNets(out, limit) == Networks(SplitLines(out))
  {
    ReducedIsResult(Networks(SplitLines(out)), limit);
    ScanIsTheOnlyResult(out, limit, Networks(SplitLines(out)));
  }

  // ---------- consequences ----------

  ghost function Ssids(ns: seq<Network>): set<string> {
    set i | 0 <= i < |ns| :: ns[i].ssid
  }

  lemma ResultShape(ns: seq<Network>, limit: nat, r: seq<Network>)
    requires IsScanResult(ns, limit, r)
    ensures DistinctDescending(r)
    ensures forall i :: 0 <= i < |r| ==> r[i].ssid in Ssids(ns)
  {
    forall i, j | 0 <= i < j < |r|
      ensures r[i].ssid != r[j].ssid && r[i].signal >= r[j].signal
    {
      assert Before(ns, r[i], r[j]);
      assert r[i] in r && r[j] in r;
      if r[i].ssid == r[j].ssid { assert false; }
    }
    forall i | 0 <= i < |r|
      ensures r[i].ssid in Ssids(ns)
    {
      assert r[i] in r;
      var k :| 0 <= k < |ns| && ns[k] == r[i] && ChampionAt(ns, k);
    }
  }

  /** SSIDs are non-empty and distinct, and signals never increase. */
  lemma ScanShape(out: string, limit: nat)
    ensures DistinctDescending(ScanNets(out, limit))
    ensures forall i :: 0 <= i < |ScanNets(out, limit)| ==> ScanNets(out, limit)[i].ssid != ""
  {
    var ns := Networks(SplitLines(out));
    ScanMeetsSpec(out, limit);
    NetworksAreNamed(SplitLines(out));
    ResultShape(ns, limit, ScanNets(out, limit));
  }

  /** With a positive limit the length is the smaller of the limit and the number of distinct SSIDs;
      limit 0 means no limit. */
  lemma ScanLength(out: string, limit: nat)
    ensures var ssids := Ssids(Networks(SplitLines(out)));
      |ScanNets(out, limit)| == if limit > 0 && limit < |ssids| then limit else |ssids|
  {
    var ns := Networks(SplitLines(out));
    CountSsids(ns);
    ReduceFindsChampions(ns);
    SortOrders(ns, Reduce(ns).Values());
  }

  lemma CountSsids(ns: seq<Network>)
    ensures |Reduce(ns).order| == |Ssids(ns)|
  {
    ReduceFindsChampions(ns);
    var r := Reduce(ns);
    var ssids := Ssids(ns);
    forall s | s in r.order
      ensures s in ssids
    {
      assert Champion(ns, r.best[s]);
      var k :| 0 <= k < |ns| && ns[k] == r.best[s] && ChampionAt(ns, k);
      assert ns[k].ssid == s;
    }
    forall s | s in ssids
      ensures s in r.order
    {
      var i :| 0 <= i < |ns| && ns[i].ssid == s;
    }
    DistinctCount(r.order, ssids);
  }

  lemma {:induction false} DistinctCount(xs: seq<string>, s: set<string>)
    requires forall i, j :: 0 <= i < j < |xs| ==> xs[i] != xs[j]
    requires forall x :: x in xs <==> x in s
    ensures |xs| == |s|
  {
    if xs != [] {
      var n := |xs| - 1;
      assert xs == xs[..n] + [xs[n]];
      DistinctCount(xs[..n], s - {xs[n]});
    } else {
      assert s == {};
    }
  }

  lemma {:induction false} SortLength(nets: seq<Network>)
    ensures |SortDesc(nets)| == |nets|
  {
    if nets != [] {
      SortLength(nets[1..]);
      PlaceKeeps(nets[0], SortDesc(nets[1..]));
    }
  }

  lemma {:induction false} SortIdentity(nets: seq<Network>)
    requires forall i, j :: 0 <= i < j < |nets| ==> nets[i].signal >= nets[j].signal
    ensures SortDesc(nets) == nets
  {
    if nets != [] {
      assert forall i :: 0 <= i < |nets[1..]| ==> nets[1..][i] == nets[i + 1];
      SortIdentity(nets[1..]);
      assert nets == [nets[0]] + nets[1..];
    }
  }

  lemma ScanAtMost(out: string, limit: nat)
    requires limit > 0
    ensures |ScanNets(out, limit)| <= limit
  {
  }

  /** The stream's defensive second sort changes nothing: `scan` is already descending, and the sort
      is stable. */
  lemma ResortIsIdentity(out: string, limit: nat)
    ensures SortDesc(ScanNets(out, limit)) == ScanNets(out, limit)
  {
    ScanShape(out, limit);
    SortIdentity(ScanNets(out, limit));
  }

  // ---------- a listing as nmcli prints it ----------

  /** One row of the access-point table. */
  datatype Row = Row(inUse: string, ssid: string, signal: string, security: string)

  function RowFields(row: Row): seq<string> { [row.inUse, row.ssid, row.signal, row.security] }

  predicate OneLineRow(row: Row) {
    OneLine(row.inUse) && OneLine(row.ssid) && OneLine(row.signal) && OneLine(row.security)
  }

  function RowLines(table: seq<Row>): (r: seq<string>)
    ensures |r| == |table|
  {
    if table == [] then [] else RowLines(table[..|table| - 1]) + [Terse.Render(RowFields(table[|table| - 1]))]
  }

  function Listing(table: seq<Row>): string { Unlines(RowLines(table)) }

  /** The rows' own meaning, with no text in between. */
  function Readings(table: seq<Row>): seq<Network> {
    if table == [] then []
    else
      var n := |table| - 1;
      var row := table[n];
      Readings(table[..n]) +
      (match Reading(row.inUse, row.ssid, row.signal, row.security) case Some(net) => [net] case None => [])
  }

  lemma ReadingsSnoc(table: seq<Row>, row: Row, net: Network)
    requires Reading(row.inUse, row.ssid, row.signal, row.security) == Some(net)
    ensures Readings(table + [row]) == Readings(table) + [net]
  {
    assert (table + [row])[..|table|] == table;
  }

  lemma ReadingsStep(table: seq<Row>, row: Row)
    ensures Readings(table + [row]) == Readings(table) +
      match Reading(row.inUse, row.ssid, row.signal, row.security) case Some(net) => [net] case None => []
  {
    assert (table + [row])[..|table|] == table;
  }

  lemma RowReads(row: Row)
    requires OneLineRow(row)
    ensures var line := Terse.Render(RowFields(row));
      OneLine(line) && NetworkOf(line) == Reading(row.inUse, row.ssid, row.signal, row.security)
  {
    Terse.RoundTrip(RowFields(row));
    Terse.RenderOneLine(RowFields(row));
  }

  lemma {:induction false} RowLinesParse(table: seq<Row>)
    requires forall i :: 0 <= i < |table| ==> OneLineRow(table[i])
    ensures Networks(RowLines(table)) == Readings(table)
    ensures forall i :: 0 <= i < |table| ==> OneLine(RowLines(table)[i])
  {
    if table != [] {
      var n := |table| - 1;
      RowLinesParse(table[..n]);
      RowReads(table[n]);
      assert RowLines(table)[..n] == RowLines(table[..n]);
    }
  }

  /** For every table without line breaks inside its fields, escaping, printing, splitting and
      parsing lose nothing. */
  lemma ListingReads(table: seq<Row>)
    requires forall i :: 0 <= i < |table| ==> OneLineRow(table[i])
    ensures Networks(SplitLines(Listing(table))) == Readings(table)
  {
    RowLinesParse(table);
    SplitUnlines(RowLines(table));
  }

  // ---------- access points as they are ----------

  /** An access point as NetworkManager knows it; one that hides its SSID has an empty one, an open one an
      empty security. */
  datatype AccessPoint = AccessPoint(inUse: bool, ssid: string, signal: int, security: string)

  /** The row nmcli makes of it. */
  function RowOf(ap: AccessPoint): Row {
    Row(if ap.inUse then "*" else " ", ap.ssid, SignedDecimal(ap.signal), ap.security)
  }

  function Table(aps: seq<AccessPoint>): (r: seq<Row>)
    ensures |r| == |aps| && forall i :: 0 <= i < |r| ==> r[i] == RowOf(aps[i])
  {
    seq(|aps|, i requires 0 <= i < |aps| => RowOf(aps[i]))
  }

  /** The network an access point shows, with "--" for no security. */
  function Entry(ap: AccessPoint): seq<Network> {
    if ap.ssid == "" then []
    else [Network(ap.ssid, ap.signal, if ap.security == "" then "--" else ap.security, ap.inUse)]
  }

  /** The networks there are: those of the access points with an SSID, in order. */
  function Visible(aps: seq<AccessPoint>): seq<Network> {
    if aps == [] then [] else Visible(aps[..|aps| - 1]) + Entry(aps[|aps| - 1])
  }

  predicate OneLinePoint(ap: AccessPoint) { OneLine(ap.ssid) && OneLine(ap.security) }

  lemma StripMark(mark: string)
    requires mark == "*" || mark == " "
    ensures Strip(mark) == "*" <==> mark == "*"
  {
    StripFixes(mark);
    if mark == " " { assert LStrip(mark) == LStrip(mark[1..]) == ""; }
  }

  /** A row that nmcli made reads back as the access point it was made from. */
  lemma PointReads(ap: AccessPoint)
    requires OneLinePoint(ap)
    ensures OneLineRow(RowOf(ap))
    ensures var r := RowOf(ap);
      Reading(r.inUse, r.ssid, r.signal, r.security) ==
        if ap.ssid == "" then None
        else Some(Network(ap.ssid, ap.signal, if ap.security == "" then "--" else ap.security, ap.inUse))
  {
    ParseSignedDecimal(ap.signal);
    SignedDecimalOneLine(ap.signal);
    StripMark(RowOf(ap).inUse);
  }

  lemma RowShows(table: seq<Row>, ap: AccessPoint)
    requires OneLinePoint(ap)
    ensures Readings(table + [RowOf(ap)]) == Readings(table) + Entry(ap)
  {
    PointReads(ap);
    ReadingsStep(table, RowOf(ap));
  }

  lemma {:induction false} TableReads(aps: seq<AccessPoint>)
    requires forall i :: 0 <= i < |aps| ==> OneLinePoint(aps[i])
    ensures Readings(Table(aps)) == Visible(aps)
  {
    if aps != [] {
      var n := |aps| - 1;
      TableReads(aps[..n]);
      TableSnoc(aps);
      RowShows(Table(aps[..n]), aps[n]);
    }
  }

  lemma TableSnoc(aps: seq<AccessPoint>)
    requires aps != []
    ensures Table(aps) == Table(aps[..|aps| - 1]) + [RowOf(aps[|aps| - 1])]
  {
  }

  lemma TableOneLine(aps: seq<AccessPoint>)
    requires forall i :: 0 <= i < |aps| ==> OneLinePoint(aps[i])
    ensures forall i :: 0 <= i < |aps| ==> OneLineRow(Table(aps)[i])
  {
    forall i | 0 <= i < |aps| ensures OneLineRow(Table(aps)[i]) { PointReads(aps[i]); }
  }

  /** For all access points whose SSIDs and security names are on one line: nmcli's rendering, read and
      reduced, is the declarative result over the networks there are. */
  lemma ScanShowsWhatIsThere(aps: seq<AccessPoint>, limit: nat)
    requires forall i :: 0 <= i < |aps| ==> OneLinePoint(aps[i])
    ensures Networks(SplitLines(Listing(Table(aps)))) == Visible(aps)
    ensures IsScanResult(Visible(aps), limit, ScanNets(Listing(Table(aps)), limit))
  {
    TableReads(aps);
    TableOneLine(aps);
    ListingReads(Table(aps));
    ScanMeetsSpec(Listing(Table(aps)), limit);
  }

  /** A signal that is no number counts as 0. */
  lemma BadSignalIsZero(mark: string, ssid: string, signal: string, security: string, i: nat)
    requires ssid != "" && i < |Strip(signal)| && NotInNumber(Strip(signal)[i])
    ensures Reading(mark, ssid, signal, security).value.signal == 0
  {
    NotANumber(signal, i);
  }

  /** A negative limit drops that many from the end of the unlimited result. */
  lemma NegativeLimit(out: string, limit: int)
    requires limit < 0
    ensures var all, r := ScanNets(out, 0), ScanNets(out, limit);
      r <= all && |r| == if |all| + limit > 0 then |all| + limit else 0
  {
  }

  /** The in-use flag belongs to an access point, not to an SSID: the entry shown for a network in
      use is flagged exactly when its first strongest access point is the one in use. */
  lemma InUseFlagFollowsStrongest(ns: seq<Network>, limit: nat, r: seq<Network>, e: Network)
    requires IsScanResult(ns, limit, r) && e in r
    ensures e.inUse <==> exists i :: 0 <= i < |ns| && ns[i].ssid == e.ssid && ns[i].inUse && ChampionAt(ns, i)
  {
    var k :| 0 <= k < |ns| && ns[k] == e && ChampionAt(ns, k);
    forall i | 0 <= i < |ns| && ns[i].ssid == e.ssid && ChampionAt(ns, i)
      ensures ns[i] == e
    {
      assert Champion(ns, ns[i]);
      ChampionUnique(ns, ns[i], e);
    }
  }

  // ---------- choosing the interface ----------

  const WIFI_IFACE_FALLBACK := "wlan0"

  predicate WifiLine(line: string) {
    var f := Terse.Fields(line);
    |f| >= 2 && f[1] == "wifi"
  }

  /** The device of the first line of type wifi; the fallback if there is none or the listing failed. */
  ghost predicate IsWifiIface(rc: int, out: string, iface: string) {
    var lines := SplitLines(out);
    if rc == 0 && exists i :: 0 <= i < |lines| && WifiLine(lines[i])
    then exists i :: 0 <= i < |lines| && WifiLine(lines[i]) && iface == Terse.Fields(lines[i])[0]
                     && forall j :: 0 <= j < i ==> !WifiLine(lines[j])
    else iface == WIFI_IFACE_FALLBACK
  }

  /** `get_wifi_iface`, on the outcome of its listing. */
  method WifiIface(rc: int, out: string) returns (iface: string)
    ensures IsWifiIface(rc, out, iface)
  {
    if rc == 0 {
      var lines := SplitLines(out);
      for i := 0 to |lines|
        invariant forall j :: 0 <= j < i ==> !WifiLine(lines[j])
      {
        var fields := Terse.ParseTerse(lines[i]);
        if |fields| >= 2 && fields[1] == "wifi" {
          return fields[0];
        }
      }
    }
    iface := WIFI_IFACE_FALLBACK;
  }

  datatype Device = Device(name: string, kind: string)

  function DeviceLines(devs: seq<Device>): (r: seq<string>)
    ensures |r| == |devs| && forall i :: 0 <= i < |r| ==> r[i] == Terse.Render([devs[i].name, devs[i].kind])
  {
    seq(|devs|, i requires 0 <= i < |devs| => Terse.Render([devs[i].name, devs[i].kind]))
  }

  predicate OneLineDevice(d: Device) { OneLine(d.name) && OneLine(d.kind) }

  lemma DeviceReads(d: Device)
    requires OneLineDevice(d)
    ensures var line := Terse.Render([d.name, d.kind]); OneLine(line) && Terse.Fields(line) == [d.name, d.kind]
  {
    Terse.RenderOneLine([d.name, d.kind]);
    Terse.RoundTrip([d.name, d.kind]);
  }

  lemma FirstWifiLine(rc: int, out: string, iface: string, i: nat)
    requires i <= |SplitLines(out)| && forall k :: 0 <= k < i ==> !WifiLine(SplitLines(out)[k])
    requires i < |SplitLines(out)| ==> WifiLine(SplitLines(out)[i])
    ensures IsWifiIface(rc, out, iface) <==>
      iface == if rc == 0 && i < |SplitLines(out)| then Terse.Fields(SplitLines(out)[i])[0] else "wlan0"
  {
  }

  lemma KindDecides(d: Device)
    requires OneLineDevice(d)
    ensures var line := Terse.Render([d.name, d.kind]); WifiLine(line) <==> d.kind == "wifi"
  {
    DeviceReads(d);
  }

  /** Of the devices nmcli lists, the interface is the name of the first whose type is wifi, whatever
      characters it holds; and wlan0 if there is none or the listing failed. */
  lemma FirstWifiDevice(devs: seq<Device>, rc: int, iface: string, i: nat)
    requires forall k :: 0 <= k < |devs| ==> OneLineDevice(devs[k])
    requires i <= |devs| && forall k :: 0 <= k < i ==> devs[k].kind != "wifi"
    requires i < |devs| ==> devs[i].kind == "wifi"
    ensures IsWifiIface(rc, Unlines(DeviceLines(devs)), iface) <==>
      iface == if rc == 0 && i < |devs| then devs[i].name else "wlan0"
  {
    var lines := DeviceLines(devs);
    forall k | 0 <= k < |devs|
      ensures OneLine(lines[k]) && (WifiLine(lines[k]) <==> devs[k].kind == "wifi")
    {
      DeviceReads(devs[k]);
      KindDecides(devs[k]);
    }
    SplitUnlines(lines);
    FirstWifiLine(rc, Unlines(lines), iface, i);
    if i < |devs| { DeviceReads(devs[i]); }
  }
}
