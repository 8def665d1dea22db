/** `wifi.connect`: wipe every profile of the SSID, add a fresh one, verify it, bring it up. Any command
    may fail or time out at any point; a timeout raises. */
module WifiConnect {
  import opened Text
  import opened NetworkManager
  import Terse
  import WifiScan

  // ---------- comparing SSIDs ----------

  /** Stored and requested SSID are compared as the code does it: what nmcli prints for the stored one,
      still escaped, stripped, against the raw requested one. */
  predicate CodeMatch(stored: string, ssid: string) {
    Strip(Terse.Escape(stored) + "\n") == ssid
  }

  /** No ':' or '\' and no whitespace at either edge. */
  predicate Clean(s: string) { Terse.Plain(s) && Trimmed(s) }

  predicate Matches(p: Profile, ssid: string) { p.kind == WIFI_KIND && CodeMatch(p.ssid, ssid) }

  predicate Bears(p: Profile, ssid: string) { p.kind == WIFI_KIND && p.ssid == ssid }

  /** A clean stored SSID matches itself and nothing else; an unclean one never matches itself, and does
      match some other SSID. So a request finds the profile of its own SSID exactly when that is clean. */
  lemma MatchIsExactIffClean(stored: string, ssid: string)
    ensures Clean(stored) ==> (CodeMatch(stored, ssid) <==> stored == ssid)
    ensures CodeMatch(stored, stored) <==> Clean(stored)
    ensures !Clean(stored) ==> exists other :: other != stored && CodeMatch(stored, other)
  {
    var e := Terse.Escape(stored);
    StripNewline(e);
    Terse.EscapeLength(stored);
    StripFixes(e);
    if Strip(e) == stored && stored != "" {
      StripIsTrimmed(e);
      Terse.EscapeEdges(stored);
    }
    if !Clean(stored) {
      assert Strip(e) != stored && CodeMatch(stored, Strip(e));
    }
  }

  lemma StripIsTrimmed(s: string)
    ensures Trimmed(Strip(s))
  {
    LStripEdge(s);
    RStripEdge(LStrip(s));
    var l, r := LStrip(s), RStrip(LStrip(s));
    if r != "" { assert r[0] == l[0]; }
  }

  // ---------- the wipe ----------

  ghost function MatchSet(ps: seq<Profile>, ssid: string): set<string> {
    set p | p in ps && Matches(p, ssid) :: p.name
  }

  function WifiNames(ps: seq<Profile>): seq<string> {
    if ps == [] then []
    else WifiNames(ps[..|ps| - 1]) + if ps[|ps| - 1].kind == WIFI_KIND then [ps[|ps| - 1].name] else []
  }

  predicate OneLineProfiles(ps: seq<Profile>) {
    forall i :: 0 <= i < |ps| ==> OneLine(ps[i].name) && OneLine(ps[i].kind)
  }

  predicate Distinct(names: seq<string>) {
    forall i, j :: 0 <= i < j < |names| ==> names[i] != names[j]
  }

  /** Listing, reads and deletes all succeeded. */
  predicate WipeSucceeds(trail: seq<Call>) {
    forall i :: 0 <= i < |trail| ==>
      (trail[i].cmd.ListProfiles? || trail[i].cmd.ReadSsid? || trail[i].cmd.Delete? ==> trail[i].outcome.Succeeds?)
  }

  predicate NoTimeout(trail: seq<Call>) {
    forall i :: 0 <= i < |trail| ==> !trail[i].outcome.TimesOut?
  }

  /** The first timeout, if any, is the end. */
  predicate Prompt(trail: seq<Call>, timedOut: bool) {
    if timedOut
    then trail != [] && trail[|trail| - 1].outcome.TimesOut? && NoTimeout(trail[..|trail| - 1])
    else NoTimeout(trail)
  }

  predicate Tried(trail: seq<Call>, cmd: Command) {
    exists i :: 0 <= i < |trail| && trail[i].cmd == cmd
  }

  predicate Got(trail: seq<Call>, cmd: Command) {
    exists i :: 0 <= i < |trail| && trail[i].cmd == cmd && trail[i].outcome.Succeeds?
  }

  lemma TriedAppend(a: seq<Call>, b: seq<Call>, cmd: Command)
    ensures Tried(a + b, cmd) <==> Tried(a, cmd) || Tried(b, cmd)
    ensures Got(a + b, cmd) <==> Got(a, cmd) || Got(b, cmd)
  {
    var t := a + b;
    assert forall i :: 0 <= i < |a| ==> t[i] == a[i];
    assert forall i :: 0 <= i < |b| ==> t[|a| + i] == b[i];
    if i :| 0 <= i < |t| && t[i].cmd == cmd && i >= |a| { assert t[i] == b[i - |a|]; }
    if i :| 0 <= i < |t| && t[i].cmd == cmd && t[i].outcome.Succeeds? && i >= |a| { assert t[i] == b[i - |a|]; }
  }

  lemma TriedOne(c: Call, cmd: Command)
    ensures Tried([c], cmd) <==> c.cmd == cmd
    ensures Got([c], cmd) <==> c.cmd == cmd && c.outcome.Succeeds?
  {
    assert [c][0] == c;
  }

  lemma PromptSnoc(trail: seq<Call>, c: Call)
    requires NoTimeout(trail)
    ensures Prompt(trail + [c], c.outcome.TimesOut?)
  {
    assert (trail + [c])[..|trail|] == trail;
  }

  lemma PromptAppend(a: seq<Call>, b: seq<Call>, timedOut: bool)
    requires NoTimeout(a) && Prompt(b, timedOut)
    ensures Prompt(a + b, timedOut)
  {
    if timedOut { assert (a + b)[..|a + b| - 1] == a + b[..|b| - 1]; }
  }

  predicate ReadsOnly(trail: seq<Call>) {
    forall i :: 0 <= i < |trail| ==> trail[i].cmd.ListProfiles? || trail[i].cmd.ReadSsid? || trail[i].cmd.Devices?
  }

  lemma {:induction false} ReadsOnlyHistory(trail: seq<Call>)
    requires ReadsOnly(trail)
    ensures Gone(trail) == [] && !AddApplied(trail)
  {
    if trail != [] { ReadsOnlyHistory(trail[..|trail| - 1]); }
  }

  lemma {:induction false} ProfileLineAt(ps: seq<Profile>, i: nat)
    requires i < |ps|
    ensures ProfileLines(ps)[i] == Terse.Render([ps[i].name, ps[i].kind])
  {
    if i < |ps| - 1 { ProfileLineAt(ps[..|ps| - 1], i); }
  }

  lemma ProfileLineReads(p: Profile)
    requires OneLine(p.name) && OneLine(p.kind)
    ensures var line := Terse.Render([p.name, p.kind]);
      OneLine(line) && Terse.Fields(line) == [p.name, p.kind]
  {
    Terse.RenderOneLine([p.name, p.kind]);
    Terse.RoundTrip([p.name, p.kind]);
  }

  lemma ListingLines(ps: seq<Profile>)
    requires OneLineProfiles(ps)
    ensures SplitLines(Unlines(ProfileLines(ps))) == ProfileLines(ps)
    ensures forall i :: 0 <= i < |ps| ==> Terse.Fields(ProfileLines(ps)[i]) == [ps[i].name, ps[i].kind]
  {
    var lines := ProfileLines(ps);
    forall i | 0 <= i < |ps|
      ensures OneLine(lines[i]) && Terse.Fields(lines[i]) == [ps[i].name, ps[i].kind]
    {
      ProfileLineAt(ps, i);
      ProfileLineReads(ps[i]);
    }
    SplitUnlines(lines);
  }

  /** The listing names exactly the Wi-Fi profiles. */
  method Candidates(out: string, ghost ps: seq<Profile>) returns (candidates: seq<string>)
    requires OneLineProfiles(ps) && out == Unlines(ProfileLines(ps))
    ensures candidates == WifiNames(ps)
  {
    ListingLines(ps);
    var lines := SplitLines(out);
    candidates := [];
    for i := 0 to |lines|
      invariant candidates == WifiNames(ps[..i])
    {
      WifiNamesSnoc(ps, i);
      var fields := Terse.ParseTerse(lines[i]);
      if |fields| >= 2 && fields[1] == WIFI_KIND {
        candidates := candidates + [fields[0]];
      }
    }
    assert ps[..|ps|] == ps;
  }

  lemma WifiNamesSnoc(ps: seq<Profile>, i: nat)
    requires i < |ps|
    ensures WifiNames(ps[..i + 1]) ==
      if ps[i].kind == WIFI_KIND then WifiNames(ps[..i]) + [ps[i].name] else WifiNames(ps[..i])
  {
    assert ps[..i + 1][..i] == ps[..i];
  }

  lemma {:induction false} WifiNamesMembers(ps: seq<Profile>)
    ensures forall n :: n in WifiNames(ps) <==> exists p :: p in ps && p.name == n && p.kind == WIFI_KIND
    ensures NamesUnique(ps) ==> Distinct(WifiNames(ps))
  {
    if ps != [] {
      var k := |ps| - 1;
      WifiNamesMembers(ps[..k]);
      assert ps == ps[..k] + [ps[k]];
      if NamesUnique(ps) {
        assert NamesUnique(ps[..k]);
        var w := WifiNames(ps[..k]);
        forall i | 0 <= i < |w| ensures w[i] != ps[k].name {
          assert w[i] in w;
          var p :| p in ps[..k] && p.name == w[i] && p.kind == WIFI_KIND;
          var j :| 0 <= j < k && ps[j] == p;
        }
      }
    }
  }

  /** With unique names a name selects its one bearer, whatever `pick` says. */
  lemma SelectUnique(ps: seq<Profile>, name: string, pick: nat, p: Profile)
    requires NamesUnique(ps) && p in ps && p.name == name
    ensures Select(ps, name, pick) < |ps| && ps[Select(ps, name, pick)] == p
  {
    var j :| 0 <= j < |ps| && ps[j] == p;
    var i := Select(ps, name, pick);
    assert i < |ps|;
  }

  lemma HistoryRead(trail: seq<Call>, c: Call)
    requires ReadsOnly(trail) && (c.cmd.ListProfiles? || c.cmd.ReadSsid? || c.cmd.Devices?)
    ensures ReadsOnly(trail + [c]) && Seconds(trail + [c]) == Seconds(trail) + c.timeout
    ensures WipeSucceeds(trail + [c]) ==> WipeSucceeds(trail)
  {
    HistorySnoc(trail, c);
    if WipeSucceeds(trail + [c]) {
      assert forall i :: 0 <= i < |trail| ==> (trail + [c])[i] == trail[i];
    }
  }

  ghost predicate Borne(ps: seq<Profile>, name: string) {
    exists p :: p in ps && p.name == name
  }

  /** Whether the name's bearer matches; the read of its SSID tells when it succeeds. */
  ghost predicate Matching(ps: seq<Profile>, ssid: string, name: string) {
    exists p :: p in ps && p.name == name && Matches(p, ssid)
  }

  lemma ReadTells(st: Store, devices: string, name: string, ssid: string, o: Outcome)
    requires NamesUnique(st.profiles) && name in WifiNames(st.profiles)
    ensures var r := Answer(st, devices, ReadSsid(name), o);
      && (o.Succeeds? ==> r.Exited? && r.rc == 0 && (Strip(r.out) == ssid <==> Matching(st.profiles, ssid, name)))
      && (o.Fails? ==> r.Exited? && r.rc != 0)
  {
    WifiNamesMembers(st.profiles);
    var p :| p in st.profiles && p.name == name && p.kind == WIFI_KIND;
    if o.Succeeds? {
      SelectUnique(st.profiles, name, o.pick, p);
      forall q | q in st.profiles && q.name == name ensures q == p {
        var i :| 0 <= i < |st.profiles| && st.profiles[i] == p;
        var j :| 0 <= j < |st.profiles| && st.profiles[j] == q;
      }
    }
  }

  /** The name's bearer matches, and a read told so. */
  ghost predicate Found(ps: seq<Profile>, ssid: string, trail: seq<Call>, name: string) {
    Matching(ps, ssid, name) && Got(trail, ReadSsid(name))
  }

  /** What holds once the SSIDs of the profiles named in `seen` have been read: exactly those were kept of
      which a read told that they match, whatever became of the other reads. */
  ghost predicate Looked(ps: seq<Profile>, ssid: string, seen: seq<string>, found: seq<string>, trail: seq<Call>) {
    && ReadsOnly(trail) && Seconds(trail) == 5 * |trail| && Distinct(found)
    && (forall n :: n in found <==> Found(ps, ssid, trail, n))
    && (forall n :: n in seen <==> Tried(trail, ReadSsid(n)))
  }

  lemma LookStep(ps: seq<Profile>, ssid: string, seen: seq<string>, found: seq<string>, trail: seq<Call>,
                 name: string, o: Outcome, hit: bool)
    requires Looked(ps, ssid, seen, found, trail) && name !in seen
    requires o.Succeeds? ==> (hit <==> Matching(ps, ssid, name))
    requires !o.Succeeds? ==> !hit
    ensures Looked(ps, ssid, seen + [name], if hit then found + [name] else found,
                   trail + [Call(ReadSsid(name), 5, o)])
    ensures WipeSucceeds(trail + [Call(ReadSsid(name), 5, o)]) ==> o.Succeeds?
  {
    var c := Call(ReadSsid(name), 5, o);
    HistoryRead(trail, c);
    assert (trail + [c])[|trail|] == c;
    GotWasTried(trail, ReadSsid(name));
    var more := if hit then found + [name] else found;
    assert name !in found;
    forall n
      ensures n in more <==> Found(ps, ssid, trail + [c], n)
      ensures n in seen + [name] <==> Tried(trail + [c], ReadSsid(n))
    {
      TriedAppend(trail, [c], ReadSsid(n));
      TriedOne(c, ReadSsid(n));
    }
  }

  lemma GotWasTried(trail: seq<Call>, cmd: Command)
    ensures Got(trail, cmd) ==> Tried(trail, cmd)
    ensures (cmd.ListProfiles? || cmd.ReadSsid?) && WipeSucceeds(trail) && Tried(trail, cmd) ==> Got(trail, cmd)
  {
  }

  /** Reads one profile's SSID and keeps its name if that is the requested one. None after a timeout. */
  method LookAt(nm: Nmcli, ssid: string, name: string, found: seq<string>,
                ghost seen: seq<string>, ghost calls: seq<Call>, ghost trail: seq<Call>)
    returns (next: Option<seq<string>>, ghost longer: seq<Call>)
    requires nm.calls == calls + trail && NoTimeout(trail)
    requires NamesUnique(nm.st.profiles) && name in WifiNames(nm.st.profiles) && name !in seen
    requires Looked(nm.st.profiles, ssid, seen, found, trail)
    requires nm.Valid()
    modifies nm
    ensures nm.Valid()
    ensures longer == trail + [Call(ReadSsid(name), 5, nm.world(|old(nm.calls)|))] && nm.calls == calls + longer
    ensures nm.st == old(nm.st) && Prompt(longer, next.None?) && (WipeSucceeds(longer) ==> WipeSucceeds(trail))
    ensures Got(longer, ListProfiles) <==> Got(trail, ListProfiles)
    ensures next.Some? ==> Looked(nm.st.profiles, ssid, seen + [name], next.value, longer)
    ensures next.None? ==> ReadsOnly(longer) && Seconds(longer) == 5 * |longer| && !WipeSucceeds(longer)
  {
    ghost var ps := nm.st.profiles;
    ghost var o := nm.world(|nm.calls|);
    ghost var c := Call(ReadSsid(name), 5, o);
    longer := trail + [c];
    PromptSnoc(trail, c);
    WipeSnoc(trail, c);
    TriedAppend(trail, [c], ListProfiles);
    TriedOne(c, ListProfiles);
    assert calls + trail + [c] == calls + longer;
    ReadTells(nm.st, nm.devices, name, ssid, o);
    var r := nm.Run(ReadSsid(name), 5);
    var hit := r.Exited? && r.rc == 0 && Strip(r.out) == ssid;
    LookStep(ps, ssid, seen, found, trail, name, o, hit);
    next := if r.Timeout? then None else Some(if hit then found + [name] else found);
  }

  /** The listing names the Wi-Fi profiles, none if it fails, and is None when it times out. */
  method ListWifi(nm: Nmcli) returns (candidates: Option<seq<string>>, ghost trail: seq<Call>)
    requires NamesUnique(nm.st.profiles) && OneLineProfiles(nm.st.profiles)
    requires nm.Valid()
    modifies nm
    ensures nm.Valid()
    ensures nm.st == old(nm.st) && nm.calls == old(nm.calls) + trail
    ensures trail == [Call(ListProfiles, 5, nm.world(|old(nm.calls)|))] && Prompt(trail, candidates.None?)
    ensures candidates ==
      match trail[0].outcome
      case Succeeds(_, _) => Some(WifiNames(nm.st.profiles))
      case Fails(_, _, _, _, _, _) => Some([])
      case TimesOut(_, _, _) => None
  {
    ghost var ps := nm.st.profiles;
    trail := [Call(ListProfiles, 5, nm.world(|nm.calls|))];
    var r := nm.Run(ListProfiles, 5);
    if r.Timeout? { return None, trail; }
    if r.rc != 0 { return Some([]), trail; }
    var names := Candidates(r.out, ps);
    candidates := Some(names);
  }

  lemma LookedNothing(ps: seq<Profile>, ssid: string, c: Call)
    requires c.cmd.ListProfiles? && c.timeout == 5
    ensures Looked(ps, ssid, [], [], [c]) && Seconds([c]) == 5 && ReadsOnly([c])
    ensures Got([c], ListProfiles) <==> c.outcome.Succeeds?
    ensures WipeSucceeds([c]) ==> c.outcome.Succeeds?
  {
    OneCall(c);
    TriedOne(c, ListProfiles);
    assert [c][0] == c;
    forall n ensures !Tried([c], ReadSsid(n)) && !Got([c], ReadSsid(n)) { TriedOne(c, ReadSsid(n)); }
  }

  lemma LookedAll(ps: seq<Profile>, ssid: string, found: seq<string>, trail: seq<Call>)
    requires Looked(ps, ssid, WifiNames(ps), found, trail) && WipeSucceeds(trail)
    ensures forall n :: Matching(ps, ssid, n) ==> n in found
  {
    WifiNamesMembers(ps);
    forall n | Matching(ps, ssid, n)
      ensures n in found
    {
      GotWasTried(trail, ReadSsid(n));
    }
  }

  /** `_profiles_for_ssid`: exactly the names of matching profiles of which a read told so, each once; every
      Wi-Fi profile the listing named was read, whatever became of the other reads; so all matching ones are
      named when the listing and every read succeed. None when a command timed out. */
  method ProfilesForSsid(nm: Nmcli, ssid: string) returns (names: Option<seq<string>>, ghost trail: seq<Call>)
    requires NamesUnique(nm.st.profiles) && OneLineProfiles(nm.st.profiles)
    requires nm.Valid()
    modifies nm
    ensures nm.Valid()
    ensures nm.st == old(nm.st) && nm.calls == old(nm.calls) + trail && ReadsOnly(trail)
    ensures names.Some? ==>
      && Distinct(names.value)
      && (forall n :: n in names.value <==> Found(nm.st.profiles, ssid, trail, n))
      && (WipeSucceeds(trail) ==> forall n :: Matching(nm.st.profiles, ssid, n) ==> n in names.value)
      && (Got(trail, ListProfiles) ==> forall n :: n in WifiNames(nm.st.profiles) ==> Tried(trail, ReadSsid(n)))
    ensures WipeSucceeds(trail) ==> names.Some?
    ensures Prompt(trail, names.None?)
    ensures |trail| <= 1 + |WifiNames(nm.st.profiles)| && Seconds(trail) == 5 * |trail|
  {
    ghost var ps := nm.st.profiles;
    var listed;
    listed, trail := ListWifi(nm);
    ghost var first := trail[0];
    LookedNothing(ps, ssid, first);
    if listed.None? { return None, trail; }
    var candidates := listed.value;
    WifiNamesMembers(ps);
    var matches: Option<seq<string>> := Some([]);
    for i := 0 to |candidates|
      invariant nm.Valid() && nm.st == old(nm.st) && nm.calls == old(nm.calls) + trail && |trail| == 1 + i
      invariant matches.Some? && Looked(ps, ssid, candidates[..i], matches.value, trail)
      invariant (WipeSucceeds(trail) ==> first.outcome.Succeeds?) && NoTimeout(trail)
      invariant Got(trail, ListProfiles) <==> first.outcome.Succeeds?
    {
      var name := candidates[i];
      assert candidates[..i + 1] == candidates[..i] + [name];
      matches, trail := LookAt(nm, ssid, name, matches.value, candidates[..i], old(nm.calls), trail);
      if matches.None? { return None, trail; }
    }
    assert candidates[..|candidates|] == candidates;
    if WipeSucceeds(trail) { LookedAll(ps, ssid, matches.value, trail); }
    return matches, trail;
  }

  lemma WipeSnoc(trail: seq<Call>, c: Call)
    ensures WipeSucceeds(trail + [c]) <==> WipeSucceeds(trail) && WipeSucceeds([c])
  {
    var t := trail + [c];
    if WipeSucceeds(t) {
      assert forall i :: 0 <= i < |trail| ==> t[i] == trail[i];
      assert t[|trail|] == c;
    }
  }

  /** What holds while the profiles named in `stale` are being deleted one by one. */
  ghost predicate Wiping(was: Store, now: Store, trail: seq<Call>, done: seq<string>) {
    && now.profiles == Keep(was.profiles, Gone(trail)) && now.nextUuid == was.nextUuid
    && Distinct(Gone(trail)) && !AddApplied(trail)
    && (forall n :: n in Gone(trail) ==> n in done)
    && (WipeSucceeds(trail) ==> Gone(trail) == done)
  }

  lemma DeleteOne(st: Store, name: string, o: Outcome, p: Profile)
    requires NamesUnique(st.profiles) && p in st.profiles && p.name == name && Applied(o)
    ensures Effect(st, Delete(name), o).profiles == Keep(st.profiles, [name])
  {
    SelectUnique(st.profiles, name, o.pick, p);
    DropIndex(st.profiles, Select(st.profiles, name, o.pick));
  }

  /** An applied delete drops exactly the profile of that name. */
  lemma DeleteDrops(was: Store, now: Store, gone: seq<string>, name: string, o: Outcome)
    requires NamesUnique(was.profiles) && now.profiles == Keep(was.profiles, gone)
    requires Applied(o) && name !in gone && Borne(was.profiles, name)
    ensures Effect(now, Delete(name), o).profiles == Keep(was.profiles, gone + [name])
  {
    var p :| p in was.profiles && p.name == name;
    KeepMembers(was.profiles, gone);
    DeleteOne(now, name, o, p);
    KeepTwice(was.profiles, gone, name);
  }

  lemma DeleteStep(was: Store, now: Store, trail: seq<Call>, done: seq<string>, name: string, o: Outcome)
    requires Wiping(was, now, trail, done) && NamesUnique(was.profiles)
    requires name !in done && Borne(was.profiles, name)
    ensures Wiping(was, Effect(now, Delete(name), o), trail + [Call(Delete(name), 5, o)], done + [name])
  {
    var c := Call(Delete(name), 5, o);
    HistorySnoc(trail, c);
    WipeSnoc(trail, c);
    assert WipeSucceeds([c]) <==> o.Succeeds? by { assert [c][0] == c; }
    if Applied(o) {
      DeleteDrops(was, now, Gone(trail), name, o);
    } else {
      assert Gone(trail) + [] == Gone(trail);
    }
  }

  /** One delete of step 1. */
  method DeleteStale(nm: Nmcli, name: string, ghost was: Store, ghost calls: seq<Call>, ghost trail: seq<Call>,
                     ghost done: seq<string>)
    returns (timedOut: bool, ghost longer: seq<Call>)
    requires nm.calls == calls + trail && NoTimeout(trail)
    requires Wiping(was, nm.st, trail, done) && NamesUnique(was.profiles)
    requires name !in done && Borne(was.profiles, name)
    requires nm.Valid()
    modifies nm
    ensures nm.Valid()
    ensures longer == trail + [Call(Delete(name), 5, nm.world(|old(nm.calls)|))] && nm.calls == calls + longer
    ensures Prompt(longer, timedOut)
    ensures Wiping(was, nm.st, longer, done + [name])
    ensures Seconds(longer) == Seconds(trail) + 5
    ensures timedOut ==> !WipeSucceeds(longer)
  {
    ghost var c := Call(Delete(name), 5, nm.world(|nm.calls|));
    longer := trail + [c];
    PromptSnoc(trail, c);
    assert calls + trail + [c] == calls + longer;
    DeleteStep(was, nm.st, trail, done, name, c.outcome);
    HistorySnoc(trail, c);
    assert longer[|trail|] == c;
    var r := nm.Run(Delete(name), 5);
    timedOut := r.Timeout?;
  }

  /** One delete per name, in turn, whatever became of those before. */
  predicate InTurn(trail: seq<Call>, stale: seq<string>) {
    |trail| <= |stale| && forall i :: 0 <= i < |trail| ==> trail[i].cmd == Delete(stale[i])
  }

  lemma InTurnSnoc(trail: seq<Call>, stale: seq<string>, c: Call)
    requires InTurn(trail, stale) && |trail| < |stale| && c.cmd == Delete(stale[|trail|])
    ensures InTurn(trail + [c], stale)
  {
  }

  /** What the deletes come to, all of them done or some of them before a timeout. */
  ghost predicate Deleted(was: Store, now: Store, stale: seq<string>, ok: bool, trail: seq<Call>) {
    && now.profiles == Keep(was.profiles, Gone(trail)) && now.nextUuid == was.nextUuid
    && Distinct(Gone(trail)) && !AddApplied(trail)
    && (forall n :: n in Gone(trail) ==> n in stale)
    && (WipeSucceeds(trail) ==> ok && Gone(trail) == stale)
  }

  lemma WipingEnds(was: Store, now: Store, stale: seq<string>, m: nat, ok: bool, trail: seq<Call>)
    requires m <= |stale| && Wiping(was, now, trail, stale[..m])
    requires if ok then m == |stale| else !WipeSucceeds(trail)
    ensures Deleted(was, now, stale, ok, trail)
  {
    if m == |stale| { assert stale[..m] == stale; }
  }

  lemma NextIsNew(names: seq<string>, i: nat)
    requires Distinct(names) && i < |names|
    ensures names[i] in names && names[i] !in names[..i] && names[..i + 1] == names[..i] + [names[i]]
  {
  }

  /** The deletes of step 1. */
  method DeleteAll(nm: Nmcli, stale: seq<string>) returns (ok: bool, ghost trail: seq<Call>)
    requires NamesUnique(nm.st.profiles) && Distinct(stale)
    requires forall n :: n in stale ==> Borne(nm.st.profiles, n)
    requires nm.Valid()
    modifies nm
    ensures nm.Valid()
    ensures nm.calls == old(nm.calls) + trail
    ensures Deleted(old(nm.st), nm.st, stale, ok, trail)
    ensures Prompt(trail, !ok)
    ensures |trail| <= |stale| && Seconds(trail) == 5 * |trail|
    ensures InTurn(trail, stale) && (ok ==> |trail| == |stale|)
  {
    ghost var was := nm.st;
    trail := [];
    KeepNone(was.profiles, []);
    for i := 0 to |stale|
      invariant nm.Valid() && nm.calls == old(nm.calls) + trail && Wiping(was, nm.st, trail, stale[..i])
      invariant |trail| == i && Seconds(trail) == 5 * |trail| && NoTimeout(trail) && InTurn(trail, stale)
    {
      var timedOut;
      NextIsNew(stale, i);
      InTurnSnoc(trail, stale, Call(Delete(stale[i]), 5, nm.world(|nm.calls|)));
      timedOut, trail := DeleteStale(nm, stale[i], was, old(nm.calls), trail, stale[..i]);
      if timedOut {
        WipingEnds(was, nm.st, stale, i + 1, false, trail);
        return false, trail;
      }
    }
    WipingEnds(was, nm.st, stale, |stale|, true, trail);
    return true, trail;
  }

  /** Every matching profile is gone. */
  ghost predicate CompleteWipe(ps: seq<Profile>, ssid: string, trail: seq<Call>) {
    forall n :: Matching(ps, ssid, n) ==> n in Gone(trail)
  }

  /** The store keeps every profile but those removed by an applied delete, all of them matching ones; and
      when listing, reads and deletes all succeed, no matching one is kept. */
  ghost predicate Wiped(was: Store, now: Store, ssid: string, ok: bool, trail: seq<Call>) {
    && now.profiles == Keep(was.profiles, Gone(trail)) && now.nextUuid == was.nextUuid
    && Distinct(Gone(trail)) && !AddApplied(trail)
    && (forall n :: n in Gone(trail) ==> Matching(was.profiles, ssid, n))
    && (ok && WipeSucceeds(trail) ==> CompleteWipe(was.profiles, ssid, trail))
  }

  /** No profile is deleted but one of which a read told that it matches; and unless a timeout ended it all,
      every such profile is, and every Wi-Fi profile was read if the listing succeeded, whatever else
      failed. */
  ghost predicate Thorough(ps: seq<Profile>, ssid: string, ok: bool, trail: seq<Call>) {
    && (forall n :: Tried(trail, Delete(n)) ==> Found(ps, ssid, trail, n))
    && (ok ==>
          && (Got(trail, ListProfiles) ==> forall n :: n in WifiNames(ps) ==> Tried(trail, ReadSsid(n)))
          && forall n :: Found(ps, ssid, trail, n) ==> Tried(trail, Delete(n)))
  }

  /** Neither listing nor reading nor deleting. */
  predicate Foreign(trail: seq<Call>) {
    forall i :: 0 <= i < |trail| ==> trail[i].cmd.Devices? || trail[i].cmd.Add? || trail[i].cmd.ReadKeyMgmt?
                                     || trail[i].cmd.Modify? || trail[i].cmd.Up?
  }

  lemma ThoroughWipe(ps: seq<Profile>, ssid: string, stale: seq<string>, ok: bool, lookups: seq<Call>,
                     deletes: seq<Call>)
    requires ReadsOnly(lookups) && forall n :: n in stale <==> Found(ps, ssid, lookups, n)
    requires Got(lookups, ListProfiles) ==> forall n :: n in WifiNames(ps) ==> Tried(lookups, ReadSsid(n))
    requires InTurn(deletes, stale) && (ok ==> |deletes| == |stale|)
    ensures Thorough(ps, ssid, ok, lookups + deletes)
  {
    var t := lookups + deletes;
    TriedAppend(lookups, deletes, ListProfiles);
    forall n
      ensures Found(ps, ssid, t, n) <==> n in stale
      ensures Tried(t, ReadSsid(n)) <==> Tried(lookups, ReadSsid(n))
      ensures Tried(t, Delete(n)) ==> n in stale
      ensures ok && n in stale ==> Tried(t, Delete(n))
    {
      TriedAppend(lookups, deletes, ReadSsid(n));
      TriedAppend(lookups, deletes, Delete(n));
      if ok && n in stale {
        var i :| 0 <= i < |stale| && stale[i] == n;
        assert deletes[i].cmd == Delete(n);
      }
    }
  }

  lemma ThoroughReads(ps: seq<Profile>, ssid: string, trail: seq<Call>)
    requires ReadsOnly(trail)
    ensures Thorough(ps, ssid, false, trail)
  {
  }

  lemma ThoroughAround(ps: seq<Profile>, ssid: string, ok: bool, a: seq<Call>, trail: seq<Call>, b: seq<Call>)
    requires Thorough(ps, ssid, ok, trail) && Foreign(a) && Foreign(b)
    ensures Thorough(ps, ssid, ok, a + trail + b)
  {
    forall cmd: Command | cmd.ListProfiles? || cmd.ReadSsid? || cmd.Delete?
      ensures Tried(a + trail + b, cmd) <==> Tried(trail, cmd)
      ensures Got(a + trail + b, cmd) <==> Got(trail, cmd)
    {
      TriedAppend(a, trail, cmd);
      TriedAppend(a + trail, b, cmd);
    }
  }

  lemma NothingWiped(was: Store, ssid: string, trail: seq<Call>)
    requires ReadsOnly(trail)
    ensures Wiped(was, was, ssid, false, trail)
  {
    ReadsOnlyHistory(trail);
    KeepNone(was.profiles, []);
  }

  /** Reads before the deletes make no difference. */
  lemma WipedAfterReads(was: Store, now: Store, ssid: string, ok: bool, lookups: seq<Call>, deletes: seq<Call>)
    requires ReadsOnly(lookups)
    requires now.profiles == Keep(was.profiles, Gone(deletes)) && now.nextUuid == was.nextUuid
    requires Distinct(Gone(deletes)) && !AddApplied(deletes)
    requires forall n :: n in Gone(deletes) ==> Matching(was.profiles, ssid, n)
    requires ok && WipeSucceeds(lookups) && WipeSucceeds(deletes) ==> CompleteWipe(was.profiles, ssid, deletes)
    ensures Wiped(was, now, ssid, ok, lookups + deletes)
  {
    HistoryAfterReads(lookups, deletes);
    WipeAppend(lookups, deletes);
  }

  /** Step 1 of `connect`. */
  method Wipe(nm: Nmcli, ssid: string) returns (ok: bool, ghost trail: seq<Call>)
    requires NamesUnique(nm.st.profiles) && OneLineProfiles(nm.st.profiles)
    requires nm.Valid()
    modifies nm
    ensures nm.Valid()
    ensures nm.calls == old(nm.calls) + trail
    ensures Wiped(old(nm.st), nm.st, ssid, ok, trail) && Prompt(trail, !ok)
    ensures Thorough(old(nm.st.profiles), ssid, ok, trail)
    ensures |trail| <= 1 + |WifiNames(old(nm.st.profiles))| + |MatchSet(old(nm.st.profiles), ssid)|
    ensures Seconds(trail) == 5 * |trail|
  {
    ghost var was, calls := nm.st, nm.calls;
    var names;
    ghost var lookups, deletes;
    names, lookups := ProfilesForSsid(nm, ssid);
    if names.None? {
      NothingWiped(was, ssid, lookups);
      ThoroughReads(was.profiles, ssid, lookups);
      return false, lookups;
    }
    StaleCount(was.profiles, ssid, names.value);
    ok, deletes := DeleteAll(nm, names.value);
    WipedAfterReads(was, nm.st, ssid, ok, lookups, deletes);
    PromptAppend(lookups, deletes, !ok);
    ThoroughWipe(was.profiles, ssid, names.value, ok, lookups, deletes);
    JoinTrails(calls, lookups, deletes);
    trail := lookups + deletes;
  }

  lemma HistoryAfterReads(lookups: seq<Call>, b: seq<Call>)
    requires ReadsOnly(lookups)
    ensures Gone(lookups + b) == Gone(b)
    ensures Seconds(lookups + b) == Seconds(lookups) + Seconds(b)
    ensures AddApplied(lookups + b) <==> AddApplied(b)
  {
    ReadsOnlyHistory(lookups);
    HistoryAppend(lookups, b);
    var none: seq<string> := [];
    assert none + Gone(b) == Gone(b);
  }

  lemma WipeAppend(a: seq<Call>, b: seq<Call>)
    ensures WipeSucceeds(a + b) ==> WipeSucceeds(a) && WipeSucceeds(b)
  {
    if WipeSucceeds(a + b) {
      assert forall i :: 0 <= i < |a| ==> (a + b)[i] == a[i];
      assert forall i :: 0 <= i < |b| ==> (a + b)[|a| + i] == b[i];
    }
  }

  lemma StaleCount(ps: seq<Profile>, ssid: string, stale: seq<string>)
    requires Distinct(stale) && forall n :: n in stale ==> Matching(ps, ssid, n)
    ensures |stale| <= |MatchSet(ps, ssid)|
  {
    var s := set n | n in stale;
    WifiScan.DistinctCount(stale, s);
    assert s <= MatchSet(ps, ssid);
    SubsetSize(s, MatchSet(ps, ssid));
  }

  lemma {:induction false} SubsetSize(a: set<string>, b: set<string>)
    requires a <= b
    ensures |a| <= |b|
  {
    if x :| x in a {
      SubsetSize(a - {x}, b - {x});
    }
  }

  // ---------- the fresh profile ----------

  datatype Why = SsidRequired | CommandTimedOut | BadPassword | AddFailed(raw: string) | UpFailed(raw: string)

  datatype ConnectResult = Connected | Raised(why: Why)

  /** The same profiles, except that some named `name` may have been given key-mgmt and password. */
  ghost predicate Touched(was: seq<Profile>, now: seq<Profile>, name: string, psk: string) {
    && |now| == |was|
    && forall i :: 0 <= i < |was| ==> now[i] == was[i] || (was[i].name == name && now[i] == Forced(was[i], psk))
  }

  function Psk(password: Option<string>): string { match password case Some(k) => k case None => "" }

  predicate ModifyFailed(trail: seq<Call>) {
    exists i :: 0 <= i < |trail| && trail[i].cmd.Modify? && trail[i].outcome.Fails?
  }

  /** `raw = (err or out).strip()`. */
  function Raw(r: Reply): string
    requires r.Exited?
  {
    Strip(if r.err != "" then r.err else r.out)
  }

  /** How the result follows from the last command: a timeout ends everything at once, and a failing add
      or activation is reported with what that command wrote. */
  predicate Ended(trail: seq<Call>, res: ConnectResult) {
    match res
    case Raised(CommandTimedOut) => Prompt(trail, true)
    case Raised(SsidRequired) => trail == []
    case Raised(BadPassword) => NoTimeout(trail)
    case _ => NoTimeout(trail) && trail != [] && LastSays(trail[|trail| - 1], res)
  }

  predicate LastSays(last: Call, res: ConnectResult) {
    match res
    case Connected => last.cmd.Up? && last.outcome.Succeeds?
    case Raised(AddFailed(raw)) => last.cmd.Add? && FailedSaying(last.outcome, raw)
    case Raised(UpFailed(raw)) => last.cmd.Up? && FailedSaying(last.outcome, raw)
    case _ => false
  }

  /** What is reported of a failing command: its stderr, or if that is empty its stdout, stripped. */
  predicate FailedSaying(o: Outcome, raw: string) {
    && o.Fails?
    && (o.err != "" ==> raw == Strip(o.err))
    && (o.err == "" ==> raw == Strip(o.out))
  }

  lemma EndedAppend(a: seq<Call>, b: seq<Call>, res: ConnectResult)
    requires NoTimeout(a) && Ended(b, res) && res != Raised(SsidRequired)
    ensures Ended(a + b, res)
  {
    if res == Raised(CommandTimedOut) { PromptAppend(a, b, true); }
    if b != [] { assert (a + b)[|a + b| - 1] == b[|b| - 1]; }
  }

  lemma CleanReads(s: string)
    requires Clean(s)
    ensures Strip(Terse.Escape(s) + "\n") == s
  {
    StripNewline(Terse.Escape(s));
    Terse.EscapeLength(s);
    StripFixes(s);
  }

  lemma KeyMgmtReads(p: Profile)
    requires p.keyMgmt in {"", WPA_PSK}
    ensures Strip(Printed(p, ReadKeyMgmt(p.name))) == p.keyMgmt
  {
    CleanReads(p.keyMgmt);
  }

  /** The only profile of its name. */
  ghost predicate Lone(ps: seq<Profile>, k: nat) {
    k < |ps| && forall i :: 0 <= i < |ps| && ps[i].name == ps[k].name ==> i == k
  }

  /** Step 3 of `connect`: read key-mgmt back, and force it when it is not there, or cannot be read, and only
      then. A lone profile that was added with or without key-mgmt has it afterwards, unless the forcing
      command failed. */
  method Verify(nm: Nmcli, ssid: string, psk: string, ghost k: nat) returns (ok: bool, ghost trail: seq<Call>)
    requires k < |nm.st.profiles| && nm.st.profiles[k].name == ssid && nm.st.profiles[k].keyMgmt in {"", WPA_PSK}
    requires nm.Valid()
    modifies nm
    ensures nm.Valid()
    ensures nm.calls == old(nm.calls) + trail && Gone(trail) == [] && !AddApplied(trail)
    ensures |trail| <= 2 && Seconds(trail) == 5 * |trail| && Prompt(trail, !ok)
    ensures Touched(old(nm.st.profiles), nm.st.profiles, ssid, psk) && Foreign(trail)
    ensures trail != [] && trail[0].cmd == ReadKeyMgmt(ssid) && (|trail| == 2 ==> trail[1].cmd == Modify(ssid, psk))
    ensures trail[0].outcome.Succeeds? && Lone(old(nm.st.profiles), k) ==>
      (|trail| == 2 <==> old(nm.st.profiles)[k].keyMgmt != "wpa-psk")
    ensures trail[0].outcome.Fails? ==> |trail| == 2
    ensures ok && Lone(old(nm.st.profiles), k) ==> nm.st.profiles[k].keyMgmt == WPA_PSK || ModifyFailed(trail)
  {
    ghost var was := nm.st;
    ghost var o1 := nm.world(|nm.calls|);
    OneCall(Call(ReadKeyMgmt(ssid), 5, o1));
    KeyReadOutcome(was, nm.devices, ssid, k, o1);
    var r := nm.Run(ReadKeyMgmt(ssid), 5);
    trail := [Call(ReadKeyMgmt(ssid), 5, o1)];
    if r.Timeout? { return false, trail; }
    var got := if r.rc == 0 then Strip(r.out) else "";
    if got == WPA_PSK { return true, trail; }
    ghost var c2 := Call(Modify(ssid, psk), 5, nm.world(|nm.calls|));
    HistorySnoc(trail, c2);
    PromptSnoc(trail, c2);
    KeyForceOutcome(was, nm.devices, ssid, psk, k, c2.outcome);
    r := nm.Run(Modify(ssid, psk), 5);
    trail := trail + [c2];
    assert trail[1] == c2;
    ok := !r.Timeout?;
  }

  lemma OneCall(c: Call)
    ensures Seconds([c]) == c.timeout
    ensures !c.cmd.Delete? ==> Gone([c]) == []
    ensures !c.cmd.Add? ==> !AddApplied([c])
  {
    HistorySnoc([], c);
    assert [] + [c] == [c];
  }

  lemma KeyReadOutcome(st: Store, devices: string, ssid: string, k: nat, o: Outcome)
    requires k < |st.profiles| && st.profiles[k].name == ssid && st.profiles[k].keyMgmt in {"", WPA_PSK}
    ensures Effect(st, ReadKeyMgmt(ssid), o) == st
    ensures var r := Answer(st, devices, ReadKeyMgmt(ssid), o);
      Lone(st.profiles, k) && r.Exited? && r.rc == 0 ==> Strip(r.out) == st.profiles[k].keyMgmt
  {
    KeyMgmtReads(st.profiles[k]);
  }

  lemma KeyForceOutcome(st: Store, devices: string, ssid: string, psk: string, k: nat, o: Outcome)
    requires k < |st.profiles| && st.profiles[k].name == ssid
    ensures Touched(st.profiles, Effect(st, Modify(ssid, psk), o).profiles, ssid, psk)
    ensures Lone(st.profiles, k) && o.Succeeds? ==> Effect(st, Modify(ssid, psk), o).profiles[k].keyMgmt == WPA_PSK
    ensures Answer(st, devices, Modify(ssid, psk), o).Timeout? <==> o.TimesOut?
    ensures Effect(st, Modify(ssid, psk), o).nextUuid == st.nextUuid
  {
  }

  /** Step 4 of `connect`. */
  method Activate(nm: Nmcli, ssid: string, ghost k: nat) returns (res: ConnectResult, ghost trail: seq<Call>)
    requires k < |nm.st.profiles| && nm.st.profiles[k].name == ssid
    requires nm.Valid()
    modifies nm
    ensures nm.Valid()
    ensures nm.calls == old(nm.calls) + trail && Gone(trail) == [] && !AddApplied(trail)
    ensures |trail| == 1 && Seconds(trail) == 60 && !ModifyFailed(trail) && Ended(trail, res)
    ensures trail[0].cmd == Up(ssid)
    ensures nm.st.profiles == old(nm.st.profiles) && nm.st.nextUuid == old(nm.st.nextUuid)
    ensures res == Connected && Lone(nm.st.profiles, k) ==> nm.st.active == Some(nm.st.profiles[k].uuid)
    ensures res.Raised? ==> res.why in {CommandTimedOut} || res.why.UpFailed?
  {
    trail := [Call(Up(ssid), 60, nm.world(|nm.calls|))];
    OneCall(trail[0]);
    var r := nm.Run(Up(ssid), 60);
    if r.Timeout? { return Raised(CommandTimedOut), trail; }
    if r.rc != 0 { return Raised(UpFailed(Raw(r))), trail; }
    res := Connected;
  }

  predicate PasswordFits(password: Option<string>) {
    password.Some? ==> 8 <= |password.value| <= 63
  }

  /** What the added profile looks like in the end. */
  predicate Secured(p: Profile, password: Option<string>, trail: seq<Call>) {
    match password
    case None => p.keyMgmt == "" && p.psk == ""
    case Some(k) => p.psk == k && (p.keyMgmt == WPA_PSK || ModifyFailed(trail))
  }

  /** The store after adding: the earlier profiles and the new one, up to what `Verify` may force. */
  ghost predicate Added(was: Store, now: Store, c: Command, psk: string)
    requires c.Add?
  {
    exists sound :: Touched(was.profiles + [MadeBy(was.nextUuid, c, sound)], now.profiles, c.ssid, psk)
  }

  lemma AddedBy(was: Store, now: Store, c: Command, sound: bool)
    requires c.Add?
    requires Touched(was.profiles + [MadeBy(was.nextUuid, c, sound)], now.profiles, c.ssid, Psk(c.password))
    ensures Added(was, now, c, Psk(c.password))
  {
  }

  lemma TouchedLast(was: seq<Profile>, made: Profile, now: seq<Profile>, name: string, psk: string)
    requires Touched(was + [made], now, name, psk) && forall p :: p in was ==> p.name != name
    ensures |now| == |was| + 1 && now[..|was|] == was && (now[|was|] == made || now[|was|] == Forced(made, psk))
  {
    assert forall i :: 0 <= i < |was| ==> (was + [made])[i] == was[i];
    assert forall i :: 0 <= i < |was| ==> was[i] in was;
    assert (was + [made])[|was|] == made;
  }

  lemma JoinSteps(calls: seq<Call>, a: seq<Call>, b: seq<Call>, res: ConnectResult)
    requires NoTimeout(a) && Ended(b, res) && res != Raised(SsidRequired) && Gone(a) == Gone(b) == []
    ensures calls + a + b == calls + (a + b) && Ended(a + b, res) && Gone(a + b) == []
    ensures Seconds(a + b) == Seconds(a) + Seconds(b)
    ensures AddApplied(a + b) <==> AddApplied(a) || AddApplied(b)
    ensures ModifyFailed(a + b) <==> ModifyFailed(a) || ModifyFailed(b)
    ensures Foreign(a) && Foreign(b) ==> Foreign(a + b)
  {
    JoinTrails(calls, a, b);
    EndedAppend(a, b, res);
    ModifyFailedAppend(a, b);
  }

  lemma LoneTouched(was: seq<Profile>, now: seq<Profile>, name: string, psk: string, k: nat)
    requires Touched(was, now, name, psk)
    ensures Lone(was, k) ==> Lone(now, k)
    ensures k < |was| ==> now[k].name == was[k].name
  {
  }

  /** The earlier profiles, and at the end the new one: active, and secured as asked. */
  ghost predicate Installed(was: Store, now: Store, c: Command, trail: seq<Call>)
    requires c.Add?
  {
    var k := |was.profiles|;
    && |now.profiles| == k + 1 && now.profiles[..k] == was.profiles
    && var p := now.profiles[k];
    && p.name == c.ssid && Bears(p, c.ssid) && p.iface == c.iface && p.hidden == c.hidden
    && now.active == Some(p.uuid) && Secured(p, c.password, trail)
  }

  lemma InstalledLast(was: Store, now: Store, c: Command, sound: bool, trail: seq<Call>)
    requires c.Add? && forall p :: p in was.profiles ==> p.name != c.ssid
    requires var made := MadeBy(was.nextUuid, c, sound);
      && Touched(was.profiles + [made], now.profiles, c.ssid, Psk(c.password))
      && (c.password.None? ==> now.profiles == was.profiles + [made])
    requires var p := now.profiles[|was.profiles|];
      now.active == Some(p.uuid) && (c.password.Some? ==> p.keyMgmt == WPA_PSK || ModifyFailed(trail))
    ensures Installed(was, now, c, trail)
  {
    TouchedLast(was.profiles, MadeBy(was.nextUuid, c, sound), now.profiles, c.ssid, Psk(c.password));
  }

  /** Steps 3 and 4 of `connect`. */
  method VerifyAndActivate(nm: Nmcli, ssid: string, password: Option<string>, ghost k: nat)
    returns (res: ConnectResult, ghost trail: seq<Call>)
    requires k < |nm.st.profiles| && nm.st.profiles[k].name == ssid && nm.st.profiles[k].keyMgmt in {"", WPA_PSK}
    requires nm.Valid()
    modifies nm
    ensures nm.Valid()
    ensures nm.calls == old(nm.calls) + trail && Gone(trail) == [] && !AddApplied(trail)
    ensures |trail| <= 3 && Seconds(trail) <= 70 && Ended(trail, res) && Foreign(trail)
    ensures res == Connected ==> Seconds(trail) == 5 * |trail| + 55
    ensures Touched(old(nm.st.profiles), nm.st.profiles, ssid, Psk(password))
    ensures password.None? ==> nm.st.profiles == old(nm.st.profiles)
    ensures res.Raised? ==> res.why == CommandTimedOut || res.why.UpFailed?
    ensures res == Connected && Lone(old(nm.st.profiles), k) ==>
      && nm.st.active == Some(nm.st.profiles[k].uuid)
      && (password.Some? ==> nm.st.profiles[k].keyMgmt == WPA_PSK || ModifyFailed(trail))
  {
    ghost var was, calls := nm.st, nm.calls;
    trail := [];
    if password.Some? {
      var ok;
      ok, trail := Verify(nm, ssid, password.value, k);
      if !ok { return Raised(CommandTimedOut), trail; }
    }
    LoneTouched(was.profiles, nm.st.profiles, ssid, Psk(password), k);
    ghost var ups;
    res, ups := Activate(nm, ssid, k);
    JoinSteps(calls, trail, ups, res);
    trail := trail + ups;
  }

  /** Step 2 of `connect`: the new profile stands at the end if the add was applied; a failure is reported. */
  method AddProfile(nm: Nmcli, cmd: Command) returns (failed: Option<Why>, ghost sound: bool, ghost trail: seq<Call>)
    requires cmd.Add?
    requires nm.Valid()
    modifies nm
    ensures nm.Valid()
    ensures nm.calls == old(nm.calls) + trail && |trail| == 1 && Seconds(trail) == 15 && Gone(trail) == []
    ensures trail[0].cmd == cmd
    ensures nm.st == if AddApplied(trail)
      then Store(old(nm.st).profiles + [MadeBy(old(nm.st).nextUuid, cmd, sound)], old(nm.st).active,
                 old(nm.st).nextUuid + 1)
      else old(nm.st)
    ensures failed.None? ==> AddApplied(trail) && NoTimeout(trail)
    ensures failed.Some? ==>
      Ended(trail, Raised(failed.value)) && (failed.value.CommandTimedOut? || failed.value.AddFailed?)
  {
    ghost var o := nm.world(|nm.calls|);
    sound := o.sound;
    trail := [Call(cmd, 15, o)];
    OneCall(trail[0]);
    assert AddApplied(trail) <==> Applied(o) by {
      if Applied(o) { assert trail[0].cmd.Add?; }
    }
    var r := nm.Run(cmd, 15);
    failed := if r.Timeout? then Some(CommandTimedOut) else if r.rc != 0 then Some(AddFailed(Raw(r))) else None;
  }

  /** Steps 2 to 4 of `connect`: at most one profile is added, always last; the others change only if
      they bear the new profile's name. If none does and the result is Connected, the new profile is
      active, and secured as asked. A password of the wrong length is rejected before any command. */
  method Install(nm: Nmcli, ssid: string, iface: string, password: Option<string>, hidden: bool)
    returns (res: ConnectResult, ghost trail: seq<Call>)
    requires password != Some("")
    requires nm.Valid()
    modifies nm
    ensures nm.Valid()
    ensures nm.calls == old(nm.calls) + trail && Gone(trail) == []
    ensures |trail| <= 4 && Seconds(trail) <= 85 && Ended(trail, res) && Foreign(trail)
    ensures res == Connected ==> Seconds(trail) == 5 * |trail| + 65
    ensures AddApplied(trail) ==> Added(old(nm.st), nm.st, Add(ssid, iface, hidden, password), Psk(password))
    ensures !AddApplied(trail) ==> nm.st == old(nm.st)
    ensures res == Raised(BadPassword) <==> !PasswordFits(password)
    ensures res != Raised(SsidRequired)
    ensures !PasswordFits(password) ==> trail == []
    ensures res == Connected ==> AddApplied(trail)
    ensures res == Connected && (forall p :: p in old(nm.st.profiles) ==> p.name != ssid) ==>
      Installed(old(nm.st), nm.st, Add(ssid, iface, hidden, password), trail)
  {
    ghost var was, calls := nm.st, nm.calls;
    if password.Some? && (|password.value| < 8 || |password.value| > 63) {
      return Raised(BadPassword), [];
    }
    assert PasswordFits(password);
    var cmd := Add(ssid, iface, hidden, password);
    var failed;
    ghost var sound, rest;
    failed, sound, trail := AddProfile(nm, cmd);
    ghost var made, k := MadeBy(was.nextUuid, cmd, sound), |was.profiles|;
    if failed.Some? {
      if AddApplied(trail) { AddedBy(was, nm.st, cmd, sound); }
      return Raised(failed.value), trail;
    }
    res, rest := VerifyAndActivate(nm, ssid, password, k);
    AddedBy(was, nm.st, cmd, sound);
    JoinSteps(calls, trail, rest, res);
    trail := trail + rest;
    if res == Connected && forall p :: p in was.profiles ==> p.name != ssid {
      LoneLast(was.profiles, made);
      InstalledLast(was, nm.st, cmd, sound, trail);
    }
  }

  lemma LoneLast(was: seq<Profile>, made: Profile)
    requires forall p :: p in was ==> p.name != made.name
    ensures Lone(was + [made], |was|)
  {
    forall i | 0 <= i < |was| ensures (was + [made])[i].name != made.name { assert was[i] in was; }
  }

  lemma ModifyFailedAppend(a: seq<Call>, b: seq<Call>)
    ensures ModifyFailed(a + b) <==> ModifyFailed(a) || ModifyFailed(b)
  {
    if i :| 0 <= i < |a| && a[i].cmd.Modify? && a[i].outcome.Fails? { assert (a + b)[i] == a[i]; }
    if i :| 0 <= i < |b| && b[i].cmd.Modify? && b[i].outcome.Fails? { assert (a + b)[|a| + i] == b[i]; }
  }

  // ---------- connect ----------

  /** Store hypotheses: profile names are unique and on one line. */
  ghost predicate StoreOk(ps: seq<Profile>) { NamesUnique(ps) && OneLineProfiles(ps) }

  /** No profile of another network, or of another kind, bears the SSID as its name. */
  ghost predicate NoNamesake(ps: seq<Profile>, ssid: string) {
    forall p :: p in ps && p.name == ssid ==> Matches(p, ssid)
  }

  /** An empty password counts as none. */
  function Effective(password: Option<string>): Option<string> {
    if password == Some("") then None else password
  }

  /** The password that is used is the one that was given, but for an empty one. */
  lemma EffectiveIs(password: Option<string>)
    ensures Effective(password) == None <==> password == None || password == Some("")
    ensures Effective(password).Some? ==> Effective(password) == password
  {
  }

  /** The effect of a connect, whatever fails: applied deletes drop matching profiles, and then either
      nothing else happens or one profile is appended and possibly forced. */
  ghost predicate ConnectEffect(was: Store, now: Store, ssid: string, password: Option<string>, hidden: bool,
                                trail: seq<Call>) {
    var kept := Store(Keep(was.profiles, Gone(trail)), None, was.nextUuid);
    && Distinct(Gone(trail))
    && (forall n :: n in Gone(trail) ==> Matching(was.profiles, ssid, n))
    && (if AddApplied(trail)
        then exists iface :: Added(kept, now, Add(ssid, iface, hidden, password), Psk(password))
        else now.profiles == kept.profiles)
  }

  /** What the fresh profile has to do with the password as it was given: a password of 8 to 63 characters
      and WPA-PSK, the latter unless forcing it failed; and no security without a password or an empty one. */
  predicate UsesPassword(p: Profile, password: Option<string>, trail: seq<Call>) {
    if password == None || password == Some("") then p.keyMgmt == "" && p.psk == ""
    else
      && p.psk == password.value && 8 <= |p.psk| <= 63
      && (p.keyMgmt == "wpa-psk" || ModifyFailed(trail))
  }

  /** After a complete wipe and a normal return: the kept profiles, none of them matching, and at the end
      the fresh one, active and secured as asked. */
  ghost predicate FreshProfile(was: Store, now: Store, ssid: string, password: Option<string>, hidden: bool,
                               listing: Reply, trail: seq<Call>) {
    var kept := Keep(was.profiles, Gone(trail));
    && |now.profiles| == |kept| + 1 && now.profiles[..|kept|] == kept
    && (forall p :: p in kept ==> !Matches(p, ssid))
    && var p := now.profiles[|kept|];
    && p.name == ssid && Bears(p, ssid) && p.hidden == hidden && AddsOn(listing, p.iface)
    && now.active == Some(p.uuid) && UsesPassword(p, password, trail)
  }

  /** The interface is the one `get_wifi_iface` reads off nmcli's answer. */
  ghost predicate AddsOn(listing: Reply, iface: string) {
    listing.Exited? && WifiScan.IsWifiIface(listing.rc, listing.out, iface)
  }

  /** The interface and step 1. */
  method Prepare(nm: Nmcli, ssid: string) returns (iface: Option<string>, ghost trail: seq<Call>)
    requires NamesUnique(nm.st.profiles) && OneLineProfiles(nm.st.profiles)
    requires nm.Valid()
    modifies nm
    ensures nm.Valid()
    ensures nm.calls == old(nm.calls) + trail
    ensures Wiped(old(nm.st), nm.st, ssid, iface.Some?, trail) && Prompt(trail, iface.None?)
    ensures iface.Some? ==> AddsOn(Answer(old(nm.st), nm.devices, Devices, nm.world(|old(nm.calls)|)), iface.value)
    ensures |trail| <= 2 + |WifiNames(old(nm.st.profiles))| + |MatchSet(old(nm.st.profiles), ssid)|
    ensures Seconds(trail) == 25 + 5 * |trail| && Thorough(old(nm.st.profiles), ssid, iface.Some?, trail)
  {
    ghost var was, calls := nm.st, nm.calls;
    ghost var first := Call(Devices, 30, nm.world(|nm.calls|));
    OneCall(first);
    NothingWiped(was, ssid, [first]);
    ThoroughReads(was.profiles, ssid, [first]);
    var r := nm.Run(Devices, 30);
    if r.Timeout? { return None, [first]; }
    var dev := WifiScan.WifiIface(r.rc, r.out);
    ghost var wipes;
    var ok;
    ok, wipes := Wipe(nm, ssid);
    WipedAfterReads(was, nm.st, ssid, ok, [first], wipes);
    PromptAppend([first], wipes, !ok);
    JoinTrails(calls, [first], wipes);
    ThoroughAround(was.profiles, ssid, ok, [first], wipes, []);
    assert [first] + wipes + [] == [first] + wipes;
    trail := [first] + wipes;
    iface := if ok then Some(dev) else None;
  }

  /** How a connect answers: without an SSID at once; else by its last command, a timeout ending everything;
      and a password that is given and has not 8 to 63 characters is never added, and is what the answer is
      about unless a command timed out before. */
  ghost predicate Answers(ssid: string, password: Option<string>, res: ConnectResult, trail: seq<Call>) {
    && (res == Raised(SsidRequired) <==> ssid == "")
    && Ended(trail, res)
    && (res == Connected ==> AddApplied(trail) && Seconds(trail) == 5 * |trail| + 90)
    && (password.Some? && password.value != "" && !(8 <= |password.value| <= 63) ==>
          !AddApplied(trail) && (ssid != "" ==> (res == Raised(BadPassword) <==> NoTimeout(trail))))
    && (res == Raised(BadPassword) ==> password.Some? && password.value != "" && !(8 <= |password.value| <= 63))
  }

  lemma TimedOutAnswers(ssid: string, password: Option<string>, trail: seq<Call>)
    requires ssid != "" && Prompt(trail, true) && !AddApplied(trail)
    ensures Answers(ssid, password, Raised(CommandTimedOut), trail)
  {
    assert !NoTimeout(trail);
  }

  lemma InstallAnswers(ssid: string, password: Option<string>, res: ConnectResult, a: seq<Call>, b: seq<Call>)
    requires ssid != "" && NoTimeout(a) && Seconds(a) == 5 * |a| + 25 && !AddApplied(a)
    requires Ended(b, res) && res != Raised(SsidRequired)
    requires res == Raised(BadPassword) <==> !PasswordFits(Effective(password))
    requires !PasswordFits(Effective(password)) ==> b == []
    requires res == Connected ==> AddApplied(b) && Seconds(b) == 5 * |b| + 65
    ensures Answers(ssid, password, res, a + b)
  {
    JoinTrails([], a, b);
    EndedAppend(a, b, res);
    if b == [] { assert a + b == a; }
  }

  lemma FreshAfterWipe(was: Store, kept: Store, now: Store, ssid: string, iface: string, password: Option<string>,
                       hidden: bool, listing: Reply, a: seq<Call>, b: seq<Call>)
    requires kept.profiles == Keep(was.profiles, Gone(a)) && Gone(b) == [] && AddsOn(listing, iface)
    requires CompleteWipe(was.profiles, ssid, a) && NoNamesake(was.profiles, ssid)
    requires PasswordFits(Effective(password))
    requires (forall p :: p in kept.profiles ==> p.name != ssid) ==>
      Installed(kept, now, Add(ssid, iface, hidden, Effective(password)), b)
    ensures FreshProfile(was, now, ssid, password, hidden, listing, a + b)
  {
    KeepMembers(was.profiles, Gone(a));
    NoneKeptMatches(was.profiles, ssid, Gone(a));
    JoinTrails([], a, b);
    ModifyFailedAppend(a, b);
  }

  /** `wifi.connect` against an arbitrary world. Timeouts are in seconds, as passed to nmcli. A password of
      the wrong length is found out only after the wipe. */
  method Connect(nm: Nmcli, ssid: string, password: Option<string>, hidden: bool)
    returns (res: ConnectResult, ghost trail: seq<Call>)
    requires StoreOk(nm.st.profiles)
    requires nm.Valid()
    modifies nm
    ensures nm.Valid()
    ensures nm.calls == old(nm.calls) + trail
    ensures Answers(ssid, password, res, trail)
    ensures ssid == "" ==> trail == [] && nm.st == old(nm.st)
    ensures ConnectEffect(old(nm.st), nm.st, ssid, Effective(password), hidden, trail)
    ensures ssid != "" ==> Thorough(old(nm.st.profiles), ssid, res != Raised(CommandTimedOut), trail)
    ensures ssid != "" && res != Raised(CommandTimedOut) && WipeSucceeds(trail) ==>
      CompleteWipe(old(nm.st.profiles), ssid, trail)
    ensures res == Connected && WipeSucceeds(trail) && NoNamesake(old(nm.st.profiles), ssid) ==>
      FreshProfile(old(nm.st), nm.st, ssid, password, hidden,
                   Answer(old(nm.st), nm.devices, Devices, nm.world(|old(nm.calls)|)), trail)
    ensures var c, m := |WifiNames(old(nm.st.profiles))|, |MatchSet(old(nm.st.profiles), ssid)|;
      |trail| <= 6 + c + m && Seconds(trail) <= 120 + 5 * (c + m)
  {
    ghost var was, calls := nm.st, nm.calls;
    ghost var listing := Answer(nm.st, nm.devices, Devices, nm.world(|nm.calls|));
    KeepNone(was.profiles, []);
    if ssid == "" { return Raised(SsidRequired), []; }
    var iface;
    ghost var rest;
    iface, trail := Prepare(nm, ssid);
    if iface.None? {
      TimedOutAnswers(ssid, password, trail);
      return Raised(CommandTimedOut), trail;
    }
    ghost var kept, earlier := nm.st, trail;
    res, rest := Install(nm, ssid, iface.value, Effective(password), hidden);
    JoinTrails(calls, earlier, rest);
    InstallAnswers(ssid, password, res, earlier, rest);
    ThoroughAfter(was.profiles, ssid, res, earlier, rest);
    InstallAfterWipe(was, kept, nm.st, ssid, iface.value, password, hidden, listing, res, earlier, rest);
    trail := earlier + rest;
  }

  /** The effects of the two halves of a connect, together. */
  lemma InstallAfterWipe(was: Store, kept: Store, now: Store, ssid: string, iface: string, password: Option<string>,
                         hidden: bool, listing: Reply, res: ConnectResult, a: seq<Call>, b: seq<Call>)
    requires Wiped(was, kept, ssid, true, a) && AddsOn(listing, iface) && Gone(b) == []
    requires if AddApplied(b)
             then Added(kept, now, Add(ssid, iface, hidden, Effective(password)), Psk(Effective(password)))
             else now == kept
    requires res == Raised(BadPassword) <==> !PasswordFits(Effective(password))
    requires res == Connected && (forall p :: p in kept.profiles ==> p.name != ssid) ==>
      Installed(kept, now, Add(ssid, iface, hidden, Effective(password)), b)
    ensures ConnectEffect(was, now, ssid, Effective(password), hidden, a + b)
    ensures WipeSucceeds(a + b) ==> CompleteWipe(was.profiles, ssid, a + b)
    ensures res == Connected && WipeSucceeds(a + b) && NoNamesake(was.profiles, ssid) ==>
      FreshProfile(was, now, ssid, password, hidden, listing, a + b)
  {
    ConnectEffectHolds(was, kept, now, ssid, Effective(password), hidden, iface, a, b);
    JoinTrails([], a, b);
    if WipeSucceeds(a + b) {
      WipeAppend(a, b);
      if res == Connected && NoNamesake(was.profiles, ssid) {
        FreshAfterWipe(was, kept, now, ssid, iface, password, hidden, listing, a, b);
      }
    }
  }

  lemma ThoroughAfter(ps: seq<Profile>, ssid: string, res: ConnectResult, a: seq<Call>, b: seq<Call>)
    requires Thorough(ps, ssid, true, a) && Foreign(b)
    ensures Thorough(ps, ssid, res != Raised(CommandTimedOut), a + b)
  {
    ThoroughAround(ps, ssid, true, [], a, b);
    assert [] + a + b == a + b;
  }

  lemma JoinTrails(calls: seq<Call>, a: seq<Call>, b: seq<Call>)
    ensures calls + a + b == calls + (a + b)
    ensures Seconds(a + b) == Seconds(a) + Seconds(b)
    ensures Gone(b) == [] ==> Gone(a + b) == Gone(a)
    ensures AddApplied(a + b) <==> AddApplied(a) || AddApplied(b)
  {
    HistoryAppend(a, b);
    var none: seq<string> := [];
    assert Gone(a) + none == Gone(a);
  }

  lemma ConnectEffectHolds(was: Store, kept: Store, now: Store, ssid: string, password: Option<string>, hidden: bool,
                           iface: string, earlier: seq<Call>, rest: seq<Call>)
    requires kept.profiles == Keep(was.profiles, Gone(earlier)) && kept.nextUuid == was.nextUuid
    requires Distinct(Gone(earlier)) && !AddApplied(earlier) && Gone(rest) == []
    requires forall n :: n in Gone(earlier) ==> Matching(was.profiles, ssid, n)
    requires AddApplied(rest) ==> Added(kept, now, Add(ssid, iface, hidden, password), Psk(password))
    requires !AddApplied(rest) ==> now == kept
    ensures ConnectEffect(was, now, ssid, password, hidden, earlier + rest)
  {
    JoinTrails([], earlier, rest);
    if AddApplied(rest) {
      var plain := Store(kept.profiles, None, was.nextUuid);
      assert Added(plain, now, Add(ssid, iface, hidden, password), Psk(password));
    }
  }

  lemma NoneKeptMatches(ps: seq<Profile>, ssid: string, gone: seq<string>)
    requires forall n :: Matching(ps, ssid, n) ==> n in gone
    ensures forall p :: p in Keep(ps, gone) ==> !Matches(p, ssid)
  {
    KeepMembers(ps, gone);
    forall p | p in Keep(ps, gone)
      ensures !Matches(p, ssid)
    {
      assert Matches(p, ssid) ==> Matching(ps, ssid, p.name);
    }
  }

  // ---------- what a connect leaves alone, and what it leaves behind ----------

  /** The profiles that do not match, in order. */
  function Others(ps: seq<Profile>, ssid: string): seq<Profile> {
    if ps == [] then []
    else Others(ps[..|ps| - 1], ssid) + if Matches(ps[|ps| - 1], ssid) then [] else [ps[|ps| - 1]]
  }

  function CountMatching(ps: seq<Profile>, ssid: string): nat {
    if ps == [] then 0
    else CountMatching(ps[..|ps| - 1], ssid) + if Matches(ps[|ps| - 1], ssid) then 1 else 0
  }

  lemma {:induction false} CountsSplit(ps: seq<Profile>, ssid: string)
    ensures CountMatching(ps, ssid) + |Others(ps, ssid)| == |ps|
  {
    if ps != [] { CountsSplit(ps[..|ps| - 1], ssid); }
  }

  lemma {:induction false} OthersOfKept(ps: seq<Profile>, ssid: string, gone: seq<string>)
    requires forall i :: 0 <= i < |ps| && ps[i].name in gone ==> Matches(ps[i], ssid)
    ensures Others(Keep(ps, gone), ssid) == Others(ps, ssid)
  {
    if ps != [] {
      var n := |ps| - 1;
      OthersOfKept(ps[..n], ssid, gone);
      var k := Keep(ps[..n], gone);
      if ps[n].name in gone {
        assert k + [] == k;
        assert Others(ps[..n], ssid) + [] == Others(ps[..n], ssid);
      } else {
        assert (k + [ps[n]])[..|k|] == k;
      }
    }
  }

  lemma {:induction false} OthersTouched(a: seq<Profile>, b: seq<Profile>, ssid: string, psk: string)
    requires Touched(a, b, ssid, psk) && forall i :: 0 <= i < |a| && a[i].name == ssid ==> Matches(a[i], ssid)
    ensures Others(b, ssid) == Others(a, ssid)
  {
    if a != [] { OthersTouched(a[..|a| - 1], b[..|b| - 1], ssid, psk); }
  }

  lemma UniqueBearerMatches(ps: seq<Profile>, ssid: string, gone: seq<string>)
    requires NamesUnique(ps) && forall n :: n in gone ==> Matching(ps, ssid, n)
    ensures forall i :: 0 <= i < |ps| && ps[i].name in gone ==> Matches(ps[i], ssid)
  {
    forall i | 0 <= i < |ps| && ps[i].name in gone
      ensures Matches(ps[i], ssid)
    {
      var p :| p in ps && p.name == ps[i].name && Matches(p, ssid);
      var j :| 0 <= j < |ps| && ps[j] == p;
    }
  }

  /** The profiles that do not match are exactly those of before, in the same order; at most one profile
      was added, at the end; and the number of matching profiles went down by `gone`, and up by one if a
      profile was added under a clean SSID. */
  ghost predicate Framed(was: seq<Profile>, now: seq<Profile>, ssid: string, gone: nat, added: bool) {
    var last := if added then 1 else 0;
    && gone <= |was| && |now| == |was| - gone + last
    && Others(now[..|now| - last], ssid) == Others(was, ssid)
    && CountMatching(now, ssid) == CountMatching(was, ssid) - gone + (if added && Clean(ssid) then 1 else 0)
  }

  /** Whatever fails or times out: a connect leaves the profiles that do not match alone, and changes the
      others by its applied deletes and its applied add only. */
  lemma {:induction false} ConnectFrame(was: Store, now: Store, ssid: string, password: Option<string>, hidden: bool,
                                        trail: seq<Call>)
    requires StoreOk(was.profiles) && NoNamesake(was.profiles, ssid)
    requires ConnectEffect(was, now, ssid, password, hidden, trail)
    ensures Framed(was.profiles, now.profiles, ssid, |Gone(trail)|, AddApplied(trail))
  {
    var ps, gone := was.profiles, Gone(trail);
    KeptFrame(ps, ssid, gone);
    if AddApplied(trail) {
      var made := TheAdded(was, now, ssid, password, hidden, trail);
      FramedAdd(ps, Keep(ps, gone), made, now.profiles, ssid, Psk(password), |gone|);
    }
  }

  lemma {:induction false} FramedAdd(ps: seq<Profile>, kept: seq<Profile>, made: Profile, now: seq<Profile>,
                                     ssid: string, psk: string, gone: nat)
    requires Framed(ps, kept, ssid, gone, false) && NoNamesake(kept, ssid)
    requires made.name == ssid && Bears(made, ssid) && Touched(kept + [made], now, ssid, psk)
    ensures Framed(ps, now, ssid, gone, true)
  {
    assert kept[..|kept|] == kept;
    AddedFrame(kept, made, now, ssid, psk);
  }

  lemma {:induction false} KeptFrame(ps: seq<Profile>, ssid: string, gone: seq<string>)
    requires NamesUnique(ps) && NoNamesake(ps, ssid)
    requires Distinct(gone) && forall n :: n in gone ==> Matching(ps, ssid, n)
    ensures Framed(ps, Keep(ps, gone), ssid, |gone|, false) && NoNamesake(Keep(ps, gone), ssid)
  {
    assert Keep(ps, gone)[..|Keep(ps, gone)|] == Keep(ps, gone);
    UniqueBearerMatches(ps, ssid, gone);
    OthersOfKept(ps, ssid, gone);
    GoneCount(ps, ssid, gone);
    CountsSplit(ps, ssid);
    CountsSplit(Keep(ps, gone), ssid);
    KeepMembers(ps, gone);
  }

  lemma TheAdded(was: Store, now: Store, ssid: string, password: Option<string>, hidden: bool, trail: seq<Call>)
    returns (made: Profile)
    requires ConnectEffect(was, now, ssid, password, hidden, trail) && AddApplied(trail)
    ensures made.name == ssid && Bears(made, ssid)
    ensures Touched(Keep(was.profiles, Gone(trail)) + [made], now.profiles, ssid, Psk(password))
  {
    var kept := Store(Keep(was.profiles, Gone(trail)), None, was.nextUuid);
    var iface :| Added(kept, now, Add(ssid, iface, hidden, password), Psk(password));
    var c := Add(ssid, iface, hidden, password);
    var sound :| Touched(kept.profiles + [MadeBy(was.nextUuid, c, sound)], now.profiles, ssid, Psk(password));
    made := MadeBy(was.nextUuid, c, sound);
  }

  lemma {:induction false} OthersUpdate(ps: seq<Profile>, i: nat, p: Profile, ssid: string)
    requires i < |ps| && !Matches(ps[i], ssid) && !Matches(p, ssid)
    ensures Others(ps[i := p], ssid) == Others(ps, ssid) ==> p == ps[i]
  {
    var n := |ps| - 1;
    if i == n {
      var front := Others(ps[..n], ssid);
      assert ps[i := p][..n] == ps[..n];
      assert (front + [p])[|front|] == p && (front + [ps[n]])[|front|] == ps[n];
    } else {
      OthersUpdate(ps[..n], i, p, ssid);
      assert ps[i := p][..n] == ps[..n][i := p];
      var last := if Matches(ps[n], ssid) then [] else [ps[n]];
      CancelLast(Others(ps[..n][i := p], ssid), Others(ps[..n], ssid), last);
    }
  }

  lemma CancelLast(a: seq<Profile>, b: seq<Profile>, last: seq<Profile>)
    ensures a + last == b + last ==> a == b
  {
    assert (a + last)[..|a|] == a && (b + last)[..|b|] == b;
  }

  /** The hypothesis about namesakes is exact. Once the new profile stands at the end of the store, the
      forcing of key-mgmt by name spares every non-matching profile, whichever bearer of the name
      NetworkManager picks and whatever the password, if and only if there was no namesake. */
  lemma ForcingSparesOthersIff(st: Store, made: Profile, ssid: string)
    requires made.name == ssid
    ensures NoNamesake(st.profiles, ssid) <==>
      forall pick, psk :: Others(ForcedEarlier(st, made, pick, psk), ssid) == Others(st.profiles, ssid)
  {
    var ps := st.profiles;
    if NoNamesake(ps, ssid) {
      forall pick, psk
        ensures Others(ForcedEarlier(st, made, pick, psk), ssid) == Others(ps, ssid)
      {
        OthersTouched(ps, ForcedEarlier(st, made, pick, psk), ssid, psk);
      }
    } else {
      var p :| p in ps && p.name == ssid && !Matches(p, ssid);
      var i :| 0 <= i < |ps| && ps[i] == p;
      var psk := p.psk + "*";
      assert ForcedEarlier(st, made, i, psk) == ps[i := Forced(p, psk)];
      OthersUpdate(ps, i, Forced(p, psk), ssid);
      assert Forced(p, psk).psk != p.psk;
    }
  }

  /** The earlier profiles after the new one was added and key-mgmt was forced on its name. */
  function ForcedEarlier(st: Store, made: Profile, pick: nat, psk: string): (r: seq<Profile>)
    ensures Touched(st.profiles, r, made.name, psk)
  {
    var now := Effect(st.(profiles := st.profiles + [made]), Modify(made.name, psk), Succeeds(pick, true));
    now.profiles[..|st.profiles|]
  }

  lemma GoneCount(ps: seq<Profile>, ssid: string, gone: seq<string>)
    requires NamesUnique(ps) && Distinct(gone) && forall n :: n in gone ==> Matching(ps, ssid, n)
    ensures |Keep(ps, gone)| == |ps| - |gone|
  {
    forall g | g in gone
      ensures exists i :: 0 <= i < |ps| && ps[i].name == g
    {
      var p :| p in ps && p.name == g && Matches(p, ssid);
      var i :| 0 <= i < |ps| && ps[i] == p;
    }
    KeepLength(ps, gone);
  }

  lemma {:induction false} AddedFrame(kept: seq<Profile>, made: Profile, now: seq<Profile>, ssid: string, psk: string)
    requires NoNamesake(kept, ssid)
    requires made.name == ssid && Bears(made, ssid) && Touched(kept + [made], now, ssid, psk)
    ensures |now| == |kept| + 1 && Others(now[..|kept|], ssid) == Others(kept, ssid)
    ensures CountMatching(now, ssid) == CountMatching(kept, ssid) + (if Clean(ssid) then 1 else 0)
  {
    var n := |kept|;
    TouchedSplit(kept, made, now, ssid, psk);
    OthersTouched(kept, now[..n], ssid, psk);
    MatchIsExactIffClean(ssid, ssid);
    Snoc(now[..n], now[n], ssid);
    CountsSplit(kept, ssid);
    CountsSplit(now, ssid);
  }

  lemma TouchedSplit(was: seq<Profile>, made: Profile, now: seq<Profile>, name: string, psk: string)
    requires Touched(was + [made], now, name, psk)
    ensures |now| == |was| + 1 && Touched(was, now[..|was|], name, psk) && now == now[..|was|] + [now[|was|]]
    ensures now[|was|] == made || now[|was|] == Forced(made, psk)
  {
    assert forall i :: 0 <= i < |was| ==> (was + [made])[i] == was[i];
    assert (was + [made])[|was|] == made;
  }

  // ---------- a connect that adds nothing ----------

  lemma {:induction false} KeepIsOthers(ps: seq<Profile>, ssid: string, gone: seq<string>)
    requires forall i :: 0 <= i < |ps| ==> (ps[i].name in gone <==> Matches(ps[i], ssid))
    ensures Keep(ps, gone) == Others(ps, ssid)
  {
    if ps != [] { KeepIsOthers(ps[..|ps| - 1], ssid, gone); }
  }

  lemma {:induction false} OthersAllIff(ps: seq<Profile>, ssid: string)
    ensures |Others(ps, ssid)| <= |ps|
    ensures Others(ps, ssid) == ps <==> forall p :: p in ps ==> !Matches(p, ssid)
  {
    if ps != [] {
      var n := |ps| - 1;
      OthersAllIff(ps[..n], ssid);
      assert ps == ps[..n] + [ps[n]];
      if !Matches(ps[n], ssid) {
        var others := Others(ps[..n], ssid);
        CancelLast(others, ps[..n], [ps[n]]);
      }
    }
  }

  /** What a connect that fails before or at the add leaves of the store, once the wipe was complete: the
      profiles that do not match, and no others. So a rejected password changes nothing if and only if no
      profile matched. */
  lemma RejectionHarmlessIff(was: Store, now: Store, ssid: string, password: Option<string>, hidden: bool,
                             trail: seq<Call>)
    requires StoreOk(was.profiles) && ConnectEffect(was, now, ssid, password, hidden, trail)
    requires CompleteWipe(was.profiles, ssid, trail) && !AddApplied(trail)
    ensures now.profiles == Others(was.profiles, ssid)
    ensures now.profiles == was.profiles <==> forall p :: p in was.profiles ==> !Matches(p, ssid)
  {
    var ps, gone := was.profiles, Gone(trail);
    UniqueBearerMatches(ps, ssid, gone);
    forall i | 0 <= i < |ps|
      ensures ps[i].name in gone <==> Matches(ps[i], ssid)
    {
      if Matches(ps[i], ssid) { assert Matching(ps, ssid, ps[i].name); }
    }
    KeepIsOthers(ps, ssid, gone);
    OthersAllIff(ps, ssid);
  }

  /** The rejection itself: in a world where every command succeeds, a password of the wrong length ends the
      connect with BadPassword and leaves only the profiles that do not match. */
  method RejectedPassword(st: Store, devices: string, ssid: string, password: string, hidden: bool)
    returns (res: ConnectResult, left: seq<Profile>)
    requires StoreOk(st.profiles) && ssid != "" && password != "" && !PasswordFits(Some(password))
    ensures res == Raised(BadPassword) && left == Others(st.profiles, ssid)
  {
    var nm := new Nmcli(st, _ => Succeeds(0, true), devices);
    ghost var trail;
    res, trail := Connect(nm, ssid, Some(password), hidden);
    left := nm.st.profiles;
    AllSucceeded(nm, trail);
    RejectionHarmlessIff(st, nm.st, ssid, Some(password), hidden, trail);
  }

  lemma AllSucceeded(nm: Nmcli, trail: seq<Call>)
    requires nm.Valid() && nm.calls == [] + trail && forall k :: nm.world(k).Succeeds?
    ensures NoTimeout(trail) && WipeSucceeds(trail) && !ModifyFailed(trail)
  {
    assert nm.calls == trail;
  }

  /** A network whose password is mistyped too short loses the profile that worked. */
  lemma WorkingProfileIsLost(ssid: string, iface: string, psk: string)
    requires Clean(ssid)
    ensures Others([Profile(0, ssid, WIFI_KIND, ssid, iface, WPA_PSK, psk, false)], ssid) == []
  {
    var p := Profile(0, ssid, WIFI_KIND, ssid, iface, WPA_PSK, psk, false);
    MatchIsExactIffClean(ssid, ssid);
    assert [p][..0] == [];
  }

  // ---------- profiles of other networks ----------

  /** The code reads the stored SSID as itself, or as blank. */
  predicate ReadsTrue(p: Profile) {
    p.kind == WIFI_KIND ==> Clean(p.ssid) || Strip(Terse.Escape(p.ssid)) == ""
  }

  /** No request whatever matches a profile of another network if and only if every stored Wi-Fi SSID is
      clean or blank; a request that is clean itself is no protection. */
  lemma OnlyOwnMatchedIff(ps: seq<Profile>)
    ensures (forall p, ssid :: p in ps && ssid != "" && Matches(p, ssid) ==> Bears(p, ssid)) <==>
      forall p :: p in ps ==> ReadsTrue(p)
  {
    forall p | p in ps { ReadAs(p); }
    if forall p, ssid :: p in ps && ssid != "" && Matches(p, ssid) ==> Bears(p, ssid) {
      forall p | p in ps
        ensures ReadsTrue(p)
      {
        var other := Strip(Terse.Escape(p.ssid));
        assert p.kind == WIFI_KIND && other != "" ==> Matches(p, other);
      }
    }
  }

  /** What the code reads, and when that is the SSID itself. */
  lemma ReadAs(p: Profile)
    ensures forall ssid :: Matches(p, ssid) <==> p.kind == WIFI_KIND && ssid == Strip(Terse.Escape(p.ssid))
    ensures Strip(Terse.Escape(p.ssid)) == p.ssid <==> Clean(p.ssid)
  {
    StripNewline(Terse.Escape(p.ssid));
    MatchIsExactIffClean(p.ssid, p.ssid);
  }

  /** A connect, whatever fails, keeps every profile of another network or kind that does not bear the new
      profile's name, if stored SSIDs are clean or blank. */
  lemma OtherNetworksKept(was: Store, now: Store, ssid: string, password: Option<string>, hidden: bool,
                          trail: seq<Call>, p: Profile)
    requires StoreOk(was.profiles) && ConnectEffect(was, now, ssid, password, hidden, trail) && ssid != ""
    requires forall q :: q in was.profiles ==> ReadsTrue(q)
    requires p in was.profiles && !Bears(p, ssid) && p.name != ssid
    ensures p in now.profiles
  {
    var kept := Keep(was.profiles, Gone(trail));
    OnlyOwnMatchedIff(was.profiles);
    UniqueBearerMatches(was.profiles, ssid, Gone(trail));
    var i :| 0 <= i < |was.profiles| && was.profiles[i] == p;
    KeepMembers(was.profiles, Gone(trail));
    if AddApplied(trail) {
      var made := TheAdded(was, now, ssid, password, hidden, trail);
      var k :| 0 <= k < |kept| && kept[k] == p;
      assert (kept + [made])[k] == p && now.profiles[k] == p;
    }
  }

  /** Otherwise another network's working profile can be lost, and for nothing: whenever a stored SSID is
      neither clean nor blank, some other network's name, requested with a password of the wrong length,
      wipes it. */
  method OtherNetworkLost(p: Profile, devices: string, password: string)
    returns (ssid: string, res: ConnectResult, left: seq<Profile>)
    requires OneLineProfiles([p]) && !ReadsTrue(p) && password != "" && !PasswordFits(Some(password))
    ensures p.kind == WIFI_KIND && ssid != p.ssid && res == Raised(BadPassword) && left == []
  {
    ReadAs(p);
    ssid := Strip(Terse.Escape(p.ssid));
    res, left := RejectedPassword(Store([p], None, 1), devices, ssid, password, false);
    assert [p][..0] == [];
  }

  /** Such a pair of networks: a name, and the same name with a blank after it. The request is clean. */
  lemma TrailingBlankMatches(name: string)
    requires name != "" && Clean(name)
    ensures Strip(Terse.Escape(name + " ")) == name && !Clean(name + " ") && CodeMatch(name + " ", name)
  {
    var s := name + " ";
    assert Terse.Plain(s);
    Terse.EscapeLength(s);
    StripBlank(name);
    StripNewline(s);
    assert s[|s| - 1] == ' ';
  }

  lemma StripBlank(s: string)
    requires s != "" && Trimmed(s)
    ensures Strip(s + " ") == s
  {
    LStripSnoc(s, ' ');
    var l := LStrip(s);
    StripFixes(s);
    LStripEdge(s);
    assert l == s;
    assert (l + " ")[..|l|] == l;
  }

  /** The Wi-Fi profiles that really are for the SSID. */
  function Bearers(ps: seq<Profile>, ssid: string): seq<Profile> {
    if ps == [] then []
    else Bearers(ps[..|ps| - 1], ssid) + if Bears(ps[|ps| - 1], ssid) then [ps[|ps| - 1]] else []
  }

  lemma {:induction false} BearersEmpty(ps: seq<Profile>, ssid: string)
    ensures Bearers(ps, ssid) == [] <==> forall p :: p in ps ==> !Bears(p, ssid)
  {
    if ps != [] {
      BearersEmpty(ps[..|ps| - 1], ssid);
      assert ps == ps[..|ps| - 1] + [ps[|ps| - 1]];
    }
  }

  lemma Snoc(ps: seq<Profile>, p: Profile, ssid: string)
    ensures Others(ps + [p], ssid) == Others(ps, ssid) + if Matches(p, ssid) then [] else [p]
    ensures Bearers(ps + [p], ssid) == Bearers(ps, ssid) + if Bears(p, ssid) then [p] else []
  {
    assert (ps + [p])[..|ps|] == ps;
  }

  lemma {:induction false} BearersTouched(a: seq<Profile>, b: seq<Profile>, ssid: string, name: string, psk: string)
    requires Touched(a, b, name, psk)
    ensures |Bearers(b, ssid)| == |Bearers(a, ssid)|
  {
    if a != [] { BearersTouched(a[..|a| - 1], b[..|b| - 1], ssid, name, psk); }
  }

  lemma BearersKept(ps: seq<Profile>, ssid: string, trail: seq<Call>)
    requires NamesUnique(ps) && CompleteWipe(ps, ssid, trail)
    requires forall n :: n in Gone(trail) ==> Matching(ps, ssid, n)
    ensures Bearers(Keep(ps, Gone(trail)), ssid) == [] <==> Clean(ssid) || Bearers(ps, ssid) == []
  {
    var kept := Keep(ps, Gone(trail));
    BearersEmpty(kept, ssid);
    BearersEmpty(ps, ssid);
    KeepMembers(ps, Gone(trail));
    MatchIsExactIffClean(ssid, ssid);
    UniqueBearerMatches(ps, ssid, Gone(trail));
    NoneKeptMatches(ps, ssid, Gone(trail));
    if !Clean(ssid) && Bearers(ps, ssid) != [] {
      var p :| p in ps && Bears(p, ssid);
      var i :| 0 <= i < |ps| && ps[i] == p;
      assert p in kept;
    }
  }

  /** When the wipe was complete and a profile was added, exactly one Wi-Fi profile for the SSID exists
      if and only if the SSID is clean or had none before: an SSID with ':', '\' or edge whitespace
      keeps all its stale profiles beside the new one, so connecting to it twice leaves two. */
  lemma ExactlyOneProfileIff(was: Store, now: Store, ssid: string, password: Option<string>, hidden: bool,
                             trail: seq<Call>)
    requires StoreOk(was.profiles) && ConnectEffect(was, now, ssid, password, hidden, trail)
    requires CompleteWipe(was.profiles, ssid, trail) && AddApplied(trail)
    ensures |Bearers(now.profiles, ssid)| == 1 <==> Clean(ssid) || Bearers(was.profiles, ssid) == []
  {
    var kept := Keep(was.profiles, Gone(trail));
    BearersKept(was.profiles, ssid, trail);
    var iface :| Added(Store(kept, None, was.nextUuid), now, Add(ssid, iface, hidden, password), Psk(password));
    BearersAdded(Store(kept, None, was.nextUuid), now, Add(ssid, iface, hidden, password), Psk(password));
  }

  lemma BearersAdded(was: Store, now: Store, c: Command, psk: string)
    requires c.Add? && Added(was, now, c, psk)
    ensures |Bearers(now.profiles, c.ssid)| == |Bearers(was.profiles, c.ssid)| + 1
  {
    var sound :| Touched(was.profiles + [MadeBy(was.nextUuid, c, sound)], now.profiles, c.ssid, psk);
    var made := MadeBy(was.nextUuid, c, sound);
    BearersTouched(was.profiles + [made], now.profiles, c.ssid, c.ssid, psk);
    Snoc(was.profiles, made, c.ssid);
  }

  // ---------- connecting again and again ----------

  lemma {:induction false} BearersOfKept(ps: seq<Profile>, ssid: string, gone: seq<string>)
    requires forall i :: 0 <= i < |ps| && ps[i].name in gone ==> !Bears(ps[i], ssid)
    ensures Bearers(Keep(ps, gone), ssid) == Bearers(ps, ssid)
  {
    if ps != [] {
      var n := |ps| - 1;
      BearersOfKept(ps[..n], ssid, gone);
      var k, b := Keep(ps[..n], gone), Bearers(ps[..n], ssid);
      if ps[n].name in gone {
        assert k + [] == k && b + [] == b;
      } else {
        Snoc(k, ps[n], ssid);
      }
    }
  }

  /** A connect to an SSID that is not clean wipes none of the profiles for it, whatever fails, so an add
      leaves one more than before. */
  lemma UncleanPilesUp(was: Store, now: Store, ssid: string, password: Option<string>, hidden: bool, trail: seq<Call>)
    requires StoreOk(was.profiles) && ConnectEffect(was, now, ssid, password, hidden, trail)
    requires !Clean(ssid) && AddApplied(trail)
    ensures |Bearers(now.profiles, ssid)| == |Bearers(was.profiles, ssid)| + 1
  {
    var gone := Gone(trail);
    var kept := Keep(was.profiles, gone);
    MatchIsExactIffClean(ssid, ssid);
    UniqueBearerMatches(was.profiles, ssid, gone);
    BearersOfKept(was.profiles, ssid, gone);
    var made := TheAdded(was, now, ssid, password, hidden, trail);
    BearersTouched(kept + [made], now.profiles, ssid, ssid, Psk(password));
    Snoc(kept, made, ssid);
  }

  /** That is no theory: in a world where every command succeeds, a connect to any SSID returns normally,
      and if the SSID is not clean there is one profile more for it than before. The new profile is the last
      and has the password that was given. */
  method ConnectedAgain(st: Store, devices: string, ssid: string, password: Option<string>, hidden: bool)
    returns (res: ConnectResult, left: seq<Profile>)
    requires StoreOk(st.profiles) && ssid != "" && PasswordFits(Effective(password))
    ensures res == Connected
    ensures !Clean(ssid) ==> |Bearers(left, ssid)| == |Bearers(st.profiles, ssid)| + 1
    ensures |Bearers(left, ssid)| == 1 <==> Clean(ssid) || Bearers(st.profiles, ssid) == []
    ensures NoNamesake(st.profiles, ssid) ==>
      left != [] && var p := left[|left| - 1];
      && p.name == ssid && p.ssid == ssid && p.hidden == hidden
      && p.psk == (if password.Some? then password.value else "")
      && p.keyMgmt == (if password == None || password == Some("") then "" else "wpa-psk")
  {
    var now;
    ghost var trail;
    res, now, trail := ConnectSmoothly(st, devices, ssid, password, hidden);
    left := now.profiles;
    if NoNamesake(st.profiles, ssid) {
      LastIsFresh(st, now, ssid, password, hidden, Answer(st, devices, Devices, Succeeds(0, true)), trail);
    }
    ExactlyOneProfileIff(st, now, ssid, Effective(password), hidden, trail);
    if !Clean(ssid) { UncleanPilesUp(st, now, ssid, Effective(password), hidden, trail); }
  }

  /** A connect in a world where every command succeeds. */
  method ConnectSmoothly(st: Store, devices: string, ssid: string, password: Option<string>, hidden: bool)
    returns (res: ConnectResult, now: Store, ghost trail: seq<Call>)
    requires StoreOk(st.profiles) && ssid != "" && PasswordFits(Effective(password))
    ensures res == Connected && AddApplied(trail) && !ModifyFailed(trail)
    ensures ConnectEffect(st, now, ssid, Effective(password), hidden, trail)
    ensures CompleteWipe(st.profiles, ssid, trail)
    ensures NoNamesake(st.profiles, ssid) ==>
      FreshProfile(st, now, ssid, password, hidden, Answer(st, devices, Devices, Succeeds(0, true)), trail)
  {
    var nm := new Nmcli(st, _ => Succeeds(0, true), devices);
    res, trail := Connect(nm, ssid, password, hidden);
    now := nm.st;
    AllSucceeded(nm, trail);
    SuccessIsConnected(nm, trail, res);
  }

  lemma LastIsFresh(was: Store, now: Store, ssid: string, password: Option<string>, hidden: bool, listing: Reply,
                    trail: seq<Call>)
    requires FreshProfile(was, now, ssid, password, hidden, listing, trail) && !ModifyFailed(trail)
    ensures now.profiles != [] && var p := now.profiles[|now.profiles| - 1];
      && p.name == ssid && p.ssid == ssid && p.hidden == hidden
      && p.psk == (if password.Some? then password.value else "")
      && p.keyMgmt == (if password == None || password == Some("") then "" else "wpa-psk")
  {
  }

  lemma SuccessIsConnected(nm: Nmcli, trail: seq<Call>, res: ConnectResult)
    requires nm.Valid() && nm.calls == [] + trail && forall k :: nm.world(k).Succeeds?
    requires Ended(trail, res) && res != Raised(SsidRequired) && res != Raised(BadPassword)
    ensures res == Connected
  {
    assert nm.calls == trail;
    assert trail != [] ==> trail[|trail| - 1].outcome == nm.world(|trail| - 1);
  }

  lemma NamesOfTouched(was: seq<Profile>, now: seq<Profile>, name: string, psk: string)
    requires Touched(was, now, name, psk)
    ensures StoreOk(now) <==> StoreOk(was)
  {
    assert forall i :: 0 <= i < |was| ==> now[i].name == was[i].name && now[i].kind == was[i].kind;
  }

  lemma StoreOkSnoc(ps: seq<Profile>, p: Profile)
    requires StoreOk(ps)
    ensures StoreOk(ps + [p]) <==> OneLine(p.name) && OneLine(p.kind) && forall q :: q in ps ==> q.name != p.name
  {
    var r := ps + [p];
    assert forall i :: 0 <= i < |ps| ==> r[i] == ps[i];
    assert r[|ps|] == p;
    if StoreOk(r) {
      forall q | q in ps ensures q.name != p.name {
        var i :| 0 <= i < |ps| && ps[i] == q;
        assert r[i].name != r[|ps|].name;
      }
    }
  }

  /** Whether the next connect finds the store as this one did: after an add, names stay unique and on one
      line if and only if the SSID is on one line and no profile kept bears it as its name. */
  lemma StoreStaysOkIff(was: Store, now: Store, ssid: string, password: Option<string>, hidden: bool, trail: seq<Call>)
    requires StoreOk(was.profiles) && ConnectEffect(was, now, ssid, password, hidden, trail)
    ensures StoreOk(now.profiles) <==>
      (AddApplied(trail) ==> OneLine(ssid) && forall p :: p in Keep(was.profiles, Gone(trail)) ==> p.name != ssid)
  {
    var kept := Keep(was.profiles, Gone(trail));
    KeptStoreOk(was.profiles, Gone(trail));
    if AddApplied(trail) {
      var made := TheAdded(was, now, ssid, password, hidden, trail);
      StoreOkSnoc(kept, made);
      NamesOfTouched(kept + [made], now.profiles, ssid, Psk(password));
      assert OneLine(WIFI_KIND);
    }
  }

  lemma KeptStoreOk(ps: seq<Profile>, gone: seq<string>)
    requires StoreOk(ps)
    ensures StoreOk(Keep(ps, gone))
  {
    var kept := Keep(ps, gone);
    KeepMembers(ps, gone);
    forall i | 0 <= i < |kept|
      ensures OneLine(kept[i].name) && OneLine(kept[i].kind)
    {
      assert kept[i] in kept;
      var j :| 0 <= j < |ps| && ps[j] == kept[i];
    }
  }

  /** In terms a caller can check before: after a complete wipe and an add, the store stays in order if and
      only if the SSID is on one line and only a matching profile bore it as its name. */
  lemma StoreStaysOkAfterWipeIff(was: Store, now: Store, ssid: string, password: Option<string>, hidden: bool,
                                 trail: seq<Call>)
    requires StoreOk(was.profiles) && ConnectEffect(was, now, ssid, password, hidden, trail)
    requires CompleteWipe(was.profiles, ssid, trail) && AddApplied(trail)
    ensures StoreOk(now.profiles) <==> OneLine(ssid) && NoNamesake(was.profiles, ssid)
  {
    var ps, gone := was.profiles, Gone(trail);
    StoreStaysOkIff(was, now, ssid, password, hidden, trail);
    KeepMembers(ps, gone);
    UniqueBearerMatches(ps, ssid, gone);
    forall p | p in ps && p.name == ssid
      ensures Matches(p, ssid) <==> p !in Keep(ps, gone)
    {
      var i :| 0 <= i < |ps| && ps[i] == p;
      assert Matches(p, ssid) ==> Matching(ps, ssid, p.name);
    }
  }
}
