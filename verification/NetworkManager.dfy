/** NetworkManager as `wifi.connect` sees it through nmcli: a store of connection profiles, and commands
    any of which may succeed, fail, or time out with or without having taken effect. */
module NetworkManager {
  import opened Text
  import Terse

  const WIFI_KIND := "802-11-wireless"
  const WPA_PSK := "wpa-psk"

  datatype Profile = Profile(uuid: nat, name: string, kind: string, ssid: string, iface: string,
                             keyMgmt: string, psk: string, hidden: bool)

  datatype Store = Store(profiles: seq<Profile>, active: Option<nat>, nextUuid: nat)

  datatype Command =
    | Devices
    | ListProfiles
    | ReadSsid(name: string)
    | Delete(name: string)
    | Add(ssid: string, iface: string, hidden: bool, password: Option<string>)
    | ReadKeyMgmt(name: string)
    | Modify(name: string, psk: string)
    | Up(name: string)

  /** How the world treats a command. `pick` settles which of several profiles of one name is meant;
      `sound` says whether an added profile keeps its key-mgmt; a command that fails or is killed by its
      timeout may have been applied all the same. */
  datatype Outcome =
    | Succeeds(pick: nat, sound: bool)
    | Fails(rc: FailCode, out: string, err: string, applied: bool, pick: nat, sound: bool)
    | TimesOut(applied: bool, pick: nat, sound: bool)

  type FailCode = rc: int | rc != 0 witness 1

  predicate Applied(o: Outcome) { o.Succeeds? || o.applied }

  datatype Reply = Exited(rc: int, out: string, err: string) | Timeout

  // ---------- names ----------

  predicate NamesUnique(ps: seq<Profile>) {
    forall i, j :: 0 <= i < j < |ps| ==> ps[i].name != ps[j].name
  }

  /** Index of the first profile of a name, or the number of profiles. */
  function FirstNamed(ps: seq<Profile>, name: string): (i: nat)
    ensures i <= |ps| && (i < |ps| ==> ps[i].name == name)
    ensures forall j :: 0 <= j < i ==> ps[j].name != name
  {
    if ps == [] || ps[0].name == name then 0 else 1 + FirstNamed(ps[1..], name)
  }

  /** The profile a name refers to, as an index; the number of profiles when there is none. */
  function Select(ps: seq<Profile>, name: string, pick: nat): (i: nat)
    ensures i <= |ps| && (i < |ps| ==> ps[i].name == name)
    ensures i == |ps| ==> forall j :: 0 <= j < |ps| ==> ps[j].name != name
  {
    if pick < |ps| && ps[pick].name == name then pick else FirstNamed(ps, name)
  }

  // ---------- commands ----------

  function MadeBy(nextUuid: nat, c: Command, sound: bool): Profile
    requires c.Add?
  {
    Profile(nextUuid, c.ssid, WIFI_KIND, c.ssid, c.iface,
            if c.password.Some? && sound then WPA_PSK else "",
            match c.password case Some(k) => k case None => "", c.hidden)
  }

  function Forced(p: Profile, psk: string): Profile { p.(keyMgmt := WPA_PSK, psk := psk) }

  function Effect(st: Store, c: Command, o: Outcome): Store {
    if !Applied(o) then st
    else
      match c
      case Delete(name) =>
        var i := Select(st.profiles, name, o.pick);
        if i == |st.profiles| then st
        else st.(profiles := st.profiles[..i] + st.profiles[i + 1..],
                 active := if st.active == Some(st.profiles[i].uuid) then None else st.active)
      case Add(_, _, _, _) =>
        st.(profiles := st.profiles + [MadeBy(st.nextUuid, c, o.sound)], nextUuid := st.nextUuid + 1)
      case Modify(name, psk) =>
        var i := Select(st.profiles, name, o.pick);
        if i == |st.profiles| then st
        else st.(profiles := st.profiles[i := Forced(st.profiles[i], psk)])
      case Up(name) =>
        var i := Select(st.profiles, name, o.pick);
        if i == |st.profiles| then st else st.(active := Some(st.profiles[i].uuid))
      case _ => st
  }

  function ProfileLines(ps: seq<Profile>): (r: seq<string>)
    ensures |r| == |ps|
  {
    if ps == [] then []
    else ProfileLines(ps[..|ps| - 1]) + [Terse.Render([ps[|ps| - 1].name, ps[|ps| - 1].kind])]
  }

  /** What a read of one profile prints, escaped. */
  function Printed(p: Profile, c: Command): string {
    match c
    case ReadSsid(_) => Terse.Escape(p.ssid) + "\n"
    case ReadKeyMgmt(_) => Terse.Escape(p.keyMgmt) + "\n"
    case _ => ""
  }

  /** nmcli's answer. A command about a name nobody bears exits with 10. */
  function Answer(st: Store, devices: string, c: Command, o: Outcome): Reply {
    match o
    case TimesOut(_, _, _) => Timeout
    case Fails(rc, out, err, _, _, _) => Exited(rc, out, err)
    case Succeeds(pick, _) =>
      match c
      case Devices => Exited(0, devices, "")
      case ListProfiles => Exited(0, Unlines(ProfileLines(st.profiles)), "")
      case Add(_, _, _, _) => Exited(0, "", "")
      case _ =>
        var i := Select(st.profiles, c.name, pick);
        if i == |st.profiles| then Exited(10, "", "") else Exited(0, Printed(st.profiles[i], c), "")
  }

  // ---------- what one command costs and does, as history ----------

  datatype Call = Call(cmd: Command, timeout: nat, outcome: Outcome)

  /** The nmcli process runner `_run`, over a store and an arbitrary world: what each call, by its number,
      comes to. */
  class Nmcli {
    var st: Store
    var calls: seq<Call>
    const world: nat -> Outcome
    const devices: string

    /** Every call so far turned out as the world had it. */
    ghost predicate Valid()
      reads this
    {
      forall k :: 0 <= k < |calls| ==> calls[k].outcome == world(k)
    }

    constructor (st: Store, world: nat -> Outcome, devices: string)
      ensures Valid() && this.st == st && calls == [] && this.world == world && this.devices == devices
    {
      this.st, this.calls, this.world, this.devices := st, [], world, devices;
    }

    method Run(cmd: Command, timeout: nat) returns (r: Reply)
      requires Valid()
      modifies this
      ensures Valid() && calls == old(calls) + [Call(cmd, timeout, world(|old(calls)|))]
      ensures st == Effect(old(st), cmd, world(|old(calls)|))
      ensures r == Answer(old(st), devices, cmd, world(|old(calls)|))
    {
      var o := world(|calls|);
      r := Answer(st, devices, cmd, o);
      st := Effect(st, cmd, o);
      calls := calls + [Call(cmd, timeout, o)];
    }
  }

  function Seconds(calls: seq<Call>): nat {
    if calls == [] then 0 else Seconds(calls[..|calls| - 1]) + calls[|calls| - 1].timeout
  }

  /** The names of the profiles that applied deletes removed. */
  function Gone(calls: seq<Call>): seq<string> {
    if calls == [] then []
    else
      var c := calls[|calls| - 1];
      Gone(calls[..|calls| - 1]) + if c.cmd.Delete? && Applied(c.outcome) then [c.cmd.name] else []
  }

  predicate AddApplied(calls: seq<Call>) {
    exists i :: 0 <= i < |calls| && calls[i].cmd.Add? && Applied(calls[i].outcome)
  }

  lemma HistorySnoc(calls: seq<Call>, c: Call)
    ensures Seconds(calls + [c]) == Seconds(calls) + c.timeout
    ensures Gone(calls + [c]) == Gone(calls) + if c.cmd.Delete? && Applied(c.outcome) then [c.cmd.name] else []
    ensures AddApplied(calls + [c]) <==> AddApplied(calls) || (c.cmd.Add? && Applied(c.outcome))
  {
    assert (calls + [c])[..|calls|] == calls;
    if i :| 0 <= i < |calls| && calls[i].cmd.Add? && Applied(calls[i].outcome) {
      assert (calls + [c])[i] == calls[i];
    }
    assert (calls + [c])[|calls|] == c;
  }

  lemma {:induction false} HistoryAppend(a: seq<Call>, b: seq<Call>)
    ensures Seconds(a + b) == Seconds(a) + Seconds(b)
    ensures Gone(a + b) == Gone(a) + Gone(b)
    ensures AddApplied(a + b) <==> AddApplied(a) || AddApplied(b)
  {
    if b == [] {
      assert a + b == a;
      assert Gone(a) + [] == Gone(a);
    } else {
      var n := |b| - 1;
      assert a + b == (a + b[..n]) + [b[n]];
      assert b == b[..n] + [b[n]];
      HistoryAppend(a, b[..n]);
      HistorySnoc(a + b[..n], b[n]);
      HistorySnoc(b[..n], b[n]);
    }
  }

  // ---------- deleting by name ----------

  /** The profiles whose name is not among those gone, in order. */
  function Keep(ps: seq<Profile>, gone: seq<string>): seq<Profile> {
    if ps == [] then []
    else Keep(ps[..|ps| - 1], gone) + if ps[|ps| - 1].name in gone then [] else [ps[|ps| - 1]]
  }

  lemma {:induction false} KeepMembers(ps: seq<Profile>, gone: seq<string>)
    ensures forall p :: p in Keep(ps, gone) <==> p in ps && p.name !in gone
    ensures NamesUnique(ps) ==> NamesUnique(Keep(ps, gone))
  {
    if ps != [] {
      var n := |ps| - 1;
      KeepMembers(ps[..n], gone);
      assert ps == ps[..n] + [ps[n]];
      if NamesUnique(ps) {
        assert NamesUnique(ps[..n]);
        var k := Keep(ps[..n], gone);
        forall i | 0 <= i < |k| ensures k[i].name != ps[n].name {
          assert k[i] in k;
          var j :| 0 <= j < n && ps[j] == k[i];
        }
      }
    }
  }

  lemma {:induction false} KeepNone(ps: seq<Profile>, gone: seq<string>)
    requires forall p :: p in ps ==> p.name !in gone
    ensures Keep(ps, gone) == ps
  {
    if ps != [] {
      KeepNone(ps[..|ps| - 1], gone);
      assert ps == ps[..|ps| - 1] + [ps[|ps| - 1]];
    }
  }

  lemma {:induction false} KeepTwice(ps: seq<Profile>, gone: seq<string>, name: string)
    ensures Keep(Keep(ps, gone), [name]) == Keep(ps, gone + [name])
  {
    if ps != [] {
      var n := |ps| - 1;
      KeepTwice(ps[..n], gone, name);
      var k := Keep(ps[..n], gone);
      if ps[n].name !in gone {
        assert (k + [ps[n]])[..|k|] == k;
      } else {
        assert k + [] == k;
      }
    }
  }

  /** Deleting the bearer of a unique name is dropping that name. */
  lemma {:induction false} DropIndex(ps: seq<Profile>, i: nat)
    requires NamesUnique(ps) && i < |ps|
    ensures ps[..i] + ps[i + 1..] == Keep(ps, [ps[i].name])
  {
    var n := |ps| - 1;
    if i == n {
      assert ps[n + 1..] == [];
      KeepNone(ps[..n], [ps[i].name]);
    } else {
      DropIndex(ps[..n], i);
      assert ps[..n][..i] == ps[..i] && ps[..n][i + 1..] + [ps[n]] == ps[i + 1..];
    }
  }

  lemma {:induction false} KeepLength(ps: seq<Profile>, gone: seq<string>)
    requires NamesUnique(ps)
    requires forall i, j :: 0 <= i < j < |gone| ==> gone[i] != gone[j]
    requires forall g :: g in gone ==> exists i :: 0 <= i < |ps| && ps[i].name == g
    ensures |Keep(ps, gone)| == |ps| - |gone|
    decreases |gone|
  {
    if gone == [] {
      KeepNone(ps, gone);
    } else {
      var n := |gone| - 1;
      var rest, g := gone[..n], gone[n];
      assert gone == rest + [g];
      assert g in gone && forall h :: h in rest ==> h in gone;
      KeepLength(ps, rest);
      KeepTwice(ps, rest, g);
      KeepMembers(ps, rest);
      var k := Keep(ps, rest);
      var i :| 0 <= i < |ps| && ps[i].name == g;
      assert ps[i] in k;
      var j :| 0 <= j < |k| && k[j] == ps[i];
      DropIndex(k, j);
    }
  }
}
