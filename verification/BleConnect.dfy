/** `PiBleClient.connect`: up to maxAttempts GATT connects with a back-off between them. */
module BleConnect {
  import opened Text

  const UUIDS: seq<string> := [
    "6f3a0002-9a2b-4f3e-8d1c-1a2b3c4d5e6f", "6f3a0003-9a2b-4f3e-8d1c-1a2b3c4d5e6f",
    "6f3a0004-9a2b-4f3e-8d1c-1a2b3c4d5e6f", "6f3a0005-9a2b-4f3e-8d1c-1a2b3c4d5e6f",
    "6f3a0006-9a2b-4f3e-8d1c-1a2b3c4d5e6f", "6f3a0007-9a2b-4f3e-8d1c-1a2b3c4d5e6f"]

  /** A characteristic object, with the GATT session it belongs to. */
  datatype Handle = Handle(session: nat, uuid: string)

  /** What happens to one attempt: the session it opens and the first thing that fails in it, if any. */
  datatype Fate = GattFails | ServiceFails | CharFails(at: nat) | Good

  datatype Attempt = Attempt(session: nat, fate: Fate)

  predicate Succeeds(a: Attempt) { a.fate.Good? || (a.fate.CharFails? && a.fate.at >= |UUIDS|) }

  /** The handles of one session, all of them. */
  function AllHandles(session: nat): map<string, Handle> {
    map u | u in UUIDS :: Handle(session, u)
  }

  lemma {:induction false} DistinctKeys(us: seq<string>, session: nat)
    requires forall i, j :: 0 <= i < j < |us| ==> us[i] != us[j]
    ensures |map u | u in us :: Handle(session, u)| == |us|
  {
    if us != [] {
      var n := |us| - 1;
      var before, all := map u | u in us[..n] :: Handle(session, u), map u | u in us :: Handle(session, u);
      DistinctKeys(us[..n], session);
      assert us == us[..n] + [us[n]];
      assert us[n] !in before;
      assert all == before[us[n] := Handle(session, us[n])];
    }
  }

  /** All handles of a session are six: the UUIDs differ pairwise, in their eighth character. */
  lemma SixHandles(session: nat)
    ensures |UUIDS| == 6 && |AllHandles(session)| == 6
    ensures forall u :: u in AllHandles(session) <==> u in UUIDS
    ensures forall u :: u in UUIDS ==> AllHandles(session)[u] == Handle(session, u)
  {
    forall i, j | 0 <= i < j < |UUIDS|
      ensures UUIDS[i] != UUIDS[j]
    {
      assert UUIDS[i][7] == '2' + i as char && UUIDS[j][7] == '2' + j as char;
    }
    DistinctKeys(UUIDS, session);
  }

  class PiBleClient {
    var device: Option<nat>
    var server: Option<nat>
    var service: Option<nat>
    var chars: map<string, Handle>
    var attempts: seq<int>
    var backoffs: nat

    /** Only the six characteristics are ever cached. */
    predicate Valid()
      reads this
    {
      forall u :: u in chars ==> u in UUIDS
    }

    constructor ()
      ensures Valid() && chars == map[] && server.None? && service.None? && attempts == [] && backoffs == 0
    {
      device, server, service, chars, attempts, backoffs := None, None, None, map[], [], 0;
    }

    /** `_tryConnectOnce`: on failure whatever was obtained so far stays behind. */
    method TryConnectOnce(a: Attempt) returns (ok: bool)
      requires Valid()
      modifies this`server, this`service, this`chars
      ensures Valid() && ok == Succeeds(a)
      ensures ok <==> a.fate.Good? || (a.fate.CharFails? && a.fate.at >= 6)
      ensures ok ==> server == Some(a.session) && service == Some(a.session) && chars == AllHandles(a.session)
    {
      if a.fate.GattFails? { return false; }
      server := Some(a.session);
      if a.fate.ServiceFails? { return false; }
      service := Some(a.session);
      for i := 0 to |UUIDS|
        invariant server == Some(a.session) && service == Some(a.session)
        invariant Valid() && (a.fate.CharFails? ==> i <= a.fate.at)
        invariant forall k :: 0 <= k < i ==> UUIDS[k] in chars && chars[UUIDS[k]] == Handle(a.session, UUIDS[k])
      {
        if a.fate == CharFails(i) { return false; }
        chars := chars[UUIDS[i] := Handle(a.session, UUIDS[i])];
      }
      assert chars.Keys == AllHandles(a.session).Keys;
      ok := true;
    }

    /** For any sequence of failures, and whatever handles an earlier session left in the cache: the
        connect succeeds exactly when one of the first maxAttempts attempts does, and stops at the first
        such one with all six handles of that attempt's session and none of another; otherwise every
        handle, the service and the server are forgotten. Attempts are announced 1, 2, ... and separated
        by one back-off each. With no attempt allowed it fails and keeps what it had. */
    method Connect(device: nat, world: int -> Attempt, maxAttempts: int) returns (ok: bool)
      requires Valid()
      modifies this
      ensures Valid() && this.device == Some(device)
      ensures ok <==> exists k :: 1 <= k <= maxAttempts && Succeeds(world(k))
      ensures (exists k :: 1 <= k <= maxAttempts && world(k).fate.Good?) ==> ok
      ensures ok ==>
        var n := |attempts| - |old(attempts)|;
        && 1 <= n <= maxAttempts && Succeeds(world(n)) && (forall k :: 1 <= k < n ==> !Succeeds(world(k)))
        && chars == AllHandles(world(n).session)
        && server == Some(world(n).session) && service == Some(world(n).session)
      ensures !ok && maxAttempts >= 1 ==> chars == map[] && server.None? && service.None?
      ensures !ok ==> |attempts| - |old(attempts)| == if maxAttempts >= 1 then maxAttempts else 0
      ensures maxAttempts < 1 ==> chars == old(chars) && server == old(server) && service == old(service)
      ensures |attempts| >= |old(attempts)| && attempts[..|old(attempts)|] == old(attempts)
      ensures forall k :: |old(attempts)| <= k < |attempts| ==> attempts[k] == k - |old(attempts)| + 1
      ensures backoffs == old(backoffs) + if |attempts| > |old(attempts)| then |attempts| - |old(attempts)| - 1 else 0
    {
      this.device := Some(device);
      var attempt := 1;
      while attempt <= maxAttempts
        invariant attempt >= 1 && (attempt <= maxAttempts + 1 || attempt == 1)
        invariant Valid() && this.device == Some(device)
        invariant |attempts| == |old(attempts)| + attempt - 1 && attempts[..|old(attempts)|] == old(attempts)
        invariant forall k :: |old(attempts)| <= k < |attempts| ==> attempts[k] == k - |old(attempts)| + 1
        invariant forall k :: 1 <= k < attempt ==> !Succeeds(world(k))
        invariant backoffs == old(backoffs) +
          if attempt <= maxAttempts || attempt == 1 then attempt - 1 else attempt - 2
        invariant attempt > 1 ==> chars == map[] && server.None? && service.None?
        invariant attempt == 1 ==> chars == old(chars) && server == old(server) && service == old(service)
      {
        attempts := attempts + [attempt];
        var done := TryConnectOnce(world(attempt));
        if done { return true; }
        chars := map[];
        service := None;
        server := None;
        if attempt < maxAttempts { backoffs := backoffs + 1; }
        attempt := attempt + 1;
      }
      ok := false;
    }
  }
}
