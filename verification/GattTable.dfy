/** The peripheral's characteristic table: the UUID map, the service's list and the object paths that
    BlueZ enumerates. */
module GattTable {
  import opened Text

  const ROOT_PATH := "/com/bluetoothprov"

  /** The path of the idx-th characteristic of the service at `service`. */
  function CharPath(service: string, idx: nat): string { service + ("/char" + Decimal(idx)) }

  lemma CharPathsDiffer(service: string, i: nat, j: nat)
    ensures CharPath(service, i) == CharPath(service, j) ==> i == j
    ensures CharPath(service, i) != service
  {
    var a, b := "/char" + Decimal(i), "/char" + Decimal(j);
    assert CharPath(service, i)[|service|..] == a && CharPath(service, j)[|service|..] == b;
    assert a[5..] == Decimal(i) && b[5..] == Decimal(j);
    if Decimal(i) == Decimal(j) { DecimalInjective(i, j); }
    assert |CharPath(service, i)| > |service|;
  }

  datatype Exported = ServiceObject | CharObject(ch: Characteristic)

  class Characteristic {
    const path: string
    const uuid: string
    var value: seq<bv8>
    var emitted: seq<seq<bv8>>

    constructor (path: string, uuid: string)
      ensures this.path == path && this.uuid == uuid && value == [] && emitted == []
    {
      this.path, this.uuid, this.value, this.emitted := path, uuid, [], [];
    }

    /** `update_value`: the value and the one notification it causes are the same bytes. */
    method UpdateValue(data: seq<bv8>)
      modifies this
      ensures value == data && emitted == old(emitted) + [data]
    {
      value := data;
      emitted := emitted + [data];
    }
  }

  class Peripheral {
    const servicePath: string
    var characteristics: seq<Characteristic>
    var chars: map<string, Characteristic>

    /** Map, list and paths agree: the k-th characteristic lives at the k-th path and is the one its UUID
        looks up, and nothing else is in the map. */
    ghost predicate Valid()
      reads this
    {
      && |chars| == |characteristics|
      && (forall k :: 0 <= k < |characteristics| ==>
            && characteristics[k].path == CharPath(servicePath, k)
            && characteristics[k].uuid in chars && chars[characteristics[k].uuid] == characteristics[k])
      && (forall u :: u in chars ==> chars[u] in characteristics && chars[u].uuid == u)
    }

    constructor ()
      ensures Valid() && characteristics == [] && servicePath == ROOT_PATH + "/service0"
    {
      servicePath := ROOT_PATH + "/service0";
      characteristics, chars := [], map[];
    }

    /** `add_characteristic`. The table stays in agreement exactly when the UUID is new. */
    method AddCharacteristic(uuid: string) returns (ch: Characteristic)
      requires Valid()
      modifies this
      ensures fresh(ch) && ch.uuid == uuid && ch.path == CharPath(servicePath, |old(characteristics)|)
      ensures characteristics == old(characteristics) + [ch] && chars == old(chars)[uuid := ch]
      ensures Valid() <==> uuid !in old(chars)
    {
      var idx := |chars|;
      ch := new Characteristic(CharPath(servicePath, idx), uuid);
      characteristics := characteristics + [ch];
      chars := chars[uuid := ch];
    }

    /** `characteristic(uuid)`, with None for KeyError. */
    method Lookup(uuid: string) returns (ch: Option<Characteristic>)
      requires Valid()
      ensures ch.Some? <==> exists k :: 0 <= k < |characteristics| && characteristics[k].uuid == uuid
      ensures ch.Some? ==> ch.value in characteristics && ch.value.uuid == uuid
    {
      ch := if uuid in chars then Some(chars[uuid]) else None;
    }

    lemma PathsInjective()
      requires Valid()
      ensures forall i, j :: 0 <= i < j < |characteristics| ==> characteristics[i].path != characteristics[j].path
      ensures forall i :: 0 <= i < |characteristics| ==> characteristics[i].path != servicePath
    {
      forall i, j | 0 <= i < |characteristics| && 0 <= j < |characteristics| { CharPathsDiffer(servicePath, i, j); }
    }

    /** `GetManagedObjects`: one entry for the service and one for each characteristic, under its path. */
    method GetManagedObjects() returns (objs: map<string, Exported>)
      requires Valid()
      ensures |objs| == 1 + |characteristics|
      ensures servicePath in objs && objs[servicePath] == ServiceObject
      ensures forall k :: 0 <= k < |characteristics| ==>
        characteristics[k].path in objs && objs[characteristics[k].path] == CharObject(characteristics[k])
    {
      objs := map[servicePath := ServiceObject];
      for i := 0 to |characteristics|
        invariant |objs| == 1 + i
        invariant forall p :: p in objs ==> p == servicePath || exists k :: 0 <= k < i && p == CharPath(servicePath, k)
        invariant servicePath in objs && objs[servicePath] == ServiceObject
        invariant forall k :: 0 <= k < i ==>
          characteristics[k].path in objs && objs[characteristics[k].path] == CharObject(characteristics[k])
      {
        var ch := characteristics[i];
        forall k | 0 <= k < i { CharPathsDiffer(servicePath, k, i); }
        CharPathsDiffer(servicePath, i, i);
        objs := objs[ch.path := CharObject(ch)];
      }
    }
  }
}
