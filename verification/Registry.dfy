/** ContainerDao: the container registry, an array of records that every operation reads whole,
    changes and writes back. */
module Registry {
  import opened Bytes

  datatype Status = Running | Stopped

  datatype Record = Record(
    id: string, name: string, pid: int, command: string, volumes: set<string>,
    created: int, started: int, stopped: int, status: Status, abnormal: int)

  /** pack_container_info does not read the start and stop times. */
  function Pack(r: Record): (p: Record)
    ensures p == Record(r.id, r.name, r.pid, r.command, r.volumes, r.created, 0, 0, r.status, r.abnormal)
  {
    r.(started := 0, stopped := 0)
  }

  /** What the system tells one lookup: the processes that are alive, and the time. */
  datatype Look = Look(alive: set<int>, now: int)

  predicate Matches(r: Record, key: string) {
    r.name == key || r.id == key
  }

  /** The record a lookup by id or name settles on; the length of the registry if there is none. */
  function FirstMatch(rs: seq<Record>, key: string): (i: nat)
    ensures i <= |rs| && (i < |rs| ==> Matches(rs[i], key))
    ensures forall j :: 0 <= j < i ==> !Matches(rs[j], key)
  {
    if rs == [] || Matches(rs[0], key) then 0 else 1 + FirstMatch(rs[1..], key)
  }

  function IdIndex(rs: seq<Record>, id: string): (i: nat)
    ensures i <= |rs| && (i < |rs| ==> rs[i].id == id)
    ensures forall j :: 0 <= j < i ==> rs[j].id != id
  {
    if rs == [] || rs[0].id == id then 0 else 1 + IdIndex(rs[1..], id)
  }

  function NameIndex(rs: seq<Record>, name: string): (i: nat)
    ensures i <= |rs| && (i < |rs| ==> rs[i].name == name)
    ensures forall j :: 0 <= j < i ==> rs[j].name != name
  {
    if rs == [] || rs[0].name == name then 0 else 1 + NameIndex(rs[1..], name)
  }

  /** The same ids, place by place. */
  predicate SameIds(rs: seq<Record>, t: seq<Record>) {
    |t| == |rs| && forall j :: 0 <= j < |rs| ==> t[j].id == rs[j].id
  }

  /** A record still marked running whose process is gone is marked stopped. */
  function Reconcile(r: Record, look: Look): Record {
    if r.status == Running && r.pid !in look.alive then r.(status := Stopped, stopped := look.now, pid := 0) else r
  }

  function Reconciled(rs: seq<Record>, key: string, look: Look): (t: seq<Record>)
    ensures SameIds(rs, t)
  {
    var i := FirstMatch(rs, key);
    if i == |rs| then rs else rs[i := Reconcile(rs[i], look)]
  }

  /** A lookup changes nothing about a container that is stopped or whose process is alive; a running
      one whose process is gone becomes stopped, now, without a process, and keeps all the rest. */
  lemma LookupMarks(rs: seq<Record>, key: string, look: Look)
    ensures var i := FirstMatch(rs, key);
            var t := Reconciled(rs, key, look);
            && (i == |rs| || rs[i].status == Stopped || rs[i].pid in look.alive ==> t == rs)
            && (i < |rs| && rs[i].status == Running && rs[i].pid !in look.alive ==>
                  t == rs[i := Record(rs[i].id, rs[i].name, 0, rs[i].command, rs[i].volumes, rs[i].created,
                                      rs[i].started, look.now, Stopped, rs[i].abnormal)])
  {
  }

  function UpdateOf(rs: seq<Record>, info: Record): (t: seq<Record>)
    ensures SameIds(rs, t)
  {
    var i := IdIndex(rs, info.id);
    if i == |rs| then rs else rs[i := info]
  }

  function Without(rs: seq<Record>, id: string): seq<Record> {
    if rs == [] then []
    else (if rs[0].id == id then [] else [rs[0]]) + Without(rs[1..], id)
  }

  /** A container that ended in order: no process, no start time, not stopped abnormally. */
  function StopOf(r: Record, now: int): (t: Record)
    ensures t == Record(r.id, r.name, 0, r.command, r.volumes, r.created, 0, now, Stopped, 0)
  {
    Pack(r).(status := Stopped, abnormal := 0, stopped := now, pid := 0)
  }

  /** change_status_to_stop: the lookup, then the update. */
  function StopRecord(rs: seq<Record>, key: string, look: Look, now: int): (t: seq<Record>)
    requires FirstMatch(rs, key) < |rs|
    ensures SameIds(rs, t)
  {
    var looked := Reconciled(rs, key, look);
    UpdateOf(looked, StopOf(looked[FirstMatch(rs, key)], now))
  }

  /** delete_by_id: the lookup, then every record but the one found. */
  function DeleteRecord(rs: seq<Record>, key: string, look: Look): seq<Record>
    requires rs == [] || FirstMatch(rs, key) < |rs|
  {
    if rs == [] then [] else
      var looked := Reconciled(rs, key, look);
      Without(looked, looked[FirstMatch(rs, key)].id)
  }

  /** The registry file, rewritten by every operation. */
  class Store {
    var records: seq<Record>

    method Insert(info: Record)
      modifies this
      ensures records == old(records) + [info]
    {
      var root := records;
      root := root + [info];
      records := root;
    }

    method GetByIdOrName(key: string, look: Look) returns (info: Option<Record>)
      modifies this
      ensures records == Reconciled(old(records), key, look)
      ensures var i := FirstMatch(old(records), key);
              info == if i < |records| then Some(Pack(records[i])) else None
    {
      var root := records;
      for i := 0 to |root|
        invariant root == old(records) == records
        invariant forall j :: 0 <= j < i ==> !Matches(root[j], key)
      {
        if root[i].name == key || root[i].id == key {
          assert i == FirstMatch(old(records), key);
          if root[i].status == Running {
            if root[i].pid !in look.alive {
              root := root[i := root[i].(status := Stopped, stopped := look.now, pid := 0)];
              records := root;
            }
          }
          return Some(Pack(root[i]));
        }
      }
      return None;
    }

    /** get_container_by("name", value) */
    method GetByName(value: string) returns (info: Option<Record>)
      ensures info == if NameIndex(records, value) < |records| then Some(Pack(records[NameIndex(records, value)])) else None
    {
      for i := 0 to |records|
        invariant forall j :: 0 <= j < i ==> records[j].name != value
      {
        if records[i].name == value {
          return Some(Pack(records[i]));
        }
      }
      return None;
    }

    /** get_container_by("id", value) */
    method GetById(value: string) returns (info: Option<Record>)
      ensures info == if IdIndex(records, value) < |records| then Some(Pack(records[IdIndex(records, value)])) else None
    {
      for i := 0 to |records|
        invariant forall j :: 0 <= j < i ==> records[j].id != value
      {
        if records[i].id == value {
          return Some(Pack(records[i]));
        }
      }
      return None;
    }

    /** update.  With an empty registry it first inserts info, but it still writes back the array it
        read at the start, so that insert is lost. */
    method Update(info: Record)
      modifies this
      ensures records == UpdateOf(old(records), info)
    {
      var root := records;
      if |root| == 0 {
        Insert(info);
      }
      var i := 0;
      while i < |root|
        invariant 0 <= i <= |root| && root == old(records)
        invariant forall j :: 0 <= j < i ==> root[j].id != info.id
      {
        if root[i].id == info.id {
          root := root[i := info];
          break;
        }
        i := i + 1;
      }
      records := root;
    }

    method ChangeStatusToStop(key: string, look: Look, now: int)
      requires FirstMatch(records, key) < |records|
      modifies this
      ensures records == StopRecord(old(records), key, look, now)
    {
      var info := GetByIdOrName(key, look);
      Update(info.value.(status := Stopped, abnormal := 0, stopped := now, pid := 0));
    }

    method DeleteById(key: string, look: Look)
      requires records == [] || FirstMatch(records, key) < |records|
      modifies this
      ensures records == DeleteRecord(old(records), key, look)
    {
      var info := GetByIdOrName(key, look);
      if |records| == 0 {
        return;
      }
      var newRoot := KeepOthers(records, info.value.id);
      records := newRoot;
    }
  }

  /** The loop of delete_by_id. */
  method KeepOthers(oldRoot: seq<Record>, id: string) returns (newRoot: seq<Record>)
    ensures newRoot == Without(oldRoot, id)
  {
    newRoot := [];
    assert oldRoot[0..] == oldRoot;
    for i := 0 to |oldRoot|
      invariant Without(oldRoot, id) == newRoot + Without(oldRoot[i..], id)
    {
      WithoutFrom(oldRoot, i, id, newRoot);
      if oldRoot[i].id != id {
        newRoot := newRoot + [oldRoot[i]];
      }
    }
    assert oldRoot[|oldRoot|..] == [];
  }

  /** One turn of that loop. */
  lemma WithoutFrom(rs: seq<Record>, i: nat, id: string, before: seq<Record>)
    requires i < |rs|
    ensures before + Without(rs[i..], id)
            == (if rs[i].id == id then before else before + [rs[i]]) + Without(rs[i + 1..], id)
  {
    assert rs[i..][0] == rs[i] && rs[i..][1..] == rs[i + 1..];
    var rest := Without(rs[i + 1..], id);
    assert before + ([rs[i]] + rest) == (before + [rs[i]]) + rest;
  }

  /** update stores a record exactly when one with its id was there already. */
  lemma UpdateStores(rs: seq<Record>, info: Record)
    ensures info in UpdateOf(rs, info) <==> exists i :: 0 <= i < |rs| && rs[i].id == info.id
    ensures UpdateOf([], info) == []
  {
    var i := IdIndex(rs, info.id);
    if i < |rs| {
      assert UpdateOf(rs, info)[i] == info;
    }
  }
}
