/** The process-wide registry of configured activities, keyed by activity id.
    Only absolute-time activities can expire from it; expired entries are
    swept when the registry is initialised or iterated. */
module Registry {
  import opened Records

  datatype Registry = Registry(entries: map<int, OperateActivity>)

  /** A call of the global change callback. */
  datatype GlobalEvent = GlobalNotify(conf: Option<OperateActivity>, cmd: DataCmd)

  datatype Lookup = Lookup(found: Option<OperateActivity>, after: Registry, events: seq<GlobalEvent>)

  datatype AddResult = AddResult(ok: bool, after: Registry, events: seq<GlobalEvent>)

  /** Every entry is stored under its own id, as `addCache` stores it. */
  ghost predicate Valid(reg: Registry) {
    forall k | k in reg.entries :: reg.entries[k].id == k
  }

  /** Only an absolute-time activity past its end time has expired. */
  predicate CheckExpire(c: OperateActivity, now: int) {
    c.timeType == AbsoluteTime && now >= c.endTime
  }

  /** Expiry is permanent, and relative-time activities never expire here. */
  lemma ExpiryIsPermanent(c: OperateActivity, now: int, later: int)
    requires now <= later
    ensures CheckExpire(c, now) ==> CheckExpire(c, later)
    ensures !c.timeType.AbsoluteTime? ==> !CheckExpire(c, later)
  {
  }

  /** The entries that have not expired at `now`. */
  function Live(reg: Registry, now: int): map<int, OperateActivity> {
    map k | k in reg.entries && !CheckExpire(reg.entries[k], now) :: reg.entries[k]
  }

  function Ids(list: seq<OperateActivity>): set<int> {
    set c | c in list :: c.id
  }

  /** Removes each listed activity by id and reports each one deleted. */
  function BatchDelete(reg: Registry, list: seq<OperateActivity>): (r: (Registry, seq<GlobalEvent>))
    decreases |list|
    ensures r.0.entries == reg.entries - Ids(list)
    ensures |r.1| == |list|
    ensures forall i :: 0 <= i < |list| ==> r.1[i] == GlobalNotify(Some(list[i]), DataDelete)
  {
    if |list| == 0 then
      (reg, [])
    else
      var first := Registry(reg.entries - {list[0].id});
      var rest := BatchDelete(first, list[1..]);
      assert Ids(list) == {list[0].id} + Ids(list[1..]) by {
        assert forall c :: c in list <==> c == list[0] || c in list[1..];
      }
      (rest.0, [GlobalNotify(Some(list[0]), DataDelete)] + rest.1)
  }

  /** Removes one id; no notification. */
  function Delete(reg: Registry, id: int): (r: Registry)
    ensures r.entries.Keys == reg.entries.Keys - {id}
    ensures forall k | k in r.entries :: r.entries[k] == reg.entries[k]
  {
    Registry(reg.entries - {id})
  }

  /** The live entry for `id`. An expired entry is found but, because the
      lookup returns before the pending delete list is swept, it stays. */
  function GetActivity(reg: Registry, id: int, now: int): (r: Lookup)
    ensures r.found.Some? <==> id in reg.entries && !CheckExpire(reg.entries[id], now)
    ensures r.found.Some? ==> r.found.value == reg.entries[id]
    ensures r.after == reg && r.events == []
  {
    if id !in reg.entries then
      Lookup(None, reg, [])
    else
      var c := reg.entries[id];
      var pending: seq<OperateActivity> := if CheckExpire(c, now) then [c] else [];
      if CheckExpire(c, now) then
        Lookup(None, reg, [])
      else
        var swept := BatchDelete(reg, pending);
        Lookup(Some(c), swept.0, swept.1)
  }

  /** Adds an activity unless a live one with the same id is present. The
      add notification carries the lookup's nil result, not the new config. */
  function AddCache(reg: Registry, c: OperateActivity, now: int): (r: AddResult)
    ensures r.ok <==> !(c.id in reg.entries && !CheckExpire(reg.entries[c.id], now))
    ensures !r.ok ==> r.after == reg && r.events == []
    ensures r.ok ==> r.after.entries == reg.entries[c.id := c]
    ensures r.ok ==> r.events == [GlobalNotify(None, DataAdd)]
  {
    var existing := GetActivity(reg, c.id, now);
    if existing.found.Some? then
      AddResult(false, reg, [])
    else
      AddResult(true, Registry(reg.entries[c.id := c]), [GlobalNotify(existing.found, DataAdd)])
  }

  lemma AddKeepsValid(reg: Registry, c: OperateActivity, now: int)
    requires Valid(reg)
    ensures Valid(AddCache(reg, c, now).after)
  {
  }

  /** A successful add is visible to a later lookup exactly when the added
      activity has not itself expired; a rejected add leaves the earlier one. */
  lemma AddThenGet(reg: Registry, c: OperateActivity, now: int)
    ensures var a := AddCache(reg, c, now);
      a.ok ==> (GetActivity(a.after, c.id, now).found == Some(c) <==> !CheckExpire(c, now))
    ensures var a := AddCache(reg, c, now);
      !a.ok ==> GetActivity(a.after, c.id, now).found == Some(reg.entries[c.id])
  {
  }

  lemma DeleteThenGet(reg: Registry, id: int, now: int)
    ensures GetActivity(Delete(reg, id), id, now).found.None?
  {
  }

  /** `order` lists every key of `m` exactly once: the order in which Go's
      runtime happens to iterate the map. */
  ghost predicate Enumerates<V>(order: seq<int>, m: map<int, V>) {
    && (forall i, j :: 0 <= i < j < |order| ==> order[i] != order[j])
    && (forall k :: k in order <==> k in m)
  }

  /** Visits every live entry once, in the runtime's iteration order, then
      removes the expired entries it saw and reports each of them deleted. */
  method RangeAll(reg: Registry, now: int, order: seq<int>) returns (visited: seq<int>, after: Registry, events: seq<GlobalEvent>)
    requires Valid(reg)
    requires Enumerates(order, reg.entries)
    ensures forall i, j :: 0 <= i < j < |visited| ==> visited[i] != visited[j]
    ensures forall k :: k in visited <==> k in Live(reg, now)
    ensures after.entries == Live(reg, now)
    ensures forall e :: e in events ==>
      e.cmd == DataDelete && e.conf.Some? && e.conf.value.id in reg.entries
      && e.conf.value == reg.entries[e.conf.value.id] && CheckExpire(e.conf.value, now)
    ensures forall k :: k in reg.entries && CheckExpire(reg.entries[k], now) ==>
      GlobalNotify(Some(reg.entries[k]), DataDelete) in events
  {
    var deleteList: seq<OperateActivity> := [];
    visited := [];
    var n := 0;
    while n < |order|
      invariant 0 <= n <= |order|
      invariant forall i, j :: 0 <= i < j < |visited| ==> visited[i] != visited[j]
      invariant forall k :: k in visited <==> k in Live(reg, now) && k in order[..n]
      invariant forall c :: c in deleteList ==>
        c.id in reg.entries && c == reg.entries[c.id] && c.id in order[..n] && CheckExpire(c, now)
      invariant forall k :: k in reg.entries && k in order[..n] && CheckExpire(reg.entries[k], now) ==>
        reg.entries[k] in deleteList
    {
      var k := order[n];
      assert order[..n + 1] == order[..n] + [k];
      assert k !in order[..n];
      if CheckExpire(reg.entries[k], now) {
        deleteList := deleteList + [reg.entries[k]];
      } else {
        visited := visited + [k];
      }
      n := n + 1;
    }
    assert order[..n] == order;
    var swept := BatchDelete(reg, deleteList);
    after, events := swept.0, swept.1;
    forall k | k in reg.entries.Keys - Live(reg, now).Keys
      ensures k in Ids(deleteList)
    {
      assert reg.entries[k] in deleteList;
    }
    assert Ids(deleteList) == reg.entries.Keys - Live(reg, now).Keys;
    forall k | k in reg.entries && CheckExpire(reg.entries[k], now)
      ensures GlobalNotify(Some(reg.entries[k]), DataDelete) in events
    {
      var i :| 0 <= i < |deleteList| && deleteList[i] == reg.entries[k];
      assert events[i] == GlobalNotify(Some(reg.entries[k]), DataDelete);
    }
  }

  /** The first live configuration with id `k` among `data`. */
  function FirstLive(data: seq<OperateActivity>, now: int, k: int): Option<OperateActivity> {
    if |data| == 0 then None
    else
      var earlier := FirstLive(data[..|data| - 1], now, k);
      var c := data[|data| - 1];
      if earlier.Some? then earlier
      else if c.id == k && !CheckExpire(c, now) then Some(c)
      else None
  }

  /** The expired configurations among `data`, in order. */
  function ExpiredOf(data: seq<OperateActivity>, now: int): seq<OperateActivity> {
    if |data| == 0 then []
    else
      var c := data[|data| - 1];
      ExpiredOf(data[..|data| - 1], now) + (if CheckExpire(c, now) then [c] else [])
  }

  lemma {:induction false} FirstLiveSome(data: seq<OperateActivity>, now: int, k: int)
    ensures FirstLive(data, now, k).Some? <==> exists c :: c in data && c.id == k && !CheckExpire(c, now)
    ensures FirstLive(data, now, k).Some? ==>
      FirstLive(data, now, k).value.id == k && !CheckExpire(FirstLive(data, now, k).value, now)
  {
    if |data| > 0 {
      var init := data[..|data| - 1];
      FirstLiveSome(init, now, k);
      assert forall c :: c in data <==> c in init || c == data[|data| - 1];
    }
  }

  lemma {:induction false} ExpiredOfMembers(data: seq<OperateActivity>, now: int)
    ensures forall c :: c in ExpiredOf(data, now) <==> c in data && CheckExpire(c, now)
  {
    if |data| > 0 {
      var init := data[..|data| - 1];
      ExpiredOfMembers(init, now);
      assert forall c :: c in data <==> c in init || c == data[|data| - 1];
    }
  }

  /** Loads the stored configurations: each live one is added (a later one
      with an id already present is rejected), then every expired one is
      deleted by id and reported. Deleting by id also drops a live entry that
      shares its id with an expired one. */
  method Init(initData: seq<OperateActivity>, now: int) returns (reg: Registry, events: seq<GlobalEvent>)
    ensures Valid(reg)
    ensures forall k :: k in reg.entries <==>
      FirstLive(initData, now, k).Some? && k !in Ids(ExpiredOf(initData, now))
    ensures forall k | k in reg.entries :: reg.entries[k] == FirstLive(initData, now, k).value
    ensures forall e :: e in events ==>
      e == GlobalNotify(None, DataAdd)
      || (e.cmd == DataDelete && e.conf.Some? && e.conf.value in initData && CheckExpire(e.conf.value, now))
    ensures forall c :: c in initData && CheckExpire(c, now) ==> GlobalNotify(Some(c), DataDelete) in events
  {
    reg := Registry(map[]);
    events := [];
    var deleteList: seq<OperateActivity> := [];
    var i := 0;
    while i < |initData|
      invariant 0 <= i <= |initData|
      invariant Valid(reg)
      invariant forall k :: k in reg.entries <==> FirstLive(initData[..i], now, k).Some?
      invariant forall k | k in reg.entries :: reg.entries[k] == FirstLive(initData[..i], now, k).value
      invariant forall k | k in reg.entries :: !CheckExpire(reg.entries[k], now)
      invariant deleteList == ExpiredOf(initData[..i], now)
      invariant forall e :: e in events ==> e == GlobalNotify(None, DataAdd)
    {
      var c := initData[i];
      assert initData[..i + 1][..i] == initData[..i];
      FirstLiveSome(initData[..i], now, c.id);
      if CheckExpire(c, now) {
        deleteList := deleteList + [c];
      } else {
        var added := AddCache(reg, c, now);
        reg, events := added.after, events + added.events;
      }
      i := i + 1;
    }
    assert initData[..i] == initData;
    var swept := BatchDelete(reg, deleteList);
    ExpiredOfMembers(initData, now);
    forall c | c in initData && CheckExpire(c, now)
      ensures GlobalNotify(Some(c), DataDelete) in swept.1
    {
      var j :| 0 <= j < |deleteList| && deleteList[j] == c;
      assert swept.1[j] == GlobalNotify(Some(c), DataDelete);
    }
    reg, events := swept.0, events + swept.1;
  }
}
