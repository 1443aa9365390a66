/** One player's instance of one operator activity: the configuration, the
    player's stored progress, and the templates built from both, grouped by
    day. A template's data is the same object as the stored record of its
    (day, index) slot, so the model keeps the two equal (`Aliased`) and
    writes every template change through to the record (`PutTemplate`). */
module Activity {
  import opened Records
  import opened DayClock
  import opened ActivityTime
  import opened TemplateBase
  import opened TemplateTable
  import Registry
  import TaskTemplate
  import ShopTemplate
  import SignCommon
  import RootSign

  datatype Activity = Activity(
    conf: OperateActivity,
    db: ActivityDB,
    templates: map<int, seq<Option<Template>>>)

  /** The outcome of an activity command. */
  datatype ActStep = ActStep(err: Option<Error>, after: Activity, effects: seq<Effect>)

  function Id(a: Activity): int {
    a.db.activityId
  }

  // ---------------------------------------------------------------------
  // Stored template records

  type DayList = map<int, Option<TemplateData>>

  function DayOf(db: ActivityDB, day: int): Option<DayList> {
    if day in db.lists then Some(db.lists[day]) else None
  }

  /** The stored record at `index` of a day's list. The code treats an index
      at or past the list's size as missing, whatever keys the list holds. */
  function StoredAt(list: Option<DayList>, index: int): (r: Option<TemplateData>)
    ensures r.Some? <==> list.Some? && index < |list.value| && index in list.value && list.value[index].Some?
    ensures r.Some? ==> r == list.value[index]
  {
    if list.None? then None
    else if index >= |list.value| then None
    else if index in list.value then list.value[index]
    else None
  }

  /** A day's list with `data` stored at `index`; a missing list is created. */
  function SaveAt(list: Option<DayList>, index: int, data: Option<TemplateData>): (r: DayList)
    ensures index in r && r[index] == data
    ensures forall k :: k != index ==> (k in r <==> list.Some? && k in list.value)
    ensures forall k :: k != index && k in r ==> r[k] == list.value[k]
  {
    (if list.None? then map[] else list.value)[index := data]
  }

  function GetTemplateData(db: ActivityDB, day: int, index: int): Option<TemplateData> {
    StoredAt(DayOf(db, day), index)
  }

  function SaveTemplateData(db: ActivityDB, day: int, index: int, data: Option<TemplateData>): (r: ActivityDB)
    ensures r.activityId == db.activityId && r.gotScores == db.gotScores && r.preTaskInfos == db.preTaskInfos
    ensures r.lists.Keys == db.lists.Keys + {day}
    ensures forall d :: d in db.lists && d != day ==> r.lists[d] == db.lists[d]
  {
    db.(lists := db.lists[day := SaveAt(DayOf(db, day), index, data)])
  }

  /** A saved record reads back exactly when its index is below the size of
      the day's list afterwards; an index past the keys saved so far reads
      back as missing. */
  lemma SaveThenGet(db: ActivityDB, day: int, index: int, data: TemplateData)
    ensures var after := SaveTemplateData(db, day, index, Some(data));
      GetTemplateData(after, day, index) == (if index < |after.lists[day]| then Some(data) else None)
  {
  }

  /** Saving leaves the reads of other days alone, and the reads of other
      indexes of the same day when the saved index was already a key. */
  lemma SaveLeavesOtherReads(db: ActivityDB, day: int, index: int, data: Option<TemplateData>, d2: int, i2: int)
    requires d2 != day || (i2 != index && day in db.lists && index in db.lists[day])
    ensures GetTemplateData(SaveTemplateData(db, day, index, data), d2, i2) == GetTemplateData(db, d2, i2)
  {
    if d2 == day {
      assert SaveAt(DayOf(db, day), index, data).Keys == db.lists[day].Keys;
    }
  }

  lemma SparseIndexReadsMissing(data: TemplateData)
    ensures var db := ActivityDB(1, map[], Some({}), []);
      GetTemplateData(SaveTemplateData(db, 1, 3, Some(data)), 1, 3).None?
  {
    var db := ActivityDB(1, map[], Some({}), []);
    var after := SaveTemplateData(db, 1, 3, Some(data));
    assert after.lists[1] == map[3 := Some(data)];
    assert |after.lists[1]| == 1;
  }

  // ---------------------------------------------------------------------
  // Construction

  /** The templates of one day built from `confs[i..]`, and the day's list
      afterwards. A template without a stored record gets its initial record
      saved into the list; when its constructor gave no template, reading
      that record panics. */
  datatype DayInit = DayInit(templates: seq<Option<Template>>, list: Option<DayList>, panicked: bool)

  /** One slot of a day: its template, the day's list afterwards, and
      whether building it panicked. */
  datatype SlotInit = SlotInit(slot: Option<Template>, list: Option<DayList>, panicked: bool)

  function InitSlot(table: Table, activityId: int, day: int, conf: TemplateConf, list: Option<DayList>, i: int): (r: SlotInit)
    ensures r.slot.Some? ==>
      var t := r.slot.value;
      && t.activityId == activityId && t.day == day && t.index == i && t.conf == conf
      && r.list.Some? && i in r.list.value && r.list.value[i] == t.data
    ensures r.panicked ==> r.slot.None?
    ensures list.Some? ==> r.list.Some?
    ensures forall j :: j != i && list.Some? && j in list.value ==>
      r.list.Some? && j in r.list.value && r.list.value[j] == list.value[j]
  {
    var stored := StoredAt(list, i);
    match NewTemplate(table, activityId, day, i, Some(conf), stored)
    case Panic => SlotInit(None, list, true)
    case Absent => SlotInit(None, list, stored.None?)
    case Got(t) =>
      if stored.None? then SlotInit(Some(t), Some(SaveAt(list, i, t.data)), false)
      else SlotInit(Some(t), list, false)
  }

  function InitDay(table: Table, activityId: int, day: int, confs: seq<TemplateConf>, list: Option<DayList>, i: nat): (r: DayInit)
    requires i <= |confs|
    decreases |confs| - i
    ensures !r.panicked ==> |r.templates| == |confs| - i
    ensures list.Some? ==> r.list.Some?
    ensures forall k :: 0 <= k < |r.templates| && r.templates[k].Some? ==>
      r.list.Some? && i + k in r.list.value && r.list.value[i + k] == r.templates[k].value.data
    ensures forall j :: j < i && list.Some? && j in list.value ==>
      r.list.Some? && j in r.list.value && r.list.value[j] == list.value[j]
  {
    if i == |confs| then DayInit([], list, false)
    else
      var s := InitSlot(table, activityId, day, confs[i], list, i);
      if s.panicked then DayInit([None], s.list, true)
      else
        var rest := InitDay(table, activityId, day, confs, s.list, i + 1);
        var ts := [s.slot] + rest.templates;
        assert forall k :: 1 <= k < |ts| ==> ts[k] == rest.templates[k - 1];
        DayInit(ts, rest.list, rest.panicked)
  }

  /** Each template of `ts` was built for the given day, at position `i` of
      the day onward. */
  ghost predicate Placed(ts: seq<Option<Template>>, activityId: int, day: int, confs: seq<TemplateConf>, i: int) {
    forall k :: 0 <= k < |ts| && ts[k].Some? ==>
      && 0 <= i + k < |confs| && ts[k].value.activityId == activityId && ts[k].value.day == day
      && ts[k].value.index == i + k && ts[k].value.conf == confs[i + k]
  }

  /** Each template built for a day sits at its own position of the day. */
  lemma {:induction false} InitDayPlaces(table: Table, activityId: int, day: int, confs: seq<TemplateConf>,
                                         list: Option<DayList>, i: nat)
    requires i <= |confs|
    decreases |confs| - i
    ensures Placed(InitDay(table, activityId, day, confs, list, i).templates, activityId, day, confs, i)
  {
    if i < |confs| {
      var s := InitSlot(table, activityId, day, confs[i], list, i);
      if !s.panicked {
        var rest := InitDay(table, activityId, day, confs, s.list, i + 1);
        InitDayPlaces(table, activityId, day, confs, s.list, i + 1);
        var r := InitDay(table, activityId, day, confs, list, i);
        assert r.templates == [s.slot] + rest.templates;
        forall k | 0 <= k < |r.templates| && r.templates[k].Some?
          ensures && 0 <= i + k < |confs| && r.templates[k].value.activityId == activityId && r.templates[k].value.day == day
                  && r.templates[k].value.index == i + k && r.templates[k].value.conf == confs[i + k]
        {
          if k > 0 {
            assert r.templates[k] == rest.templates[k - 1];
          }
        }
      }
    }
  }

  /** Every built template sits in its own slot and holds the stored record
      of that slot. */
  ghost predicate Aliased(a: Activity) {
    forall d, k :: d in a.templates && 0 <= k < |a.templates[d]| && a.templates[d][k].Some? ==>
      var t := a.templates[d][k].value;
      && t.activityId == a.db.activityId && t.day == d && t.index == k
      && d in a.db.lists && k in a.db.lists[d] && a.db.lists[d][k] == t.data
  }

  /** Every day's templates and lists, built from the stored records; none
      when building some slot panicked. */
  function BuildDays(table: Table, data: ActivityDB, days: map<int, seq<TemplateConf>>):
    (r: Option<(map<int, seq<Option<Template>>>, map<int, DayList>)>)
    ensures r.Some? ==>
      var (templates, lists) := r.value;
      && templates.Keys == days.Keys
      && (forall d :: d in days ==> |templates[d]| == |days[d]|)
      && (forall d, k :: d in templates && 0 <= k < |templates[d]| && templates[d][k].Some? ==>
            var t := templates[d][k].value;
            && t.activityId == data.activityId && t.day == d && t.index == k && t.conf == days[d][k]
            && d in lists && k in lists[d] && lists[d][k] == t.data)
  {
    var inits := map d | d in days :: InitDay(table, data.activityId, d, days[d], DayOf(data, d), 0);
    if exists d | d in inits :: inits[d].panicked then None
    else
      var lists := map d | d in data.lists.Keys + days.Keys && (d in days ==> inits[d].list.Some?) ::
                     if d in days then inits[d].list.value else data.lists[d];
      var templates := map d | d in days :: inits[d].templates;
      assert forall d | d in days :: Placed(inits[d].templates, data.activityId, d, days[d], 0) by {
        forall d | d in days
          ensures Placed(inits[d].templates, data.activityId, d, days[d], 0)
        {
          InitDayPlaces(table, data.activityId, d, days[d], DayOf(data, d), 0);
        }
      }
      Some((templates, lists))
  }

  /** Builds the activity for a stored record: the configuration comes from
      the registry; an unknown time mode has no resolver and calling it
      panics; every day's templates are built from the stored records. The
      resolved times are computed but the activity keeps the configuration
      as registered. */
  function NewActivity(reg: Registry.Registry, data: ActivityDB, registerTime: int, areaOpenTime: int,
                       now: int, table: Table): (r: Result<Activity>)
    ensures Registry.GetActivity(reg, data.activityId, now).found.None? ==> r == Err(ConfNil)
    ensures r.Ok? ==>
      && Registry.GetActivity(reg, data.activityId, now).found == Some(r.value.conf)
      && !r.value.conf.timeType.UnknownTime?
      && r.value.db.activityId == data.activityId
      && r.value.db.gotScores == data.gotScores && r.value.db.preTaskInfos == data.preTaskInfos
      && r.value.templates.Keys == r.value.conf.activityList.Keys
      && (forall d :: d in r.value.templates ==> |r.value.templates[d]| == |r.value.conf.activityList[d]|)
      && (forall d, k :: d in r.value.templates && 0 <= k < |r.value.templates[d]| && r.value.templates[d][k].Some? ==>
            r.value.templates[d][k].value.conf == r.value.conf.activityList[d][k])
      && Aliased(r.value)
    ensures r.Err? ==> r.error == ConfNil || r.error == IndexPanic
  {
    match Registry.GetActivity(reg, data.activityId, now).found
    case None => Err(ConfNil)
    case Some(conf) =>
      if NewActivityTime(conf, registerTime, areaOpenTime).None? then Err(IndexPanic)
      else
        match BuildDays(table, data, conf.activityList)
        case None => Err(IndexPanic)
        case Some((templates, lists)) => Ok(Activity(conf, data.(lists := lists), templates))
  }

  // ---------------------------------------------------------------------
  // Availability

  /** The pre-condition loop: under the "all" policy every task must be out
      of `Doing`; under the "any" policy one such task suffices. An empty
      list yields `fallback`. */
  function PreConditionMet(tasks: seq<TaskInfo>, all: bool, fallback: bool): (r: bool)
    decreases |tasks|
    ensures all ==> (r <==> if |tasks| == 0 then fallback else forall i :: 0 <= i < |tasks| ==> tasks[i].state != Doing)
    ensures !all ==> (r <==> if |tasks| == 0 then fallback else exists i :: 0 <= i < |tasks| && tasks[i].state != Doing)
  {
    if |tasks| == 0 then fallback
    else if all then
      if tasks[0].state == Doing then false
      else
        var rest := PreConditionMet(tasks[1..], all, true);
        assert forall i :: 1 <= i < |tasks| ==> tasks[i] == tasks[1..][i - 1];
        rest
    else
      if tasks[0].state != Doing then true
      else
        var rest := PreConditionMet(tasks[1..], all, false);
        assert forall i :: 1 <= i < |tasks| ==> tasks[i] == tasks[1..][i - 1];
        rest
  }

  function FinishedPreCondition(a: Activity): (r: bool)
    ensures a.conf.needPreCondAllFinished ==>
      (r <==> forall i :: 0 <= i < |a.db.preTaskInfos| ==> a.db.preTaskInfos[i].state != Doing)
    ensures !a.conf.needPreCondAllFinished ==>
      (r <==> |a.db.preTaskInfos| == 0 || exists i :: 0 <= i < |a.db.preTaskInfos| && a.db.preTaskInfos[i].state != Doing)
  {
    PreConditionMet(a.db.preTaskInfos, a.conf.needPreCondAllFinished, true)
  }

  predicate IsOpenTime(a: Activity, now: int) {
    a.conf.startTime <= now <= a.conf.endTime
  }

  /** Why the activity cannot be used now, if it cannot. */
  function Invalid(a: Activity, now: int): (r: Option<Error>)
    ensures r.None? <==> FinishedPreCondition(a) && IsOpenTime(a, now)
    ensures !FinishedPreCondition(a) ==> r == Some(PreConditionUnmet)
    ensures FinishedPreCondition(a) && !IsOpenTime(a, now) ==> r == Some(NotOpenTime)
  {
    if !FinishedPreCondition(a) then Some(PreConditionUnmet)
    else if !IsOpenTime(a, now) then Some(NotOpenTime)
    else None
  }

  /** The day of the activity, counted from 1 on its start day. */
  function OpenDay(a: Activity, now: int, p: TimePolicy): int {
    DiffDayNum(p, now, a.conf.startTime) + 1
  }

  lemma OpenDayCountsFromStart(a: Activity, now: int, p: TimePolicy)
    ensures OpenDay(a, a.conf.startTime, p) == 1
    ensures Shift(p, now) >= 0 ==> OpenDay(a, now + SecondsPerDay, p) == OpenDay(a, now, p) + 1
  {
    DiffSelfIsZero(p, a.conf.startTime);
    if Shift(p, now) >= 0 {
      NextDayAddsOne(p, now, a.conf.startTime);
    }
  }

  predicate IsExpire(a: Activity, now: int) {
    now >= a.conf.closeDuration
  }

  /** The instance's open and expiry tests read the raw configuration; for an
      activity in absolute time that is its resolved window, so the tests
      agree with the manager's resolved times. */
  lemma RawWindowIsResolvedForAbsoluteTime(a: Activity, now: int, registerTime: int, areaOpenTime: int)
    requires a.conf.timeType == AbsoluteTime
    ensures NewActivityTime(a.conf, registerTime, areaOpenTime).Some?
    ensures var t := NewActivityTime(a.conf, registerTime, areaOpenTime).value;
      && (IsOpenTime(a, now) <==> t.start <= now <= t.end)
      && (IsExpire(a, now) <==> now >= t.close)
  {
  }

  // ---------------------------------------------------------------------
  // Templates

  /** The templates of the days listed in `order`, day after day: the order
      in which the runtime iterates the day map. */
  function Concat(templates: map<int, seq<Option<Template>>>, order: seq<int>): (r: seq<Option<Template>>)
    decreases |order|
    ensures forall x :: x in r <==> exists i :: 0 <= i < |order| && order[i] in templates && x in templates[order[i]]
  {
    if |order| == 0 then []
    else
      var rest := Concat(templates, order[1..]);
      assert forall i :: 1 <= i < |order| ==> order[i] == order[1..][i - 1];
      (if order[0] in templates then templates[order[0]] else []) + rest
  }

  /** The templates in use: a nested activity offers the templates of its
      current day only; otherwise every day's templates, one day after the
      other in map order. */
  function GetTemplates(a: Activity, now: int, p: TimePolicy, order: seq<int>): (r: seq<Option<Template>>)
    ensures a.conf.isNested ==>
      r == if OpenDay(a, now, p) in a.templates then a.templates[OpenDay(a, now, p)] else []
    ensures !a.conf.isNested && Registry.Enumerates(order, a.templates) ==>
      forall x :: x in r <==> exists d :: d in a.templates && x in a.templates[d]
  {
    if a.conf.isNested then
      var day := OpenDay(a, now, p);
      if day in a.templates then a.templates[day] else []
    else Concat(a.templates, order)
  }

  /** The template at a position of `GetTemplates`; past the end or an empty
      slot is a miss, a negative position panics. */
  function GetTemplate(a: Activity, index: int, now: int, p: TimePolicy, order: seq<int>): (r: Fetch<Template>)
    ensures var ts := GetTemplates(a, now, p, order);
      && (r.Got? <==> 0 <= index < |ts| && ts[index].Some?)
      && (r.Got? ==> r.value == ts[index].value)
      && (r.Panic? <==> index < 0)
  {
    var ts := GetTemplates(a, now, p, order);
    if index >= |ts| then Absent
    else if index < 0 then Panic
    else if ts[index].None? then Absent
    else Got(ts[index].value)
  }

  /** The template at a position if it has the requested type. */
  function GetTypedTemplate(a: Activity, index: int, tt: TemplateType, now: int, p: TimePolicy, order: seq<int>): (r: Fetch<Template>)
    ensures r.Got? <==> GetTemplate(a, index, now, p, order).Got? && TypeOf(GetTemplate(a, index, now, p, order).value) == tt
    ensures r.Got? ==> r.value == GetTemplate(a, index, now, p, order).value && TypeOf(r.value) == tt
    ensures r.Panic? <==> index < 0
  {
    match GetTemplate(a, index, now, p, order)
    case Got(t) => if TypeOf(t) == tt then Got(t) else Absent
    case Absent => Absent
    case Panic => Panic
  }

  /** Whether an activity slot exists for a template's (day, index). */
  predicate Slot(a: Activity, t: Template) {
    t.day in a.templates && 0 <= t.index < |a.templates[t.day]|
  }

  /** A changed template written back: into its slot and, through the shared
      record, into the stored list of its day. */
  function PutTemplate(a: Activity, t: Template): (r: Activity)
    ensures r.conf == a.conf && r.db.activityId == a.db.activityId
    ensures r.db.gotScores == a.db.gotScores && r.db.preTaskInfos == a.db.preTaskInfos
    ensures !Slot(a, t) ==> r == a
    ensures Slot(a, t) ==>
      && r.templates == a.templates[t.day := a.templates[t.day][t.index := Some(t)]]
      && r.db.lists == a.db.lists[t.day := SaveAt(DayOf(a.db, t.day), t.index, t.data)]
  {
    if !Slot(a, t) then a
    else
      Activity(a.conf, SaveTemplateData(a.db, t.day, t.index, t.data),
               a.templates[t.day := a.templates[t.day][t.index := Some(t)]])
  }

  /** Writing back a template of this activity keeps every template equal to
      its stored record, and a later read of the slot gives it back. */
  lemma PutKeepsAliased(a: Activity, t: Template)
    requires Aliased(a) && Slot(a, t) && t.activityId == a.db.activityId
    ensures Aliased(PutTemplate(a, t))
    ensures PutTemplate(a, t).templates[t.day][t.index] == Some(t)
  {
  }

  /** `ts` with every occurrence of template `t` replaced by `u`. */
  function Replace(ts: seq<Option<Template>>, t: Template, u: Template): (r: seq<Option<Template>>)
    ensures |r| == |ts|
    ensures forall i :: 0 <= i < |ts| ==> r[i] == if ts[i] == Some(t) then Some(u) else ts[i]
  {
    seq(|ts|, i requires 0 <= i < |ts| => if ts[i] == Some(t) then Some(u) else ts[i])
  }

  lemma {:induction false} ConcatReplace(templates: map<int, seq<Option<Template>>>, order: seq<int>, t: Template, u: Template)
    decreases |order|
    ensures Concat(map d | d in templates :: Replace(templates[d], t, u), order) == Replace(Concat(templates, order), t, u)
  {
    var replaced := map d | d in templates :: Replace(templates[d], t, u);
    if |order| > 0 {
      ConcatReplace(templates, order[1..], t, u);
      var head := if order[0] in templates then templates[order[0]] else [];
      assert (if order[0] in replaced then replaced[order[0]] else []) == Replace(head, t, u);
      assert Replace(head + Concat(templates, order[1..]), t, u) == Replace(head, t, u) + Replace(Concat(templates, order[1..]), t, u);
    }
  }

  /** Under aliasing, writing back a changed template `u` for the template
      `t` at its slot replaces `t` wherever it is offered, and nothing else. */
  lemma PutIsReplace(a: Activity, t: Template, u: Template)
    requires Aliased(a) && Slot(a, t) && a.templates[t.day][t.index] == Some(t)
    requires u.day == t.day && u.index == t.index
    ensures PutTemplate(a, u).templates == map d | d in a.templates :: Replace(a.templates[d], t, u)
  {
    var r := map d | d in a.templates :: Replace(a.templates[d], t, u);
    forall d | d in a.templates
      ensures PutTemplate(a, u).templates[d] == r[d]
    {
      if d == t.day {
        assert a.templates[d][t.index := Some(u)] == r[d];
      } else {
        assert a.templates[d] == r[d];
      }
    }
  }

  /** The template at a position of a usable activity is a template of the
      activity sitting in its own slot. */
  lemma OfferedSitsInSlot(a: Activity, index: int, now: int, p: TimePolicy, order: seq<int>)
    requires Aliased(a) && GetTemplate(a, index, now, p, order).Got?
    ensures var t := GetTemplate(a, index, now, p, order).value;
      Slot(a, t) && a.templates[t.day][t.index] == Some(t) && t.activityId == a.db.activityId
  {
    var t := GetTemplate(a, index, now, p, order).value;
    var ts := GetTemplates(a, now, p, order);
    assert ts[index] == Some(t) && Some(t) in ts;
    if !a.conf.isNested {
      assert ts == Concat(a.templates, order);
      var i :| 0 <= i < |order| && order[i] in a.templates && Some(t) in a.templates[order[i]];
      var d := order[i];
      var k :| 0 <= k < |a.templates[d]| && a.templates[d][k] == Some(t);
    }
  }

  /** A template changed in place and written back is what the same position
      offers afterwards; the activity's usability is unaffected and aliasing
      is kept. */
  lemma WriteBackThenRead(a: Activity, index: int, u: Template, now: int, p: TimePolicy, order: seq<int>)
    requires Aliased(a) && GetTemplate(a, index, now, p, order).Got?
    requires var t := GetTemplate(a, index, now, p, order).value;
      u.day == t.day && u.index == t.index && u.activityId == t.activityId
    ensures GetTemplate(PutTemplate(a, u), index, now, p, order) == Got(u)
    ensures Invalid(PutTemplate(a, u), now) == Invalid(a, now)
    ensures Aliased(PutTemplate(a, u))
    ensures PutTemplate(a, u).db.activityId == a.db.activityId
  {
    var t := GetTemplate(a, index, now, p, order).value;
    OfferedSitsInSlot(a, index, now, p, order);
    PutIsReplace(a, t, u);
    PutKeepsAliased(a, u);
    var a' := PutTemplate(a, u);
    if a.conf.isNested {
      var day := OpenDay(a, now, p);
      assert OpenDay(a', now, p) == day;
    } else {
      ConcatReplace(a.templates, order, t, u);
    }
    assert GetTemplates(a', now, p, order) == Replace(GetTemplates(a, now, p, order), t, u);
  }

  // ---------------------------------------------------------------------
  // Score rewards

  predicate IsGotScoreReward(db: ActivityDB, index: int) {
    db.gotScores.Some? && index in db.gotScores.value
  }

  /** As written: a nil score map is left nil, so nothing is recorded. */
  function SetGotScoreRewardRecordAsWritten(db: ActivityDB, index: int): (r: ActivityDB)
    ensures db.gotScores.None? ==> r == db
    ensures db.gotScores.Some? ==> r == db.(gotScores := Some(db.gotScores.value + {index}))
  {
    if db.gotScores.None? then db else db.(gotScores := Some(db.gotScores.value + {index}))
  }

  /** The record with the map allocated on first use: afterwards the index
      reads as taken, and nothing else changed. */
  function SetGotScoreRewardRecord(db: ActivityDB, index: int): (r: ActivityDB)
    ensures IsGotScoreReward(r, index)
    ensures forall i :: i != index ==> (IsGotScoreReward(r, i) <==> IsGotScoreReward(db, i))
    ensures r.activityId == db.activityId && r.lists == db.lists && r.preTaskInfos == db.preTaskInfos
  {
    db.(gotScores := Some((if db.gotScores.None? then {} else db.gotScores.value) + {index}))
  }

  /** The activity-level save: the score map and the pre-condition tasks. */
  function CommonSave(db: ActivityDB): Effect {
    Notify(db.activityId, DataUpdate, Some(ActivityDB(db.activityId, map[], db.gotScores, db.preTaskInfos)))
  }

  /** Claims the reward of score step `index`: the player must hold the score
      item, then receives the reward; `record` marks the step as taken. */
  function ScoreReward(a: Activity, index: int, host: Host, record: (ActivityDB, int) -> ActivityDB): (r: ActStep)
    ensures r.err.Some? ==> r.after == a
    ensures |a.conf.scoreSystem| == 0 ==> r.err == Some(ScoreSystemNil)
    ensures 0 < |a.conf.scoreSystem| <= index ==> r.err == Some(ScoreIndexOut)
    ensures 0 < |a.conf.scoreSystem| && index < 0 ==> r.err == Some(IndexPanic)
    ensures r.err.None? <==>
      && 0 <= index < |a.conf.scoreSystem| && !IsGotScoreReward(a.db, index)
      && host(CheckCost([a.conf.scoreSystem[index].score])) && host(AddReward(a.conf.scoreSystem[index].reward))
    ensures r.err.None? ==>
      && r.after == a.(db := record(a.db, index))
      && r.effects == [Call(CheckCost([a.conf.scoreSystem[index].score]), true),
                       Call(AddReward(a.conf.scoreSystem[index].reward), true),
                       CommonSave(record(a.db, index))]
  {
    var steps := a.conf.scoreSystem;
    if |steps| == 0 then ActStep(Some(ScoreSystemNil), a, [])
    else if index >= |steps| then ActStep(Some(ScoreIndexOut), a, [])
    else if index < 0 then ActStep(Some(IndexPanic), a, [])
    else if IsGotScoreReward(a.db, index) then ActStep(Some(ScoreIndexGot), a, [])
    else
      var info := steps[index];
      if !host(CheckCost([info.score])) then
        ActStep(Some(HostRefused(CheckCost([info.score]))), a, [Call(CheckCost([info.score]), false)])
      else if !host(AddReward(info.reward)) then
        ActStep(Some(HostRefused(AddReward(info.reward))), a,
                [Call(CheckCost([info.score]), true), Call(AddReward(info.reward), false)])
      else
        var db := record(a.db, index);
        ActStep(None, a.(db := db),
                [Call(CheckCost([info.score]), true), Call(AddReward(info.reward), true), CommonSave(db)])
  }

  function GetScoreRewardAsWritten(a: Activity, index: int, host: Host): ActStep {
    ScoreReward(a, index, host, SetGotScoreRewardRecordAsWritten)
  }

  function GetScoreReward(a: Activity, index: int, host: Host): ActStep {
    ScoreReward(a, index, host, SetGotScoreRewardRecord)
  }

  /** A score step is rewarded once: right after a claim, claiming it again
      is refused. */
  lemma ScoreRewardIsOneShot(a: Activity, index: int, host: Host)
    requires GetScoreReward(a, index, host).err.None?
    ensures var after := GetScoreReward(a, index, host).after;
      GetScoreReward(after, index, host) == ActStep(Some(ScoreIndexGot), after, [])
  {
  }

  /** With the score map present, the written claim is the intended one. */
  lemma AsWrittenAgreesWithScoreMap(a: Activity, index: int, host: Host)
    requires a.db.gotScores.Some?
    ensures GetScoreRewardAsWritten(a, index, host) == GetScoreReward(a, index, host)
    ensures GetScoreReward(a, index, host).after.db.gotScores.Some?
  {
    assert SetGotScoreRewardRecordAsWritten(a.db, index) == SetGotScoreRewardRecord(a.db, index);
  }

  /** As written, an activity whose score map was restored as nil pays the
      same score step again and again: the second claim also succeeds. */
  lemma AsWrittenPaysScoreTwice(a: Activity, index: int, host: Host)
    requires a.db.gotScores.None?
    requires GetScoreRewardAsWritten(a, index, host).err.None?
    ensures var after := GetScoreRewardAsWritten(a, index, host).after;
      && after == a
      && GetScoreRewardAsWritten(after, index, host).err.None?
      && GetScoreReward(GetScoreReward(a, index, host).after, index, host).err == Some(ScoreIndexGot)
  {
    assert GetScoreReward(a, index, host).err.None?;
  }

  /** What score step `j` adds to the claimable rewards: its reward when the
      step is not taken and the host finds the score item held. */
  function ScorePart(a: Activity, host: Host, j: int): seq<Item>
    requires 0 <= j < |a.conf.scoreSystem|
  {
    if !IsGotScoreReward(a.db, j) && host(CheckCost([a.conf.scoreSystem[j].score])) then a.conf.scoreSystem[j].reward
    else []
  }

  /** What the score steps from `i` on add, step by step. */
  function ScoreParts(a: Activity, host: Host, i: nat): seq<seq<Item>> {
    var n := |a.conf.scoreSystem|;
    seq(if i < n then n - i else 0, k requires 0 <= k < (if i < n then n - i else 0) => ScorePart(a, host, i + k))
  }

  lemma ScorePartsStep(a: Activity, host: Host, i: nat)
    requires i < |a.conf.scoreSystem|
    ensures Flat(ScoreParts(a, host, i)) == ScorePart(a, host, i) + Flat(ScoreParts(a, host, i + 1))
  {
    assert ScoreParts(a, host, i)[1..] == ScoreParts(a, host, i + 1);
  }

  /** The score rewards the player could take now, in step order, each
      step's reward once; the host is asked whether the score item is held. */
  function ScoreRewardsFrom(a: Activity, host: Host, i: nat): (r: seq<Item>)
    decreases |a.conf.scoreSystem| - i
    ensures r == Flat(ScoreParts(a, host, i))
  {
    if i >= |a.conf.scoreSystem| then []
    else
      var info := a.conf.scoreSystem[i];
      var rest := ScoreRewardsFrom(a, host, i + 1);
      ScorePartsStep(a, host, i);
      if IsGotScoreReward(a.db, i) || !host(CheckCost([info.score])) then rest
      else info.reward + rest
  }

  lemma ScoreMembers(a: Activity, host: Host)
    ensures forall x :: x in Flat(ScoreParts(a, host, 0)) <==>
      exists j :: 0 <= j < |a.conf.scoreSystem| && !IsGotScoreReward(a.db, j) &&
                  host(CheckCost([a.conf.scoreSystem[j].score])) && x in a.conf.scoreSystem[j].reward
  {
    var parts := ScoreParts(a, host, 0);
    FlatMembers(parts);
    forall x, j | 0 <= j < |a.conf.scoreSystem| && !IsGotScoreReward(a.db, j) &&
                  host(CheckCost([a.conf.scoreSystem[j].score])) && x in a.conf.scoreSystem[j].reward
      ensures x in Flat(parts)
    {
      assert parts[j] == ScorePart(a, host, j);
      assert x in parts[j];
    }
    forall x | x in Flat(parts)
      ensures exists j :: 0 <= j < |a.conf.scoreSystem| && !IsGotScoreReward(a.db, j) &&
                          host(CheckCost([a.conf.scoreSystem[j].score])) && x in a.conf.scoreSystem[j].reward
    {
      var j :| 0 <= j < |parts| && x in parts[j];
      assert parts[j] == ScorePart(a, host, j);
    }
  }

  /** The claimable score rewards: exactly the rewards of the untaken steps
      whose score the host finds held. */
  function CanReceiveScoreReward(a: Activity, host: Host): (r: seq<Item>)
    ensures r == Flat(ScoreParts(a, host, 0))
    ensures forall x :: x in r <==>
      exists j :: 0 <= j < |a.conf.scoreSystem| && !IsGotScoreReward(a.db, j) &&
                  host(CheckCost([a.conf.scoreSystem[j].score])) && x in a.conf.scoreSystem[j].reward
  {
    ScoreMembers(a, host);
    ScoreRewardsFrom(a, host, 0)
  }

  /** The host call score step `j` costs the scan: a check of its score
      item, unless the step is taken. */
  function ScoreCheckPart(a: Activity, host: Host, j: int): seq<Effect>
    requires 0 <= j < |a.conf.scoreSystem|
  {
    if !IsGotScoreReward(a.db, j) then [Answer(host, CheckCost([a.conf.scoreSystem[j].score]))] else []
  }

  /** Host-call lists one after another. */
  function FlatCalls(xss: seq<seq<Effect>>): seq<Effect>
    decreases |xss|
  {
    if |xss| == 0 then [] else xss[0] + FlatCalls(xss[1..])
  }

  /** The host calls of the score steps from `i` on, step by step. */
  function ScoreCheckParts(a: Activity, host: Host, i: nat): seq<seq<Effect>> {
    var n := |a.conf.scoreSystem|;
    seq(if i < n then n - i else 0, k requires 0 <= k < (if i < n then n - i else 0) => ScoreCheckPart(a, host, i + k))
  }

  lemma ScoreCheckPartsStep(a: Activity, host: Host, i: nat)
    requires i < |a.conf.scoreSystem|
    ensures FlatCalls(ScoreCheckParts(a, host, i)) == ScoreCheckPart(a, host, i) + FlatCalls(ScoreCheckParts(a, host, i + 1))
  {
    assert ScoreCheckParts(a, host, i)[1..] == ScoreCheckParts(a, host, i + 1);
  }

  /** The host calls the scan of the score steps from `i` makes: one score
      check per untaken step, in step order. */
  function ScoreChecksFrom(a: Activity, host: Host, i: nat): (r: seq<Effect>)
    decreases |a.conf.scoreSystem| - i
    ensures r == FlatCalls(ScoreCheckParts(a, host, i))
    ensures forall e | e in r ::
      exists j :: i <= j < |a.conf.scoreSystem| && !IsGotScoreReward(a.db, j) &&
                  e == Answer(host, CheckCost([a.conf.scoreSystem[j].score]))
    ensures forall j | i <= j < |a.conf.scoreSystem| && !IsGotScoreReward(a.db, j) ::
      Answer(host, CheckCost([a.conf.scoreSystem[j].score])) in r
  {
    if i >= |a.conf.scoreSystem| then []
    else
      var rest := ScoreChecksFrom(a, host, i + 1);
      ScoreCheckPartsStep(a, host, i);
      if IsGotScoreReward(a.db, i) then rest
      else [Answer(host, CheckCost([a.conf.scoreSystem[i].score]))] + rest
  }

  function ScoreChecks(a: Activity, host: Host): seq<Effect> {
    ScoreChecksFrom(a, host, 0)
  }

  // ---------------------------------------------------------------------
  // Claimable rewards and task walks over all templates

  /** The day the sign scan of a reading starts at: 0 as written, 1 as
      corrected. */
  function SignScanStart(code: Variant): int {
    if code.AsWritten? then 0 else 1
  }

  /** What a template could still give, dispatched on its type; templates
      without their own rule give nothing. Only the written sign scan can
      panic, and it does on every configured sign template whose day 0 is
      unclaimed. */
  function TemplateRewards(t: Template, code: Variant): (r: Fetch<seq<Item>>)
    ensures !r.Absent?
    ensures r.Panic? ==> TypeOf(t) == SignInType && code.AsWritten?
    ensures (&& TypeOf(t) == SignInType && code.AsWritten? && SignConfOf(t.conf).Some?
             && RootSign.SignedDays(t) >= 0 && 0 !in RootSign.ClaimedDays(t)) ==> r.Panic?
    ensures r.Got? && TypeOf(t) == SignInType ==>
      r.value == Flat(RootSign.DayParts(t, RootSign.ClaimedDays(t), SignScanStart(code), RootSign.SignedDays(t)))
    ensures TypeOf(t) == ConditionType ==> r == Got(Flat(TaskTemplate.ClaimableParts(t)))
    ensures TypeOf(t) != SignInType && TypeOf(t) != ConditionType ==> r == Got([])
  {
    match TypeOf(t)
    case SignInType =>
      if code.AsWritten? then
        if SignConfOf(t.conf).Some? && RootSign.SignedDays(t) >= 0 && 0 !in RootSign.ClaimedDays(t) then
          RootSign.AsWrittenPanicsOnDayZero(t);
          RootSign.CanReceiveRewardAsWritten(t)
        else RootSign.CanReceiveRewardAsWritten(t)
      else Got(RootSign.CanReceiveReward(t))
    case ConditionType => Got(TaskTemplate.CanReceiveReward(t))
    case _ => Got([])
  }

  /** Whether gathering a template's rewards panics. */
  predicate RewardScanPanics(t: Option<Template>, code: Variant) {
    t.None? || TemplateRewards(t.value, code).Panic?
  }

  /** What one slot adds: a template's rewards, or nothing. */
  function TemplatePart(t: Option<Template>, code: Variant): seq<Item> {
    if t.Some? && TemplateRewards(t.value, code).Got? then TemplateRewards(t.value, code).value else []
  }

  /** What each template of a list adds, template by template. */
  function TemplateParts(ts: seq<Option<Template>>, code: Variant): seq<seq<Item>> {
    seq(|ts|, i requires 0 <= i < |ts| => TemplatePart(ts[i], code))
  }

  /** Whether some template of a list has an empty slot or a panicking scan. */
  predicate AnyScanPanics(ts: seq<Option<Template>>, code: Variant) {
    exists i :: 0 <= i < |ts| && RewardScanPanics(ts[i], code)
  }

  lemma AnyScanPanicsStep(ts: seq<Option<Template>>, code: Variant)
    requires |ts| > 0
    ensures AnyScanPanics(ts, code) <==> RewardScanPanics(ts[0], code) || AnyScanPanics(ts[1..], code)
  {
    if AnyScanPanics(ts, code) && !RewardScanPanics(ts[0], code) {
      var i :| 0 <= i < |ts| && RewardScanPanics(ts[i], code);
      assert ts[i] == ts[1..][i - 1];
    }
    if AnyScanPanics(ts[1..], code) {
      var i :| 0 <= i < |ts[1..]| && RewardScanPanics(ts[1..][i], code);
      assert ts[1..][i] == ts[i + 1];
    }
  }

  lemma TemplatePartsStep(ts: seq<Option<Template>>, code: Variant)
    requires |ts| > 0
    ensures Flat(TemplateParts(ts, code)) == TemplatePart(ts[0], code) + Flat(TemplateParts(ts[1..], code))
  {
    assert TemplateParts(ts, code)[1..] == TemplateParts(ts[1..], code);
  }

  /** The claimable rewards of a template list: an empty slot or a panicking
      scan panics; otherwise the templates' rewards follow each other in
      list order. */
  function RewardsOf(ts: seq<Option<Template>>, code: Variant): (r: Fetch<seq<Item>>)
    decreases |ts|
    ensures !r.Absent?
    ensures r.Panic? <==> AnyScanPanics(ts, code)
    ensures r.Got? ==> r.value == Flat(TemplateParts(ts, code))
  {
    if |ts| == 0 then Got([])
    else
      var rest := RewardsOf(ts[1..], code);
      AnyScanPanicsStep(ts, code);
      TemplatePartsStep(ts, code);
      if ts[0].None? then Panic
      else
        match TemplateRewards(ts[0].value, code)
        case Got(items) => if rest.Panic? then Panic else Got(items + rest.value)
        case _ => Panic
  }

  /** Everything the player could still take from the activity: the
      templates' rewards in list order, then the score rewards. */
  function CanReceiveReward(a: Activity, now: int, p: TimePolicy, order: seq<int>, host: Host, code: Variant): (r: Fetch<seq<Item>>)
    ensures !r.Absent?
    ensures var ts := GetTemplates(a, now, p, order);
      r.Panic? <==> exists i :: 0 <= i < |ts| && RewardScanPanics(ts[i], code)
    ensures r.Got? ==>
      r.value == Flat(TemplateParts(GetTemplates(a, now, p, order), code)) + CanReceiveScoreReward(a, host)
    ensures r.Got? ==> forall x :: x in r.value <==>
      || (exists t :: Some(t) in GetTemplates(a, now, p, order) && TemplateRewards(t, code).Got? &&
                      x in TemplateRewards(t, code).value)
      || x in CanReceiveScoreReward(a, host)
  {
    var ts := GetTemplates(a, now, p, order);
    match RewardsOf(ts, code)
    case Got(items) =>
      var parts := TemplateParts(ts, code);
      FlatMembers(parts);
      assert forall t :: Some(t) in ts <==> exists i :: 0 <= i < |ts| && ts[i] == Some(t);
      assert forall i :: 0 <= i < |ts| ==> parts[i] == TemplatePart(ts[i], code);
      Got(items + CanReceiveScoreReward(a, host))
    case _ => Panic
  }

  /** The outcome of a task walk over an activity. */
  datatype Ranged = Ranged(after: Activity, effects: seq<Effect>, collected: seq<Item>, panicked: bool)

  /** What the visits of the pre-condition tasks from `i` on collect, task by
      task; a task without a condition is not visited. */
  function PreParts(confs: seq<Condition>, tasks: seq<TaskInfo>, f: TaskVisitor, i: nat): seq<seq<Item>> {
    var n := Min(|confs|, |tasks|);
    seq(if i < n then n - i else 0, k requires 0 <= k < (if i < n then n - i else 0) => f(confs[i + k], tasks[i + k]).collected)
  }

  /** Whether the visits of the pre-condition tasks from `i` on ask for a
      save, task by task. */
  function SaveFlags(confs: seq<Condition>, tasks: seq<TaskInfo>, f: TaskVisitor, i: nat): seq<bool> {
    var n := Min(|confs|, |tasks|);
    seq(if i < n then n - i else 0, k requires 0 <= k < (if i < n then n - i else 0) => f(confs[i + k], tasks[i + k]).save)
  }

  /** How many of the flags are set. */
  function CountTrue(bs: seq<bool>): nat
    decreases |bs|
  {
    if |bs| == 0 then 0 else (if bs[0] then 1 else 0) + CountTrue(bs[1..])
  }

  /** Rewriting the task at `i` leaves what the later visits collect, and
      whether they ask for a save, alone. */
  lemma PrePartsStep(confs: seq<Condition>, tasks: seq<TaskInfo>, u: TaskInfo, f: TaskVisitor, i: nat)
    requires i < |confs| && i < |tasks|
    ensures Flat(PreParts(confs, tasks, f, i)) ==
            f(confs[i], tasks[i]).collected + Flat(PreParts(confs, tasks[i := u], f, i + 1))
    ensures CountTrue(SaveFlags(confs, tasks, f, i)) ==
            (if f(confs[i], tasks[i]).save then 1 else 0) + CountTrue(SaveFlags(confs, tasks[i := u], f, i + 1))
  {
    assert PreParts(confs, tasks, f, i)[1..] == PreParts(confs, tasks[i := u], f, i + 1);
    assert SaveFlags(confs, tasks, f, i)[1..] == SaveFlags(confs, tasks[i := u], f, i + 1);
  }

  /** The pre-condition tasks walked in order from `i`; each visit that asks
      for a save sends the activity-level save at once. */
  function PreVisit(db: ActivityDB, confs: seq<Condition>, f: TaskVisitor, i: nat): (r: (ActivityDB, seq<Effect>, seq<Item>))
    requires i <= |db.preTaskInfos|
    decreases |db.preTaskInfos| - i
    ensures r.0.activityId == db.activityId && r.0.lists == db.lists && r.0.gotScores == db.gotScores
    ensures |r.0.preTaskInfos| == |db.preTaskInfos|
    ensures forall j :: 0 <= j < |db.preTaskInfos| ==>
      r.0.preTaskInfos[j] == if i <= j < |confs| then f(confs[j], db.preTaskInfos[j]).task else db.preTaskInfos[j]
    ensures |r.1| <= |db.preTaskInfos| - i
    ensures r.1 != [] <==> exists j :: i <= j < |db.preTaskInfos| && j < |confs| && f(confs[j], db.preTaskInfos[j]).save
    ensures |r.1| == CountTrue(SaveFlags(confs, db.preTaskInfos, f, i))
    ensures forall e | e in r.1 ::
      && e.Notify? && e.activityId == db.activityId && e.cmd == DataUpdate && e.diff.Some?
      && e.diff.value.activityId == db.activityId && e.diff.value.lists == map[] && e.diff.value.gotScores == db.gotScores
    ensures r.2 == Flat(PreParts(confs, db.preTaskInfos, f, i))
  {
    if i >= |db.preTaskInfos| || i >= |confs| then (db, [], [])
    else
      var v := f(confs[i], db.preTaskInfos[i]);
      var db' := db.(preTaskInfos := db.preTaskInfos[i := v.task]);
      var rest := PreVisit(db', confs, f, i + 1);
      PrePartsStep(confs, db.preTaskInfos, v.task, f, i);
      ((rest.0, (if v.save then [CommonSave(db')] else []) + rest.1, v.collected + rest.2))
  }

  /** One template's task walk: condition and sign templates hand their
      tasks to the visitor, other kinds have none. */
  function WalkOne(t: Template, f: TaskVisitor): (w: Walk)
    ensures w.after.day == t.day && w.after.index == t.index && w.after.activityId == t.activityId
    ensures w.after.conf == t.conf
    ensures forall e | e in w.effects :: e.Notify?
    ensures TypeOf(t) == ConditionType ==> w == TaskTemplate.RangeTasks(t, f)
    ensures TypeOf(t) == SignInType ==> w == SignCommon.RangeTasks(t, f)
    ensures TypeOf(t) != ConditionType && TypeOf(t) != SignInType ==> w == Walk(t, [], [])
  {
    match TypeOf(t)
    case ConditionType => TaskTemplate.RangeTasks(t, f)
    case SignInType => SignCommon.RangeTasks(t, f)
    case _ => Walk(t, [], [])
  }

  /** Every template of the list is a template of `a`, in one of its slots. */
  ghost predicate InSlots(a: Activity, ts: seq<Option<Template>>) {
    forall i :: 0 <= i < |ts| && ts[i].Some? ==> Slot(a, ts[i].value) && ts[i].value.activityId == a.db.activityId
  }

  /** Writing back a changed first template keeps the rest of the list in
      slots and the templates equal to their records. */
  lemma PutKeepsSlots(a: Activity, ts: seq<Option<Template>>, u: Template)
    requires |ts| > 0 && ts[0].Some? && InSlots(a, ts) && Aliased(a)
    requires u.day == ts[0].value.day && u.index == ts[0].value.index && u.activityId == ts[0].value.activityId
    ensures InSlots(PutTemplate(a, u), ts[1..]) && Aliased(PutTemplate(a, u))
  {
    var a' := PutTemplate(a, u);
    PutKeepsAliased(a, u);
    forall i | 0 <= i < |ts[1..]| && ts[1..][i].Some?
      ensures Slot(a', ts[1..][i].value) && ts[1..][i].value.activityId == a'.db.activityId
    {
      assert ts[1..][i] == ts[i + 1];
    }
  }

  /** What each template's walk collects, template by template. */
  function WalkParts(ts: seq<Option<Template>>, f: TaskVisitor): seq<seq<Item>> {
    seq(|ts|, i requires 0 <= i < |ts| => if ts[i].Some? then WalkOne(ts[i].value, f).collected else [])
  }

  /** Each template of a list walked in turn and written back; an empty slot
      panics and ends the walk. */
  function WalkTemplates(a: Activity, ts: seq<Option<Template>>, f: TaskVisitor): (r: Ranged)
    decreases |ts|
    ensures r.after.conf == a.conf && r.after.db.activityId == a.db.activityId
    ensures r.after.db.gotScores == a.db.gotScores && r.after.db.preTaskInfos == a.db.preTaskInfos
    ensures r.panicked <==> None in ts
    ensures forall e | e in r.effects :: e.Notify?
    ensures InSlots(a, ts) && Aliased(a) ==> Aliased(r.after)
    ensures !r.panicked ==> r.collected == Flat(WalkParts(ts, f))
  {
    if |ts| == 0 then Ranged(a, [], [], false)
    else if ts[0].None? then Ranged(a, [], [], true)
    else
      var t := ts[0].value;
      var w := WalkOne(t, f);
      var a' := PutTemplate(a, w.after);
      assert InSlots(a, ts) && Aliased(a) ==> InSlots(a', ts[1..]) && Aliased(a') by {
        if InSlots(a, ts) && Aliased(a) {
          PutKeepsSlots(a, ts, w.after);
        }
      }
      var rest := WalkTemplates(a', ts[1..], f);
      assert None in ts <==> None in ts[1..];
      assert WalkParts(ts, f)[1..] == WalkParts(ts[1..], f);
      Ranged(rest.after, w.effects + rest.effects, w.collected + rest.collected, rest.panicked)
  }

  /** The templates in use are templates of this activity, each in its own
      slot. */
  lemma InUseHaveSlots(a: Activity, now: int, p: TimePolicy, order: seq<int>)
    requires Aliased(a)
    ensures var ts := GetTemplates(a, now, p, order);
      InSlots(a, ts)
  {
    var ts := GetTemplates(a, now, p, order);
    forall i | 0 <= i < |ts| && ts[i].Some?
      ensures Slot(a, ts[i].value) && ts[i].value.activityId == a.db.activityId
    {
      assert GetTemplate(a, i, now, p, order) == Got(ts[i].value);
      OfferedSitsInSlot(a, i, now, p, order);
    }
  }

  /** Hands every condition of the activity to `f`: the pre-condition tasks
      always, then, when the activity is usable, the tasks of every template
      in use. Templates stay equal to their stored records. */
  function RangeAllCondition(a: Activity, f: TaskVisitor, now: int, p: TimePolicy, order: seq<int>): (r: Ranged)
    ensures r.after.conf == a.conf && r.after.db.activityId == a.db.activityId && r.after.db.gotScores == a.db.gotScores
    ensures r.after.db.preTaskInfos == PreVisit(a.db, a.conf.preCondition, f, 0).0.preTaskInfos
    ensures Invalid(a.(db := PreVisit(a.db, a.conf.preCondition, f, 0).0), now).Some? ==>
      r.after == a.(db := PreVisit(a.db, a.conf.preCondition, f, 0).0) && !r.panicked
    ensures Aliased(a) ==> Aliased(r.after)
    ensures forall e | e in r.effects :: e.Notify?
    ensures var a1 := a.(db := PreVisit(a.db, a.conf.preCondition, f, 0).0);
      !r.panicked ==>
        r.collected == Flat(PreParts(a.conf.preCondition, a.db.preTaskInfos, f, 0)) +
                       (if Invalid(a1, now).Some? then [] else Flat(WalkParts(GetTemplates(a1, now, p, order), f)))
  {
    var pre := PreVisit(a.db, a.conf.preCondition, f, 0);
    var a1 := a.(db := pre.0);
    if Invalid(a1, now).Some? then Ranged(a1, pre.1, pre.2, false)
    else
      var ts := GetTemplates(a1, now, p, order);
      assert Aliased(a) ==>
        InSlots(a1, ts) by {
        if Aliased(a) {
          assert Aliased(a1);
          InUseHaveSlots(a1, now, p, order);
        }
      }
      var w := WalkTemplates(a1, ts, f);
      Ranged(w.after, pre.1 + w.effects, pre.2 + w.collected, w.panicked)
  }
}
