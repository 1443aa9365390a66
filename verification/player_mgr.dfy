/** One player's activities: admission of the registry's activities, the sweep
    of withdrawn and expired ones, the player's commands, and the day, week
    and month rollovers. Each operation returns the manager afterwards and
    the effects on the host in order. */
module PlayerMgr {
  import opened Records
  import opened DayClock
  import opened ActivityTime
  import opened TemplateBase
  import opened TemplateTable
  import Registry
  import TaskTemplate
  import ShopTemplate
  import SignCommon
  import RootSign
  import Act = Activity

  datatype Mgr = Mgr(areaId: int, channel: int, registerTime: int, activities: map<int, Act.Activity>)

  /** What the manager reads from outside: the registry, the clock and day
      policy, the server-open time of the player's area, the player object,
      the template table, and the runtime's iteration order of each
      activity's day map. `code` selects the reading of the four defective
      steps (the sign reward scan, the score record, the shop counter and
      the rollover visitor): as written, or as evidently intended. */
  datatype Env = Env(
    reg: Registry.Registry,
    now: int,
    policy: TimePolicy,
    areaOpenTime: int,
    host: Host,
    table: Table,
    dayOrder: map<int, seq<int>>,
    code: Variant)

  /** The outcome of a player command. */
  datatype MgrStep = MgrStep(err: Option<Error>, after: Mgr, effects: seq<Effect>)

  /** The outcome of a bulk operation; `panicked` when a Go run-time panic
      ended it, with the changes made before the panic kept. */
  datatype Changed = Changed(after: Mgr, effects: seq<Effect>, panicked: bool)

  /** The outcome of an operation that also answers yes or no. */
  datatype Outcome = Outcome(ok: bool, after: Mgr, effects: seq<Effect>, panicked: bool)

  function DayOrder(env: Env, id: int): seq<int> {
    if id in env.dayOrder then env.dayOrder[id] else []
  }

  /** No id occurs twice. */
  predicate Distinct(ids: seq<int>) {
    forall i, j :: 0 <= i < j < |ids| ==> ids[i] != ids[j]
  }

  /** Every held activity is stored under its own id and its templates equal
      their stored records. */
  ghost predicate Valid(m: Mgr) {
    forall id | id in m.activities :: m.activities[id].db.activityId == id && Act.Aliased(m.activities[id])
  }

  /** The held activities are the same and nothing else changed. */
  predicate Keeps(m: Mgr, after: Mgr) {
    && after.areaId == m.areaId && after.channel == m.channel && after.registerTime == m.registerTime
    && (forall k | k in m.activities :: k in after.activities && after.activities[k] == m.activities[k])
  }

  // ---------------------------------------------------------------------
  // Admission

  function Scan(list: seq<int>, v: int, i: nat): (r: bool)
    requires i <= |list|
    decreases |list| - i
    ensures r <==> v in list[i..]
  {
    if i == |list| then false
    else
      assert list[i..] == [list[i]] + list[i + 1..];
      list[i] == v || Scan(list, v, i + 1)
  }

  /** An empty list admits everyone; otherwise the value must be listed. */
  function Admits(list: seq<int>, v: int): (r: bool)
    ensures r <==> |list| == 0 || v in list
  {
    assert list[0..] == list;
    |list| == 0 || Scan(list, v, 0)
  }

  predicate CheckArea(m: Mgr, c: OperateActivity) {
    Admits(c.servers, m.areaId)
  }

  predicate CheckChannel(m: Mgr, c: OperateActivity) {
    Admits(c.channels, m.channel)
  }

  /** Whether the player may take part: area, channel, a known time mode, and
      `now` inside the window from the resolved prediction instant to the
      resolved close instant. */
  function CheckAddCondition(m: Mgr, c: OperateActivity, env: Env): (r: bool)
    ensures r <==>
      && (|c.servers| == 0 || m.areaId in c.servers)
      && (|c.channels| == 0 || m.channel in c.channels)
      && !c.timeType.UnknownTime?
      && c.predictionTime + ModeOffset(c, m.registerTime, env.areaOpenTime) <= env.now
      && env.now <= c.closeDuration + ModeOffset(c, m.registerTime, env.areaOpenTime)
  {
    && CheckArea(m, c) && CheckChannel(m, c)
    && match NewActivityTime(c, m.registerTime, env.areaOpenTime)
       case None => false
       case Some(t) => t.prediction <= env.now <= t.close
  }

  /** The manager's own expiry test on a configuration: an unknown time mode
      counts as expired, otherwise the resolved close instant decides. */
  function CheckExpire(m: Mgr, c: OperateActivity, env: Env): (r: bool)
    ensures c.timeType.UnknownTime? ==> r
    ensures !c.timeType.UnknownTime? ==>
      (r <==> env.now >= c.closeDuration + ModeOffset(c, m.registerTime, env.areaOpenTime))
  {
    match NewActivityTime(c, m.registerTime, env.areaOpenTime)
    case None => true
    case Some(t) => env.now >= t.close
  }

  /** Admission and expiry overlap only at the close instant itself. */
  lemma AdmittedExpiresOnlyAtClose(m: Mgr, c: OperateActivity, env: Env)
    requires CheckAddCondition(m, c, env) && CheckExpire(m, c, env)
    ensures env.now == NewActivityTime(c, m.registerTime, env.areaOpenTime).value.close
  {
  }

  /** The record of a newly admitted activity: no template data, an empty
      score map, and no pre-condition tasks (the tasks for the pre-condition
      groups live in a part of the record this model leaves out). */
  function CommonData(c: OperateActivity): (d: ActivityDB)
    ensures d.activityId == c.id && d.lists == map[] && d.gotScores == Some({}) && d.preTaskInfos == []
  {
    ActivityDB(c.id, map[], Some({}), [])
  }

  /** A newly admitted activity passes its pre-condition gate under either
      policy and has no score step taken. */
  lemma FreshRecordPassesPreCondition(c: OperateActivity, a: Act.Activity)
    requires a.db == CommonData(c)
    ensures Act.FinishedPreCondition(a)
    ensures forall i :: !Act.IsGotScoreReward(a.db, i)
  {
  }

  // ---------------------------------------------------------------------
  // Adding and deleting activities

  function Build(m: Mgr, data: ActivityDB, env: Env): Result<Act.Activity> {
    Act.NewActivity(env.reg, data, m.registerTime, env.areaOpenTime, env.now, env.table)
  }

  /** Some record of `list` builds `a` as activity `k`. */
  ghost predicate BuiltFrom(m: Mgr, list: seq<ActivityDB>, env: Env, k: int, a: Act.Activity) {
    exists i :: 0 <= i < |list| && list[i].activityId == k && Build(m, list[i], env) == Ok(a)
  }

  /** Some record of `list` for activity `k` has no configuration left. */
  ghost predicate ConfGone(m: Mgr, list: seq<ActivityDB>, env: Env, k: int) {
    exists i :: 0 <= i < |list| && list[i].activityId == k && Build(m, list[i], env) == Err(ConfNil)
  }

  /** A record of the rest of a batch is a record of the batch; building
      reads only the registration time of the manager. */
  lemma TailWitnesses(m: Mgr, m': Mgr, list: seq<ActivityDB>, env: Env)
    requires |list| > 0 && m'.registerTime == m.registerTime
    ensures forall k, a :: BuiltFrom(m', list[1..], env, k, a) ==> BuiltFrom(m, list, env, k, a)
    ensures forall k :: ConfGone(m', list[1..], env, k) ==> ConfGone(m, list, env, k)
  {
    forall k, a | BuiltFrom(m', list[1..], env, k, a) ensures BuiltFrom(m, list, env, k, a) {
      var i :| 0 <= i < |list[1..]| && list[1..][i].activityId == k && Build(m', list[1..][i], env) == Ok(a);
      assert list[i + 1] == list[1..][i];
    }
    forall k | ConfGone(m', list[1..], env, k) ensures ConfGone(m, list, env, k) {
      var i :| 0 <= i < |list[1..]| && list[1..][i].activityId == k && Build(m', list[1..][i], env) == Err(ConfNil);
      assert list[i + 1] == list[1..][i];
    }
  }

  /** Builds an activity for each record in turn. An activity already held
      ends the whole batch; a record whose configuration is gone is reported
      deleted and skipped; any other failure is a panic. */
  function AddActivityList(m: Mgr, list: seq<ActivityDB>, env: Env): (r: Changed)
    decreases |list|
    ensures Keeps(m, r.after)
    ensures forall k | k in r.after.activities && k !in m.activities :: BuiltFrom(m, list, env, k, r.after.activities[k])
    ensures forall e | e in r.effects :: e.Notify? && e.cmd == DataDelete && e.diff.None? && ConfGone(m, list, env, e.activityId)
    ensures Valid(m) ==> Valid(r.after)
  {
    if |list| == 0 then Changed(m, [], false)
    else
      var data := list[0];
      if data.activityId in m.activities then Changed(m, [], false)
      else
        match Build(m, data, env)
        case Ok(a) =>
          var m' := m.(activities := m.activities[data.activityId := a]);
          TailWitnesses(m, m', list, env);
          assert BuiltFrom(m, list, env, data.activityId, a);
          AddActivityList(m', list[1..], env)
        case Err(e) =>
          if e == ConfNil then
            var rest := AddActivityList(m, list[1..], env);
            TailWitnesses(m, m, list, env);
            assert ConfGone(m, list, env, data.activityId);
            Changed(rest.after, [Notify(data.activityId, DataDelete, None)] + rest.effects, rest.panicked)
          else Changed(m, [], true)
  }

  /** One step of a batch add on a record whose activity is not held yet. */
  lemma AddStep(m: Mgr, list: seq<ActivityDB>, env: Env)
    requires |list| > 0 && list[0].activityId !in m.activities
    ensures Build(m, list[0], env).Ok? ==>
      AddActivityList(m, list, env)
        == AddActivityList(m.(activities := m.activities[list[0].activityId := Build(m, list[0], env).value]), list[1..], env)
    ensures Build(m, list[0], env) == Err(ConfNil) ==>
      var rest := AddActivityList(m, list[1..], env);
      AddActivityList(m, list, env)
        == Changed(rest.after, [Notify(list[0].activityId, DataDelete, None)] + rest.effects, rest.panicked)
  {
  }

  /** A batch whose first record's activity is already held adds nothing. */
  lemma AddHeldFirst(m: Mgr, list: seq<ActivityDB>, env: Env)
    requires |list| > 0 ==> list[0].activityId in m.activities
    ensures AddActivityList(m, list, env) == Changed(m, [], false)
  {
  }

  /** A batch is cut at the first record whose activity is held by then:
      nothing after it is looked at. */
  lemma {:induction false} AddStopsAtHeld(m: Mgr, pre: seq<ActivityDB>, held: ActivityDB, post: seq<ActivityDB>, env: Env)
    requires !AddActivityList(m, pre, env).panicked
    requires held.activityId in AddActivityList(m, pre, env).after.activities
    decreases |pre|
    ensures AddActivityList(m, pre + [held] + post, env) == AddActivityList(m, pre, env)
  {
    var list := pre + [held] + post;
    if |pre| == 0 {
      assert list[0] == held;
      AddHeldFirst(m, pre, env);
      AddHeldFirst(m, list, env);
    } else {
      assert list[0] == pre[0] && list[1..] == pre[1..] + [held] + post;
      if pre[0].activityId in m.activities {
        AddHeldFirst(m, pre, env);
        AddHeldFirst(m, list, env);
      } else {
        AddStep(m, pre, env);
        AddStep(m, list, env);
        var b := Build(m, pre[0], env);
        if b.Ok? {
          AddStopsAtHeld(m.(activities := m.activities[pre[0].activityId := b.value]), pre[1..], held, post, env);
        } else if b == Err(ConfNil) {
          AddStopsAtHeld(m, pre[1..], held, post, env);
        }
      }
    }
  }

  /** Records of distinct activities that are not held and whose
      configurations are registered are all added, unless building one
      panics. */
  lemma {:induction false} AddFreshAll(m: Mgr, list: seq<ActivityDB>, env: Env)
    requires forall i, j :: 0 <= i < j < |list| ==> list[i].activityId != list[j].activityId
    requires forall i :: 0 <= i < |list| ==> list[i].activityId !in m.activities
    requires forall i :: 0 <= i < |list| ==> Build(m, list[i], env) != Err(ConfNil)
    decreases |list|
    ensures !AddActivityList(m, list, env).panicked ==>
      forall i :: 0 <= i < |list| ==> list[i].activityId in AddActivityList(m, list, env).after.activities
  {
    if |list| > 0 {
      var b := Build(m, list[0], env);
      if b.Ok? {
        var m' := m.(activities := m.activities[list[0].activityId := b.value]);
        assert forall i :: 1 <= i < |list| ==> list[i] == list[1..][i - 1];
        AddFreshAll(m', list[1..], env);
      }
    }
  }

  /** The record a batch add reports for `data`. The instance built from a
      record keeps that very record and fills in every template's data, so a
      record the batch built is reported as the new instance holds it; a
      record it did not build is reported as it was. */
  function SentRecord(m: Mgr, after: Mgr, data: ActivityDB): ActivityDB {
    if data.activityId !in m.activities && data.activityId in after.activities then after.activities[data.activityId].db
    else data
  }

  /** Adds one activity for the player: refused unless admitted; otherwise
      the fresh record is added and then reported added. A new instance
      reports its record with the templates' data filled in; an activity
      already held, to which the batch added nothing, reports the fresh
      record as it is. */
  function Add(m: Mgr, c: OperateActivity, env: Env): (r: Outcome)
    ensures !CheckAddCondition(m, c, env) ==> r == Outcome(false, m, [], false)
    ensures CheckAddCondition(m, c, env) ==> r.ok
    ensures Keeps(m, r.after)
    ensures r.ok && !r.panicked ==>
      && |r.effects| > 0
      && r.effects[|r.effects| - 1] ==
           Notify(c.id, DataAdd, Some(if c.id !in m.activities && Build(m, CommonData(c), env).Ok?
                                      then Build(m, CommonData(c), env).value.db else CommonData(c)))
    ensures r.ok && !r.panicked && c.id !in m.activities && Build(m, CommonData(c), env).Ok? ==>
      c.id in r.after.activities && r.after.activities[c.id] == Build(m, CommonData(c), env).value
    ensures Valid(m) ==> Valid(r.after)
  {
    if !CheckAddCondition(m, c, env) then Outcome(false, m, [], false)
    else
      var db := CommonData(c);
      var added := AddActivityList(m, [db], env);
      if added.panicked then Outcome(true, added.after, added.effects, true)
      else Outcome(true, added.after, added.effects + [Notify(c.id, DataAdd, Some(SentRecord(m, added.after, db)))], false)
  }

  /** Adding a new activity reports the record of the instance it built: the
      fresh record with every built template's data stored at its place. */
  lemma AddReportsFilledRecord(m: Mgr, c: OperateActivity, env: Env)
    requires CheckAddCondition(m, c, env) && c.id !in m.activities && Build(m, CommonData(c), env).Ok?
    ensures var r := Add(m, c, env);
      var a := Build(m, CommonData(c), env).value;
      && r.ok && !r.panicked && r.after.activities[c.id] == a
      && r.effects[|r.effects| - 1] == Notify(c.id, DataAdd, Some(a.db))
      && a.db.activityId == c.id && a.db.gotScores == CommonData(c).gotScores
      && (forall d, k :: d in a.templates && 0 <= k < |a.templates[d]| && a.templates[d][k].Some? ==>
            d in a.db.lists && k in a.db.lists[d] && a.db.lists[d][k] == a.templates[d][k].value.data)
  {
    var db := CommonData(c);
    AddStep(m, [db], env);
    assert Act.Aliased(Build(m, db, env).value);
  }

  /** Adding an activity the player already holds changes nothing but still
      reports the fresh, empty record as added. */
  lemma AddHeldReportsFreshRecord(m: Mgr, c: OperateActivity, env: Env)
    requires CheckAddCondition(m, c, env) && c.id in m.activities
    ensures Add(m, c, env) == Outcome(true, m, [Notify(c.id, DataAdd, Some(CommonData(c)))], false)
  {
  }

  /** Drops an activity: one whose configuration has left the registry is
      dropped and reported at once; one the player does not hold is refused;
      otherwise everything still claimable is gathered (the host is asked
      about each untaken score step), mailed, and the activity dropped. A
      panicking reward scan ends the call before anything happens. */
  function Delete(m: Mgr, id: int, env: Env): (r: Outcome)
    ensures Registry.GetActivity(env.reg, id, env.now).found.None? ==>
      r == Outcome(true, m.(activities := m.activities - {id}), [Notify(id, DataDelete, None)], false)
    ensures Registry.GetActivity(env.reg, id, env.now).found.Some? && id !in m.activities ==>
      r == Outcome(false, m, [], false)
    ensures r.ok && !r.panicked ==> r.after == m.(activities := m.activities - {id})
    ensures r.panicked <==>
      && Registry.GetActivity(env.reg, id, env.now).found.Some? && id in m.activities
      && Act.CanReceiveReward(m.activities[id], env.now, env.policy, DayOrder(env, id), env.host, env.code).Panic?
    ensures r.panicked ==> r == Outcome(true, m, [], true)
    ensures Registry.GetActivity(env.reg, id, env.now).found.Some? && id in m.activities && !r.panicked ==>
      var a := m.activities[id];
      var items := Flat(Act.TemplateParts(Act.GetTemplates(a, env.now, env.policy, DayOrder(env, id)), env.code))
                   + Act.CanReceiveScoreReward(a, env.host);
      && r.ok
      && r.effects == Act.ScoreChecks(a, env.host) + [Answer(env.host, SendMail(items)), Notify(id, DataDelete, None)]
  {
    if Registry.GetActivity(env.reg, id, env.now).found.None? then
      Outcome(true, m.(activities := m.activities - {id}), [Notify(id, DataDelete, None)], false)
    else if id !in m.activities then Outcome(false, m, [], false)
    else
      var a := m.activities[id];
      match Act.CanReceiveReward(a, env.now, env.policy, DayOrder(env, id), env.host, env.code)
      case Got(items) =>
        Outcome(true, m.(activities := m.activities - {id}),
                Act.ScoreChecks(a, env.host) + [Answer(env.host, SendMail(items)), Notify(id, DataDelete, None)], false)
      case _ => Outcome(true, m, [], true)
  }

  /** As written, deleting an activity with a configured sign template in use
      whose day 0 is unclaimed panics: nothing is mailed and the activity is
      kept. */
  lemma AsWrittenDeletePanicsOnSign(m: Mgr, id: int, env: Env, t: Template)
    requires env.code.AsWritten?
    requires Registry.GetActivity(env.reg, id, env.now).found.Some? && id in m.activities
    requires Some(t) in Act.GetTemplates(m.activities[id], env.now, env.policy, DayOrder(env, id))
    requires TypeOf(t) == SignInType && SignConfOf(t.conf).Some?
    requires RootSign.SignedDays(t) >= 0 && 0 !in RootSign.ClaimedDays(t)
    ensures Delete(m, id, env) == Outcome(true, m, [], true)
  {
    var ts := Act.GetTemplates(m.activities[id], env.now, env.policy, DayOrder(env, id));
    var i :| 0 <= i < |ts| && ts[i] == Some(t);
    assert Act.RewardScanPanics(ts[i], env.code);
  }

  /** Whether a held activity survives the sweep: its configuration is still
      registered and it has not expired. */
  predicate Keep(m: Mgr, env: Env, id: int)
    requires id in m.activities
  {
    Registry.GetActivity(env.reg, id, env.now).found.Some? && !Act.IsExpire(m.activities[id], env.now)
  }

  /** For an activity in absolute time, the sweep's keep test is the
      registry lookup plus the manager's own expiry test on the resolved
      times. */
  lemma KeepAgreesWithCheckExpire(m: Mgr, env: Env, id: int)
    requires id in m.activities && m.activities[id].conf.timeType == AbsoluteTime
    ensures Keep(m, env, id) <==>
      Registry.GetActivity(env.reg, id, env.now).found.Some? && !CheckExpire(m, m.activities[id].conf, env)
  {
  }

  /** Whether the sweep's delete of `k` panics: `k` is held, due for
      deletion, and deleting it panics. */
  predicate SweepPanics(m: Mgr, env: Env, k: int) {
    k in m.activities && !Keep(m, env, k) && Delete(m, k, env).panicked
  }

  /** A delete that did not panic leaves the other held activities' fate in
      the sweep as it was. */
  lemma SweepAfterDelete(m: Mgr, env: Env, id: int)
    requires id in m.activities && !Keep(m, env, id) && !Delete(m, id, env).panicked
    ensures var d := Delete(m, id, env);
      && (forall k | k in d.after.activities :: Keep(d.after, env, k) == Keep(m, env, k))
      && (forall k | k in d.after.activities :: SweepPanics(d.after, env, k) == SweepPanics(m, env, k))
      && (forall k :: SweepPanics(m, env, k) ==> k in d.after.activities)
  {
  }

  /** The sweep over the held activities in the runtime's order: each one
      withdrawn from the registry or expired is deleted. */
  function CheckDeleteActivity(m: Mgr, env: Env, ids: seq<int>): (r: Changed)
    decreases |ids|
    ensures r.after.areaId == m.areaId && r.after.channel == m.channel && r.after.registerTime == m.registerTime
    ensures forall k | k in r.after.activities :: k in m.activities && r.after.activities[k] == m.activities[k]
    ensures !r.panicked ==>
      forall k :: k in r.after.activities <==> k in m.activities && (k !in ids || Keep(m, env, k))
    ensures r.panicked <==> exists k :: k in ids && SweepPanics(m, env, k)
    ensures Valid(m) ==> Valid(r.after)
  {
    if |ids| == 0 then Changed(m, [], false)
    else
      var id := ids[0];
      assert forall k :: k in ids <==> k == id || k in ids[1..];
      if id !in m.activities || Keep(m, env, id) then CheckDeleteActivity(m, env, ids[1..])
      else
        var d := Delete(m, id, env);
        if d.panicked then
          assert SweepPanics(m, env, id);
          Changed(m, d.effects, true)
        else
          var rest := CheckDeleteActivity(d.after, env, ids[1..]);
          SweepAfterDelete(m, env, id);
          Changed(rest.after, d.effects + rest.effects, rest.panicked)
  }

  /** A registered activity the player does not hold yet and may join. */
  predicate Joinable(m: Mgr, env: Env, k: int) {
    k in env.reg.entries && k !in m.activities && CheckAddCondition(m, env.reg.entries[k], env)
  }

  /** The fresh records of the joinable activities among `ids`, in order. */
  function Candidates(m: Mgr, env: Env, ids: seq<int>): (r: seq<ActivityDB>)
    requires Registry.Valid(env.reg)
    decreases |ids|
    ensures forall j :: 0 <= j < |r| ==>
      && r[j].activityId in ids && Joinable(m, env, r[j].activityId)
      && r[j] == CommonData(env.reg.entries[r[j].activityId])
  {
    if |ids| == 0 then []
    else
      var rest := Candidates(m, env, ids[1..]);
      assert forall k :: k in ids[1..] ==> k in ids;
      if Joinable(m, env, ids[0]) then
        var r := [CommonData(env.reg.entries[ids[0]])] + rest;
        assert forall j :: 1 <= j < |r| ==> r[j] == rest[j - 1];
        r
      else rest
  }

  /** Every joinable activity among `ids` is a candidate. */
  lemma {:induction false} CandidatesComplete(m: Mgr, env: Env, ids: seq<int>)
    requires Registry.Valid(env.reg)
    decreases |ids|
    ensures forall k :: k in ids && Joinable(m, env, k) ==>
      exists j :: 0 <= j < |Candidates(m, env, ids)| && Candidates(m, env, ids)[j].activityId == k
  {
    if |ids| > 0 {
      CandidatesComplete(m, env, ids[1..]);
      var rest := Candidates(m, env, ids[1..]);
      var r := Candidates(m, env, ids);
      assert forall k :: k in ids ==> k == ids[0] || k in ids[1..];
      if Joinable(m, env, ids[0]) {
        assert r == [CommonData(env.reg.entries[ids[0]])] + rest;
        assert r[0].activityId == ids[0];
        forall k | k in ids && Joinable(m, env, k)
          ensures exists j :: 0 <= j < |r| && r[j].activityId == k
        {
          if k != ids[0] {
            assert k in ids[1..];
            var j :| 0 <= j < |rest| && rest[j].activityId == k;
            assert r[j + 1] == rest[j];
          } else {
            assert r[0].activityId == k;
          }
        }
        assert forall k :: k in ids && Joinable(m, env, k) ==> exists j :: 0 <= j < |r| && r[j].activityId == k;
        assert r == Candidates(m, env, ids);
      } else {
        assert r == rest;
        forall k | k in ids && Joinable(m, env, k)
          ensures exists j :: 0 <= j < |r| && r[j].activityId == k
        {
          assert k in ids[1..];
        }
        assert forall k :: k in ids && Joinable(m, env, k) ==> exists j :: 0 <= j < |r| && r[j].activityId == k;
        assert r == Candidates(m, env, ids);
      }
    }
  }

  /** Distinct ids give distinct candidates. */
  lemma {:induction false} CandidatesDistinct(m: Mgr, env: Env, ids: seq<int>)
    requires Registry.Valid(env.reg)
    requires forall i, j :: 0 <= i < j < |ids| ==> ids[i] != ids[j]
    decreases |ids|
    ensures forall i, j :: 0 <= i < j < |Candidates(m, env, ids)| ==>
      Candidates(m, env, ids)[i].activityId != Candidates(m, env, ids)[j].activityId
  {
    if |ids| > 0 {
      assert forall i, j :: 0 <= i < j < |ids[1..]| ==> ids[1..][i] == ids[i + 1] && ids[1..][j] == ids[j + 1];
      CandidatesDistinct(m, env, ids[1..]);
      var rest := Candidates(m, env, ids[1..]);
      var r := Candidates(m, env, ids);
      if Joinable(m, env, ids[0]) {
        assert r == [CommonData(env.reg.entries[ids[0]])] + rest;
        assert ids[0] !in ids[1..];
        forall i, j | 0 <= i < j < |r|
          ensures r[i].activityId != r[j].activityId
        {
          assert r[j] == rest[j - 1];
          if i > 0 {
            assert r[i] == rest[i - 1];
          }
        }
      }
    }
  }

  /** The records reported added, one per record of the batch. */
  function AddedNotices(m: Mgr, after: Mgr, list: seq<ActivityDB>): seq<Effect> {
    seq(|list|, i requires 0 <= i < |list| => Notify(list[i].activityId, DataAdd, Some(SentRecord(m, after, list[i]))))
  }

  /** The candidates built against the swept registry are all found there,
      so none of them is reported missing. */
  lemma CandidatesAreFound(m: Mgr, env: Env, visited: seq<int>, reg: Registry.Registry)
    requires Registry.Valid(env.reg)
    requires reg.entries == Registry.Live(env.reg, env.now)
    requires forall k :: k in visited ==> k in reg.entries
    ensures forall i :: 0 <= i < |Candidates(m, env, visited)| ==>
      Build(m, Candidates(m, env, visited)[i], env.(reg := reg)) != Err(ConfNil)
  {
    var list := Candidates(m, env, visited);
    forall i | 0 <= i < |list|
      ensures Build(m, list[i], env.(reg := reg)) != Err(ConfNil)
    {
      assert list[i].activityId in visited;
      assert Registry.GetActivity(reg, list[i].activityId, env.now).found.Some?;
    }
  }

  /** Unless a build panics, the batch of candidates adds every one of them. */
  lemma CandidatesAllAdded(m: Mgr, env: Env, visited: seq<int>, reg: Registry.Registry)
    requires Registry.Valid(env.reg)
    requires reg.entries == Registry.Live(env.reg, env.now)
    requires forall k :: k in visited ==> k in reg.entries
    requires forall i, j :: 0 <= i < j < |visited| ==> visited[i] != visited[j]
    ensures var list := Candidates(m, env, visited);
      var added := AddActivityList(m, list, env.(reg := reg));
      !added.panicked ==> forall i :: 0 <= i < |list| ==> list[i].activityId in added.after.activities
  {
    CandidatesAreFound(m, env, visited, reg);
    CandidatesDistinct(m, env, visited);
    AddFreshAll(m, Candidates(m, env, visited), env.(reg := reg));
  }

  /** Offers the player every live registered activity: the registry is
      iterated (which sweeps its expired entries), the joinable ones are
      built, then reported added. */
  method CheckAndAddGlobalActivity(m: Mgr, env: Env, regOrder: seq<int>)
    returns (r: Changed, reg: Registry.Registry, events: seq<Registry.GlobalEvent>)
    requires Registry.Valid(env.reg) && Registry.Enumerates(regOrder, env.reg.entries)
    ensures reg.entries == Registry.Live(env.reg, env.now)
    ensures Keeps(m, r.after)
    ensures forall k | k in r.after.activities && k !in m.activities ::
      k in reg.entries && Joinable(m, env, k)
    ensures !r.panicked ==>
      forall k | k in reg.entries && Joinable(m, env, k) ::
        && k in r.after.activities
        && Notify(k, DataAdd, Some(r.after.activities[k].db)) in r.effects
    ensures Valid(m) ==> Valid(r.after)
  {
    var visited;
    visited, reg, events := Registry.RangeAll(env.reg, env.now, regOrder);
    var list := Candidates(m, env, visited);
    var env' := env.(reg := reg);
    CandidatesComplete(m, env, visited);
    CandidatesAllAdded(m, env, visited, reg);
    var added := AddActivityList(m, list, env');
    forall k | k in added.after.activities && k !in m.activities
      ensures k in reg.entries && Joinable(m, env, k)
    {
      assert BuiltFrom(m, list, env', k, added.after.activities[k]);
      var i :| 0 <= i < |list| && list[i].activityId == k && Build(m, list[i], env') == Ok(added.after.activities[k]);
      assert k in visited;
    }
    if added.panicked {
      r := added;
    } else {
      var notices := AddedNotices(m, added.after, list);
      r := Changed(added.after, added.effects + notices, false);
      forall k | k in reg.entries && Joinable(m, env, k)
        ensures k in r.after.activities && Notify(k, DataAdd, Some(r.after.activities[k].db)) in r.effects
      {
        var j :| 0 <= j < |list| && list[j].activityId == k;
        assert notices[j] == Notify(k, DataAdd, Some(added.after.activities[k].db));
        assert notices[j] in r.effects;
      }
    }
  }

  /** Adds what the registry offers, then sweeps what it no longer offers. */
  method CheckNewAndDelete(m: Mgr, env: Env, regOrder: seq<int>, actOrder: seq<int>)
    returns (r: Changed, reg: Registry.Registry)
    requires Registry.Valid(env.reg) && Registry.Enumerates(regOrder, env.reg.entries)
    ensures reg.entries == Registry.Live(env.reg, env.now)
    ensures forall k | k in r.after.activities && k !in m.activities ::
      k in Registry.Live(env.reg, env.now) && CheckAddCondition(m, env.reg.entries[k], env)
    ensures !r.panicked ==>
      forall k | k in r.after.activities && k in actOrder ::
        Registry.GetActivity(reg, k, env.now).found.Some? && !Act.IsExpire(r.after.activities[k], env.now)
    ensures Valid(m) ==> Valid(r.after)
  {
    var added, events;
    added, reg, events := CheckAndAddGlobalActivity(m, env, regOrder);
    if added.panicked {
      r := added;
    } else {
      var swept := CheckDeleteActivity(added.after, env.(reg := reg), actOrder);
      r := Changed(swept.after, added.effects + swept.effects, swept.panicked);
    }
  }

  /** Loads the player's stored records (in the runtime's order of the stored
      map), then adds and sweeps against the registry. */
  method Init(m: Mgr, initData: seq<ActivityDB>, env: Env, regOrder: seq<int>, actOrder: seq<int>)
    returns (r: Changed, reg: Registry.Registry)
    requires Registry.Valid(env.reg) && Registry.Enumerates(regOrder, env.reg.entries)
    ensures forall k | k in r.after.activities ::
      || k in m.activities
      || k in Registry.Live(env.reg, env.now)
      || exists d :: d in initData && d.activityId == k
    ensures Valid(m) ==> Valid(r.after)
    ensures !r.panicked ==>
      forall k | k in r.after.activities && k in actOrder ::
        Registry.GetActivity(reg, k, env.now).found.Some? && !Act.IsExpire(r.after.activities[k], env.now)
  {
    var loaded := AddActivityList(m, initData, env);
    if loaded.panicked {
      r, reg := loaded, env.reg;
    } else {
      var synced;
      synced, reg := CheckNewAndDelete(loaded.after, env, regOrder, actOrder);
      r := Changed(synced.after, loaded.effects + synced.effects, synced.panicked);
    }
  }

  // ---------------------------------------------------------------------
  // Walks over the sign templates of the open activities

  /** What a walk over the open activities does to each sign template. */
  datatype SignAction = ResetRepairs | LoginSign

  /** One template visited by a sign walk: other template kinds are left
      alone; the daily reset zeroes the repair counter; the login walk signs
      the templates that sign at login and ignores a refused sign. */
  function SignVisit(a: Act.Activity, t: Template, act: SignAction, env: Env): (r: Step)
    ensures r.after.day == t.day && r.after.index == t.index && r.after.activityId == t.activityId
    ensures r.after.conf == t.conf
    ensures forall e | e in r.effects :: e.Notify?
    ensures TypeOf(t) != SignInType ==> r == Step(None, t, [])
    ensures act == LoginSign && !SignCommon.IsLoginTrigger(t) ==> r == Step(None, t, [])
    ensures act == LoginSign && TypeOf(t) == SignInType && SignCommon.IsLoginTrigger(t) ==>
      r == RootSign.Sign(t, env.now, env.policy, Act.OpenDay(a, env.now, env.policy))
    ensures act == ResetRepairs && TypeOf(t) == SignInType && SignData(t).Some? ==>
      SignData(r.after) == Some(SignData(t).value.(everyDayRepairCount := 0))
  {
    if TypeOf(t) != SignInType then Step(None, t, [])
    else match act
      case ResetRepairs =>
        var x := RootSign.ResetEveryDayRepairCount(t);
        Step(None, x.0, x.1)
      case LoginSign =>
        if !SignCommon.IsLoginTrigger(t) then Step(None, t, [])
        else RootSign.Sign(t, env.now, env.policy, Act.OpenDay(a, env.now, env.policy))
  }

  /** The templates in use of one activity visited in turn and written back;
      an empty slot panics and ends the walk. */
  function SignWalk(a: Act.Activity, ts: seq<Option<Template>>, act: SignAction, env: Env): (r: Act.Ranged)
    decreases |ts|
    ensures r.after.conf == a.conf && r.after.db.activityId == a.db.activityId
    ensures r.after.db.gotScores == a.db.gotScores && r.after.db.preTaskInfos == a.db.preTaskInfos
    ensures r.panicked <==> None in ts
    ensures r.collected == []
    ensures forall e | e in r.effects :: e.Notify?
    ensures Act.InSlots(a, ts) && Act.Aliased(a) ==> Act.Aliased(r.after)
  {
    if |ts| == 0 then Act.Ranged(a, [], [], false)
    else if ts[0].None? then Act.Ranged(a, [], [], true)
    else
      var t := ts[0].value;
      var s := SignVisit(a, t, act, env);
      var a' := Act.PutTemplate(a, s.after);
      assert Act.InSlots(a, ts) && Act.Aliased(a) ==> Act.InSlots(a', ts[1..]) && Act.Aliased(a') by {
        if Act.InSlots(a, ts) && Act.Aliased(a) {
          Act.PutKeepsSlots(a, ts, s.after);
        }
      }
      var rest := SignWalk(a', ts[1..], act, env);
      assert None in ts <==> None in ts[1..];
      Act.Ranged(rest.after, s.effects + rest.effects, [], rest.panicked)
  }

  /** The open activities visited in the runtime's order `ids`; the walk ends
      at the first activity that is not open, and a panic ends it too. */
  function ForOpenSigns(m: Mgr, ids: seq<int>, act: SignAction, env: Env): (r: Changed)
    decreases |ids|
    ensures r.after.areaId == m.areaId && r.after.channel == m.channel && r.after.registerTime == m.registerTime
    ensures r.after.activities.Keys == m.activities.Keys
    ensures forall k | k in m.activities && k !in ids :: r.after.activities[k] == m.activities[k]
    ensures forall k | k in m.activities ::
      && r.after.activities[k].conf == m.activities[k].conf
      && r.after.activities[k].db.preTaskInfos == m.activities[k].db.preTaskInfos
    ensures forall e | e in r.effects :: e.Notify?
    ensures Valid(m) ==> Valid(r.after)
  {
    if |ids| == 0 then Changed(m, [], false)
    else
      var id := ids[0];
      assert forall k :: k in ids[1..] ==> k in ids;
      if id !in m.activities then ForOpenSigns(m, ids[1..], act, env)
      else
        var a := m.activities[id];
        if Act.Invalid(a, env.now).Some? then Changed(m, [], false)
        else
          var ts := Act.GetTemplates(a, env.now, env.policy, DayOrder(env, id));
          assert Act.Aliased(a) ==> Act.InSlots(a, ts) by {
            if Act.Aliased(a) {
              Act.InUseHaveSlots(a, env.now, env.policy, DayOrder(env, id));
            }
          }
          var w := SignWalk(a, ts, act, env);
          var m' := m.(activities := m.activities[id := w.after]);
          assert Valid(m) ==> Valid(m');
          if w.panicked then Changed(m', w.effects, true)
          else
            var rest := ForOpenSigns(m', ids[1..], act, env);
            Changed(rest.after, w.effects + rest.effects, rest.panicked)
  }

  /** Once the walk meets an activity that is not open, neither it nor any
      activity after it in the order is touched. */
  lemma {:induction false} OpenWalkStopsAtFirstInvalid(m: Mgr, ids: seq<int>, act: SignAction, env: Env, j: int)
    requires forall a, b :: 0 <= a < b < |ids| ==> ids[a] != ids[b]
    requires 0 <= j < |ids| && ids[j] in m.activities && Act.Invalid(m.activities[ids[j]], env.now).Some?
    decreases |ids|
    ensures forall i | j <= i < |ids| && ids[i] in m.activities ::
      ForOpenSigns(m, ids, act, env).after.activities[ids[i]] == m.activities[ids[i]]
  {
    var id := ids[0];
    if j > 0 && !(id in m.activities && Act.Invalid(m.activities[id], env.now).Some?) {
      var m' := if id !in m.activities then m else
        var a := m.activities[id];
        var w := SignWalk(a, Act.GetTemplates(a, env.now, env.policy, DayOrder(env, id)), act, env);
        m.(activities := m.activities[id := w.after]);
      assert forall i :: 1 <= i < |ids| ==> ids[i] == ids[1..][i - 1];
      assert forall i | j <= i < |ids| :: ids[i] != id;
      assert forall i | j <= i < |ids| && ids[i] in m.activities :: m'.activities[ids[i]] == m.activities[ids[i]];
      OpenWalkStopsAtFirstInvalid(m', ids[1..], act, env, j - 1);
    }
  }

  /** A login: every open activity (up to the first one that is not open)
      signs its sign templates that sign at login. */
  function Login(m: Mgr, env: Env, ids: seq<int>): (r: Changed)
    ensures r.after.activities.Keys == m.activities.Keys
    ensures forall k | k in m.activities && k !in ids :: r.after.activities[k] == m.activities[k]
    ensures forall k | k in m.activities :: r.after.activities[k].conf == m.activities[k].conf
    ensures forall e | e in r.effects :: e.Notify?
    ensures Valid(m) ==> Valid(r.after)
  {
    ForOpenSigns(m, ids, LoginSign, env)
  }

  /** The daily reset of the repair counters of the sign templates in use. */
  function ResetEveryDaySignRepairCount(m: Mgr, env: Env, ids: seq<int>): (r: Changed)
    ensures r.after.activities.Keys == m.activities.Keys
    ensures forall k | k in m.activities && k !in ids :: r.after.activities[k] == m.activities[k]
    ensures forall k | k in m.activities :: r.after.activities[k].conf == m.activities[k].conf
    ensures forall e | e in r.effects :: e.Notify?
    ensures Valid(m) ==> Valid(r.after)
  {
    ForOpenSigns(m, ids, ResetRepairs, env)
  }

  /** After the daily reset of a sign template in use, reading its slot back
      gives a record whose daily repair counter is zero and whose other
      progress is unchanged. */
  lemma ResetThenReadZero(a: Act.Activity, index: int, env: Env, order: seq<int>)
    requires Act.Aliased(a)
    requires Act.GetTemplate(a, index, env.now, env.policy, order).Got?
    requires var t := Act.GetTemplate(a, index, env.now, env.policy, order).value;
      TypeOf(t) == SignInType && SignData(t).Some?
    ensures var t := Act.GetTemplate(a, index, env.now, env.policy, order).value;
      var u := SignVisit(a, t, ResetRepairs, env).after;
      var back := Act.GetTemplate(Act.PutTemplate(a, u), index, env.now, env.policy, order);
      && back.Got?
      && SignData(back.value) == Some(SignData(t).value.(everyDayRepairCount := 0))
  {
    var t := Act.GetTemplate(a, index, env.now, env.policy, order).value;
    Act.WriteBackThenRead(a, index, SignVisit(a, t, ResetRepairs, env).after, env.now, env.policy, order);
  }

  /** A login sign happens once per day: the template signed at login, read
      back and visited again by a login on the same day, is left as it is
      and nothing is saved. */
  lemma LoginSignsOncePerDay(a: Act.Activity, index: int, env: Env, later: int, order: seq<int>)
    requires Act.Aliased(a)
    requires Act.GetTemplate(a, index, env.now, env.policy, order).Got?
    requires var t := Act.GetTemplate(a, index, env.now, env.policy, order).value;
      TypeOf(t) == SignInType && SignCommon.IsLoginTrigger(t) && SignVisit(a, t, LoginSign, env).err.None?
    requires !IsDifferDay(env.policy, later, env.now)
    ensures var t := Act.GetTemplate(a, index, env.now, env.policy, order).value;
      var u := SignVisit(a, t, LoginSign, env).after;
      var a' := Act.PutTemplate(a, u);
      && Act.GetTemplate(a', index, env.now, env.policy, order) == Got(u)
      && SignVisit(a', u, LoginSign, env.(now := later)) == Step(Some(TodaySigned), u, [])
  {
    var t := Act.GetTemplate(a, index, env.now, env.policy, order).value;
    var u := SignVisit(a, t, LoginSign, env).after;
    Act.WriteBackThenRead(a, index, u, env.now, env.policy, order);
    var a' := Act.PutTemplate(a, u);
    RootSign.SignOncePerDay(t, env.now, later, env.policy, Act.OpenDay(a, env.now, env.policy),
                            Act.OpenDay(a', later, env.policy));
  }

  // ---------------------------------------------------------------------
  // Task resets and the calendar hooks

  /** The reset visitor as written: a task of the refresh kind is zeroed
      and saved, and its rewards are collected for mailing when the task is
      NOT finished -- that is, when it is still in progress or its reward
      was already taken. */
  function ResetVisitorAsWritten(rt: RefreshType): TaskVisitor {
    (c: Condition, info: TaskInfo) =>
      if c.refresh != rt then Visit(false, info, [])
      else Visit(true, ZeroTask, if info.state != Finish then c.rewards else [])
  }

  /** The reset visitor as intended: the rewards mailed are those of the
      finished tasks whose reward was not taken yet. */
  function ResetVisitor(rt: RefreshType): TaskVisitor {
    (c: Condition, info: TaskInfo) =>
      if c.refresh != rt then Visit(false, info, [])
      else Visit(true, ZeroTask, if info.state == Finish then c.rewards else [])
  }

  /** The reset visitor of a reading of the code. */
  function ResetVisitorFor(code: Variant, rt: RefreshType): TaskVisitor {
    if code.AsWritten? then ResetVisitorAsWritten(rt) else ResetVisitor(rt)
  }

  /** Whether a reset mails the rewards of a task: its condition is of the
      refresh kind and, as written, the task is not finished; as intended,
      it is finished and not taken. */
  predicate Mails(code: Variant, rt: RefreshType, c: Condition, info: TaskInfo) {
    c.refresh == rt && (if code.AsWritten? then info.state != Finish else info.state == Finish)
  }

  /** The rewards a reset mails for each condition that has a task, in
      order. */
  function MailedParts(confs: seq<Condition>, tasks: seq<TaskInfo>, rt: RefreshType, code: Variant): seq<seq<Item>> {
    var n := Min(|confs|, |tasks|);
    seq(n, i requires 0 <= i < n => if Mails(code, rt, confs[i], tasks[i]) then confs[i].rewards else [])
  }

  /** What a reset mails from one template: the matched tasks of a condition
      template, or of every day of a sign template, in order. */
  function TemplateMailed(t: Template, rt: RefreshType, code: Variant): seq<Item> {
    match TypeOf(t)
    case ConditionType =>
      if TaskConfOf(t.conf).Some? && TaskData(t).Some? then Flat(MailedParts(TaskConfOf(t.conf).value, TaskData(t).value, rt, code))
      else []
    case SignInType =>
      if SignConfOf(t.conf).Some? && SignData(t).Some? then
        var rules := SignConfOf(t.conf).value.repairRules;
        var conds := SignData(t).value.conditions;
        var n := Min(|rules|, |conds|);
        Flat(seq(n, d requires 0 <= d < n => Flat(MailedParts(rules[d].conditions, conds[d], rt, code))))
      else []
    case _ => []
  }

  /** What a reset mails from each template of a list. */
  function TemplatesMailed(ts: seq<Option<Template>>, rt: RefreshType, code: Variant): seq<seq<Item>> {
    seq(|ts|, i requires 0 <= i < |ts| => if ts[i].Some? then TemplateMailed(ts[i].value, rt, code) else [])
  }

  /** A reset walk of one template collects exactly what the reset mails from
      it. */
  lemma WalkOneMails(t: Template, rt: RefreshType, code: Variant)
    ensures Act.WalkOne(t, ResetVisitorFor(code, rt)).collected == TemplateMailed(t, rt, code)
  {
    match TypeOf(t)
    case ConditionType =>
      if TaskConfOf(t.conf).Some? && TaskData(t).Some? {
        assert Collected(TaskConfOf(t.conf).value, TaskData(t).value, ResetVisitorFor(code, rt))
            == MailedParts(TaskConfOf(t.conf).value, TaskData(t).value, rt, code);
      }
    case SignInType => SignWalkMails(t, rt, code);
    case _ =>
  }

  lemma SignWalkMails(t: Template, rt: RefreshType, code: Variant)
    requires TypeOf(t) == SignInType
    ensures SignCommon.RangeTasks(t, ResetVisitorFor(code, rt)).collected == TemplateMailed(t, rt, code)
  {
    var f := ResetVisitorFor(code, rt);
    if SignConfOf(t.conf).Some? && SignData(t).Some? {
      var rules := SignConfOf(t.conf).value.repairRules;
      var conds := SignData(t).value.conditions;
      var n := Min(|rules|, |conds|);
      forall d | 0 <= d < n
        ensures VisitAll(rules[d].conditions, conds[d], f).collected == Flat(MailedParts(rules[d].conditions, conds[d], rt, code))
      {
        VisitAllCollects(rules[d].conditions, conds[d], f);
        assert Collected(rules[d].conditions, conds[d], f) == MailedParts(rules[d].conditions, conds[d], rt, code);
      }
      assert SignCommon.RuleCollected(rules, conds, f)
          == seq(n, d requires 0 <= d < n => Flat(MailedParts(rules[d].conditions, conds[d], rt, code)));
    }
  }

  /** As written, a reset of a condition template mails the rewards of every
      task of the refresh kind that is not finished, in task order: those of
      tasks in progress and those of tasks whose reward was already taken. */
  lemma AsWrittenResetMailsUnfinished(t: Template, rt: RefreshType)
    requires TaskConfOf(t.conf).Some? && TaskData(t).Some?
    ensures var confs := TaskConfOf(t.conf).value;
      var tasks := TaskData(t).value;
      var n := Min(|confs|, |tasks|);
      TaskTemplate.RangeTasks(t, ResetVisitorAsWritten(rt)).collected ==
        Flat(seq(n, i requires 0 <= i < n =>
                   if confs[i].refresh == rt && tasks[i].state != Finish then confs[i].rewards else []))
  {
    var confs := TaskConfOf(t.conf).value;
    var tasks := TaskData(t).value;
    var n := Min(|confs|, |tasks|);
    assert Collected(confs, tasks, ResetVisitorAsWritten(rt))
        == seq(n, i requires 0 <= i < n =>
                 if confs[i].refresh == rt && tasks[i].state != Finish then confs[i].rewards else []);
  }

  /** The written visitor mails a reward that was already taken, and drops
      the reward of a finished task that was never taken. */
  lemma AsWrittenMailsTakenRewards(rt: RefreshType, c: Condition, progress: int)
    requires c.refresh == rt && |c.rewards| > 0
    ensures ResetVisitorAsWritten(rt)(c, TaskInfo(Over, progress)).collected == c.rewards
    ensures var v := ResetVisitorAsWritten(rt)(c, TaskInfo(Finish, progress));
      v.collected == [] && v.task == ZeroTask
  {
  }

  /** The intended reset on a condition template: the tasks of the refresh
      kind start over, the others are untouched, and none of the reset
      tasks is left claimable. */
  lemma ResetRestartsTasks(t: Template, rt: RefreshType)
    requires TaskConfOf(t.conf).Some? && TaskData(t).Some?
    ensures var confs := TaskConfOf(t.conf).value;
      var tasks := TaskData(t).value;
      var w := TaskTemplate.RangeTasks(t, ResetVisitor(rt));
      && TaskData(w.after).Some? && |TaskData(w.after).value| == |tasks|
      && (forall i | 0 <= i < |tasks| ::
            TaskData(w.after).value[i] == if i < |confs| && confs[i].refresh == rt then ZeroTask else tasks[i])
      && (forall i | 0 <= i < |confs| && confs[i].refresh == rt :: !TaskTemplate.Claimable(w.after, i))
  {
    var confs := TaskConfOf(t.conf).value;
    var tasks := TaskData(t).value;
    var w := TaskTemplate.RangeTasks(t, ResetVisitor(rt));
    forall i | 0 <= i < |confs| && confs[i].refresh == rt
      ensures !TaskTemplate.Claimable(w.after, i)
    {
      if i < |tasks| {
        assert TaskTemplate.GetTaskInfo(w.after, i) == Got(ZeroTask);
      }
    }
  }

  /** What the intended reset collects for mailing is exactly the rewards
      the player could still have taken from the tasks of the refresh kind. */
  lemma ResetMailsWhatWasClaimable(t: Template, rt: RefreshType)
    requires TaskConfOf(t.conf).Some? && TaskData(t).Some?
    ensures var confs := TaskConfOf(t.conf).value;
      TaskTemplate.RangeTasks(t, ResetVisitor(rt)).collected ==
        Flat(seq(|confs|, i requires 0 <= i < |confs| =>
                   if TaskTemplate.Claimable(t, i) && confs[i].refresh == rt then confs[i].rewards else []))
    ensures var confs := TaskConfOf(t.conf).value;
      forall x :: x in TaskTemplate.RangeTasks(t, ResetVisitor(rt)).collected <==>
        exists i :: TaskTemplate.Claimable(t, i) && confs[i].refresh == rt && x in confs[i].rewards
  {
    var confs := TaskConfOf(t.conf).value;
    ResetCollectsClaimableParts(t, rt);
    forall x
      ensures x in TaskTemplate.RangeTasks(t, ResetVisitor(rt)).collected <==>
        exists i :: TaskTemplate.Claimable(t, i) && confs[i].refresh == rt && x in confs[i].rewards
    {
      if x in TaskTemplate.RangeTasks(t, ResetVisitor(rt)).collected {
        CollectedWasClaimable(t, rt, x);
      }
      if exists i :: TaskTemplate.Claimable(t, i) && confs[i].refresh == rt && x in confs[i].rewards {
        var i :| TaskTemplate.Claimable(t, i) && confs[i].refresh == rt && x in confs[i].rewards;
        ClaimableIsCollected(t, rt, i, x);
      }
    }
  }

  /** The corrected reset's collection, as a list: the rewards of the
      claimable tasks of the refresh kind, in task order. */
  lemma ResetCollectsClaimableParts(t: Template, rt: RefreshType)
    requires TaskConfOf(t.conf).Some? && TaskData(t).Some?
    ensures var confs := TaskConfOf(t.conf).value;
      TaskTemplate.RangeTasks(t, ResetVisitor(rt)).collected ==
        Flat(seq(|confs|, i requires 0 <= i < |confs| =>
                   if TaskTemplate.Claimable(t, i) && confs[i].refresh == rt then confs[i].rewards else []))
  {
    var confs := TaskConfOf(t.conf).value;
    var tasks := TaskData(t).value;
    var n := Min(|confs|, |tasks|);
    var parts := seq(|confs|, i requires 0 <= i < |confs| =>
                       if TaskTemplate.Claimable(t, i) && confs[i].refresh == rt then confs[i].rewards else []);
    var visits := Collected(confs, tasks, ResetVisitor(rt));
    forall i | 0 <= i < n
      ensures parts[i] == visits[i]
    {
      assert TaskTemplate.GetTaskInfo(t, i) == Got(tasks[i]);
    }
    assert parts[..n] == visits;
    assert parts == visits + parts[n..];
    FlatAppend(visits, parts[n..]);
    FlatOfEmpties(parts[n..]);
  }

  lemma CollectedWasClaimable(t: Template, rt: RefreshType, x: Item)
    requires TaskConfOf(t.conf).Some? && TaskData(t).Some?
    requires x in TaskTemplate.RangeTasks(t, ResetVisitor(rt)).collected
    ensures var confs := TaskConfOf(t.conf).value;
      exists i :: TaskTemplate.Claimable(t, i) && confs[i].refresh == rt && x in confs[i].rewards
  {
    var confs := TaskConfOf(t.conf).value;
    var tasks := TaskData(t).value;
    var f := ResetVisitor(rt);
    var i :| 0 <= i < |confs| && i < |tasks| && x in f(confs[i], tasks[i]).collected;
    assert TaskTemplate.GetTaskInfo(t, i) == Got(tasks[i]);
  }

  lemma ClaimableIsCollected(t: Template, rt: RefreshType, i: int, x: Item)
    requires TaskConfOf(t.conf).Some? && TaskData(t).Some?
    requires TaskTemplate.Claimable(t, i) && TaskConfOf(t.conf).value[i].refresh == rt
    requires x in TaskConfOf(t.conf).value[i].rewards
    ensures x in TaskTemplate.RangeTasks(t, ResetVisitor(rt)).collected
  {
    var confs := TaskConfOf(t.conf).value;
    var tasks := TaskData(t).value;
    var f := ResetVisitor(rt);
    assert TaskTemplate.GetTaskInfo(t, i) == Got(tasks[i]);
    assert x in f(confs[i], tasks[i]).collected;
  }

  /** A reset walk of an activity collects what the reset mails from its
      pre-condition tasks and then from its templates in use. */
  lemma ResetWalkMails(a: Act.Activity, rt: RefreshType, env: Env, order: seq<int>)
    ensures var f := ResetVisitorFor(env.code, rt);
      var w := Act.RangeAllCondition(a, f, env.now, env.policy, order);
      var a1 := a.(db := Act.PreVisit(a.db, a.conf.preCondition, f, 0).0);
      !w.panicked ==>
        w.collected == Flat(MailedParts(a.conf.preCondition, a.db.preTaskInfos, rt, env.code)) +
                       (if Act.Invalid(a1, env.now).Some? then []
                        else Flat(TemplatesMailed(Act.GetTemplates(a1, env.now, env.policy, order), rt, env.code)))
  {
    var f := ResetVisitorFor(env.code, rt);
    assert Act.PreParts(a.conf.preCondition, a.db.preTaskInfos, f, 0) == MailedParts(a.conf.preCondition, a.db.preTaskInfos, rt, env.code);
    var a1 := a.(db := Act.PreVisit(a.db, a.conf.preCondition, f, 0).0);
    var ts := Act.GetTemplates(a1, env.now, env.policy, order);
    forall i | 0 <= i < |ts| && ts[i].Some?
      ensures Act.WalkOne(ts[i].value, f).collected == TemplateMailed(ts[i].value, rt, env.code)
    {
      WalkOneMails(ts[i].value, rt, env.code);
    }
    assert Act.WalkParts(ts, f) == TemplatesMailed(ts, rt, env.code);
  }

  /** One activity's task reset: its conditions walked with the reset
      visitor, then one mail with everything collected, if anything was.
      What is mailed is what the reset mails from the pre-condition tasks,
      then, when the activity is still usable after that, from each template
      in use in order. */
  function ResetActivity(a: Act.Activity, rt: RefreshType, env: Env, order: seq<int>): (r: Act.Ranged)
    ensures r.after.conf == a.conf && r.after.db.activityId == a.db.activityId
    ensures r.collected == Act.RangeAllCondition(a, ResetVisitorFor(env.code, rt), env.now, env.policy, order).collected
    ensures r.panicked == Act.RangeAllCondition(a, ResetVisitorFor(env.code, rt), env.now, env.policy, order).panicked
    ensures var a1 := a.(db := Act.PreVisit(a.db, a.conf.preCondition, ResetVisitorFor(env.code, rt), 0).0);
      !r.panicked ==>
        r.collected == Flat(MailedParts(a.conf.preCondition, a.db.preTaskInfos, rt, env.code)) +
                       (if Act.Invalid(a1, env.now).Some? then []
                        else Flat(TemplatesMailed(Act.GetTemplates(a1, env.now, env.policy, order), rt, env.code)))
    ensures forall e | e in r.effects :: e.Call? ==>
      && !r.panicked && e == Answer(env.host, SendMail(r.collected)) && |r.collected| > 0
    ensures !r.panicked && |r.collected| > 0 ==> Answer(env.host, SendMail(r.collected)) in r.effects
    ensures Act.Aliased(a) ==> Act.Aliased(r.after)
  {
    ResetWalkMails(a, rt, env, order);
    MailCollected(Act.RangeAllCondition(a, ResetVisitorFor(env.code, rt), env.now, env.policy, order), env.host)
  }

  /** A walk that only saved, followed by one mail of what it collected,
      when it collected something and did not panic. */
  function MailCollected(w: Act.Ranged, host: Host): (r: Act.Ranged)
    requires forall e | e in w.effects :: e.Notify?
    ensures r.after == w.after && r.collected == w.collected && r.panicked == w.panicked
    ensures forall e | e in r.effects :: e.Call? ==>
      && !r.panicked && e == Answer(host, SendMail(r.collected)) && |r.collected| > 0
    ensures !r.panicked && |r.collected| > 0 ==> Answer(host, SendMail(r.collected)) in r.effects
  {
    if w.panicked || |w.collected| == 0 then w
    else Act.Ranged(w.after, w.effects + [Answer(host, SendMail(w.collected))], w.collected, false)
  }

  /** Storing an activity under its own id, with its templates equal to
      their records, keeps the manager valid. */
  lemma ReplaceKeepsValid(m: Mgr, id: int, a: Act.Activity)
    requires Valid(m) && id in m.activities
    requires a.db.activityId == m.activities[id].db.activityId && Act.Aliased(a)
    ensures Valid(m.(activities := m.activities[id := a]))
  {
  }

  /** The reset of held activity `k` as the manager holds it. */
  function Rollover(m: Mgr, k: int, rt: RefreshType, env: Env): (r: Act.Ranged)
    requires k in m.activities
    ensures r.after.conf == m.activities[k].conf && r.after.db.activityId == m.activities[k].db.activityId
    ensures forall e | e in r.effects :: e.Call? ==> e.call.SendMail? && |e.call.items| > 0
    ensures Act.Aliased(m.activities[k]) ==> Act.Aliased(r.after)
  {
    ResetActivity(m.activities[k], rt, env, DayOrder(env, k))
  }

  /** Every held activity's tasks of one refresh kind reset, in the
      runtime's order `ids`; a panic ends the walk with the changes made
      before it kept. */
  function ResetTaskByType(m: Mgr, rt: RefreshType, env: Env, ids: seq<int>): (r: Changed)
    decreases |ids|
    ensures r.after.areaId == m.areaId && r.after.channel == m.channel && r.after.registerTime == m.registerTime
    ensures r.after.activities.Keys == m.activities.Keys
    ensures forall k | k in m.activities && k !in ids :: r.after.activities[k] == m.activities[k]
    ensures forall k | k in m.activities :: r.after.activities[k].conf == m.activities[k].conf
    ensures forall e | e in r.effects :: e.Call? ==> e.call.SendMail? && |e.call.items| > 0
    ensures Valid(m) ==> Valid(r.after)
  {
    if |ids| == 0 then Changed(m, [], false)
    else
      var id := ids[0];
      assert forall k :: k in ids[1..] ==> k in ids;
      if id !in m.activities then ResetTaskByType(m, rt, env, ids[1..])
      else
        var w := Rollover(m, id, rt, env);
        var m' := m.(activities := m.activities[id := w.after]);
        assert Valid(m) ==> Valid(m') by {
          if Valid(m) {
            ReplaceKeepsValid(m, id, w.after);
          }
        }
        if w.panicked then Changed(m', w.effects, true)
        else
          var rest := ResetTaskByType(m', rt, env, ids[1..]);
          Changed(rest.after, w.effects + rest.effects, rest.panicked)
  }

  /** One step of a rollover on an activity that is held. */
  lemma RolloverStep(m: Mgr, rt: RefreshType, env: Env, ids: seq<int>)
    requires |ids| > 0 && ids[0] in m.activities
    ensures var w := Rollover(m, ids[0], rt, env);
      var m' := m.(activities := m.activities[ids[0] := w.after]);
      ResetTaskByType(m, rt, env, ids) ==
        if w.panicked then Changed(m', w.effects, true)
        else
          var rest := ResetTaskByType(m', rt, env, ids[1..]);
          Changed(rest.after, w.effects + rest.effects, rest.panicked)
  {
  }

  /** The rest of distinct ids, and the activities it holds, are those of
      the ids minus the first. */
  lemma DistinctTail(ids: seq<int>)
    requires Distinct(ids) && |ids| > 0
    ensures Distinct(ids[1..])
    ensures forall k :: k in ids <==> k == ids[0] || k in ids[1..]
    ensures ids[0] !in ids[1..]
  {
    assert forall i :: 1 <= i < |ids| ==> ids[i] == ids[1..][i - 1];
  }

  /** Each mail of a rollover over distinct ids is the reset mail of one
      visited activity as held before the rollover. */
  lemma {:induction false} RolloverMailsAreResets(m: Mgr, rt: RefreshType, env: Env, ids: seq<int>)
    requires Distinct(ids)
    decreases |ids|
    ensures forall e | e in ResetTaskByType(m, rt, env, ids).effects && e.Call? ::
      exists k :: k in ids && k in m.activities && e == Answer(env.host, SendMail(Rollover(m, k, rt, env).collected))
  {
    if |ids| > 0 {
      var id := ids[0];
      DistinctTail(ids);
      if id !in m.activities {
        RolloverMailsAreResets(m, rt, env, ids[1..]);
      } else {
        RolloverStep(m, rt, env, ids);
        var w := Rollover(m, id, rt, env);
        var m' := m.(activities := m.activities[id := w.after]);
        if !w.panicked {
          RolloverMailsAreResets(m', rt, env, ids[1..]);
          var rest := ResetTaskByType(m', rt, env, ids[1..]);
          forall e | e in rest.effects && e.Call?
            ensures exists k :: k in ids && k in m.activities && e == Answer(env.host, SendMail(Rollover(m, k, rt, env).collected))
          {
            var k :| k in ids[1..] && k in m'.activities && e == Answer(env.host, SendMail(Rollover(m', k, rt, env).collected));
            assert m'.activities[k] == m.activities[k];
          }
        }
      }
    }
  }

  /** A rollover over distinct ids that no panic ended sent the reset mail of
      every visited activity whose reset collected something. */
  lemma {:induction false} RolloverMailsAll(m: Mgr, rt: RefreshType, env: Env, ids: seq<int>)
    requires Distinct(ids)
    decreases |ids|
    ensures !ResetTaskByType(m, rt, env, ids).panicked ==>
      forall k | k in ids && k in m.activities && |Rollover(m, k, rt, env).collected| > 0 ::
        Answer(env.host, SendMail(Rollover(m, k, rt, env).collected)) in ResetTaskByType(m, rt, env, ids).effects
  {
    if |ids| > 0 {
      var id := ids[0];
      DistinctTail(ids);
      if id !in m.activities {
        RolloverMailsAll(m, rt, env, ids[1..]);
      } else {
        RolloverStep(m, rt, env, ids);
        var w := Rollover(m, id, rt, env);
        var m' := m.(activities := m.activities[id := w.after]);
        if !w.panicked {
          RolloverMailsAll(m', rt, env, ids[1..]);
          var rest := ResetTaskByType(m', rt, env, ids[1..]);
          var r := ResetTaskByType(m, rt, env, ids);
          assert r.effects == w.effects + rest.effects && r.panicked == rest.panicked;
          if !rest.panicked {
            forall k | k in ids && k in m.activities && |Rollover(m, k, rt, env).collected| > 0
              ensures Answer(env.host, SendMail(Rollover(m, k, rt, env).collected)) in r.effects
            {
              if k == id {
                assert Answer(env.host, SendMail(w.collected)) in w.effects;
              } else {
                assert k in ids[1..] && m'.activities[k] == m.activities[k];
                assert Answer(env.host, SendMail(Rollover(m', k, rt, env).collected)) in rest.effects;
              }
            }
          }
        }
      }
    }
  }

  /** Every held activity's conditions handed to the visitor, in the
      runtime's order `ids`; a panic ends the walk. */
  function TriggerCondition(m: Mgr, f: TaskVisitor, env: Env, ids: seq<int>): (r: Changed)
    decreases |ids|
    ensures r.after.activities.Keys == m.activities.Keys
    ensures forall k | k in m.activities && k !in ids :: r.after.activities[k] == m.activities[k]
    ensures forall k | k in m.activities :: r.after.activities[k].conf == m.activities[k].conf
    ensures forall e | e in r.effects :: e.Notify?
    ensures Valid(m) ==> Valid(r.after)
  {
    if |ids| == 0 then Changed(m, [], false)
    else
      var id := ids[0];
      assert forall k :: k in ids[1..] ==> k in ids;
      if id !in m.activities then TriggerCondition(m, f, env, ids[1..])
      else
        var w := Act.RangeAllCondition(m.activities[id], f, env.now, env.policy, DayOrder(env, id));
        var m' := m.(activities := m.activities[id := w.after]);
        assert Valid(m) ==> Valid(m') by {
          if Valid(m) {
            ReplaceKeepsValid(m, id, w.after);
          }
        }
        if w.panicked then Changed(m', w.effects, true)
        else
          var rest := TriggerCondition(m', f, env, ids[1..]);
          Changed(rest.after, w.effects + rest.effects, rest.panicked)
  }

  /** The rollover of one refresh kind over distinct ids: every mail is the
      reset mail of a visited activity, and unless a panic ended it, every
      visited activity whose reset collected something was mailed. */
  function RolloverKind(m: Mgr, rt: RefreshType, env: Env, ids: seq<int>): (r: Changed)
    ensures r.after.activities.Keys == m.activities.Keys
    ensures forall k | k in m.activities :: r.after.activities[k].conf == m.activities[k].conf
    ensures forall e | e in r.effects :: e.Call? ==> e.call.SendMail? && |e.call.items| > 0
    ensures Distinct(ids) ==> forall e | e in r.effects && e.Call? ::
      exists k :: k in ids && k in m.activities && e == Answer(env.host, SendMail(Rollover(m, k, rt, env).collected))
    ensures Distinct(ids) && !r.panicked ==>
      forall k | k in ids && k in m.activities && |Rollover(m, k, rt, env).collected| > 0 ::
        Answer(env.host, SendMail(Rollover(m, k, rt, env).collected)) in r.effects
    ensures Valid(m) ==> Valid(r.after)
  {
    if Distinct(ids) then
      RolloverMailsAreResets(m, rt, env, ids);
      RolloverMailsAll(m, rt, env, ids);
      ResetTaskByType(m, rt, env, ids)
    else ResetTaskByType(m, rt, env, ids)
  }

  /** The runtime's order of one range over the held activities: the ids in
      turn, and for each activity the order of its day map in that range. */
  datatype RangeOrder = RangeOrder(ids: seq<int>, dayOrder: map<int, seq<int>>)

  /** A new day: the daily tasks start over (their rewards mailed as the
      reading of the code decides), the repair counters are reset, then the
      login signs run again. Each of the three is its own range over the
      held activities, in its own order; only the task reset talks to the
      host. */
  function OnNewDay(m: Mgr, env: Env, tasks: RangeOrder, repairs: RangeOrder, login: RangeOrder): (r: Changed)
    ensures r.after.activities.Keys == m.activities.Keys
    ensures forall k | k in m.activities :: r.after.activities[k].conf == m.activities[k].conf
    ensures var e1 := env.(dayOrder := tasks.dayOrder);
      Distinct(tasks.ids) ==> forall e | e in r.effects && e.Call? ::
        exists k :: k in tasks.ids && k in m.activities && e == Answer(env.host, SendMail(Rollover(m, k, RefreshDay, e1).collected))
    ensures var e1 := env.(dayOrder := tasks.dayOrder);
      Distinct(tasks.ids) && !r.panicked ==>
        forall k | k in tasks.ids && k in m.activities && |Rollover(m, k, RefreshDay, e1).collected| > 0 ::
          Answer(env.host, SendMail(Rollover(m, k, RefreshDay, e1).collected)) in r.effects
    ensures Valid(m) ==> Valid(r.after)
  {
    var reset := RolloverKind(m, RefreshDay, env.(dayOrder := tasks.dayOrder), tasks.ids);
    if reset.panicked then reset
    else
      var zeroed := ResetEveryDaySignRepairCount(reset.after, env.(dayOrder := repairs.dayOrder), repairs.ids);
      if zeroed.panicked then Changed(zeroed.after, reset.effects + zeroed.effects, true)
      else
        var signed := Login(zeroed.after, env.(dayOrder := login.dayOrder), login.ids);
        Changed(signed.after, reset.effects + zeroed.effects + signed.effects, signed.panicked)
  }

  /** A new week: the weekly tasks start over. */
  function OnNewWeek(m: Mgr, env: Env, ids: seq<int>): (r: Changed)
    ensures r.after.activities.Keys == m.activities.Keys
    ensures Distinct(ids) ==> forall e | e in r.effects && e.Call? ::
      exists k :: k in ids && k in m.activities && e == Answer(env.host, SendMail(Rollover(m, k, RefreshWeek, env).collected))
    ensures Distinct(ids) && !r.panicked ==>
      forall k | k in ids && k in m.activities && |Rollover(m, k, RefreshWeek, env).collected| > 0 ::
        Answer(env.host, SendMail(Rollover(m, k, RefreshWeek, env).collected)) in r.effects
    ensures Valid(m) ==> Valid(r.after)
  {
    RolloverKind(m, RefreshWeek, env, ids)
  }

  /** A new month: the monthly tasks start over. */
  function OnNewMonth(m: Mgr, env: Env, ids: seq<int>): (r: Changed)
    ensures r.after.activities.Keys == m.activities.Keys
    ensures Distinct(ids) ==> forall e | e in r.effects && e.Call? ::
      exists k :: k in ids && k in m.activities && e == Answer(env.host, SendMail(Rollover(m, k, RefreshMonth, env).collected))
    ensures Distinct(ids) && !r.panicked ==>
      forall k | k in ids && k in m.activities && |Rollover(m, k, RefreshMonth, env).collected| > 0 ::
        Answer(env.host, SendMail(Rollover(m, k, RefreshMonth, env).collected)) in r.effects
    ensures Valid(m) ==> Valid(r.after)
  {
    RolloverKind(m, RefreshMonth, env, ids)
  }

  // ---------------------------------------------------------------------
  // Player commands on one template of an open activity

  /** A player request addressed to one template. */
  datatype Command =
    | SignCmd
    | SignGetRewardCmd(day: int)
    | SignRepairCmd
    | TaskRewardCmd(task: int)
    | BuyCmd(goods: int)

  /** The template kind a command is addressed to. */
  function KindOf(c: Command): TemplateType {
    match c
    case TaskRewardCmd(_) => ConditionType
    case BuyCmd(_) => ConsumptionType
    case _ => SignInType
  }

  /** A command run on a template of its kind. A sign on request is refused
      for a template that signs at login; a claimed sign reward is saved by
      the manager. */
  function Apply(c: Command, a: Act.Activity, t: Template, env: Env): (r: Step)
    ensures r.after.day == t.day && r.after.index == t.index && r.after.activityId == t.activityId
    ensures r.after.conf == t.conf
    ensures c == SignCmd && SignCommon.IsLoginTrigger(t) ==> r == Step(Some(SignTriggerError), t, [])
    ensures c.SignCmd? && !SignCommon.IsLoginTrigger(t) ==>
      r == RootSign.Sign(t, env.now, env.policy, Act.OpenDay(a, env.now, env.policy))
    ensures c.SignGetRewardCmd? && RootSign.GetReward(t, c.day, env.host).err.None? ==>
      var after := RootSign.GetReward(t, c.day, env.host).after;
      r == Step(None, after, RootSign.GetReward(t, c.day, env.host).effects + [Save(after, SignCommon.Part(after))])
    ensures c.TaskRewardCmd? ==> r == TaskTemplate.FinishTask(t, c.task, env.host)
    ensures c.BuyCmd? && env.code.AsWritten? ==> r == ShopTemplate.BuyAsWritten(t, c.goods, env.host)
    ensures c.BuyCmd? && env.code.Corrected? ==> r == ShopTemplate.Buy(t, c.goods, env.host)
  {
    match c
    case SignCmd =>
      if SignCommon.IsLoginTrigger(t) then Step(Some(SignTriggerError), t, [])
      else RootSign.Sign(t, env.now, env.policy, Act.OpenDay(a, env.now, env.policy))
    case SignGetRewardCmd(day) =>
      var s := RootSign.GetReward(t, day, env.host);
      if s.err.Some? then s
      else Step(None, s.after, s.effects + [Save(s.after, SignCommon.Part(s.after))])
    case SignRepairCmd => RootSign.Repair(t, Act.OpenDay(a, env.now, env.policy), env.host)
    case TaskRewardCmd(task) => TaskTemplate.FinishTask(t, task, env.host)
    case BuyCmd(goods) =>
      if env.code.AsWritten? then ShopTemplate.BuyAsWritten(t, goods, env.host) else ShopTemplate.Buy(t, goods, env.host)
  }

  /** A held activity that is open now. */
  function StartActivity(m: Mgr, id: int, env: Env): (r: Option<Act.Activity>)
    ensures r.Some? <==> id in m.activities && Act.Invalid(m.activities[id], env.now).None?
    ensures r.Some? ==> r.value == m.activities[id]
  {
    if id !in m.activities then None
    else if Act.Invalid(m.activities[id], env.now).Some? then None
    else Some(m.activities[id])
  }

  /** A command on template `index` of activity `id`: the activity must be
      open and the template of the command's kind; the template is written
      back (into its slot and its stored record) when the command changed
      it, whatever the command answered. */
  function Dispatch(m: Mgr, id: int, index: int, c: Command, env: Env): (r: MgrStep)
    ensures r.after.activities.Keys == m.activities.Keys
    ensures StartActivity(m, id, env).None? ==> r == MgrStep(Some(ActivityNotExist), m, [])
    ensures StartActivity(m, id, env).Some? ==>
      var a := m.activities[id];
      match Act.GetTypedTemplate(a, index, KindOf(c), env.now, env.policy, DayOrder(env, id))
      case Panic => r == MgrStep(Some(IndexPanic), m, [])
      case Absent => r == MgrStep(Some(TemplateNotExist), m, [])
      case Got(t) =>
        var s := Apply(c, a, t, env);
        && r.err == s.err && r.effects == s.effects
        && (Valid(m) ==> Act.GetTemplate(r.after.activities[id], index, env.now, env.policy, DayOrder(env, id)) == Got(s.after))
        && (Valid(m) ==> Act.Invalid(r.after.activities[id], env.now).None?)
    ensures r.after.areaId == m.areaId && r.after.channel == m.channel && r.after.registerTime == m.registerTime
    ensures forall k | k in m.activities && k != id :: r.after.activities[k] == m.activities[k]
    ensures Valid(m) ==> Valid(r.after)
  {
    match StartActivity(m, id, env)
    case None => MgrStep(Some(ActivityNotExist), m, [])
    case Some(a) =>
      match Act.GetTypedTemplate(a, index, KindOf(c), env.now, env.policy, DayOrder(env, id))
      case Panic => MgrStep(Some(IndexPanic), m, [])
      case Absent => MgrStep(Some(TemplateNotExist), m, [])
      case Got(t) =>
        var s := Apply(c, a, t, env);
        if s.after == t then MgrStep(s.err, m, s.effects)
        else
          var a' := Act.PutTemplate(a, s.after);
          assert Valid(m) ==>
            && Valid(m.(activities := m.activities[id := a']))
            && Act.GetTemplate(a', index, env.now, env.policy, DayOrder(env, id)) == Got(s.after)
            && Act.Invalid(a', env.now).None? by {
            if Valid(m) {
              Act.WriteBackThenRead(a, index, s.after, env.now, env.policy, DayOrder(env, id));
            }
          }
          MgrStep(s.err, m.(activities := m.activities[id := a']), s.effects)
  }

  /** A score-step claim of a reading of the code. */
  function ScoreClaim(a: Act.Activity, index: int, env: Env): Act.ActStep {
    if env.code.AsWritten? then Act.GetScoreRewardAsWritten(a, index, env.host) else Act.GetScoreReward(a, index, env.host)
  }

  /** A score-step claim on an open activity; the activity is stored back
      whatever the claim answered. */
  function GetScoreReward(m: Mgr, id: int, index: int, env: Env): (r: MgrStep)
    ensures r.after.activities.Keys == m.activities.Keys
    ensures StartActivity(m, id, env).None? ==> r == MgrStep(Some(ActivityNotExist), m, [])
    ensures StartActivity(m, id, env).Some? ==>
      var s := ScoreClaim(m.activities[id], index, env);
      r == MgrStep(s.err, m.(activities := m.activities[id := s.after]), s.effects)
    ensures forall k | k in m.activities && k != id :: r.after.activities[k] == m.activities[k]
    ensures Valid(m) ==> Valid(r.after)
  {
    match StartActivity(m, id, env)
    case None => MgrStep(Some(ActivityNotExist), m, [])
    case Some(a) =>
      var s := ScoreClaim(a, index, env);
      assert Act.Aliased(a) ==> Act.Aliased(s.after);
      MgrStep(s.err, m.(activities := m.activities[id := s.after]), s.effects)
  }

  /** The same slot addresses the same template of activity `id` under the
      day-map order of `env` and under `order2`. */
  predicate SameSlot(m: Mgr, id: int, index: int, env: Env, order2: map<int, seq<int>>)
    requires id in m.activities
  {
    Act.GetTemplate(m.activities[id], index, env.now, env.policy, DayOrder(env.(dayOrder := order2), id))
      == Act.GetTemplate(m.activities[id], index, env.now, env.policy, DayOrder(env, id))
  }

  /** A command that succeeded leaves its activity open and its template,
      read back from the same slot under any day-map order that addresses
      the same template, equal to the command's result. */
  lemma SucceededCommandReadsBack(m: Mgr, id: int, index: int, c: Command, env: Env, order2: map<int, seq<int>>)
    requires Valid(m) && Dispatch(m, id, index, c, env).err.None?
    requires id in m.activities && SameSlot(m, id, index, env, order2)
    ensures StartActivity(m, id, env).Some?
    ensures var a := m.activities[id];
      var g := Act.GetTypedTemplate(a, index, KindOf(c), env.now, env.policy, DayOrder(env, id));
      var after := Dispatch(m, id, index, c, env).after;
      && g.Got?
      && StartActivity(after, id, env).Some?
      && Act.GetTypedTemplate(after.activities[id], index, KindOf(c), env.now, env.policy, DayOrder(env.(dayOrder := order2), id))
         == Got(Apply(c, a, g.value, env).after)
  {
    var a := m.activities[id];
    var o2 := DayOrder(env.(dayOrder := order2), id);
    var t := Act.GetTypedTemplate(a, index, KindOf(c), env.now, env.policy, DayOrder(env, id)).value;
    var u := Apply(c, a, t, env).after;
    if u != t {
      Act.WriteBackThenRead(a, index, u, env.now, env.policy, o2);
    }
  }

  /** A sign on request happens once per day: right after a successful
      sign, a second one on the same day, under any day-map order that
      addresses the same template, is refused and changes nothing. */
  lemma SignOncePerDay(m: Mgr, id: int, index: int, env: Env, later: int, order2: map<int, seq<int>>)
    requires Valid(m) && Dispatch(m, id, index, SignCmd, env).err.None?
    requires id in m.activities && SameSlot(m, id, index, env, order2)
    requires DiffDayNum(env.policy, later, env.now) == 0
    ensures var after := Dispatch(m, id, index, SignCmd, env).after;
      var again := Dispatch(after, id, index, SignCmd, env.(now := later, dayOrder := order2));
      again.err.Some? && again.after == after && again.effects == []
  {
    SucceededCommandReadsBack(m, id, index, SignCmd, env, order2);
    var a := m.activities[id];
    var t := Act.GetTypedTemplate(a, index, SignInType, env.now, env.policy, DayOrder(env, id)).value;
    var after := Dispatch(m, id, index, SignCmd, env).after;
    var a' := after.activities[id];
    var u := Apply(SignCmd, a, t, env).after;
    var env' := env.(now := later, dayOrder := order2);
    var o2 := DayOrder(env', id);
    if StartActivity(after, id, env').Some? {
      assert Act.OpenDay(a', later, env.policy) == Act.OpenDay(a', env.now, env.policy);
      assert Act.GetTemplates(a', later, env.policy, o2) == Act.GetTemplates(a', env.now, env.policy, o2);
      assert Act.GetTypedTemplate(a', index, SignInType, later, env.policy, o2) == Got(u);
      RootSign.SignOncePerDay(t, env.now, later, env.policy, Act.OpenDay(a, env.now, env.policy), Act.OpenDay(a', later, env.policy));
    }
  }

  /** A task reward is taken once: right after a successful claim, claiming
      the same task again, under any day-map order that addresses the same
      template, is refused as a status error and changes nothing. */
  lemma TaskRewardOnce(m: Mgr, id: int, index: int, task: int, env: Env, order2: map<int, seq<int>>)
    requires Valid(m) && Dispatch(m, id, index, TaskRewardCmd(task), env).err.None?
    requires id in m.activities && SameSlot(m, id, index, env, order2)
    ensures var after := Dispatch(m, id, index, TaskRewardCmd(task), env).after;
      Dispatch(after, id, index, TaskRewardCmd(task), env.(dayOrder := order2)) == MgrStep(Some(TaskStatusErr), after, [])
  {
    SucceededCommandReadsBack(m, id, index, TaskRewardCmd(task), env, order2);
    var a := m.activities[id];
    var t := Act.GetTypedTemplate(a, index, ConditionType, env.now, env.policy, DayOrder(env, id)).value;
    TaskTemplate.FinishTaskIsOneShot(t, task, env.host);
  }

  /** A score step is paid once: right after a successful claim, claiming it
      again is refused and changes nothing. */
  lemma ScoreRewardOnce(m: Mgr, id: int, index: int, env: Env)
    requires GetScoreReward(m, id, index, env).err.None?
    requires id in m.activities && (env.code.Corrected? || m.activities[id].db.gotScores.Some?)
    ensures var after := GetScoreReward(m, id, index, env).after;
      GetScoreReward(after, id, index, env) == MgrStep(Some(ScoreIndexGot), after, [])
  {
    var a := m.activities[id];
    if env.code.AsWritten? {
      Act.AsWrittenAgreesWithScoreMap(a, index, env.host);
      Act.AsWrittenAgreesWithScoreMap(Act.GetScoreReward(a, index, env.host).after, index, env.host);
    }
    Act.ScoreRewardIsOneShot(a, index, env.host);
    var after := GetScoreReward(m, id, index, env).after;
    assert after.activities[id] == Act.GetScoreReward(a, index, env.host).after;
    assert after.activities == m.activities[id := after.activities[id]];
  }

  /** As written, an activity whose score map was stored as nil pays the same
      score step on every claim: a successful claim leaves the manager as it
      was, so the next claim succeeds too. */
  lemma AsWrittenScorePaidAgain(m: Mgr, id: int, index: int, env: Env)
    requires env.code.AsWritten?
    requires id in m.activities && m.activities[id].db.gotScores.None?
    requires GetScoreReward(m, id, index, env).err.None?
    ensures var after := GetScoreReward(m, id, index, env).after;
      after == m && GetScoreReward(after, id, index, env).err.None?
  {
    Act.AsWrittenPaysScoreTwice(m.activities[id], index, env.host);
  }

  /** A held activity keeps its configuration as registered, with relative
      instants unresolved, while admission resolves them. So an activity
      timed from the player's registration is admitted inside its resolved
      window, yet its raw close offset already lies in the past, and the
      next sweep deletes it again. */
  lemma RelativeActivitySweptOnArrival(m: Mgr, c: OperateActivity, env: Env)
    requires c.timeType == RegisterTime && Registry.GetActivity(env.reg, c.id, env.now).found == Some(c)
    requires CheckAddCondition(m, c, env) && c.closeDuration <= env.now
    requires Build(m, CommonData(c), env).Ok?
    ensures var a := Build(m, CommonData(c), env).value;
      && a.conf == c
      && env.now <= c.closeDuration + m.registerTime
      && !Keep(m.(activities := m.activities[c.id := a]), env, c.id)
  {
  }
}
