/** The sign-in template of the `player` package: the sign itself grants the
    next day's reward, one more day may be signed than the activity's open
    day, and repairs have no daily cap. */
module PlayerSign {
  import opened Records
  import opened DayClock
  import opened TemplateBase
  import opened SignCommon
  import RootSign

  function CanSignDay(openDay: int): int {
    openDay + 1
  }

  /** Today's sign: the checks, then the next day's reward, then the day
      counter and sign instant. A refused reward leaves the record as it was. */
  function Sign(t: Template, now: int, p: TimePolicy, openDay: int, host: Host): (r: Step)
    ensures r.err.Some? ==> r.after == t
    ensures CheckSignCondition(t, now, p, CanSignDay(openDay)).Some? ==>
      r == Step(CheckSignCondition(t, now, p, CanSignDay(openDay)), t, [])
    ensures r.err.None? <==> CheckSignCondition(t, now, p, CanSignDay(openDay)).None? && AddSignReward(t, host).0.None?
    ensures r.err.None? ==>
      var db := SignData(t).value;
      && r.after == WithSign(t, db.(signedDay := db.signedDay + 1, lastSignTimestamp := now))
      && r.effects == AddSignReward(t, host).1 + [Save(r.after, Part(r.after))]
  {
    match CheckSignCondition(t, now, p, CanSignDay(openDay))
    case Some(e) => Step(Some(e), t, [])
    case None =>
      var reward := AddSignReward(t, host);
      if reward.0.Some? then Step(reward.0, t, reward.1)
      else
        var db := SignData(t).value;
        var after := WithSign(t, db.(signedDay := db.signedDay + 1, lastSignTimestamp := now));
        Step(None, after, reward.1 + [Save(after, Part(after))])
  }

  /** The repair preconditions: only the total cap, then the rule of the next
      day to sign. */
  function RepairCondition(t: Template, openDay: int, host: Host): (r: (Option<Error>, seq<Effect>))
    ensures SignConfOf(t.conf).None? ==> r == (Some(ConfNil), [])
    ensures SignConfOf(t.conf).Some? && SignData(t).None? ==> r == (Some(DbDataNil), [])
    ensures SignConfOf(t.conf).Some? && SignData(t).Some? ==>
      var c := SignConfOf(t.conf).value;
      var db := SignData(t).value;
      && (db.repairCount >= RepairCap(c, CanSignDay(openDay)) ==> r == (Some(RepairCountLimit), []))
      && (db.repairCount < RepairCap(c, CanSignDay(openDay)) ==> r == RuleCheck(c, db, host))
  {
    if SignConfOf(t.conf).None? then (Some(ConfNil), [])
    else if SignData(t).None? then (Some(DbDataNil), [])
    else
      var c := SignConfOf(t.conf).value;
      var db := SignData(t).value;
      if db.repairCount >= RepairCap(c, CanSignDay(openDay)) then (Some(RepairCountLimit), [])
      else RuleCheck(c, db, host)
  }

  /** A repair: the conditions, the next day's reward, one more signed day
      and one more repair. */
  function Repair(t: Template, openDay: int, host: Host): (r: Step)
    ensures r.err.Some? ==> r.after == t
    ensures RepairCondition(t, openDay, host).0.Some? ==>
      r == Step(Some(RepairSignCondition), t, RepairCondition(t, openDay, host).1)
    ensures r.err.None? <==> RepairCondition(t, openDay, host).0.None? && AddSignReward(t, host).0.None?
    ensures r.err.None? ==>
      var db := SignData(t).value;
      && r.after == WithSign(t, db.(signedDay := db.signedDay + 1, repairCount := db.repairCount + 1))
      && r.effects == RepairCondition(t, openDay, host).1 + AddSignReward(t, host).1 + [Save(r.after, Part(r.after))]
  {
    var cond := RepairCondition(t, openDay, host);
    if cond.0.Some? then Step(Some(RepairSignCondition), t, cond.1)
    else
      var reward := AddSignReward(t, host);
      if reward.0.Some? then Step(reward.0, t, cond.1 + reward.1)
      else if SignData(t).None? then Step(Some(DbDataNil), t, cond.1 + reward.1)
      else
        var db := SignData(t).value;
        var after := WithSign(t, db.(signedDay := db.signedDay + 1, repairCount := db.repairCount + 1));
        Step(None, after, cond.1 + reward.1 + [Save(after, Part(after))])
  }

  /** This variant neither reads nor writes the daily repair counter: two
      records that differ only there repair alike, and a repair keeps it. */
  lemma DailyCounterPlaysNoPart(t: Template, openDay: int, host: Host, n: int)
    requires SignData(t).Some?
    ensures var t' := WithSign(t, SignData(t).value.(everyDayRepairCount := n));
      RepairCondition(t', openDay, host) == RepairCondition(t, openDay, host)
    ensures SignData(Repair(t, openDay, host).after).value.everyDayRepairCount == SignData(t).value.everyDayRepairCount
  {
  }

  /** The two variants differ by one in the days that may be signed: on the
      open day with as many days signed as the open day, this variant still
      signs while the activity's variant refuses with the count limit. */
  lemma OneDayMoreThanRootVariant(t: Template, now: int, p: TimePolicy, openDay: int, host: Host)
    requires SignConfOf(t.conf).Some? && SignData(t).Some?
    requires SignConfOf(t.conf).value.signInCount > openDay
    requires SignData(t).value.signedDay == openDay
    requires IsDifferDay(p, now, SignData(t).value.lastSignTimestamp)
    requires AddSignReward(t, host).0.None?
    ensures Sign(t, now, p, openDay, host).err.None?
    ensures RootSign.Sign(t, now, p, openDay).err == Some(SignCountLimit)
  {
  }
}
