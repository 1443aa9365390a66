/** The sign-in template the activity uses: a daily sign on request or at
    login, per-day rewards claimed separately, and repairs (retroactive signs)
    capped in total and per day. Days that may be signed so far equal the
    activity's open day. */
module RootSign {
  import opened Records
  import opened DayClock
  import opened TemplateBase
  import opened SignCommon

  function CanSignDay(openDay: int): int {
    openDay
  }

  /** Today's sign: the day counter advances and the sign instant is stored;
      no reward is granted here. */
  function Sign(t: Template, now: int, p: TimePolicy, openDay: int): (r: Step)
    ensures r.err.Some? ==> r.after == t && r.effects == []
    ensures SignData(t).None? ==> r.err == Some(DbDataNil)
    ensures r.err.None? <==> CheckSignCondition(t, now, p, CanSignDay(openDay)).None?
    ensures r.err.None? ==>
      var db := SignData(t).value;
      && r.after == WithSign(t, db.(signedDay := db.signedDay + 1, lastSignTimestamp := now))
      && r.effects == [Save(r.after, Part(r.after))]
  {
    if SignData(t).None? then Step(Some(DbDataNil), t, [])
    else
      match CheckSignCondition(t, now, p, CanSignDay(openDay))
      case Some(e) => Step(Some(e), t, [])
      case None =>
        var db := SignData(t).value;
        var after := WithSign(t, db.(signedDay := db.signedDay + 1, lastSignTimestamp := now));
        Step(None, after, [Save(after, Part(after))])
  }

  /** One sign per day: right after a sign, another one at any instant that
      is not on a later day is refused as already signed today. */
  lemma SignOncePerDay(t: Template, now: int, later: int, p: TimePolicy, openDay: int, openDay': int)
    requires Sign(t, now, p, openDay).err.None?
    requires !IsDifferDay(p, later, now)
    ensures var after := Sign(t, now, p, openDay).after;
      Sign(after, later, p, openDay') == Step(Some(TodaySigned), after, [])
  {
  }

  /** Signing never takes the counter past the open day or the configured
      count. */
  lemma SignStaysWithinCount(t: Template, now: int, p: TimePolicy, openDay: int)
    requires SignConfOf(t.conf).Some? && SignData(t).Some?
    requires SignData(t).value.signedDay <= CanSignCount(SignConfOf(t.conf).value, openDay)
    ensures var after := Sign(t, now, p, openDay).after;
      && SignData(after).Some?
      && SignData(after).value.signedDay <= openDay
      && SignData(after).value.signedDay <= SignConfOf(t.conf).value.signInCount
  {
  }

  /** The reward configured for sign day `day`, counted from 1. A day past
      the end of the list has none; a day below 1 indexes before the list
      and panics. */
  function RewardConfByDay(t: Template, day: int): (r: Fetch<seq<Item>>)
    ensures SignConfOf(t.conf).None? ==> r == Absent
    ensures SignConfOf(t.conf).Some? ==>
      var list := SignConfOf(t.conf).value.rewardList;
      && (r.Got? <==> 1 <= day <= |list|)
      && (r.Got? ==> r.value == list[day - 1])
      && (r.Panic? <==> day < 1)
  {
    match SignConfOf(t.conf)
    case None => Absent
    case Some(c) =>
      if day > |c.rewardList| then Absent
      else if day < 1 then Panic
      else Got(c.rewardList[day - 1])
  }

  /** The reward a sign on the next day would grant is the reward of that day
      counted from 1: the two indexings agree. */
  lemma NextSignRewardIsDayReward(t: Template, host: Host)
    requires SignConfOf(t.conf).Some? && SignData(t).Some?
    requires 0 <= SignData(t).value.signedDay < |SignConfOf(t.conf).value.rewardList|
    ensures var day := SignData(t).value.signedDay + 1;
      AddSignReward(t, host).1 == [Call(AddReward(RewardConfByDay(t, day).value), host(AddReward(RewardConfByDay(t, day).value)))]
  {
  }

  /** The host call that grants a day's reward; a missing reward grants an
      empty list. */
  function RewardCall(t: Template, day: int): HostCall
    requires !RewardConfByDay(t, day).Panic?
  {
    AddReward(if RewardConfByDay(t, day).Got? then RewardConfByDay(t, day).value else [])
  }

  /** Claims the reward of a signed day. The day is marked claimed before the
      reward is granted, so the mark stays when the grant fails or panics. */
  function GetReward(t: Template, day: int, host: Host): (r: Step)
    ensures SignData(t).None? ==> r == Step(Some(DbDataNil), t, [])
    ensures SignData(t).Some? && day > SignData(t).value.signedDay ==> r == Step(Some(NotSigned), t, [])
    ensures SignData(t).Some? && day <= SignData(t).value.signedDay && day in SignData(t).value.gots ==>
      r == Step(Some(SignRewardGot), t, [])
    ensures SignData(t).Some? && day <= SignData(t).value.signedDay && day !in SignData(t).value.gots ==>
      var db := SignData(t).value;
      && r.after == WithSign(t, db.(gots := db.gots + {day}))
      && (RewardConfByDay(t, day).Panic? ==> r.err == Some(IndexPanic) && r.effects == [])
      && (!RewardConfByDay(t, day).Panic? ==>
            && r.effects == [Call(RewardCall(t, day), host(RewardCall(t, day)))]
            && (r.err.None? <==> host(RewardCall(t, day)))
            && (r.err.Some? ==> r.err == Some(SignAddRewardFail)))
  {
    if SignData(t).None? then Step(Some(DbDataNil), t, [])
    else
      var db := SignData(t).value;
      if day > db.signedDay then Step(Some(NotSigned), t, [])
      else if day in db.gots then Step(Some(SignRewardGot), t, [])
      else
        var claimed := WithSign(t, db.(gots := db.gots + {day}));
        if RewardConfByDay(t, day).Panic? then Step(Some(IndexPanic), claimed, [])
        else if !host(RewardCall(t, day)) then Step(Some(SignAddRewardFail), claimed, [Call(RewardCall(t, day), false)])
        else Step(None, claimed, [Call(RewardCall(t, day), true)])
  }

  /** A day's reward is claimed at most once: after any claim attempt that
      got past the checks, asking again is refused. */
  lemma ClaimIsOneShot(t: Template, day: int, host: Host)
    requires SignData(t).Some? && day <= SignData(t).value.signedDay && day !in SignData(t).value.gots
    ensures var after := GetReward(t, day, host).after;
      GetReward(after, day, host) == Step(Some(SignRewardGot), after, [])
  {
  }

  /** The repair preconditions: the total cap, the daily cap, then the rule
      of the next day to sign. */
  function RepairCondition(t: Template, openDay: int, host: Host): (r: (Option<Error>, seq<Effect>))
    ensures SignConfOf(t.conf).None? ==> r == (Some(ConfNil), [])
    ensures SignConfOf(t.conf).Some? && SignData(t).None? ==> r == (Some(DbDataNil), [])
    ensures SignConfOf(t.conf).Some? && SignData(t).Some? ==>
      var c := SignConfOf(t.conf).value;
      var db := SignData(t).value;
      && (db.repairCount >= RepairCap(c, CanSignDay(openDay)) ==> r == (Some(RepairCountLimit), []))
      && (db.repairCount < RepairCap(c, CanSignDay(openDay)) && db.everyDayRepairCount >= c.everyDayRepairSignInCount ==>
            r == (Some(EveryDayRepairCountLimit), []))
      && (db.repairCount < RepairCap(c, CanSignDay(openDay)) && db.everyDayRepairCount < c.everyDayRepairSignInCount ==>
            r == RuleCheck(c, db, host))
  {
    if SignConfOf(t.conf).None? then (Some(ConfNil), [])
    else if SignData(t).None? then (Some(DbDataNil), [])
    else
      var c := SignConfOf(t.conf).value;
      var db := SignData(t).value;
      if db.repairCount >= RepairCap(c, CanSignDay(openDay)) then (Some(RepairCountLimit), [])
      else if db.everyDayRepairCount >= c.everyDayRepairSignInCount then (Some(EveryDayRepairCountLimit), [])
      else RuleCheck(c, db, host)
  }

  /** A repair: the conditions, then the next day's sign reward, then one more
      signed day counted against both repair caps. A failed condition is
      reported as one error; the payment a rule took stays taken. */
  function Repair(t: Template, openDay: int, host: Host): (r: Step)
    ensures r.err.Some? ==> r.after == t
    ensures RepairCondition(t, openDay, host).0.Some? ==>
      r == Step(Some(RepairSignCondition), t, RepairCondition(t, openDay, host).1)
    ensures r.err.None? <==> RepairCondition(t, openDay, host).0.None? && AddSignReward(t, host).0.None?
    ensures r.err.None? ==>
      var db := SignData(t).value;
      && r.after == WithSign(t, db.(signedDay := db.signedDay + 1, repairCount := db.repairCount + 1,
                                    everyDayRepairCount := db.everyDayRepairCount + 1))
      && r.effects == RepairCondition(t, openDay, host).1 + AddSignReward(t, host).1 + [Save(r.after, Part(r.after))]
  {
    var cond := RepairCondition(t, openDay, host);
    if cond.0.Some? then Step(Some(RepairSignCondition), t, cond.1)
    else
      var reward := AddSignReward(t, host);
      if reward.0.Some? then Step(reward.0, t, cond.1 + reward.1)
      else if SignData(t).None? then Step(Some(DbDataNil), t, cond.1 + reward.1)
      else
        var db := SignData(t).value;
        var after := WithSign(t, db.(signedDay := db.signedDay + 1, repairCount := db.repairCount + 1,
                                     everyDayRepairCount := db.everyDayRepairCount + 1));
        Step(None, after, cond.1 + reward.1 + [Save(after, Part(after))])
  }

  /** Repairs never take the counters past their caps: the total stays
      within the days before today and the configured total, the daily one
      within the configured daily count. */
  lemma RepairStaysWithinCaps(t: Template, openDay: int, host: Host)
    requires SignConfOf(t.conf).Some? && SignData(t).Some?
    requires SignData(t).value.repairCount <= RepairCap(SignConfOf(t.conf).value, CanSignDay(openDay))
    requires SignData(t).value.everyDayRepairCount <= SignConfOf(t.conf).value.everyDayRepairSignInCount
    ensures var db := SignData(Repair(t, openDay, host).after).value;
      && db.repairCount <= openDay - 1
      && db.repairCount <= SignConfOf(t.conf).value.repairSignInCount
      && db.everyDayRepairCount <= SignConfOf(t.conf).value.everyDayRepairSignInCount
  {
  }

  /** The daily repair counter back to zero, saved. */
  function ResetEveryDayRepairCount(t: Template): (r: (Template, seq<Effect>))
    ensures SignData(t).None? ==> r == (t, [])
    ensures SignData(t).Some? ==>
      && r.0 == WithSign(t, SignData(t).value.(everyDayRepairCount := 0))
      && r.1 == [Save(r.0, Part(r.0))]
  {
    if SignData(t).None? then (t, [])
    else
      var after := WithSign(t, SignData(t).value.(everyDayRepairCount := 0));
      (after, [Save(after, Part(after))])
  }

  /** After the daily reset only the total cap and the rule can stop a
      repair. */
  lemma ResetReopensDailyRepairs(t: Template, openDay: int, host: Host)
    requires SignConfOf(t.conf).Some? && SignData(t).Some?
    requires SignConfOf(t.conf).value.everyDayRepairSignInCount > 0
    ensures var c := SignConfOf(t.conf).value;
      var reset := ResetEveryDayRepairCount(t).0;
      RepairCondition(reset, openDay, host).0 != Some(EveryDayRepairCountLimit)
  {
  }

  /** The signed-day counter as the scan reads it: a missing record reads
      as no day signed, as the message getters do on nil. */
  function SignedDays(t: Template): int {
    if SignData(t).Some? then SignData(t).value.signedDay else 0
  }

  /** The claimed days as the scan reads them: none for a missing record. */
  function ClaimedDays(t: Template): set<int> {
    if SignData(t).Some? then SignData(t).value.gots else {}
  }

  /** What one day adds to the claimable rewards: nothing for a claimed day
      or a day without a reward entry. */
  function DayPart(t: Template, gots: set<int>, d: int): seq<Item> {
    if d !in gots && RewardConfByDay(t, d).Got? then RewardConfByDay(t, d).value else []
  }

  /** What days `day`..`last` add, day by day. */
  function DayParts(t: Template, gots: set<int>, day: int, last: int): seq<seq<Item>> {
    seq(if day <= last then last - day + 1 else 0,
        k requires 0 <= k < (if day <= last then last - day + 1 else 0) => DayPart(t, gots, day + k))
  }

  /** The rewards of days `day`..`last` not in `gots`, as the code collects
      them: a day whose reward lookup panics makes the whole collection
      panic; otherwise the days' rewards follow each other in day order. */
  function UnclaimedFrom(t: Template, gots: set<int>, day: int, last: int): (r: Fetch<seq<Item>>)
    decreases last - day
    ensures !r.Absent?
    ensures r.Panic? <==> exists d :: day <= d <= last && d !in gots && RewardConfByDay(t, d).Panic?
    ensures r.Got? ==> r.value == Flat(DayParts(t, gots, day, last))
  {
    if day > last then Got([])
    else
      var rest := UnclaimedFrom(t, gots, day + 1, last);
      assert DayParts(t, gots, day, last)[1..] == DayParts(t, gots, day + 1, last);
      assert Flat(DayParts(t, gots, day, last)) == DayPart(t, gots, day) + Flat(DayParts(t, gots, day + 1, last));
      if day in gots then rest
      else
        match RewardConfByDay(t, day)
        case Panic => Panic
        case Absent => rest
        case Got(items) => if rest.Panic? then Panic else Got(items + rest.value)
  }

  /** What the player could still claim, as written: the loop starts at day
      0, whose reward lookup indexes before the list. */
  function CanReceiveRewardAsWritten(t: Template): (r: Fetch<seq<Item>>)
    ensures !r.Absent?
    ensures r.Panic? <==>
      exists d :: 0 <= d <= SignedDays(t) && d !in ClaimedDays(t) && RewardConfByDay(t, d).Panic?
    ensures r.Got? ==> r.value == Flat(DayParts(t, ClaimedDays(t), 0, SignedDays(t)))
  {
    UnclaimedFrom(t, ClaimedDays(t), 0, SignedDays(t))
  }

  /** With a sign configuration, a template whose day 0 is not marked claimed
      (every template: day 0 is never claimable, and a missing record claims
      nothing) panics when its claimable rewards are gathered. */
  lemma AsWrittenPanicsOnDayZero(t: Template)
    requires SignConfOf(t.conf).Some?
    requires SignedDays(t) >= 0 && 0 !in ClaimedDays(t)
    ensures CanReceiveRewardAsWritten(t) == Panic
  {
    assert RewardConfByDay(t, 0).Panic?;
  }

  /** The rewards of signed days 1..`signedDay` that are not claimed: the
      days `GetReward` accepts, in day order, each day's reward once. */
  function CanReceiveReward(t: Template): (r: seq<Item>)
    ensures SignData(t).None? ==> r == []
    ensures r == Flat(DayParts(t, ClaimedDays(t), 1, SignedDays(t)))
    ensures SignData(t).Some? ==>
      forall x :: x in r <==>
        exists d :: 1 <= d <= SignData(t).value.signedDay && d !in SignData(t).value.gots &&
                    RewardConfByDay(t, d).Got? && x in RewardConfByDay(t, d).value
  {
    CorrectedNeverPanics(t, ClaimedDays(t), 1, SignedDays(t));
    UnclaimedFrom(t, ClaimedDays(t), 1, SignedDays(t)).value
  }

  /** A scan that starts at day 1 never panics, and lists the reward of every
      unclaimed day that has one. */
  lemma CorrectedNeverPanics(t: Template, gots: set<int>, day: int, last: int)
    requires day >= 1
    ensures UnclaimedFrom(t, gots, day, last).Got?
    ensures forall x :: x in UnclaimedFrom(t, gots, day, last).value <==>
      exists d :: day <= d <= last && d !in gots && RewardConfByDay(t, d).Got? && x in RewardConfByDay(t, d).value
  {
    var parts := DayParts(t, gots, day, last);
    FlatMembers(parts);
    forall x | x in UnclaimedFrom(t, gots, day, last).value
      ensures exists d :: day <= d <= last && d !in gots && RewardConfByDay(t, d).Got? && x in RewardConfByDay(t, d).value
    {
      var k :| 0 <= k < |parts| && x in parts[k];
      assert parts[k] == DayPart(t, gots, day + k);
    }
    forall x, d | day <= d <= last && d !in gots && RewardConfByDay(t, d).Got? && x in RewardConfByDay(t, d).value
      ensures x in UnclaimedFrom(t, gots, day, last).value
    {
      assert parts[d - day] == DayPart(t, gots, d);
    }
  }

  /** Every day whose reward is listed as claimable can be claimed: when the
      host grants it, `GetReward` succeeds for that day. */
  lemma ClaimableDaysAreClaimable(t: Template, day: int, host: Host)
    requires SignData(t).Some? && 1 <= day <= SignData(t).value.signedDay && day !in SignData(t).value.gots
    requires RewardConfByDay(t, day).Got? && host(AddReward(RewardConfByDay(t, day).value))
    ensures GetReward(t, day, host).err.None?
    ensures forall x :: x in RewardConfByDay(t, day).value ==> x in CanReceiveReward(t)
  {
  }
}
