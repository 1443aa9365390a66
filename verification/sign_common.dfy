/** The parts of the sign-in template that the root package and the player
    package write identically. Where the two differ only in how many days may
    be signed so far, that number (`canSignDay`) is a parameter. */
module SignCommon {
  import opened Records
  import opened DayClock
  import opened TemplateBase

  /** A new record: zeroed counters, no claimed day, and per repair rule one
      task in `Doing` per condition of the rule. */
  function InitData(conf: TemplateConf): (r: Option<TemplateData>)
    ensures r.None? <==> SignConfOf(conf).None?
    ensures r.Some? ==>
      var rules := SignConfOf(conf).value.repairRules;
      && r.value.tasks.None? && r.value.shop.None? && r.value.sign.Some?
      && var db := r.value.sign.value;
      && db.signedDay == 0 && db.lastSignTimestamp == 0
      && db.repairCount == 0 && db.everyDayRepairCount == 0
      && db.gots == {}
      && |db.conditions| == |rules|
      && (forall d :: 0 <= d < |rules| ==> |db.conditions[d]| == |rules[d].conditions|)
      && (forall d, j :: 0 <= d < |rules| && 0 <= j < |db.conditions[d]| ==> db.conditions[d][j] == ZeroTask)
  {
    match SignConfOf(conf)
    case None => None
    case Some(c) =>
      var conds := seq(|c.repairRules|, d requires 0 <= d < |c.repairRules| =>
                         seq(|c.repairRules[d].conditions|, _ => ZeroTask));
      Some(TemplateData(Some(SignInDB(0, 0, 0, 0, {}, conds)), None, None))
  }

  /** What the template reports when it saves: its sign part only. */
  function Part(t: Template): TemplateData {
    TemplateData(SignData(t), None, None)
  }

  function WithSign(t: Template, db: SignInDB): Template
    requires t.data.Some?
  {
    t.(data := Some(t.data.value.(sign := Some(db))))
  }

  /** How many days may be signed in total so far. */
  function CanSignCount(c: SignInConf, canSignDay: int): (n: int)
    ensures n <= canSignDay && n <= c.signInCount
    ensures n == canSignDay || n == c.signInCount
  {
    Min(canSignDay, c.signInCount)
  }

  /** How many repairs may be made in total so far: never more than the days
      before today. */
  function RepairCap(c: SignInConf, canSignDay: int): (n: int)
    ensures n <= canSignDay - 1 && n <= c.repairSignInCount
    ensures n == canSignDay - 1 || n == c.repairSignInCount
  {
    Min(canSignDay - 1, c.repairSignInCount)
  }

  /** Whether today's sign is allowed: configured, stored, not yet signed on
      this day, and below the count. */
  function CheckSignCondition(t: Template, now: int, p: TimePolicy, canSignDay: int): (r: Option<Error>)
    ensures r.None? <==>
      && SignConfOf(t.conf).Some? && SignData(t).Some?
      && IsDifferDay(p, now, SignData(t).value.lastSignTimestamp)
      && SignData(t).value.signedDay < CanSignCount(SignConfOf(t.conf).value, canSignDay)
    ensures SignConfOf(t.conf).None? ==> r == Some(ConfNil)
    ensures SignConfOf(t.conf).Some? && SignData(t).None? ==> r == Some(DbDataNil)
    ensures (SignConfOf(t.conf).Some? && SignData(t).Some? &&
             !IsDifferDay(p, now, SignData(t).value.lastSignTimestamp)) ==> r == Some(TodaySigned)
  {
    if SignConfOf(t.conf).None? then Some(ConfNil)
    else if SignData(t).None? then Some(DbDataNil)
    else if !IsDifferDay(p, now, SignData(t).value.lastSignTimestamp) then Some(TodaySigned)
    else if SignData(t).value.signedDay >= CanSignCount(SignConfOf(t.conf).value, canSignDay) then Some(SignCountLimit)
    else None
  }

  /** Grants the reward of the next day to sign (0-indexed by the number of
      days already signed); past the end of the reward list there is none. */
  function AddSignReward(t: Template, host: Host): (r: (Option<Error>, seq<Effect>))
    ensures SignConfOf(t.conf).None? ==> r == (Some(ConfNil), [])
    ensures SignConfOf(t.conf).Some? && SignData(t).None? ==> r == (Some(DbDataNil), [])
    ensures SignConfOf(t.conf).Some? && SignData(t).Some? ==>
      var list := SignConfOf(t.conf).value.rewardList;
      var day := SignData(t).value.signedDay;
      && (r.0.None? <==> (day < |list| ==> 0 <= day && host(AddReward(list[day]))))
      && (r.1 == if 0 <= day < |list| then [Call(AddReward(list[day]), host(AddReward(list[day])))] else [])
  {
    if SignConfOf(t.conf).None? then (Some(ConfNil), [])
    else if SignData(t).None? then (Some(DbDataNil), [])
    else
      var list := SignConfOf(t.conf).value.rewardList;
      var day := SignData(t).value.signedDay;
      if day >= |list| then (None, [])
      else if day < 0 then (Some(IndexPanic), [])
      else if !host(AddReward(list[day])) then (Some(SignRewardFail), [Call(AddReward(list[day]), false)])
      else (None, [Call(AddReward(list[day]), true)])
  }

  /** Whether some task of a repair rule is still in progress. */
  predicate AnyDoing(tasks: seq<TaskInfo>) {
    exists j :: 0 <= j < |tasks| && tasks[j].state == Doing
  }

  /** The rule a repair must satisfy when `db.signedDay` days are signed: none
      past the end of the rules; an item rule is paid on the spot; a task
      rule needs all its tasks out of `Doing`. */
  function RuleCheck(c: SignInConf, db: SignInDB, host: Host): (r: (Option<Error>, seq<Effect>))
    ensures db.signedDay >= |c.repairRules| ==> r == (None, [])
    ensures 0 <= db.signedDay < |c.repairRules| && c.repairRules[db.signedDay].expend != [] ==>
      var pay := SubCost(c.repairRules[db.signedDay].expend);
      r.1 == [Call(pay, host(pay))] && (r.0.None? <==> host(pay)) && (r.0.Some? ==> r.0 == Some(RepairNotEnoughExpend))
    ensures r.0 == Some(RepairTaskNotFinish) <==>
      && 0 <= db.signedDay < |c.repairRules| && db.signedDay < |db.conditions|
      && c.repairRules[db.signedDay].expend == []
      && c.repairRules[db.signedDay].conditions != []
      && AnyDoing(db.conditions[db.signedDay])
    ensures r.1 != [] ==> 0 <= db.signedDay < |c.repairRules| && c.repairRules[db.signedDay].expend != []
  {
    var day := db.signedDay;
    if day >= |c.repairRules| then (None, [])
    else if day < 0 then (Some(IndexPanic), [])
    else
      var rule := c.repairRules[day];
      if rule.expend != [] then
        if host(SubCost(rule.expend)) then (None, [Call(SubCost(rule.expend), true)])
        else (Some(RepairNotEnoughExpend), [Call(SubCost(rule.expend), false)])
      else if day >= |db.conditions| then (None, [])
      else if rule.conditions != [] && AnyDoing(db.conditions[day]) then (Some(RepairTaskNotFinish), [])
      else (None, [])
  }

  /** Walks every repair rule's conditions against the stored tasks of the
      rule, rule by rule. */
  function VisitRules(rules: seq<RepairRule>, conds: seq<seq<TaskInfo>>, f: TaskVisitor): (r: (seq<seq<TaskInfo>>, bool, seq<Item>))
    decreases |rules|
    ensures |r.0| == |conds|
    ensures forall d {:trigger r.0[d]} :: 0 <= d < |conds| ==>
      r.0[d] == if d < |rules| then VisitAll(rules[d].conditions, conds[d], f).tasks else conds[d]
    ensures r.1 <==> exists d :: 0 <= d < |rules| && d < |conds| && VisitAll(rules[d].conditions, conds[d], f).save
  {
    if |rules| == 0 || |conds| == 0 then (conds, false, [])
    else
      var v := VisitAll(rules[0].conditions, conds[0], f);
      var rest := VisitRules(rules[1..], conds[1..], f);
      assert forall d :: 1 <= d < |rules| && d < |conds| ==>
        rules[d] == rules[1..][d - 1] && conds[d] == conds[1..][d - 1];
      ([v.tasks] + rest.0, v.save || rest.1, v.collected + rest.2)
  }

  /** What the walk of each repair rule collects, rule by rule. */
  function RuleCollected(rules: seq<RepairRule>, conds: seq<seq<TaskInfo>>, f: TaskVisitor): seq<seq<Item>> {
    seq(Min(|rules|, |conds|), d requires 0 <= d < Min(|rules|, |conds|) =>
          VisitAll(rules[d].conditions, conds[d], f).collected)
  }

  /** What the rule walk collects is what the walks of the rules collected,
      rule after rule, each as often as it was collected. */
  lemma {:induction false} VisitRulesCollects(rules: seq<RepairRule>, conds: seq<seq<TaskInfo>>, f: TaskVisitor)
    decreases |rules|
    ensures VisitRules(rules, conds, f).2 == Flat(RuleCollected(rules, conds, f))
    ensures forall x :: x in VisitRules(rules, conds, f).2 <==>
      exists d :: 0 <= d < |rules| && d < |conds| && x in VisitAll(rules[d].conditions, conds[d], f).collected
  {
    var parts := RuleCollected(rules, conds, f);
    if |rules| > 0 && |conds| > 0 {
      VisitRulesCollects(rules[1..], conds[1..], f);
      assert parts[1..] == RuleCollected(rules[1..], conds[1..], f);
      assert VisitRules(rules, conds, f).2
          == VisitAll(rules[0].conditions, conds[0], f).collected + VisitRules(rules[1..], conds[1..], f).2;
    }
    FlatMembers(parts);
    forall x, d | 0 <= d < |rules| && d < |conds| && x in VisitAll(rules[d].conditions, conds[d], f).collected
      ensures x in Flat(parts)
    {
      assert x in parts[d];
    }
  }

  /** Hands every repair-rule condition and its stored task to `f`; saves
      once if any visit asked for it. */
  function RangeTasks(t: Template, f: TaskVisitor): (r: Walk)
    ensures SignConfOf(t.conf).None? || SignData(t).None? ==> r == Walk(t, [], [])
    ensures SignConfOf(t.conf).Some? && SignData(t).Some? ==>
      var rules := SignConfOf(t.conf).value.repairRules;
      var db := SignData(t).value;
      && SignData(r.after).Some?
      && r.after == WithSign(t, db.(conditions := SignData(r.after).value.conditions))
      && |SignData(r.after).value.conditions| == |db.conditions|
      && (forall d :: 0 <= d < |db.conditions| ==>
            SignData(r.after).value.conditions[d] ==
              if d < |rules| then VisitAll(rules[d].conditions, db.conditions[d], f).tasks else db.conditions[d])
      && (r.effects != [] <==>
            exists d :: 0 <= d < |rules| && d < |db.conditions| && VisitAll(rules[d].conditions, db.conditions[d], f).save)
      && (r.effects != [] ==> r.effects == [Save(r.after, Part(r.after))])
      && r.collected == Flat(RuleCollected(rules, db.conditions, f))
      && (forall x :: x in r.collected <==>
            exists d :: 0 <= d < |rules| && d < |db.conditions| && x in VisitAll(rules[d].conditions, db.conditions[d], f).collected)
  {
    if SignConfOf(t.conf).None? || SignData(t).None? then Walk(t, [], [])
    else
      var db := SignData(t).value;
      var v := VisitRules(SignConfOf(t.conf).value.repairRules, db.conditions, f);
      VisitRulesCollects(SignConfOf(t.conf).value.repairRules, db.conditions, f);
      var after := WithSign(t, db.(conditions := v.0));
      assert SignData(after) == Some(db.(conditions := v.0));
      Walk(after, if v.1 then [Save(after, Part(after))] else [], v.2)
  }

  /** A sign that happens on its own at login rather than on request. */
  predicate IsLoginTrigger(t: Template) {
    SignConfOf(t.conf).Some? && !SignConfOf(t.conf).value.triggerCondition
  }
}
