/** The condition (task) template: a list of configured conditions, one
    stored task per condition, and a reward per finished task. */
module TaskTemplate {
  import opened Records
  import opened TemplateBase

  /** A new record: one task in `Doing` per configured condition; nothing
      without a condition configuration. */
  function InitData(conf: TemplateConf): (r: Option<TemplateData>)
    ensures r.None? <==> TaskConfOf(conf).None?
    ensures r.Some? ==>
      && r.value.sign.None? && r.value.shop.None? && r.value.tasks.Some?
      && |r.value.tasks.value| == |TaskConfOf(conf).value|
      && forall i :: 0 <= i < |r.value.tasks.value| ==> r.value.tasks.value[i] == ZeroTask
  {
    match TaskConfOf(conf)
    case None => None
    case Some(confs) => Some(TemplateData(None, Some(seq(|confs|, _ => ZeroTask)), None))
  }

  /** What the template reports when it saves: its task part only. */
  function Part(t: Template): TemplateData {
    TemplateData(None, TaskData(t), None)
  }

  function WithTasks(t: Template, tasks: seq<TaskInfo>): Template
    requires t.data.Some?
  {
    t.(data := Some(t.data.value.(tasks := Some(tasks))))
  }

  /** The stored task `id`; an index past the end is a miss, a negative one
      panics. */
  function GetTaskInfo(t: Template, id: int): (r: Fetch<TaskInfo>)
    ensures r.Got? <==> TaskData(t).Some? && 0 <= id < |TaskData(t).value|
    ensures r.Got? ==> r.value == TaskData(t).value[id]
    ensures r.Panic? <==> TaskData(t).Some? && id < 0
  {
    match TaskData(t)
    case None => Absent
    case Some(tasks) =>
      if id >= |tasks| then Absent
      else if id < 0 then Panic
      else Got(tasks[id])
  }

  /** Whether task `id` is finished and waits for its reward to be taken. */
  predicate Claimable(t: Template, id: int) {
    && TaskConfOf(t.conf).Some?
    && 0 <= id < |TaskConfOf(t.conf).value|
    && GetTaskInfo(t, id).Got?
    && GetTaskInfo(t, id).value.state == Finish
  }

  /** Takes the reward of a finished task: the host grants the condition's
      rewards, and only then the task moves to `Over`. */
  function FinishTask(t: Template, id: int, host: Host): (r: Step)
    ensures r.err.Some? ==> r.after == t
    ensures TaskConfOf(t.conf).None? ==> r.err == Some(ConfNil)
    ensures TaskConfOf(t.conf).Some? && |TaskConfOf(t.conf).value| == 0 ==> r.err == Some(TaskListNil)
    ensures TaskConfOf(t.conf).Some? && 0 < |TaskConfOf(t.conf).value| <= id ==> r.err == Some(TaskOutOfRange)
    ensures TaskConfOf(t.conf).Some? && 0 < |TaskConfOf(t.conf).value| && id < 0 ==> r.err == Some(IndexPanic)
    ensures r.err.None? <==> Claimable(t, id) && host(AddReward(TaskConfOf(t.conf).value[id].rewards))
    ensures r.err.None? ==>
      var tasks := TaskData(t).value;
      && r.after == WithTasks(t, tasks[id := tasks[id].(state := Over)])
      && r.effects == [Call(AddReward(TaskConfOf(t.conf).value[id].rewards), true), Save(r.after, Part(r.after))]
  {
    match TaskConfOf(t.conf)
    case None => Step(Some(ConfNil), t, [])
    case Some(confs) =>
      if |confs| == 0 then Step(Some(TaskListNil), t, [])
      else if |confs| <= id then Step(Some(TaskOutOfRange), t, [])
      else if id < 0 then Step(Some(IndexPanic), t, [])
      else
        match GetTaskInfo(t, id)
        case Absent => Step(Some(TaskNil), t, [])
        case Panic => Step(Some(IndexPanic), t, [])
        case Got(task) =>
          if task.state != Finish then Step(Some(TaskStatusErr), t, [])
          else if !host(AddReward(confs[id].rewards)) then
            Step(Some(HostRefused(AddReward(confs[id].rewards))), t, [Call(AddReward(confs[id].rewards), false)])
          else
            var tasks := TaskData(t).value;
            var after := WithTasks(t, tasks[id := task.(state := Over)]);
            Step(None, after, [Call(AddReward(confs[id].rewards), true), Save(after, Part(after))])
  }

  /** Hands every configured condition and its stored task to `f`; the
      template saves once if any visit asked for it. */
  function RangeTasks(t: Template, f: TaskVisitor): (r: Walk)
    ensures TaskConfOf(t.conf).None? || TaskData(t).None? ==> r == Walk(t, [], [])
    ensures TaskConfOf(t.conf).Some? && TaskData(t).Some? ==>
      var confs := TaskConfOf(t.conf).value;
      var tasks := TaskData(t).value;
      && r.after.data.Some? && TaskData(r.after).Some?
      && r.after == WithTasks(t, TaskData(r.after).value)
      && |TaskData(r.after).value| == |tasks|
      && (forall i :: 0 <= i < |tasks| ==>
            TaskData(r.after).value[i] == if i < |confs| then f(confs[i], tasks[i]).task else tasks[i])
      && (r.effects != [] <==> exists i :: 0 <= i < |confs| && i < |tasks| && f(confs[i], tasks[i]).save)
      && (r.effects != [] ==> r.effects == [Save(r.after, Part(r.after))])
      && r.collected == Flat(Collected(confs, tasks, f))
      && (forall x :: x in r.collected <==>
            exists i :: 0 <= i < |confs| && i < |tasks| && x in f(confs[i], tasks[i]).collected)
  {
    if TaskConfOf(t.conf).None? || TaskData(t).None? then Walk(t, [], [])
    else
      var v := VisitAll(TaskConfOf(t.conf).value, TaskData(t).value, f);
      VisitAllCollects(TaskConfOf(t.conf).value, TaskData(t).value, f);
      var after := WithTasks(t, v.tasks);
      assert TaskData(after) == Some(v.tasks);
      Walk(after, if v.save then [Save(after, Part(after))] else [], v.collected)
  }

  /** The rewards each task gives when it is finished, task by task. */
  function FinishedParts(confs: seq<Condition>, tasks: seq<TaskInfo>): seq<seq<Item>> {
    seq(Min(|confs|, |tasks|), i requires 0 <= i < Min(|confs|, |tasks|) =>
          if tasks[i].state == Finish then confs[i].rewards else [])
  }

  /** The rewards of every finished task, in task order, each task's rewards
      once. */
  function FinishedRewards(confs: seq<Condition>, tasks: seq<TaskInfo>): (r: seq<Item>)
    decreases |tasks|
    ensures r == Flat(FinishedParts(confs, tasks))
  {
    if |tasks| == 0 || |confs| == 0 then []
    else
      var rest := FinishedRewards(confs[1..], tasks[1..]);
      assert FinishedParts(confs, tasks)[1..] == FinishedParts(confs[1..], tasks[1..]);
      (if tasks[0].state == Finish then confs[0].rewards else []) + rest
  }

  /** The rewards of the claimable tasks, task by task over the configured
      conditions. */
  function ClaimableParts(t: Template): seq<seq<Item>> {
    if TaskConfOf(t.conf).None? then []
    else
      var confs := TaskConfOf(t.conf).value;
      seq(|confs|, i requires 0 <= i < |confs| => if Claimable(t, i) then confs[i].rewards else [])
  }

  /** Everything the player could still take from this template: the rewards
      of the claimable tasks in task order, each task's rewards once. */
  function CanReceiveReward(t: Template): (r: seq<Item>)
    ensures r == Flat(ClaimableParts(t))
    ensures forall x :: x in r <==> exists i :: Claimable(t, i) && x in TaskConfOf(t.conf).value[i].rewards
  {
    var parts := ClaimableParts(t);
    var r := if TaskData(t).None? || TaskConfOf(t.conf).None? then []
             else FinishedRewards(TaskConfOf(t.conf).value, TaskData(t).value);
    assert r == Flat(parts) by {
      if TaskConfOf(t.conf).None? {
      } else if TaskData(t).None? {
        FlatOfEmpties(parts);
      } else {
        var confs := TaskConfOf(t.conf).value;
        var tasks := TaskData(t).value;
        var n := Min(|confs|, |tasks|);
        assert parts == FinishedParts(confs, tasks) + parts[n..];
        FlatAppend(FinishedParts(confs, tasks), parts[n..]);
        FlatOfEmpties(parts[n..]);
      }
    }
    FlatMembers(parts);
    assert forall i :: Claimable(t, i) ==> parts[i] == TaskConfOf(t.conf).value[i].rewards;
    r
  }

  /** A reward is taken once: right after it, the same task is refused with a
      status error, and no other task changed. */
  lemma FinishTaskIsOneShot(t: Template, id: int, host: Host)
    requires FinishTask(t, id, host).err.None?
    ensures var after := FinishTask(t, id, host).after;
      && FinishTask(after, id, host) == Step(Some(TaskStatusErr), after, [])
      && !Claimable(after, id)
      && forall i :: i != id ==> (Claimable(after, i) <==> Claimable(t, i))
  {
    var after := FinishTask(t, id, host).after;
    assert GetTaskInfo(after, id) == Got(TaskData(t).value[id].(state := Over));
    forall i | i != id
      ensures Claimable(after, i) <==> Claimable(t, i)
    {
      assert GetTaskInfo(after, i).Got? <==> GetTaskInfo(t, i).Got?;
      if GetTaskInfo(t, i).Got? {
        assert GetTaskInfo(after, i).value == GetTaskInfo(t, i).value;
      }
    }
  }
}
