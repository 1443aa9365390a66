/** What every activity template shares: its place in the activity (day and
    index), its configuration, its stored progress, the way it reports a
    change of that progress, and the walk over a list of tasks that the
    condition and sign templates both perform. */
module TemplateBase {
  import opened Records

  /** A template instance. `data` aliases the activity's stored record for
      (`day`, `index`); `activityId` is the owning activity's id. */
  datatype Template = Template(
    activityId: int,
    day: int,
    index: int,
    conf: TemplateConf,
    data: Option<TemplateData>)

  /** The outcome of a template command: the error it returned (if any), the
      template afterwards and the effects, in order. */
  datatype Step = Step(err: Option<Error>, after: Template, effects: seq<Effect>)

  /** A task visitor's answer for one task: whether it changed something that
      needs saving, the task afterwards, and items it collected on the way. */
  datatype Visit = Visit(save: bool, task: TaskInfo, collected: seq<Item>)

  type TaskVisitor = (Condition, TaskInfo) -> Visit

  datatype Visited = Visited(tasks: seq<TaskInfo>, save: bool, collected: seq<Item>)

  /** The outcome of walking a template's tasks: the template afterwards, its
      save notification (if any) and what the visitor collected. */
  datatype Walk = Walk(after: Template, effects: seq<Effect>, collected: seq<Item>)

  function TypeOf(t: Template): TemplateType {
    t.conf.templateType
  }

  function SignData(t: Template): Option<SignInDB> {
    if t.data.Some? then t.data.value.sign else None
  }

  function TaskData(t: Template): Option<seq<TaskInfo>> {
    if t.data.Some? then t.data.value.tasks else None
  }

  function ShopData(t: Template): Option<ShopDB> {
    if t.data.Some? then t.data.value.shop else None
  }

  /** A constructor's argument check: a configuration and an owning activity
      must both be present. */
  function ParameterCheck(conf: Option<TemplateConf>, activityPresent: bool): (r: Option<Error>)
    ensures r.None? <==> conf.Some? && activityPresent
    ensures conf.None? ==> r == Some(ConfNil)
  {
    if conf.None? then Some(ConfNil)
    else if !activityPresent then Some(ActivityNotExist)
    else None
  }

  /** A new template: stored progress is kept as it is; only a template
      without any receives the variant's initial record. */
  function Init(t: Template, initial: Option<TemplateData>): (r: Template)
    ensures r.activityId == t.activityId && r.day == t.day && r.index == t.index && r.conf == t.conf
    ensures t.data.Some? ==> r.data == t.data
    ensures t.data.None? ==> r.data == initial
  {
    if t.data.None? then t.(data := initial) else t
  }

  /** The partial activity record a template reports after a change: only its
      own (day, index) slot, holding `part`. */
  function UpdateDiff(t: Template, part: TemplateData): (d: ActivityDB)
    ensures d.activityId == t.activityId
    ensures d.lists.Keys == {t.day}
    ensures d.lists[t.day].Keys == {t.index} && d.lists[t.day][t.index] == Some(part)
    ensures d.gotScores.None? && d.preTaskInfos == []
  {
    ActivityDB(t.activityId, map[t.day := map[t.index := Some(part)]], None, [])
  }

  /** The update notification for a template's change. */
  function Save(t: Template, part: TemplateData): Effect {
    Notify(t.activityId, DataUpdate, Some(UpdateDiff(t, part)))
  }

  /** Walks configured conditions against stored tasks in index order,
      skipping indexes past the end of the stored list: each visited task is
      replaced by the visitor's version, and the walk asks for a save when
      any visit did. */
  function VisitAll(confs: seq<Condition>, tasks: seq<TaskInfo>, f: TaskVisitor): (r: Visited)
    decreases |confs|
    ensures |r.tasks| == |tasks|
    ensures forall i {:trigger r.tasks[i]} :: 0 <= i < |tasks| ==>
      r.tasks[i] == (if i < |confs| then f(confs[i], tasks[i]).task else tasks[i])
    ensures r.save <==> exists i :: 0 <= i < |confs| && i < |tasks| && f(confs[i], tasks[i]).save
  {
    if |confs| == 0 || |tasks| == 0 then Visited(tasks, false, [])
    else
      var v := f(confs[0], tasks[0]);
      var rest := VisitAll(confs[1..], tasks[1..], f);
      assert forall i :: 1 <= i < |confs| && i < |tasks| ==>
        confs[i] == confs[1..][i - 1] && tasks[i] == tasks[1..][i - 1];
      Visited([v.task] + rest.tasks, v.save || rest.save, v.collected + rest.collected)
  }

  /** What each visit of a walk collects, task by task. */
  function Collected(confs: seq<Condition>, tasks: seq<TaskInfo>, f: TaskVisitor): seq<seq<Item>> {
    seq(Min(|confs|, |tasks|), i requires 0 <= i < Min(|confs|, |tasks|) => f(confs[i], tasks[i]).collected)
  }

  /** What a walk collects is what its visits collected, one visit after
      another in task order, each as often as it was collected. */
  lemma {:induction false} VisitAllCollects(confs: seq<Condition>, tasks: seq<TaskInfo>, f: TaskVisitor)
    decreases |confs|
    ensures VisitAll(confs, tasks, f).collected == Flat(Collected(confs, tasks, f))
    ensures forall x :: x in VisitAll(confs, tasks, f).collected <==>
      exists i :: 0 <= i < |confs| && i < |tasks| && x in f(confs[i], tasks[i]).collected
  {
    var parts := Collected(confs, tasks, f);
    if |confs| > 0 && |tasks| > 0 {
      VisitAllCollects(confs[1..], tasks[1..], f);
      assert parts[1..] == Collected(confs[1..], tasks[1..], f);
    }
    FlatMembers(parts);
    forall x, i | 0 <= i < |confs| && i < |tasks| && x in f(confs[i], tasks[i]).collected
      ensures x in Flat(parts)
    {
      assert x in parts[i];
    }
  }
}
