/** The messages the activity engine reads and writes (the protobuf types of
    the original), the errors it returns, and the effects it has on the host.
    Message fields that Go may leave nil become `Option`; repeated fields become
    sequences, and a nil repeated field is the empty sequence. */
module Records {

  datatype Option<+T> = None | Some(value: T)

  /** A value or the error that prevented it. */
  datatype Result<+T> = Ok(value: T) | Err(error: Error)

  /** A lookup into a Go slice or map: a hit, a miss the code handles, or an
      index the code does not guard, which panics at run time. */
  datatype Fetch<+T> = Got(value: T) | Absent | Panic

  /** The errors of the engine. `IndexPanic` stands for a Go run-time panic
      (slice index out of range, method call on a nil interface). */
  datatype Error =
    | ActivityNotExist | TemplateNotExist | SignTriggerError
    | ConfNil | DbDataNil | IndexPanic
    | GoodsNotExist | GoodsLimit
    | TaskListNil | TaskOutOfRange | TaskNil | TaskStatusErr
    | TodaySigned | SignCountLimit | NotSigned | SignRewardGot
    | SignAddRewardFail | SignRewardFail
    | RepairCountLimit | EveryDayRepairCountLimit | RepairNotEnoughExpend
    | RepairTaskNotFinish | RepairSignCondition
    | ScoreSystemNil | ScoreIndexOut | ScoreIndexGot
    | PreConditionUnmet | NotOpenTime
    | HostRefused(call: HostCall)

  datatype Item = Item(id: int, num: int)

  /** A call into the player object the host supplies. */
  datatype HostCall =
    | CheckCost(items: seq<Item>)
    | SubCost(items: seq<Item>)
    | AddReward(items: seq<Item>)
    | SendMail(items: seq<Item>)

  /** Whether the host accepts a call: the success/failure oracle. */
  type Host = HostCall -> bool

  datatype DataCmd = DataAdd | DataDelete | DataUpdate

  datatype TaskState = Doing | Finish | Over

  /** One task's progress; the zero value is a task in `Doing`. */
  datatype TaskInfo = TaskInfo(state: TaskState, progress: int)

  const ZeroTask := TaskInfo(Doing, 0)

  datatype RefreshType = NoRefresh | RefreshDay | RefreshWeek | RefreshMonth

  /** A configured condition: how it refreshes and what it rewards. */
  datatype Condition = Condition(refresh: RefreshType, rewards: seq<Item>)

  datatype TemplateType = SignInType | ConditionType | ConsumptionType | OtherTemplate(code: int)

  /** One repair (retroactive sign) rule: an item cost or a task list. */
  datatype RepairRule = RepairRule(expend: seq<Item>, conditions: seq<Condition>)

  datatype SignInConf = SignInConf(
    signInCount: int,
    repairSignInCount: int,
    everyDayRepairSignInCount: int,
    triggerCondition: bool,
    rewardList: seq<seq<Item>>,
    repairRules: seq<RepairRule>)

  datatype Goods = Goods(isLimit: bool, limitCount: int, discount: int, expend: seq<Item>, goods: seq<Item>)

  /** The one-of body of a template configuration. */
  datatype TemplateBody =
    | SignInBody(sign: SignInConf)
    | ConditionBody(tasks: seq<Condition>)
    | ConsumptionBody(sellGoods: seq<Goods>)
    | NoBody

  datatype TemplateConf = TemplateConf(templateType: TemplateType, body: TemplateBody)

  function SignConfOf(c: TemplateConf): Option<SignInConf> {
    if c.body.SignInBody? then Some(c.body.sign) else None
  }

  function TaskConfOf(c: TemplateConf): Option<seq<Condition>> {
    if c.body.ConditionBody? then Some(c.body.tasks) else None
  }

  function ShopConfOf(c: TemplateConf): Option<seq<Goods>> {
    if c.body.ConsumptionBody? then Some(c.body.sellGoods) else None
  }

  /** Sign-in progress; `conditions[d]` holds the repair tasks of rule `d`. */
  datatype SignInDB = SignInDB(
    signedDay: int,
    lastSignTimestamp: int,
    repairCount: int,
    everyDayRepairCount: int,
    gots: set<int>,
    conditions: seq<seq<TaskInfo>>)

  /** Purchase counters of a shop; `None` where Go holds a nil map, which a
      record restored from storage has when nothing was bought yet. */
  datatype ShopDB = ShopDB(buyCounts: Option<map<int, int>>)

  /** A template's stored progress; each variant fills one part. */
  datatype TemplateData = TemplateData(
    sign: Option<SignInDB>,
    tasks: Option<seq<TaskInfo>>,
    shop: Option<ShopDB>)

  datatype TimeType = OpenServerTime | RegisterTime | AbsoluteTime | UnknownTime(code: int)

  datatype ScoreInfo = ScoreInfo(score: Item, reward: seq<Item>)

  /** An operator-configured activity. */
  datatype OperateActivity = OperateActivity(
    id: int,
    timeType: TimeType,
    predictionTime: int,
    startTime: int,
    endTime: int,
    closeDuration: int,
    servers: seq<int>,
    channels: seq<int>,
    isNested: bool,
    needPreCondAllFinished: bool,
    preCondition: seq<Condition>,
    scoreSystem: seq<ScoreInfo>,
    activityList: map<int, seq<TemplateConf>>)

  /** One player's progress in one activity: day -> index -> template data.
      `gotScores` is `None` where Go holds a nil map. */
  datatype ActivityDB = ActivityDB(
    activityId: int,
    lists: map<int, map<int, Option<TemplateData>>>,
    gotScores: Option<set<int>>,
    preTaskInfos: seq<TaskInfo>)

  /** What an operation does outside its own state, in order. */
  datatype Effect =
    | Call(call: HostCall, ok: bool)
    | Notify(activityId: int, cmd: DataCmd, diff: Option<ActivityDB>)

  /** Go's integer division, which truncates toward zero. */
  function TruncDiv(a: int, d: int): (q: int)
    requires d > 0
    ensures a >= 0 ==> q >= 0 && q * d <= a < q * d + d
    ensures a < 0 ==> q <= 0 && q * d - d < a <= q * d
  {
    if a >= 0 then a / d else -((-a) / d)
  }

  /** Go's `math.Min` on two counters. */
  function Min(a: int, b: int): (m: int)
    ensures m <= a && m <= b
    ensures m == a || m == b
  {
    if a < b then a else b
  }

  /** Which reading of the code runs: the code as it is written, or the code
      with the defects listed under Findings corrected. Operations whose
      outcome differs between the two take the reading as a parameter. */
  datatype Variant = AsWritten | Corrected

  /** Item lists one after another, the way repeated `append(items, xs...)`
      builds a reward list. */
  function Flat(xss: seq<seq<Item>>): seq<Item>
    decreases |xss|
  {
    if |xss| == 0 then [] else xss[0] + Flat(xss[1..])
  }

  /** Flattening distributes over concatenation. */
  lemma {:induction false} FlatAppend(a: seq<seq<Item>>, b: seq<seq<Item>>)
    decreases |a|
    ensures Flat(a + b) == Flat(a) + Flat(b)
  {
    if |a| == 0 {
      assert a + b == b;
    } else {
      assert (a + b)[1..] == a[1..] + b;
      FlatAppend(a[1..], b);
    }
  }

  /** An item is in the flattening exactly when it is in one of the lists. */
  lemma {:induction false} FlatMembers(xss: seq<seq<Item>>)
    decreases |xss|
    ensures forall x :: x in Flat(xss) <==> exists i :: 0 <= i < |xss| && x in xss[i]
  {
    if |xss| > 0 {
      FlatMembers(xss[1..]);
      forall x | x in Flat(xss[1..])
        ensures exists i :: 0 <= i < |xss| && x in xss[i]
      {
        var i :| 0 <= i < |xss[1..]| && x in xss[1..][i];
        assert xss[i + 1] == xss[1..][i];
      }
      forall x, i | 0 <= i < |xss| && x in xss[i]
        ensures x in Flat(xss)
      {
        if i > 0 {
          assert xss[1..][i - 1] == xss[i];
        }
      }
    }
  }

  /** Lists that are all empty flatten to nothing. */
  lemma {:induction false} FlatOfEmpties(xss: seq<seq<Item>>)
    requires forall i :: 0 <= i < |xss| ==> xss[i] == []
    decreases |xss|
    ensures Flat(xss) == []
  {
    if |xss| > 0 {
      FlatOfEmpties(xss[1..]);
    }
  }

  /** A host call that the oracle answered. */
  function Answer(host: Host, c: HostCall): Effect {
    Call(c, host(c))
  }
}
