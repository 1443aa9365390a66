/** The process-wide table from template type to constructor. Each template
    kind registers itself when its package loads; an activity builds its
    templates through the table. The constructors form a closed set here. */
module TemplateTable {
  import opened Records
  import opened TemplateBase
  import ShopTemplate
  import TaskTemplate
  import SignCommon

  datatype Ctor = SignCtor | TaskCtor | ShopCtor

  type Table = map<TemplateType, Ctor>

  /** The table once every template kind of the package has registered. */
  const Registered: Table := map[SignInType := SignCtor, ConditionType := TaskCtor, ConsumptionType := ShopCtor]

  /** Stores a constructor under a type, replacing any earlier one. */
  function Register(table: Table, tt: TemplateType, f: Ctor): (r: Table)
    ensures tt in r && r[tt] == f
    ensures forall k :: k != tt ==> (k in r <==> k in table)
    ensures forall k :: k != tt && k in table ==> r[k] == table[k]
  {
    table[tt := f]
  }

  /** Runs a constructor: the argument check, then the kind's initial record
      for a template without stored progress. The sign constructor then
      allocates the claimed-day map through the sign record, which panics
      when there is no sign record. */
  function Construct(f: Ctor, activityId: int, day: int, index: int, conf: Option<TemplateConf>,
                     data: Option<TemplateData>): (r: Fetch<Template>)
    ensures conf.None? ==> r == Absent
    ensures r.Got? ==>
      && r.value.activityId == activityId && r.value.day == day && r.value.index == index
      && Some(r.value.conf) == conf
      && (data.Some? ==> r.value.data == data)
    ensures conf.Some? && f != SignCtor ==> r.Got?
    ensures conf.Some? && f == SignCtor ==>
      (r.Panic? <==> if data.Some? then data.value.sign.None? else SignConfOf(conf.value).None?)
    ensures r.Got? && data.None? && f == ShopCtor ==> r.value.data == Some(ShopTemplate.InitData())
    ensures r.Got? && data.None? && f == TaskCtor ==> r.value.data == TaskTemplate.InitData(conf.value)
    ensures r.Got? && data.None? && f == SignCtor ==> r.value.data == SignCommon.InitData(conf.value)
  {
    if ParameterCheck(conf, true).Some? then Absent
    else
      var base := Template(activityId, day, index, conf.value, data);
      match f
      case ShopCtor => Got(Init(base, Some(ShopTemplate.InitData())))
      case TaskCtor => Got(Init(base, TaskTemplate.InitData(conf.value)))
      case SignCtor =>
        var t := Init(base, SignCommon.InitData(conf.value));
        if SignData(t).None? then Panic else Got(t)
  }

  /** A template for a configuration: none without a configuration or without
      a constructor registered for its type. */
  function NewTemplate(table: Table, activityId: int, day: int, index: int, conf: Option<TemplateConf>,
                       data: Option<TemplateData>): (r: Fetch<Template>)
    ensures conf.None? ==> r == Absent
    ensures conf.Some? && conf.value.templateType !in table ==> r == Absent
    ensures r.Got? ==> conf.Some? && conf.value.templateType in table && r.value.conf == conf.value
  {
    if conf.None? then Absent
    else if conf.value.templateType !in table then Absent
    else Construct(table[conf.value.templateType], activityId, day, index, conf, data)
  }

  /** A registered constructor is the one that builds templates of its type,
      and the latest registration for a type wins. */
  lemma RegisterThenNew(table: Table, tt: TemplateType, f: Ctor, g: Ctor, activityId: int, day: int, index: int,
                        conf: TemplateConf, data: Option<TemplateData>)
    requires conf.templateType == tt
    ensures NewTemplate(Register(table, tt, f), activityId, day, index, Some(conf), data)
         == Construct(f, activityId, day, index, Some(conf), data)
    ensures Register(Register(table, tt, g), tt, f) == Register(table, tt, f)
  {
  }

  /** Every template kind of the package is registered, and nothing else. */
  lemma RegisteredKinds(tt: TemplateType)
    ensures tt in Registered <==> tt == SignInType || tt == ConditionType || tt == ConsumptionType
  {
  }
}
