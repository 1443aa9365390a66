/** The time resolver: an activity's time mode plus the player's registration
    time (or the area's server-open time) give four concrete instants. */
module ActivityTime {
  import opened Records

  datatype Times = Times(prediction: int, start: int, close: int, end: int)

  datatype TimeField = Prediction | Start | Close | End

  function FieldOf(t: Times, f: TimeField): int {
    match f
    case Prediction => t.prediction
    case Start => t.start
    case Close => t.close
    case End => t.end
  }

  /** The four raw fields of a configuration; the close instant is read from
      the `closeDuration` field in every mode. */
  function RawTimes(c: OperateActivity): Times {
    Times(c.predictionTime, c.startTime, c.closeDuration, c.endTime)
  }

  /** Every instant of `t` moved by the same offset. */
  function Moved(t: Times, offset: int): (r: Times)
    ensures forall f :: FieldOf(r, f) == FieldOf(t, f) + offset
  {
    Times(t.prediction + offset, t.start + offset, t.close + offset, t.end + offset)
  }

  /** The resolver for a configuration; `areaOpenTime` is what the host's
      server-open lookup answers for the player's area. An unknown mode has no
      resolver. */
  function NewActivityTime(c: OperateActivity, registerTime: int, areaOpenTime: int): (r: Option<Times>)
    ensures r.None? <==> c.timeType.UnknownTime?
    ensures c.timeType == AbsoluteTime ==> r == Some(RawTimes(c))
    ensures c.timeType == RegisterTime ==> r == Some(Moved(RawTimes(c), registerTime))
    ensures c.timeType == OpenServerTime ==> r == Some(Moved(RawTimes(c), areaOpenTime))
  {
    match c.timeType
    case OpenServerTime =>
      Some(Times(c.predictionTime + areaOpenTime, c.startTime + areaOpenTime,
                 c.closeDuration + areaOpenTime, c.endTime + areaOpenTime))
    case RegisterTime =>
      Some(Times(c.predictionTime + registerTime, c.startTime + registerTime,
                 c.closeDuration + registerTime, c.endTime + registerTime))
    case AbsoluteTime =>
      Some(Times(c.predictionTime, c.startTime, c.closeDuration, c.endTime))
    case UnknownTime(_) => None
  }

  /** The offset each mode adds to the raw fields. */
  function ModeOffset(c: OperateActivity, registerTime: int, areaOpenTime: int): int {
    match c.timeType
    case RegisterTime => registerTime
    case OpenServerTime => areaOpenTime
    case _ => 0
  }

  /** Resolution moves all four instants by one offset, so the close instant
      comes from `closeDuration` and any order between two raw fields holds
      between the resolved ones, with the same distance. */
  lemma ResolutionPreservesOrder(c: OperateActivity, registerTime: int, areaOpenTime: int, f: TimeField, g: TimeField)
    requires !c.timeType.UnknownTime?
    ensures var r := NewActivityTime(c, registerTime, areaOpenTime).value;
      && r.close == c.closeDuration + ModeOffset(c, registerTime, areaOpenTime)
      && FieldOf(r, f) - FieldOf(r, g) == FieldOf(RawTimes(c), f) - FieldOf(RawTimes(c), g)
      && (FieldOf(r, f) <= FieldOf(r, g) <==> FieldOf(RawTimes(c), f) <= FieldOf(RawTimes(c), g))
  {
  }
}
