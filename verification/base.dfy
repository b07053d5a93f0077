/** The base classes' behaviour, with the polymorphic dispatch over the
    shipped subclasses: what `model_specific()` answers, what `is_met()` and
    `run_action()` do, and the fixed string forms. */
module Base {
  import opened Wrappers
  import opened Calendar
  import opened Strings
  import opened Entities
  import Dates
  import Misc

  /** `model_specific()` of an action. No shipped action overrides the
      generic default. */
  function ActionModelSpecific(a: Action): (r: ModelSpecific)
    ensures r == Generic
  {
    Generic
  }

  /** `model_specific()` of a condition: the signal condition needs an
      instance of some model; a user cron subclass answers what it declares;
      every other condition keeps the generic default. */
  function ConditionModelSpecific(c: Condition): (r: ModelSpecific)
    ensures c.ModelSignal? ==> r == AnyModel
    ensures c.Cron? && c.cron.kind.CustomCron? ==> r == c.cron.kind.specific
    ensures r != Generic ==> c.ModelSignal? || (c.Cron? && c.cron.kind.CustomCron?)
  {
    match c
    case ModelSignal(_, _) => AnyModel
    case Cron(CronCondition(CustomCron(_, specific), _)) => specific
    case _ => Generic
  }

  /** The evaluator of a user cron subclass: given its name, its
      `last_executed`, the clock and the optional instance, it answers or
      raises. It is code the engine cannot see. */
  type CustomIsMet = (string, Option<DateTime>, DateTime, Option<Instance>) -> Result<bool, Error>

  const CronNotImplemented := NotImplemented("You have to implement 'is_met()' in all actions that inherit from 'BaseCronCondition'")
  const ActionNotImplemented := NotImplemented("You have to implement 'run_action()' in all actions that inherit from 'BaseAction'")

  /** `is_met(instance)` of a cron condition. The base class raises; the date
      conditions answer from the clock and `last_executed` alone. */
  function IsMet(c: CronCondition, now: DateTime, instance: Option<Instance>, custom: CustomIsMet): (r: Result<bool, Error>)
    requires now.date.Valid()
    ensures c.kind.BaseCron? ==> r == Failure(CronNotImplemented)
    ensures c.kind.DayOfMonth? ==> r == Success(Dates.DayOfMonthIsMet(c.kind.day, c.lastExecuted, now))
    ensures c.kind.DayOfWeek? ==> r == Success(Dates.DayOfWeekIsMet(c.kind.weekday, c.lastExecuted, now))
    ensures c.kind.CustomCron? ==> r == custom(c.kind.name, c.lastExecuted, now, instance)
  {
    match c.kind
    case BaseCron => Failure(CronNotImplemented)
    case DayOfMonth(day) => Success(Dates.DayOfMonthIsMet(day, c.lastExecuted, now))
    case DayOfWeek(weekday) => Success(Dates.DayOfWeekIsMet(weekday, c.lastExecuted, now))
    case CustomCron(name, _) => custom(name, c.lastExecuted, now, instance)
  }

  /** The date conditions ignore the instance they are given, and a base or
      date condition never consults the user evaluator. */
  lemma ShippedConditionsIgnoreInstance(c: CronCondition, now: DateTime, i: Option<Instance>, j: Option<Instance>,
                                        custom: CustomIsMet, other: CustomIsMet)
    requires now.date.Valid() && !c.kind.CustomCron?
    ensures IsMet(c, now, i, custom) == IsMet(c, now, j, other)
    ensures IsMet(c, now, i, custom).Success? <==> !c.kind.BaseCron?
  {
  }

  /** `run_action(instance)`. The base class raises; the logger action logs
      and ignores the instance; the e-mail action is delivered unless its
      recipient is in `undeliverable`, where sending raises. */
  function RunAction(a: Action, instance: Option<Instance>, undeliverable: set<string>): (r: Result<Effect, Error>)
    ensures a.BaseAction? <==> r == Failure(ActionNotImplemented)
    ensures a.LoggerAction? ==> r == Success(Logged(LogRecord(a.level, a.message)))
    ensures a.SendTemplatedEmailAction? ==>
              (r.Success? <==> a.email !in undeliverable) &&
              (r.Success? ==> r.value == EmailSent(a.email, a.subject, a.template))
  {
    match a
    case BaseAction => Failure(ActionNotImplemented)
    case LoggerAction(level, message) =>
      var log := Misc.RunLogger(level, message, []);
      Success(Logged(log[0]))
    case SendTemplatedEmailAction(email, subject, template) =>
      if email in undeliverable then Failure(DeliveryFailed(email))
      else Success(EmailSent(email, subject, template))
  }

  /** `str()` of an action. */
  function ActionStr(a: Action): (s: string)
    ensures a.BaseAction? <==> s == "Action"
  {
    match a
    case BaseAction => "Action"
    case LoggerAction(level, message) => Misc.LoggerStr(level, message)
    case SendTemplatedEmailAction(email, _, template) =>
      "Send templated email action (" + email + ": " + template + ")"
  }

  /** `str()` of a condition; a signal condition names its rule's target
      content type. */
  function ConditionStr(c: Condition, ruleTarget: Option<ContentType>): (s: string)
    ensures c.BaseCondition? <==> s == "Condition"
    ensures c.Cron? && !c.cron.kind.DayOfMonth? && !c.cron.kind.DayOfWeek? <==> s == "Cron condition"
    // A signal condition names its signal and its rule's target content type.
    ensures c.ModelSignal? ==>
              && IsPrefix("Model signal condition", s)
              && Contains(s, SignalName(c.signal))
              && Contains(s, ContentTypeStr(ruleTarget))
  {
    match c
    case BaseCondition => "Condition"
    case Cron(CronCondition(BaseCron, _)) => "Cron condition"
    case Cron(CronCondition(DayOfMonth(day), _)) => Dates.DayOfMonthStr(day)
    case Cron(CronCondition(DayOfWeek(weekday), _)) => Dates.DayOfWeekStr(weekday)
    case Cron(CronCondition(CustomCron(_, _), _)) => "Cron condition"
    case ModelSignal(signal, _) => SignalConditionStr(SignalName(signal), ContentTypeStr(ruleTarget))
  }

  /** `str()` of a model signal condition, given its signal's name and its
      rule's target content type as printed. */
  function SignalConditionStr(signalName: string, targetStr: string): (s: string)
    ensures IsPrefix("Model signal condition", s)
    ensures Contains(s, signalName) && Contains(s, targetStr)
  {
    var s := "Model signal condition (" + signalName + " for " + targetStr + ")";
    assert OccursAt(s, signalName, 24);
    assert OccursAt(s, targetStr, 24 + |signalName| + 5);
    s
  }
}
