/** The rows of the rule engine. The Python code stores conditions and
    actions as polymorphic model classes (one base table, one table per
    subclass); here each family is a closed tagged union whose constructors
    are the shipped subclasses, plus a constructor for subclasses written by
    users where the engine calls code it cannot see. */
module Entities {
  import opened Wrappers
  import opened Calendar

  /** A model class of the host application, named as Django's content types
      name it (`app_label`, lower-case `model`). */
  datatype ModelClass = ModelClass(appLabel: string, model: string)

  /** A content-type row. `verboseName` is its model's verbose name;
      `installed` is false for a stale row whose model class is no longer
      loaded, for which `model_class()` returns None. */
  datatype ContentType = ContentType(appLabel: string, model: string, verboseName: string, installed: bool)

  /** One stored instance of a model class. */
  datatype Instance = Instance(model: ModelClass, pk: int)

  /** The three kinds of answer `model_specific()` gives: `False` (generic),
      `True` (needs an instance of any model) or one model class. */
  datatype ModelSpecific = Generic | AnyModel | OnlyModel(model: ModelClass)

  /** The logging levels a logger action may use. */
  datatype Level = DEBUG | INFO | WARNING | ERROR | CRITICAL

  /** The six Django model signals a signal condition may listen to. */
  datatype Signal = PreInit | PostInit | PreSave | PostSave | PreDelete | PostDelete

  /** The stored value of each signal choice, which is also the name of the
      Django signal object. */
  function SignalName(s: Signal): string {
    match s
    case PreInit => "pre_init"
    case PostInit => "post_init"
    case PreSave => "pre_save"
    case PostSave => "post_save"
    case PreDelete => "pre_delete"
    case PostDelete => "post_delete"
  }

  /** A dispatch id (a UUID, as its 128-bit value). */
  datatype Uuid = Uuid(bits: nat)

  /** The action subclasses. `BaseAction` is the base row itself, which
      cannot run. */
  datatype Action =
    | BaseAction
    | LoggerAction(level: Level, message: string)
    | SendTemplatedEmailAction(email: string, subject: string, template: string)

  /** The cron condition subclasses. `BaseCron` is the base row itself;
      `CustomCron` stands for a user subclass, known by its name and by what
      its `model_specific()` returns. */
  datatype CronKind =
    | BaseCron
    | DayOfMonth(day: nat)
    | DayOfWeek(weekday: nat)
    | CustomCron(name: string, specific: ModelSpecific)

  /** A cron condition row: its kind and its nullable `last_executed`, which
      starts out null. */
  datatype CronCondition = CronCondition(kind: CronKind, lastExecuted: Option<DateTime>)

  /** The condition subclasses. */
  datatype Condition =
    | BaseCondition
    | Cron(cron: CronCondition)
    | ModelSignal(signal: Signal, dispatchUid: Uuid)

  /** A rule row. `action` is the reverse side of the action's one-to-one
      link to the rule: None when no action row points at this rule. */
  datatype Rule = Rule(pk: nat, targetContentType: Option<ContentType>, action: Option<Action>)

  /** A record emitted through Python's `logging`. */
  datatype LogRecord = LogRecord(level: Level, message: string)

  /** The observable side effect of one action run. */
  datatype Effect =
    | Logged(record: LogRecord)
    | EmailSent(to: string, subject: string, template: string)

  /** The exceptions the engine's code raises or lets through. */
  datatype Error =
    | NotImplemented(message: string)
    | NoneHasNoObjects
    | DeliveryFailed(to: string)
    | CustomFailed(name: string)
    | TemplatesMissing(path: string)

  /** Django's `str()` of a nullable content type: its model's verbose name,
      the bare `model` field when the model class is not loaded, and `None`
      for a null link. */
  function ContentTypeStr(ct: Option<ContentType>): string {
    match ct
    case None => "None"
    case Some(t) => if t.installed then t.verboseName else t.model
  }
}
