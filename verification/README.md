# django-conditioner rule engine, modelled in Dafny

django-conditioner lets a site administrator write rules of the form
"when *condition* holds for *target model*, run *action*". A rule has an
optional target content type. At most one condition and at most one action
are linked to it. Conditions come in two families:

- **Cron conditions** are checked by the `run_cron_conditions` management
  command. Two ship with the engine: day of month and day of week. Users may
  subclass the base class with their own.
- **Model signal conditions** subscribe the rule's action to one of Django's
  model signals for the target model.

Actions are a logger action and a templated e-mail action.

The model is pure: every operation is a function (one loop is a method) over
immutable datatypes. The modules follow the package layout:

| module | models |
|---|---|
| `Wrappers` | `Option` and `Result` |
| `Strings` | the Python string operations the code relies on: prefix and suffix tests, `find`, `rfind`, `str.replace`, ASCII lower-casing, `str(int)` |
| `Calendar` | proleptic Gregorian dates, Python's ordinal and `isoweekday()` |
| `Entities` | the rows: content types, model classes, instances, the action, condition and rule kinds, log records, effects, errors |
| `Base` | `model_specific()`, `is_met()`, `run_action()` and `__str__` of the base classes, with dispatch over the shipped subclasses |
| `Dates` | `DayOfMonthCondition` and `DayOfWeekCondition` |
| `Misc` | `LoggerAction` |
| `Rules` | `Rule.target_model` and `Rule.__str__` |
| `Signals` | `ModelSignalCondition` over a signal bus |
| `Apps` | `ConditionerAppConfig.ready()` |
| `CronCommand` | the cron command's `handle()` as a fold over the stored cron conditions |
| `Templates` | `get_available_templates` |
| `Admin` | the inline filter `get_formset_children` and the target choices of `formfield_for_foreignkey` |

Inputs that the code reads from the environment are passed in as parameters:

- the clock (`timezone.now()`);
- the stored rows and instances;
- the recipients whose e-mail delivery raises;
- the evaluator of a user cron subclass;
- the result of `os.path.isfile` on the `.html` counterpart of a template;
- whether a database write succeeds.

The signal bus is a map from `(signal, sender, dispatch_uid)` to the
receiver, i.e. the rule's action. Connecting inserts only when the key is
absent, because Django's `Signal.connect` keeps the first registration for a
lookup key. Disconnecting removes the key.

## Model

| member | source | states |
|---|---|---|
| Base.ActionModelSpecific | conditioner/base.py:21-28 | no shipped action is model specific: every action answers the generic default |
| Base.ConditionModelSpecific | conditioner/base.py:54-60 | a signal condition needs some model instance, a user cron subclass answers what it declares, and every other condition is generic |
| Base.IsMet | conditioner/base.py:78-84 | the base cron condition raises NotImplementedError; a day-of-month or day-of-week condition answers by its date rule; a user subclass answers through its own evaluator |
| Base.ShippedConditionsIgnoreInstance | conditioner/conditions/dates.py:27-35 | the shipped date conditions give the same answer whatever instance they are passed, and only the base class fails |
| Base.RunAction | conditioner/base.py:30-36 | the base action raises NotImplementedError; the logger action emits its level and message; the e-mail action sends to its recipient with its subject and template exactly when delivery does not raise |
| Base.ActionStr | conditioner/base.py:38-39 | the base action prints as "Action", and no subclass prints as that |
| Base.ConditionStr | conditioner/base.py:86-87 | the base condition prints as "Condition"; a cron condition prints as "Cron condition" exactly when it is neither of the two date conditions |
| Base.SignalConditionStr | conditioner/conditions/signals.py:88-89 | a model signal condition prints as "Model signal condition …" containing its signal's name and its rule's target content type; `ConditionStr` prints a signal condition this way |
| Calendar.NextDayWeekday | conditioner/conditions/dates.py:72 | the ISO weekday `is_met` compares against moves cyclically from Monday=1 to Sunday=7 as the date advances one day |
| Dates.DayOfMonthOnlyOnItsDay | conditioner/conditions/dates.py:27-35 | the condition holds only on its day of the month, so a day beyond the month's length (or 0) never fires that month |
| Dates.DayOfMonthOncePerDay | conditioner/conditions/dates.py:32 | on its day, the condition holds exactly when it did not already run that date |
| Dates.DayOfWeekOnlyOnItsWeekday | conditioner/conditions/dates.py:67-75 | the condition holds only on its ISO weekday; a weekday outside 1..7 never fires |
| Dates.DayOfWeekOncePerDay | conditioner/conditions/dates.py:72 | on its weekday, the condition holds exactly when it did not already run that date |
| Dates.DayOfMonthScenario | conditioner/tests/conditions/test_dates.py:53-78 | the day-2 condition over January and February 2016: wrong day, right day, already run today, wrong day, right day again |
| Dates.DayOfWeekScenario | conditioner/tests/conditions/test_dates.py:114-139 | the weekday-7 condition over January 2007 (the 1st is a Monday): it fires on Sundays, once per date |
| Dates.WeekdayChoiceLabelSwapsWeekend | conditioner/conditions/dates.py:48-56 | the labels as written call ISO weekday 6 "Sunday" and 7 "Saturday": Friday 5 January 2007 is followed by a day labelled "Sunday", and Sunday 7 January by "Saturday" |
| Dates.IsoWeekdayName | conditioner/conditions/dates.py:47-56 | the corrected labels agree with the written ones on Monday to Friday and outside 1..7 |
| Dates.IsoWeekdayNameFollowsCalendar | conditioner/conditions/dates.py:47-56 | with the corrected labels, the name of the next day's ISO weekday is always the next name in the week |
| Dates.DayOfMonthStr | conditioner/conditions/dates.py:37-38 | the string names the condition kind and contains the day's decimal digits |
| Dates.DayOfWeekStr | conditioner/conditions/dates.py:77-78 | the string names the condition kind and contains the weekday's display label as the choices table gives it, so weekday 6 shows "Sunday" and 7 shows "Saturday" (see Findings) |
| Misc.ParseLevel | conditioner/actions/misc.py:20-31 | a stored level string decodes only to a level that prints back as that string |
| Misc.LevelChoicesRoundTrip | conditioner/actions/misc.py:20-31 | every level decodes back from its name, and exactly the five level names decode |
| Misc.LoggerMethod | conditioner/actions/misc.py:50 | the logger method used is the lower-cased level name |
| Misc.MethodLevel | conditioner/actions/misc.py:50-51 | a logger method name records at the level whose lower-cased name it is; `RunLogger` records through the method its level names |
| Misc.RunLogger | conditioner/actions/misc.py:46-51 | with the logger enabled for the level, running the action appends exactly one record, with the action's level and message, and leaves earlier records alone |
| Misc.LoggerStr | conditioner/actions/misc.py:53-54 | the string contains the level and the first 20 characters of the message, and nothing more of it |
| Rules.TargetModel | conditioner/models.py:28-31 | the target model is absent exactly when the rule has no target content type or its model is not loaded; otherwise it is that content type's model |
| Rules.RuleStr | conditioner/models.py:33-37 | with both an action and a condition linked, the string starts "Do '" and names the action, the target model and the condition; otherwise it is "Rule for" followed by the target content type |
| Rules.Linked | conditioner/models.py:35 | the linked form contains its three parts |
| Rules.Unlinked | conditioner/models.py:37 | the unlinked form ends with the content type and can never be mistaken for the linked form |
| Signals.ParseSignal | conditioner/conditions/signals.py:18-37 | a stored signal name decodes only to the signal it names |
| Signals.SignalChoicesRoundTrip | conditioner/conditions/signals.py:18-37 | every signal decodes back from its name, and exactly the six signal names decode |
| Signals.ConnectSignal | conditioner/conditions/signals.py:61-73 | without a linked action nothing changes; with one, the condition's key is subscribed and every existing subscription is kept |
| Signals.DisconnectSignal | conditioner/conditions/signals.py:75-86 | without a linked action nothing changes; with one, exactly the condition's key is removed |
| Signals.Save | conditioner/conditions/signals.py:91-97 | an unsaved condition leaves exactly the bus that connecting it gives, even when the database write then fails; a stored one leaves the bus alone; no key other than its own is added; a successful first write assigns the primary key |
| Signals.Delete | conditioner/conditions/signals.py:99-105 | the condition disconnects only after a successful delete of a stored row; a failed delete leaves the subscription in place |
| Signals.ConnectedConditionHears | conditioner/conditions/signals.py:61-73 | a connected condition's receiver runs for its own signal from its target model, and not for another model or another signal |
| Signals.UntargetedConditionHearsEveryModel | conditioner/conditions/signals.py:68-72 | a condition whose rule has no target model is connected with no sender, and so hears its signal from every model |
| Signals.DisconnectedConditionIsDeaf | conditioner/conditions/signals.py:75-86 | after disconnecting, the condition hears nothing |
| Signals.ReconnectChangesNothing | conditioner/conditions/signals.py:68-73 | connecting twice is connecting once |
| Signals.DisconnectUndoesConnect | conditioner/conditions/signals.py:61-86 | disconnecting a condition just connected to a bus that did not hold its key gives back that bus |
| Signals.SaveThenDeleteRestoresBus | conditioner/conditions/signals.py:91-105 | creating a condition and then deleting it leaves the bus as it was |
| Signals.FailedWritesKeepSubscription | conditioner/conditions/signals.py:91-105 | a first save whose write fails still leaves the condition subscribed, and a failed delete does not unsubscribe it |
| Signals.ResaveKeepsOldReceiver | conditioner/conditions/signals.py:95-96 | saving an already stored condition does not reconnect, so an edited action is not picked up |
| Apps.Reached | conditioner/apps.py:21-25 | the start-up pass covers every stored condition unless the database raises part-way |
| Apps.Ready | conditioner/apps.py:21-25 | every condition reached, if it has an action, is subscribed afterwards; existing subscriptions are kept; every new one belongs to a condition reached |
| CronCommand.ScanInstances | conditioner/management/commands/run_cron_conditions.py:34-43 | the action runs with exactly the met instances, in their order, where "met" is judged before the first run against the stored condition and afterwards against the stamped one; an exception leaves a prefix of them run (which prefix, and which exception, `ScanInstancesRaises` states); one success line per run; the condition is stamped with the clock exactly when something ran |
| CronCommand.ScanInstancesCompletes | conditioner/management/commands/run_cron_conditions.py:34-43 | when no evaluation and no action raises, the loop runs every met instance |
| CronCommand.ScanInstancesRaises | conditioner/management/commands/run_cron_conditions.py:34-43 | the branch raises exactly when some instance's `is_met()` raises, or it is met and the action raises with it; the exception is the first such instance's, and the action has run with exactly the instances before it that were met, under the stored condition until the first run and the stamped one after |
| CronCommand.ProcessRow | conditioner/management/commands/run_cron_conditions.py:14-43 | a rule without an action writes one warning line and runs nothing; a generic condition runs at most once, on a met evaluation, and writes one success line exactly when it ran and nothing otherwise; an exception from `is_met()` or from the action is the step's exception; only the rule's own action runs |
| CronCommand.StepRow | conditioner/management/commands/run_cron_conditions.py:11-43 | a condition without a rule is skipped untouched; a condition changes only by a new `last_executed`, and only when its action ran |
| CronCommand.FirstFailing | conditioner/management/commands/run_cron_conditions.py:13-43 | the position of the first condition whose step raises: every earlier step completes |
| CronCommand.ScanRows | conditioner/management/commands/run_cron_conditions.py:13-43 | each condition up to the first whose step raises becomes what its own step made of it, later ones are not visited, the exception is that step's, and the runs and the lines written are those steps' runs and lines in order; every condition keeps its rule and kind and changes only by a new `last_executed`; one success line per action run; if nothing ran, nothing changed |
| CronCommand.Handle | conditioner/management/commands/run_cron_conditions.py:10-45 | the pass stores, runs and writes what the loop over the conditions does, step by step up to the first exception, followed by "All done!" when no step raised; it ends with "All done!" exactly when no step raised, and that line is written nowhere else; one success line is written per action run |
| CronCommand.StepInvocationsInclude | conditioner/management/commands/run_cron_conditions.py:13-43 | every run of a visited step is among the pass's runs |
| CronCommand.StepOutputsInclude | conditioner/management/commands/run_cron_conditions.py:13-43 | every line of a visited step is among the pass's lines |
| CronCommand.RuleWithoutActionWarned | conditioner/management/commands/run_cron_conditions.py:15-19 | a pass that completes writes the warning for every rule without an action |
| CronCommand.MetDateConditionIsRun | conditioner/management/commands/run_cron_conditions.py:21-31 | in a pass that completes, every rule with an action whose date condition is met has its action run once, without an instance, and its condition stamped with the clock |
| CronCommand.RaisingActionEndsPass | conditioner/management/commands/run_cron_conditions.py:13-45 | when a date condition is met and its action raises, and no earlier condition raised, the pass ends with that exception: that condition is not stamped, the runs are the earlier conditions' runs only, later conditions are not visited and "All done!" is not written |
| CronCommand.RowRunsOncePerDay | conditioner/management/commands/run_cron_conditions.py:22-26 | a date condition that ran is not run again by a second pass on the same date |
| CronCommand.ScanRowsRunsOncePerDay | conditioner/management/commands/run_cron_conditions.py:13-43 | the once-per-date promise holds for every date condition of the pass |
| CronCommand.SecondRunSameDayRunsNothing | conditioner/management/commands/run_cron_conditions.py:10-45 | over only date conditions, a second command run on the same date runs no action |
| CronCommand.UnmetInstancesRunNothing | conditioner/management/commands/run_cron_conditions.py:34-35 | when no instance meets the condition, nothing runs and the condition is unchanged |
| CronCommand.GuardedEvaluatorRunsOnce | conditioner/management/commands/run_cron_conditions.py:34-43 | an evaluator that refuses once `last_executed` is today runs the action for at most one instance per pass, because the stamp is taken inside the loop |
| CronCommand.MonthlyLoggerScenario | conditioner/management/commands/run_cron_conditions.py:10-45 | a day-2 logger rule logs nothing on 1 January, once on 2 January, and nothing on a rerun that day |
| Templates.Basename | conditioner/utils.py:54 | the base name is the path's last component: a suffix of the path with no slash, preceded by a slash when shorter |
| Templates.SplitExt | conditioner/utils.py:54 | the stem and extension rejoin to the name; the extension is the last dot onwards, and leading dots do not start one |
| Templates.Label | conditioner/utils.py:56-60 | the label is the file name followed by " (txt + html)" exactly when an HTML counterpart exists, and " (txt)" otherwise |
| Templates.Reference | conditioner/utils.py:63 | the reference is the text after the first "templates/", cut at a second one; it is absent exactly when the path has no "templates/" |
| Templates.Entry | conditioner/utils.py:53-64 | a path yields a choice exactly when it has a "templates/" segment, and the choice is its reference with its label |
| Templates.AvailableTemplates | conditioner/utils.py:52-66 | every path, in order, becomes its choice; one path without "templates/" makes the whole call fail at the first such path |
| Templates.Gather | conditioner/utils.py:52-66 | the collection succeeds exactly when every path yields a choice, and fails naming the first that does not |
| Templates.CounterpartOfTxt | conditioner/utils.py:56 | a path ending in its only ".txt" has its HTML counterpart at the same path ending in ".html" |
| Templates.NestedTemplatesTruncated | conditioner/utils.py:63 | a path with two "templates/" segments is referenced only by the part between them |
| Templates.TwoTemplates | conditioner/utils.py:52-66 | two paths that yield choices give those two choices, in order |
| Templates.TestTemplates | conditioner/tests/test_utils.py:59-73 | the subdirectory template with an HTML counterpart and the top-level one without give ("subdir/test.txt", "test (txt + html)") then ("example.txt", "example (txt)") |
| Admin.FormsetChildren | conditioner/admin.py:37-59 | the children offered are the declared children filtered once, in order, by whether they fit the rule, so each is offered at most once and exactly when it fits; on the add page every child is offered; generic children are always offered |
| Admin.GuardsMeanCompatible | conditioner/admin.py:44-55 | the two skip guards skip exactly the children whose needs the rule cannot meet |
| Admin.FormsetChildrenKeepsOrder | conditioner/admin.py:42-59 | filtering two runs of declarations is filtering each, in order |
| Admin.ActionChildrenAlwaysOffered | conditioner/admin.py:24-59 | both shipped actions are offered on every rule's page |
| Admin.UntargetedRuleOffersDateConditions | conditioner/admin.py:79-107 | a rule without a target model is offered the two date conditions and not the signal condition |
| Admin.TargetedRuleOffersAllConditions | conditioner/admin.py:79-107 | a rule with a target model is offered all three shipped conditions |
| Admin.TargetChoices | conditioner/admin.py:153-175 | for the target field, exactly the content types outside the engine's app and not named like base models, actions or conditions are offered; any other field keeps its choices |
| Admin.TargetChoicesIsOneFilter | conditioner/admin.py:157-173 | the four chained exclusions are one filter by the combined test, so the choices keep the default order |
| Admin.ExclusionExamples | conditioner/admin.py:157-173 | an ordinary model is offered; the engine's own rule is not; names starting "base" or ending "action"/"condition" in any case are not, including "basement", "transaction" and "OpeningCondition" |

## Left out

- Persistence: the ORM, querysets and migrations are replaced by sequences of rows. Only the signal condition's `save()` and `delete()` take a success flag for the database write.
- CronCommand.ProcessRow: `condition.save()` after a run is taken to succeed; a failing write there, which would end the pass, is not modelled.
- CronCommand.Handle: one clock value stands for every `timezone.now()` call of a pass, both in the date rules and in the stamps, so a pass that crosses midnight is not modelled.
- The clock is a parameter. Time zones are left out: `now` is the value `timezone.now()` returns, which is UTC when `USE_TZ` is on, so the day of the month and the weekday are those of that value.
- Django's signal dispatcher is not modelled beyond the bus map. `send`, weak references and the receiver call are left out.
- Signals.ConnectSignal: re-connecting under an existing key keeps the first receiver, as Django's `Signal.connect` does. Re-connecting under an existing key does not replace the receiver, so an edited action stays stale until restart.
- CronCommand.ScanRows: an exception from an action or evaluator ends the whole pass, as the command's code has no `try`. Conditions are not isolated from each other: the conditions after the failing one are not visited.
- The e-mail action's rendering, body, HTML alternative and SMTP are left out. Its effect is the recipient, subject and template; a failed delivery is a set of undeliverable recipients.
- Templates.AvailableTemplates: `get_app_template_dirs`, `glob.glob` and `os.path.isfile` are inputs. The list of `.txt` paths is given, and does not check that each path ends in `.txt`.
- Templates.TestTemplates: the test's "/path/" root is generalized to any root without "m" or "." characters. The glob mock's order is kept.
- `TimeStampedModelMixin`, `Meta` options and field definitions (verbose names, validators, max lengths) are declarations, not behaviour.
- The `MaxValueValidator(31)` on the day field is not enforced on stored rows. The model allows any natural number, which the date rule then never meets beyond the month's length.
- The admin's `response_add` redirect, the e-mail form and the view plumbing are left out.
- `conditioner/exceptions.py` is not part of this model: nothing in the engine raises its exception.
- Output styling (`self.style.SUCCESS`/`WARNING`) is not modelled; the lines are kept as values.
- Base.ConditionStr: a user cron subclass prints as "Cron condition"; a subclass's own `__str__` is not modelled.
- Base.ActionModelSpecific: user action subclasses are not modelled, so every action is one of the two shipped ones and generic.
- Misc.RunLogger: the logger is taken to be enabled for every level. Python's logging drops a record below the logger's effective level, which the site's `LOGGING` setting decides and the engine does not see.
- Admin.ExclusionExamples: `istartswith`/`iendswith` are modelled by ASCII lower-casing. Database collations for non-ASCII names are left out.

## Findings

| source | as written | input that shows it | evidently intended | confidence | as-written member | corrected member |
|---|---|---|---|---|---|---|
| conditioner/conditions/dates.py:48-56 | `WEEKDAY_CHOICES` labels ISO weekday 6 "Sunday" and 7 "Saturday", but `is_met` compares against `isoweekday()`, where 6 is Saturday | a condition saved as "Sunday" (weekday 6) fires on Saturday 6 January 2007 | 6 is "Saturday" and 7 is "Sunday", following the ISO numbering the comment names | not executed | Dates.WeekdayChoiceLabelSwapsWeekend | Dates.IsoWeekdayNameFollowsCalendar |
