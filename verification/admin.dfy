/** The two decisions the admin integration makes: which action and
    condition forms a rule's change page offers, given what the rule
    targets, and which content types may be chosen as a rule's target. */
module Admin {
  import opened Wrappers
  import opened Sequences
  import opened Strings
  import opened Entities
  import opened Rules
  import Base

  // ---------------------------------------------------------------------
  // The inline children offered on a rule's change page

  /** One child inline: its name and the `model_specific()` of its model. */
  datatype ChildInline = ChildInline(name: string, specific: ModelSpecific)

  /** The two `continue` guards of `get_formset_children`, as written: a
      child is skipped when the rule has no target model and the child is
      model specific, or when the rule has a target model and the child is
      tied to some other model. `obj` is None on the add page. */
  predicate Shown(specific: ModelSpecific, obj: Option<Rule>) {
    var skipUntargeted := obj.Some? && TargetModel(obj.value).None? && !specific.Generic?;
    var skipMismatched := obj.Some? && TargetModel(obj.value).Some? && !specific.Generic?
                          && !specific.AnyModel? && specific != OnlyModel(TargetModel(obj.value).value);
    !skipUntargeted && !skipMismatched
  }

  function Offered(obj: Option<Rule>): ChildInline -> bool {
    (c: ChildInline) => Shown(c.specific, obj)
  }

  /** What the filter is for: a child fits a rule when the rule can supply
      what the child needs. A generic child needs nothing, a child needing
      any model needs a target, and a child tied to a model needs that
      model as the target. Before the rule exists nothing is known, so
      every child fits. */
  predicate Compatible(specific: ModelSpecific, obj: Option<Rule>) {
    match obj
    case None => true
    case Some(rule) =>
      match specific
      case Generic => true
      case AnyModel => TargetModel(rule).Some?
      case OnlyModel(m) => TargetModel(rule) == Some(m)
  }

  function Fits(obj: Option<Rule>): ChildInline -> bool {
    (c: ChildInline) => Compatible(c.specific, obj)
  }

  /** `get_formset_children`: the children a rule's page offers, in the
      order they are declared, are exactly those that fit the rule. */
  function FormsetChildren(children: seq<ChildInline>, obj: Option<Rule>): (r: seq<ChildInline>)
    ensures r == Filter(children, Fits(obj))
    ensures forall c :: c in r <==> c in children && Compatible(c.specific, obj)
    ensures obj.None? ==> r == children
    ensures forall c :: c in children && c.specific.Generic? ==> c in r
  {
    var r := Filter(children, Offered(obj));
    assert forall c: ChildInline :: Shown(c.specific, obj) <==> Compatible(c.specific, obj) by {
      forall c: ChildInline ensures Shown(c.specific, obj) <==> Compatible(c.specific, obj) {
        GuardsMeanCompatible(c.specific, obj);
      }
    }
    FilterSame(children, Offered(obj), Fits(obj));
    r
  }

  /** The two guards skip exactly the children that do not fit. */
  lemma GuardsMeanCompatible(specific: ModelSpecific, obj: Option<Rule>)
    ensures Shown(specific, obj) <==> Compatible(specific, obj)
    ensures obj.Some? && TargetModel(obj.value).None? ==> (Shown(specific, obj) <==> specific.Generic?)
    ensures obj.Some? && TargetModel(obj.value).Some? && specific.OnlyModel? ==>
              (Shown(specific, obj) <==> specific.model == TargetModel(obj.value).value)
  {
  }

  /** The children offered from two runs of declarations are those offered
      from each, in the same order. */
  lemma FormsetChildrenKeepsOrder(a: seq<ChildInline>, b: seq<ChildInline>, obj: Option<Rule>)
    ensures FormsetChildren(a + b, obj) == FormsetChildren(a, obj) + FormsetChildren(b, obj)
  {
    FilterAppend(a, b, Offered(obj));
  }

  /** The action inline's declared children. `model_specific()` is static,
      so any value of the action class stands for the class. */
  function ActionChildren(): seq<ChildInline> {
    [ ChildInline("SendTemplatedEmailActionInline", Base.ActionModelSpecific(SendTemplatedEmailAction("", "", ""))),
      ChildInline("LoggerActionInline", Base.ActionModelSpecific(LoggerAction(INFO, ""))) ]
  }

  /** The condition inline's declared children. */
  function ConditionChildren(): seq<ChildInline> {
    [ ChildInline("DayOfMonthConditionInline", Base.ConditionModelSpecific(Cron(CronCondition(DayOfMonth(1), None)))),
      ChildInline("DayOfWeekConditionInline", Base.ConditionModelSpecific(Cron(CronCondition(DayOfWeek(1), None)))),
      ChildInline("ModelSignalConditionInline", Base.ConditionModelSpecific(ModelSignal(PostSave, Uuid(0)))) ]
  }

  /** Both shipped actions are generic, so every rule's page offers both. */
  lemma ActionChildrenAlwaysOffered(obj: Option<Rule>)
    ensures FormsetChildren(ActionChildren(), obj) == ActionChildren()
  {
    FilterOfAllShown(ActionChildren(), obj);
  }

  /** A rule without a target model is offered the two date conditions but
      not the signal condition, which needs an instance. */
  lemma UntargetedRuleOffersDateConditions(rule: Rule)
    requires TargetModel(rule).None?
    ensures FormsetChildren(ConditionChildren(), Some(rule)) == ConditionChildren()[..2]
  {
    var cs := ConditionChildren();
    assert cs == cs[..2] + [cs[2]];
    FormsetChildrenKeepsOrder(cs[..2], [cs[2]], Some(rule));
    FilterOfAllShown(cs[..2], Some(rule));
    assert !Shown(cs[2].specific, Some(rule));
    assert FormsetChildren([cs[2]], Some(rule)) == [];
  }

  /** A rule with a target model is offered all three conditions. */
  lemma TargetedRuleOffersAllConditions(rule: Rule)
    requires TargetModel(rule).Some?
    ensures FormsetChildren(ConditionChildren(), Some(rule)) == ConditionChildren()
  {
    FilterOfAllShown(ConditionChildren(), Some(rule));
  }

  lemma FilterOfAllShown(children: seq<ChildInline>, obj: Option<Rule>)
    requires forall c :: c in children ==> Shown(c.specific, obj)
    ensures FormsetChildren(children, obj) == children
  {
  }

  // ---------------------------------------------------------------------
  // The target content type choices

  const TargetField := "target_content_type"

  /** The four exclusions, each as the query states it; the name tests are
      case-insensitive. */
  predicate NotOwnApp(ct: ContentType) { ct.appLabel != "conditioner" }
  predicate NotBaseModel(ct: ContentType) { !IsPrefix("base", Lower(ct.model)) }
  predicate NotActionModel(ct: ContentType) { !IsSuffix("action", Lower(ct.model)) }
  predicate NotConditionModel(ct: ContentType) { !IsSuffix("condition", Lower(ct.model)) }

  /** A content type that may not be a rule's target: the engine's own
      models (a rule about rules could recurse), and by naming convention
      polymorphic base models and custom actions and conditions. */
  predicate ExcludedTarget(ct: ContentType) {
    || ct.appLabel == "conditioner"
    || IsPrefix("base", Lower(ct.model))
    || IsSuffix("action", Lower(ct.model))
    || IsSuffix("condition", Lower(ct.model))
  }

  /** The choices `formfield_for_foreignkey` offers for a foreign-key field,
      out of all content types in their default order: for the target field,
      the query excludes in four steps; any other field keeps its choices. */
  function TargetChoices(fieldName: string, all: seq<ContentType>): (r: seq<ContentType>)
    ensures fieldName != TargetField ==> r == all
    ensures fieldName == TargetField ==> forall ct :: ct in r <==> ct in all && !ExcludedTarget(ct)
  {
    if fieldName == TargetField then
      var s1 := Filter(all, NotOwnApp);
      var s2 := Filter(s1, NotBaseModel);
      var s3 := Filter(s2, NotActionModel);
      var s4 := Filter(s3, NotConditionModel);
      FilterMembers(all, NotOwnApp);
      FilterMembers(s1, NotBaseModel);
      FilterMembers(s2, NotActionModel);
      FilterMembers(s3, NotConditionModel);
      s4
    else all
  }

  /** The four chained exclusions are a single filter by the combined
      predicate: the choices keep the order of all content types. */
  lemma TargetChoicesIsOneFilter(all: seq<ContentType>)
    ensures TargetChoices(TargetField, all) == Filter(all, ct => !ExcludedTarget(ct))
  {
    var ab := Both(NotOwnApp, NotBaseModel);
    var abc := Both(ab, NotActionModel);
    var abcd := Both(abc, NotConditionModel);
    var s1 := Filter(all, NotOwnApp);
    var s2 := Filter(s1, NotBaseModel);
    var s3 := Filter(s2, NotActionModel);
    assert TargetChoices(TargetField, all) == Filter(s3, NotConditionModel);
    FilterFilter(all, NotOwnApp, NotBaseModel);
    assert s2 == Filter(all, ab);
    FilterFilter(all, ab, NotActionModel);
    assert s3 == Filter(all, abc);
    FilterFilter(all, abc, NotConditionModel);
    assert Filter(s3, NotConditionModel) == Filter(all, abcd);
    CombinedExclusion(abcd);
    FilterSame(all, abcd, ct => !ExcludedTarget(ct));
  }

  lemma CombinedExclusion(abcd: ContentType -> bool)
    requires abcd == Both(Both(Both(NotOwnApp, NotBaseModel), NotActionModel), NotConditionModel)
    ensures forall ct :: abcd(ct) == !ExcludedTarget(ct)
  {
    forall ct ensures abcd(ct) == !ExcludedTarget(ct) {
      var ab := Both(NotOwnApp, NotBaseModel);
      var abc := Both(ab, NotActionModel);
      assert ab(ct) == (NotOwnApp(ct) && NotBaseModel(ct));
      assert abc(ct) == (ab(ct) && NotActionModel(ct));
      assert abcd(ct) == (abc(ct) && NotConditionModel(ct));
    }
  }

  /** Concrete cases: an ordinary model is offered; the engine's own models,
      base models (also "basement", by the naming convention) and models
      named like actions (also "transaction") are not. */
  lemma ExclusionExamples()
    ensures !ExcludedTarget(ContentType("shop", "order", "order", true))
    ensures ExcludedTarget(ContentType("conditioner", "rule", "rule", true))
    ensures ExcludedTarget(ContentType("shop", "BaseProduct", "base product", true))
    ensures ExcludedTarget(ContentType("shop", "basement", "basement", true))
    ensures ExcludedTarget(ContentType("shop", "transaction", "transaction", true))
    ensures ExcludedTarget(ContentType("shop", "OpeningCondition", "opening condition", true))
  {
    assert Lower("order")[..4] != "base" by { assert Lower("order")[0] == 'o'; }
    assert Lower("BaseProduct")[..4] == "base";
    assert Lower("basement")[..4] == "base";
    assert Lower("transaction")[5..] == "action";
    assert Lower("OpeningCondition")[7..] == "condition";
  }
}
