/** The rule: an optional target content type, with at most one condition
    and at most one action linked to it. */
module Rules {
  import opened Wrappers
  import opened Strings
  import opened Entities
  import Base

  /** The `target_model` property: the model class of the target content
      type, or None when there is no target (or the content type's model is
      no longer loaded). */
  function TargetModel(rule: Rule): (m: Option<ModelClass>)
    ensures m.None? <==> rule.targetContentType.None? || !rule.targetContentType.value.installed
    ensures m.Some? ==> (m.value.appLabel == rule.targetContentType.value.appLabel &&
                         m.value.model == rule.targetContentType.value.model)
  {
    match rule.targetContentType
    case None => None
    case Some(ct) => if ct.installed then Some(ModelClass(ct.appLabel, ct.model)) else None
  }

  /** `str()` of a rule. `condition` is the condition linked to the rule, if
      any; `classRepr` is how Python prints a model class. With both an action
      and a condition linked, the string names all three; otherwise it names
      the target content type. */
  function RuleStr(rule: Rule, condition: Option<Condition>, classRepr: ModelClass -> string): (s: string)
    ensures IsPrefix("Do '", s) <==> rule.action.Some? && condition.Some?
    ensures rule.action.Some? && condition.Some? ==>
              && Contains(s, Base.ActionStr(rule.action.value))
              && Contains(s, Base.ConditionStr(condition.value, rule.targetContentType))
              && Contains(s, TargetModelStr(rule, classRepr))
    ensures rule.action.None? || condition.None? ==>
              IsPrefix("Rule for ", s) && IsSuffix(ContentTypeStr(rule.targetContentType), s)
  {
    match (rule.action, condition)
    case (Some(a), Some(c)) =>
      Linked(Base.ActionStr(a), TargetModelStr(rule, classRepr), Base.ConditionStr(c, rule.targetContentType))
    case _ => Unlinked(ContentTypeStr(rule.targetContentType))
  }

  /** The string of a rule with both links. */
  function Linked(actionStr: string, targetStr: string, conditionStr: string): (s: string)
    ensures IsPrefix("Do '", s)
    ensures Contains(s, actionStr) && Contains(s, targetStr) && Contains(s, conditionStr)
  {
    var s := "Do '" + actionStr + "' to '" + targetStr + "' when '" + conditionStr + "'";
    assert OccursAt(s, actionStr, 4);
    assert OccursAt(s, targetStr, 4 + |actionStr| + 6);
    assert OccursAt(s, conditionStr, 4 + |actionStr| + 6 + |targetStr| + 8);
    s
  }

  /** The string of a rule missing a link. */
  function Unlinked(contentTypeStr: string): (s: string)
    ensures IsPrefix("Rule for ", s) && IsSuffix(contentTypeStr, s)
    ensures !IsPrefix("Do '", s)
  {
    var s := "Rule for " + contentTypeStr;
    assert s[0] == 'R';
    s
  }

  /** How the target model prints: Python's `None` or the class. */
  function TargetModelStr(rule: Rule, classRepr: ModelClass -> string): string {
    match TargetModel(rule)
    case None => "None"
    case Some(m) => classRepr(m)
  }
}
