/** Start-up of the application: signal subscriptions do not survive a
    restart, so `ready()` connects every stored model signal condition
    again. */
module Apps {
  import opened Wrappers
  import opened Entities
  import opened Signals

  const AppName := "conditioner"
  const AppVerboseName := "Conditioner"

  /** How many conditions the start-up pass gets through: all of them, or
      those before the one at which the database raised. */
  function Reached(failAt: Option<nat>, count: nat): (n: nat)
    ensures n <= count
    ensures failAt.None? ==> n == count
  {
    match failAt
    case None => count
    case Some(f) => if f < count then f else count
  }

  /** `ConditionerAppConfig.ready()`: every stored signal condition, in
      order, is connected. A database error at condition `failAt` ends the
      pass silently; the registrations made before it stay. */
  method Ready(conditions: seq<SignalCondition>, bus: Bus, failAt: Option<nat>) returns (r: Bus)
    ensures forall i :: 0 <= i < Reached(failAt, |conditions|) && conditions[i].rule.action.Some? ==>
              Key(conditions[i]) in r
    ensures forall k :: k in bus ==> k in r && r[k] == bus[k]
    ensures forall k :: k in r && k !in bus ==>
              exists i :: 0 <= i < Reached(failAt, |conditions|) && Key(conditions[i]) == k &&
                          conditions[i].rule.action.Some? &&
                          r[k] == Receiver(conditions[i].rule.pk, conditions[i].rule.action.value)
  {
    var n := Reached(failAt, |conditions|);
    r := bus;
    var i := 0;
    while i < n
      invariant 0 <= i <= n
      invariant forall j :: 0 <= j < i && conditions[j].rule.action.Some? ==> Key(conditions[j]) in r
      invariant forall k :: k in bus ==> k in r && r[k] == bus[k]
      invariant forall k :: k in r && k !in bus ==>
                  exists j :: 0 <= j < i && Key(conditions[j]) == k &&
                              conditions[j].rule.action.Some? &&
                              r[k] == Receiver(conditions[j].rule.pk, conditions[j].rule.action.value)
    {
      r := ConnectSignal(conditions[i], r);
      i := i + 1;
    }
  }
}
