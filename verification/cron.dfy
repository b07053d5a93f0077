/** The `run_cron_conditions` management command: one pass over the stored
    cron conditions that runs the actions of those that are met, records
    when they ran, and reports per rule. The pass is a fold over the
    condition rows producing the updated rows, the trace of action runs and
    the output lines. It is not error-isolated: an exception from an
    evaluator or an action ends the pass, with the rows already saved kept. */
module CronCommand {
  import opened Wrappers
  import opened Sequences
  import opened Calendar
  import opened Strings
  import opened Entities
  import opened Rules
  import opened Base
  import Dates

  /** A stored cron condition with the rule it is linked to (None when the
      link is null). */
  datatype CronRow = CronRow(rule: Option<Rule>, condition: CronCondition)

  /** What the pass reads besides the rows: the clock, the stored instances
      of each model, the recipients whose e-mail delivery raises, and the
      evaluator of user cron subclasses. */
  datatype Env = Env(now: DateTime, objects: map<ModelClass, seq<Instance>>,
                     undeliverable: set<string>, custom: CustomIsMet)
  {
    predicate Valid() {
      now.date.Valid()
    }

    /** `model.objects.all()`. */
    function Objects(m: ModelClass): seq<Instance> {
      if m in objects then objects[m] else []
    }
  }

  /** The lines the command writes. */
  datatype Line =
    | NoAction(rulePk: nat)
    | Executed(rulePk: nat)
    | ExecutedFor(rulePk: nat)
    | AllDone

  function LineText(l: Line): string {
    match l
    case NoAction(pk) => "Condition was met but rule " + NatToString(pk) + " doesn't have linked action."
    case Executed(pk) => "Condition for rule " + NatToString(pk) + " was met and the action was successfully executed"
    case ExecutedFor(pk) =>
      "Model specific condition for rule " + NatToString(pk) + " was met and the action was successfully executed"
    case AllDone => "\nAll done!"
  }

  /** One run of a rule's action: for which rule, with which instance, and
      what it did. */
  datatype Invocation = Invocation(rulePk: nat, instance: Option<Instance>, effect: Effect)

  /** The result of processing one condition. */
  datatype Step = Step(condition: CronCondition, invocations: seq<Invocation>, output: seq<Line>, error: Option<Error>)

  /** The result of the pass. */
  datatype Scan = Scan(rows: seq<CronRow>, invocations: seq<Invocation>, output: seq<Line>, error: Option<Error>)

  function Ran(c: CronCondition, now: DateTime): CronCondition {
    c.(lastExecuted := Some(now))
  }

  /** The count of success lines. */
  function SuccessLines(output: seq<Line>): nat {
    if |output| == 0 then 0
    else SuccessLines(output[..|output| - 1]) +
         (if output[|output| - 1].Executed? || output[|output| - 1].ExecutedFor? then 1 else 0)
  }

  lemma {:induction false} SuccessLinesAppend(a: seq<Line>, b: seq<Line>)
    ensures SuccessLines(a + b) == SuccessLines(a) + SuccessLines(b)
    decreases |b|
  {
    if |b| == 0 {
      assert a + b == a;
    } else {
      assert (a + b)[..|a + b| - 1] == a + b[..|b| - 1];
      SuccessLinesAppend(a, b[..|b| - 1]);
    }
  }

  /** Whether an instance meets the condition in the state `c`. */
  function MetUnder(c: CronCondition, env: Env): Instance -> bool
    requires env.Valid()
  {
    i => IsMet(c, env.now, Some(i), env.custom) == Success(true)
  }

  /** The instances the model-specific branch is meant to run the action
      with, in order: the first instance that meets the stored condition,
      then every later instance that meets the condition as stamped by that
      run. */
  function MetInstances(c: CronCondition, instances: seq<Instance>, env: Env): seq<Instance>
    requires env.Valid()
    decreases |instances|
  {
    if |instances| == 0 then []
    else if MetUnder(c, env)(instances[0]) then [instances[0]] + Filter(instances[1..], MetUnder(Ran(c, env.now), env))
    else MetInstances(c, instances[1..], env)
  }

  /** Once stamped, the condition stays stamped, so the instances meant to
      run are simply those meeting the stamped condition. */
  lemma {:induction false} StampedMetInstances(c: CronCondition, instances: seq<Instance>, env: Env)
    requires env.Valid() && Ran(c, env.now) == c
    ensures MetInstances(c, instances, env) == Filter(instances, MetUnder(c, env))
    decreases |instances|
  {
    if |instances| > 0 && !MetUnder(c, env)(instances[0]) {
      StampedMetInstances(c, instances[1..], env);
    }
  }

  /** A run with the first met instance, followed by runs with a prefix of
      the remaining met instances, is a run with a prefix of all of them. */
  lemma RunsMetPrefix(first: Invocation, rest: seq<Invocation>, i: Instance, met: seq<Instance>, error: Option<Error>)
    requires first.instance == Some(i)
    requires |rest| <= |met| && forall k :: 0 <= k < |rest| ==> rest[k].instance == Some(met[k])
    requires error.None? ==> |rest| == |met|
    ensures |[first] + rest| <= |[i] + met|
    ensures forall k :: 0 <= k < |[first] + rest| ==> ([first] + rest)[k].instance == Some(([i] + met)[k])
    ensures error.None? ==> |[first] + rest| == |[i] + met|
  {
  }

  /** The facts about each run carry over when a run with the first
      instance, which met the stored condition, is put in front. */
  lemma RunFactsPrefix(pk: nat, action: Action, c: CronCondition, instances: seq<Instance>, env: Env,
                       effect: Effect, rest: seq<Invocation>)
    requires env.Valid() && |instances| > 0
    requires IsMet(c, env.now, Some(instances[0]), env.custom) == Success(true)
    requires RunAction(action, Some(instances[0]), env.undeliverable) == Success(effect)
    requires forall k :: 0 <= k < |rest| ==>
               && rest[k].rulePk == pk
               && rest[k].instance.Some?
               && rest[k].instance.value in instances[1..]
               && IsMet(Ran(c, env.now), env.now, rest[k].instance, env.custom) == Success(true)
               && RunAction(action, rest[k].instance, env.undeliverable) == Success(rest[k].effect)
    ensures var invs := [Invocation(pk, Some(instances[0]), effect)] + rest;
            forall k :: 0 <= k < |invs| ==>
              && invs[k].rulePk == pk
              && invs[k].instance.Some?
              && invs[k].instance.value in instances
              && IsMet(if k == 0 then c else Ran(c, env.now), env.now, invs[k].instance, env.custom) == Success(true)
              && RunAction(action, invs[k].instance, env.undeliverable) == Success(invs[k].effect)
  {
    var invs := [Invocation(pk, Some(instances[0]), effect)] + rest;
    RunInstancesPrefix(invs, instances);
    var first := (inv: Invocation) =>
      && inv.rulePk == pk
      && IsMet(c, env.now, inv.instance, env.custom) == Success(true)
      && RunAction(action, inv.instance, env.undeliverable) == Success(inv.effect);
    var later := (inv: Invocation) =>
      && inv.rulePk == pk
      && IsMet(Ran(c, env.now), env.now, inv.instance, env.custom) == Success(true)
      && RunAction(action, inv.instance, env.undeliverable) == Success(inv.effect);
    assert first(invs[0]);
    assert forall k :: 0 <= k < |rest| ==> later(rest[k]);
    PrefixAll(invs[0], rest, first, later);
    assert invs == [invs[0]] + rest;
  }

  /** An element with property `first` put in front of elements with
      property `later`. */
  lemma PrefixAll<T>(x: T, rest: seq<T>, first: T -> bool, later: T -> bool)
    requires first(x) && forall k :: 0 <= k < |rest| ==> later(rest[k])
    ensures forall k :: 0 <= k < |[x] + rest| ==> if k == 0 then first(([x] + rest)[k]) else later(([x] + rest)[k])
  {
    forall k | 1 <= k < |[x] + rest| ensures later(([x] + rest)[k]) {
      assert ([x] + rest)[k] == rest[k - 1];
    }
  }

  /** Runs with the first instance and then with later ones are all runs
      with instances of the sequence. */
  lemma RunInstancesPrefix(invs: seq<Invocation>, instances: seq<Instance>)
    requires |invs| > 0 && |instances| > 0 && invs[0].instance == Some(instances[0])
    requires forall k :: 1 <= k < |invs| ==> invs[k].instance.Some? && invs[k].instance.value in instances[1..]
    ensures forall k :: 0 <= k < |invs| ==> invs[k].instance.Some? && invs[k].instance.value in instances
  {
    forall k | 1 <= k < |invs| ensures invs[k].instance.value in instances {
      InTail(instances, invs[k].instance.value);
    }
  }

  lemma InTail<T>(s: seq<T>, x: T)
    requires |s| > 0 && x in s[1..]
    ensures x in s
  {
    var j :| 0 <= j < |s[1..]| && s[1..][j] == x;
    assert s[j + 1] == x;
  }

  /** The model-specific branch: each instance of the target model, in
      order, is checked, and the action runs with each one for which the
      condition is met. The first check sees the stored `last_executed`;
      once the action has run, later checks see it set to now. */
  function ScanInstances(pk: nat, action: Action, c: CronCondition, instances: seq<Instance>, env: Env): (r: Step)
    requires env.Valid()
    ensures |r.output| == |r.invocations| == SuccessLines(r.output)
    ensures forall k :: 0 <= k < |r.output| ==> r.output[k] == ExecutedFor(pk)
    ensures r.condition == (if |r.invocations| == 0 then c else Ran(c, env.now))
    ensures forall k :: 0 <= k < |r.invocations| ==>
              && r.invocations[k].rulePk == pk
              && r.invocations[k].instance.Some?
              && r.invocations[k].instance.value in instances
              && IsMet(if k == 0 then c else Ran(c, env.now), env.now, r.invocations[k].instance, env.custom) == Success(true)
              && RunAction(action, r.invocations[k].instance, env.undeliverable) == Success(r.invocations[k].effect)
    // The instances run are the met instances, in order: all of them when
    // nothing raised, the ones before the exception otherwise.
    ensures |r.invocations| <= |MetInstances(c, instances, env)|
    ensures forall k :: 0 <= k < |r.invocations| ==> r.invocations[k].instance == Some(MetInstances(c, instances, env)[k])
    ensures r.error.None? ==> |r.invocations| == |MetInstances(c, instances, env)|
    decreases |instances|
  {
    if |instances| == 0 then Step(c, [], [], None)
    else
      var i := instances[0];
      match IsMet(c, env.now, Some(i), env.custom)
      case Failure(e) => Step(c, [], [], Some(e))
      case Success(false) =>
        var rest := ScanInstances(pk, action, c, instances[1..], env);
        assert forall k :: 0 <= k < |rest.invocations| ==> rest.invocations[k].instance.value in instances;
        assert MetInstances(c, instances, env) == MetInstances(c, instances[1..], env);
        rest
      case Success(true) =>
        match RunAction(action, Some(i), env.undeliverable)
        case Failure(e) => Step(c, [], [], Some(e))
        case Success(effect) =>
          var c' := Ran(c, env.now);
          var rest := ScanInstances(pk, action, c', instances[1..], env);
          assert Ran(c', env.now) == c';
          StampedMetInstances(c', instances[1..], env);
          assert MetInstances(c, instances, env) == [i] + MetInstances(c', instances[1..], env);
          RunsMetPrefix(Invocation(pk, Some(i), effect), rest.invocations, i, MetInstances(c', instances[1..], env), rest.error);
          SuccessLinesAppend([ExecutedFor(pk)], rest.output);
          RunFactsPrefix(pk, action, c, instances, env, effect, rest.invocations);
          Step(rest.condition, [Invocation(pk, Some(i), effect)] + rest.invocations,
               [ExecutedFor(pk)] + rest.output, rest.error)
  }

  /** When no evaluation and no action raises, the branch completes, so the
      action runs with every met instance. */
  lemma {:induction false} ScanInstancesCompletes(pk: nat, action: Action, c: CronCondition,
                                                   instances: seq<Instance>, env: Env)
    requires env.Valid()
    requires forall k :: 0 <= k < |instances| ==>
               && IsMet(c, env.now, Some(instances[k]), env.custom).Success?
               && IsMet(Ran(c, env.now), env.now, Some(instances[k]), env.custom).Success?
               && RunAction(action, Some(instances[k]), env.undeliverable).Success?
    ensures ScanInstances(pk, action, c, instances, env).error.None?
    ensures |ScanInstances(pk, action, c, instances, env).invocations| == |MetInstances(c, instances, env)|
    decreases |instances|
  {
    if |instances| > 0 {
      var c' := Ran(c, env.now);
      assert Ran(c', env.now) == c';
      assert forall k :: 0 <= k < |instances[1..]| ==> instances[1..][k] == instances[k + 1];
      if IsMet(c, env.now, Some(instances[0]), env.custom) == Success(true) {
        ScanInstancesCompletes(pk, action, c', instances[1..], env);
      } else {
        ScanInstancesCompletes(pk, action, c, instances[1..], env);
      }
    }
  }

  /** The condition as the model-specific branch sees it on reaching
      instance `j`: stamped once an earlier instance met the stored
      condition and ran. */
  function StateAt(c: CronCondition, instances: seq<Instance>, j: nat, env: Env): CronCondition
    requires env.Valid() && j <= |instances|
  {
    if exists k :: 0 <= k < j && MetUnder(c, env)(instances[k]) then Ran(c, env.now) else c
  }

  /** The exception instance `j` raises when the branch reaches it: from its
      check, or, when it is met, from the action's run with it. */
  function RaisedAt(action: Action, c: CronCondition, instances: seq<Instance>, j: nat, env: Env): Option<Error>
    requires env.Valid() && j < |instances|
  {
    match IsMet(StateAt(c, instances, j, env), env.now, Some(instances[j]), env.custom)
    case Failure(e) => Some(e)
    case Success(false) => None
    case Success(true) =>
      match RunAction(action, Some(instances[j]), env.undeliverable)
      case Failure(e) => Some(e)
      case Success(_) => None
  }

  /** The index of the first instance that raises, or the number of
      instances when none does. */
  function FirstRaising(action: Action, c: CronCondition, instances: seq<Instance>, env: Env): (j: nat)
    requires env.Valid()
    ensures j <= |instances|
    ensures forall k :: 0 <= k < j ==> RaisedAt(action, c, instances, k, env).None?
    ensures j < |instances| ==> RaisedAt(action, c, instances, j, env).Some?
  {
    FirstRaisingFrom(action, c, instances, 0, env)
  }

  function FirstRaisingFrom(action: Action, c: CronCondition, instances: seq<Instance>, from: nat, env: Env): (j: nat)
    requires env.Valid() && from <= |instances|
    requires forall k :: 0 <= k < from ==> RaisedAt(action, c, instances, k, env).None?
    ensures from <= j <= |instances|
    ensures forall k :: 0 <= k < j ==> RaisedAt(action, c, instances, k, env).None?
    ensures j < |instances| ==> RaisedAt(action, c, instances, j, env).Some?
    decreases |instances| - from
  {
    if from == |instances| || RaisedAt(action, c, instances, from, env).Some? then from
    else FirstRaisingFrom(action, c, instances, from + 1, env)
  }

  /** When the branch raises, it raises the first raising instance's
      exception, after running the action with exactly the met instances
      before it; when nothing raises, it ran with all of them. */
  lemma {:induction false} ScanInstancesRaises(pk: nat, action: Action, c: CronCondition,
                                               instances: seq<Instance>, env: Env)
    requires env.Valid()
    ensures var r := ScanInstances(pk, action, c, instances, env);
            var j := FirstRaising(action, c, instances, env);
            && r.error == (if j < |instances| then RaisedAt(action, c, instances, j, env) else None)
            && |r.invocations| == |MetInstances(c, instances[..j], env)|
    decreases |instances|
  {
    if |instances| == 0 {
      assert instances[..0] == [];
    } else if RaisedAt(action, c, instances, 0, env).Some? {
      RaisesAtHead(pk, action, c, instances, env);
    } else if MetUnder(c, env)(instances[0]) {
      ScanInstancesRaises(pk, action, Ran(c, env.now), instances[1..], env);
      ScanRaisesAfterRun(pk, action, c, instances, env);
    } else {
      ScanInstancesRaises(pk, action, c, instances[1..], env);
      ScanRaisesAfterUnmet(pk, action, c, instances, env);
    }
  }

  /** The first instance raises: nothing has run, and its exception is the
      branch's. */
  lemma RaisesAtHead(pk: nat, action: Action, c: CronCondition, instances: seq<Instance>, env: Env)
    requires env.Valid() && |instances| > 0 && RaisedAt(action, c, instances, 0, env).Some?
    ensures FirstRaising(action, c, instances, env) == 0
    ensures ScanInstances(pk, action, c, instances, env).error == RaisedAt(action, c, instances, 0, env)
    ensures ScanInstances(pk, action, c, instances, env).invocations == []
  {
    assert StateAt(c, instances, 0, env) == c;
  }

  lemma ScanRaisesAfterRun(pk: nat, action: Action, c: CronCondition, instances: seq<Instance>, env: Env)
    requires env.Valid() && |instances| > 0 && RaisedAt(action, c, instances, 0, env).None?
    requires MetUnder(c, env)(instances[0])
    requires var rest := ScanInstances(pk, action, Ran(c, env.now), instances[1..], env);
             var j' := FirstRaising(action, Ran(c, env.now), instances[1..], env);
             && rest.error == (if j' < |instances[1..]| then RaisedAt(action, Ran(c, env.now), instances[1..], j', env) else None)
             && |rest.invocations| == |MetInstances(Ran(c, env.now), instances[1..][..j'], env)|
    ensures var r := ScanInstances(pk, action, c, instances, env);
            var j := FirstRaising(action, c, instances, env);
            && r.error == (if j < |instances| then RaisedAt(action, c, instances, j, env) else None)
            && |r.invocations| == |MetInstances(c, instances[..j], env)|
  {
    var rest := ScanInstances(pk, action, Ran(c, env.now), instances[1..], env);
    ScanAfterRun(pk, action, c, instances, env);
    RaisesAfterRun(action, c, instances, env, rest.error, |rest.invocations|);
  }

  lemma ScanRaisesAfterUnmet(pk: nat, action: Action, c: CronCondition, instances: seq<Instance>, env: Env)
    requires env.Valid() && |instances| > 0 && RaisedAt(action, c, instances, 0, env).None?
    requires !MetUnder(c, env)(instances[0])
    requires var rest := ScanInstances(pk, action, c, instances[1..], env);
             var j' := FirstRaising(action, c, instances[1..], env);
             && rest.error == (if j' < |instances[1..]| then RaisedAt(action, c, instances[1..], j', env) else None)
             && |rest.invocations| == |MetInstances(c, instances[1..][..j'], env)|
    ensures var r := ScanInstances(pk, action, c, instances, env);
            var j := FirstRaising(action, c, instances, env);
            && r.error == (if j < |instances| then RaisedAt(action, c, instances, j, env) else None)
            && |r.invocations| == |MetInstances(c, instances[..j], env)|
  {
    var rest := ScanInstances(pk, action, c, instances[1..], env);
    assert StateAt(c, instances, 0, env) == c;
    ScanSkipsUnmet(pk, action, c, instances, env);
    RaisesAfterUnmet(action, c, instances, env, rest.error, |rest.invocations|);
  }

  /** The first instance met and ran: an exception and a number of runs that
      are the rest's first exception and its met instances before it are
      those of all the instances, counting the first run. */
  lemma RaisesAfterRun(action: Action, c: CronCondition, instances: seq<Instance>, env: Env,
                       error: Option<Error>, runs: nat)
    requires env.Valid() && |instances| > 0 && RaisedAt(action, c, instances, 0, env).None?
    requires MetUnder(c, env)(instances[0])
    requires var c' := Ran(c, env.now);
             var j' := FirstRaising(action, c', instances[1..], env);
             && error == (if j' < |instances[1..]| then RaisedAt(action, c', instances[1..], j', env) else None)
             && runs == |MetInstances(c', instances[1..][..j'], env)|
    ensures var j := FirstRaising(action, c, instances, env);
            && error == (if j < |instances| then RaisedAt(action, c, instances, j, env) else None)
            && runs + 1 == |MetInstances(c, instances[..j], env)|
  {
    FirstRaisingShift(action, c, Ran(c, env.now), instances, env);
    MetCountAfterRun(c, instances, FirstRaising(action, c, instances, env), env);
  }

  /** The first instance was not met: the rest's first exception and met
      instances before it are those of all the instances. */
  lemma RaisesAfterUnmet(action: Action, c: CronCondition, instances: seq<Instance>, env: Env,
                         error: Option<Error>, runs: nat)
    requires env.Valid() && |instances| > 0 && RaisedAt(action, c, instances, 0, env).None?
    requires !MetUnder(c, env)(instances[0])
    requires var j' := FirstRaising(action, c, instances[1..], env);
             && error == (if j' < |instances[1..]| then RaisedAt(action, c, instances[1..], j', env) else None)
             && runs == |MetInstances(c, instances[1..][..j'], env)|
    ensures var j := FirstRaising(action, c, instances, env);
            && error == (if j < |instances| then RaisedAt(action, c, instances, j, env) else None)
            && runs == |MetInstances(c, instances[..j], env)|
  {
    FirstRaisingShift(action, c, c, instances, env);
    MetCountAfterUnmet(c, instances, FirstRaising(action, c, instances, env), env);
  }

  /** An instance that does not meet the condition is passed over. */
  lemma ScanSkipsUnmet(pk: nat, action: Action, c: CronCondition, instances: seq<Instance>, env: Env)
    requires env.Valid() && |instances| > 0
    requires IsMet(c, env.now, Some(instances[0]), env.custom) == Success(false)
    ensures ScanInstances(pk, action, c, instances, env) == ScanInstances(pk, action, c, instances[1..], env)
  {
  }

  /** After a run with the first instance, the branch goes on over the rest
      with the stamped condition, and the run comes first. */
  lemma ScanAfterRun(pk: nat, action: Action, c: CronCondition, instances: seq<Instance>, env: Env)
    requires env.Valid() && |instances| > 0
    requires IsMet(c, env.now, Some(instances[0]), env.custom) == Success(true)
    requires RunAction(action, Some(instances[0]), env.undeliverable).Success?
    ensures var r := ScanInstances(pk, action, c, instances, env);
            var rest := ScanInstances(pk, action, Ran(c, env.now), instances[1..], env);
            r.error == rest.error && |r.invocations| == 1 + |rest.invocations|
  {
  }

  /** With the first instance met and run, the met instances among the
      first `j` are that one and those later ones meeting the stamped
      condition. */
  lemma MetCountAfterRun(c: CronCondition, instances: seq<Instance>, j: nat, env: Env)
    requires env.Valid() && 0 < j <= |instances| && MetUnder(c, env)(instances[0])
    ensures |MetInstances(c, instances[..j], env)| == 1 + |MetInstances(Ran(c, env.now), instances[1..][..j - 1], env)|
  {
    var c' := Ran(c, env.now);
    assert Ran(c', env.now) == c';
    var pre := instances[..j];
    StampedMetInstances(c', instances[1..][..j - 1], env);
    assert pre[0] == instances[0] && pre[1..] == instances[1..][..j - 1];
    assert MetInstances(c, pre, env) == [pre[0]] + Filter(pre[1..], MetUnder(c', env));
  }

  /** With the first instance not met, the met instances among the first
      `j` are those among the rest. */
  lemma MetCountAfterUnmet(c: CronCondition, instances: seq<Instance>, j: nat, env: Env)
    requires env.Valid() && 0 < j <= |instances| && !MetUnder(c, env)(instances[0])
    ensures MetInstances(c, instances[..j], env) == MetInstances(c, instances[1..][..j - 1], env)
  {
    assert instances[..j][0] == instances[0] && instances[..j][1..] == instances[1..][..j - 1];
  }

  /** After the first instance, the branch goes on over the rest in the
      state `c'` that instance left behind, so each later instance raises
      as it would at its index in the rest. */
  lemma RaisedAtShift(action: Action, c: CronCondition, c': CronCondition, instances: seq<Instance>, env: Env)
    requires env.Valid() && |instances| > 0
    requires c' == (if MetUnder(c, env)(instances[0]) then Ran(c, env.now) else c)
    ensures forall k :: 1 <= k < |instances| ==>
              RaisedAt(action, c, instances, k, env) == RaisedAt(action, c', instances[1..], k - 1, env)
  {
    forall k | 1 <= k < |instances|
      ensures RaisedAt(action, c, instances, k, env) == RaisedAt(action, c', instances[1..], k - 1, env)
    {
      StateShift(c, c', instances, k, env);
      assert instances[1..][k - 1] == instances[k];
    }
  }

  lemma StateShift(c: CronCondition, c': CronCondition, instances: seq<Instance>, k: nat, env: Env)
    requires env.Valid() && 1 <= k <= |instances|
    requires c' == (if MetUnder(c, env)(instances[0]) then Ran(c, env.now) else c)
    ensures StateAt(c, instances, k, env) == StateAt(c', instances[1..], k - 1, env)
  {
    var tail := instances[1..];
    if MetUnder(c, env)(instances[0]) {
      assert Ran(c', env.now) == c';
      assert StateAt(c, instances, k, env) == c';
    } else if exists m :: 0 <= m < k && MetUnder(c, env)(instances[m]) {
      var m :| 0 <= m < k && MetUnder(c, env)(instances[m]);
      assert tail[m - 1] == instances[m];
    } else {
      forall m | 0 <= m < k - 1 ensures !MetUnder(c, env)(tail[m]) {
        assert tail[m] == instances[m + 1];
      }
    }
  }

  /** The first raising instance is the first one, or the first raising
      instance of the rest, one further on. */
  lemma FirstRaisingShift(action: Action, c: CronCondition, c': CronCondition, instances: seq<Instance>, env: Env)
    requires env.Valid() && |instances| > 0
    requires c' == (if MetUnder(c, env)(instances[0]) then Ran(c, env.now) else c)
    requires RaisedAt(action, c, instances, 0, env).None?
    ensures var j := FirstRaising(action, c, instances, env);
            && j == FirstRaising(action, c', instances[1..], env) + 1
            && (j < |instances| ==> RaisedAt(action, c, instances, j, env) == RaisedAt(action, c', instances[1..], j - 1, env))
  {
    RaisedAtShift(action, c, c', instances, env);
    var j := FirstRaising(action, c, instances, env);
    var j' := FirstRaising(action, c', instances[1..], env);
    if j' + 1 < |instances| {
      assert RaisedAt(action, c, instances, j' + 1, env).Some?;
    }
    if 1 <= j < |instances| {
      assert RaisedAt(action, c', instances[1..], j - 1, env).Some?;
    }
  }


  /** The body of the loop for one condition whose rule is not null. */
  function ProcessRow(rule: Rule, c: CronCondition, env: Env): (r: Step)
    requires env.Valid()
    ensures |r.invocations| == SuccessLines(r.output)
    ensures r.condition.kind == c.kind
    ensures r.condition == c || r.condition == Ran(c, env.now)
    ensures r.condition != c ==> |r.invocations| > 0
    ensures forall k :: 0 <= k < |r.invocations| ==> r.invocations[k].rulePk == rule.pk
    // A rule without an action: one warning, nothing run, nothing recorded.
    ensures rule.action.None? ==> r == Step(c, [], [NoAction(rule.pk)], None)
    // A generic condition: the action runs once, without an instance,
    // exactly when the condition is met; only then is the run recorded.
    ensures rule.action.Some? && CronSpecific(c) == Generic ==>
              && |r.invocations| <= 1
              && (|r.invocations| == 1 <==>
                    IsMet(c, env.now, None, env.custom) == Success(true) &&
                    RunAction(rule.action.value, None, env.undeliverable).Success?)
              && (|r.invocations| == 1 ==>
                    r.invocations[0] == Invocation(rule.pk, None,
                                                   RunAction(rule.action.value, None, env.undeliverable).value))
              && r.condition == (if |r.invocations| == 1 then Ran(c, env.now) else c)
              && (IsMet(c, env.now, None, env.custom) == Success(false) ==> r == Step(c, [], [], None))
    // ... a run writes one success line and nothing else is written; an
    // exception from `is_met()` or from the action is the step's exception.
    ensures rule.action.Some? && CronSpecific(c) == Generic ==>
              && r.output == (if |r.invocations| == 1 then [Executed(rule.pk)] else [])
              && (r.error.None? <==>
                    IsMet(c, env.now, None, env.custom).Success? &&
                    (IsMet(c, env.now, None, env.custom).value ==> RunAction(rule.action.value, None, env.undeliverable).Success?))
              && (IsMet(c, env.now, None, env.custom).Failure? ==>
                    r.error == Some(IsMet(c, env.now, None, env.custom).error))
              && (IsMet(c, env.now, None, env.custom) == Success(true) &&
                  RunAction(rule.action.value, None, env.undeliverable).Failure? ==>
                    r.error == Some(RunAction(rule.action.value, None, env.undeliverable).error))
    // A model-specific condition on a rule without a target model fails on
    // `None.objects`; otherwise the target model's instances are scanned.
    ensures rule.action.Some? && CronSpecific(c) != Generic ==>
              r == (match TargetModel(rule)
                    case None => Step(c, [], [], Some(NoneHasNoObjects))
                    case Some(m) => ScanInstances(rule.pk, rule.action.value, c, env.Objects(m), env))
  {
    match rule.action
    case None => Step(c, [], [NoAction(rule.pk)], None)
    case Some(a) =>
      if CronSpecific(c) == Generic then
        match IsMet(c, env.now, None, env.custom)
        case Failure(e) => Step(c, [], [], Some(e))
        case Success(false) => Step(c, [], [], None)
        case Success(true) =>
          match RunAction(a, None, env.undeliverable)
          case Failure(e) => Step(c, [], [], Some(e))
          case Success(effect) => Step(Ran(c, env.now), [Invocation(rule.pk, None, effect)], [Executed(rule.pk)], None)
      else
        match TargetModel(rule)
        case None => Step(c, [], [], Some(NoneHasNoObjects))
        case Some(m) => ScanInstances(rule.pk, a, c, env.Objects(m), env)
  }

  /** `model_specific()` of a cron condition. */
  function CronSpecific(c: CronCondition): ModelSpecific {
    ConditionModelSpecific(Cron(c))
  }

  /** One iteration of the loop: a row with a null rule is not visited. */
  function StepRow(row: CronRow, env: Env): (r: Step)
    requires env.Valid()
    ensures r.condition.kind == row.condition.kind
    ensures r.condition == row.condition || r.condition == Ran(row.condition, env.now)
    ensures r.invocations == [] ==> r.condition == row.condition
    ensures row.rule.None? ==> r == Step(row.condition, [], [], None)
    ensures row.rule.Some? && row.rule.value.action.None? ==> r.condition == row.condition && r.invocations == []
    ensures SuccessLines(r.output) == |r.invocations|
    ensures AllDone !in r.output
  {
    match row.rule
    case None => Step(row.condition, [], [], None)
    case Some(rule) =>
      var step := ProcessRow(rule, row.condition, env);
      assert AllDone !in step.output by {
        if rule.action.Some? && CronSpecific(row.condition) != Generic && TargetModel(rule).Some? {
          assert forall k :: 0 <= k < |step.output| ==> step.output[k].ExecutedFor?;
        }
      }
      step
  }

  /** The position of the first row whose step raises, or the number of
      rows when none does. */
  function FirstFailing(rows: seq<CronRow>, env: Env): (j: nat)
    requires env.Valid()
    ensures j <= |rows|
    ensures forall i :: 0 <= i < j ==> StepRow(rows[i], env).error.None?
    ensures j < |rows| ==> StepRow(rows[j], env).error.Some?
    decreases |rows|
  {
    if |rows| == 0 then 0
    else if StepRow(rows[0], env).error.Some? then 0
    else
      var j := 1 + FirstFailing(rows[1..], env);
      assert forall i :: 1 <= i < |rows| ==> rows[1..][i - 1] == rows[i];
      j
  }

  /** The action runs of the first `n` rows' steps, row after row. */
  function StepInvocations(rows: seq<CronRow>, env: Env, n: nat): seq<Invocation>
    requires env.Valid() && n <= |rows|
  {
    ConcatMap(rows, StepRuns(env), n)
  }

  function StepRuns(env: Env): CronRow -> seq<Invocation>
    requires env.Valid()
  {
    (row: CronRow) => StepRow(row, env).invocations
  }

  function StepLines(env: Env): CronRow -> seq<Line>
    requires env.Valid()
  {
    (row: CronRow) => StepRow(row, env).output
  }

  /** The lines written by the first `n` rows' steps, row after row. */
  function StepOutputs(rows: seq<CronRow>, env: Env, n: nat): seq<Line>
    requires env.Valid() && n <= |rows|
  {
    ConcatMap(rows, StepLines(env), n)
  }

  /** How many rows the pass visits: up to and including the first whose
      step raises, or all of them. */
  function Visited(rows: seq<CronRow>, env: Env): (n: nat)
    requires env.Valid()
    ensures n <= |rows|
  {
    var j := FirstFailing(rows, env);
    if j < |rows| then j + 1 else |rows|
  }

  /** What a pass does, row by row: each row up to the first whose step
      raises is replaced by what its own step made of it, and the pass runs
      exactly those steps' actions, in order; the exception is the pass's
      exception, and the rows after it are not visited. */
  predicate FollowsSteps(rows: seq<CronRow>, env: Env, r: Scan)
    requires env.Valid()
  {
    var j := FirstFailing(rows, env);
    && |r.rows| == |rows|
    && r.error == (if j < |rows| then StepRow(rows[j], env).error else None)
    && (forall i :: 0 <= i < |rows| && i <= j ==> r.rows[i] == CronRow(rows[i].rule, StepRow(rows[i], env).condition))
    && (forall i :: j < i < |rows| ==> r.rows[i] == rows[i])
    && r.invocations == StepInvocations(rows, env, if j < |rows| then j + 1 else |rows|)
  }

  /** A first step that does not raise, followed by a pass over the other
      rows, is a pass over all of them. */
  lemma FollowsStepsAfterStep(rows: seq<CronRow>, env: Env, rest: Scan)
    requires env.Valid() && |rows| > 0 && StepRow(rows[0], env).error.None?
    requires FollowsSteps(rows[1..], env, rest)
    ensures var step := StepRow(rows[0], env);
            FollowsSteps(rows, env, Scan([CronRow(rows[0].rule, step.condition)] + rest.rows,
                                         step.invocations + rest.invocations, step.output + rest.output, rest.error))
  {
    var step := StepRow(rows[0], env);
    var r := Scan([CronRow(rows[0].rule, step.condition)] + rest.rows,
                  step.invocations + rest.invocations, step.output + rest.output, rest.error);
    var j := FirstFailing(rows, env);
    assert j == 1 + FirstFailing(rows[1..], env);
    ErrorAfterStep(rows, env, rest, r);
    RowsAfterStep(rows, env, rest, r);
    var n := if j < |rows| then j + 1 else |rows|;
    assert StepInvocations(rows, env, n) == step.invocations + StepInvocations(rows[1..], env, n - 1);
  }

  /** The same for the lines written. */
  lemma OutputsAfterStep(rows: seq<CronRow>, env: Env, rest: seq<Line>)
    requires env.Valid() && |rows| > 0 && StepRow(rows[0], env).error.None?
    requires rest == StepOutputs(rows[1..], env, Visited(rows[1..], env))
    ensures StepRow(rows[0], env).output + rest == StepOutputs(rows, env, Visited(rows, env))
  {
    VisitedAfterStep(rows, env);
    StepOutputsUnfold(rows, env, Visited(rows[1..], env));
  }

  /** A pass whose first step completes visits one row more than the pass
      over the other rows. */
  lemma VisitedAfterStep(rows: seq<CronRow>, env: Env)
    requires env.Valid() && |rows| > 0 && StepRow(rows[0], env).error.None?
    ensures Visited(rows, env) == 1 + Visited(rows[1..], env)
  {
    assert FirstFailing(rows, env) == 1 + FirstFailing(rows[1..], env);
  }

  lemma StepOutputsUnfold(rows: seq<CronRow>, env: Env, n: nat)
    requires env.Valid() && n < |rows|
    ensures StepOutputs(rows, env, n + 1) == StepRow(rows[0], env).output + StepOutputs(rows[1..], env, n)
  {
  }

  lemma ErrorAfterStep(rows: seq<CronRow>, env: Env, rest: Scan, r: Scan)
    requires env.Valid() && |rows| > 0 && StepRow(rows[0], env).error.None?
    requires FollowsSteps(rows[1..], env, rest) && r.error == rest.error
    ensures var j := FirstFailing(rows, env);
            r.error == (if j < |rows| then StepRow(rows[j], env).error else None)
  {
    var j' := FirstFailing(rows[1..], env);
    assert FirstFailing(rows, env) == 1 + j';
    if j' < |rows| - 1 {
      assert rows[1..][j'] == rows[j' + 1];
    }
  }

  lemma RowsAfterStep(rows: seq<CronRow>, env: Env, rest: Scan, r: Scan)
    requires env.Valid() && |rows| > 0 && StepRow(rows[0], env).error.None?
    requires FollowsSteps(rows[1..], env, rest)
    requires r.rows == [CronRow(rows[0].rule, StepRow(rows[0], env).condition)] + rest.rows
    ensures var j := FirstFailing(rows, env);
            && (forall i :: 0 <= i < |rows| && i <= j ==> r.rows[i] == CronRow(rows[i].rule, StepRow(rows[i], env).condition))
            && (forall i :: j < i < |rows| ==> r.rows[i] == rows[i])
  {
    var j' := FirstFailing(rows[1..], env);
    assert FirstFailing(rows, env) == 1 + j';
    var f: CronRow -> CronRow := (row: CronRow) => CronRow(row.rule, StepRow(row, env).condition);
    AgreeAfterShift(rows, f, rest.rows, r.rows, j');
    RowsNotVisited(rows, rest.rows, r.rows, j');
  }

  /** Prepending the image of the first element to the images of a prefix
      of the rest gives the images of a prefix of the whole. */
  lemma AgreeAfterShift<A, B>(xs: seq<A>, f: A -> B, rest: seq<B>, r: seq<B>, m: int)
    requires |xs| > 0 && |rest| == |xs| - 1 && r == [f(xs[0])] + rest
    requires forall i :: 0 <= i < |rest| && i <= m ==> rest[i] == f(xs[1..][i])
    ensures forall i :: 0 <= i < |xs| && i <= m + 1 ==> r[i] == f(xs[i])
  {
    forall i | 1 <= i < |xs| && i <= m + 1 ensures r[i] == f(xs[i]) {
      assert xs[1..][i - 1] == xs[i];
    }
  }

  lemma RowsNotVisited(rows: seq<CronRow>, rest: seq<CronRow>, r: seq<CronRow>, j': nat)
    requires |rows| > 0 && |rest| == |rows| - 1 && |r| == |rows|
    requires forall i :: j' < i < |rows| - 1 ==> rest[i] == rows[1..][i]
    requires forall i :: 0 < i < |rows| ==> r[i] == rest[i - 1]
    ensures forall i :: j' + 1 < i < |rows| ==> r[i] == rows[i]
  {
    forall i | j' + 1 < i < |rows| ensures r[i] == rows[i] {
      assert rows[1..][i - 1] == rows[i];
    }
  }

  /** The loop over the conditions: rows with a null rule are passed over;
      an exception ends the loop, keeping what earlier rows stored. */
  function ScanRows(rows: seq<CronRow>, env: Env): (r: Scan)
    requires env.Valid()
    ensures |r.rows| == |rows|
    // Every row keeps its rule and kind and at most gains a new
    // `last_executed`; rows without a rule or an action are not changed.
    ensures forall i :: 0 <= i < |rows| ==> RowShape(rows[i], r.rows[i], env)
    ensures SuccessLines(r.output) == |r.invocations|
    ensures AllDone !in r.output
    ensures r.invocations == [] ==> r.rows == rows
    ensures FollowsSteps(rows, env, r)
    ensures r.output == StepOutputs(rows, env, Visited(rows, env))
    decreases |rows|
  {
    if |rows| == 0 then Scan([], [], [], None)
    else
      var step := StepRow(rows[0], env);
      var row' := CronRow(rows[0].rule, step.condition);
      if step.error.Some? then
        var r := Scan([row'] + rows[1..], step.invocations, step.output, step.error);
        FirstStepRaisesShape(rows, env, r);
        FirstStepRaisesFollows(rows, env, r);
        r
      else
        var rest := ScanRows(rows[1..], env);
        var r := Scan([row'] + rest.rows, step.invocations + rest.invocations, step.output + rest.output, rest.error);
        SuccessLinesAppend(step.output, rest.output);
        ShapeAfterStep(rows, env, rest.rows, r.rows);
        UnchangedAfterStep(rows, env, rest, r);
        FollowsStepsAfterStep(rows, env, rest);
        OutputsAfterStep(rows, env, rest.output);
        r
  }

  /** How a row can change in a pass: it keeps its rule and kind, and at
      most gains a new `last_executed`; a row without a rule or without an
      action does not change. */
  predicate RowShape(row: CronRow, row': CronRow, env: Env) {
    && row'.rule == row.rule
    && row'.condition.kind == row.condition.kind
    && (row'.condition == row.condition || row'.condition == Ran(row.condition, env.now))
    && (row.rule.None? ==> row' == row)
    && (row.rule.Some? && row.rule.value.action.None? ==> row' == row)
  }

  /** A first row of the right shape followed by the other rows, each of
      the right shape, are all of the right shape. */
  lemma ShapeAfterStep(rows: seq<CronRow>, env: Env, rest: seq<CronRow>, r: seq<CronRow>)
    requires env.Valid() && |rows| > 0 && |rest| == |rows| - 1
    requires r == [CronRow(rows[0].rule, StepRow(rows[0], env).condition)] + rest
    requires forall i :: 0 <= i < |rows| - 1 ==> RowShape(rows[1..][i], rest[i], env)
    ensures forall i :: 0 <= i < |rows| ==> RowShape(rows[i], r[i], env)
  {
    assert RowShape(rows[0], r[0], env);
    forall i | 1 <= i < |rows| ensures RowShape(rows[i], r[i], env) {
      assert rows[1..][i - 1] == rows[i];
      assert r[i] == rest[i - 1];
    }
  }

  /** A pass that ran nothing changed nothing. */
  lemma UnchangedAfterStep(rows: seq<CronRow>, env: Env, rest: Scan, r: Scan)
    requires env.Valid() && |rows| > 0
    requires rest.invocations == [] ==> rest.rows == rows[1..]
    requires r.rows == [CronRow(rows[0].rule, StepRow(rows[0], env).condition)] + rest.rows
    requires r.invocations == StepRow(rows[0], env).invocations + rest.invocations
    ensures r.invocations == [] ==> r.rows == rows
  {
    if r.invocations == [] {
      assert rest.invocations == [];
      assert [rows[0]] + rows[1..] == rows;
    }
  }

  /** The rows of a pass whose first step raises: only the first may have
      changed, and only if its action ran. */
  lemma FirstStepRaisesShape(rows: seq<CronRow>, env: Env, r: Scan)
    requires env.Valid() && |rows| > 0
    requires r.rows == [CronRow(rows[0].rule, StepRow(rows[0], env).condition)] + rows[1..]
    requires r.invocations == StepRow(rows[0], env).invocations
    ensures |r.rows| == |rows|
    ensures forall i :: 0 <= i < |rows| ==> RowShape(rows[i], r.rows[i], env)
    ensures r.invocations == [] ==> r.rows == rows
  {
    assert RowShape(rows[0], r.rows[0], env);
    forall i | 1 <= i < |rows| ensures RowShape(rows[i], r.rows[i], env) {
      assert r.rows[i] == rows[1..][i - 1] == rows[i];
    }
    if r.invocations == [] {
      assert [rows[0]] + rows[1..] == rows;
    }
  }

  /** A pass whose first step raises follows that one step. */
  lemma FirstStepRaisesFollows(rows: seq<CronRow>, env: Env, r: Scan)
    requires env.Valid() && |rows| > 0 && StepRow(rows[0], env).error.Some?
    requires r == Scan([CronRow(rows[0].rule, StepRow(rows[0], env).condition)] + rows[1..],
                       StepRow(rows[0], env).invocations, StepRow(rows[0], env).output, StepRow(rows[0], env).error)
    ensures FollowsSteps(rows, env, r)
    ensures r.output == StepOutputs(rows, env, Visited(rows, env))
  {
    assert FirstFailing(rows, env) == 0;
    assert Visited(rows, env) == 1;
    assert StepInvocations(rows, env, 1) == StepRow(rows[0], env).invocations + [];
    assert StepOutputs(rows, env, 1) == StepRow(rows[0], env).output + [];
    forall i | 0 < i < |rows| ensures r.rows[i] == rows[i] {
      assert r.rows[i] == rows[1..][i - 1];
    }
  }

  /** `Command.handle()`: the loop, then the closing line, which is written
      only when no exception ended the loop. */
  function Handle(rows: seq<CronRow>, env: Env): (r: Scan)
    requires env.Valid()
    ensures r.error.None? <==> |r.output| > 0 && r.output[|r.output| - 1] == AllDone
    ensures forall k :: 0 <= k < |r.output| - 1 ==> r.output[k] != AllDone
    ensures |r.rows| == |rows|
    ensures SuccessLines(r.output) == |r.invocations|
    ensures FollowsSteps(rows, env, r)
    ensures r.output == StepOutputs(rows, env, Visited(rows, env)) + (if r.error.None? then [AllDone] else [])
  {
    var s := ScanRows(rows, env);
    if s.error.None? then
      SuccessLinesAppend(s.output, [AllDone]);
      s.(output := s.output + [AllDone])
    else s
  }

  /** Every action run of a step within the first `n` rows is among the
      runs of those rows. */
  lemma StepInvocationsInclude(rows: seq<CronRow>, env: Env, n: nat, i: nat)
    requires env.Valid() && i < n <= |rows|
    ensures forall x :: x in StepRow(rows[i], env).invocations ==> x in StepInvocations(rows, env, n)
  {
    ConcatMapInclude(rows, StepRuns(env), n, i);
  }

  /** Every line of a visited step is among the pass's lines. */
  lemma StepOutputsInclude(rows: seq<CronRow>, env: Env, n: nat, i: nat)
    requires env.Valid() && i < n <= |rows|
    ensures forall x :: x in StepRow(rows[i], env).output ==> x in StepOutputs(rows, env, n)
  {
    ConcatMapInclude(rows, StepLines(env), n, i);
  }

  /** A pass that completes warns about every rule without an action. */
  lemma RuleWithoutActionWarned(rows: seq<CronRow>, env: Env, i: nat)
    requires env.Valid() && i < |rows|
    requires Handle(rows, env).error.None?
    requires rows[i].rule.Some? && rows[i].rule.value.action.None?
    ensures NoAction(rows[i].rule.value.pk) in Handle(rows, env).output
  {
    assert FirstFailing(rows, env) == |rows|;
    assert StepRow(rows[i], env).output == [NoAction(rows[i].rule.value.pk)];
    StepOutputsInclude(rows, env, |rows|, i);
  }

  /** A pass that completes runs every rule whose date condition is met and
      has an action, once and without an instance, and stamps the
      condition with the clock. */
  lemma MetDateConditionIsRun(rows: seq<CronRow>, env: Env, i: nat)
    requires env.Valid() && i < |rows|
    requires Handle(rows, env).error.None?
    requires rows[i].rule.Some? && rows[i].rule.value.action.Some? && DateKind(rows[i].condition.kind)
    requires IsMet(rows[i].condition, env.now, None, env.custom) == Success(true)
    ensures Handle(rows, env).rows[i] == CronRow(rows[i].rule, Ran(rows[i].condition, env.now))
    ensures var rule := rows[i].rule.value;
            RunAction(rule.action.value, None, env.undeliverable).Success? &&
            Invocation(rule.pk, None, RunAction(rule.action.value, None, env.undeliverable).value) in Handle(rows, env).invocations
  {
    var r := Handle(rows, env);
    assert FirstFailing(rows, env) == |rows|;
    var step := StepRow(rows[i], env);
    assert step.error.None?;
    assert CronSpecific(rows[i].condition) == Generic;
    StepInvocationsInclude(rows, env, |rows|, i);
  }

  /** No isolation: when a condition is met and its action raises, and no
      earlier step raised, the pass ends there. That row is not stamped,
      no later row is visited, the runs are those of the earlier steps
      only, and "All done!" is not written. */
  lemma RaisingActionEndsPass(rows: seq<CronRow>, env: Env, j: nat)
    requires env.Valid() && j < |rows|
    requires forall i :: 0 <= i < j ==> StepRow(rows[i], env).error.None?
    requires rows[j].rule.Some? && rows[j].rule.value.action.Some? && DateKind(rows[j].condition.kind)
    requires IsMet(rows[j].condition, env.now, None, env.custom) == Success(true)
    requires RunAction(rows[j].rule.value.action.value, None, env.undeliverable).Failure?
    ensures Handle(rows, env).error == Some(RunAction(rows[j].rule.value.action.value, None, env.undeliverable).error)
    ensures Handle(rows, env).rows[j] == rows[j]
    ensures forall i :: j < i < |rows| ==> Handle(rows, env).rows[i] == rows[i]
    ensures Handle(rows, env).invocations == StepInvocations(rows, env, j)
    ensures AllDone !in Handle(rows, env).output
  {
    RaisingStep(rows[j], env);
    FirstFailingAt(rows, env, j);
    var r := Handle(rows, env);
    ConcatMapSnoc(rows, StepRuns(env), j);
    assert r.invocations == StepInvocations(rows, env, j + 1);
    assert |r.output| == 0 || r.output[|r.output| - 1] != AllDone;
  }

  /** The first row that raises is the one after a run of rows that do not. */
  lemma FirstFailingAt(rows: seq<CronRow>, env: Env, j: nat)
    requires env.Valid() && j < |rows|
    requires forall i :: 0 <= i < j ==> StepRow(rows[i], env).error.None?
    requires StepRow(rows[j], env).error.Some?
    ensures FirstFailing(rows, env) == j
  {
  }

  /** A generic date condition that is met, on a rule whose action raises:
      the step raises that exception and changes nothing. */
  lemma RaisingStep(row: CronRow, env: Env)
    requires env.Valid()
    requires row.rule.Some? && row.rule.value.action.Some? && DateKind(row.condition.kind)
    requires IsMet(row.condition, env.now, None, env.custom) == Success(true)
    requires RunAction(row.rule.value.action.value, None, env.undeliverable).Failure?
    ensures StepRow(row, env) ==
              Step(row.condition, [], [], Some(RunAction(row.rule.value.action.value, None, env.undeliverable).error))
  {
    assert CronSpecific(row.condition) == Generic;
  }

  predicate DateKind(k: CronKind) {
    k.DayOfMonth? || k.DayOfWeek?
  }

  predicate SameDay(env: Env, env': Env) {
    env.Valid() && env'.Valid() && env'.now.date == env.now.date
  }

  /** A date condition processed twice on the same date runs its action at
      most once: the second time it is not met, and nothing changes. */
  lemma RowRunsOncePerDay(row: CronRow, env: Env, env': Env)
    requires SameDay(env, env') && DateKind(row.condition.kind)
    requires StepRow(row, env).error.None?
    ensures var first := StepRow(row, env);
            var second := StepRow(CronRow(row.rule, first.condition), env');
            second.invocations == [] && second.condition == first.condition && second.error.None?
  {
    var c := row.condition;
    if row.rule.Some? && row.rule.value.action.Some? {
      assert CronSpecific(c) == Generic;
      assert CronSpecific(Ran(c, env.now)) == Generic;
      assert IsMet(Ran(c, env.now), env'.now, None, env'.custom) == Success(false);
      assert IsMet(c, env'.now, None, env'.custom) == IsMet(c, env.now, None, env.custom);
    }
  }

  lemma {:induction false} ScanRowsRunsOncePerDay(rows: seq<CronRow>, env: Env, env': Env)
    requires SameDay(env, env')
    requires forall i :: 0 <= i < |rows| ==> DateKind(rows[i].condition.kind)
    requires ScanRows(rows, env).error.None?
    ensures var first := ScanRows(rows, env);
            var second := ScanRows(first.rows, env');
            second.invocations == [] && second.rows == first.rows && second.error.None?
    decreases |rows|
  {
    if |rows| > 0 {
      var first := ScanRows(rows, env);
      var step := StepRow(rows[0], env);
      var rest := ScanRows(rows[1..], env);
      assert step.error.None?;
      assert first.rows == [CronRow(rows[0].rule, step.condition)] + rest.rows;
      RowRunsOncePerDay(rows[0], env, env');
      ScanRowsRunsOncePerDay(rows[1..], env, env');
      assert first.rows[1..] == rest.rows;
    }
  }

  /** Idempotence: when a pass over date conditions completes, a second pass
      on the same date runs no action and changes no row. */
  lemma SecondRunSameDayRunsNothing(rows: seq<CronRow>, env: Env, env': Env)
    requires SameDay(env, env')
    requires forall i :: 0 <= i < |rows| ==> DateKind(rows[i].condition.kind)
    requires Handle(rows, env).error.None?
    ensures var first := Handle(rows, env);
            var second := Handle(first.rows, env');
            second.invocations == [] && second.rows == first.rows && second.error.None?
  {
    ScanRowsRunsOncePerDay(rows, env, env');
  }

  /** When no instance meets the condition, the model-specific branch runs
      nothing and records nothing. */
  lemma {:induction false} UnmetInstancesRunNothing(pk: nat, action: Action, c: CronCondition,
                                                      instances: seq<Instance>, env: Env)
    requires env.Valid()
    requires forall k :: 0 <= k < |instances| ==> IsMet(c, env.now, Some(instances[k]), env.custom) == Success(false)
    ensures ScanInstances(pk, action, c, instances, env) == Step(c, [], [], None)
    decreases |instances|
  {
    if |instances| > 0 {
      UnmetInstancesRunNothing(pk, action, c, instances[1..], env);
    }
  }

  /** The coarse guard: for an evaluator that, like the date conditions,
      answers no once `last_executed` is now, the first instance that meets
      the condition suppresses every later instance of the same pass. */
  lemma {:induction false} GuardedEvaluatorRunsOnce(pk: nat, action: Action, c: CronCondition,
                                                      instances: seq<Instance>, env: Env)
    requires env.Valid() && c.kind.CustomCron?
    requires forall i :: env.custom(c.kind.name, Some(env.now), env.now, i) == Success(false)
    ensures |ScanInstances(pk, action, c, instances, env).invocations| <= 1
    decreases |instances|
  {
    if |instances| > 0 {
      var i := instances[0];
      match IsMet(c, env.now, Some(i), env.custom)
      case Failure(_) =>
      case Success(false) =>
        GuardedEvaluatorRunsOnce(pk, action, c, instances[1..], env);
      case Success(true) =>
        var c' := Ran(c, env.now);
        forall k | 0 <= k < |instances[1..]|
          ensures IsMet(c', env.now, Some(instances[1..][k]), env.custom) == Success(false)
        {
          assert env.custom(c.kind.name, Some(env.now), env.now, Some(instances[1..][k])) == Success(false);
        }
        UnmetInstancesRunNothing(pk, action, c', instances[1..], env);
    }
  }

  function ScenarioRows(): seq<CronRow> {
    [CronRow(Some(Rule(1, None, Some(LoggerAction(INFO, "hi")))), CronCondition(DayOfMonth(2), None))]
  }

  function ScenarioEnv(d: Date): Env {
    Env(DateTime(d, 0), map[], {}, (name, last, now, instance) => Success(false))
  }

  /** The scenario's rows after the pass of 2016-01-02. */
  function StampedRows(): seq<CronRow> {
    [CronRow(ScenarioRows()[0].rule, Ran(ScenarioRows()[0].condition, DateTime(Date(2016, 1, 2), 0)))]
  }

  /** A rule with "day 2 of the month" and a logger action at INFO with
      message "hi": no log on 2016-01-01; one log on 2016-01-02, which is
      recorded; none on a second pass that day; one more on 2016-02-02. */
  lemma MonthlyLoggerScenario()
    ensures Date(2016, 1, 1).Valid() && Date(2016, 1, 2).Valid() && Date(2016, 2, 2).Valid()
    ensures Handle(ScenarioRows(), ScenarioEnv(Date(2016, 1, 1))).invocations == []
    ensures var jan2 := Handle(ScenarioRows(), ScenarioEnv(Date(2016, 1, 2)));
            && jan2.invocations == [Invocation(1, None, Logged(LogRecord(INFO, "hi")))]
            && jan2.output == [Executed(1), AllDone]
            && jan2.rows[0].condition.lastExecuted == Some(DateTime(Date(2016, 1, 2), 0))
            && Handle(jan2.rows, ScenarioEnv(Date(2016, 1, 2))).invocations == []
            && Handle(jan2.rows, ScenarioEnv(Date(2016, 2, 2))).invocations
               == [Invocation(1, None, Logged(LogRecord(INFO, "hi")))]
  {
    ScenarioNotDue();
    ScenarioFirstRun();
    ScenarioRerun();
    ScenarioNextMonth();
  }

  lemma ScenarioNotDue()
    ensures Date(2016, 1, 1).Valid()
    ensures Handle(ScenarioRows(), ScenarioEnv(Date(2016, 1, 1))).invocations == []
  {
    assert CronSpecific(ScenarioRows()[0].condition) == Generic;
  }

  lemma ScenarioFirstRun()
    ensures Date(2016, 1, 2).Valid()
    ensures Handle(ScenarioRows(), ScenarioEnv(Date(2016, 1, 2)))
            == Scan(StampedRows(), [Invocation(1, None, Logged(LogRecord(INFO, "hi")))], [Executed(1), AllDone], None)
  {
    var rows := ScenarioRows();
    var env := ScenarioEnv(Date(2016, 1, 2));
    var c := rows[0].condition;
    var rule := rows[0].rule.value;
    assert CronSpecific(c) == Generic;
    var step := ProcessRow(rule, c, env);
    assert step == Step(Ran(c, env.now), [Invocation(1, None, Logged(LogRecord(INFO, "hi")))], [Executed(1)], None);
    assert ScanRows(rows[1..], env) == Scan([], [], [], None);
  }

  lemma ScenarioRerun()
    ensures Date(2016, 1, 2).Valid()
    ensures Handle(StampedRows(), ScenarioEnv(Date(2016, 1, 2))).invocations == []
  {
    assert CronSpecific(StampedRows()[0].condition) == Generic;
  }

  lemma ScenarioNextMonth()
    ensures Date(2016, 2, 2).Valid()
    ensures Handle(StampedRows(), ScenarioEnv(Date(2016, 2, 2))).invocations
            == [Invocation(1, None, Logged(LogRecord(INFO, "hi")))]
  {
    var rows := StampedRows();
    var env := ScenarioEnv(Date(2016, 2, 2));
    var c := rows[0].condition;
    var rule := rows[0].rule.value;
    assert CronSpecific(c) == Generic;
    assert ProcessRow(rule, c, env).invocations == [Invocation(1, None, Logged(LogRecord(INFO, "hi")))];
    assert ScanRows(rows[1..], env) == Scan([], [], [], None);
  }
}
