/** The model signal condition and its subscription on Django's signal bus.
    The bus is abstracted as a finite map from a registration key (signal,
    sender model, dispatch id) to the receiver: the bound `run_action` of the
    rule's action, held strongly. `connect` keeps an existing registration
    under the same key (so connecting twice never duplicates a receiver) and
    `disconnect` removes the key. */
module Signals {
  import opened Wrappers
  import opened Entities
  import opened Rules

  /** `getattr(models.signals, name)` for the six stored choices. */
  function ParseSignal(name: string): (r: Option<Signal>)
    ensures r.Some? ==> SignalName(r.value) == name
  {
    if name == "pre_init" then Some(PreInit)
    else if name == "post_init" then Some(PostInit)
    else if name == "pre_save" then Some(PreSave)
    else if name == "post_save" then Some(PostSave)
    else if name == "pre_delete" then Some(PreDelete)
    else if name == "post_delete" then Some(PostDelete)
    else None
  }

  /** The signal choices are exactly six names, and each names its signal. */
  lemma SignalChoicesRoundTrip(s: Signal, name: string)
    ensures ParseSignal(SignalName(s)) == Some(s)
    ensures ParseSignal(name).Some? <==>
              name in {"pre_init", "post_init", "pre_save", "post_save", "pre_delete", "post_delete"}
  {
  }

  /** A model signal condition row with the rule it is linked to. `pk` is
      null until the row is first stored; `dispatchUid` is drawn once, when
      the row is created. */
  datatype SignalCondition = SignalCondition(pk: Option<int>, signal: Signal, dispatchUid: Uuid, rule: Rule)

  datatype BusKey = BusKey(signal: Signal, sender: Option<ModelClass>, dispatchUid: Uuid)

  /** `rule.action.run_action`, bound to the action as it was when connected. */
  datatype Receiver = Receiver(rulePk: nat, action: Action)

  type Bus = map<BusKey, Receiver>

  /** The key a condition registers under: its signal, its rule's target
      model as sender (None, meaning every sender, when the rule has no target
      model) and its dispatch id. */
  function Key(c: SignalCondition): BusKey {
    BusKey(c.signal, TargetModel(c.rule), c.dispatchUid)
  }

  /** `connect_signal()`: with a linked action the condition's key is
      registered with the action as receiver; without one nothing happens.
      No other registration is touched. */
  function ConnectSignal(c: SignalCondition, bus: Bus): (r: Bus)
    ensures c.rule.action.None? ==> r == bus
    ensures c.rule.action.Some? ==> r.Keys == bus.Keys + {Key(c)}
    ensures c.rule.action.Some? && Key(c) !in bus ==> r[Key(c)] == Receiver(c.rule.pk, c.rule.action.value)
    ensures forall k :: k in bus ==> k in r && r[k] == bus[k]
  {
    match c.rule.action
    case None => bus
    case Some(a) => if Key(c) in bus then bus else bus[Key(c) := Receiver(c.rule.pk, a)]
  }

  /** `disconnects_signal()`: with a linked action the registration under the
      condition's key is removed; without one nothing happens. */
  function DisconnectSignal(c: SignalCondition, bus: Bus): (r: Bus)
    ensures c.rule.action.None? ==> r == bus
    ensures c.rule.action.Some? ==> r.Keys == bus.Keys - {Key(c)}
    ensures forall k :: k in r ==> r[k] == bus[k]
  {
    match c.rule.action
    case None => bus
    case Some(_) => bus - {Key(c)}
  }

  /** Python's `not self.pk`: the row has not been stored yet. */
  predicate Unsaved(c: SignalCondition) {
    c.pk.None? || c.pk.value == 0
  }

  datatype Saved = Saved(condition: SignalCondition, bus: Bus, stored: bool)

  /** `save()`: on the first save the signal is connected, BEFORE the row is
      written; then the row is stored (receiving `newPk` if it had no
      primary key) or the write fails. */
  function Save(c: SignalCondition, bus: Bus, newPk: int, storageOk: bool): (r: Saved)
    ensures !Unsaved(c) ==> r.bus == bus
    ensures Unsaved(c) ==> r.bus == ConnectSignal(c, bus)
    ensures Unsaved(c) && c.rule.action.Some? ==> Key(c) in r.bus
    ensures r.bus.Keys <= bus.Keys + {Key(c)}
    ensures forall k :: k in bus ==> k in r.bus && r.bus[k] == bus[k]
    ensures r.stored == storageOk
    ensures r.condition == (if storageOk && c.pk.None? then c.(pk := Some(newPk)) else c)
  {
    var bus' := if Unsaved(c) then ConnectSignal(c, bus) else bus;
    if !storageOk then Saved(c, bus', false)
    else Saved(if c.pk.None? then c.(pk := Some(newPk)) else c, bus', true)
  }

  datatype Deleted = Deleted(bus: Bus, deleted: bool)

  /** `delete()`: the row is deleted first (Django refuses a row without a
      primary key) and only once that has succeeded is the signal
      disconnected. */
  function Delete(c: SignalCondition, bus: Bus, storageOk: bool): (r: Deleted)
    ensures r.deleted <==> storageOk && c.pk.Some?
    ensures !r.deleted ==> r.bus == bus
    ensures r.deleted ==> r.bus == DisconnectSignal(c, bus)
  {
    if storageOk && c.pk.Some? then Deleted(DisconnectSignal(c, bus), true)
    else Deleted(bus, false)
  }

  /** The registrations an emission of `signal` by model `sender` reaches:
      those for that signal whose sender is that model or unrestricted. */
  function Hearing(bus: Bus, signal: Signal, sender: ModelClass): set<BusKey> {
    set k | k in bus && k.signal == signal && (k.sender.None? || k.sender == Some(sender))
  }

  /** After connecting, an emission of the condition's signal by its rule's
      target model reaches the condition's action under exactly one key; an
      emission by another model, or of another signal, does not reach that
      key. */
  lemma ConnectedConditionHears(c: SignalCondition, bus: Bus, m: ModelClass, other: ModelClass, s: Signal)
    requires c.rule.action.Some? && TargetModel(c.rule) == Some(m) && Key(c) !in bus
    ensures Key(c) in Hearing(ConnectSignal(c, bus), c.signal, m)
    ensures ConnectSignal(c, bus)[Key(c)] == Receiver(c.rule.pk, c.rule.action.value)
    ensures other != m ==> Key(c) !in Hearing(ConnectSignal(c, bus), c.signal, other)
    ensures s != c.signal ==> Key(c) !in Hearing(ConnectSignal(c, bus), s, m)
  {
  }

  /** A rule without a target model registers with sender None, so its
      action hears the condition's signal from EVERY model. */
  lemma UntargetedConditionHearsEveryModel(c: SignalCondition, bus: Bus, m: ModelClass)
    requires c.rule.action.Some? && TargetModel(c.rule).None?
    ensures Key(c) in Hearing(ConnectSignal(c, bus), c.signal, m)
  {
  }

  /** After disconnecting, no emission reaches the condition's key. */
  lemma DisconnectedConditionIsDeaf(c: SignalCondition, bus: Bus, s: Signal, m: ModelClass)
    requires c.rule.action.Some?
    ensures Key(c) !in Hearing(DisconnectSignal(c, bus), s, m)
  {
  }

  /** Connecting twice is connecting once: no receiver is duplicated. */
  lemma ReconnectChangesNothing(c: SignalCondition, bus: Bus)
    ensures ConnectSignal(c, ConnectSignal(c, bus)) == ConnectSignal(c, bus)
  {
  }

  /** Disconnect undoes a connect that registered a new key. */
  lemma DisconnectUndoesConnect(c: SignalCondition, bus: Bus)
    requires Key(c) !in bus
    ensures DisconnectSignal(c, ConnectSignal(c, bus)) == bus
  {
  }

  /** The subscription lifecycle: a first save that succeeds, followed by a
      delete that succeeds, leaves the bus as it was. */
  lemma SaveThenDeleteRestoresBus(c: SignalCondition, bus: Bus, newPk: int)
    requires Unsaved(c) && Key(c) !in bus
    ensures var saved := Save(c, bus, newPk, true);
            var deleted := Delete(saved.condition, saved.bus, true);
            deleted.deleted && deleted.bus == bus
  {
    var saved := Save(c, bus, newPk, true);
    assert Key(saved.condition) == Key(c);
    DisconnectUndoesConnect(c, bus);
  }

  /** A first save whose write fails still leaves the signal connected, since
      connecting happens before the write; a failed delete leaves it
      connected too, since disconnecting happens after the delete. */
  lemma FailedWritesKeepSubscription(c: SignalCondition, bus: Bus, newPk: int)
    requires Unsaved(c) && c.rule.action.Some?
    ensures var saved := Save(c, bus, newPk, false);
            !saved.stored && Key(c) in saved.bus && Key(c) in Delete(c, saved.bus, false).bus
  {
  }

  /** Saving a stored condition again does not reconnect: once connected, the
      registration keeps the action as it was at connect time, even after the
      rule's action has been changed. */
  lemma ResaveKeepsOldReceiver(c: SignalCondition, bus: Bus, edited: Action, newPk: int, ok: bool)
    requires c.rule.action.Some? && Key(c) in bus
    requires c.pk.Some? && c.pk.value != 0
    ensures var c' := c.(rule := c.rule.(action := Some(edited)));
            Save(c', bus, newPk, ok).bus[Key(c')] == bus[Key(c)]
  {
  }
}
