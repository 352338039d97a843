/**
 * The `Notifier` base class: a live notification builder, the baseline copy
 * taken at construction, the shared name cache, the builder mutators that
 * return the notifier for chaining, and `send`.
 */
module Notifiers {
  import opened Wrappers
  import opened Php
  import opened Names
  import opened Notification

  /**
   * The static property `$name`, declared once in the abstract base class.
   * Every notifier class that does not redeclare it shares one slot; a class
   * that does redeclare it has a slot of its own, with its declared value.
   */
  class NameSlot {
    var slot: Option<string>

    constructor (declared: Option<string>)
      ensures slot == declared
    {
      slot := declared;
    }
  }

  class Notifier<V, R> {
    /** The collaborators outside this class. */
    const env: Environment<V, R>
    /** The fully qualified name of the concrete notifier class, `get_class($this)`. */
    const className: string
    /** The `static::$name` slot this class resolves to. */
    const names: NameSlot
    /** The builder every mutator and action works on. */
    var live: NotificationState<V>
    /** The copy of the builder taken at construction, which every reset restores. */
    var baseline: NotificationState<V>
    /** The builder state at construction. */
    ghost const initial: NotificationState<V>

    /** The baseline still is the state at construction. */
    ghost predicate Valid()
      reads this
    {
      baseline == initial
    }

    /** Takes the given builder, or a new one, and keeps a copy of it as the baseline. */
    constructor (env: Environment<V, R>, className: string, names: NameSlot,
                 notification: Option<NotificationState<V>>)
      ensures Valid()
      ensures this.env == env && this.className == className && this.names == names
      ensures initial == if notification.Some? then notification.value else env.blank
      ensures live == initial && baseline == initial
    {
      var n := if notification.Some? then notification.value else env.blank;
      this.env := env;
      this.className := className;
      this.names := names;
      this.initial := n;
      live := n;
      baseline := n;
    }

    /** The notifier's name, from the cache slot, derived and stored when the slot is falsy. */
    method GetName() returns (name: string)
      modifies names
      ensures Lookup(name, names.slot) == ResolveName(old(names.slot), className)
    {
      if !Truthy(names.slot) {
        names.slot := Some(DeriveName(className));
      }
      name := names.slot.value;
    }

    /** Sets the layout to use and returns the notifier. */
    method Layout(layout: string) returns (self: Notifier<V, R>)
      requires Valid()
      modifies this`live
      ensures Valid() && self == this
      ensures live == old(live).(layout := Some(layout))
    {
      live := live.(layout := Some(layout));
      self := this;
    }

    /** Hands one variable, or a hash of them, to the builder's view variables and returns the notifier. */
    method Set(key: ViewKey<V>, value: V) returns (self: Notifier<V, R>)
      requires Valid()
      modifies this`live
      ensures Valid() && self == this
      ensures live == old(live).(viewVars := env.mergeVars(old(live).viewVars, VarsArgument(key, value)))
    {
      live := live.(viewVars := env.mergeVars(live.viewVars, VarsArgument(key, value)));
      self := this;
    }

    /**
     * Forwards a call the notifier does not define to the builder and returns
     * the notifier; whatever the builder throws propagates.
     */
    method Call(op: string, args: seq<V>) returns (r: Result<Notifier<V, R>, Error>)
      requires Valid()
      modifies this`live
      ensures Valid()
      ensures live == env.builderCall(op, args, old(live)).state
      ensures r == match env.builderCall(op, args, old(live))
                   case Returned(_) => Success(this)
                   case Raised(_, message) => Failure(Thrown(message))
    {
      var outcome := env.builderCall(op, args, live);
      live := outcome.state;
      if outcome.Raised? {
        return Failure(Thrown(outcome.message));
      }
      return Success(this);
    }

    /**
     * Runs the action `action` with `args`, delivers the notification, restores
     * the baseline and returns delivery's result.
     */
    method Send(action: string, args: seq<V>) returns (r: Result<R, Error>)
      requires Valid()
      modifies this`live, names
      ensures Valid()
      ensures var step := Dispatch(env, className, old(names.slot), old(live), baseline, action, args);
              r == step.result && live == step.live && names.slot == step.slot
      ensures !env.hasAction(action) ==> live == old(live)
      ensures r.Success? ==> live == initial
    {
      if !env.hasAction(action) {
        var name := GetName();
        return Failure(MissingAction(name + Suffix, action));
      }
      if !Truthy(live.template) {
        live := live.(template := Some(action));
      }
      var outcome := env.runAction(action, args, live);
      live := outcome.state;
      if outcome.Raised? {
        return Failure(Thrown(outcome.message));
      }
      var delivery := env.deliver(live);
      if delivery.Failure? {
        return Failure(Thrown(delivery.error));
      }
      var _ := Reset();
      return Success(delivery.value);
    }

    /** Replaces the builder with a fresh copy of the baseline and returns the notifier. */
    method Reset() returns (self: Notifier<V, R>)
      requires Valid()
      modifies this`live
      ensures Valid() && self == this
      ensures live == baseline && live == initial
    {
      live := baseline;
      self := this;
    }
  }
}
