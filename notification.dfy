/**
 * The notification builder as a value, the collaborators the notifier calls
 * but does not define, and `send` as a function from the notifier's state to
 * its result and next state.
 */
module Notification {
  import opened Wrappers
  import opened Php
  import opened Names

  /**
   * The builder state a notifier owns: template, layout, view variables, and
   * every other property of the builder (recipients, transport, headers and
   * the like), keyed by property name. Only the abstract collaborators read or
   * write `properties`; the notifier itself copies and restores it whole.
   */
  datatype NotificationState<V> = NotificationState(
    template: Option<string>,
    layout: Option<string>,
    viewVars: map<string, V>,
    properties: map<string, V>)

  /** The state after a builder operation or an action body ran: normally, or by throwing. */
  datatype Outcome<V> =
    | Returned(state: NotificationState<V>)
    | Raised(state: NotificationState<V>, message: string)

  /** What `send` and the forwarding of calls can signal to their caller. */
  datatype Error =
    | MissingAction(notifier: string, action: string)
    | Thrown(message: string)

  /**
   * The collaborators of the notifier that live outside it: a new
   * `Notification`, the existence test for an action method, the action
   * bodies, the builder methods reached by forwarding, the merge of view
   * variables and the delivery of a finished notification.
   */
  datatype Environment<!V, R> = Environment(
    blank: NotificationState<V>,
    hasAction: string -> bool,
    runAction: (string, seq<V>, NotificationState<V>) -> Outcome<V>,
    builderCall: (string, seq<V>, NotificationState<V>) -> Outcome<V>,
    mergeVars: (map<string, V>, map<string, V>) -> map<string, V>,
    deliver: NotificationState<V> -> Result<R, string>)

  /** The first argument of `set`: one variable name, or a whole hash of variables. */
  datatype ViewKey<V> = Name(name: string) | Vars(vars: map<string, V>)

  /** What `set($key, $value)` hands to the builder's `viewVars`. */
  function VarsArgument<V>(key: ViewKey<V>, value: V): (vars: map<string, V>)
    ensures key.Name? ==> vars.Keys == {key.name} && vars[key.name] == value
    ensures key.Vars? ==> vars == key.vars
  {
    match key
    case Name(k) => map[k := value]
    case Vars(m) => m
  }

  /** The builder state after `send`'s template default: a falsy template becomes the action name. */
  function WithDefaultTemplate<V>(s: NotificationState<V>, action: string): (r: NotificationState<V>)
    ensures r.(template := s.template) == s
    ensures Truthy(s.template) ==> r == s
    ensures !Truthy(s.template) ==> r.template == Some(action)
  {
    if Truthy(s.template) then s else s.(template := Some(action))
  }

  /**
   * One `send` call: its result, the notifier's builder state afterwards, the
   * name cache slot afterwards, and the state that was handed to delivery,
   * if delivery was reached.
   */
  datatype Step<V, R> = Step(
    result: Result<R, Error>,
    live: NotificationState<V>,
    slot: Option<string>,
    delivered: Option<NotificationState<V>>)

  /** The step ended normally, or was refused before anything ran. */
  predicate Clean<V, R>(step: Step<V, R>)
  {
    step.result.Success? || step.result.error.MissingAction?
  }

  /**
   * `send($action, $args)` on a notifier of class `cls` whose cache slot is
   * `slot`, whose builder is `live` and whose baseline is `baseline`.
   */
  function Dispatch<V, R>(env: Environment<V, R>, cls: string, slot: Option<string>,
                          live: NotificationState<V>, baseline: NotificationState<V>,
                          action: string, args: seq<V>): (step: Step<V, R>)
    // an unknown action is refused with the notifier's name, and nothing is touched
    ensures !env.hasAction(action) ==>
      && step.result == Failure(MissingAction(ResolveName(slot, cls).name + Suffix, action))
      && step.live == live && step.delivered == None
      && step.slot == ResolveName(slot, cls).slot
    // a known action does not consult the name
    ensures env.hasAction(action) ==> step.slot == slot
    // what delivery saw is what the action left, starting from the defaulted template
    ensures step.delivered.Some? ==>
      env.runAction(action, args, WithDefaultTemplate(live, action)) == Returned(step.delivered.value)
    // success passes delivery's value through and restores the baseline
    ensures step.result.Success? ==>
      && step.delivered.Some? && step.live == baseline
      && env.deliver(step.delivered.value) == Success(step.result.value)
    // a thrown error comes only from a known action, and the builder is not reset
    ensures step.result.Failure? && step.result.error.Thrown? ==>
      && env.hasAction(action)
      && step.live == env.runAction(action, args, WithDefaultTemplate(live, action)).state
    // a known action is never refused
    ensures env.hasAction(action) ==> !(step.result.Failure? && step.result.error.MissingAction?)
    // an action that throws: its exception passes through unchanged, and delivery is not reached
    ensures var out := env.runAction(action, args, WithDefaultTemplate(live, action));
            env.hasAction(action) && out.Raised? ==>
              step == Step(Failure(Thrown(out.message)), out.state, slot, None)
    // delivery that throws: its exception passes through unchanged, and no reset happens
    ensures var out := env.runAction(action, args, WithDefaultTemplate(live, action));
            env.hasAction(action) && out.Returned? && env.deliver(out.state).Failure? ==>
              step == Step(Failure(Thrown(env.deliver(out.state).error)), out.state, slot, Some(out.state))
    // action and delivery both return: delivery's value is returned and the baseline restored
    ensures var out := env.runAction(action, args, WithDefaultTemplate(live, action));
            env.hasAction(action) && out.Returned? && env.deliver(out.state).Success? ==>
              step == Step(Success(env.deliver(out.state).value), baseline, slot, Some(out.state))
  {
    if !env.hasAction(action) then
      var lookup := ResolveName(slot, cls);
      Step(Failure(MissingAction(lookup.name + Suffix, action)), live, lookup.slot, None)
    else
      match env.runAction(action, args, WithDefaultTemplate(live, action))
      case Raised(s, message) => Step(Failure(Thrown(message)), s, slot, None)
      case Returned(s) =>
        match env.deliver(s)
        case Failure(message) => Step(Failure(Thrown(message)), s, slot, Some(s))
        case Success(value) => Step(Success(value), baseline, slot, Some(s))
  }

  /** The action leaves the template as it finds it. */
  ghost predicate KeepsTemplate<V(!new), R>(env: Environment<V, R>, action: string, args: seq<V>)
  {
    forall s :: env.runAction(action, args, s).state.template == s.template
  }

  /** The action always sets the template to `t`. */
  ghost predicate SetsTemplate<V(!new), R>(env: Environment<V, R>, action: string, args: seq<V>, t: string)
  {
    forall s :: env.runAction(action, args, s).state.template == Some(t)
  }

  /**
   * An action that never sets a template is delivered with the template it
   * found, or with its own name when that template was falsy.
   */
  lemma TemplateAtDelivery<V(!new), R>(env: Environment<V, R>, cls: string, slot: Option<string>,
                                 live: NotificationState<V>, baseline: NotificationState<V>,
                                 action: string, args: seq<V>)
    requires KeepsTemplate(env, action, args)
    ensures var step := Dispatch(env, cls, slot, live, baseline, action, args);
            step.delivered.Some? ==>
              step.delivered.value.template == if Truthy(live.template) then live.template else Some(action)
  {
    var prepared := WithDefaultTemplate(live, action);
    assert env.runAction(action, args, prepared).state.template == prepared.template;
  }

  /** An action that sets the template explicitly overrides the default, whatever the action's name. */
  lemma ActionTemplateWins<V(!new), R>(env: Environment<V, R>, cls: string, slot: Option<string>,
                                 live: NotificationState<V>, baseline: NotificationState<V>,
                                 action: string, args: seq<V>, t: string)
    requires SetsTemplate(env, action, args, t)
    ensures var step := Dispatch(env, cls, slot, live, baseline, action, args);
            step.delivered.Some? ==> step.delivered.value.template == Some(t)
  {
    var prepared := WithDefaultTemplate(live, action);
    assert env.runAction(action, args, prepared).state.template == Some(t);
  }

  /** One call of `send`: the action name and its arguments. */
  datatype Call<V> = Call(action: string, args: seq<V>)

  /** The steps of sending `calls` one after another on one notifier. */
  function Replay<V, R>(env: Environment<V, R>, cls: string, slot: Option<string>,
                        live: NotificationState<V>, baseline: NotificationState<V>,
                        calls: seq<Call<V>>): (steps: seq<Step<V, R>>)
    ensures |steps| == |calls|
    decreases |calls|
  {
    if calls == [] then []
    else
      var step := Dispatch(env, cls, slot, live, baseline, calls[0].action, calls[0].args);
      [step] + Replay(env, cls, step.slot, step.live, baseline, calls[1..])
  }

  /** The cache slot that the `k`-th call of a replay starts from. */
  function SlotBefore<V, R>(slot: Option<string>, steps: seq<Step<V, R>>, k: nat): (before: Option<string>)
    requires k <= |steps|
  {
    if k == 0 then slot else steps[k - 1].slot
  }

  /**
   * Reuse without cross-contamination: on a notifier that starts from its
   * baseline, every call after a run of clean calls starts from the baseline
   * again, so it behaves as if it were the first call on a fresh notifier.
   */
  lemma {:induction false} ReplayStartsFromBaseline<V, R>(env: Environment<V, R>, cls: string,
                                                          slot: Option<string>,
                                                          baseline: NotificationState<V>,
                                                          calls: seq<Call<V>>, k: nat)
    requires k < |calls|
    requires forall j :: 0 <= j < k ==> Clean(Replay(env, cls, slot, baseline, baseline, calls)[j])
    ensures var steps := Replay(env, cls, slot, baseline, baseline, calls);
            steps[k] == Dispatch(env, cls, SlotBefore(slot, steps, k), baseline, baseline,
                                 calls[k].action, calls[k].args)
    decreases k
  {
    var steps := Replay(env, cls, slot, baseline, baseline, calls);
    var first := steps[0];
    var rest := Replay(env, cls, first.slot, first.live, baseline, calls[1..]);
    assert steps == [first] + rest;
    if k > 0 {
      assert Clean(first);
      assert first.live == baseline;
      forall j | 0 <= j < k - 1 ensures Clean(rest[j]) {
        assert rest[j] == steps[j + 1];
      }
      ReplayStartsFromBaseline(env, cls, first.slot, baseline, calls[1..], k - 1);
      assert SlotBefore(first.slot, rest, k - 1) == SlotBefore(slot, steps, k);
    }
  }
}
