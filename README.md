# Notifier core of cakephp-notifier, modelled in Dafny

The library lets application code define *notifiers*. A notifier is a class whose methods
are *actions*, such as "welcome" or "password reset". An action fills in a notification
builder: its template, its layout, its view variables, and any other builder property such as
its recipients. `send($action, $args)` does five
things in order:

1. It refuses an unknown action with a `MissingActionException` that names the notifier.
2. If the builder's template is falsy, it sets the template to the action name.
3. It runs the action.
4. It hands the builder to delivery.
5. It replaces the builder with a fresh copy of the baseline taken at construction. This
   lets the same notifier be reused without one send leaking into the next.

A notifier's display name comes from its class name. `getName()` takes the last namespace
segment and removes every "Notifier" from it. It keeps the result in a static cache slot.

The model has five modules:

- `Wrappers` (wrappers.dfy): `Option` and `Result`.
- `Php` (php.dfy): PHP's truthiness test for a value that is `null` or a string. `null`, `""`
  and `"0"` are falsy.
- `Names` (names.dfy): the name derivation, as pure functions.
  - `Explode` and `Join` model `explode` and `join`.
  - `RemoveAll` models `str_replace($pat, '', $s)`. It removes occurrences left to right,
    does not let them overlap and does not rescan its result.
  - `DeriveName` combines these. `ResolveName` adds the cache test and write.
  - The lemmas prove that `explode` and `join` invert each other.
  - They also describe `str_replace` fully for a pattern whose occurrences cannot overlap:
    the string is left unchanged exactly when the pattern does not occur in it, and the
    result splits at every occurrence.
  - Further lemmas cover the names that follow and how the cache behaves.
- `Notification` (notification.dfy): the builder state as a value, `NotificationState`.
  - Besides the template, the layout and the view variables, which the notifier touches
    itself, it holds `properties`: every other builder property, keyed by name. Actions,
    forwarded calls and delivery may read and change it. Copying and restoring the
    baseline carry it whole.
  - `Environment` is a datatype of function values. It stands for the collaborators that are
    not part of this model: a new `Notification`, the test for whether an action exists, the
    action bodies, the builder methods reached by `__call`, the merge of view variables, and
    delivery.
  - `Dispatch` is `send` as a function of the notifier's state.
  - `Replay` runs a sequence of sends. Its lemma shows that every send after clean sends
    starts again from the baseline.
- `Notifiers` (notifier.dfy): the classes.
  - `NameSlot` is the static `$name` slot. It is one object, shared by every notifier that
    does not redeclare it.
  - `Notifier` has the fields `live` (the builder) and `baseline` (the copy taken at
    construction).
  - Its methods are `GetName`, `Layout`, `Set`, `Call` (`__call`), `Send` and `Reset`. `GetName`,
    `Set`, `Call` and `Send` are proved against the functions above. `Layout` and `Reset`
    state their new state directly.
  - Its invariant `Valid()` says that the baseline is still the state at construction.
  - Only the constructor writes `baseline`. No other method has `baseline` in its frame.

Some behaviours of the code that a reader may not expect:

- **"Notifier" is removed everywhere.** `getName()` removes every occurrence, not only a
  trailing suffix, so `NotifierFooNotifier` is named `Foo`.
- **The name cache is not per type.** The cache is one static slot, shared by every
  subclass that does not redeclare `$name`. Once `WelcomeNotifier` has filled it,
  `ResetNotifier` is also named `Welcome` (`Names.SharedSlotExample`).
- **Falsy names are never cached.** The cache test is a truthiness test, so a derived name
  of `""` or `"0"` is recomputed on every call.
- **A falsy template is replaced.** The template default applies to a falsy template, not
  only to an unset one, so `""` and `"0"` are replaced by the action name too.
- **Action lookup is `method_exists`.** That lookup is case-insensitive and also finds
  inherited methods. The model keeps it abstract (`hasAction`) rather than modelling exact
  matching.
- **Merging view variables is not modelled.** src/Notifier.php does not say that the last
  write wins when view variables are merged, so `mergeVars` stays abstract.
- **Other errors propagate unchanged.** An exception from an action, from a forwarded
  builder call or from delivery reaches the caller as it was thrown (`Thrown`). After such
  an exception the builder is not reset: it keeps the state it had when the exception was
  thrown.

## Model

| member | source | states |
|---|---|---|
| `Php.Truthy` | src/Notifier.php:67 | PHP's boolean test, used by `!static::$name` here and by `!...->template()` at line 147. `null` is falsy. A string of two or more characters is always truthy, `"00"` included. A one-character string is falsy only when it is `"0"`. |
| `Names.Join` | src/Notifier.php:71 | PHP's `join`. No pieces give `""`. Otherwise the result starts with the first piece. `Explode` and `ExplodeJoin` relate it to `explode`. |
| `Names.JoinLength` | src/Notifier.php:71 | A join is as long as its pieces together, plus one glue for each gap between neighbours. |
| `Names.JoinSnoc` | src/Notifier.php:71 | A join of two or more pieces ends with the glue and the last piece, after the join of the others. |
| `Names.Explode` | src/Notifier.php:71 | `explode('\\', $cls)` yields at least one piece. No piece contains the separator. Joining the pieces with the separator gives the input back. |
| `Names.ExplodeJoin` | src/Notifier.php:71 | The other round trip: exploding separator-free pieces joined with the separator gives the same pieces. |
| `Names.ExplodeAppend` | src/Notifier.php:71 | Exploding `a + sep + b` gives the pieces of `a` followed by the pieces of `b`. |
| `Names.LastSegment` | src/Notifier.php:71 | `join('', array_slice(explode(...), -1))` contains no namespace separator. |
| `Names.LastSegmentAfterSeparator` | src/Notifier.php:71 | The last segment is the text after the last backslash, or the whole name when there is no backslash. |
| `Names.RemoveAll` | src/Notifier.php:68-70 | `str_replace('Notifier', '', $s)` is never longer than `s`. |
| `Names.RemoveAllChars` | src/Notifier.php:68-70 | The result of `str_replace('Notifier', '', $s)` uses only characters of `s`, counted with multiplicity. |
| `Names.RemoveAllShortens` | src/Notifier.php:68-70 | If the pattern occurs in `s`, the result is strictly shorter than `s`. |
| `Names.RemoveAllFixpoint` | src/Notifier.php:68-70 | The result equals `s` if and only if the pattern does not occur in `s`. |
| `Names.RemoveAllSplit` | src/Notifier.php:68-70 | For a pattern without borders, removing from `a + pat + b` gives the removal from `a` followed by the removal from `b`: every occurrence goes. |
| `Names.SuffixBorderFree` | src/Notifier.php:69 | "Notifier" has no proper prefix that is also its suffix, so two occurrences can never overlap. |
| `Names.DeriveName` | src/Notifier.php:68-72 | The derived name never contains a namespace separator. |
| `Names.DeriveNameStripsSuffix` | src/Notifier.php:68-72 | `...\StemNotifier` and `StemNotifier` are named `Stem`, when the stem contains no backslash and no "Notifier". |
| `Names.DeriveNameWithoutSuffix` | src/Notifier.php:68-72 | A last segment without "Notifier" is the name unchanged. Its absence is no error. |
| `Names.DeriveNameRemovesEveryOccurrence` | src/Notifier.php:68-72 | `...\NotifierStemNotifier` is named `Stem`. The leading occurrence is removed as well as the trailing one. |
| `Names.DeriveNameWelcome` | src/Notifier.php:68-72 | `App\Notifier\WelcomeNotifier` is named `Welcome`. |
| `Names.DeriveNameOfBareNotifier` | src/Notifier.php:67-72 | A class named `Notifier` derives `""`, which is falsy. |
| `Names.ResolveName` | src/Notifier.php:67-75 | After the call, the slot holds the returned name. A truthy slot is returned unchanged and not rewritten. A falsy slot is replaced by the derived name. |
| `Names.ResolveNameStable` | src/Notifier.php:67-75 | Two consecutive calls for the same class return the same string and leave the same slot. |
| `Names.ResolveNameShared` | src/Notifier.php:67-75 | Once the shared slot holds a truthy name, a call for any other class returns that name. The slot is the single `static $name` of line 26. |
| `Names.FalsyNameNotCached` | src/Notifier.php:67-75 | After a falsy name was derived, the next call for any class derives again. |
| `Names.SharedSlotExample` | src/Notifier.php:67-75 | After `WelcomeNotifier` has filled the slot, `ResetNotifier` resolves to `Welcome`. |
| `Notification.VarsArgument` | src/Notifier.php:124 | `set` hands over the singleton map `{key: value}` for a string key, and the given hash otherwise. |
| `Notification.WithDefaultTemplate` | src/Notifier.php:147-149 | Only the template can change. A truthy template is kept. A falsy one becomes the action name. |
| `Notification.Dispatch` | src/Notifier.php:138-157 | An unknown action fails with `MissingAction(getName() + "Notifier", action)` and leaves the builder untouched. A known action is never refused and leaves the slot alone. The action runs on the builder after the template default. If the action throws, its message is returned as `Thrown`, delivery is not reached, and the builder keeps the state the action left. If delivery throws, its message is returned as `Thrown` and the builder is not reset. If both return, the result is `Success` of exactly delivery's value and the builder is the baseline. Conversely, every success and every `Thrown` arises in one of these ways. |
| `Notification.TemplateAtDelivery` | src/Notifier.php:147-153 | An action that never sets a template is delivered with the template it found, or with its own name when that template was falsy. |
| `Notification.ActionTemplateWins` | src/Notifier.php:147-153 | An action that sets template `t` is delivered with `t`, whatever the action's name. |
| `Notification.ReplayStartsFromBaseline` | src/Notifier.php:153-166 | In any sequence of sends from the baseline, each send that follows only successful or refused sends starts from the baseline again. It behaves exactly like a first send. |
| `Notifiers.NameSlot.constructor` | src/Notifier.php:26 | The static slot starts with its declared value (`null` in the base class). |
| `Notifiers.Notifier.constructor` | src/Notifier.php:48-56 | The builder is the given notification, or a new one. The baseline is an equal copy. Both equal the state at construction. |
| `Notifiers.Notifier.GetName` | src/Notifier.php:65-76 | Returns the name and updates the shared slot exactly as `ResolveName` does. |
| `Notifiers.Notifier.Layout` | src/Notifier.php:84-89 | Sets only the layout, returns the notifier and keeps the baseline. |
| `Notifiers.Notifier.Set` | src/Notifier.php:122-127 | Merges `VarsArgument(key, value)` into the view variables only, returns the notifier and keeps the baseline. |
| `Notifiers.Notifier.Call` | src/Notifier.php:108-113 | Forwards the call to the builder and takes the builder state it leaves. Returns the notifier, or the builder's exception unchanged. |
| `Notifiers.Notifier.Send` | src/Notifier.php:138-157 | Result, new builder and new cache slot are those of `Dispatch`. A refused action leaves the builder as it was. A successful send leaves the builder equal to its state at construction. The baseline never changes. |
| `Notifiers.Notifier.Reset` | src/Notifier.php:164-169 | The builder becomes the baseline, which is the state at construction, and the notifier is returned. |

## Left out

- `ModelAwareTrait`, `LocatorAwareTrait` and the `modelFactory` call (src/Notifier.php:18-19, 57) are not modelled. They wire in the ORM, which is not part of this model.
- `viewBuilder()` (src/Notifier.php:96-99) is not modelled. It hands out an alias to the live builder's view builder. Changes made through that alias cannot be expressed on the value model. The layout and template changes that this class makes itself are modelled. `Notifiers.Notifier.Layout` takes a string and stores it, so a call such as `layout(null)`, which passes another value on to the view builder, is not modelled.
- `Notifiers.Notifier.Call`: `__call` reaches an arbitrary method of `Notification`, and that class is not part of this model. All such methods are one abstract `builderCall`. It returns the resulting builder state, or that state together with an exception.
- `Notifiers.Notifier.Set`: `Notification::viewVars` is not part of this model. Its merge is the abstract `mergeVars`, so no last-write-wins property is claimed. The model assumes that this method changes only the view variables.
- `Notification.NotificationState`: the properties of `Notification` other than the template, layout and view variables are one map from property name to value. Their types and the methods that change them are not part of this model.
- `Notification.Dispatch`: `Notification::send` is the abstract `deliver`. It returns a value or throws. The model assumes that delivery does not change the builder.
- The default state of `new Notification()` is the abstract `blank`.
- PHP's `clone` at src/Notifier.php:55 and 166 is not modelled. Both builders are immutable values, so a copy is equal and shares nothing. The caller keeps an alias to the notification it passed to the constructor. That aliasing is not modelled. The reset facts (`Notification.ReplayStartsFromBaseline`, `Send`'s return to the state at construction, and `Reset`) rest on this choice. They hold only if cloning a `Notification` also copies its view builder and view variables. `Notification::__clone` is not part of this model. If the clone were shallow, the template that line 148 writes through `viewBuilder()` would reach the baseline too.
- `method_exists` is the abstract `hasAction`. Case-insensitive matching is not modelled. Nor are actions named after the notifier's own methods, such as `send`.
- Action bodies are abstract transformers of the builder state. Any effect they have on the name slot or on other objects is not modelled.
- `Notification.VarsArgument`: PHP turns numeric string keys into integer keys, and this is not modelled. A `set` key that is neither a string nor an array is not modelled either. The default `null` for `$value` is not built in: the caller passes whatever value stands for `null`.
- `implementedEvents()` (src/Notifier.php:176-179) is not modelled. It is a constant empty array.
- `Notifiers.Notifier.Reset`: `reset()` is `protected` (src/Notifier.php:164), so an outside call `$notifier->reset()` goes to `__call` and is forwarded to the builder. The model does not restrict who may call `Reset`.
- `Notifiers.Notifier.Send`: the default `$args = []` (src/Notifier.php:138) is not built in. The caller always passes the arguments, the empty sequence included.
- Concurrency is not modelled. The code is sequential.
- Strings are sequences of characters. The byte encoding used by PHP's string functions is not modelled.
