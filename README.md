# Design-pattern demos: mediator, observer, proxy traps and the pattern runner

This project models in Dafny the logic of four small JavaScript pattern
demos and the runner script that selects them:

- **Mediator** (`Mediator`, mediator.dfy): a hub keeps participants in a map
  from name to participant. `register` binds a name, and a later binding
  replaces an earlier one. `sendRequest(from, to, data)` looks up only `to` and
  calls that participant's `handleRequest(from, data)`. Participants and
  payloads are opaque type parameters. Each handler call is recorded in a
  ghost log. A missing recipient gives `RecipientNotFound`.
- **Observer** (`Observer`, observer.dfy): an observable keeps a map from
  event key to an ordered list of listeners. `subscribe` appends.
  `unsubscribe` stores the list with every entry identical to the listener
  removed. `notify` calls each listener of the key once, in order, with the
  same data, and returns the sequence of those calls. Listeners are opaque
  identities.
- **Proxy traps** (`Proxy`, proxy.dfy; `Validation`, validation.dfy): explicit
  `Get`/`Set` operations on a target object.
  - In the name demo, `name` is derived from `fname` and `lname` on read.
    Writing `name` splits the value on a space.
  - In the validation demo, a negative `age` is refused and the target is left
    untouched.
  - Shared value types live in `JsValue` (js_value.dfy).
- **Pattern runner** (`RunPattern`, run_pattern.dfy): the script's argument
  `type:pattern[:file]` becomes the path `<root>/src/<type>/<pattern>/<file>`
  as a sequence of segments, or one of two usage errors. JavaScript's
  `split` on a one-character separator is modelled in `Strings` (strings.dfy).
  The same function serves the proxy's `name` write.

Each state-changing object is a class whose methods are specified against a
pure function of the old state (`Subscribed`, `Unsubscribed`, `Written`,
`Registered`, `Route`). The properties of those functions are proved as
lemmas. `Observable.Notify` and the `Get` functions have no `modifies`/write
frame, so they cannot change any listener list, registry entry or key.

On these points the model follows the code:

- `sendRequest` discards the handler's return value, so the model returns
  the delivery made, not a handler result.
- Listener and handler failures are not modelled: every listener and
  handler is taken to return normally. See Left out below.
- `unsubscribe` removes every identical entry (the `filter`).
- For the missing recipient and for `unsubscribe` the model takes the evident
  intent. See Findings below.

## Model

| member | source | states |
|---|---|---|
| Strings.Split | scripts/run-pattern.cjs:20 | `split` on one character yields at least one piece, and no piece holds the separator |
| Strings.JoinSplit | scripts/run-pattern.cjs:20 | gluing the pieces of a split back with the separator gives the original string |
| Strings.SplitJoin | src/vanilla/proxy/index.js:17 | splitting a join of separator-free pieces gives exactly those pieces back |
| Strings.SplitNoSeparator | src/vanilla/proxy/index.js:17 | a string without the separator splits into itself alone |
| Strings.EndsWith | scripts/run-pattern.cjs:44 | a string that ends with a suffix is some string followed by that suffix |
| Strings.EndsWithAppended | scripts/run-pattern.cjs:44 | any string followed by a suffix ends with it |
| Strings.SplitHasTwoPieces | scripts/run-pattern.cjs:20-22 | a split has at least two parts exactly when the separator occurs |
| JsValue.LookupAfterWrite | src/vanilla/proxy/index.js:12 | reading a property just written gives the written value, and every other property reads as before |
| JsValue.Text | src/vanilla/proxy/index.js:10 | a template literal shows a string as itself and `undefined` as "undefined". It shows a number as decimal digits that denote it, with no leading zero (only 0 is shown as "0"), after a `-` when it is negative. A number's text has no space |
| JsValue.DigitsDenote | src/vanilla/proxy/index.js:10 | the decimal digits written for a natural number read back as that number |
| Proxy.Read | src/vanilla/proxy/index.js:7-13 | reading `name` always gives a string with a space in it. When the texts of `fname` and `lname` have no space, splitting that string at the space gives them back, in that order. Any other key gives the stored value unchanged |
| Proxy.Person.Get | src/vanilla/proxy/index.js:7-13 | a read through the wrapper passes every key but `name` through to the target; `name` reads as a string with a space in it |
| Proxy.Written | src/vanilla/proxy/index.js:14-24 | every write returns true unless `name` gets a non-string, which throws and changes nothing; another key changes only that key; a `name` write creates no `name` key and touches nothing but `fname` and `lname` |
| Proxy.Person.constructor | src/vanilla/proxy/index.js:27 | the wrapper starts on the given target |
| Proxy.Person.Set | src/vanilla/proxy/index.js:14-24 | the write updates `fname`, then `lname`, or the one key, in place, ending in the state `Written` gives, and returns its completion |
| Proxy.NameRoundTrip | src/vanilla/proxy/index.js:9-20 | writing `name` as "a b" with space-free words is accepted, and reading `name` gives "a b" back with `fname` = a and `lname` = b |
| Proxy.WriteBackUnchanged | src/vanilla/proxy/index.js:9-20 | writing back the `name` just read leaves the target unchanged when both stored parts are space-free strings |
| Proxy.ExtraWordsDropped | src/vanilla/proxy/index.js:17-19 | a `name` of three or more words keeps only the first two |
| Proxy.OneWordLeavesLastNameUndefined | src/vanilla/proxy/index.js:17-19 | a one-word `name` stores `lname` as `undefined`, read back as "word undefined" |
| Proxy.Demo | src/vanilla/proxy/index.js:1-30 | John Doe reads as "John Doe"; after writing "Jane Doe" it reads "Jane Doe" with `fname` "Jane" and `lname` "Doe" |
| Validation.IsNegative | src/vanilla/proxy/validation.js:8 | a number is refused for `age` exactly when its decimal text starts with `-`; strings and `undefined` are never refused |
| Validation.Written | src/vanilla/proxy/validation.js:6-16 | a write is accepted exactly when it is not a negative number for `age` (0 is accepted); a refused write leaves the target unchanged; an accepted write stores the value and changes no other key |
| Validation.GuardedPerson.constructor | src/vanilla/proxy/validation.js:18 | the wrapper starts on the given target |
| Validation.GuardedPerson.Set | src/vanilla/proxy/validation.js:7-15 | the write ends in the state `Written` gives and returns its flag, and it keeps "no negative age stored" |
| Validation.GuardedPerson.Get | src/vanilla/proxy/validation.js:20 | a read without a trap gives `undefined` for a missing key; while no negative age is stored, reading `age` never gives a negative number |
| Validation.GuardHoldsAfterWrites | src/vanilla/proxy/validation.js:8-14 | after any series of writes through the trap, a target without a negative age still has none |
| Validation.RefusedWriteIsNoOp | src/vanilla/proxy/validation.js:8-12 | a refused negative-age write can be removed from any series of writes without changing the result |
| Validation.Demo | src/vanilla/proxy/validation.js:1-20 | from age 30, writing -1 is refused and age stays 30 |
| Mediator.Route | src/vanilla/mediator/index.js:24-28 | a request is delivered exactly when `to` is registered, to the participant under `to`, with `from` and the payload unchanged; otherwise the outcome names the missing recipient |
| Mediator.LatestRegistrationWins | src/vanilla/mediator/index.js:21-23 | after a series of registrations a name is bound to its latest participant |
| Mediator.RegisteredAppend | src/vanilla/mediator/index.js:21-23 | registering one series and then a second is the same as registering both in turn |
| Mediator.UnmentionedNameKept | src/vanilla/mediator/index.js:21-23 | a name that no registration mentions keeps its entry, or stays absent |
| Mediator.Hub.constructor | src/vanilla/mediator/index.js:18-19 | a new hub has no participants and has made no calls |
| Mediator.Hub.Register | src/vanilla/mediator/index.js:21-23 | the registry becomes the old one with the name rebound, and no handler is called |
| Mediator.Hub.SendRequest | src/vanilla/mediator/index.js:24-28 | the outcome is `Route` on the registry; a delivery is appended to the call log; the registry is never changed |
| Mediator.RequestMic | src/vanilla/mediator/index.js:37-39 | the speaker sends `{Microphone, AX-270}` from "speaker" to "service" |
| Mediator.RespondMic | src/vanilla/mediator/index.js:52-54 | the service sends its reply from "service" to "speaker" |
| Mediator.Demo | src/vanilla/mediator/index.js:64-72 | with both registered, the request reaches the service's handler tagged "speaker", and the reply reaches the speaker's handler tagged "service" |
| Observer.Without | src/vanilla/observer/index.js:10 | the filtered list has no entry identical to the listener and keeps every other entry as often as before |
| Observer.WithoutAppend | src/vanilla/observer/index.js:10 | filtering distributes over concatenation, so kept entries stay in their order |
| Observer.Subscribed | src/vanilla/observer/index.js:3-7 | subscribing stores a list under the key and leaves every other key's list unchanged |
| Observer.SubscriptionOrder | src/vanilla/observer/index.js:3-7 | subscribing listeners one by one appends them in that order, duplicates included |
| Observer.Unsubscribed | src/vanilla/observer/index.js:8-12 | the key then has a list, without the listener, holding every other entry as often as before; other keys are unchanged |
| Observer.UnsubscribeKeepsOthers | src/vanilla/observer/index.js:8-12 | removing a listener leaves the entries before and after it in place |
| Observer.UnsubscribedAsWritten | src/vanilla/observer/index.js:8-12 | as written, `unsubscribe` throws before storing anything, so the map is unchanged |
| Observer.AsWrittenUnsubscribeKeepsListener | src/vanilla/observer/index.js:8-12 | after subscribing `call` and unsubscribing it, the code as written still lists `call`; the intended unsubscribe leaves the list empty |
| Observer.Observable.constructor | src/vanilla/observer/index.js:1-2 | a new observable has no keys |
| Observer.Observable.Subscribe | src/vanilla/observer/index.js:3-7 | the map becomes `Subscribed` of the old map |
| Observer.Observable.Unsubscribe | src/vanilla/observer/index.js:8-12 | the map becomes `Unsubscribed` of the old map |
| Observer.Observable.Notify | src/vanilla/observer/index.js:13-16 | one call per listener of the key, in list order, each with the same data; no calls for an unknown key; no state changes |
| Observer.NotifyAfterUnsubscribe | src/vanilla/observer/index.js:8-16 | after unsubscribing a listener, notifying the key never calls it |
| Observer.Demo | src/vanilla/observer/index.js:24-47 | "invite" calls `call` then `sendEmail`, and "accept" calls `recordAccept` then `prepareGift`, each with "Alice" |
| RunPattern.TypeDirectory | scripts/run-pattern.cjs:28-33 | `van` becomes `vanilla`; every other type, `react` included, passes through unchanged |
| RunPattern.FileName | scripts/run-pattern.cjs:40-49 | the file name always ends in `.js`; an empty or absent part gives `index.js`; `.js` is appended only when missing |
| RunPattern.FileNameIdempotent | scripts/run-pattern.cjs:43-44 | a resolved file name resolves to itself, and naming a file with or without `.js` gives the same name |
| RunPattern.Resolve | scripts/run-pattern.cjs:10-49 | a usage error happens exactly when there is no argument or the first one has no `:`; otherwise the path is the root, then `src`, then two more segments, then a `.js` file name |
| RunPattern.ResolveParts | scripts/run-pattern.cjs:20-48 | `type:pattern[:file...]` resolves to root, `src`, the type's directory, the pattern and the file name, in that order; later arguments are ignored |
| RunPattern.ExtraPartsIgnored | scripts/run-pattern.cjs:34-35 | parts after the third do not change the path |
| RunPattern.UsageExample | scripts/run-pattern.cjs:12 | `van:proxy:validation` resolves to `src/vanilla/proxy/validation.js` |
| RunPattern.UsageExampleWithExtension | scripts/run-pattern.cjs:43-45 | `van:proxy:validation.js` resolves to the same file |
| RunPattern.DefaultsToIndex | scripts/run-pattern.cjs:46-49 | `van:observer` and `van:observer:` both resolve to the pattern's `index.js` |
| RunPattern.TypeDirectoryAsWritten | scripts/run-pattern.cjs:33 | as written, a type named after an inherited object property yields no directory name |
| RunPattern.InheritedTypeNameNotPassedThrough | scripts/run-pattern.cjs:33 | for `toString` the code as written yields no directory name, where the intended pass-through yields `toString` |

## Findings

| source | as written | input that shows it | evidently intended | confidence | as-written member | corrected member |
|---|---|---|---|---|---|---|
| src/vanilla/observer/index.js:9-10 | `observers` is declared `const` on line 9 and reassigned on line 10, which throws a TypeError on every call, so no listener is ever removed | `subscribe("invite", call)` then `unsubscribe("invite", call)`: `call` is still subscribed | store the filtered list, so a later `notify` skips the listener | high, not executed | Observer.UnsubscribedAsWritten, Observer.AsWrittenUnsubscribeKeepsListener | Observer.Unsubscribed, Observer.UnsubscribeKeepsOthers, Observer.NotifyAfterUnsubscribe |
| scripts/run-pattern.cjs:33 | the `typeMap[parts[0]]` lookup, with `parts[0]` as fallback, also finds the members every object inherits, so for those names `type` is a function or an object and `path.join` throws | argument `toString:proxy` | an unknown type passes through unchanged as a directory name | medium, not executed | RunPattern.TypeDirectoryAsWritten, RunPattern.InheritedTypeNameNotPassedThrough | RunPattern.TypeDirectory, RunPattern.Resolve |

Two more divergences are not bugs in the modelled lines and have no rows. First,
`sendRequest` to an unregistered name dereferences `undefined`
(src/vanilla/mediator/index.js:26-27). The model returns `RecipientNotFound`
instead of crashing. Second, the `set` trap in proxy/index.js calls `split` on
any value. The model lets a non-string `name` throw a TypeError.

## Left out

- Console output: the `console.log` calls in the handlers, listeners and traps
  are not modelled. The mediator's ghost log and `Notify`'s returned call
  sequence stand for the handler and listener calls.
- What handlers and listeners do: they are opaque. Reentrancy is not modelled
  either. A handler that sends a request, or a listener that subscribes while
  `forEach` runs, is outside the model.
- JavaScript `Proxy` machinery: property-access syntax, and whether a refused
  write makes the assignment throw in strict mode. The model exposes explicit
  `Get`/`Set` with the trap's return value.
- Validation.IsNegative: `value < 0` is modelled only for integer values. A
  string or `undefined` written to `age` is accepted. JavaScript would coerce
  a numeric string such as "-1" and refuse it.
- JsValue.Text: `Int` is an unbounded integer, while a JavaScript number is a
  double. A template literal shows integers of 1e21 or more in exponent form
  ("1e+21"), and integers past 2^53 are not held exactly. The model writes
  every integer out in full decimal digits.
- Values other than strings, integers and `undefined` (objects, booleans,
  floating-point numbers) are not modelled.
- Inherited properties of the target object (`obj.toString`) are not
  modelled: a missing key reads as `undefined`.
- The runner's process I/O (scripts/run-pattern.cjs:51-76) is not modelled:
  the existence check, the directory listing, the child process and the exit
  codes of the run. The usage exits (status 1) are the `Usage` outcomes.
- Path normalisation by `path.join` is not modelled. `root` stands for the
  parent of the script's directory (`__dirname/..`), and empty or `..` segments are kept as given.
- Proxy.Written: its contract does not name the values stored in `fname` and
  `lname`. Those are stated for space-free words by NameRoundTrip,
  ExtraWordsDropped and OneWordLeavesLastNameUndefined, not for arbitrary
  strings.
- Observer.Observable.Notify: every listener is assumed to return normally.
  In the source, a listener that throws ends the `forEach`
  (src/vanilla/observer/index.js:15). The later listeners are skipped and the
  error propagates out of `notify`. In the same way, a throwing
  `handleRequest` propagates out of `sendRequest`
  (src/vanilla/mediator/index.js:27). Neither is modelled.
- Behaviour the source does not have is not modelled: unregistering
  participants, a bound on request chains, and isolating or collecting
  listener failures.
- The rendering demos are not part of this model. They are DOM and framework
  UI code: src/rendering/island-architecture, src/rendering/island-with-astro
  and src/rendering/custom-component.
