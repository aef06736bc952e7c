# SubscribableEvent in Dafny

A model of `SubscribableEvent`, a small typed publish/subscribe primitive, and its
`SubscriptionToken` handle. An event keeps an ordered list of subscriber callbacks. It can
append one (`subscribe`), remove every registration of one (`unsubscribe`), clear the list
(`dispose`) and fire. Firing copies the list, then invokes the copy from the newest
registration to the oldest. When the event was built with `allowStopPropagation`, the fire
stops after the first callback that returns a truthy value and returns `true`. Otherwise it
returns `false`.

Files:

- `registry.dfy`, module `Registry`: the subscriber list as a value. `Pull` gives lodash
  `pull` its meaning: it removes every element identical to the callback and keeps the rest
  in order. The module also holds the properties of `Pull`, and `Action`, the changes a
  running callback may make to the same event.
- `firing.dfy`, module `Firing`: the dispatch rule as a function of the snapshot
  (`Dispatch`), plus the lemmas that state the ordering, stop and result properties.
- `events.dfy`, module `Events`: the classes `SubscribableEvent` and `SubscriptionToken`.
  `subscribers` is a `seq` field that the methods reassign. `Fire` is the countdown loop of
  the source. Each method is proved against the functions above.
- `scenarios.dfy`, module `Scenarios`: the documented behaviours stated through the class
  methods, with small numbers as callbacks.

Callbacks are identities of a type `F` with equality. A fire gets two functions of the
callback. `truthy` says whether the callback's return value is truthy. `effects` lists the
`subscribe`/`unsubscribe`/`dispose` calls the callback makes on the same event. After each
invocation, `Fire` performs those calls on the live list through the class's own methods.
The walk itself goes over the copy taken on entry. So the contract of `Fire` shows that the
invoked callbacks and the result depend only on the list at entry, and that the list at the
end reflects every change the callbacks made.

## Model

| member | source | states |
|---|---|---|
| `Registry.Pull` | src/SubscribableEvent.ts:42-44 | After the pull, the callback occurs nowhere in the list. Every other entry of the old list is still there, every entry comes from the old list, and the list never grows. |
| `Registry.PullAppend` | src/SubscribableEvent.ts:42-44 | Pulling from `a + b` gives pull(`a`) followed by pull(`b`), so removal never reorders the entries it keeps. |
| `Registry.PullMultiset` | src/SubscribableEvent.ts:42-44 | After the pull, the callback has zero occurrences and every other callback has exactly as many occurrences as before. |
| `Registry.PullAbsent` | src/SubscribableEvent.ts:42-44 | Unsubscribing a callback that is not registered leaves the list unchanged. |
| `Registry.PullIdempotent` | src/SubscribableEvent.ts:18-20 | Unsubscribing the same callback twice (directly or through one token) has the same effect as doing it once. |
| `Registry.PullCommutes` | src/SubscribableEvent.ts:42-44 | Unsubscribing two callbacks gives the same list in either order. |
| `Registry.PullAfterPush` | src/SubscribableEvent.ts:36-44 | Subscribe then unsubscribe of `c` equals unsubscribing `c` from the old list. That restores the old list exactly when `c` was not registered before. |
| `Registry.Applied` | src/SubscribableEvent.ts:33-43 | No contract of its own. It gives one call its meaning on a list value: `Subscribing` pushes at the end (line 37), `Unsubscribing` pulls (line 43), `Disposing` clears (line 33). `Pull` and its lemmas pin down the pull case. |
| `Registry.AppliedAll` | src/SubscribableEvent.ts:33-43 | No contract of its own. It applies a callback's calls on the event in order. `Events.SubscribableEvent.Perform` is proved equal to it. |
| `Registry.AfterHandlers` | src/SubscribableEvent.ts:53 | No contract of its own. It gives the list after the invoked callbacks have made their changes, each callback's changes after the earlier ones'. `Fire`'s second ensures is stated against it, and `AfterQuietHandlers` states that callbacks making no changes leave the list as copied. |
| `Registry.AfterQuietHandlers` | src/SubscribableEvent.ts:47-53 | If the callbacks change nothing, the live list after a fire equals the list the fire copied. |
| `Firing.Reversed` | src/SubscribableEvent.ts:50-52 | The walk order has the snapshot's length, and its `k`-th entry is the `k`-th newest registration. |
| `Firing.Dispatch` | src/SubscribableEvent.ts:50-60 | No contract of its own. It models the countdown walk over the copy, which looks at the last entry first and stops after a truthy one under stop propagation. `DispatchAll`, `DispatchStopsAt`, `DispatchHandledIff` and `DispatchPrefix` pin it down in closed form. |
| `Firing.DispatchPrefix` | src/SubscribableEvent.ts:52-57 | The invoked callbacks always form a prefix of the reversed snapshot. A `true` result needs stop propagation and a truthy callback, and that callback is the last one invoked. |
| `Firing.DispatchStep` | src/SubscribableEvent.ts:52-57 | The loop-step lemma of `Fire`, not a property of the dispatch. It is `Dispatch` unfolded once at entry `i`, with the callbacks already invoked as an accumulator: the walk either ends at `i`, handled, or continues over the entries before `i`. |
| `Firing.DispatchAll` | src/SubscribableEvent.ts:52-60 | When stop propagation is off, or no entry is truthy, every snapshot entry is invoked once, newest first, and the result is `false`. |
| `Firing.DispatchStopsAt` | src/SubscribableEvent.ts:52-57 | With stop propagation on, let `j` be the newest truthy entry. Exactly the entries from `j` to the end are invoked, newest first, no older entry is invoked, and the result is `true`. |
| `Firing.DispatchHandledIff` | src/SubscribableEvent.ts:52-60 | With stop propagation on, the fire returns `true` if and only if some snapshot entry is truthy. |
| `Events.SubscribableEvent.constructor` | src/SubscribableEvent.ts:28-30 | A new event has an empty list. Stop propagation is as given and defaults to off. |
| `Events.SubscribableEvent.Dispose` | src/SubscribableEvent.ts:32-34 | The list becomes empty. |
| `Events.SubscribableEvent.Subscribe` | src/SubscribableEvent.ts:36-40 | The list becomes the old list with the callback appended, and earlier entries are unchanged. The result is a new token holding this event and exactly this callback. |
| `Events.SubscribableEvent.Unsubscribe` | src/SubscribableEvent.ts:42-44 | The list becomes the pull of the old list. No occurrence of the callback remains, the others keep their counts, and an absent callback changes nothing. |
| `Events.SubscribableEvent.Perform` | src/SubscribableEvent.ts:53 | The changes a running callback makes to the event, taken in order, leave the list as the `Action` semantics says. |
| `Events.SubscribableEvent.Fire` | src/SubscribableEvent.ts:46-61 | The invoked sequence and the result are `Dispatch` of the list at entry, whatever the callbacks change. The final list is the entry list after each invoked callback's changes, in invocation order. |
| `Events.SubscriptionToken.constructor` | src/SubscribableEvent.ts:14-16 | The token holds the given event and callback. |
| `Events.SubscriptionToken.Unsubscribe` | src/SubscribableEvent.ts:18-20 | The effect is the same as `event.unsubscribe(callback)`: the captured event's list is pulled, and the callback is gone from it. |
| `Scenarios.ReverseOrder` | src/SubscribableEvent.ts:50-60 | Subscribers 1, 2, 3 without stop propagation are invoked as 3, 2, 1, and the fire returns `false` whatever they return. |
| `Scenarios.StopPropagation` | src/SubscribableEvent.ts:52-57 | With stop propagation and only 2 truthy, 3 then 2 are invoked, 1 is not, and the fire returns `true`. |
| `Scenarios.ReentrantSubscribe` | src/SubscribableEvent.ts:47-48 | A callback added during a fire is not invoked by that fire. The next fire invokes it first. |
| `Scenarios.UnsubscribeAllOccurrences` | src/SubscribableEvent.ts:42-44 | One unsubscribe removes both registrations of a callback subscribed twice. |
| `Scenarios.TokenUnsubscribeTwice` | src/SubscribableEvent.ts:18-20 | A second `token.unsubscribe()` leaves the list as the first one left it. |
| `Scenarios.DisposeThenReuse` | src/SubscribableEvent.ts:32-37 | After dispose, a fire invokes nothing and returns `false`. A later subscribe gives a one-element list. |

## Left out

- Arguments of `fire` and their forwarding with `apply(null, args)` (lines 46 and 53) are not modelled. The `<any>` cast that types `fire` is a typing concern only.
- JavaScript truthiness of arbitrary return values is not modelled. Each callback's result is a `bool`, given by `truthy`.
- A callback's result and its changes to the event are functions of the callback's identity. A callback registered twice therefore behaves the same at both invocations within one fire.
- The model applies a callback's changes to the event right after the callback is invoked. Interleaving those changes with the callback's own computation makes no difference to the list.
- Changes a callback makes outside this event, such as subscribing to another event, are not modelled. `Fire`'s frame (only this event's list changes) therefore holds only in the model.
- A nested `fire` from inside a callback is not modelled. It changes nothing in the list by itself, and its callbacks' changes are not represented.
- Exceptions thrown by callbacks, which propagate out of `fire` and end the dispatch, are not modelled.
- Callbacks are identities with equality, so lodash's SameValueZero comparison is not modelled. For function values it is identity.
- lodash `clone` and `pull` are modelled by their meaning (a value copy of the sequence and `Registry.Pull`), not by their code.
- Concurrent use is not modelled. The source assumes one synchronous thread.
