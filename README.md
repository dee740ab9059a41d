# StateManager — breakpoint state reconciliation, in Dafny

This project models the state-reconciliation engine of StateManager 2.0.2, a
small jQuery plugin that runs callbacks when media-query breakpoints start or
stop matching. The engine keeps two lists: the registered states and the names
of the states that are currently active. Each state has a `name`, a media
query `mq` and optional `match`/`unmatch` callbacks. A reconciliation pass
(`_triggerStates`) walks the states in order and asks the media-query
evaluator whether each state's query holds. It compares the answer with the
active list and then does one of three things: it enters the state (fires
`match`, pushes the name), it leaves it (fires `unmatch`, filters the name
out), or it does nothing. `addState` appends and reconciles, `matchState`
asks whether a name is active, and `destroy` empties both lists. The
constructor first checks that `window.matchMedia` exists, then adds the given
states.

Files:

- `seqs.dfy`, module `Seqs`: the list operations the engine relies on.
  `IndexOf` is `$.inArray` and `Without` is the `$.grep(…, val != x)` filter.
  `NoDup` means that no value occurs twice.
- `state_manager.dfy`, module `StateManager`:
  - the pure specification of a pass. `Step` handles one state and
    `Reconcile` runs a whole pass. A pass returns the new active list and the
    callbacks fired, as `Match(i)` / `Unmatch(i)` where `i` is the state's
    position.
  - the lemmas about a pass.
  - class `Manager`, whose fields stand for the closure's `_states` and
    `_activeStates`. It also records whether `matchMedia` exists, whether
    `$win` was assigned and whether the `resize.sm` handler is attached. A
    `log` field records every callback firing.

The evaluator `window.matchMedia(mq).matches` is a parameter
`media: string -> bool`. It is held fixed for one call, because the source
reads it synchronously inside one pass (or one constructor run).

The tests in the repository (test/StateManager.js:24-59 and
test/plugin.js:21-34) call a later `register`/`deregister`/`queries` API.
src/StateManager.js 2.0.2 does not contain that API, so the model follows
the code. There, `addState` runs a full pass over every registered state.
When the names are distinct and the earlier states already agree with the
evaluator, that pass handles only the new state: it fires its `match` when its
query holds, and nothing otherwise. With a repeated name, or with earlier
states the evaluator no longer agrees with, other callbacks can fire too. There
is no deregistration of a single state, and re-evaluation is driven by a
debounced resize handler.

## Model

| member | source | states |
|---|---|---|
| Seqs.IndexOf | src/StateManager.js:76-78 | the `$.inArray` search returns -1 exactly when the name is absent, otherwise the position of its first occurrence |
| Seqs.Without | src/StateManager.js:52-55 | leaving a state removes every occurrence of its name, keeps exactly the other names, and preserves the absence of duplicates |
| Seqs.WithoutAppend | src/StateManager.js:53-55 | the filter distributes over concatenation, so the remaining active names keep their relative order |
| StateManager.Step | src/StateManager.js:42-56 | the handling of one state during a pass, as a value: the new active list and the callbacks fired. It has no contract of its own: `StepFacts` states its properties and `HandleState` is proved against it |
| StateManager.Reconcile | src/StateManager.js:40-58 | a whole pass, as a value: `Step` applied to each state in order, starting from the given active list. It has no contract of its own: the `Reconcile…` lemmas state its properties and `TriggerStates`, `AddState` and `Resize` are proved against it |
| StateManager.Populate | src/StateManager.js:109-113 | the constructor's one-at-a-time additions, as a value: one pass per added prefix, with the callbacks of all of them. It has no contract of its own: `PopulateDistinct` states its properties and `LoadStates` and the constructor are proved against it |
| StateManager.StepFacts | src/StateManager.js:42-56 | after handling one state, its name is active exactly when its query holds and no other name changes membership; at most one callback fires: `match` exactly on a not-active to matching transition when the callback is present, `unmatch` exactly on an active to not-matching transition when it is present |
| StateManager.ReconcileKeepsNames | src/StateManager.js:43-55 | a pass never creates a duplicate active name (a name is pushed only when it is not already active), and it adds only names of registered states |
| StateManager.ReconcileFiresTransitions | src/StateManager.js:40-58 | every callback in a pass belongs to a state that has it. `match` fires only if that state was inactive just before its turn and its query holds; `unmatch` fires only if it was active and its query fails. Callback indices strictly increase, so each state fires at most one callback per pass |
| StateManager.ReconcileSettles | src/StateManager.js:40-58 | with distinct names, after a pass a state's name is active exactly when the evaluator reports its query as matching, and names that belong to no state keep their membership |
| StateManager.ReconcileFiredExactly | src/StateManager.js:45-51 | with distinct names, `Match(k)` is fired exactly when state k has a `match` callback, its query holds and its name was not active; `Unmatch(k)` exactly when it has an `unmatch` callback, its query fails and its name was active |
| StateManager.ReconcileSettledIsNoOp | src/StateManager.js:40-58 | a pass over states whose activity already agrees with the evaluator fires nothing and leaves the active list unchanged |
| StateManager.ReconcileIdempotent | src/StateManager.js:40-58 | with distinct names and an unchanged evaluator, a second pass fires no callbacks and leaves the active list unchanged |
| StateManager.ReconcileAppendSettled | src/StateManager.js:85-88 | appending a state to settled states makes the pass handle only the new state |
| StateManager.AddToSettled | src/StateManager.js:109-113 | with distinct names, adding the next initial state settles it and fires only its `match` callback, and only if its query holds |
| StateManager.PopulateDistinct | src/StateManager.js:109-113 | with distinct names, after the initial states are added one at a time, each is active exactly when its query holds and no other name is active. The callbacks fired are exactly the `match` callbacks of the matching states that have one, in list order |
| StateManager.Manager.MatchState | src/StateManager.js:76-78 | `matchState(name)` is true exactly when the name is in the active list |
| StateManager.Manager.HandleState | src/StateManager.js:42-56 | one iteration of the `_triggerStates` loop changes the active list and the callback log as one `Step` prescribes, and nothing else |
| StateManager.Manager.TriggerStates | src/StateManager.js:40-58 | the loop sets the active list to the pass's result and appends the pass's callbacks to the log. It keeps the invariant (no duplicate, only registered names) and changes nothing else. Without `matchMedia` and with at least one state it throws at the first evaluation and changes nothing |
| StateManager.Manager.Resize | src/StateManager.js:117 | a resize runs the `resize.sm` handler's pass only while the handler is attached: then the active list and the log are the pass's result. After `destroy` or an early constructor return, the active list and the log stay unchanged |
| StateManager.Manager.AddState | src/StateManager.js:85-88 | appends the state at the end, leaves the earlier entries unchanged, then reconciles (and throws without `matchMedia`, after the append) |
| StateManager.Manager.Destroy | src/StateManager.js:93-97 | detaches the resize handler and empties both lists, so `matchState` is false for every name. If `$win` was never assigned it throws and changes nothing |
| StateManager.Manager.LoadStates | src/StateManager.js:109-115 | adds the given states in order, each addition followed by a pass, then runs one more pass. The active list and the log are exactly those of `Populate` (the fold of one pass per added prefix) followed by that final pass, repeated names included. With distinct names every state is active exactly when its query holds, and the log holds exactly the `match` callbacks of the matching states that have one, in order, so the final pass fires nothing |
| StateManager.Manager.constructor | src/StateManager.js:104-118 | without `matchMedia` it returns at once: no states, no active names, no callbacks, no resize handler. Otherwise it adds the given states, runs one more pass and attaches the resize handler. The active list and log are exactly `Populate` followed by that pass, repeated names included (a repeated name can make the final pass fire again and undo an entry). With distinct names the final pass fires nothing, every state is active exactly when its query holds, and only the matching states' `match` callbacks fired |

## Left out

- The debounced resize handler (`_debounce`, `setTimeout`/`clearTimeout`,
  jQuery `on`/`off` for `resize.sm`). The model keeps only a `listening`
  flag. A resize after the debounce delay is a call of `Resize` with the
  evaluator at that moment. It runs a pass while `listening` holds and does
  nothing otherwise. Resizes that the debounce collapses into one are not
  modelled separately. `destroy` detaches the handler but does not clear the
  debounce timer, so a debounced pass already scheduled when `destroy` runs
  still runs afterwards, over the states added since. `Resize` does not model
  it; a client call of `TriggerStates` stands for it.
- `window.matchMedia` itself is an abstract parameter `media: string -> bool`.
  Its absence is the constructor's `capable` argument.
- `console.error` output and the `.call(window)` invocation context. A
  callback firing is recorded as `Match(i)`/`Unmatch(i)` in `log`.
- Callbacks are assumed to return normally. In the source, a `match` or
  `unmatch` that throws, or a truthy `match`/`unmatch` field that is not a
  function, stops `_triggerStates` before the push or the filter. That name's
  membership is then not updated, the later states are not visited, and the
  exception escapes `addState` and the constructor. `onMatch`/`onUnmatch`
  stand for "a callable is present".
- Callbacks that call back into the manager during a pass (re-entrant
  `addState`/`destroy`) are not modelled. A callback is assumed to leave the
  manager's lists alone.
- `_states` and `_activeStates` live in the module closure and are shared by
  every `StateManager` instance. The model gives each `Manager` its own lists
  and starts them empty. It also sets `$win` only in this instance's
  constructor.
- The filter callback passed to `$.grep` compares with loose `!=`, and
  `$.inArray` compares with strict equality. The model treats state names as strings, where both agree.
- A truthy `states` argument that is not an array is not modelled: the
  constructor takes `Option<seq<State>>`.
- The `register`/`deregister`/`queries`/`matches` API that the tests exercise
  is not part of this version of the source and is not modelled.
- Build tooling (gulpfile.js) is not part of this model.
