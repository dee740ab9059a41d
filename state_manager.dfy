/** The breakpoint state manager: a list of registered states, each a named
    media query with optional `match`/`unmatch` callbacks, and the list of
    names currently active. A reconciliation pass asks the media-query
    evaluator about each state in turn and enters or leaves it. */
module StateManager {
  import opened Seqs

  /** A registered state. `onMatch`/`onUnmatch` say whether the optional
      `match`/`unmatch` callbacks are present. */
  datatype State = State(name: string, mq: string, onMatch: bool, onUnmatch: bool)

  /** One callback firing; `index` is the position of the state in `states` at the
      time of firing. Positions start again at 0 after `Destroy`, so an index in
      the log names a state only together with the firings' order relative to
      the `Destroy` calls. */
  datatype Callback = Match(index: nat) | Unmatch(index: nat)

  /** `window.matchMedia(mq).matches`, held fixed for the length of one call. */
  type Evaluator = string -> bool

  datatype Option<T> = None | Some(value: T)

  /** The outcome of reconciling: the new active names and the callbacks fired, in order. */
  datatype Pass = Pass(active: seq<string>, fired: seq<Callback>)

  /** The names of the states, in registration order. */
  function Names(states: seq<State>): (r: seq<string>)
    ensures |r| == |states|
    ensures forall k :: 0 <= k < |states| ==> r[k] == states[k].name
  {
    if |states| == 0 then [] else Names(states[..|states| - 1]) + [states[|states| - 1].name]
  }

  /** Every state is active exactly when its query holds. */
  predicate Settled(states: seq<State>, active: seq<string>, media: Evaluator)
  {
    forall k :: 0 <= k < |states| ==> (states[k].name in active <==> media(states[k].mq))
  }

  /** Callback indices strictly increase: at most one callback per state, in list order. */
  predicate Increasing(fired: seq<Callback>)
  {
    forall i, j :: 0 <= i < j < |fired| ==> fired[i].index < fired[j].index
  }

  /** The handling of the state at position `k` when its query evaluates to `matches`:
      enter it (fire `match` if present, push the name), leave it (fire `unmatch`
      if present, drop every occurrence of the name) or do nothing. */
  function Step(active: seq<string>, s: State, k: nat, matches: bool): (r: Pass)
  {
    var inArray := IndexOf(active, s.name) != -1;
    if !inArray && matches then
      Pass(active + [s.name], if s.onMatch then [Match(k)] else [])
    else if inArray && !matches then
      Pass(Without(active, s.name), if s.onUnmatch then [Unmatch(k)] else [])
    else
      Pass(active, [])
  }

  /** After a step the state's name is active exactly when its query holds and no
      other name changes membership; at most one callback fires, the state's own
      `match` exactly on entering and its `unmatch` exactly on leaving. */
  lemma StepFacts(active: seq<string>, s: State, k: nat, matches: bool)
    ensures var p := Step(active, s, k, matches);
      && (s.name in p.active <==> matches)
      && (forall y :: y != s.name ==> (y in p.active <==> y in active))
      && (forall c :: c in p.fired ==> c.index == k)
      && |p.fired| <= 1
      && (Match(k) in p.fired <==> s.onMatch && matches && s.name !in active)
      && (Unmatch(k) in p.fired <==> s.onUnmatch && !matches && s.name in active)
      && (NoDup(active) ==> NoDup(p.active))
  {
  }

  /** One reconciliation pass over `states`, front to back, starting from `active`. */
  function Reconcile(states: seq<State>, active: seq<string>, media: Evaluator): (r: Pass)
    decreases |states|
  {
    if |states| == 0 then Pass(active, [])
    else
      var n := |states| - 1;
      var p := Reconcile(states[..n], active, media);
      var q := Step(p.active, states[n], n, media(states[n].mq));
      Pass(q.active, p.fired + q.fired)
  }

  /** Reconciling one more state of `states` is one more step. */
  lemma ReconcileSnoc(states: seq<State>, i: nat, active: seq<string>, media: Evaluator)
    requires i < |states|
    ensures var p := Reconcile(states[..i], active, media);
      var q := Step(p.active, states[i], i, media(states[i].mq));
      Reconcile(states[..i + 1], active, media) == Pass(q.active, p.fired + q.fired)
  {
    assert states[..i + 1][..i] == states[..i];
  }

  /** A pass never duplicates an active name and only adds names of states. */
  lemma {:induction false} ReconcileKeepsNames(states: seq<State>, active: seq<string>, media: Evaluator)
    ensures NoDup(active) ==> NoDup(Reconcile(states, active, media).active)
    ensures forall y :: y in Reconcile(states, active, media).active ==> y in active || y in Names(states)
  {
    if |states| > 0 {
      var n := |states| - 1;
      ReconcileKeepsNames(states[..n], active, media);
      StepFacts(Reconcile(states[..n], active, media).active, states[n], n, media(states[n].mq));
      assert Names(states[..n]) == Names(states)[..n];
    }
  }

  /** Every callback of a pass is a genuine transition of its state: `match` only
      when the state was not active just before and its query holds, `unmatch` only
      when it was active and its query does not hold; each callback is present on
      its state, and indices strictly increase. */
  lemma {:induction false} ReconcileFiresTransitions(states: seq<State>, active: seq<string>, media: Evaluator)
    ensures Increasing(Reconcile(states, active, media).fired)
    ensures forall c :: c in Reconcile(states, active, media).fired ==>
      && c.index < |states|
      && var s := states[c.index];
      && var before := Reconcile(states[..c.index], active, media).active;
      && (c.Match? ==> s.onMatch && media(s.mq) && s.name !in before)
      && (c.Unmatch? ==> s.onUnmatch && !media(s.mq) && s.name in before)
  {
    if |states| > 0 {
      var n := |states| - 1;
      var prefix := states[..n];
      ReconcileFiresTransitions(prefix, active, media);
      var p := Reconcile(prefix, active, media);
      StepFacts(p.active, states[n], n, media(states[n].mq));
      forall c | c in p.fired
        ensures states[..c.index] == prefix[..c.index]
      {
      }
    }
  }

  /** With distinct names, after a pass every state is active exactly when its
      query holds, and the membership of every other name is unchanged. */
  lemma {:induction false} ReconcileSettles(states: seq<State>, active: seq<string>, media: Evaluator)
    requires NoDup(Names(states))
    ensures Settled(states, Reconcile(states, active, media).active, media)
    ensures forall y :: y !in Names(states) ==>
      (y in Reconcile(states, active, media).active <==> y in active)
  {
    if |states| > 0 {
      var n := |states| - 1;
      var prefix := states[..n];
      assert Names(prefix) == Names(states)[..n];
      ReconcileSettles(prefix, active, media);
      var p := Reconcile(prefix, active, media);
      var s := states[n];
      StepFacts(p.active, s, n, media(s.mq));
      var r := Reconcile(states, active, media).active;
      assert r == Step(p.active, s, n, media(s.mq)).active;
      forall k | 0 <= k < |states|
        ensures states[k].name in r <==> media(states[k].mq)
      {
        if k < n {
          assert states[k] == prefix[k];
          assert Names(states)[k] != Names(states)[n];
        }
      }
      forall y | y !in Names(states)
        ensures y in r <==> y in active
      {
        assert y != Names(states)[n];
      }
    }
  }


  /** With distinct names, the callbacks of a pass are exactly the transitions
      from the starting active names: `match` for a present callback whose state
      was inactive and now matches, `unmatch` for one that was active and no longer
      matches. */
  lemma {:induction false} ReconcileFiredExactly(states: seq<State>, active: seq<string>, media: Evaluator)
    requires NoDup(Names(states))
    ensures forall k :: 0 <= k < |states| ==>
      (Match(k) in Reconcile(states, active, media).fired <==>
        states[k].onMatch && media(states[k].mq) && states[k].name !in active)
    ensures forall k :: 0 <= k < |states| ==>
      (Unmatch(k) in Reconcile(states, active, media).fired <==>
        states[k].onUnmatch && !media(states[k].mq) && states[k].name in active)
  {
    if |states| > 0 {
      var n := |states| - 1;
      var prefix := states[..n];
      assert Names(prefix) == Names(states)[..n];
      ReconcileFiredExactly(prefix, active, media);
      ReconcileSettles(prefix, active, media);
      ReconcileFiresTransitions(prefix, active, media);
      StepFacts(Reconcile(prefix, active, media).active, states[n], n, media(states[n].mq));
      assert states[n].name !in Names(prefix);
    }
  }

  /** A pass over states that are already settled fires nothing and changes nothing. */
  lemma {:induction false} ReconcileSettledIsNoOp(states: seq<State>, active: seq<string>, media: Evaluator)
    requires Settled(states, active, media)
    ensures Reconcile(states, active, media) == Pass(active, [])
  {
    if |states| > 0 {
      var n := |states| - 1;
      ReconcileSettledIsNoOp(states[..n], active, media);
      StepFacts(active, states[n], n, media(states[n].mq));
    }
  }

  /** With distinct names and an unchanged evaluator, a second pass fires no
      callbacks and leaves the active names as they are. */
  lemma ReconcileIdempotent(states: seq<State>, active: seq<string>, media: Evaluator)
    requires NoDup(Names(states))
    ensures var p := Reconcile(states, active, media);
      Reconcile(states, p.active, media) == Pass(p.active, [])
  {
    ReconcileSettles(states, active, media);
    ReconcileSettledIsNoOp(states, Reconcile(states, active, media).active, media);
  }

  /** Appending a state to settled ones: the pass only handles the new state. */
  lemma ReconcileAppendSettled(states: seq<State>, s: State, active: seq<string>, media: Evaluator)
    requires Settled(states, active, media)
    ensures Reconcile(states + [s], active, media) == Step(active, s, |states|, media(s.mq))
  {
    assert (states + [s])[..|states|] == states;
    ReconcileSettledIsNoOp(states, active, media);
  }

  /** With distinct names, adding the state at position `i` to the settled
      states before it activates it exactly when its query holds and fires only
      its `match` callback, and only then. */
  lemma AddToSettled(list: seq<State>, i: nat, active: seq<string>, media: Evaluator)
    requires i < |list| && NoDup(Names(list))
    requires Settled(list[..i], active, media)
    requires forall y :: y in active ==> y in Names(list[..i])
    ensures Settled(list[..i + 1], Reconcile(list[..i + 1], active, media).active, media)
    ensures Reconcile(list[..i + 1], active, media).fired ==
      if list[i].onMatch && media(list[i].mq) then [Match(i)] else []
  {
    assert list[..i + 1] == list[..i] + [list[i]];
    assert Names(list[..i]) == Names(list)[..i];
    assert list[i].name !in active;
    ReconcileAppendSettled(list[..i], list[i], active, media);
    StepFacts(active, list[i], i, media(list[i].mq));
    assert Names(list[..i + 1]) == Names(list)[..i + 1];
    ReconcileSettles(list[..i + 1], active, media);
  }

  /** The callbacks that adding the first `i` states of `list` fires, one pass
      each, when names are distinct: `match` for every state whose query holds
      and which has the callback, in list order, and nothing else. */
  ghost predicate InitialFirings(log: seq<Callback>, list: seq<State>, i: nat, media: Evaluator)
  {
    && Increasing(log)
    && forall c :: c in log <==>
      c.Match? && c.index < i && c.index < |list| && list[c.index].onMatch && media(list[c.index].mq)
  }

  /** Adding the state at position `i` extends the initial firings by its `match`, if any. */
  lemma InitialFiringsNext(log: seq<Callback>, list: seq<State>, i: nat, media: Evaluator)
    requires i < |list| && InitialFirings(log, list, i, media)
    ensures InitialFirings(log + (if list[i].onMatch && media(list[i].mq) then [Match(i)] else []), list, i + 1, media)
  {
  }

  /** Adding the first `i` states of `list` to an empty manager, one at a time,
      each addition followed by a pass over everything added so far: the active
      names afterwards and every callback fired, in order. */
  function Populate(list: seq<State>, i: nat, media: Evaluator): (r: Pass)
    requires i <= |list|
    decreases i
  {
    if i == 0 then Pass([], [])
    else
      var p := Populate(list, i - 1, media);
      var q := Reconcile(list[..i], p.active, media);
      Pass(q.active, p.fired + q.fired)
  }

  /** With distinct names, adding the first `i` states leaves each of them active
      exactly when its query holds, activates no other name, and fires exactly the
      `match` callbacks of the matching states that have one, in list order. */
  lemma {:induction false} PopulateDistinct(list: seq<State>, i: nat, media: Evaluator)
    requires i <= |list| && NoDup(Names(list))
    ensures Settled(list[..i], Populate(list, i, media).active, media)
    ensures forall y :: y in Populate(list, i, media).active ==> y in Names(list[..i])
    ensures InitialFirings(Populate(list, i, media).fired, list, i, media)
  {
    if i > 0 {
      var k := i - 1;
      PopulateDistinct(list, k, media);
      var p := Populate(list, k, media);
      var q := Reconcile(list[..i], p.active, media);
      assert list[..k + 1] == list[..i];
      AddToSettled(list, k, p.active, media);
      ReconcileKeepsNames(list[..i], p.active, media);
      assert list[..i][..k] == list[..k];
      var extra := if list[k].onMatch && media(list[k].mq) then [Match(k)] else [];
      assert q.fired == extra;
      InitialFiringsNext(p.fired, list, k, media);
    }
  }


  /** The state manager. The fields stand for the closure's `_states` and
      `_activeStates`, for whether `window.matchMedia` exists, whether `$win` was
      assigned and whether the `resize.sm` handler is attached; `log` records the
      callback firings. */
  class Manager {
    var states: seq<State>
    var active: seq<string>
    var supported: bool
    var windowBound: bool
    var listening: bool
    var log: seq<Callback>

    /** No name is active twice, only names of registered states are active, and
        the resize handler is attached only where `window.matchMedia` exists. */
    ghost predicate Valid()
      reads this
    {
      && NoDup(active)
      && (forall y :: y in active ==> y in Names(states))
      && (listening ==> supported)
    }

    /** Whether the state called `name` is currently active. */
    function MatchState(name: string): (r: bool)
      reads this
      ensures r <==> name in active
    {
      IndexOf(active, name) != -1
    }

    /** The body of the `_triggerStates` loop for the state at position `i`:
        enters, leaves or keeps it according to `matches`. */
    method HandleState(i: nat, matches: bool)
      requires i < |states|
      modifies this`active, this`log
      ensures var q := Step(old(active), states[i], i, matches);
        active == q.active && log == old(log) + q.fired
    {
      var st := states[i];
      var inArray := MatchState(st.name);
      if !inArray && matches {
        if st.onMatch {
          log := log + [Match(i)];
        }
        active := active + [st.name];
      } else if inArray && !matches {
        if st.onUnmatch {
          log := log + [Unmatch(i)];
        }
        active := Without(active, st.name);
      }
    }

    /** Reconciles every state against `media`. Without `window.matchMedia` the
        first evaluation throws (`ok` is false) and nothing changes. */
    method TriggerStates(media: Evaluator) returns (ok: bool)
      requires Valid()
      modifies this`active, this`log
      ensures Valid()
      ensures ok == (supported || |states| == 0)
      ensures ok ==> active == Reconcile(states, old(active), media).active
      ensures ok ==> log == old(log) + Reconcile(states, old(active), media).fired
      ensures !ok ==> active == old(active) && log == old(log)
    {
      ghost var active0, log0 := active, log;
      var i := 0;
      while i < |states|
        invariant 0 <= i <= |states|
        invariant supported || i == 0
        invariant active == Reconcile(states[..i], active0, media).active
        invariant log == log0 + Reconcile(states[..i], active0, media).fired
      {
        if !supported {
          assert states[..i] == [];
          return false;
        }
        HandleState(i, media(states[i].mq));
        ReconcileSnoc(states, i, active0, media);
        i := i + 1;
      }
      assert states[..i] == states;
      ReconcileKeepsNames(states, active0, media);
      ok := true;
    }

    /** A window resize event, with `media` the evaluator once its 100 ms debounce
        has elapsed: the `resize.sm` handler schedules a pass while it is attached;
        a resize after `destroy`, or when the constructor returned early, schedules
        nothing. A pass already scheduled before `destroy` is not this event: it
        still runs, and is a direct call of `TriggerStates`. */
    method Resize(media: Evaluator)
      requires Valid()
      modifies this`active, this`log
      ensures Valid()
      ensures listening ==> active == Reconcile(states, old(active), media).active
      ensures listening ==> log == old(log) + Reconcile(states, old(active), media).fired
      ensures !listening ==> active == old(active) && log == old(log)
    {
      if listening {
        var _ := TriggerStates(media);
      }
    }

    /** Appends `s` to the registered states, then reconciles. */
    method AddState(s: State, media: Evaluator) returns (ok: bool)
      requires Valid()
      modifies this`states, this`active, this`log
      ensures Valid()
      ensures ok == supported
      ensures states == old(states) + [s]
      ensures ok ==> active == Reconcile(states, old(active), media).active
      ensures ok ==> log == old(log) + Reconcile(states, old(active), media).fired
      ensures !ok ==> active == old(active) && log == old(log)
    {
      states := states + [s];
      assert Names(states) == Names(old(states)) + [s.name];
      ok := TriggerStates(media);
    }

    /** Removes the `resize.sm` handler and empties both lists. When the
        constructor returned early `$win` is undefined and the call throws
        (`ok` is false) before anything is reset. */
    method Destroy() returns (ok: bool)
      modifies this`states, this`active, this`listening
      ensures ok == old(windowBound)
      ensures ok ==> states == [] && active == [] && !listening
      ensures ok ==> forall name :: !MatchState(name)
      ensures !ok ==> states == old(states) && active == old(active) && listening == old(listening)
      ensures old(Valid()) ==> Valid()
    {
      if !windowBound {
        return false;
      }
      listening := false;
      states := [];
      active := [];
      ok := true;
    }

    /** The constructor's `if (states)` block: adds every state of `list` in
        order, each addition reconciling, then reconciles once more. */
    method LoadStates(list: seq<State>, media: Evaluator)
      requires Valid() && supported
      requires states == [] && active == [] && log == []
      modifies this`states, this`active, this`log
      ensures Valid()
      ensures states == list
      ensures var p := Populate(list, |list|, media);
        var q := Reconcile(list, p.active, media);
        active == q.active && log == p.fired + q.fired
      ensures NoDup(Names(list)) ==> Settled(list, active, media)
      ensures NoDup(Names(list)) ==> InitialFirings(log, list, |list|, media)
    {
      var i := 0;
      while i < |list|
        invariant 0 <= i <= |list|
        invariant Valid()
        invariant states == list[..i]
        invariant active == Populate(list, i, media).active
        invariant log == Populate(list, i, media).fired
      {
        assert list[..i + 1] == list[..i] + [list[i]];
        var _ := AddState(list[i], media);
        i := i + 1;
      }
      assert list[..i] == list;
      ghost var p := Populate(list, |list|, media);
      if NoDup(Names(list)) {
        PopulateDistinct(list, |list|, media);
        ReconcileSettledIsNoOp(list, p.active, media);
      }
      var _ := TriggerStates(media);
    }

    /** `new StateManager(states)` in an environment where `window.matchMedia`
        exists exactly when `capable` holds. Without it the constructor returns
        at once. Otherwise it adds every given state (each addition reconciles),
        reconciles once more and attaches the resize handler. With distinct names
        the final pass fires nothing; with a repeated name it can undo earlier
        entries, and the contract states its outcome exactly. */
    constructor (capable: bool, initial: Option<seq<State>>, media: Evaluator)
      ensures Valid()
      ensures supported == capable && windowBound == capable && listening == capable
      ensures !capable || initial.None? ==> states == [] && active == [] && log == []
      ensures capable && initial.Some? ==> states == initial.value
      ensures capable && initial.Some? ==>
        var p := Populate(states, |states|, media);
        var q := Reconcile(states, p.active, media);
        active == q.active && log == p.fired + q.fired
      ensures capable && NoDup(Names(states)) ==> Settled(states, active, media)
      ensures capable && NoDup(Names(states)) ==> InitialFirings(log, states, |states|, media)
    {
      states, active, log := [], [], [];
      supported, windowBound, listening := capable, false, false;
      new;
      if !capable {
        return;
      }
      windowBound := true;
      if initial.Some? {
        LoadStates(initial.value, media);
      }
      listening := true;
    }
  }
}
