/**
 * The asynchronous life of the `useFhevm` hook. Effects, calls of `refresh` and settling
 * promises may come in any order; each of them runs to its end.
 */
module FhevmHook {
  import opened Prelude

  type Provider = nat

  datatype Status = Idle | Loading | Ready | Failed

  /** A call of `createFhevmInstance` that has not settled: the signal and provider it was given. */
  datatype Creation = Creation(signal: nat, provider: Provider)

  /** An instance, known by the creation that made it. */
  datatype Instance = Instance(creation: nat, provider: Provider)

  /** Refs, the latest values given to the state setters, and the outstanding creations. */
  datatype Hook = Hook(
    controller: Option<nat>, aborted: set<nat>, controllers: nat,
    provider: Option<Provider>,
    instance: Option<Instance>, status: Status, error: Option<int>,
    isRunning: bool, providerChanged: nat,
    pending: map<nat, Creation>, creations: nat)

  datatype Action =
    | Refresh(provider: Option<Provider>)
    | Enable(enabled: bool)
    | Main(running: bool)
    | Resolve(id: nat)
    | Reject(id: nat, error: int)

  function Initial(provider: Option<Provider>, enabled: bool): Hook {
    Hook(None, {}, 0, provider, None, Idle, None, enabled, 0, map[], 0)
  }

  /** Nothing shown: no instance, no error, idle. */
  function Blank(h: Hook): Hook {
    h.(instance := None, error := None, status := Idle)
  }

  function Abort(h: Hook): Hook {
    if h.controller.None? then h
    else h.(aborted := h.aborted + {h.controller.value}, controller := None)
  }

  function Next(h: Hook, a: Action): Hook {
    match a
    case Refresh(provider) =>
      Blank(Abort(h)).(provider := provider, providerChanged := h.providerChanged + if provider.Some? then 1 else 0)
    case Enable(enabled) => h.(isRunning := enabled)
    case Main(running) =>
      if !running then Blank(Abort(h))
      else if h.provider.None? then Blank(h)
      else
        var signal := if h.controller.Some? then h.controller.value else h.controllers;
        h.(controller := Some(signal),
           controllers := if h.controller.Some? then h.controllers else h.controllers + 1,
           status := Loading, error := None,
           pending := h.pending[h.creations := Creation(signal, h.provider.value)],
           creations := h.creations + 1)
    case Resolve(id) =>
      if id !in h.pending then h else
        var c := h.pending[id];
        var h' := h.(pending := h.pending - {id});
        if c.signal in h.aborted then h'
        else h'.(instance := Some(Instance(id, c.provider)), error := None, status := Ready)
    case Reject(id, error) =>
      if id !in h.pending then h else
        var h' := h.(pending := h.pending - {id});
        if h.pending[id].signal in h.aborted then h'
        else h'.(instance := None, error := Some(error), status := Failed)
  }

  predicate SettlesOn(a: Action, id: nat) {
    a == Resolve(id) || (a.Reject? && a.id == id)
  }

  predicate IsLive(h: Hook, id: nat) {
    id in h.pending && h.pending[id].signal !in h.aborted
  }

  ghost predicate Inv(h: Hook) {
    && (forall x <- h.aborted :: x < h.controllers)
    && (h.controller.Some? ==>
          h.controller.value < h.controllers && h.controller.value !in h.aborted && h.provider.Some?)
    // A live creation holds the current signal and was started for the current provider.
    && (forall id <- h.pending :: id < h.creations && h.pending[id].signal < h.controllers)
    && (forall id :: IsLive(h, id) ==>
          h.controller == Some(h.pending[id].signal) && h.provider == Some(h.pending[id].provider))
    // A stored instance belongs to the current provider.
    && (h.instance.Some? ==> h.provider == Some(h.instance.value.provider))
    // Loading always waits for something.
    && (h.status == Loading ==> exists id :: IsLive(h, id))
    // The status tells what is shown.
    && (h.status == Idle ==> h.instance.None?)
    && (h.status == Ready ==> h.instance.Some?)
    && (h.status == Failed ==> h.instance.None?)
    && (h.error.Some? <==> h.status == Failed)
  }

  lemma InvInitial(provider: Option<Provider>, enabled: bool)
    ensures Inv(Initial(provider, enabled))
  {
  }

  lemma InvRefresh(h: Hook, provider: Option<Provider>)
    requires Inv(h)
    ensures Inv(Next(h, Refresh(provider)))
  {
  }

  lemma InvMain(h: Hook, running: bool)
    requires Inv(h)
    ensures Inv(Next(h, Main(running)))
  {
    if running && h.provider.Some? {
      assert IsLive(Next(h, Main(running)), h.creations);
    }
  }

  lemma InvNext(h: Hook, a: Action)
    requires Inv(h)
    ensures Inv(Next(h, a))
  {
    var h' := Next(h, a);
    match a
    case Refresh(provider) => InvRefresh(h, provider);
    case Enable(_) =>
      if h.status == Loading {
        var id :| IsLive(h, id);
        assert IsLive(h', id);
      }
    case Main(running) => InvMain(h, running);
    case Resolve(id) => InvSettle(h, a, id);
    case Reject(id, _) => InvSettle(h, a, id);
  }

  lemma LiveAfterSettling(h: Hook, h': Hook, id: nat)
    requires h'.pending == h.pending - {id} && h'.aborted == h.aborted
    ensures forall x :: IsLive(h', x) <==> IsLive(h, x) && x != id
  {
  }

  lemma InvSettle(h: Hook, a: Action, id: nat)
    requires Inv(h) && (a == Resolve(id) || (a.Reject? && a.id == id))
    ensures Inv(Next(h, a))
  {
    var h' := Next(h, a);
    if id in h.pending {
      LiveAfterSettling(h, h', id);
      assert IsLive(h, id) <==> h.pending[id].signal !in h.aborted;
      hide IsLive;
      if h'.status == Loading {
        var other :| IsLive(h, other);
        assert IsLive(h', other);
      }
    }
  }

  /** Neither the current signal nor the next one has been aborted. */
  lemma NotYetAborted(h: Hook)
    requires Inv(h)
    ensures h.controller.Some? ==> h.controller.value !in h.aborted
    ensures h.controllers !in h.aborted
  {
  }

  class FhevmState {
    var controller: Option<nat>
    var aborted: set<nat>
    var controllers: nat
    var provider: Option<Provider>
    var instance: Option<Instance>
    var status: Status
    var error: Option<int>
    var isRunning: bool
    var providerChanged: nat
    var pending: map<nat, Creation>
    var creations: nat

    ghost function Model(): Hook
      reads this
    {
      Hook(controller, aborted, controllers, provider, instance, status, error,
           isRunning, providerChanged, pending, creations)
    }

    constructor (provider: Option<Provider>, enabled: bool)
      ensures Model() == Initial(provider, enabled) && Inv(Model())
    {
      controller, aborted, controllers := None, {}, 0;
      this.provider := provider;
      instance, status, error := None, Idle, None;
      isRunning, providerChanged := enabled, 0;
      pending, creations := map[], 0;
      new;
      InvInitial(provider, enabled);
    }

    /** `refresh`, closed over the provider of the render it was made in. */
    method DoRefresh(newProvider: Option<Provider>)
      requires Inv(Model())
      modifies this
      ensures Model() == Next(old(Model()), Refresh(newProvider)) && Inv(Model())
    {
      hide Inv, IsLive;
      InvNext(Model(), Refresh(newProvider));
      if controller.Some? {
        provider := None;
        aborted := aborted + {controller.value};
        controller := None;
      }
      provider := newProvider;
      instance := None;
      error := None;
      status := Idle;
      if newProvider.Some? {
        providerChanged := providerChanged + 1;
      }
    }

    method EnableEffect(enabled: bool)
      requires Inv(Model())
      modifies this
      ensures Model() == Next(old(Model()), Enable(enabled)) && Inv(Model())
    {
      InvNext(Model(), Enable(enabled));
      hide Inv;
      isRunning := enabled;
    }

    /** The main effect; `running` is the flag of the render that scheduled it. */
    method MainEffect(running: bool)
      requires Inv(Model())
      modifies this
      ensures Model() == Next(old(Model()), Main(running)) && Inv(Model())
    {
      hide Inv, IsLive;
      InvNext(Model(), Main(running));
      NotYetAborted(Model());
      if !running {
        if controller.Some? {
          aborted := aborted + {controller.value};
          controller := None;
        }
        instance := None;
        error := None;
        status := Idle;
        return;
      }
      if provider.None? {
        instance := None;
        error := None;
        status := Idle;
        return;
      }
      if controller.None? {
        controller := Some(controllers);
        controllers := controllers + 1;
      }
      // The first run-time assertion of the source.
      assert controller.value !in aborted;
      status := Loading;
      error := None;
      pending := pending[creations := Creation(controller.value, provider.value)];
      creations := creations + 1;
    }

    /** The `then` continuation. */
    method Resolved(id: nat)
      requires Inv(Model()) && id in pending
      modifies this
      ensures Model() == Next(old(Model()), Resolve(id)) && Inv(Model())
    {
      InvNext(Model(), Resolve(id));
      var creation := pending[id];
      pending := pending - {id};
      if creation.signal in aborted {
        return;
      }
      // The second run-time assertion of the source.
      assert Some(creation.provider) == provider;
      instance := Some(Instance(id, creation.provider));
      error := None;
      status := Ready;
    }

    /** The `catch` continuation. */
    method Rejected(id: nat, e: int)
      requires Inv(Model()) && id in pending
      modifies this
      ensures Model() == Next(old(Model()), Reject(id, e)) && Inv(Model())
    {
      InvNext(Model(), Reject(id, e));
      var creation := pending[id];
      pending := pending - {id};
      if creation.signal in aborted {
        return;
      }
      // The third run-time assertion of the source.
      assert Some(creation.provider) == provider;
      instance := None;
      error := Some(e);
      status := Failed;
    }
  }

  // --------------------------------------------------------------------- schedules

  datatype Schedule = Schedule(provider: Option<Provider>, enabled: bool, actions: seq<Action>) {

    function At(n: nat): Hook
      requires n <= |actions|
    {
      if n == 0 then Initial(provider, enabled) else Next(At(n - 1), actions[n - 1])
    }

    /** Action `i` starts creation `id`. */
    predicate Starts(i: nat, id: nat)
      requires i < |actions|
    {
      actions[i] == Main(true) && At(i).provider.Some? && At(i).creations == id
    }

    /** Nothing between `i` and `n` refreshes or stops the hook. */
    ghost predicate Undisturbed(i: nat, n: nat)
      requires n <= |actions|
    {
      forall j :: i < j < n ==> !actions[j].Refresh? && actions[j] != Main(false)
    }

    /** The promise of creation `id` settles at `j`, unless it did before. */
    predicate Settles(j: nat, id: nat)
      requires j < |actions|
    {
      SettlesOn(actions[j], id)
    }

    /** Creation `id`, started at `i`, is still awaited: neither abandoned nor settled. */
    ghost predicate Waits(i: nat, n: nat, id: nat)
      requires n <= |actions|
    {
      i < n && Starts(i, id) && Undisturbed(i, n) && forall j :: i < j < n ==> !Settles(j, id)
    }

    /** Action `j` settles a creation that is still awaited. */
    ghost predicate Answers(j: nat)
      requires j < |actions|
    {
      exists i, id :: Waits(i, j, id) && Settles(j, id)
    }

    /** Creation `id`, started at `i`, resolved at `m` while awaited, and nothing ended that until `n`. */
    ghost predicate Shows(i: nat, m: nat, n: nat, id: nat)
      requires n <= |actions|
    {
      && m < n && Waits(i, m, id) && actions[m] == Resolve(id)
      && Undisturbed(m, n) && forall j :: m < j < n ==> !Answers(j)
    }

    /** Refreshes that name a provider. */
    function Refreshes(n: nat): nat
      requires n <= |actions|
    {
      if n == 0 then 0
      else Refreshes(n - 1) + if actions[n - 1].Refresh? && actions[n - 1].provider.Some? then 1 else 0
    }
  }

  lemma {:induction false} EveryScheduleKeepsInv(s: Schedule, n: nat)
    requires n <= |s.actions|
    ensures Inv(s.At(n))
  {
    if n == 0 {
      InvInitial(s.provider, s.enabled);
    } else {
      EveryScheduleKeepsInv(s, n - 1);
      InvNext(s.At(n - 1), s.actions[n - 1]);
    }
  }

  /** An action keeps a live creation, or starts it. */
  lemma LiveStep(h: Hook, a: Action, id: nat)
    requires Inv(h) && IsLive(Next(h, a), id)
    ensures Next(h, a).provider == h.provider == Some(Next(h, a).pending[id].provider)
    ensures !a.Refresh? && a != Main(false) && !SettlesOn(a, id)
    ensures (a == Main(true) && h.provider.Some? && h.creations == id)
         || (IsLive(h, id) && h.pending[id] == Next(h, a).pending[id])
  {
    match a
    case Refresh(_) =>
    case Enable(_) =>
    case Main(_) =>
    case Resolve(x) =>
    case Reject(x, _) =>
  }

  /** An action keeps the instance on display, or puts that of a live creation there. */
  lemma InstanceStep(h: Hook, a: Action)
    requires Inv(h) && Next(h, a).instance.Some?
    ensures !a.Refresh? && a != Main(false) && Next(h, a).provider == h.provider
    ensures Next(h, a).instance == h.instance
         || (a.Resolve? && IsLive(h, a.id) && Next(h, a).instance == Some(Instance(a.id, h.pending[a.id].provider)))
  {
  }

  /** A live creation was started for the current provider and is awaited since. */
  lemma {:induction false} LiveSince(s: Schedule, n: nat, id: nat) returns (i: nat)
    requires n <= |s.actions| && IsLive(s.At(n), id)
    ensures s.Waits(i, n, id)
    ensures s.At(i).provider == s.At(n).provider == Some(s.At(n).pending[id].provider)
  {
    hide Next, Inv;
    EveryScheduleKeepsInv(s, n - 1);
    LiveStep(s.At(n - 1), s.actions[n - 1], id);
    if s.Starts(n - 1, id) {
      i := n - 1;
    } else {
      i := LiveSince(s, n - 1, id);
    }
  }

  /** A running hook with a provider starts a creation and shows loading; without one it shows nothing. */
  lemma StartShows(h: Hook)
    requires Inv(h)
    ensures var h' := Next(h, Main(true));
            if h.provider.Some? then
              && h'.creations == h.creations + 1 && h.creations !in h.pending
              && IsLive(h', h.creations) && h'.pending[h.creations].provider == h.provider.value
              && h'.status == Loading && h'.error == None && h'.instance == h.instance
            else
              && h'.pending == h.pending && h'.creations == h.creations
              && h'.status == Idle && h'.error == None && h'.instance == None
  {
  }

  lemma LiveKept(h: Hook, a: Action, id: nat)
    requires Inv(h) && IsLive(h, id) && !a.Refresh? && a != Main(false) && !SettlesOn(a, id)
    ensures IsLive(Next(h, a), id) && Next(h, a).pending[id] == h.pending[id]
  {
  }

  /** Conversely, a creation that is awaited is live. */
  lemma {:induction false} AwaitedIsLive(s: Schedule, i: nat, n: nat, id: nat)
    requires n <= |s.actions| && s.Waits(i, n, id)
    ensures IsLive(s.At(n), id) && Some(s.At(n).pending[id].provider) == s.At(i).provider
  {
    hide Next, Inv;
    EveryScheduleKeepsInv(s, n - 1);
    if i == n - 1 {
      StartShows(s.At(i));
    } else {
      AwaitedIsLive(s, i, n - 1, id);
      assert !s.Settles(n - 1, id);
      LiveKept(s.At(n - 1), s.actions[n - 1], id);
    }
  }

  /** A refresh or a stop leaves nothing live and nothing on display. */
  lemma Abandons(h: Hook, a: Action)
    requires Inv(h) && (a.Refresh? || a == Main(false))
    ensures var h' := Next(h, a);
            h'.instance == None && h'.error == None && h'.status == Idle && forall id :: !IsLive(h', id)
  {
  }

  lemma SettleShows(h: Hook, a: Action, id: nat)
    requires IsLive(h, id) && SettlesOn(a, id)
    ensures var h' := Next(h, a);
            if a.Resolve? then
              h'.instance == Some(Instance(id, h.pending[id].provider)) && h'.error == None && h'.status == Ready
            else
              h'.instance == None && h'.error == Some(a.error) && h'.status == Failed
  {
  }

  /** Everything else keeps the instance; only the start of a creation changes status and error. */
  lemma DisplayKept(h: Hook, a: Action)
    requires Inv(h) && !a.Refresh? && a != Main(false)
    requires forall id :: IsLive(h, id) ==> !SettlesOn(a, id)
    ensures Next(h, a).instance == h.instance
    ensures a != Main(true) ==> Next(h, a).status == h.status && Next(h, a).error == h.error
  {
    assert a.Resolve? || a.Reject? ==> SettlesOn(a, a.id);
  }

  /**
   * What the end of an awaited creation puts on display, under any schedule: its instance, for
   * the provider it was started for, or its error.
   */
  lemma AnswerShows(s: Schedule, i: nat, n: nat, id: nat)
    requires n < |s.actions| && s.Waits(i, n, id) && s.Settles(n, id)
    ensures var h := s.At(n + 1);
            if s.actions[n].Resolve? then
              h.instance == Some(Instance(id, s.At(i).provider.value)) && h.error == None && h.status == Ready
            else
              h.instance == None && h.error == Some(s.actions[n].error) && h.status == Failed
  {
    hide Next;
    AwaitedIsLive(s, i, n, id);
    SettleShows(s.At(n), s.actions[n], id);
  }

  /** Without an answer, a refresh or a stop the display stays, but for the loading of a new creation. */
  lemma {:induction false} DisplayStays(s: Schedule, m: nat, n: nat)
    requires m < n <= |s.actions| && s.Undisturbed(m, n) && forall j :: m < j < n ==> !s.Answers(j)
    ensures s.At(n).instance == s.At(m + 1).instance
    ensures (forall j :: m < j < n ==> s.actions[j] != Main(true)) ==>
              s.At(n).status == s.At(m + 1).status && s.At(n).error == s.At(m + 1).error
  {
    hide Next, Inv, IsLive;
    if m + 1 < n {
      var h, a := s.At(n - 1), s.actions[n - 1];
      DisplayStays(s, m, n - 1);
      EveryScheduleKeepsInv(s, n - 1);
      forall id | IsLive(h, id) ensures !SettlesOn(a, id) {
        var i := LiveSince(s, n - 1, id);
        assert !s.Answers(n - 1);
        assert !s.Settles(n - 1, id);
      }
      DisplayKept(h, a);
    }
  }

  /**
   * Status and error at any time are those of the latest refresh, main effect or answer: idle,
   * loading, ready, or failed with its error.
   */
  lemma DisplayIs(s: Schedule, j: nat, n: nat)
    requires j < n <= |s.actions| && s.Undisturbed(j, n)
    requires forall i :: j < i < n ==> !s.Answers(i) && s.actions[i] != Main(true)
    ensures var a, h := s.actions[j], s.At(n);
            && (a.Refresh? || a == Main(false) || (a == Main(true) && s.At(j).provider.None?) ==>
                  h.status == Idle && h.error == None && h.instance == None)
            && (a == Main(true) && s.At(j).provider.Some? ==>
                  h.status == Loading && h.error == None && h.instance == s.At(j).instance)
            && (s.Answers(j) ==> if a.Resolve? then h.status == Ready && h.error == None
                                 else h.status == Failed && h.error == Some(a.error))
  {
    hide Next, Inv, IsLive;
    DisplayStays(s, j, n);
    EveryScheduleKeepsInv(s, j);
    var a := s.actions[j];
    if a.Refresh? || a == Main(false) {
      Abandons(s.At(j), a);
    } else if a == Main(true) {
      StartShows(s.At(j));
    } else if s.Answers(j) {
      var i, id :| s.Waits(i, j, id) && s.Settles(j, id);
      AnswerShows(s, i, j, id);
    }
  }

  /** Before the first main effect the hook is idle. */
  lemma {:induction false} IdleAtFirst(s: Schedule, n: nat)
    requires n <= |s.actions| && forall j :: 0 <= j < n ==> !s.actions[j].Main?
    ensures var h := s.At(n);
            h.status == Idle && h.error == None && h.instance == None && h.pending == map[]
  {
    if 0 < n {
      IdleAtFirst(s, n - 1);
    }
  }

  /** An instance on display came from an awaited creation, for the provider still current. */
  lemma {:induction false} InstanceIsCurrent(s: Schedule, n: nat) returns (i: nat, m: nat)
    requires n <= |s.actions| && s.At(n).instance.Some?
    ensures var made := s.At(n).instance.value;
            && s.Shows(i, m, n, made.creation) && s.Undisturbed(i, n)
            && s.At(i).provider == s.At(n).provider == Some(made.provider)
  {
    hide Next, Inv, IsLive;
    var h, a := s.At(n - 1), s.actions[n - 1];
    EveryScheduleKeepsInv(s, n - 1);
    InstanceStep(h, a);
    if a.Resolve? && IsLive(h, a.id) {
      m := n - 1;
      i := LiveSince(s, m, a.id);
      AnswerShows(s, i, m, a.id);
    } else {
      i, m := InstanceIsCurrent(s, n - 1);
      if s.Answers(n - 1) {
        var j, id :| s.Waits(j, n - 1, id) && s.Settles(n - 1, id);
        AwaitedIsLive(s, j, n - 1, id);
        AnswerShows(s, j, n - 1, id);
      }
    }
  }

  /**
   * Whatever the interleaving, exactly when an instance is on display: its creation was started
   * for that provider and resolved while still awaited, with no later answer, refresh or stop.
   */
  lemma InstanceShownIff(s: Schedule, n: nat, id: nat, p: Provider)
    requires n <= |s.actions|
    ensures s.At(n).instance == Some(Instance(id, p))
      <==> exists i, m :: s.Shows(i, m, n, id) && s.At(i).provider == Some(p)
  {
    hide Next, Inv, IsLive;
    if s.At(n).instance == Some(Instance(id, p)) {
      var i, m := InstanceIsCurrent(s, n);
    }
    forall i, m | s.Shows(i, m, n, id) ensures s.At(n).instance == Some(Instance(id, s.At(i).provider.value)) {
      AnswerShows(s, i, m, id);
      DisplayStays(s, m, n);
    }
  }

  lemma RefsStep(h: Hook, a: Action)
    ensures Next(h, a).provider == if a.Refresh? then a.provider else h.provider
    ensures Next(h, a).isRunning == if a.Enable? then a.enabled else h.isRunning
    ensures Next(h, a).providerChanged == h.providerChanged + if a.Refresh? && a.provider.Some? then 1 else 0
  {
  }

  /** The provider is that of the latest refresh, the running flag that of the latest effect of `enabled`. */
  lemma {:induction false} LatestWins(s: Schedule, m: nat, n: nat)
    requires m <= n <= |s.actions|
    ensures (forall j :: m <= j < n ==> !s.actions[j].Refresh?) ==> s.At(n).provider == s.At(m).provider
    ensures m < n && s.actions[n - 1].Refresh? ==> s.At(n).provider == s.actions[n - 1].provider
    ensures (forall j :: m <= j < n ==> !s.actions[j].Enable?) ==> s.At(n).isRunning == s.At(m).isRunning
    ensures m < n && s.actions[n - 1].Enable? ==> s.At(n).isRunning == s.actions[n - 1].enabled
    ensures s.At(0).provider == s.provider && s.At(0).isRunning == s.enabled
    ensures s.At(n).providerChanged == s.Refreshes(n)
    decreases n
  {
    hide Next;
    if 0 < n {
      LatestWins(s, if m < n then m else n - 1, n - 1);
      RefsStep(s.At(n - 1), s.actions[n - 1]);
    }
  }

  /** Once every outstanding creation has settled the hook no longer shows loading. */
  lemma LoadingEnds(s: Schedule, n: nat)
    requires n <= |s.actions| && forall id :: !IsLive(s.At(n), id)
    ensures s.At(n).status != Loading
  {
    EveryScheduleKeepsInv(s, n);
  }
}
