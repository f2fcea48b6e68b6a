/** cmd/signpost/serve.go: what whole starts, ticks, reloads and exits of the daemon
    come to, over every interleaving. */
module Lifecycle {
  import opened Text
  import opened Serve

  // ----- ticks --------------------------------------------------------------

  /** The tick that an action carries on. */
  function Advances(s: State, a: Action): Option<Tick> {
    match a
    case MainStep(_) => if s.main.PrimeTick? then Some(s.main.tick) else None
    case ReloadStep(_) => if s.reload.ReloadTick? then Some(s.reload.tick) else None
    case LoopStep(g, _) => if g < |s.gens| && s.gens[g].loop.InTick? then Some(s.gens[g].loop.tick) else None
    case Signal => None
  }

  function Outcome(a: Action): bool { if a.Signal? then true else a.ok }

  /** A snapshot is published by a step that composes one, and by no other. */
  predicate Composes(s: State, a: Action) {
    Advances(s, a).Some? && Advances(s, a).value.Loaded? && Outcome(a)
  }

  lemma {:induction false} TickPublishes(held: bool, published: seq<nat>, t: Tick, ok: bool)
    requires LoadedLast(t, published)
    ensures TickNext(held, published, t, ok).1
      == if t.Loaded? && ok then published + [|published|] else published
  {
  }

  lemma {:induction false} MainPublishes(s: State, ok: bool)
    requires Inv(s)
    ensures MainNext(s, ok).published
      == if Composes(s, MainStep(ok)) then s.published + [|s.published|] else s.published
  {
    if s.main.PrimeTick? { TickPublishes(s.gens[0].tickHeld, s.published, s.main.tick, ok); }
  }

  lemma {:induction false} ReloadPublishes(s: State, ok: bool)
    requires Inv(s)
    ensures ReloadNext(s, ok).published
      == if Composes(s, ReloadStep(ok)) then s.published + [|s.published|] else s.published
  {
    if s.reload.ReloadTick? { TickPublishes(Newest(s).tickHeld, s.published, s.reload.tick, ok); }
  }

  lemma {:induction false} LoopPublishes(s: State, g: nat, ok: bool)
    requires Inv(s) && g < |s.gens|
    ensures LoopNext(s, g, ok).published
      == if Composes(s, LoopStep(g, ok)) then s.published + [|s.published|] else s.published
  {
    if s.gens[g].loop.InTick? {
      OnlyNewestRuns(s, g);
      TickPublishes(s.gens[g].tickHeld, s.published, s.gens[g].loop.tick, ok);
    }
  }

  lemma {:induction false} StepPublishes(s: State, a: Action)
    requires Inv(s)
    ensures Step(s, a).published == if Composes(s, a) then s.published + [|s.published|] else s.published
  {
    match a
    case MainStep(ok) => MainPublishes(s, ok);
    case ReloadStep(ok) => ReloadPublishes(s, ok);
    case LoopStep(g, ok) => if g < |s.gens| { LoopPublishes(s, g, ok); }
    case Signal =>
  }

  function Composed(actions: seq<Action>): nat {
    if actions == [] then 0
    else
      var n := |actions| - 1;
      Composed(actions[..n]) + if Composes(After(actions[..n]), actions[n]) then 1 else 0
  }

  /** Over every run there are as many snapshots as steps that composed one: what fails
      publishes nothing, and nothing published is taken back. */
  lemma {:induction false} PublishedExactly(actions: seq<Action>)
    ensures |After(actions).published| == Composed(actions)
  {
    if actions != [] {
      var n := |actions| - 1;
      PublishedExactly(actions[..n]);
      StepPublishes(After(actions[..n]), actions[n]);
    }
  }

  /** Some steps of one tick in a row. */
  function TickRun(held: bool, published: seq<nat>, t: Tick, oks: seq<bool>): (bool, seq<nat>, Tick)
    decreases |oks|
  {
    if oks == [] then (held, published, t)
    else var (h, p, u) := TickNext(held, published, t, oks[0]); TickRun(h, p, u, oks[1..])
  }

  /** A tick that finds its lock free ends with it free, and publishes on the snapshot
      before it exactly when gathering and composing both succeed. */
  lemma {:induction false} WholeTick(published: seq<nat>, gathers: bool, composes: bool)
    ensures TickRun(false, published, Entering, [true] + ([gathers] + ([composes] + ([true] + []))))
      == (false, published + if gathers && composes then [|published|] else [], Over(gathers && composes))
  {
    TickOneOn(false, published, Entering, true, [gathers] + ([composes] + ([true] + [])));
    TickOneOn(true, published, Gathering, gathers, [composes] + ([true] + []));
    var t := if gathers then Tick.Loaded(|published|) else Leaving(false);
    TickOneOn(true, published, t, composes, [true] + []);
    var (h, p, u) := TickNext(true, published, t, composes);
    TickOneOn(h, p, u, true, []);
    assert published + [] == published;
  }

  lemma {:induction false} TickOneOn(held: bool, published: seq<nat>, t: Tick, ok: bool, oks: seq<bool>)
    ensures var (h, p, u) := TickNext(held, published, t, ok);
      TickRun(held, published, t, [ok] + oks) == TickRun(h, p, u, oks)
  {
    assert ([ok] + oks)[1..] == oks;
  }

  /** A tick that finds it taken does nothing and reports no error. */
  lemma {:induction false} DroppedTick(published: seq<nat>, ok: bool)
    ensures TickNext(true, published, Entering, ok) == (true, published, Over(true))
  {
  }

  // ----- shutting down ------------------------------------------------------

  predicate LeavesServing(s: State) { s.main.Locking? || s.main.Stopping? || s.main.HttpFailed? || s.main.HttpStop? }

  /** Whoever is on the way out is so because of the shutdown. */
  predicate DownForAReason(s: State) {
    && (LeavesServing(s) || s.reload.Gone? ==> s.shutdown)
    && (s.main.Done? && !s.reload.Off? ==> s.shutdown)
  }

  lemma {:induction false} StepDownForAReason(s: State, a: Action)
    requires Inv(s) && DownForAReason(s)
    ensures DownForAReason(Step(s, a)) && (s.shutdown ==> Step(s, a).shutdown)
  {
  }

  /** In every run main stops serving, and the reload goroutine ends, only once the context
      is cancelled. */
  lemma {:induction false} ExitsAreShutdowns(actions: seq<Action>)
    ensures DownForAReason(After(actions))
  {
    if actions != [] {
      var n := |actions| - 1;
      ExitsAreShutdowns(actions[..n]);
      StepDownForAReason(After(actions[..n]), actions[n]);
    }
  }

  /** No signal comes and the HTTP server does not fail. */
  predicate Undisturbing(s: State, a: Action) { !a.Signal? && (a == MainStep(false) ==> !s.main.Serving?) }

  lemma {:induction false} StaysUp(s: State, a: Action)
    requires Inv(s) && s.main.Serving? && !s.shutdown && Undisturbing(s, a)
    ensures Step(s, a).main.Serving? && !Step(s, a).shutdown
  {
  }

  predicate NothingDisturbs(s: State, actions: seq<Action>)
    requires Inv(s)
  {
    forall k :: 0 <= k < |actions| ==> Undisturbing(Run(s, actions[..k]), actions[k])
  }

  lemma {:induction false} NothingDisturbed(s: State, actions: seq<Action>)
    requires Inv(s) && actions != [] && NothingDisturbs(s, actions)
    ensures var n := |actions| - 1;
      NothingDisturbs(s, actions[..n]) && Undisturbing(Run(s, actions[..n]), actions[n])
  {
    var n := |actions| - 1;
    forall k | 0 <= k < n ensures Undisturbing(Run(s, actions[..n][..k]), actions[..n][k]) {
      assert actions[..n][..k] == actions[..k];
    }
  }

  /** A daemon that serves goes on serving, whatever its ticks and reloads do, until a
      signal comes or its HTTP server fails. */
  lemma {:induction false} ServesUntilStopped(s: State, actions: seq<Action>)
    requires Inv(s) && s.main.Serving? && !s.shutdown && NothingDisturbs(s, actions)
    ensures Run(s, actions).main.Serving? && !Run(s, actions).shutdown
  {
    if actions != [] {
      var n := |actions| - 1;
      NothingDisturbed(s, actions);
      ServesUntilStopped(s, actions[..n]);
      StaysUp(Run(s, actions[..n]), actions[n]);
    }
  }

  /** Main exits only when the stop it made is over; unless the HTTP server failed that was
      a stop of the newest generation, and nobody works. */
  lemma {:induction false} ExitIsClean(s: State, a: Action, w: Worker)
    requires Inv(s) && !s.main.Done? && Step(s, a).main.Done?
    ensures s.main.HttpStop? ==> s.main.gen < |s.gens| && s.gens[s.main.gen].once.Complete?
    ensures !s.main.HttpStop? ==> Newest(s).once.Complete? && !Working(Step(s, a), w)
  {
    if w.ByLoop? && Working(s, w) { OnlyNewestRuns(s, w.gen); }
  }

  predicate AfterHttpFailure(s: State) { s.main.HttpFailed? || s.main.HttpStop? }

  /** That exit is taken only when the HTTP server fails while main serves. */
  lemma {:induction false} HttpExitOnlyOnFailure(s: State, a: Action)
    requires Inv(s) && !AfterHttpFailure(s) && AfterHttpFailure(Step(s, a))
    ensures s.main.Serving? && a == MainStep(false)
  {
  }

  /** A way of telling which actions lead to which state. */
  type Leads = (seq<Action>, State) -> bool

  ghost predicate GoesOn(leads: Leads) {
    forall actions: seq<Action>, t: State, a: Action :: leads(actions, t) ==> OneOn(leads, actions, t, a)
  }

  predicate OneOn(leads: Leads, actions: seq<Action>, t: State, a: Action) {
    t.gens != [] && t.current < |t.gens| && leads(actions + [a], Step(t, a))
  }

  function LeadsFrom(s: State): Leads
    requires Inv(s)
  {
    (actions: seq<Action>, t: State) => Inv(s) && Run(s, actions) == t
  }

  lemma {:induction false} RunGoesOn(s: State)
    requires Inv(s)
    ensures GoesOn(LeadsFrom(s)) && LeadsFrom(s)([], s)
  {
    var leads := LeadsFrom(s);
    forall actions: seq<Action>, t: State, a: Action | leads(actions, t) ensures OneOn(leads, actions, t, a) {
      RunOneMore(s, actions, a);
    }
  }

  lemma {:induction false} LeadsOn(leads: Leads, actions: seq<Action>, t: State, a: Action)
    requires GoesOn(leads) && leads(actions, t)
    ensures t.gens != [] && t.current < |t.gens| && leads(actions + [a], Step(t, a))
  {
    assert OneOn(leads, actions, t, a);
  }

  lemma {:induction false} LoopLeaves(leads: Leads, done: seq<Action>, s: State, g: nat)
    requires GoesOn(leads) && leads(done, s)
    requires g < |s.gens| && s.gens[g].loop.Waiting? && s.gens[g].closes == 0
    ensures leads(done + [Signal] + [LoopStep(g, false)] + [LoopStep(g, false)],
                  With(s.(shutdown := true), g, s.gens[g].(loop := Exited, closes := 1)))
  {
    var x, s1 := s.gens[g], s.(shutdown := true);
    LeadsOn(leads, done, s, Signal);
    LeadsOn(leads, done + [Signal], s1, LoopStep(g, false));
    var s2 := With(s1, g, x.(loop := Returning));
    LeadsOn(leads, done + [Signal] + [LoopStep(g, false)], s2, LoopStep(g, false));
    assert s2.gens[g := x.(loop := Exited, closes := 1)] == s.gens[g := x.(loop := Exited, closes := 1)];
  }

  lemma {:induction false} WaitingIsOpen(s: State, g: nat)
    requires Inv(s) && g < |s.gens| && s.gens[g].loop.Waiting?
    ensures s.gens[g].closes == 0
  {
    OnlyNewestRuns(s, g);
  }

  /** The signal alone ends a waiting loop: it returns and closes loopDone without
      anybody calling stop. */
  lemma {:induction false} SignalEndsTheLoop(s: State, g: nat)
    requires Inv(s) && g < |s.gens| && s.gens[g].loop.Waiting?
    ensures Run(s, [Signal, LoopStep(g, false), LoopStep(g, false)])
      == With(s.(shutdown := true), g, s.gens[g].(loop := Exited, closes := 1))
  {
    RunGoesOn(s);
    WaitingIsOpen(s, g);
    LoopLeaves(LeadsFrom(s), [], s, g);
    assert [] + [Signal] + [LoopStep(g, false)] + [LoopStep(g, false)]
      == [Signal, LoopStep(g, false), LoopStep(g, false)];
  }

  /** After a signal an idle reload goroutine ends when it looks, and no reload starts
      again. */
  lemma {:induction false} SignalEndsTheReload(s: State, actions: seq<Action>)
    requires Inv(s) && s.shutdown && s.reload.Idle?
    ensures Run(s, [ReloadStep(false)]) == s.(reload := Gone)
    ensures Run(Run(s, [ReloadStep(false)]), actions).reload.Gone?
  {
    RunOneMore(s, [], ReloadStep(false));
    assert [] + [ReloadStep(false)] == [ReloadStep(false)];
    GoneStays(Run(s, [ReloadStep(false)]), actions);
  }

  lemma {:induction false} GoneStays(s: State, actions: seq<Action>)
    requires Inv(s) && s.reload.Gone?
    ensures Run(s, actions).reload.Gone?
  {
    if actions != [] {
      var n := |actions| - 1;
      GoneStays(s, actions[..n]);
      GoneStep(Run(s, actions[..n]), actions[n]);
    }
  }

  lemma {:induction false} GoneStep(s: State, a: Action)
    requires Inv(s) && s.reload.Gone?
    ensures Step(s, a).reload.Gone?
  {
  }

  // ----- starting up --------------------------------------------------------

  function MainSteps(oks: seq<bool>): (actions: seq<Action>)
    ensures |actions| == |oks| && forall i :: 0 <= i < |oks| ==> actions[i] == MainStep(oks[i])
  {
    seq(|oks|, i requires 0 <= i < |oks| => MainStep(oks[i]))
  }

  /** How a refresh comes out: nothing gathered, nothing composed, or a snapshot. */
  function Attempt(gathers: bool, composes: bool): seq<bool> { if gathers then [true, composes] else [false] }

  /** The first refresh of a start. */
  function Refreshing(gathers: bool, composes: bool): seq<Action> {
    [MainStep(true)] + MainSteps(Attempt(gathers, composes)) + [MainStep(true)] + [MainStep(true)]
  }

  lemma {:induction false} OneGeneration(x: Generation)
    ensures forall gens: seq<Generation> :: |gens| == 1 ==> gens[0 := x] == [x]
  {
  }

  lemma {:induction false} FirstGathering(leads: Leads, done: seq<Action>, s: State)
    requires GoesOn(leads) && leads(done, s) && s == INITIAL.(main := PrimeTick(Entering))
    ensures leads(done + [MainStep(true)],
                  s.(gens := [NEW_GENERATION.(tickHeld := true)], main := PrimeTick(Gathering)))
  {
    LeadsOn(leads, done, s, MainStep(true));
    OneGeneration(NEW_GENERATION.(tickHeld := true));
  }

  lemma {:induction false} FirstAttempt(leads: Leads, done: seq<Action>, s: State, gathers: bool, composes: bool)
    requires GoesOn(leads) && leads(done, s)
    requires s.gens == [NEW_GENERATION.(tickHeld := true)] && s.published == [] && s.main == PrimeTick(Gathering)
    ensures leads(done + MainSteps(Attempt(gathers, composes)),
                  s.(published := if gathers && composes then [0] else [],
                     main := PrimeTick(Leaving(gathers && composes))))
  {
    LeadsOn(leads, done, s, MainStep(gathers));
    OneGeneration(NEW_GENERATION.(tickHeld := true));
    if gathers {
      var t := s.(main := PrimeTick(Tick.Loaded(0)));
      LeadsOn(leads, done + [MainStep(true)], t, MainStep(composes));
      assert s.published + [0] == [0];
      assert done + [MainStep(true)] + [MainStep(composes)] == done + MainSteps([true, composes]);
    } else {
      assert done + [MainStep(false)] == done + MainSteps([false]);
    }
  }

  lemma {:induction false} FirstOver(leads: Leads, done: seq<Action>, s: State, fine: bool)
    requires GoesOn(leads) && leads(done, s)
    requires s.gens == [NEW_GENERATION.(tickHeld := true)] && s.main == PrimeTick(Leaving(fine))
    ensures leads(done + [MainStep(true)] + [MainStep(true)],
                  s.(gens := [NEW_GENERATION], main := if fine then MainStart else PrimeStop(AtOnce)))
  {
    LeadsOn(leads, done, s, MainStep(true));
    OneGeneration(NEW_GENERATION);
    LeadsOn(leads, done + [MainStep(true)], s.(gens := [NEW_GENERATION], main := PrimeTick(Over(fine))),
            MainStep(true));
  }

  /** The import of a start, and the refresh if it succeeds. */
  function Primes(imports: bool, gathers: bool, composes: bool): seq<Action> {
    if imports then [MainStep(true)] + Refreshing(gathers, composes) else [MainStep(false)]
  }

  lemma {:induction false} StartsUp(leads: Leads, imports: bool, gathers: bool, composes: bool)
    requires GoesOn(leads) && leads([], INITIAL)
    ensures var fine := imports && gathers && composes;
      leads(Primes(imports, gathers, composes),
            INITIAL.(published := if fine then [0] else [], main := if fine then MainStart else PrimeStop(AtOnce)))
  {
    LeadsOn(leads, [], INITIAL, MainStep(imports));
    var done := [MainStep(imports)];
    assert [] + [MainStep(imports)] == done;
    if imports {
      var s := INITIAL.(gens := [NEW_GENERATION.(tickHeld := true)], main := PrimeTick(Gathering));
      var fine := gathers && composes;
      FirstGathering(leads, done, INITIAL.(main := PrimeTick(Entering)));
      FirstAttempt(leads, done + [MainStep(true)], s, gathers, composes);
      var t := s.(published := if fine then [0] else [], main := PrimeTick(Leaving(fine)));
      FirstOver(leads, done + [MainStep(true)] + MainSteps(Attempt(gathers, composes)), t, fine);
      assert done + [MainStep(true)] + MainSteps(Attempt(gathers, composes)) + [MainStep(true)] + [MainStep(true)]
        == done + Refreshing(gathers, composes);
    }
  }

  lemma {:induction false} StopsUnstarted(leads: Leads, done: seq<Action>, s: State)
    requires GoesOn(leads) && leads(done, s) && s.gens == [NEW_GENERATION] && s.main == PrimeStop(AtOnce)
    ensures leads(done + MainSteps([true, true, true, true, true]),
                  s.(gens := [Generation(false, true, 1, Complete, Unspawned, false)], main := Done))
  {
    var m := [MainStep(true)];
    var x := NEW_GENERATION.(once := Running(MainActor));
    var y := x.(cancelled := true);
    var z := y.(closes := 1, once := Complete);
    OneGeneration(x);
    OneGeneration(y);
    OneGeneration(z);
    LeadsOn(leads, done, s, MainStep(true));
    LeadsOn(leads, done + m, s.(gens := [x], main := PrimeStop(Entered)), MainStep(true));
    LeadsOn(leads, done + m + m, s.(gens := [y], main := PrimeStop(Cancelled)), MainStep(true));
    LeadsOn(leads, done + m + m + m, s.(gens := [y], main := PrimeStop(Closing)), MainStep(true));
    LeadsOn(leads, done + m + m + m + m, s.(gens := [z], main := PrimeStop(Returned)), MainStep(true));
    assert done + m + m + m + m + m == done + MainSteps([true, true, true, true, true]);
  }

  /** A start comes to the point of spawning its loop exactly when the import, the gathering
      and the composing succeed. If one fails main stops the generation, which closes
      loopDone although no loop was started, and exits without having served. */
  lemma {:induction false} StartupExactly(imports: bool, gathers: bool, composes: bool)
    ensures var start := Primes(imports, gathers, composes);
      if imports && gathers && composes then After(start) == INITIAL.(published := [0], main := MainStart)
      else After(start + MainSteps([true, true, true, true, true]))
             == INITIAL.(gens := [Generation(false, true, 1, Complete, Unspawned, false)], main := Done)
  {
    RunGoesOn(INITIAL);
    var leads := LeadsFrom(INITIAL);
    var start := Primes(imports, gathers, composes);
    StartsUp(leads, imports, gathers, composes);
    if !(imports && gathers && composes) { StopsUnstarted(leads, start, INITIAL.(main := PrimeStop(AtOnce))); }
  }

  // ----- reloads ------------------------------------------------------------

  /** A reload that fails while it loads, checks or wires is given up: it frees the mutex
      if it has it, and everything else is as before. */
  lemma {:induction false} FailedReloadIsGivenUp(s: State)
    requires Inv(s) && (s.reload.Loading? || s.reload.Checking? || s.reload.Wiring?)
    ensures var t := Step(s, ReloadStep(false));
      && t == s.(mu := t.mu, reload := Idle) && t.mu != Some(ReloadActor)
      && (s.reload.Loading? ==> t.mu == s.mu)
  {
  }

  /** Action k is a step of the reload that succeeds where it is. */
  predicate Passes(actions: seq<Action>, k: nat, at: ReloadPc) {
    k < |actions| && actions[k] == ReloadStep(true) && After(actions[..k]).reload == at
  }

  /** Between i and j the reload is never idle: it is one and the same attempt. */
  predicate SameAttempt(actions: seq<Action>, i: nat, j: nat) {
    j <= |actions| && forall k :: i <= k < j ==> !After(actions[..k]).reload.Idle?
  }

  predicate PastLoading(s: State) { s.reload.WaitMu? || s.reload.Checking? || s.reload.Wiring? || Committed(s) }

  predicate PastChecking(s: State) { s.reload.Wiring? || Committed(s) }

  lemma {:induction false} StepsToLoaded(s: State, a: Action)
    requires Inv(s) && PastLoading(Step(s, a))
    ensures PastLoading(s) || (s.reload.Loading? && a == ReloadStep(true))
    ensures PastChecking(Step(s, a)) ==> PastChecking(s) || (s.reload.Checking? && a == ReloadStep(true))
    ensures Committed(Step(s, a)) ==> Committed(s) || (s.reload.Wiring? && a == ReloadStep(true))
  {
  }

  lemma {:induction false} HasLoaded(actions: seq<Action>) returns (i: nat)
    requires PastLoading(After(actions))
    ensures Passes(actions, i, Loading) && SameAttempt(actions, i, |actions|)
  {
    var n := |actions| - 1;
    assert actions != [] by { assert !PastLoading(INITIAL); }
    StepsToLoaded(After(actions[..n]), actions[n]);
    if PastLoading(After(actions[..n])) {
      i := HasLoaded(actions[..n]);
      StillPasses(actions, i, Loading);
      StillSame(actions, i);
    } else {
      i := n;
    }
  }

  lemma {:induction false} StillPasses(actions: seq<Action>, i: nat, at: ReloadPc)
    requires actions != [] && Passes(actions[..|actions| - 1], i, at)
    ensures Passes(actions, i, at)
  {
    assert actions[..|actions| - 1][..i] == actions[..i];
  }

  lemma {:induction false} StillSame(actions: seq<Action>, i: nat)
    requires actions != [] && SameAttempt(actions[..|actions| - 1], i, |actions| - 1)
    requires !After(actions[..|actions| - 1]).reload.Idle?
    ensures SameAttempt(actions, i, |actions|)
  {
    var n := |actions| - 1;
    forall k | i <= k < n + 1 ensures !After(actions[..k]).reload.Idle? {
      if k < n { assert actions[..n][..k] == actions[..k]; }
    }
  }

  lemma {:induction false} HasChecked(actions: seq<Action>) returns (i: nat, j: nat)
    requires PastChecking(After(actions))
    ensures i < j && Passes(actions, i, Loading) && Passes(actions, j, Checking) && SameAttempt(actions, i, |actions|)
  {
    var n := |actions| - 1;
    assert actions != [] by { assert !PastChecking(INITIAL); }
    StepsToLoaded(After(actions[..n]), actions[n]);
    if PastChecking(After(actions[..n])) {
      i, j := HasChecked(actions[..n]);
      StillPasses(actions, j, Checking);
    } else {
      i := HasLoaded(actions[..n]);
      j := n;
    }
    StillPasses(actions, i, Loading);
    StillSame(actions, i);
  }

  /** In every run: a generation is given up for a new one only by a reload that has, in
      the same attempt, loaded its configuration, found it hot-reloadable and wired it. */
  lemma {:induction false} CommitPassedEveryCheck(actions: seq<Action>) returns (i: nat, j: nat, k: nat)
    requires Committed(After(actions))
    ensures i < j < k && SameAttempt(actions, i, |actions|)
    ensures Passes(actions, i, Loading) && Passes(actions, j, Checking) && Passes(actions, k, Wiring)
  {
    var n := |actions| - 1;
    assert actions != [] by { assert !Committed(INITIAL); }
    StepsToLoaded(After(actions[..n]), actions[n]);
    if Committed(After(actions[..n])) {
      i, j, k := CommitPassedEveryCheck(actions[..n]);
      StillPasses(actions, k, Wiring);
    } else {
      i, j := HasChecked(actions[..n]);
      k := n;
    }
    StillPasses(actions, i, Loading);
    StillPasses(actions, j, Checking);
    StillSame(actions, i);
  }

  /** What a refresh adds to the snapshots. */
  function Added(published: seq<nat>, fine: bool): seq<nat> { if fine then published + [|published|] else published }

  /** The generation x is the newest, and the reload is at pc. */
  function At(s: State, x: Generation, pc: ReloadPc): State
    requires s.gens != []
  {
    With(s, |s.gens| - 1, x).(reload := pc)
  }

  lemma {:induction false} Gathers(leads: Leads, done: seq<Action>, s: State, imports: bool)
    requires GoesOn(leads) && leads(done, s)
    requires s.gens != [] && s.reload.Importing? && !Newest(s).tickHeld
    ensures leads(done + [ReloadStep(imports)] + [ReloadStep(true)],
                  At(s, Newest(s).(tickHeld := true), ReloadTick(Gathering)))
  {
    LeadsOn(leads, done, s, ReloadStep(imports));
    LeadsOn(leads, done + [ReloadStep(imports)], s.(reload := ReloadTick(Entering)), ReloadStep(true));
  }

  lemma {:induction false} SameNewest(s: State)
    requires s.gens != []
    ensures s.gens[|s.gens| - 1 := Newest(s)] == s.gens
  {
  }

  lemma {:induction false} TriesToGather(leads: Leads, done: seq<Action>, s: State, gathers: bool)
    requires GoesOn(leads) && leads(done, s) && s.gens != [] && s.reload == ReloadTick(Gathering)
    ensures leads(done + [ReloadStep(gathers)],
                  s.(reload := ReloadTick(if gathers then Tick.Loaded(|s.published|) else Leaving(false))))
  {
    LeadsOn(leads, done, s, ReloadStep(gathers));
    SameNewest(s);
    assert Newest(s).(tickHeld := Newest(s).tickHeld) == Newest(s);
  }

  lemma {:induction false} TriesToCompose(leads: Leads, done: seq<Action>, s: State, composes: bool)
    requires GoesOn(leads) && leads(done, s) && s.gens != [] && s.reload == ReloadTick(Tick.Loaded(|s.published|))
    ensures leads(done + [ReloadStep(composes)],
                  s.(published := Added(s.published, composes), reload := ReloadTick(Leaving(composes))))
  {
    LeadsOn(leads, done, s, ReloadStep(composes));
    SameNewest(s);
    assert Newest(s).(tickHeld := Newest(s).tickHeld) == Newest(s);
  }

  lemma {:induction false} Starts(leads: Leads, done: seq<Action>, s: State, fine: bool)
    requires GoesOn(leads) && leads(done, s) && s.gens != [] && s.reload == ReloadTick(Leaving(fine))
    ensures leads(done + [ReloadStep(true)] + [ReloadStep(true)], At(s, Newest(s).(tickHeld := false), ReloadStart))
  {
    LeadsOn(leads, done, s, ReloadStep(true));
    var t := At(s, Newest(s).(tickHeld := false), ReloadTick(Over(fine)));
    LeadsOn(leads, done + [ReloadStep(true)], t, ReloadStep(true));
  }

  lemma {:induction false} StartsLoop(leads: Leads, done: seq<Action>, s: State)
    requires GoesOn(leads) && leads(done, s) && s.gens != [] && s.reload.ReloadStart?
    ensures leads(done + [ReloadStep(true)] + [ReloadStep(true)],
                  At(s, Newest(s).(started := true, loop := Waiting), Swap))
  {
    var x := Newest(s).(started := true);
    LeadsOn(leads, done, s, ReloadStep(true));
    LeadsOn(leads, done + [ReloadStep(true)], At(s, x, ReloadSpawn), ReloadStep(true));
    var last := |s.gens| - 1;
    assert s.gens[last := x][last := x.(loop := Waiting)] == s.gens[last := x.(loop := Waiting)];
  }

  lemma {:induction false} HandsOver(leads: Leads, done: seq<Action>, s: State)
    requires GoesOn(leads) && leads(done, s) && s.gens != [] && s.reload.Swap?
    ensures leads(done + [ReloadStep(true)], s.(current := |s.gens| - 1, mu := None, reload := Idle))
  {
    LeadsOn(leads, done, s, ReloadStep(true));
  }

  function ReloadSteps(oks: seq<bool>): (actions: seq<Action>)
    ensures |actions| == |oks| && forall i :: 0 <= i < |oks| ==> actions[i] == ReloadStep(oks[i])
  {
    seq(|oks|, i requires 0 <= i < |oks| => ReloadStep(oks[i]))
  }

  lemma {:induction false} Refreshes(leads: Leads, done: seq<Action>, s: State, gathers: bool, composes: bool)
    requires GoesOn(leads) && leads(done, s) && s.gens != [] && s.reload == ReloadTick(Gathering)
    ensures leads(done + ReloadSteps(Attempt(gathers, composes)),
                  s.(published := Added(s.published, gathers && composes),
                     reload := ReloadTick(Leaving(gathers && composes))))
  {
    TriesToGather(leads, done, s, gathers);
    if gathers {
      var t := s.(reload := ReloadTick(Tick.Loaded(|s.published|)));
      TriesToCompose(leads, done + [ReloadStep(true)], t, composes);
      assert done + [ReloadStep(true)] + [ReloadStep(composes)] == done + ReloadSteps([true, composes]);
    } else {
      assert done + [ReloadStep(false)] == done + ReloadSteps([false]);
    }
  }

  /** The steps of a reload from its import on. */
  function Rest(imports: bool, gathers: bool, composes: bool): seq<Action> {
    [ReloadStep(imports)] + [ReloadStep(true)] + ReloadSteps(Attempt(gathers, composes)) + [ReloadStep(true)]
    + [ReloadStep(true)] + [ReloadStep(true)] + [ReloadStep(true)] + [ReloadStep(true)]
  }

  lemma {:induction false} NewestIsNew(s: State)
    requires Inv(s) && s.reload.Importing?
    ensures Newest(s) == NEW_GENERATION
  {
  }

  /** In any state in which a reload has given up the old generation, the rest of its steps
      make the new generation current, with its loop waiting, also when importing or the
      refresh fails; then the snapshot stays the old one. */
  lemma {:induction false} ReloadCarriedThrough(s: State, imports: bool, gathers: bool, composes: bool)
    requires Inv(s) && s.reload.Importing?
    ensures Run(s, Rest(imports, gathers, composes))
      == With(s, |s.gens| - 1, Generation(true, false, 0, Fresh, Waiting, false))
         .(current := |s.gens| - 1, mu := None, reload := Idle, published := Added(s.published, gathers && composes))
  {
    RunGoesOn(s);
    NewestIsNew(s);
    assert [] + [ReloadStep(imports)] == [ReloadStep(imports)];
    CarriedThrough(LeadsFrom(s), s, imports, gathers, composes);
  }

  lemma {:induction false} CarriedThrough(
    leads: Leads, s: State, imports: bool, gathers: bool, composes: bool)
    requires GoesOn(leads) && leads([], s)
    requires s.gens != [] && s.reload.Importing? && Newest(s) == NEW_GENERATION
    ensures leads(Rest(imports, gathers, composes),
                  With(s, |s.gens| - 1, Generation(true, false, 0, Fresh, Waiting, false))
                  .(current := |s.gens| - 1, mu := None, reload := Idle,
                    published := Added(s.published, gathers && composes)))
  {
    var published := Added(s.published, gathers && composes);
    var done := [ReloadStep(imports)] + [ReloadStep(true)];
    var x := NEW_GENERATION;
    Gathers(leads, [], s, imports);
    assert [] + [ReloadStep(imports)] == [ReloadStep(imports)];
    Refreshes(leads, done, At(s, x.(tickHeld := true), ReloadTick(Gathering)), gathers, composes);
    done := done + ReloadSteps(Attempt(gathers, composes));
    var t := s.(published := published);
    Starts(leads, done, At(t, x.(tickHeld := true), ReloadTick(Leaving(gathers && composes))), gathers && composes);
    assert t.gens[|s.gens| - 1 := x.(tickHeld := true)][|s.gens| - 1 := x] == t.gens[|s.gens| - 1 := x];
    done := done + [ReloadStep(true)] + [ReloadStep(true)];
    StartsLoop(leads, done, At(t, x, ReloadStart));
    var y := x.(started := true, loop := Waiting);
    assert t.gens[|s.gens| - 1 := x][|s.gens| - 1 := y] == t.gens[|s.gens| - 1 := y];
    done := done + [ReloadStep(true)] + [ReloadStep(true)];
    HandsOver(leads, done, At(t, y, Swap));
  }
}
