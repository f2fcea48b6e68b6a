/** cmd/signpost/serve.go with the tick lock of internal/signpost/refresh/refresher.go:
    one daemon's goroutines as a state machine. Each action is one step of the main,
    the reload or one loop goroutine; a blocked step leaves the state as it is, so
    every interleaving is a sequence of actions. */
module Serve {
  import opened Text

  // ----- the state ----------------------------------------------------------

  /** Where a Refresh call is. Loaded holds how many snapshots had been published when
      the previous one was loaded; Leaving is about to unlock the tick lock. */
  datatype Tick = Entering | Gathering | Loaded(prev: nat) | Leaving(fine: bool) | Over(fine: bool)

  /** Where a stop() call is; Entering is before the once, Returned past it. */
  datatype Stop = AtOnce | Entered | Cancelled | Draining | Closing | Returned

  datatype Actor = MainActor | ReloadActor

  datatype Once = Fresh | Running(actor: Actor) | Complete

  datatype Loop = Unspawned | Waiting | InTick(tick: Tick) | Returning | Exited

  /** closes counts the close calls on loopDone; tickHeld is the refresher's tickMu. */
  datatype Generation = Generation(started: bool, cancelled: bool, closes: nat, once: Once, loop: Loop, tickHeld: bool)

  datatype MainPc =
    | Priming | PrimeTick(tick: Tick) | PrimeStop(stop: Stop) | MainStart | MainSpawn | Launch
    | Serving | Locking | Stopping(stop: Stop) | HttpFailed | HttpStop(gen: nat, stop: Stop) | Done

  datatype ReloadPc =
    | Off | Idle | Loading | WaitMu | Checking | Wiring | StopOld(stop: Stop)
    | Importing | ReloadTick(tick: Tick) | ReloadStart | ReloadSpawn | Swap | Gone

  /** published[i] is the number of snapshots there were when the composer of the i-th
      loaded its previous one. shutdown is the signal context's cancellation. */
  datatype State = State(gens: seq<Generation>, current: nat, published: seq<nat>, mu: Option<Actor>,
                         shutdown: bool, main: MainPc, reload: ReloadPc)

  datatype Action = MainStep(ok: bool) | ReloadStep(ok: bool) | LoopStep(gen: nat, ok: bool) | Signal

  const NEW_GENERATION := Generation(false, false, 0, Fresh, Unspawned, false)

  const INITIAL := State([NEW_GENERATION], 0, [], None, false, Priming, Off)

  function Newest(s: State): Generation
    requires s.gens != []
  {
    s.gens[|s.gens| - 1]
  }

  function With(s: State, g: nat, x: Generation): State
    requires g < |s.gens|
  {
    s.(gens := s.gens[g := x])
  }

  // ----- the steps ----------------------------------------------------------

  /** One step of Refresh against its tick lock; ok is whether the work of this step
      succeeds. */
  function TickNext(held: bool, published: seq<nat>, t: Tick, ok: bool): (bool, seq<nat>, Tick) {
    match t
    case Entering => if held then (held, published, Over(true)) else (true, published, Gathering)
    case Gathering => (held, published, if ok then Loaded(|published|) else Leaving(false))
    case Loaded(prev) => if ok then (held, published + [prev], Leaving(true)) else (held, published, Leaving(false))
    case Leaving(fine) => (false, published, Over(fine))
    case Over(_) => (held, published, t)
  }

  function Ticked(s: State, g: nat, t: Tick, ok: bool): (State, Tick)
    requires g < |s.gens|
  {
    var (held, published, u) := TickNext(s.gens[g].tickHeld, s.published, t, ok);
    (With(s, g, s.gens[g].(tickHeld := held)).(published := published), u)
  }

  /** One step of stop() on a generation. */
  function StopNext(x: Generation, who: Actor, p: Stop): (Generation, Stop) {
    match p
    case AtOnce =>
      if x.once.Fresh? then (x.(once := Running(who)), Entered)
      else (x, if x.once.Running? then p else Returned)
    case Entered => (x.(cancelled := true), Cancelled)
    case Cancelled => (x, if x.started then Draining else Closing)
    case Draining => if x.closes > 0 then (x.(once := Complete), Returned) else (x, p)
    case Closing => (x.(closes := x.closes + 1, once := Complete), Returned)
    case Returned => (x, p)
  }

  function MainNext(s: State, ok: bool): State
    requires s.gens != [] && s.current < |s.gens|
  {
    match s.main
    case Priming => s.(main := if ok then PrimeTick(Entering) else PrimeStop(AtOnce))
    case PrimeTick(t) =>
      if t.Over? then s.(main := if t.fine then MainStart else PrimeStop(AtOnce))
      else var (n, u) := Ticked(s, 0, t, ok); n.(main := PrimeTick(u))
    case PrimeStop(p) =>
      if p.Returned? then s.(main := Done)
      else var (x, q) := StopNext(s.gens[0], MainActor, p); With(s, 0, x).(main := PrimeStop(q))
    case MainStart => With(s, 0, s.gens[0].(started := true)).(main := MainSpawn)
    case MainSpawn => With(s, 0, s.gens[0].(loop := Waiting)).(main := Launch)
    case Launch => s.(main := Serving, reload := Idle)
    case Serving =>
      if !ok then s.(main := HttpFailed, shutdown := true) else if s.shutdown then s.(main := Locking) else s
    case Locking => if s.mu.None? then s.(mu := Some(MainActor), main := Stopping(AtOnce)) else s
    case Stopping(p) =>
      if p.Returned? then s.(mu := None, main := Done)
      else var (x, q) := StopNext(s.gens[s.current], MainActor, p); With(s, s.current, x).(main := Stopping(q))
    case HttpFailed => s.(main := HttpStop(s.current, AtOnce))
    case HttpStop(g, p) =>
      if p.Returned? || g >= |s.gens| then s.(main := Done)
      else var (x, q) := StopNext(s.gens[g], MainActor, p); With(s, g, x).(main := HttpStop(g, q))
    case Done => s
  }

  function ReloadNext(s: State, ok: bool): State
    requires s.gens != [] && s.current < |s.gens|
  {
    var last := |s.gens| - 1;
    match s.reload
    case Off => s
    case Idle => if ok then s.(reload := Loading) else if s.shutdown then s.(reload := Gone) else s
    case Loading => s.(reload := if ok then WaitMu else Idle)
    case WaitMu => if s.mu.None? then s.(mu := Some(ReloadActor), reload := Checking) else s
    case Checking => if ok then s.(reload := Wiring) else s.(mu := None, reload := Idle)
    case Wiring => if ok then s.(reload := StopOld(AtOnce)) else s.(mu := None, reload := Idle)
    case StopOld(p) =>
      if p.Returned? then s.(gens := s.gens + [NEW_GENERATION], reload := Importing)
      else var (x, q) := StopNext(s.gens[s.current], ReloadActor, p); With(s, s.current, x).(reload := StopOld(q))
    case Importing => s.(reload := ReloadTick(Entering))
    case ReloadTick(t) =>
      if t.Over? then s.(reload := ReloadStart)
      else var (n, u) := Ticked(s, last, t, ok); n.(reload := ReloadTick(u))
    case ReloadStart => With(s, last, s.gens[last].(started := true)).(reload := ReloadSpawn)
    case ReloadSpawn => With(s, last, s.gens[last].(loop := Waiting)).(reload := Swap)
    case Swap => s.(current := last, mu := None, reload := Idle)
    case Gone => s
  }

  /** ok on a waiting loop is the timer firing, which may beat a cancellation. */
  function LoopNext(s: State, g: nat, ok: bool): State
    requires g < |s.gens|
  {
    var x := s.gens[g];
    match x.loop
    case Unspawned => s
    case Waiting =>
      if ok then With(s, g, x.(loop := InTick(Entering)))
      else if x.cancelled || s.shutdown then With(s, g, x.(loop := Returning))
      else s
    case InTick(t) =>
      if t.Over? then With(s, g, x.(loop := Waiting))
      else
        var (held, published, u) := TickNext(x.tickHeld, s.published, t, ok);
        With(s, g, x.(tickHeld := held, loop := InTick(u))).(published := published)
    case Returning => With(s, g, x.(loop := Exited, closes := x.closes + 1))
    case Exited => s
  }

  function Step(s: State, a: Action): State
    requires s.gens != [] && s.current < |s.gens|
  {
    match a
    case MainStep(ok) => MainNext(s, ok)
    case ReloadStep(ok) => ReloadNext(s, ok)
    case LoopStep(g, ok) => if g < |s.gens| then LoopNext(s, g, ok) else s
    case Signal => s.(shutdown := true)
  }

  // ----- what every interleaving keeps --------------------------------------

  predicate Holds(t: Tick) { t.Gathering? || t.Loaded? || t.Leaving? }

  predicate Spawned(x: Generation) { !x.loop.Unspawned? }

  /** What a generation keeps by itself. */
  predicate Sound(x: Generation) {
    && (Spawned(x) ==> x.started)
    && x.closes == (if x.loop.Exited? || (x.once.Complete? && !x.started) then 1 else 0)
    && (x.once.Complete? ==> x.loop.Exited? || !x.started)
    && (x.cancelled ==> !x.once.Fresh?)
  }

  predicate StopSound(x: Generation, who: Actor, p: Stop) {
    match p
    case AtOnce => true
    case Entered => x.once == Running(who)
    case Cancelled => x.once == Running(who) && x.cancelled
    case Draining => x.once == Running(who) && x.cancelled && x.started
    case Closing => x.once == Running(who) && !x.started
    case Returned => x.once.Complete?
  }

  predicate Starting(s: State) {
    s.main.Priming? || s.main.PrimeTick? || s.main.MainStart? || s.main.MainSpawn? || s.main.Launch?
  }

  /** The reload has given up the old generation and not yet handed over the new one. */
  predicate Replacing(s: State) {
    s.reload.Importing? || s.reload.ReloadTick? || s.reload.ReloadStart? || s.reload.ReloadSpawn? || s.reload.Swap?
  }

  predicate ReloadHoldsMu(s: State) { s.reload.Checking? || s.reload.Wiring? || s.reload.StopOld? || Replacing(s) }

  predicate Shape(s: State) {
    && s.gens != []
    && s.current == (if Replacing(s) then |s.gens| - 2 else |s.gens| - 1)
    && (forall g :: 0 <= g < |s.gens| - 1 ==> Sound(s.gens[g]) && s.gens[g].once.Complete?)
    && Sound(Newest(s))
  }

  predicate Mutex(s: State) {
    && (s.mu == Some(ReloadActor) <==> ReloadHoldsMu(s))
    && (s.mu == Some(MainActor) <==> s.main.Stopping?)
  }

  predicate MainSound(s: State)
    requires Shape(s)
  {
    var x := Newest(s);
    && (Starting(s) ==> s.reload.Off? && |s.gens| == 1 && x.once.Fresh?)
    && (Starting(s) ==> (x.started <==> s.main.MainSpawn? || s.main.Launch?) && (Spawned(x) <==> s.main.Launch?))
    && (s.main.PrimeStop? ==> s.reload.Off? && |s.gens| == 1 && !x.started && StopSound(x, MainActor, s.main.stop))
    && (s.main.Stopping? ==> StopSound(x, MainActor, s.main.stop))
    && (s.main.HttpStop? ==> s.main.gen <= s.current && StopSound(s.gens[s.main.gen], MainActor, s.main.stop))
    && (s.reload.Off? ==> Starting(s) || s.main.PrimeStop? || s.main.Done?)
  }

  predicate ReloadSound(s: State)
    requires Shape(s)
  {
    var x := Newest(s);
    && (s.reload.StopOld? ==> StopSound(x, ReloadActor, s.reload.stop))
    && (Replacing(s) ==> x.once.Fresh? && (Spawned(x) <==> s.reload.Swap?))
    && (Replacing(s) ==> (x.started <==> s.reload.ReloadSpawn? || s.reload.Swap?))
    && (!s.reload.Off? && !Replacing(s) ==> Spawned(x))
  }

  predicate LoadedLast(t: Tick, published: seq<nat>) { t.Loaded? ==> t.prev == |published| }

  predicate Held(s: State)
    requires s.gens != []
  {
    || (Newest(s).loop.InTick? && Holds(Newest(s).loop.tick))
    || (s.reload.ReloadTick? && Holds(s.reload.tick))
    || (s.main.PrimeTick? && Holds(s.main.tick))
  }

  predicate Ticks(s: State)
    requires s.gens != []
  {
    var x := Newest(s);
    && (x.tickHeld <==> Held(s))
    && (x.loop.InTick? ==> LoadedLast(x.loop.tick, s.published))
    && (s.reload.ReloadTick? ==> LoadedLast(s.reload.tick, s.published))
    && (s.main.PrimeTick? ==> LoadedLast(s.main.tick, s.published))
  }

  predicate InStop(p: Stop) { !p.AtOnce? && !p.Returned? }

  /** Whoever has begun the newest generation's once is in the middle of it. */
  predicate Owned(s: State)
    requires s.gens != []
  {
    Newest(s).once.Running? ==>
      if Newest(s).once.actor.ReloadActor? then s.reload.StopOld? && InStop(s.reload.stop)
      else
        || ((s.main.PrimeStop? || s.main.Stopping?) && InStop(s.main.stop))
        || (s.main.HttpStop? && s.main.gen == |s.gens| - 1 && InStop(s.main.stop))
  }

  predicate Chained(published: seq<nat>) { forall i :: 0 <= i < |published| ==> published[i] == i }

  /** The newest generation is only stopped by the reload, or by main once it shuts down. */
  predicate Undisturbed(s: State)
    requires s.gens != []
  {
    && ((s.main.Serving? || s.main.Locking? || s.main.HttpFailed?) && !s.reload.StopOld? ==> Newest(s).once.Fresh?)
    && ((Newest(s).loop.Returning? || Newest(s).loop.Exited?) ==> Newest(s).cancelled || s.shutdown)
  }

  /** A first snapshot is there before the daemon serves. */
  predicate Primed(s: State) {
    && (s.main.PrimeTick? && (s.main.tick.Leaving? || s.main.tick.Over?) && s.main.tick.fine ==> s.published != [])
    && (!s.main.Priming? && !s.main.PrimeTick? && !s.main.PrimeStop? && !s.main.Done? ==> s.published != [])
  }

  predicate Places(s: State) { Shape(s) && Mutex(s) && MainSound(s) && ReloadSound(s) }

  predicate Snapshots(s: State)
    requires s.gens != []
  {
    Ticks(s) && Owned(s) && Chained(s.published) && Undisturbed(s) && Primed(s)
  }

  predicate Inv(s: State) { Places(s) && Snapshots(s) }

  // ----- one step keeps it --------------------------------------------------

  lemma {:induction false} StopKeeps(x: Generation, who: Actor, p: Stop)
    requires Sound(x) && StopSound(x, who, p)
    ensures var (y, q) := StopNext(x, who, p);
      && Sound(y) && StopSound(y, who, q)
      && y.loop == x.loop && y.started == x.started && y.tickHeld == x.tickHeld
      && (x.cancelled ==> y.cancelled) && (x.once.Complete? || y.once.Fresh? ==> y == x)
  {
  }

  /** Two stop calls on one generation do not disturb each other. */
  lemma {:induction false} OtherStopKeeps(x: Generation, who: Actor, p: Stop, other: Actor, q: Stop)
    requires Sound(x) && StopSound(x, who, p) && StopSound(x, other, q) && who != other
    ensures StopSound(StopNext(x, who, p).0, other, q)
  {
  }

  /** A tick whose lock is free at its start publishes only a snapshot built on the
      last one. */
  lemma {:induction false} TickKeeps(held: bool, published: seq<nat>, t: Tick, ok: bool)
    requires (held <==> Holds(t)) && LoadedLast(t, published) && Chained(published)
    ensures var (held', published', u) := TickNext(held, published, t, ok);
      && (held' <==> Holds(u)) && LoadedLast(u, published') && Chained(published')
      && (published != [] ==> published' != [])
      && ((u.Leaving? || u.Over?) && u.fine ==> (published' != [] || ((t.Leaving? || t.Over?) && t.fine)))
  {
  }

  lemma {:induction false} MainStopKeeps(s: State, ok: bool)
    requires Inv(s) && s.main.Stopping?
    ensures Inv(MainNext(s, ok))
  {
    StopKeeps(Newest(s), MainActor, s.main.stop);
  }

  lemma {:induction false} PrimeStopKeeps(s: State, ok: bool)
    requires Inv(s) && s.main.PrimeStop?
    ensures Inv(MainNext(s, ok))
  {
    StopKeeps(Newest(s), MainActor, s.main.stop);
  }

  lemma {:induction false} HttpStopKeeps(s: State, ok: bool)
    requires Inv(s) && s.main.HttpStop?
    ensures Inv(MainNext(s, ok))
  {
    if s.main.gen < |s.gens| - 1 { RetiredStopKeeps(s, ok); } else { NewestStopKeeps(s, ok); }
  }

  lemma {:induction false} RetiredStopKeeps(s: State, ok: bool)
    requires Inv(s) && s.main.HttpStop? && s.main.gen < |s.gens| - 1
    ensures Inv(MainNext(s, ok))
  {
    var x := s.gens[s.main.gen];
    assert x.once.Complete?;
    StopKeeps(x, MainActor, s.main.stop);
    assert s.gens[s.main.gen := x] == s.gens;
  }

  lemma {:induction false} NewestStopPlaces(s: State, ok: bool)
    requires Inv(s) && s.main.HttpStop? && s.main.gen == |s.gens| - 1
    ensures Places(MainNext(s, ok))
  {
    StopKeeps(Newest(s), MainActor, s.main.stop);
    if s.reload.StopOld? {
      OtherStopKeeps(Newest(s), MainActor, s.main.stop, ReloadActor, s.reload.stop);
    }
  }

  lemma {:induction false} NewestStopKeeps(s: State, ok: bool)
    requires Inv(s) && s.main.HttpStop? && s.main.gen == |s.gens| - 1
    ensures Inv(MainNext(s, ok))
  {
    NewestStopPlaces(s, ok);
    StopKeeps(Newest(s), MainActor, s.main.stop);
  }

  lemma {:induction false} PrimeTickKeeps(s: State, ok: bool)
    requires Inv(s) && s.main.PrimeTick?
    ensures Inv(MainNext(s, ok))
  {
    TickKeeps(Newest(s).tickHeld, s.published, s.main.tick, ok);
  }

  lemma {:induction false} MainKeeps(s: State, ok: bool)
    requires Inv(s)
    ensures Inv(MainNext(s, ok))
  {
    match s.main
    case PrimeTick(_) => PrimeTickKeeps(s, ok);
    case HttpStop(_, _) => HttpStopKeeps(s, ok);
    case PrimeStop(_) => PrimeStopKeeps(s, ok);
    case Stopping(_) => MainStopKeeps(s, ok);
    case _ => if Starting(s) { StartKeeps(s, ok); } else { MainMoveKeeps(s, ok); }
  }

  lemma {:induction false} StartKeeps(s: State, ok: bool)
    requires Inv(s) && Starting(s) && !s.main.PrimeTick?
    ensures Inv(MainNext(s, ok))
  {
  }

  lemma {:induction false} MainMoveKeeps(s: State, ok: bool)
    requires Inv(s) && !Starting(s) && !s.main.HttpStop? && !s.main.PrimeStop? && !s.main.Stopping?
    ensures Inv(MainNext(s, ok))
  {
    match s.main
    case Serving => ServingKeeps(s, ok);
    case Locking => LockingKeeps(s, ok);
    case HttpFailed => HttpFailedKeeps(s, ok);
    case Done =>
  }

  lemma {:induction false} ServingKeeps(s: State, ok: bool)
    requires Inv(s) && s.main.Serving?
    ensures Inv(MainNext(s, ok))
  {
  }

  lemma {:induction false} LockingKeeps(s: State, ok: bool)
    requires Inv(s) && s.main.Locking?
    ensures Inv(MainNext(s, ok))
  {
  }

  lemma {:induction false} HttpFailedKeeps(s: State, ok: bool)
    requires Inv(s) && s.main.HttpFailed?
    ensures Inv(MainNext(s, ok))
  {
  }

  lemma {:induction false} StopOldPlaces(s: State, ok: bool)
    requires Inv(s) && s.reload.StopOld? && !s.reload.stop.Returned?
    ensures Places(ReloadNext(s, ok))
  {
    StopKeeps(Newest(s), ReloadActor, s.reload.stop);
    if s.main.HttpStop? && s.main.gen == s.current {
      OtherStopKeeps(Newest(s), ReloadActor, s.reload.stop, MainActor, s.main.stop);
    }
  }

  lemma {:induction false} StopOldGoesOn(s: State, ok: bool)
    requires Inv(s) && s.reload.StopOld? && !s.reload.stop.Returned?
    ensures Inv(ReloadNext(s, ok))
  {
    StopOldPlaces(s, ok);
    StopKeeps(Newest(s), ReloadActor, s.reload.stop);
  }

  lemma {:induction false} StopOldEnds(s: State, ok: bool)
    requires Inv(s) && s.reload.StopOld? && s.reload.stop.Returned?
    ensures Inv(ReloadNext(s, ok))
  {
  }

  lemma {:induction false} StopOldKeeps(s: State, ok: bool)
    requires Inv(s) && s.reload.StopOld?
    ensures Inv(ReloadNext(s, ok))
  {
    if s.reload.stop.Returned? { StopOldEnds(s, ok); } else { StopOldGoesOn(s, ok); }
  }

  lemma {:induction false} ReloadTickPlaces(s: State, ok: bool)
    requires Inv(s) && s.reload.ReloadTick?
    ensures Places(ReloadNext(s, ok))
  {
  }

  lemma {:induction false} ReloadTickKeeps(s: State, ok: bool)
    requires Inv(s) && s.reload.ReloadTick?
    ensures Inv(ReloadNext(s, ok))
  {
    ReloadTickPlaces(s, ok);
    TickKeeps(Newest(s).tickHeld, s.published, s.reload.tick, ok);
  }

  lemma {:induction false} PreCommitKeeps(s: State, ok: bool)
    requires Inv(s) && (s.reload.Checking? || s.reload.Wiring?)
    ensures Inv(ReloadNext(s, ok))
  {
  }

  lemma {:induction false} WaitMuKeeps(s: State, ok: bool)
    requires Inv(s) && s.reload.WaitMu?
    ensures Inv(ReloadNext(s, ok))
  {
  }

  lemma {:induction false} LoadingKeeps(s: State, ok: bool)
    requires Inv(s) && s.reload.Loading?
    ensures Inv(ReloadNext(s, ok))
  {
  }

  lemma {:induction false} IdleKeeps(s: State, ok: bool)
    requires Inv(s) && s.reload.Idle?
    ensures Inv(ReloadNext(s, ok))
  {
  }

  lemma {:induction false} ReplacingKeeps(s: State, ok: bool)
    requires Inv(s) && Replacing(s) && !s.reload.ReloadTick?
    ensures Inv(ReloadNext(s, ok))
  {
  }

  lemma {:induction false} ReloadKeeps(s: State, ok: bool)
    requires Inv(s)
    ensures Inv(ReloadNext(s, ok))
  {
    if s.reload.StopOld? { StopOldKeeps(s, ok); }
    else if s.reload.ReloadTick? { ReloadTickKeeps(s, ok); }
    else if Replacing(s) { ReplacingKeeps(s, ok); }
    else if ReloadHoldsMu(s) { PreCommitKeeps(s, ok); }
    else if s.reload.WaitMu? { WaitMuKeeps(s, ok); }
    else if s.reload.Loading? { LoadingKeeps(s, ok); }
    else if s.reload.Idle? { IdleKeeps(s, ok); }
  }

  /** Only the newest generation's loop can still be running. */
  lemma {:induction false} OnlyNewestRuns(s: State, g: nat)
    requires Inv(s) && g < |s.gens| && (s.gens[g].loop.Waiting? || s.gens[g].loop.InTick? || s.gens[g].loop.Returning?)
    ensures g == |s.gens| - 1 && !s.main.PrimeTick? && !s.reload.ReloadTick?
  {
  }

  /** A loop's step is nobody else's business. */
  predicate SameButLoop(x: Generation, y: Generation) {
    y == x.(loop := y.loop, closes := y.closes, tickHeld := y.tickHeld) && (Spawned(x) <==> Spawned(y))
  }

  lemma {:induction false} NewestReplaced(s: State, y: Generation, published: seq<nat>)
    requires Places(s) && Sound(y) && SameButLoop(Newest(s), y)
    ensures Places(With(s, |s.gens| - 1, y).(published := published))
  {
  }

  lemma {:induction false} LoopSound(x: Generation, s: State, g: nat, ok: bool)
    requires g < |s.gens| && x == s.gens[g] && Sound(x)
    ensures var t := LoopNext(s, g, ok);
      && t == With(s, g, t.gens[g]).(published := t.published) && SameButLoop(x, t.gens[g]) && Sound(t.gens[g])
  {
  }

  lemma {:induction false} LoopPlaces(s: State, g: nat, ok: bool)
    requires Inv(s) && g == |s.gens| - 1
    ensures Places(LoopNext(s, g, ok))
  {
    LoopSound(Newest(s), s, g, ok);
    var t := LoopNext(s, g, ok);
    NewestReplaced(s, t.gens[g], t.published);
  }

  lemma {:induction false} LoopTickKeeps(s: State, g: nat, ok: bool)
    requires Inv(s) && g < |s.gens| && s.gens[g].loop.InTick? && !s.gens[g].loop.tick.Over?
    ensures Inv(LoopNext(s, g, ok))
  {
    OnlyNewestRuns(s, g);
    LoopPlaces(s, g, ok);
    TickKeeps(Newest(s).tickHeld, s.published, Newest(s).loop.tick, ok);
  }

  lemma {:induction false} LoopKeeps(s: State, g: nat, ok: bool)
    requires Inv(s) && g < |s.gens|
    ensures Inv(LoopNext(s, g, ok))
  {
    match s.gens[g].loop
    case InTick(t) => if t.Over? { LoopMoveKeeps(s, g, ok); } else { LoopTickKeeps(s, g, ok); }
    case Waiting => LoopMoveKeeps(s, g, ok);
    case Returning => LoopMoveKeeps(s, g, ok);
    case _ =>
  }

  lemma {:induction false} LoopMoveKeeps(s: State, g: nat, ok: bool)
    requires Inv(s) && g < |s.gens|
    requires || s.gens[g].loop.Waiting? || s.gens[g].loop.Returning?
             || (s.gens[g].loop.InTick? && s.gens[g].loop.tick.Over?)
    ensures Inv(LoopNext(s, g, ok))
  {
    OnlyNewestRuns(s, g);
    LoopPlaces(s, g, ok);
  }

  // ----- every interleaving -------------------------------------------------

  lemma {:induction false} StepKeeps(s: State, a: Action)
    requires Inv(s)
    ensures Inv(Step(s, a))
  {
    match a
    case MainStep(ok) => MainKeeps(s, ok);
    case ReloadStep(ok) => ReloadKeeps(s, ok);
    case LoopStep(g, ok) => if g < |s.gens| { LoopKeeps(s, g, ok); }
    case Signal =>
  }

  /** The state after a sequence of actions. */
  function Run(s: State, actions: seq<Action>): (t: State)
    requires Inv(s)
    ensures Inv(t)
  {
    if actions == [] then s
    else
      var n := |actions| - 1;
      var before := Run(s, actions[..n]);
      StepKeeps(before, actions[n]);
      Step(before, actions[n])
  }

  lemma {:induction false} RunOneMore(s: State, actions: seq<Action>, a: Action)
    requires Inv(s)
    ensures Run(s, actions + [a]) == Step(Run(s, actions), a)
  {
    assert (actions + [a])[..|actions|] == actions;
  }

  function After(actions: seq<Action>): (t: State)
    ensures Inv(t)
  {
    Run(INITIAL, actions)
  }

  datatype Worker = ByMain | ByReload | ByLoop(gen: nat)

  /** Who is writing source state or composing into the shared holder. */
  predicate Working(s: State, w: Worker) {
    match w
    case ByMain => s.main.Priming? || (s.main.PrimeTick? && !s.main.tick.Over?)
    case ByReload => s.reload.Importing? || (s.reload.ReloadTick? && !s.reload.tick.Over?)
    case ByLoop(g) => g < |s.gens| && s.gens[g].loop.InTick? && !s.gens[g].loop.tick.Over?
  }

  /** In every interleaving of ticks, reloads and shutdown at most one goroutine works. */
  lemma {:induction false} OneWorker(actions: seq<Action>, w: Worker, v: Worker)
    requires Working(After(actions), w) && Working(After(actions), v)
    ensures w == v
  {
    var s := After(actions);
    if w.ByLoop? { OnlyNewestRuns(s, w.gen); }
    if v.ByLoop? { OnlyNewestRuns(s, v.gen); }
  }

  /** A tick never finds its lock taken, so none is ever dropped. */
  lemma {:induction false} TicksAreNeverDropped(actions: seq<Action>, g: nat)
    requires var s := After(actions);
      || (s.main == PrimeTick(Entering) && g == 0)
      || (s.reload == ReloadTick(Entering) && g == |s.gens| - 1)
      || (g < |s.gens| && s.gens[g].loop == InTick(Entering))
    ensures g < |After(actions).gens| && !After(actions).gens[g].tickHeld
  {
    LockIsFree(After(actions), g);
  }

  lemma {:induction false} LockIsFree(s: State, g: nat)
    requires Inv(s)
    requires || (s.main == PrimeTick(Entering) && g == 0)
             || (s.reload == ReloadTick(Entering) && g == |s.gens| - 1)
             || (g < |s.gens| && s.gens[g].loop == InTick(Entering))
    ensures g < |s.gens| && !s.gens[g].tickHeld
  {
    if g < |s.gens| && s.gens[g].loop.InTick? { OnlyNewestRuns(s, g); }
  }

  /** loopDone is closed at most once, exactly once by the time a stop is over, and
      exactly once for every generation that has been replaced. */
  lemma {:induction false} ClosedExactlyOnce(actions: seq<Action>, g: nat)
    requires g < |After(actions).gens|
    ensures var s := After(actions);
      && s.gens[g].closes <= 1
      && (s.gens[g].once.Complete? || g < |s.gens| - 1 ==> s.gens[g].closes == 1)
      && (s.gens[g].once.Complete? ==> !s.gens[g].started || s.gens[g].loop.Exited?)
  {
    ClosedOnce(After(actions), g);
  }

  lemma {:induction false} ClosedOnce(s: State, g: nat)
    requires Inv(s) && g < |s.gens|
    ensures s.gens[g].closes <= 1
    ensures s.gens[g].once.Complete? || g < |s.gens| - 1 ==> s.gens[g].closes == 1
    ensures s.gens[g].once.Complete? ==> !s.gens[g].started || s.gens[g].loop.Exited?
  {
    if g < |s.gens| - 1 { assert Sound(s.gens[g]); } else { assert Sound(Newest(s)); }
  }

  /** The snapshots form a chain: each was composed against the one published just
      before it, across reloads too. */
  lemma {:induction false} SnapshotsFormAChain(actions: seq<Action>, i: nat)
    requires i < |After(actions).published|
    ensures After(actions).published[i] == i
  {
  }

  /** Once the daemon serves there is a snapshot to serve. */
  lemma {:induction false} ServesASnapshot(actions: seq<Action>)
    requires After(actions).main.Serving?
    ensures After(actions).published != []
  {
  }

  // ----- reloads that do not commit -----------------------------------------

  predicate Committed(s: State) { s.reload.StopOld? || Replacing(s) }

  /** No reload gets as far as stopping the current generation. */
  predicate NoneCommits(s: State, actions: seq<Action>)
    requires Inv(s)
  {
    forall k :: 0 <= k <= |actions| ==> !Committed(Run(s, actions[..k]))
  }

  /** The daemon as it would be had no reload been asked for. */
  function WithoutReload(s: State): State {
    s.(mu := if s.mu == Some(ReloadActor) then None else s.mu, reload := if s.reload.Off? then Off else Idle)
  }

  /** A step of the reload, or of main waiting for the mutex a reload has. */
  predicate Unseen(s: State, a: Action) {
    a.ReloadStep? || (a.MainStep? && s.main.Locking? && s.mu == Some(ReloadActor))
  }

  function Visible(s: State, actions: seq<Action>): (visible: seq<Action>)
    requires Inv(s)
    ensures NoReloads(visible) && |visible| <= |actions|
  {
    if actions == [] then []
    else
      var n := |actions| - 1;
      Visible(s, actions[..n]) + if Unseen(Run(s, actions[..n]), actions[n]) then [] else [actions[n]]
  }

  predicate NoReloads(actions: seq<Action>) { forall i :: 0 <= i < |actions| ==> !actions[i].ReloadStep? }

  lemma {:induction false} WithoutReloadIsSound(s: State)
    requires Inv(s) && !Committed(s)
    ensures Inv(WithoutReload(s))
  {
  }

  lemma {:induction false} UnseenStep(s: State, a: Action)
    requires Inv(s) && !Committed(s) && Unseen(s, a)
    ensures WithoutReload(Step(s, a)) == WithoutReload(s)
  {
  }

  lemma {:induction false} WithCommutes(s: State, g: nat, x: Generation)
    requires g < |s.gens|
    ensures With(WithoutReload(s), g, x) == WithoutReload(With(s, g, x))
  {
  }

  lemma {:induction false} SeenPrimeTick(s: State, ok: bool)
    requires s.gens != [] && s.current < |s.gens| && s.main.PrimeTick?
    ensures WithoutReload(MainNext(s, ok)) == MainNext(WithoutReload(s), ok)
  {
    if !s.main.tick.Over? {
      var (held, published, u) := TickNext(s.gens[0].tickHeld, s.published, s.main.tick, ok);
      WithCommutes(s, 0, s.gens[0].(tickHeld := held));
    }
  }

  lemma {:induction false} SeenPrimeStop(s: State, ok: bool)
    requires s.gens != [] && s.current < |s.gens| && s.main.PrimeStop?
    ensures WithoutReload(MainNext(s, ok)) == MainNext(WithoutReload(s), ok)
  {
    if !s.main.stop.Returned? { WithCommutes(s, 0, StopNext(s.gens[0], MainActor, s.main.stop).0); }
  }

  lemma {:induction false} SeenStopping(s: State, ok: bool)
    requires s.gens != [] && s.current < |s.gens| && s.main.Stopping?
    ensures WithoutReload(MainNext(s, ok)) == MainNext(WithoutReload(s), ok)
  {
    if !s.main.stop.Returned? { WithCommutes(s, s.current, StopNext(s.gens[s.current], MainActor, s.main.stop).0); }
  }

  lemma {:induction false} SeenHttpStop(s: State, ok: bool)
    requires s.gens != [] && s.current < |s.gens| && s.main.HttpStop?
    ensures WithoutReload(MainNext(s, ok)) == MainNext(WithoutReload(s), ok)
  {
    var g := s.main.gen;
    if !s.main.stop.Returned? && g < |s.gens| { WithCommutes(s, g, StopNext(s.gens[g], MainActor, s.main.stop).0); }
  }

  lemma {:induction false} SeenStart(s: State, ok: bool)
    requires s.gens != [] && s.current < |s.gens| && (s.main.MainStart? || s.main.MainSpawn?)
    ensures WithoutReload(MainNext(s, ok)) == MainNext(WithoutReload(s), ok)
  {
    WithCommutes(s, 0, s.gens[0].(started := true));
    WithCommutes(s, 0, s.gens[0].(loop := Waiting));
  }

  lemma {:induction false} SeenMainMove(s: State, ok: bool)
    requires s.gens != [] && s.current < |s.gens| && !Unseen(s, MainStep(ok))
    requires !s.main.PrimeTick? && !s.main.PrimeStop? && !s.main.Stopping? && !s.main.HttpStop?
    requires !s.main.MainStart? && !s.main.MainSpawn?
    ensures WithoutReload(MainNext(s, ok)) == MainNext(WithoutReload(s), ok)
  {
  }

  lemma {:induction false} SeenMainStep(s: State, ok: bool)
    requires s.gens != [] && s.current < |s.gens| && !Unseen(s, MainStep(ok))
    ensures WithoutReload(MainNext(s, ok)) == MainNext(WithoutReload(s), ok)
  {
    match s.main
    case PrimeTick(_) => SeenPrimeTick(s, ok);
    case PrimeStop(_) => SeenPrimeStop(s, ok);
    case Stopping(_) => SeenStopping(s, ok);
    case HttpStop(_, _) => SeenHttpStop(s, ok);
    case MainStart => SeenStart(s, ok);
    case MainSpawn => SeenStart(s, ok);
    case _ => SeenMainMove(s, ok);
  }

  lemma {:induction false} SeenLoopStep(s: State, g: nat, ok: bool)
    requires g < |s.gens|
    ensures WithoutReload(LoopNext(s, g, ok)) == LoopNext(WithoutReload(s), g, ok)
  {
    var x := s.gens[g];
    if x.loop.InTick? && !x.loop.tick.Over? {
      var (held, published, u) := TickNext(x.tickHeld, s.published, x.loop.tick, ok);
      WithCommutes(s, g, x.(tickHeld := held, loop := InTick(u)));
    } else {
      WithCommutes(s, g, x.(loop := InTick(Entering)));
      WithCommutes(s, g, x.(loop := Returning));
      WithCommutes(s, g, x.(loop := Waiting));
      WithCommutes(s, g, x.(loop := Exited, closes := x.closes + 1));
    }
  }

  lemma {:induction false} SeenStep(s: State, a: Action)
    requires Inv(s) && !Committed(s) && !Unseen(s, a)
    ensures Inv(WithoutReload(s)) && WithoutReload(Step(s, a)) == Step(WithoutReload(s), a)
  {
    WithoutReloadIsSound(s);
    match a
    case MainStep(ok) => SeenMainStep(s, ok);
    case LoopStep(g, ok) => if g < |s.gens| { SeenLoopStep(s, g, ok); }
    case Signal =>
  }

  lemma {:induction false} NoneCommitsBefore(s: State, actions: seq<Action>)
    requires Inv(s) && NoneCommits(s, actions) && actions != []
    ensures NoneCommits(s, actions[..|actions| - 1]) && !Committed(Run(s, actions[..|actions| - 1]))
  {
    var n := |actions| - 1;
    forall k | 0 <= k <= n ensures !Committed(Run(s, actions[..n][..k])) { assert actions[..n][..k] == actions[..k]; }
  }

  lemma {:induction false} InvisibleStep(s: State, r: State, visible: seq<Action>, a: Action)
    requires Inv(s) && !Committed(s) && Inv(r) && WithoutReload(s) == Run(r, visible)
    ensures WithoutReload(Step(s, a)) == Run(r, visible + if Unseen(s, a) then [] else [a])
  {
    if Unseen(s, a) {
      assert visible + [] == visible;
      UnseenStep(s, a);
    } else {
      SeenStep(s, a);
      RunOneMore(r, visible, a);
    }
  }

  lemma {:induction false} InvisibleRun(s: State, r: State, actions: seq<Action>)
    requires Inv(s) && NoneCommits(s, actions) && Inv(r) && r == WithoutReload(s)
    ensures WithoutReload(Run(s, actions)) == Run(r, Visible(s, actions))
  {
    if actions != [] {
      var n := |actions| - 1;
      NoneCommitsBefore(s, actions);
      InvisibleRun(s, r, actions[..n]);
      InvisibleStep(Run(s, actions[..n]), r, Visible(s, actions[..n]), actions[n]);
    }
  }

  /** Reloads that do not commit, however many and however far they get, leave no trace:
      the daemon goes through the same run without them. */
  lemma {:induction false} UncommittedReloadsAreInvisible(s: State, actions: seq<Action>)
    requires Inv(s) && NoneCommits(s, actions)
    ensures Inv(WithoutReload(s))
    ensures WithoutReload(Run(s, actions)) == Run(WithoutReload(s), Visible(s, actions))
  {
    assert !Committed(s) by { assert actions[..0] == [] && !Committed(Run(s, actions[..0])); }
    WithoutReloadIsSound(s);
    InvisibleRun(s, WithoutReload(s), actions);
  }

  /** Main has begun to stop a generation. */
  predicate Ending(s: State) { s.main.PrimeStop? || s.main.Stopping? || s.main.HttpStop? || s.main.Done? }

  /** What a daemon without reloads keeps: its one current generation, cancelled by
      nobody but main, and every snapshot. */
  predicate SameGeneration(s: State, t: State) {
    && |t.gens| == |s.gens| && t.current == s.current < |s.gens|
    && (t.gens[t.current].cancelled ==> s.gens[s.current].cancelled || Ending(t))
    && (Ending(s) ==> Ending(t)) && s.published <= t.published
  }

  lemma {:induction false} MainKeepsGeneration(s: State, ok: bool)
    requires Inv(s)
    ensures SameGeneration(s, MainNext(s, ok))
  {
    if s.main.PrimeTick? && !s.main.tick.Over? { TickExtends(s.gens[0].tickHeld, s.published, s.main.tick, ok); }
  }

  lemma {:induction false} TickExtends(held: bool, published: seq<nat>, t: Tick, ok: bool)
    ensures published <= TickNext(held, published, t, ok).1
  {
  }

  lemma {:induction false} LoopKeepsGeneration(s: State, g: nat, ok: bool)
    requires g < |s.gens| && s.current < |s.gens|
    ensures SameGeneration(s, LoopNext(s, g, ok))
  {
    var x := s.gens[g];
    if x.loop.InTick? && !x.loop.tick.Over? { TickExtends(x.tickHeld, s.published, x.loop.tick, ok); }
  }

  lemma {:induction false} StepKeepsGeneration(s: State, a: Action)
    requires Inv(s) && !a.ReloadStep?
    ensures SameGeneration(s, Step(s, a))
  {
    match a
    case MainStep(ok) => MainKeepsGeneration(s, ok);
    case LoopStep(g, ok) => if g < |s.gens| { LoopKeepsGeneration(s, g, ok); }
    case Signal =>
  }

  lemma {:induction false} SameGenerationChains(s: State, t: State, u: State)
    requires SameGeneration(s, t) && SameGeneration(t, u)
    ensures SameGeneration(s, u)
  {
  }

  lemma {:induction false} RunKeepsGeneration(s: State, actions: seq<Action>)
    requires Inv(s) && NoReloads(actions)
    ensures SameGeneration(s, Run(s, actions))
  {
    if actions != [] {
      var n := |actions| - 1;
      RunKeepsGeneration(s, actions[..n]);
      StepKeepsGeneration(Run(s, actions[..n]), actions[n]);
      SameGenerationChains(s, Run(s, actions[..n]), Run(s, actions));
    }
  }

  /** So a reload that fails keeps the prior generation: same generations, same current
      one, not cancelled unless main is stopping it, and no snapshot lost. */
  lemma {:induction false} FailedReloadsKeepGeneration(s: State, actions: seq<Action>)
    requires Inv(s) && NoneCommits(s, actions)
    ensures SameGeneration(s, Run(s, actions))
  {
    UncommittedReloadsAreInvisible(s, actions);
    RunKeepsGeneration(WithoutReload(s), Visible(s, actions));
  }

  /** Whatever reloads have failed before: while the daemon serves and none is being
      carried out, the current generation is the newest, and its loop is running. */
  lemma {:induction false} CurrentLoopIsAlive(actions: seq<Action>)
    requires var s := After(actions); s.main.Serving? && !s.shutdown && !s.reload.StopOld? && !Replacing(s)
    ensures var s := After(actions);
      && s.current == |s.gens| - 1
      && (s.gens[s.current].loop.Waiting? || s.gens[s.current].loop.InTick?)
      && !s.gens[s.current].cancelled
  {
  }

  /** When shutdown has stopped the current generation, under the mutex, nobody works. */
  lemma {:induction false} ShutdownDrains(actions: seq<Action>, w: Worker)
    requires After(actions).main == Stopping(Returned)
    ensures !Working(After(actions), w)
  {
    var s := After(actions);
    if w.ByLoop? && Working(s, w) { OnlyNewestRuns(s, w.gen); }
  }

  /** The exit on an HTTP failure stops without the mutex: only a reload that has
      replaced the generation it stopped can be left working. */
  lemma {:induction false} HttpExitMayLeaveAReload(actions: seq<Action>, w: Worker)
    requires var s := After(actions); s.main.HttpStop? && s.main.stop.Returned? && Working(s, w)
    ensures var s := After(actions); s.main.gen < |s.gens| - 1 && (w.ByReload? || w == ByLoop(|s.gens| - 1))
  {
    HttpExit(After(actions), w);
  }

  lemma {:induction false} HttpExit(s: State, w: Worker)
    requires Inv(s) && s.main.HttpStop? && s.main.stop.Returned? && Working(s, w)
    ensures s.main.gen < |s.gens| - 1 && (w.ByReload? || w == ByLoop(|s.gens| - 1))
  {
    if w.ByLoop? { OnlyNewestRuns(s, w.gen); }
  }

  lemma {:induction false} Then(before: seq<Action>, a: Action) returns (actions: seq<Action>)
    ensures After(actions) == Step(After(before), a)
  {
    actions := before + [a];
    RunOneMore(INITIAL, before, a);
  }

  lemma {:induction false} Reaches(before: seq<Action>, a: Action, t: State) returns (actions: seq<Action>)
    requires Step(After(before), a) == t
    ensures After(actions) == t
  {
    actions := Then(before, a);
  }

  /** The daemon up and serving its first snapshot. */
  const UP := State([Generation(true, false, 0, Fresh, Waiting, false)], 0, [0], None, false, Serving, Idle)

  lemma {:induction false} GetsPrimed() returns (actions: seq<Action>)
    ensures After(actions) == INITIAL.(published := [0], main := MainStart)
  {
    actions := StartsGathering();
    var s := INITIAL.(gens := [NEW_GENERATION.(tickHeld := true)]);
    actions := Reaches(actions, MainStep(true), s.(main := PrimeTick(Loaded(0))));
    actions := Reaches(actions, MainStep(true), s.(published := [0], main := PrimeTick(Leaving(true))));
    actions := Reaches(actions, MainStep(true), INITIAL.(published := [0], main := PrimeTick(Over(true))));
    actions := Reaches(actions, MainStep(true), INITIAL.(published := [0], main := MainStart));
  }

  lemma {:induction false} StartsGathering() returns (actions: seq<Action>)
    ensures After(actions) == INITIAL.(gens := [NEW_GENERATION.(tickHeld := true)], main := PrimeTick(Gathering))
  {
    actions := Reaches([], MainStep(true), INITIAL.(main := PrimeTick(Entering)));
    actions := Reaches(actions, MainStep(true),
                       INITIAL.(gens := [NEW_GENERATION.(tickHeld := true)], main := PrimeTick(Gathering)));
  }

  lemma {:induction false} ComesUp() returns (actions: seq<Action>)
    ensures After(actions) == UP
  {
    actions := GetsPrimed();
    var s := INITIAL.(published := [0]);
    var x := NEW_GENERATION.(started := true);
    actions := Reaches(actions, MainStep(true), s.(gens := [x], main := MainSpawn));
    actions := Reaches(actions, MainStep(true), s.(gens := [x.(loop := Waiting)], main := Launch));
    actions := Reaches(actions, MainStep(true), UP);
  }

  /** A reload about to stop the generation ... */
  lemma {:induction false} ReloadCommits() returns (actions: seq<Action>)
    ensures After(actions) == UP.(mu := Some(ReloadActor), reload := StopOld(AtOnce))
  {
    actions := ComesUp();
    actions := Reaches(actions, ReloadStep(true), UP.(reload := Loading));
    actions := Reaches(actions, ReloadStep(true), UP.(reload := WaitMu));
    actions := Reaches(actions, ReloadStep(true), UP.(mu := Some(ReloadActor), reload := Checking));
    actions := Reaches(actions, ReloadStep(true), UP.(mu := Some(ReloadActor), reload := Wiring));
    actions := Reaches(actions, ReloadStep(true), UP.(mu := Some(ReloadActor), reload := StopOld(AtOnce)));
  }

  /** ... waiting for its loop ... */
  lemma {:induction false} ReloadWaits() returns (actions: seq<Action>)
    ensures After(actions) == UP.(gens := [Generation(true, true, 0, Running(ReloadActor), Waiting, false)],
                                  mu := Some(ReloadActor), reload := StopOld(Draining))
  {
    actions := ReloadCommits();
    var s := UP.(mu := Some(ReloadActor));
    var x := Generation(true, false, 0, Running(ReloadActor), Waiting, false);
    actions := Reaches(actions, ReloadStep(true), s.(gens := [x], reload := StopOld(Entered)));
    actions := Reaches(actions, ReloadStep(true), s.(gens := [x.(cancelled := true)], reload := StopOld(Cancelled)));
    actions := Reaches(actions, ReloadStep(true), s.(gens := [x.(cancelled := true)], reload := StopOld(Draining)));
  }

  /** ... and about to import with the next one. */
  lemma {:induction false} ReloadReplaces() returns (actions: seq<Action>)
    ensures After(actions) == UP.(gens := [Generation(true, true, 1, Complete, Exited, false), NEW_GENERATION],
                                  mu := Some(ReloadActor), reload := Importing)
  {
    actions := ReloadWaits();
    var s := UP.(mu := Some(ReloadActor), reload := StopOld(Draining));
    var x := Generation(true, true, 0, Running(ReloadActor), Returning, false);
    actions := Reaches(actions, LoopStep(0, false), s.(gens := [x]));
    actions := Reaches(actions, LoopStep(0, false), s.(gens := [x.(loop := Exited, closes := 1)]));
    actions := OldStopped(actions);
  }

  lemma {:induction false} OldStopped(before: seq<Action>) returns (actions: seq<Action>)
    requires After(before) == UP.(gens := [Generation(true, true, 1, Running(ReloadActor), Exited, false)],
                                  mu := Some(ReloadActor), reload := StopOld(Draining))
    ensures After(actions) == UP.(gens := [Generation(true, true, 1, Complete, Exited, false), NEW_GENERATION],
                                  mu := Some(ReloadActor), reload := Importing)
  {
    var s := UP.(gens := [Generation(true, true, 1, Complete, Exited, false)], mu := Some(ReloadActor));
    actions := Reaches(before, ReloadStep(true), s.(reload := StopOld(Returned)));
    actions := Reaches(actions, ReloadStep(true), s.(gens := s.gens + [NEW_GENERATION], reload := Importing));
  }

  /** And it does happen: the exit's stop has returned while a reload is importing. */
  lemma {:induction false} HttpExitLeavesAReload() returns (actions: seq<Action>)
    ensures After(actions).main == HttpStop(0, Returned) && Working(After(actions), ByReload)
  {
    actions := ReloadReplaces();
    var s := After(actions).(shutdown := true);
    actions := Reaches(actions, MainStep(false), s.(main := HttpFailed));
    actions := Reaches(actions, MainStep(true), s.(main := HttpStop(0, AtOnce)));
    actions := Reaches(actions, MainStep(true), s.(main := HttpStop(0, Returned)));
  }

  // ----- no deadlock --------------------------------------------------------

  function TickRank(t: Tick): nat {
    match t case Entering => 4 case Gathering => 3 case Loaded(_) => 2 case Leaving(_) => 1 case Over(_) => 0
  }

  function StopRank(p: Stop): nat {
    match p
    case AtOnce => 5
    case Entered => 4
    case Cancelled => 3
    case Draining => 2
    case Closing => 2
    case Returned => 1
  }

  function MainRank(pc: MainPc): nat {
    match pc
    case Priming => 18
    case PrimeTick(t) => 13 + TickRank(t)
    case MainStart => 12
    case MainSpawn => 11
    case Launch => 10
    case Serving => 9
    case Locking => 8
    case HttpFailed => 8
    case PrimeStop(p) => 1 + StopRank(p)
    case Stopping(p) => 1 + StopRank(p)
    case HttpStop(_, p) => 1 + StopRank(p)
    case Done => 0
  }

  function ReloadRank(pc: ReloadPc): nat {
    match pc
    case Loading => 21
    case WaitMu => 20
    case Checking => 19
    case Wiring => 18
    case StopOld(p) => 12 + StopRank(p)
    case Importing => 11
    case ReloadTick(t) => 6 + TickRank(t)
    case ReloadStart => 5
    case ReloadSpawn => 4
    case Swap => 3
    case Idle => 1
    case _ => 0
  }

  function LoopRank(loop: Loop): nat {
    match loop
    case InTick(t) => 3 + TickRank(t)
    case Waiting => 2
    case Returning => 1
    case _ => 0
  }

  /** A state from which the measure below goes down. */
  predicate Nearer(s: State, t: State)
    requires s.gens != [] && t.gens != []
  {
    || MainRank(t.main) < MainRank(s.main)
    || (t.main == s.main && ReloadRank(t.reload) < ReloadRank(s.reload))
    || (t.main == s.main && t.reload == s.reload && |t.gens| == |s.gens|
       && LoopRank(Newest(t).loop) < LoopRank(Newest(s).loop))
  }

  /** Some action brings the main goroutine nearer to its end, with main's and the
      reload's own work succeeding all the way or failing all the way. */
  lemma {:induction false} SomeActionHelps(s: State, ok: bool) returns (a: Action)
    requires Inv(s) && !s.main.Done? && (ok ==> s.shutdown)
    ensures Step(s, a).gens != [] && Nearer(s, Step(s, a))
    ensures (a.MainStep? || a.ReloadStep?) ==> a.ok == ok
    ensures s.shutdown ==> Step(s, a).shutdown
  {
    StepKeeps(s, MainStep(ok));
    if MainNext(s, ok).main != s.main {
      MainMoves(s, ok);
      return MainStep(ok);
    }
    if ReloadHoldsMu(s) && ReloadNext(s, ok).reload != s.reload {
      ReloadMoves(s, ok);
      StepKeeps(s, ReloadStep(ok));
      return ReloadStep(ok);
    }
    DrainingLoopMoves(s, ok);
    LoopMoves(s);
    return LoopStep(|s.gens| - 1, false);
  }

  lemma {:induction false} LoopMoves(s: State)
    requires Shape(s) && Newest(s).cancelled
    requires Newest(s).loop.Waiting? || Newest(s).loop.InTick? || Newest(s).loop.Returning?
    ensures var t := LoopNext(s, |s.gens| - 1, false);
      && t.main == s.main && t.reload == s.reload && |t.gens| == |s.gens| && t.shutdown == s.shutdown
      && LoopRank(Newest(t).loop) < LoopRank(Newest(s).loop)
  {
  }

  lemma {:induction false} MainMoves(s: State, ok: bool)
    requires Shape(s) && MainNext(s, ok).main != s.main
    ensures MainRank(MainNext(s, ok).main) < MainRank(s.main) && (s.shutdown ==> MainNext(s, ok).shutdown)
  {
  }

  lemma {:induction false} ReloadMoves(s: State, ok: bool)
    requires Shape(s) && ReloadHoldsMu(s) && ReloadNext(s, ok).reload != s.reload
    ensures ReloadRank(ReloadNext(s, ok).reload) < ReloadRank(s.reload)
    ensures ReloadNext(s, ok).main == s.main && ReloadNext(s, ok).shutdown == s.shutdown
  {
  }

  /** A stop that waits for the newest generation waits for a loop that was told to end. */
  lemma {:induction false} DrainingLoop(s: State, who: Actor)
    requires Inv(s) && StopSound(Newest(s), who, Draining) && Newest(s).closes == 0
    requires !s.reload.Off? && !Replacing(s)
    ensures var x := Newest(s); x.cancelled && (x.loop.Waiting? || x.loop.InTick? || x.loop.Returning?)
  {
  }

  lemma {:induction false} BlockedReload(s: State, ok: bool)
    requires Inv(s) && ReloadHoldsMu(s) && ReloadNext(s, ok).reload == s.reload
    requires !(s.main.HttpStop? && InStop(s.main.stop))
    ensures var x := Newest(s); x.cancelled && (x.loop.Waiting? || x.loop.InTick? || x.loop.Returning?)
  {
    assert s.reload.StopOld?;
    assert s.reload.stop.Draining? && Newest(s).closes == 0;
    DrainingLoop(s, ReloadActor);
  }

  lemma {:induction false} BlockedMain(s: State, g: nat)
    requires Inv(s) && g <= s.current && s.main.HttpStop? && g == s.main.gen
    requires s.main.stop.Draining? && s.gens[g].closes == 0
    ensures var x := Newest(s); x.cancelled && (x.loop.Waiting? || x.loop.InTick? || x.loop.Returning?)
  {
    assert g == |s.gens| - 1;
    DrainingLoop(s, MainActor);
  }

  /** When main is blocked, and not by a reload that can move, it waits for a loop that
      has been told to end. */
  lemma {:induction false} DrainingLoopMoves(s: State, ok: bool)
    requires Inv(s) && !s.main.Done? && (ok ==> s.shutdown) && MainNext(s, ok).main == s.main
    requires ReloadHoldsMu(s) ==> ReloadNext(s, ok).reload == s.reload
    ensures var x := Newest(s); x.cancelled && (x.loop.Waiting? || x.loop.InTick? || x.loop.Returning?)
  {
    if s.main.HttpStop? && s.main.stop.Draining? {
      BlockedMain(s, s.main.gen);
    } else if s.main.Stopping? {
      assert s.main.stop.Draining?;
      DrainingLoop(s, MainActor);
    } else {
      assert s.main.Locking? || s.main.HttpStop?;
      if s.main.Locking? { assert !s.mu.value.MainActor?; }
      if s.main.HttpStop? { assert s.main.gen == |s.gens| - 1 && Newest(s).once == Running(ReloadActor); }
      BlockedReload(s, ok);
    }
  }

  /** Main's and the reload's steps all end alike. */
  predicate Uniform(actions: seq<Action>, ok: bool) {
    forall i :: 0 <= i < |actions| && (actions[i].MainStep? || actions[i].ReloadStep?) ==> actions[i].ok == ok
  }

  lemma {:induction false} MainFinishesAfter(s: State, before: seq<Action>, ok: bool) returns (actions: seq<Action>)
    requires Inv(s) && (ok ==> Run(s, before).shutdown) && Uniform(before, ok)
    ensures Run(s, actions).main.Done? && Uniform(actions, ok)
    decreases MainRank(Run(s, before).main), ReloadRank(Run(s, before).reload), LoopRank(Newest(Run(s, before)).loop)
  {
    if Run(s, before).main.Done? { return before; }
    var a := SomeActionHelps(Run(s, before), ok);
    RunOneMore(s, before, a);
    actions := MainFinishesAfter(s, before + [a], ok);
  }

  /** No deadlock: from every reachable state some schedule brings the main goroutine to
      its end, whatever the reload and the loops were doing. After a signal it does so
      with no failure of its own (ok), through the graceful shutdown; and without one,
      with every step failing. */
  lemma {:induction false} MainCanFinish(s: State, ok: bool) returns (actions: seq<Action>)
    requires Inv(s) && (ok ==> s.shutdown)
    ensures Run(s, actions).main.Done? && Uniform(actions, ok)
  {
    actions := MainFinishesAfter(s, [], ok);
  }

  // ----- every fair schedule ------------------------------------------------

  /** How much is left to do after a signal. */
  function Left(s: State): nat
    requires s.gens != []
  {
    256 * MainRank(s.main) + 8 * ReloadRank(s.reload) + LoopRank(Newest(s).loop)
  }

  /** Winding down: no new reload is asked for, and no timer beats a cancellation. */
  predicate WindsDown(s: State, a: Action) {
    && !(a.ReloadStep? && a.ok && s.reload.Idle?)
    && !(a.LoopStep? && a.ok && a.gen < |s.gens| && s.gens[a.gen].loop.Waiting?)
  }

  lemma {:induction false} RanksAreSmall(s: State)
    requires s.gens != []
    ensures ReloadRank(s.reload) <= 21 && LoopRank(Newest(s).loop) <= 7
  {
  }

  lemma {:induction false} LexLess(m: nat, r: nat, l: nat, m': nat, r': nat, l': nat)
    requires r <= 21 && l <= 7 && r' <= 21 && l' <= 7
    requires m' < m || (m' == m && (r' < r || (r' == r && l' < l)))
    ensures 256 * m' + 8 * r' + l' < 256 * m + 8 * r + l
  {
  }

  lemma {:induction false} LowerLeft(s: State, t: State)
    requires s.gens != [] && t.gens != [] && Nearer(s, t)
    ensures Left(t) < Left(s)
  {
    RanksAreSmall(s);
    RanksAreSmall(t);
    LexLess(MainRank(s.main), ReloadRank(s.reload), LoopRank(Newest(s).loop),
            MainRank(t.main), ReloadRank(t.reload), LoopRank(Newest(t).loop));
  }

  lemma {:induction false} MainStandsOrMoves(s: State, ok: bool)
    requires Inv(s) && s.shutdown
    ensures var t := MainNext(s, ok); t == s || (t.gens != [] && MainRank(t.main) < MainRank(s.main))
  {
    if MainNext(s, ok).main != s.main { MainMoves(s, ok); } else { MainStands(s, ok); }
  }

  lemma {:induction false} MainStands(s: State, ok: bool)
    requires Inv(s) && s.shutdown && MainNext(s, ok).main == s.main
    ensures MainNext(s, ok) == s
  {
    if s.main.Stopping? { SameGens(s, s.current); }
    if s.main.HttpStop? && s.main.gen < |s.gens| { SameGens(s, s.main.gen); }
    if s.main.PrimeStop? { SameGens(s, 0); }
  }

  lemma {:induction false} SameGens(s: State, g: nat)
    requires g < |s.gens|
    ensures s.gens[g := s.gens[g]] == s.gens
  {
  }

  lemma {:induction false} ReloadStandsOrMoves(s: State, ok: bool)
    requires Inv(s) && s.shutdown && !(ok && s.reload.Idle?)
    ensures var t := ReloadNext(s, ok);
      t == s || (t.gens != [] && t.main == s.main && ReloadRank(t.reload) < ReloadRank(s.reload))
  {
    if s.reload.StopOld? { SameGens(s, s.current); }
  }

  lemma {:induction false} LoopStandsOrMoves(s: State, g: nat, ok: bool)
    requires Inv(s) && s.shutdown && g < |s.gens| && !(ok && s.gens[g].loop.Waiting?)
    ensures var t := LoopNext(s, g, ok); t == s || (t.gens != [] && Nearer(s, t))
  {
    if s.gens[g].loop.Waiting? || s.gens[g].loop.InTick? || s.gens[g].loop.Returning? {
      OnlyNewestRuns(s, g);
      NewestLoopMoves(s, ok);
    }
  }

  lemma {:induction false} NewestLoopMoves(s: State, ok: bool)
    requires Shape(s) && (Newest(s).cancelled || s.shutdown) && !(ok && Newest(s).loop.Waiting?)
    requires Newest(s).loop.Waiting? || Newest(s).loop.InTick? || Newest(s).loop.Returning?
    ensures var t := LoopNext(s, |s.gens| - 1, ok);
      && t.main == s.main && t.reload == s.reload && |t.gens| == |s.gens|
      && LoopRank(Newest(t).loop) < LoopRank(Newest(s).loop)
  {
  }

  /** After a signal every step leaves all as it is, or brings the end nearer. */
  lemma {:induction false} StandsOrLowers(s: State, a: Action)
    requires Inv(s) && s.shutdown && WindsDown(s, a)
    ensures Step(s, a).shutdown && Step(s, a).gens != []
    ensures Step(s, a) == s || Left(Step(s, a)) < Left(s)
  {
    StepKeeps(s, a);
    StaysShutDown(s, a);
    match a {
      case MainStep(ok) => MainLowers(s, ok);
      case ReloadStep(ok) => ReloadLowers(s, ok);
      case LoopStep(g, ok) => if g < |s.gens| { LoopLowers(s, g, ok); }
      case Signal =>
    }
  }

  lemma {:induction false} MainLowers(s: State, ok: bool)
    requires Inv(s) && s.shutdown
    ensures var t := MainNext(s, ok); t == s || (t.gens != [] && Left(t) < Left(s))
  {
    MainStandsOrMoves(s, ok);
    if MainNext(s, ok) != s { LowerLeft(s, MainNext(s, ok)); }
  }

  lemma {:induction false} ReloadLowers(s: State, ok: bool)
    requires Inv(s) && s.shutdown && !(ok && s.reload.Idle?)
    ensures var t := ReloadNext(s, ok); t == s || (t.gens != [] && Left(t) < Left(s))
  {
    ReloadStandsOrMoves(s, ok);
    if ReloadNext(s, ok) != s { LowerLeft(s, ReloadNext(s, ok)); }
  }

  lemma {:induction false} LoopLowers(s: State, g: nat, ok: bool)
    requires Inv(s) && s.shutdown && g < |s.gens| && !(ok && s.gens[g].loop.Waiting?)
    ensures var t := LoopNext(s, g, ok); t == s || (t.gens != [] && Left(t) < Left(s))
  {
    LoopStandsOrMoves(s, g, ok);
    if LoopNext(s, g, ok) != s { LowerLeft(s, LoopNext(s, g, ok)); }
  }

  lemma {:induction false} StaysShutDown(s: State, a: Action)
    requires Inv(s) && s.shutdown
    ensures Step(s, a).shutdown
  {
  }

  datatype Turn = MainTurn | ReloadTurn | LoopTurn(gen: nat)

  function TurnOf(a: Action): Option<Turn> {
    match a
    case MainStep(_) => Some(MainTurn)
    case ReloadStep(_) => Some(ReloadTurn)
    case LoopStep(g, _) => Some(LoopTurn(g))
    case Signal => None
  }

  /** Whatever comes of a step of that turn, it changes something. */
  ghost predicate CanMove(s: State, turn: Turn)
    requires Inv(s)
  {
    forall a :: TurnOf(a) == Some(turn) && WindsDown(s, a) ==> Step(s, a) != s
  }

  /** Until main has ended somebody can move. */
  lemma {:induction false} SomebodyMoves(s: State) returns (turn: Turn)
    requires Inv(s) && s.shutdown && !s.main.Done?
    ensures turn in {MainTurn, ReloadTurn, LoopTurn(|s.gens| - 1)} && CanMove(s, turn)
  {
    if MainNext(s, true).main != s.main {
      turn := MainTurn;
      MainMovesEitherWay(s);
    } else if ReloadHoldsMu(s) && ReloadNext(s, true).reload != s.reload {
      turn := ReloadTurn;
      ReloadMovesEitherWay(s);
    } else {
      turn := LoopTurn(|s.gens| - 1);
      DrainingLoopMoves(s, true);
      LoopMovesEitherWay(s);
    }
  }

  lemma {:induction false} LoopMovesEitherWay(s: State)
    requires Inv(s) && Newest(s).cancelled
    requires Newest(s).loop.Waiting? || Newest(s).loop.InTick? || Newest(s).loop.Returning?
    ensures CanMove(s, LoopTurn(|s.gens| - 1))
  {
    NewestLoopMoves(s, false);
    if !Newest(s).loop.Waiting? { NewestLoopMoves(s, true); }
  }

  lemma {:induction false} MainMovesEitherWay(s: State)
    requires Inv(s) && s.shutdown && MainNext(s, true).main != s.main
    ensures MainNext(s, true) != s && MainNext(s, false) != s
  {
  }

  lemma {:induction false} ReloadMovesEitherWay(s: State)
    requires Inv(s) && ReloadHoldsMu(s) && ReloadNext(s, true).reload != s.reload
    ensures ReloadNext(s, true) != s && ReloadNext(s, false) != s
  {
  }

  predicate AllWindDown(s: State, actions: seq<Action>)
    requires Inv(s)
  {
    if actions == [] then true
    else
      var n := |actions| - 1;
      AllWindDown(s, actions[..n]) && WindsDown(Run(s, actions[..n]), actions[n])
  }

  /** A stretch of a run in which everybody gets a turn: main, the reload, and the loop that
      is the newest at its start. */
  predicate Round(s: State, actions: seq<Action>)
    requires Inv(s)
  {
    && AllWindDown(s, actions)
    && HasTurn(actions, MainTurn) && HasTurn(actions, ReloadTurn) && HasTurn(actions, LoopTurn(|s.gens| - 1))
  }

  predicate HasTurn(actions: seq<Action>, turn: Turn) {
    exists i :: 0 <= i < |actions| && TurnOf(actions[i]) == Some(turn)
  }

  lemma {:induction false} OneStepOn(s: State, t: State, a: Action, turn: Turn)
    requires Inv(s) && Inv(t) && t.shutdown && WindsDown(t, a) && CanMove(s, turn)
    requires Left(t) < Left(s) || t == s
    ensures var u := Step(t, a);
      u.shutdown && u.gens != [] && (Left(u) < Left(s) || (u == s && t == s && TurnOf(a) != Some(turn)))
  {
    StandsOrLowers(t, a);
  }

  lemma {:induction false} NothingYetOrLess(s: State, actions: seq<Action>, turn: Turn)
    requires Inv(s) && s.shutdown && AllWindDown(s, actions) && CanMove(s, turn)
    ensures Run(s, actions).shutdown
    ensures Left(Run(s, actions)) < Left(s) || (Run(s, actions) == s && !HasTurn(actions, turn))
  {
    if actions != [] {
      var n := |actions| - 1;
      NothingYetOrLess(s, actions[..n], turn);
      OneStepOn(s, Run(s, actions[..n]), actions[n], turn);
      TurnSnoc(actions, turn);
    }
  }

  lemma {:induction false} TurnSnoc(actions: seq<Action>, turn: Turn)
    requires actions != []
    ensures var n := |actions| - 1;
      HasTurn(actions, turn) <==> HasTurn(actions[..n], turn) || TurnOf(actions[n]) == Some(turn)
  {
    var n := |actions| - 1;
    assert forall i :: 0 <= i < n ==> actions[..n][i] == actions[i];
  }

  /** A round brings the end nearer. */
  lemma {:induction false} RoundLowers(s: State, actions: seq<Action>)
    requires Inv(s) && s.shutdown && !s.main.Done? && Round(s, actions)
    ensures Run(s, actions).shutdown && Left(Run(s, actions)) < Left(s)
  {
    var turn := SomebodyMoves(s);
    NothingYetOrLess(s, actions, turn);
  }

  lemma {:induction false} DoneStays(s: State, actions: seq<Action>)
    requires Inv(s) && s.main.Done?
    ensures Run(s, actions).main.Done?
  {
    if actions != [] {
      DoneStays(s, actions[..|actions| - 1]);
      DoneStep(Run(s, actions[..|actions| - 1]), actions[|actions| - 1]);
    }
  }

  lemma {:induction false} DoneStep(s: State, a: Action)
    requires Inv(s) && s.main.Done?
    ensures Step(s, a).main.Done?
  {
  }

  /** The state after some rounds. */
  function RunRounds(s: State, rounds: seq<seq<Action>>): (t: State)
    requires Inv(s)
    ensures Inv(t)
  {
    if rounds == [] then s else Run(RunRounds(s, rounds[..|rounds| - 1]), rounds[|rounds| - 1])
  }

  predicate AllRounds(s: State, rounds: seq<seq<Action>>)
    requires Inv(s)
  {
    if rounds == [] then true
    else
      var n := |rounds| - 1;
      AllRounds(s, rounds[..n]) && Round(RunRounds(s, rounds[..n]), rounds[n])
  }

  lemma {:induction false} RoundsLower(s: State, rounds: seq<seq<Action>>)
    requires Inv(s) && s.shutdown && AllRounds(s, rounds)
    ensures var t := RunRounds(s, rounds); t.main.Done? || (t.shutdown && Left(t) + |rounds| <= Left(s))
  {
    if rounds != [] {
      var n := |rounds| - 1;
      RoundsLower(s, rounds[..n]);
      OneRoundOn(RunRounds(s, rounds[..n]), rounds[n]);
    }
  }

  lemma {:induction false} OneRoundOn(t: State, actions: seq<Action>)
    requires Inv(t) && (t.main.Done? || t.shutdown) && Round(t, actions)
    ensures var u := Run(t, actions); u.main.Done? || (!t.main.Done? && u.shutdown && Left(u) < Left(t))
  {
    if t.main.Done? { DoneStays(t, actions); } else { RoundLowers(t, actions); }
  }

  /** After a signal every fair schedule ends the main goroutine, within as many rounds as
      there is left to do, whatever succeeds and whatever fails. */
  lemma {:induction false} FairRunsEnd(s: State, rounds: seq<seq<Action>>)
    requires Inv(s) && s.shutdown && AllRounds(s, rounds) && |rounds| > Left(s)
    ensures RunRounds(s, rounds).main.Done?
  {
    RoundsLower(s, rounds);
  }
}
