/** The per-package summaries and the exit status of runReconcile. */
module Accounting {
  import opened Text
  import opened Policy
  import opened Version
  import opened Reconcile
  import opened History

  function One(b: bool): nat { if b then 1 else 0 }

  function CountCells(cells: seq<Cell>, name: string): nat {
    if cells == [] then 0
    else CountCells(cells[..|cells| - 1], name) + One(cells[|cells| - 1].name == name)
  }

  /** Artifacts of one call that came back neither failed nor with a path. */
  function CountDropped(cells: seq<Cell>, revision: nat, env: Env, name: string): nat {
    if cells == [] then 0
    else
      var last := cells[|cells| - 1];
      CountDropped(cells[..|cells| - 1], revision, env, name) +
      One(last.name == name && env.outcome(revision, last) == NoPath)
  }

  function Finished(m: Summaries, name: string): nat
    requires name in m
  {
    m[name].built + m[name].failed
  }

  /** Only Built and Failed of name may have changed. */
  predicate SameSeed(m: Summaries, m': Summaries, name: string) {
    name in m && name in m' && m'[name].total == m[name].total && m'[name].skipped == m[name].skipped
  }

  lemma {:induction false} CollectCounts(m: Summaries, cells: seq<Cell>, revision: nat, env: Env, name: string)
    requires name in m
    ensures var m' := CollectTicks(m, cells, revision, env);
      SameSeed(m, m', name) &&
      Finished(m', name) + CountCells(BuiltCells(cells, revision, env), name)
        + CountDropped(cells, revision, env, name) == Finished(m, name) + CountCells(cells, name)
  {
    if cells != [] {
      var n := |cells| - 1;
      CollectCounts(m, cells[..n], revision, env, name);
      var built := BuiltCells(cells[..n], revision, env);
      assert (built + [cells[n]])[..|built|] == built;
      assert built + [] == built;
    }
  }

  lemma {:induction false} ImportCounts(m: Summaries, built: seq<Cell>, revision: nat, env: Env, name: string)
    requires name in m
    ensures var m' := ImportTicks(m, built, revision, env);
      SameSeed(m, m', name) && Finished(m', name) == Finished(m, name) + CountCells(built, name)
  {
    if built != [] { ImportCounts(m, built[..|built| - 1], revision, env, name); }
  }

  /** Sums over the calls of a run. */
  function CallsCells(calls: seq<Call>, name: string): nat {
    if calls == [] then 0
    else CallsCells(calls[..|calls| - 1], name) + CountCells(calls[|calls| - 1].cells, name)
  }

  function CallsDropped(calls: seq<Call>, env: Env, name: string): nat {
    if calls == [] then 0
    else
      var last := calls[|calls| - 1];
      CallsDropped(calls[..|calls| - 1], env, name) + CountDropped(last.cells, last.revision, env, name)
  }

  lemma {:induction false} RunCounts(revs: seq<nat>, slots: seq<Slot>, ds: seq<Decision>, env: Env, name: string)
    requires name in Summarize(ds) && !RunGroups(revs, slots, ds, env).aborted
    ensures var work := RunGroups(revs, slots, ds, env);
      SameSeed(Summarize(ds), work.summaries, name) &&
      Finished(work.summaries, name) + CallsDropped(work.calls, env, name) ==
      Finished(Summarize(ds), name) + CallsCells(work.calls, name)
  {
    if revs != [] {
      var n := |revs| - 1;
      RunCounts(revs[..n], slots, ds, env, name);
      var before := RunGroups(revs[..n], slots, ds, env);
      var cells := CellsAt(slots, ds, revs[n]);
      CollectCounts(before.summaries, cells, revs[n], env, name);
      ImportCounts(CollectTicks(before.summaries, cells, revs[n], env), BuiltCells(cells, revs[n], env),
                   revs[n], env, name);
      assert (before.calls + [Call(revs[n], cells)])[..|before.calls|] == before.calls;
    }
  }

  // ----- the calls together hand over each build decision once --------------

  function CountBuilds(ds: seq<Decision>, revs: seq<nat>, name: string): nat {
    if ds == [] then 0
    else
      var last := ds[|ds| - 1];
      CountBuilds(ds[..|ds| - 1], revs, name) +
      One(last.action == Build && last.revision in revs && last.packageName == name)
  }

  lemma {:induction false} SelectCounts(slots: seq<Slot>, ds: seq<Decision>, revision: nat, name: string)
    requires Follows(slots, ds)
    ensures CountCells(Select(slots, ds, revision), name) == CountBuilds(ds, [revision], name)
  {
    if ds != [] {
      var n := |ds| - 1;
      SelectCounts(slots[..n], ds[..n], revision, name);
      var before := Select(slots[..n], ds[..n], revision);
      assert before + [] == before;
      assert BuildsAt(ds[n], revision) ==> (before + [slots[n].cell])[..|before|] == before;
    }
  }

  lemma {:induction false} BuildsByRevision(ds: seq<Decision>, revs: seq<nat>, name: string)
    requires Ascending(revs) && revs != []
    ensures CountBuilds(ds, revs, name) ==
            CountBuilds(ds, revs[..|revs| - 1], name) + CountBuilds(ds, [revs[|revs| - 1]], name)
  {
    if ds != [] {
      BuildsByRevision(ds[..|ds| - 1], revs, name);
      var r, n := ds[|ds| - 1].revision, |revs| - 1;
      assert r in revs <==> r in revs[..n] || r == revs[n];
      assert !(r in revs[..n] && r == revs[n]);
    }
  }

  lemma {:induction false} CallsHandOverBuilds(
    revs: seq<nat>, slots: seq<Slot>, ds: seq<Decision>, env: Env, name: string)
    requires PlanOk(slots) && Follows(slots, ds) && Ascending(revs)
    requires !RunGroups(revs, slots, ds, env).aborted
    ensures CallsCells(RunGroups(revs, slots, ds, env).calls, name) == CountBuilds(ds, revs, name)
  {
    if revs == [] {
      NoBuildsAtNoRevision(ds, name);
    } else {
      var n := |revs| - 1;
      CallsHandOverBuilds(revs[..n], slots, ds, env, name);
      var calls := RunGroups(revs[..n], slots, ds, env).calls;
      assert (calls + [Call(revs[n], CellsAt(slots, ds, revs[n]))])[..|calls|] == calls;
      CallGetsItsDecisions(slots, ds, revs[n]);
      SelectCounts(slots, ds, revs[n], name);
      BuildsByRevision(ds, revs, name);
    }
  }

  lemma {:induction false} NoBuildsAtNoRevision(ds: seq<Decision>, name: string)
    ensures CountBuilds(ds, [], name) == 0
  {
    if ds != [] { NoBuildsAtNoRevision(ds[..|ds| - 1], name); }
  }

  lemma {:induction false} SeedCounts(ds: seq<Decision>, revs: seq<nat>, name: string)
    requires forall d :: d in ds && d.action == Build ==> d.revision in revs
    ensures var m := Summarize(ds);
      if name in m then
        m[name].total == m[name].skipped + CountBuilds(ds, revs, name) && Finished(m, name) == 0
      else CountBuilds(ds, revs, name) == 0
  {
    if ds != [] {
      var n := |ds| - 1;
      assert ds == ds[..n] + [ds[n]];
      SeedCounts(ds[..n], revs, name);
    }
  }

  /** At the end of a run that was not cut short, skipped, built and failed account for
      every decision about a package except artifacts that came back without a path. */
  lemma {:induction false} SummariesAddUp(repo: seq<Package>, plan: seq<PlanPackage>, env: Env, name: string)
    requires PlanOk(Slots(plan))
    requires var r := Run(repo, plan, env, false);
      r.status in {Done, SomeFailed, PublishFailed} && name in r.work.summaries
    ensures var r := Run(repo, plan, env, false);
      var s := r.work.summaries[name];
      s.skipped + s.built + s.failed + CallsDropped(r.work.calls, env, name) == s.total
  {
    var slots := Slots(plan);
    var ds := DecideAll(QuerierOf(repo, env), slots).value;
    var revs := Revisions(ds);
    DecisionsFollow(QuerierOf(repo, env), slots);
    forall d | d in ds && d.action == Build ensures d.revision in revs { assert d in Group(ds, d.revision); }
    SeedCounts(ds, revs, name);
    TicksKeepNames(revs, slots, ds, env);
    RunCounts(revs, slots, ds, env, name);
    CallsHandOverBuilds(revs, slots, ds, env, name);
  }

  lemma {:induction false} TicksKeepNames(revs: seq<nat>, slots: seq<Slot>, ds: seq<Decision>, env: Env)
    ensures RunGroups(revs, slots, ds, env).summaries.Keys == Summarize(ds).Keys
  {
    if revs != [] {
      var n := |revs| - 1;
      TicksKeepNames(revs[..n], slots, ds, env);
      var cells := CellsAt(slots, ds, revs[n]);
      var m := RunGroups(revs[..n], slots, ds, env).summaries;
      CollectKeepsNames(m, cells, revs[n], env);
      ImportKeepsNames(CollectTicks(m, cells, revs[n], env), BuiltCells(cells, revs[n], env), revs[n], env);
    }
  }

  lemma {:induction false} CollectKeepsNames(m: Summaries, cells: seq<Cell>, revision: nat, env: Env)
    ensures CollectTicks(m, cells, revision, env).Keys == m.Keys
  {
    if cells != [] { CollectKeepsNames(m, cells[..|cells| - 1], revision, env); }
  }

  lemma {:induction false} ImportKeepsNames(m: Summaries, built: seq<Cell>, revision: nat, env: Env)
    ensures ImportTicks(m, built, revision, env).Keys == m.Keys
  {
    if built != [] { ImportKeepsNames(m, built[..|built| - 1], revision, env); }
  }

  // ----- the exit status ----------------------------------------------------

  /** Some artifact handed over at one of these revisions failed to build or to import. */
  ghost predicate SomeFailure(revs: seq<nat>, slots: seq<Slot>, ds: seq<Decision>, env: Env) {
    exists rev, c :: rev in revs && c in CellsAt(slots, ds, rev) && CellFails(rev, c, env)
  }

  predicate CellFails(revision: nat, c: Cell, env: Env) {
    env.outcome(revision, c) == BuildError || (env.outcome(revision, c) == Built && env.importFails(revision, c))
  }

  lemma {:induction false} GroupFailure(cells: seq<Cell>, revision: nat, env: Env)
    ensures AnyBuildError(cells, revision, env) || AnyImportError(BuiltCells(cells, revision, env), revision, env) <==>
            exists c :: c in cells && CellFails(revision, c, env)
  {
    if cells != [] {
      var n := |cells| - 1;
      GroupFailure(cells[..n], revision, env);
      assert cells == cells[..n] + [cells[n]];
      var built := BuiltCells(cells[..n], revision, env);
      assert (built + [cells[n]])[..|built|] == built && built + [] == built;
      if CellFails(revision, cells[n], env) { assert cells[n] in cells; }
      if c :| c in cells[..n] && CellFails(revision, c, env) { assert c in cells; }
    }
  }

  /** The failed flag is exact. */
  lemma {:induction false} FailedExactly(revs: seq<nat>, slots: seq<Slot>, ds: seq<Decision>, env: Env)
    requires !RunGroups(revs, slots, ds, env).aborted
    ensures RunGroups(revs, slots, ds, env).failed <==> SomeFailure(revs, slots, ds, env)
  {
    if revs != [] {
      var n := |revs| - 1;
      assert revs == revs[..n] + [revs[n]];
      FailedExactly(revs[..n], slots, ds, env);
      GroupFailure(CellsAt(slots, ds, revs[n]), revs[n], env);
      if rev, c :| rev in revs[..n] && c in CellsAt(slots, ds, rev) && CellFails(rev, c, env) {
        assert rev in revs;
      }
    }
  }

  /** Some artifact handed over at one of these revisions was built and imported. */
  ghost predicate SomeSuccess(revs: seq<nat>, slots: seq<Slot>, ds: seq<Decision>, env: Env) {
    exists rev, c :: rev in revs && c in CellsAt(slots, ds, rev) && Goes(rev, c, env)
  }

  lemma {:induction false} GroupSuccess(cells: seq<Cell>, revision: nat, env: Env)
    ensures Imports(BuiltCells(cells, revision, env), revision, env) != []
      <==> exists c :: c in cells && Goes(revision, c, env)
  {
    var built := BuiltCells(cells, revision, env);
    var ps := Imports(built, revision, env);
    BuiltCellsMembers(cells, revision, env);
    if ps != [] { var c := ImportedCell(built, revision, env, ps[0]); }
    if c :| c in cells && Goes(revision, c, env) { ImportsMembers(built, revision, env); }
  }

  /** So is the list of imports, of a run that was not cut short. */
  lemma {:induction false} AnyImportExactly(revs: seq<nat>, slots: seq<Slot>, ds: seq<Decision>, env: Env)
    requires !RunGroups(revs, slots, ds, env).aborted
    ensures RunGroups(revs, slots, ds, env).imported != [] <==> SomeSuccess(revs, slots, ds, env)
  {
    if revs != [] {
      var n := |revs| - 1;
      AnyImportExactly(revs[..n], slots, ds, env);
      GroupSuccess(CellsAt(slots, ds, revs[n]), revs[n], env);
      SuccessMore(revs, slots, ds, env);
    }
  }

  lemma {:induction false} SuccessMore(revs: seq<nat>, slots: seq<Slot>, ds: seq<Decision>, env: Env)
    requires revs != []
    ensures var n := |revs| - 1;
      SomeSuccess(revs, slots, ds, env)
      <==> SomeSuccess(revs[..n], slots, ds, env)
           || exists c :: c in CellsAt(slots, ds, revs[n]) && Goes(revs[n], c, env)
  {
    var n := |revs| - 1;
    assert forall rev :: rev in revs <==> rev in revs[..n] || rev == revs[n] by {
      assert revs == revs[..n] + [revs[n]];
    }
  }

  /** The outcome of a run, whatever fails in it: a publish is attempted exactly when no
      call fails and some artifact handed over builds and imports, and the four ways a run
      can end are told apart by what fails. */
  lemma {:induction false} StatusExactly(repo: seq<Package>, plan: seq<PlanPackage>, env: Env, ds: seq<Decision>)
    requires DecideAll(QuerierOf(repo, env), Slots(plan)) == Ok(ds)
    ensures var r, calls := Run(repo, plan, env, false), SomeCallFails(Revisions(ds), env);
      var publish := !calls && SomeSuccess(Revisions(ds), Slots(plan), ds, env);
      && (r.published <==> publish)
      && (r.status == CallFailed <==> calls)
      && (r.status == PublishFailed <==> publish && env.publishFails)
      && (r.status in {Done, SomeFailed} <==> !calls && !(publish && env.publishFails))
      && (r.status in {Done, SomeFailed} ==>
            (r.status == SomeFailed <==> SomeFailure(Revisions(ds), Slots(plan), ds, env)))
  {
    AbortedExactly(Revisions(ds), Slots(plan), ds, env);
    if !SomeCallFails(Revisions(ds), env) {
      FailedExactly(Revisions(ds), Slots(plan), ds, env);
      AnyImportExactly(Revisions(ds), Slots(plan), ds, env);
    }
  }

  /** A publish that fails is not made up for: when everything else went well, every later
      run of the same plan reports success without publishing what was imported. */
  lemma {:induction false} FailedPublishIsForgotten(repo: seq<Package>, plan: seq<PlanPackage>, env: Env, env': Env)
    requires PlanOk(Slots(plan)) && BasesOk(Slots(plan)) && AllSucceeded(env)
    requires forall p :: p in repo ==> SoundVersion(p.version)
    requires Run(repo, plan, env, false).status == PublishFailed
    requires (forall h: string :: !env'.hashFails(h)) && (forall n: string, a: string :: !env'.listFails(n, a))
    ensures var repo' := AddAll(repo, Run(repo, plan, env, false).work.imported);
      var again := Run(repo', plan, env', false);
      Run(repo, plan, env, false).work.imported != [] && again.status == Done && !again.published
      && AddAll(repo', again.work.imported) == repo'
  {
    ReconcileConverges(repo, plan, env, env');
  }

  /** Everything succeeds but the publish. */
  const NO_PUBLISH: Env := FINE.(publishFails := true)

  /** It happens to any plan of one new artifact, in an empty repository. */
  lemma {:induction false} FailedPublishHappens(name: string, art: Artifact)
    requires Free(name, '|') && Free(art.arch, '|') && art.nfpmVersion.Some? && IsBase(art.nfpmVersion.value)
    ensures var plan := [PlanPackage(name, true, [art])];
      && PlanOk(Slots(plan)) && BasesOk(Slots(plan)) && AllSucceeded(NO_PUBLISH)
      && Run([], plan, NO_PUBLISH, false).status == PublishFailed
  {
    var plan := [PlanPackage(name, true, [art])];
    var d := Judge([], name, art, art.nfpmVersion.value);
    OneSlotOk(name, art);
    OneDecision(name, art);
    assert NO_PUBLISH.callFails == FINE.callFails;
    EveryBuildInOneCall([Decided(Cell(name, art))], [d], 0, d.revision);
    assert Goes(d.revision, Cell(name, art), NO_PUBLISH);
    StatusExactly([], plan, NO_PUBLISH, [d]);
  }

  lemma {:induction false} OneSlotOk(name: string, art: Artifact)
    requires Free(name, '|') && Free(art.arch, '|') && art.nfpmVersion.Some? && IsBase(art.nfpmVersion.value)
    ensures var slots := [Decided(Cell(name, art))];
      Slots([PlanPackage(name, true, [art])]) == slots && PlanOk(slots) && BasesOk(slots)
  {
    OneSlot(name, art);
  }

  lemma {:induction false} OneSlot(name: string, art: Artifact)
    ensures Slots([PlanPackage(name, true, [art])]) == [Decided(Cell(name, art))]
  {
    assert [PlanPackage(name, true, [art])][1..] == [];
  }

  lemma {:induction false} OneDecision(name: string, art: Artifact)
    requires art.nfpmVersion.Some? && art.nfpmVersion.value != ""
    ensures var d := Judge([], name, art, art.nfpmVersion.value);
      && d.action == Build && d.packageName == name && d.arch == art.arch
      && DecideAll(QuerierOf([], NO_PUBLISH), [Decided(Cell(name, art))]) == Ok([d])
  {
    var q, slots := QuerierOf([], NO_PUBLISH), [Decided(Cell(name, art))];
    var d := Judge([], name, art, art.nfpmVersion.value);
    assert DecideSlot(q, slots[0]) == Ok(d) && [d] + [] == [d];
    assert slots[1..] == [] && DecideAll(q, []) == Ok([]);
  }

  // ----- dry runs -----------------------------------------------------------

  /** A dry run only decides: it calls nothing, imports nothing, publishes nothing and
      leaves the packages as they were, whatever would fail. */
  lemma {:induction false} DryRunDoesNothing(repo: seq<Package>, plan: seq<PlanPackage>, env: Env)
    ensures var r := Run(repo, plan, env, true);
      && r.work.calls == [] && r.work.imported == [] && !r.published && AddAll(repo, r.work.imported) == repo
      && (r.status == DryRun <==> DecideAll(QuerierOf(repo, env), Slots(plan)).Ok?)
      && (r.status == DecideFailed <==> DecideAll(QuerierOf(repo, env), Slots(plan)).Err?)
  {
    AddAllAppends(repo, []);
  }

  /** Any other run says so: it is never reported as dry, and where deciding fails it does
      as little. */
  lemma {:induction false} OnlyDryRunsAreDry(repo: seq<Package>, plan: seq<PlanPackage>, env: Env)
    ensures var r := Run(repo, plan, env, false);
      && r.status != DryRun
      && (r.status == DecideFailed <==> DecideAll(QuerierOf(repo, env), Slots(plan)).Err?)
      && (r.status == DecideFailed ==> r.work.calls == [] && r.work.imported == [] && !r.published)
  {
  }

  // ----- which calls are made -----------------------------------------------

  /** Calls of the first revisions in turn, up to the first that fails, that one included. */
  predicate InTurn(calls: seq<Call>, aborted: bool, revs: seq<nat>, call: nat -> Call, fails: nat -> bool) {
    && |calls| <= |revs|
    && (forall i :: 0 <= i < |calls| ==> calls[i] == call(revs[i]))
    && (forall i :: 0 <= i < |calls| - 1 ==> !fails(revs[i]))
    && (|calls| < |revs| ==> aborted)
    && (aborted <==> calls != [] && fails(revs[|calls| - 1]))
  }

  lemma {:induction false} OneMoreTurn(
    calls: seq<Call>, aborted: bool, revs: seq<nat>, call: nat -> Call, fails: nat -> bool)
    requires revs != [] && InTurn(calls, aborted, revs[..|revs| - 1], call, fails)
    ensures var r := revs[|revs| - 1];
      InTurn(if aborted then calls else calls + [call(r)], aborted || fails(r), revs, call, fails)
  {
    assert forall i :: 0 <= i < |revs| - 1 ==> revs[..|revs| - 1][i] == revs[i];
  }

  /** The calls made are those of the revisions in ascending order, up to the first that
      fails; that one is made too. */
  lemma {:induction false} CallsInOrder(revs: seq<nat>, slots: seq<Slot>, ds: seq<Decision>, env: Env)
    ensures var work := RunGroups(revs, slots, ds, env);
      InTurn(work.calls, work.aborted, revs, (r: nat) => Call(r, CellsAt(slots, ds, r)), env.callFails)
  {
    if revs != [] {
      var n := |revs| - 1;
      CallsInOrder(revs[..n], slots, ds, env);
      LastCall(revs, slots, ds, env);
      var before := RunGroups(revs[..n], slots, ds, env);
      OneMoreTurn(before.calls, before.aborted, revs, (r: nat) => Call(r, CellsAt(slots, ds, r)), env.callFails);
    }
  }

  lemma {:induction false} LastCall(revs: seq<nat>, slots: seq<Slot>, ds: seq<Decision>, env: Env)
    requires revs != []
    ensures var n := |revs| - 1; var before := RunGroups(revs[..n], slots, ds, env);
      && RunGroups(revs, slots, ds, env).calls
         == (if before.aborted then before.calls else before.calls + [Call(revs[n], CellsAt(slots, ds, revs[n]))])
      && RunGroups(revs, slots, ds, env).aborted == (before.aborted || env.callFails(revs[n]))
  {
  }

  // ----- each counter by itself ---------------------------------------------

  function CountNamed(ps: seq<Package>, name: string): nat {
    if ps == [] then 0
    else CountNamed(ps[..|ps| - 1], name) + One(ps[|ps| - 1].name == name)
  }

  lemma {:induction false} CountNamedAdds(ps: seq<Package>, qs: seq<Package>, name: string)
    ensures CountNamed(ps + qs, name) == CountNamed(ps, name) + CountNamed(qs, name)
  {
    if qs == [] {
      assert ps + qs == ps;
    } else {
      assert (ps + qs)[..|ps + qs| - 1] == ps + qs[..|qs| - 1];
      CountNamedAdds(ps, qs[..|qs| - 1], name);
    }
  }

  /** Artifacts of one call that did not build, or did not import. */
  function CountFails(cells: seq<Cell>, revision: nat, env: Env, name: string): nat {
    if cells == [] then 0
    else
      var last := cells[|cells| - 1];
      CountFails(cells[..|cells| - 1], revision, env, name) + One(last.name == name && CellFails(revision, last, env))
  }

  function CallsFails(calls: seq<Call>, env: Env, name: string): nat {
    if calls == [] then 0
    else
      var last := calls[|calls| - 1];
      CallsFails(calls[..|calls| - 1], env, name) + CountFails(last.cells, last.revision, env, name)
  }

  /** What one group adds to the two counters of a package. */
  predicate Ticked(m: Summaries, m': Summaries, name: string, built: nat, failed: nat) {
    SameSeed(m, m', name) && m'[name].built == m[name].built + built && m'[name].failed == m[name].failed + failed
  }

  function CountBuildErrors(cells: seq<Cell>, revision: nat, env: Env, name: string): nat {
    if cells == [] then 0
    else
      var last := cells[|cells| - 1];
      CountBuildErrors(cells[..|cells| - 1], revision, env, name)
      + One(last.name == name && env.outcome(revision, last) == BuildError)
  }

  function CountImportErrors(built: seq<Cell>, revision: nat, env: Env, name: string): nat {
    if built == [] then 0
    else
      var last := built[|built| - 1];
      CountImportErrors(built[..|built| - 1], revision, env, name)
      + One(last.name == name && env.importFails(revision, last))
  }

  lemma {:induction false} CollectTicked(m: Summaries, cells: seq<Cell>, revision: nat, env: Env, name: string)
    requires name in m
    ensures Ticked(m, CollectTicks(m, cells, revision, env), name, 0, CountBuildErrors(cells, revision, env, name))
  {
    if cells != [] { CollectTicked(m, cells[..|cells| - 1], revision, env, name); }
  }

  lemma {:induction false} OneMoreFailed(m: Summaries, m': Summaries, name: string, b: nat, f: nat, other: string)
    requires name in m && Ticked(m, m', name, b, f)
    ensures Ticked(m, TickFailed(m', other), name, b, f + One(other == name))
  {
  }

  lemma {:induction false} OneMoreBuilt(m: Summaries, m': Summaries, name: string, b: nat, f: nat, other: string)
    requires name in m && Ticked(m, m', name, b, f)
    ensures Ticked(m, TickBuilt(m', other), name, b + One(other == name), f)
  {
  }

  lemma {:induction false} ImportTicked(m: Summaries, built: seq<Cell>, revision: nat, env: Env, name: string)
    requires name in m
    ensures Ticked(m, ImportTicks(m, built, revision, env), name,
                   CountNamed(Imports(built, revision, env), name), CountImportErrors(built, revision, env, name))
  {
    if built != [] {
      var n := |built| - 1;
      ImportTicked(m, built[..n], revision, env, name);
      var before, ticks := Imports(built[..n], revision, env), ImportTicks(m, built[..n], revision, env);
      var b, f := CountNamed(before, name), CountImportErrors(built[..n], revision, env, name);
      if env.importFails(revision, built[n]) {
        assert before + [] == before;
        OneMoreFailed(m, ticks, name, b, f, built[n].name);
      } else {
        CountNamedSnoc(before, PackageOf(built[n], revision), name);
        OneMoreBuilt(m, ticks, name, b, f, built[n].name);
      }
    }
  }

  lemma {:induction false} CountNamedSnoc(ps: seq<Package>, p: Package, name: string)
    ensures CountNamed(ps + [p], name) == CountNamed(ps, name) + One(p.name == name)
  {
    assert (ps + [p])[..|ps|] == ps;
  }

  lemma {:induction false} ImportErrorsSnoc(built: seq<Cell>, c: Cell, revision: nat, env: Env, name: string)
    ensures CountImportErrors(built + [c], revision, env, name)
      == CountImportErrors(built, revision, env, name) + One(c.name == name && env.importFails(revision, c))
  {
    assert (built + [c])[..|built|] == built;
  }

  lemma {:induction false} BuiltSnoc(cells: seq<Cell>, revision: nat, env: Env)
    requires cells != []
    ensures var n := |cells| - 1; var before := BuiltCells(cells[..n], revision, env);
      BuiltCells(cells, revision, env)
      == if env.outcome(revision, cells[n]) == Built then before + [cells[n]] else before
  {
  }

  lemma {:induction false} FailsAreEither(cells: seq<Cell>, revision: nat, env: Env, name: string)
    ensures CountFails(cells, revision, env, name) == CountBuildErrors(cells, revision, env, name)
      + CountImportErrors(BuiltCells(cells, revision, env), revision, env, name)
  {
    if cells != [] {
      var n := |cells| - 1;
      FailsAreEither(cells[..n], revision, env, name);
      BuiltSnoc(cells, revision, env);
      ImportErrorsSnoc(BuiltCells(cells[..n], revision, env), cells[n], revision, env, name);
    }
  }

  lemma {:induction false} GroupTicked(m: Summaries, cells: seq<Cell>, revision: nat, env: Env, name: string)
    requires name in m
    ensures var built := BuiltCells(cells, revision, env);
      Ticked(m, ImportTicks(CollectTicks(m, cells, revision, env), built, revision, env), name,
             CountNamed(Imports(built, revision, env), name), CountFails(cells, revision, env, name))
  {
    CollectTicked(m, cells, revision, env, name);
    ImportTicked(CollectTicks(m, cells, revision, env), BuiltCells(cells, revision, env), revision, env, name);
    FailsAreEither(cells, revision, env, name);
  }

  lemma {:induction false} RunTicked(revs: seq<nat>, slots: seq<Slot>, ds: seq<Decision>, env: Env, name: string)
    requires name in Summarize(ds) && !RunGroups(revs, slots, ds, env).aborted
    ensures var work := RunGroups(revs, slots, ds, env);
      Ticked(Summarize(ds), work.summaries, name, CountNamed(work.imported, name), CallsFails(work.calls, env, name))
  {
    if revs != [] {
      var n := |revs| - 1;
      RunTicked(revs[..n], slots, ds, env, name);
      var before := RunGroups(revs[..n], slots, ds, env);
      var cells := CellsAt(slots, ds, revs[n]);
      GroupTicked(before.summaries, cells, revs[n], env, name);
      CountNamedAdds(before.imported, Imports(BuiltCells(cells, revs[n], env), revs[n], env), name);
      assert (before.calls + [Call(revs[n], cells)])[..|before.calls|] == before.calls;
    }
  }

  function CountDecisions(ds: seq<Decision>, name: string, skips: bool): nat {
    if ds == [] then 0
    else
      var last := ds[|ds| - 1];
      CountDecisions(ds[..|ds| - 1], name, skips) + One(last.packageName == name && (skips ==> last.action == Skip))
  }

  lemma {:induction false} SeedExactly(ds: seq<Decision>, name: string)
    ensures var m := Summarize(ds);
      if name in m then
        m[name] == Summary(CountDecisions(ds, name, false), CountDecisions(ds, name, true), 0, 0)
      else CountDecisions(ds, name, false) == 0 && CountDecisions(ds, name, true) == 0
  {
    if ds != [] { SeedExactly(ds[..|ds| - 1], name); }
  }

  /** At the end of a run that was not cut short each counter by itself: total counts the
      decisions about the package, skipped those that skip, built what was imported of it,
      failed the artifacts that did not build or did not import. */
  lemma {:induction false} CountersExactly(
    repo: seq<Package>, plan: seq<PlanPackage>, env: Env, ds: seq<Decision>, name: string)
    requires DecideAll(QuerierOf(repo, env), Slots(plan)) == Ok(ds)
    requires var r := Run(repo, plan, env, false); !r.work.aborted && name in r.work.summaries
    ensures var work := Run(repo, plan, env, false).work;
      work.summaries[name] == Summary(CountDecisions(ds, name, false), CountDecisions(ds, name, true),
                                      CountNamed(work.imported, name), CallsFails(work.calls, env, name))
  {
    TicksKeepNames(Revisions(ds), Slots(plan), ds, env);
    SeedExactly(ds, name);
    RunTicked(Revisions(ds), Slots(plan), ds, env, name);
  }

  // ----- the order of the imports -------------------------------------------

  /** The slots that some cells of one call come from, in plan order. */
  ghost predicate FromSlots(cells: seq<Cell>, at: seq<nat>, slots: seq<Slot>, ds: seq<Decision>, revision: nat) {
    && |at| == |cells| && |ds| <= |slots|
    && (forall k :: 0 <= k < |at| ==>
          at[k] < |ds| && BuildsAt(ds[at[k]], revision) && slots[at[k]].Decided? && slots[at[k]].cell == cells[k])
    && (forall k, l :: 0 <= k < l < |at| ==> at[k] < at[l])
  }

  lemma {:induction false} FromFirstSlots(
    cells: seq<Cell>, at: seq<nat>, slots: seq<Slot>, ds: seq<Decision>, revision: nat, n: nat)
    requires n <= |ds| <= |slots| && FromSlots(cells, at, slots[..n], ds[..n], revision)
    ensures FromSlots(cells, at, slots, ds, revision) && forall x :: x in at ==> x < n
  {
    forall k | 0 <= k < |at|
      ensures at[k] < n && BuildsAt(ds[at[k]], revision) && slots[at[k]].Decided? && slots[at[k]].cell == cells[k] {
      assert ds[..n][at[k]] == ds[at[k]] && slots[..n][at[k]] == slots[at[k]];
    }
  }

  lemma {:induction false} OneMoreSlot(
    cells: seq<Cell>, at: seq<nat>, slots: seq<Slot>, ds: seq<Decision>, revision: nat, n: nat)
    requires FromSlots(cells, at, slots, ds, revision) && (forall x :: x in at ==> x < n)
    requires n < |ds| && BuildsAt(ds[n], revision) && slots[n].Decided?
    ensures FromSlots(cells + [slots[n].cell], at + [n], slots, ds, revision)
  {
    assert forall k :: 0 <= k < |at| ==> at[k] in at;
  }

  lemma {:induction false} SelectFromSlots(slots: seq<Slot>, ds: seq<Decision>, revision: nat) returns (at: seq<nat>)
    requires Follows(slots, ds)
    ensures FromSlots(Select(slots, ds, revision), at, slots, ds, revision)
  {
    at := [];
    if ds != [] {
      var n := |ds| - 1;
      at := SelectFromSlots(slots[..n], ds[..n], revision);
      var before := Select(slots[..n], ds[..n], revision);
      FromFirstSlots(before, at, slots, ds, revision, n);
      if BuildsAt(ds[n], revision) {
        OneMoreSlot(before, at, slots, ds, revision, n);
        at := at + [n];
      } else {
        assert before + [] == before;
      }
    }
  }

  lemma {:induction false} FirstCells(
    cells: seq<Cell>, at: seq<nat>, slots: seq<Slot>, ds: seq<Decision>, revision: nat)
    requires cells != [] && FromSlots(cells, at, slots, ds, revision)
    ensures var n := |cells| - 1;
      && FromSlots(cells[..n], at[..n], slots, ds, revision)
      && at[n] < |ds| && BuildsAt(ds[at[n]], revision) && slots[at[n]].Decided? && slots[at[n]].cell == cells[n]
      && forall x :: x in at[..n] ==> x < at[n] && x in at
  {
    var n := |cells| - 1;
    forall x | x in at[..n] ensures x < at[n] && x in at {
      var k :| 0 <= k < n && at[..n][k] == x;
      assert at[k] == x;
    }
  }

  lemma {:induction false} BuiltFromSlots(
    cells: seq<Cell>, at: seq<nat>, slots: seq<Slot>, ds: seq<Decision>, revision: nat, env: Env)
      returns (built: seq<nat>)
    requires FromSlots(cells, at, slots, ds, revision)
    ensures FromSlots(BuiltCells(cells, revision, env), built, slots, ds, revision)
    ensures forall x :: x in built ==> x in at
  {
    built := [];
    if cells != [] {
      var n := |cells| - 1;
      FirstCells(cells, at, slots, ds, revision);
      built := BuiltFromSlots(cells[..n], at[..n], slots, ds, revision, env);
      var before := BuiltCells(cells[..n], revision, env);
      if env.outcome(revision, cells[n]) == Outcome.Built {
        OneMoreSlot(before, built, slots, ds, revision, at[n]);
        built := built + [at[n]];
      } else {
        assert before + [] == before;
      }
    }
  }

  /** The slots that some imported packages come from: by revision, then in plan order. */
  ghost predicate Imported(ps: seq<Package>, at: seq<nat>, slots: seq<Slot>, ds: seq<Decision>) {
    && |at| == |ps| && |ds| <= |slots|
    && (forall k :: 0 <= k < |at| ==>
          at[k] < |ds| && ds[at[k]].action == Build && slots[at[k]].Decided?
          && ps[k] == PackageOf(slots[at[k]].cell, ds[at[k]].revision))
    && (forall k, l :: 0 <= k < l < |at| ==> Before(ds, at[k], at[l]))
  }

  predicate Before(ds: seq<Decision>, i: nat, j: nat) {
    i < |ds| && j < |ds| && (ds[i].revision < ds[j].revision || (ds[i].revision == ds[j].revision && i < j))
  }

  lemma {:induction false} OneMoreImport(
    ps: seq<Package>, at: seq<nat>, slots: seq<Slot>, ds: seq<Decision>, revision: nat, n: nat)
    requires Imported(ps, at, slots, ds) && (forall x :: x in at ==> x < n && x < |ds| && BuildsAt(ds[x], revision))
    requires n < |ds| && BuildsAt(ds[n], revision) && slots[n].Decided?
    ensures Imported(ps + [PackageOf(slots[n].cell, revision)], at + [n], slots, ds)
  {
    forall k | 0 <= k < |at| ensures Before(ds, at[k], n) { assert at[k] in at; }
  }

  lemma {:induction false} AllBuildAt(
    cells: seq<Cell>, at: seq<nat>, slots: seq<Slot>, ds: seq<Decision>, revision: nat)
    requires FromSlots(cells, at, slots, ds, revision)
    ensures forall x :: x in at ==> x < |ds| && BuildsAt(ds[x], revision)
  {
    forall x | x in at ensures x < |ds| && BuildsAt(ds[x], revision) { var k :| 0 <= k < |at| && at[k] == x; }
  }

  lemma {:induction false} ImportsFromSlots(
    cells: seq<Cell>, at: seq<nat>, slots: seq<Slot>, ds: seq<Decision>, revision: nat, env: Env)
      returns (imported: seq<nat>)
    requires FromSlots(cells, at, slots, ds, revision)
    ensures Imported(Imports(cells, revision, env), imported, slots, ds)
    ensures forall x :: x in imported ==> x in at
  {
    imported := [];
    if cells != [] {
      var n := |cells| - 1;
      FirstCells(cells, at, slots, ds, revision);
      imported := ImportsFromSlots(cells[..n], at[..n], slots, ds, revision, env);
      var before := Imports(cells[..n], revision, env);
      if env.importFails(revision, cells[n]) {
        assert before + [] == before;
      } else {
        AllBuildAt(cells, at, slots, ds, revision);
        OneMoreImport(before, imported, slots, ds, revision, at[n]);
        imported := imported + [at[n]];
      }
    }
  }

  lemma {:induction false} GroupInOrder(slots: seq<Slot>, ds: seq<Decision>, revision: nat, env: Env)
      returns (at: seq<nat>)
    requires PlanOk(slots) && Follows(slots, ds)
    ensures Imported(Imports(BuiltCells(CellsAt(slots, ds, revision), revision, env), revision, env), at, slots, ds)
    ensures forall x :: x in at ==> x < |ds| && ds[x].revision == revision
  {
    CallGetsItsDecisions(slots, ds, revision);
    var selected := SelectFromSlots(slots, ds, revision);
    var built := BuiltFromSlots(Select(slots, ds, revision), selected, slots, ds, revision, env);
    at := ImportsFromSlots(BuiltCells(Select(slots, ds, revision), revision, env), built, slots, ds, revision, env);
    forall x | x in at ensures x < |ds| && ds[x].revision == revision {
      var k :| 0 <= k < |built| && built[k] == x;
    }
  }

  lemma {:induction false} ImportedTogether(
    ps: seq<Package>, at: seq<nat>, qs: seq<Package>, more: seq<nat>, slots: seq<Slot>, ds: seq<Decision>, r: nat)
    requires Imported(ps, at, slots, ds) && Imported(qs, more, slots, ds)
    requires forall x :: x in at ==> x < |ds| && ds[x].revision < r
    requires forall x :: x in more ==> x < |ds| && ds[x].revision == r
    ensures Imported(ps + qs, at + more, slots, ds)
  {
    var all := at + more;
    forall k, l | 0 <= k < l < |all| ensures Before(ds, all[k], all[l]) {
      if k < |at| <= l { assert at[k] in at && more[l - |at|] in more; }
    }
  }

  /** What a run imports it imports by ascending revision, and within a revision in the
      order of the plan, whatever fails on the way. */
  lemma {:induction false} ImportsInOrder(revs: seq<nat>, slots: seq<Slot>, ds: seq<Decision>, env: Env)
      returns (at: seq<nat>)
    requires PlanOk(slots) && Follows(slots, ds) && Ascending(revs)
    ensures Imported(RunGroups(revs, slots, ds, env).imported, at, slots, ds)
    ensures forall x :: x in at ==> x < |ds| && ds[x].revision in revs
  {
    at := [];
    if revs != [] {
      var n := |revs| - 1;
      var before := RunGroups(revs[..n], slots, ds, env);
      at := ImportsInOrder(revs[..n], slots, ds, env);
      assert forall r :: r in revs[..n] ==> r in revs && r < revs[n];
      if !before.aborted && !env.callFails(revs[n]) {
        var more := GroupInOrder(slots, ds, revs[n], env);
        var cells := CellsAt(slots, ds, revs[n]);
        ImportedTogether(before.imported, at, Imports(BuiltCells(cells, revs[n], env), revs[n], env), more,
                         slots, ds, revs[n]);
        at := at + more;
      }
    }
  }
}
