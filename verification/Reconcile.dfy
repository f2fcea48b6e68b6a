/** cmd/drayman/reconcile.go: decide, group by revision, build, import, publish. */
module Reconcile {
  import opened Text
  import opened Version
  import opened Policy

  // ----- the outside world --------------------------------------------------

  /** What `cooper build` reports for one artifact: a .deb, an artifact without a path
      (neither failed nor importable), or an error. */
  datatype Outcome = Built | NoPath | BuildError

  /** Everything drayman does not control in one run. Each call below happens at most
      once per run and cell, so functions cover every pattern of failures. */
  datatype Env = Env(
    hashFails: string -> bool, listFails: (string, string) -> bool,
    callFails: nat -> bool, outcome: (nat, Cell) -> Outcome,
    importFails: (nat, Cell) -> bool, publishFails: bool)

  /** The package a built cell becomes: `--revision n` appends "-n" and leaves the hash alone. */
  function PackageOf(c: Cell, revision: nat): Package {
    Package(c.name, VersionString(Base(c), revision), c.art.arch, c.art.hash)
  }

  function Base(c: Cell): string {
    if c.art.nfpmVersion.Some? then c.art.nfpmVersion.value else ""
  }

  predicate SameIdentity(p: Package, q: Package) {
    p.name == q.name && p.arch == q.arch && p.version == q.version
  }

  /** Adding with forced replacement: conflicting entries are evicted. */
  function AddPackage(repo: seq<Package>, p: Package): seq<Package> { Without(repo, p) + [p] }

  function Without(repo: seq<Package>, p: Package): seq<Package> {
    if repo == [] then []
    else (if SameIdentity(repo[0], p) then [] else [repo[0]]) + Without(repo[1..], p)
  }

  function AddAll(repo: seq<Package>, ps: seq<Package>): seq<Package> {
    if ps == [] then repo else AddPackage(AddAll(repo, ps[..|ps| - 1]), ps[|ps| - 1])
  }

  lemma {:induction false} WithoutExactly(repo: seq<Package>, p: Package, q: Package)
    ensures multiset(Without(repo, p))[q] == if SameIdentity(q, p) then 0 else multiset(repo)[q]
  {
    if repo != [] {
      WithoutExactly(repo[1..], p, q);
      assert repo == [repo[0]] + repo[1..];
    }
  }

  /** Forced replacement: afterwards the package is there once, last, no other has its
      identity, and the rest are as before. */
  lemma {:induction false} AddReplaces(repo: seq<Package>, p: Package, q: Package)
    ensures var after := AddPackage(repo, p);
      && after[|after| - 1] == p
      && multiset(after)[q] == if q == p then 1 else if SameIdentity(q, p) then 0 else multiset(repo)[q]
  {
    WithoutExactly(repo, p, q);
  }

  class Repository {
    var packages: seq<Package>
    var publishes: nat

    method Import(p: Package, fails: bool) returns (ok: bool)
      modifies this
      ensures ok == !fails && publishes == old(publishes)
      ensures packages == if ok then AddPackage(old(packages), p) else old(packages)
    {
      if !fails { packages := AddPackage(packages, p); }
      ok := !fails;
    }

    method Publish(fails: bool) returns (ok: bool)
      modifies this
      ensures ok == !fails && packages == old(packages) && publishes == old(publishes) + 1
    {
      publishes := publishes + 1;
      ok := !fails;
    }
  }

  // ----- per-package summaries ----------------------------------------------

  datatype Summary = Summary(total: nat, skipped: nat, built: nat, failed: nat)

  type Summaries = map<string, Summary>

  function TickFailed(m: Summaries, name: string): Summaries {
    if name in m then m[name := m[name].(failed := m[name].failed + 1)] else m
  }

  function TickBuilt(m: Summaries, name: string): Summaries {
    if name in m then m[name := m[name].(built := m[name].built + 1)] else m
  }

  function CountDecision(m: Summaries, d: Decision): Summaries {
    var s := if d.packageName in m then m[d.packageName] else Summary(0, 0, 0, 0);
    m[d.packageName := s.(total := s.total + 1, skipped := s.skipped + if d.action == Skip then 1 else 0)]
  }

  function Summarize(ds: seq<Decision>): Summaries {
    if ds == [] then map[] else CountDecision(Summarize(ds[..|ds| - 1]), ds[|ds| - 1])
  }

  method InitPackageSummaries(ds: seq<Decision>) returns (m: Summaries)
    ensures m == Summarize(ds)
  {
    m := map[];
    for i := 0 to |ds|
      invariant m == Summarize(ds[..i])
    {
      assert ds[..i + 1][..i] == ds[..i];
      var d := ds[i];
      if d.packageName !in m { m := m[d.packageName := Summary(0, 0, 0, 0)]; }
      m := m[d.packageName := m[d.packageName].(total := m[d.packageName].total + 1)];
      if d.action == Skip {
        m := m[d.packageName := m[d.packageName].(skipped := m[d.packageName].skipped + 1)];
      }
    }
    assert ds[..|ds|] == ds;
  }

  // ----- grouping by revision -----------------------------------------------

  predicate BuildsAt(d: Decision, revision: nat) { d.action == Build && d.revision == revision }

  function Group(ds: seq<Decision>, revision: nat): (g: seq<Decision>)
    ensures forall d :: d in g <==> d in ds && BuildsAt(d, revision)
  {
    if ds == [] then []
    else
      var last := ds[|ds| - 1];
      assert ds == ds[..|ds| - 1] + [last];
      Group(ds[..|ds| - 1], revision) + if BuildsAt(last, revision) then [last] else []
  }

  method GroupByRevision(ds: seq<Decision>) returns (groups: map<nat, seq<Decision>>)
    ensures forall r: nat :: r in groups <==> Group(ds, r) != []
    ensures forall r :: r in groups ==> groups[r] == Group(ds, r)
  {
    groups := map[];
    for i := 0 to |ds|
      invariant forall r: nat :: r in groups <==> Group(ds[..i], r) != []
      invariant forall r :: r in groups ==> groups[r] == Group(ds[..i], r)
    {
      var d := ds[i];
      assert ds[..i + 1][..i] == ds[..i];
      if d.action != Build { continue; }
      groups := groups[d.revision := (if d.revision in groups then groups[d.revision] else []) + [d]];
    }
    assert ds[..|ds|] == ds;
  }

  predicate Ascending(rs: seq<nat>) { forall i, j :: 0 <= i < j < |rs| ==> rs[i] < rs[j] }

  function InsertRevision(r: nat, rs: seq<nat>): (out: seq<nat>)
    requires Ascending(rs)
    ensures Ascending(out) && forall x :: x in out <==> x == r || x in rs
  {
    if rs == [] || r < rs[0] then [r] + rs
    else if r == rs[0] then rs
    else
      var rest := InsertRevision(r, rs[1..]);
      assert rs == [rs[0]] + rs[1..];
      AllAbove(rs, r, rest);
      [rs[0]] + rest
  }

  lemma {:induction false} AllAbove(rs: seq<nat>, r: nat, rest: seq<nat>)
    requires Ascending(rs) && rs != [] && rs[0] < r
    requires forall x :: x in rest ==> x == r || x in rs[1..]
    ensures forall k :: 0 <= k < |rest| ==> rs[0] < rest[k]
  {
    forall k | 0 <= k < |rest| ensures rs[0] < rest[k] {
      assert rest[k] in rest;
      if rest[k] != r {
        var j :| 0 <= j < |rs[1..]| && rs[1..][j] == rest[k];
        assert rs[j + 1] == rest[k];
      }
    }
  }

  /** The revisions in play, ascending and without repetition. */
  function Revisions(ds: seq<Decision>): (rs: seq<nat>)
    ensures Ascending(rs) && forall r :: r in rs <==> Group(ds, r) != []
  {
    if ds == [] then []
    else
      var last := ds[|ds| - 1];
      var rs := Revisions(ds[..|ds| - 1]);
      if last.action == Build then InsertRevision(last.revision, rs) else rs
  }

  lemma {:induction false} AscendingUnique(xs: seq<nat>, ys: seq<nat>)
    requires Ascending(xs) && Ascending(ys) && forall r :: r in xs <==> r in ys
    ensures xs == ys
  {
    if xs != [] { assert xs[0] in ys; }
    if ys != [] { assert ys[0] in xs; }
    if xs != [] {
      assert xs[0] == ys[0];
      forall r ensures r in xs[1..] <==> r in ys[1..] {
        assert r in xs[1..] <==> r in xs && r != xs[0];
        assert r in ys[1..] <==> r in ys && r != ys[0];
      }
      AscendingUnique(xs[1..], ys[1..]);
    }
  }

  method SortedRevisions(groups: map<nat, seq<Decision>>) returns (rs: seq<nat>)
    ensures Ascending(rs) && forall r :: r in rs <==> r in groups
  {
    rs := [];
    var todo := groups.Keys;
    while todo != {}
      invariant Ascending(rs) && todo <= groups.Keys
      invariant forall r :: r in rs <==> r in groups.Keys - todo
    {
      var r :| r in todo;
      rs := InsertRevision(r, rs);
      todo := todo - {r};
    }
  }

  // ----- filtering the plan -------------------------------------------------

  function KeepKey(name: string, arch: string): string { name + "|" + arch }

  function KeepKeys(group: seq<Decision>): set<string> { set d | d in group :: KeepKey(d.packageName, d.arch) }

  predicate Keeps(keep: set<string>, s: Slot) { s.Decided? && KeepKey(s.cell.name, s.cell.art.arch) in keep }

  function Kept(slots: seq<Slot>, keep: set<string>): seq<Cell> {
    if slots == [] then []
    else Kept(slots[..|slots| - 1], keep) + if Keeps(keep, slots[|slots| - 1]) then [slots[|slots| - 1].cell] else []
  }

  /** A plan's artifacts in plan order. */
  function CellsOf(slots: seq<Slot>): seq<Cell> {
    if slots == [] then []
    else CellsOf(slots[..|slots| - 1]) + if slots[|slots| - 1].Decided? then [slots[|slots| - 1].cell] else []
  }

  lemma {:induction false} CellsAppend(a: seq<Slot>, b: seq<Slot>)
    ensures CellsOf(a + b) == CellsOf(a) + CellsOf(b)
  {
    if b == [] {
      assert a + b == a;
    } else {
      assert (a + b)[..|a + b| - 1] == a + b[..|b| - 1];
      CellsAppend(a, b[..|b| - 1]);
    }
  }

  lemma {:induction false} KeptAppend(a: seq<Slot>, b: seq<Slot>, keep: set<string>)
    ensures Kept(a + b, keep) == Kept(a, keep) + Kept(b, keep)
  {
    if b == [] {
      assert a + b == a;
    } else {
      assert (a + b)[..|a + b| - 1] == a + b[..|b| - 1];
      KeptAppend(a, b[..|b| - 1], keep);
    }
  }

  lemma {:induction false} SlotsSnoc(plan: seq<PlanPackage>, p: PlanPackage)
    ensures Slots(plan + [p]) == Slots(plan) + PackageSlots(p)
  {
    if plan == [] {
      assert [] + [p] == [p] && [p][1..] == [];
    } else {
      assert (plan + [p])[1..] == plan[1..] + [p];
      SlotsSnoc(plan[1..], p);
      assert PackageSlots(plan[0]) + (Slots(plan[1..]) + PackageSlots(p)) ==
             PackageSlots(plan[0]) + Slots(plan[1..]) + PackageSlots(p);
    }
  }

  lemma {:induction false} CellsOneMore(name: string, arts: seq<Artifact>, a: Artifact)
    ensures CellsOf(PackageSlots(PlanPackage(name, true, arts + [a])))
      == CellsOf(PackageSlots(PlanPackage(name, true, arts))) + [Cell(name, a)]
  {
    var slots := PackageSlots(PlanPackage(name, true, arts));
    assert PackageSlots(PlanPackage(name, true, arts + [a])) == slots + [Decided(Cell(name, a))];
    CellsAppend(slots, [Decided(Cell(name, a))]);
    CellsOfOne(Cell(name, a));
  }

  lemma {:induction false} KeptOneMore(pkg: PlanPackage, keep: set<string>, j: nat)
    requires pkg.ok && j < |pkg.artifacts|
    ensures j < |PackageSlots(pkg)|
    ensures var a := pkg.artifacts[j];
      Kept(PackageSlots(pkg)[..j + 1], keep)
      == Kept(PackageSlots(pkg)[..j], keep) + if KeepKey(pkg.name, a.arch) in keep then [Cell(pkg.name, a)] else []
  {
    KeptSnoc(PackageSlots(pkg), j, keep);
  }

  method FilterArtifacts(pkg: PlanPackage, keep: set<string>) returns (arts: seq<Artifact>)
    requires pkg.ok
    ensures CellsOf(PackageSlots(PlanPackage(pkg.name, true, arts))) == Kept(PackageSlots(pkg), keep)
  {
    arts := [];
    ghost var slots := PackageSlots(pkg);
    for j := 0 to |pkg.artifacts|
      invariant CellsOf(PackageSlots(PlanPackage(pkg.name, true, arts))) == Kept(slots[..j], keep)
    {
      var a := pkg.artifacts[j];
      KeptOneMore(pkg, keep, j);
      if KeepKey(pkg.name, a.arch) in keep {
        CellsOneMore(pkg.name, arts, a);
        arts := arts + [a];
      }
    }
    assert slots[..|slots|] == slots;
  }

  lemma {:induction false} KeptSnoc(slots: seq<Slot>, j: nat, keep: set<string>)
    requires j < |slots|
    ensures Kept(slots[..j + 1], keep) == Kept(slots[..j], keep) + if Keeps(keep, slots[j]) then [slots[j].cell] else []
  {
    assert slots[..j + 1][..j] == slots[..j];
  }

  lemma {:induction false} CellsOfOne(c: Cell)
    ensures CellsOf([Decided(c)]) == [c]
  {
    assert [Decided(c)][..0] == [];
  }

  method FilterPlanForDecisions(plan: seq<PlanPackage>, group: seq<Decision>) returns (out: seq<PlanPackage>)
    ensures CellsOf(Slots(out)) == Kept(Slots(plan), KeepKeys(group))
  {
    var keep := set d | d in group :: KeepKey(d.packageName, d.arch);
    out := [];
    for i := 0 to |plan|
      invariant CellsOf(Slots(out)) == Kept(Slots(plan[..i]), keep)
    {
      var pkg := plan[i];
      assert plan[..i + 1] == plan[..i] + [pkg];
      SlotsSnoc(plan[..i], pkg);
      KeptAppend(Slots(plan[..i]), PackageSlots(pkg), keep);
      if !pkg.ok { continue; }
      var arts := FilterArtifacts(pkg, keep);
      if arts == [] { continue; }
      SlotsSnoc(out, PlanPackage(pkg.name, true, arts));
      CellsAppend(Slots(out), PackageSlots(PlanPackage(pkg.name, true, arts)));
      out := out + [PlanPackage(pkg.name, true, arts)];
    }
    assert plan[..|plan|] == plan;
  }

  // ----- one revision group -------------------------------------------------

  function BuiltCells(cells: seq<Cell>, revision: nat, env: Env): seq<Cell> {
    if cells == [] then []
    else
      var last := cells[|cells| - 1];
      BuiltCells(cells[..|cells| - 1], revision, env) +
      if env.outcome(revision, last) == Built then [last] else []
  }

  function CollectTicks(m: Summaries, cells: seq<Cell>, revision: nat, env: Env): Summaries {
    if cells == [] then m
    else
      var before := CollectTicks(m, cells[..|cells| - 1], revision, env);
      var last := cells[|cells| - 1];
      if env.outcome(revision, last) == BuildError then TickFailed(before, last.name) else before
  }

  predicate AnyBuildError(cells: seq<Cell>, revision: nat, env: Env) {
    cells != [] &&
    (AnyBuildError(cells[..|cells| - 1], revision, env) || env.outcome(revision, cells[|cells| - 1]) == BuildError)
  }

  method CollectArtifacts(cells: seq<Cell>, revision: nat, env: Env, summaries: Summaries)
      returns (built: seq<Cell>, failed: bool, m: Summaries)
    ensures built == BuiltCells(cells, revision, env)
    ensures failed == AnyBuildError(cells, revision, env)
    ensures m == CollectTicks(summaries, cells, revision, env)
  {
    built, failed, m := [], false, summaries;
    for i := 0 to |cells|
      invariant built == BuiltCells(cells[..i], revision, env)
      invariant failed == AnyBuildError(cells[..i], revision, env)
      invariant m == CollectTicks(summaries, cells[..i], revision, env)
    {
      assert cells[..i + 1][..i] == cells[..i];
      match env.outcome(revision, cells[i])
      case BuildError => m, failed := TickFailed(m, cells[i].name), true;
      case NoPath =>
      case Built => built := built + [cells[i]];
    }
    assert cells[..|cells|] == cells;
  }

  lemma {:induction false} BuiltCellsMembers(cells: seq<Cell>, revision: nat, env: Env)
    ensures forall c :: c in BuiltCells(cells, revision, env) <==> c in cells && env.outcome(revision, c) == Built
  {
    if cells != [] {
      BuiltCellsMembers(cells[..|cells| - 1], revision, env);
      assert cells == cells[..|cells| - 1] + [cells[|cells| - 1]];
    }
  }

  function Imports(built: seq<Cell>, revision: nat, env: Env): seq<Package>
  {
    if built == [] then []
    else
      var last := built[|built| - 1];
      Imports(built[..|built| - 1], revision, env) +
      if env.importFails(revision, last) then [] else [PackageOf(last, revision)]
  }

  function ImportTicks(m: Summaries, built: seq<Cell>, revision: nat, env: Env): Summaries {
    if built == [] then m
    else
      var before := ImportTicks(m, built[..|built| - 1], revision, env);
      var last := built[|built| - 1];
      if env.importFails(revision, last) then TickFailed(before, last.name) else TickBuilt(before, last.name)
  }

  predicate AnyImportError(built: seq<Cell>, revision: nat, env: Env) {
    built != [] &&
    (AnyImportError(built[..|built| - 1], revision, env) || env.importFails(revision, built[|built| - 1]))
  }

  lemma {:induction false} AddAllAppend(repo: seq<Package>, a: seq<Package>, b: seq<Package>)
    ensures AddAll(repo, a + b) == AddAll(AddAll(repo, a), b)
  {
    if b == [] {
      assert a + b == a;
    } else {
      assert (a + b)[..|a + b| - 1] == a + b[..|b| - 1];
      AddAllAppend(repo, a, b[..|b| - 1]);
    }
  }

  lemma {:induction false} AddAllSnoc(repo: seq<Package>, ps: seq<Package>, p: Package)
    ensures AddAll(repo, ps + [p]) == AddPackage(AddAll(repo, ps), p)
  {
    assert (ps + [p])[..|ps|] == ps;
  }

  lemma {:induction false} ImportPrefix(built: seq<Cell>, i: nat, revision: nat, env: Env, m: Summaries)
    requires i < |built|
    ensures Imports(built[..i + 1], revision, env) == Imports(built[..i], revision, env) +
            if env.importFails(revision, built[i]) then [] else [PackageOf(built[i], revision)]
    ensures AnyImportError(built[..i + 1], revision, env) ==
            (AnyImportError(built[..i], revision, env) || env.importFails(revision, built[i]))
    ensures var before := ImportTicks(m, built[..i], revision, env);
      ImportTicks(m, built[..i + 1], revision, env) ==
      if env.importFails(revision, built[i]) then TickFailed(before, built[i].name)
      else TickBuilt(before, built[i].name)
  {
    assert built[..i + 1][..i] == built[..i];
  }

  method ImportGroup(repo: Repository, built: seq<Cell>, revision: nat, env: Env, summaries: Summaries)
      returns (imported: seq<Package>, failed: bool, m: Summaries)
    modifies repo
    ensures imported == Imports(built, revision, env)
    ensures failed == AnyImportError(built, revision, env)
    ensures m == ImportTicks(summaries, built, revision, env)
    ensures repo.packages == AddAll(old(repo.packages), imported) && repo.publishes == old(repo.publishes)
  {
    imported, failed, m := [], false, summaries;
    for i := 0 to |built|
      invariant imported == Imports(built[..i], revision, env)
      invariant failed == AnyImportError(built[..i], revision, env)
      invariant m == ImportTicks(summaries, built[..i], revision, env)
      invariant repo.packages == AddAll(old(repo.packages), imported) && repo.publishes == old(repo.publishes)
    {
      ImportPrefix(built, i, revision, env, summaries);
      var p := PackageOf(built[i], revision);
      var ok := repo.Import(p, env.importFails(revision, built[i]));
      if ok {
        AddAllSnoc(old(repo.packages), imported, p);
        m, imported := TickBuilt(m, built[i].name), imported + [p];
      } else {
        m, failed := TickFailed(m, built[i].name), true;
      }
    }
    assert built[..|built|] == built;
  }

  // ----- the run ------------------------------------------------------------

  /** One `cooper build` invocation: the debian-revision and the artifacts handed over. */
  datatype Call = Call(revision: nat, cells: seq<Cell>)

  datatype Progress = Progress(
    imported: seq<Package>, calls: seq<Call>, summaries: Summaries, failed: bool, aborted: bool)

  function CellsAt(slots: seq<Slot>, ds: seq<Decision>, revision: nat): seq<Cell>
  {
    Kept(slots, KeepKeys(Group(ds, revision)))
  }

  ghost function GroupStep(pr: Progress, slots: seq<Slot>, ds: seq<Decision>, revision: nat, env: Env): Progress {
    var cells := CellsAt(slots, ds, revision);
    var calls := pr.calls + [Call(revision, cells)];
    if env.callFails(revision) then pr.(calls := calls, aborted := true)
    else
      var built := BuiltCells(cells, revision, env);
      Progress(pr.imported + Imports(built, revision, env), calls,
               ImportTicks(CollectTicks(pr.summaries, cells, revision, env), built, revision, env),
               pr.failed || AnyBuildError(cells, revision, env) || AnyImportError(built, revision, env),
               false)
  }

  /** The loop over revision groups; a failed `cooper build` call ends it. */
  ghost function RunGroups(revs: seq<nat>, slots: seq<Slot>, ds: seq<Decision>, env: Env): Progress {
    if revs == [] then Progress([], [], Summarize(ds), false, false)
    else
      var before := RunGroups(revs[..|revs| - 1], slots, ds, env);
      if before.aborted then before else GroupStep(before, slots, ds, revs[|revs| - 1], env)
  }

  lemma {:induction false} AbortIsFinal(revs: seq<nat>, k: nat, slots: seq<Slot>, ds: seq<Decision>, env: Env)
    requires k <= |revs| && RunGroups(revs[..k], slots, ds, env).aborted
    ensures RunGroups(revs, slots, ds, env) == RunGroups(revs[..k], slots, ds, env)
  {
    if k == |revs| {
      assert revs[..k] == revs;
    } else {
      assert revs[..|revs| - 1][..k] == revs[..k];
      AbortIsFinal(revs[..|revs| - 1], k, slots, ds, env);
    }
  }

  datatype Status = Done | DryRun | DecideFailed | CallFailed | PublishFailed | SomeFailed

  datatype Report = Report(status: Status, published: bool, work: Progress)

  const NO_WORK := Progress([], [], map[], false, false)

  function QuerierOf(repo: seq<Package>, env: Env): Querier { Querier(repo, env.hashFails, env.listFails) }

  ghost function Run(repo: seq<Package>, plan: seq<PlanPackage>, env: Env, dryRun: bool): Report {
    match DecideAll(QuerierOf(repo, env), Slots(plan))
    case Err => Report(DecideFailed, false, NO_WORK)
    case Ok(ds) =>
      if dryRun then Report(DryRun, false, NO_WORK)
      else
        var work := RunGroups(Revisions(ds), Slots(plan), ds, env);
        if work.aborted then Report(CallFailed, false, work)
        else if work.imported != [] && env.publishFails then Report(PublishFailed, true, work)
        else Report(if work.failed then SomeFailed else Done, work.imported != [], work)
  }

  method RunGroup(repo: Repository, plan: seq<PlanPackage>, ds: seq<Decision>, revision: nat,
                  group: seq<Decision>, env: Env, before: Progress)
      returns (work: Progress)
    requires group == Group(ds, revision) && !before.aborted
    modifies repo
    ensures work == GroupStep(before, Slots(plan), ds, revision, env)
    ensures before.imported <= work.imported
    ensures repo.packages == AddAll(old(repo.packages), work.imported[|before.imported|..])
    ensures repo.publishes == old(repo.publishes)
  {
    var filtered := FilterPlanForDecisions(plan, group);
    var cells := CellsOf(Slots(filtered));
    var calls := before.calls + [Call(revision, cells)];
    if env.callFails(revision) {
      return before.(calls := calls, aborted := true);
    }
    var built, buildFailed, m1 := CollectArtifacts(cells, revision, env, before.summaries);
    var imported, importFailed, m2 := ImportGroup(repo, built, revision, env, m1);
    work := Progress(before.imported + imported, calls, m2, before.failed || buildFailed || importFailed, false);
  }

  method RunAllGroups(repo: Repository, plan: seq<PlanPackage>, ds: seq<Decision>,
                      groups: map<nat, seq<Decision>>, revs: seq<nat>, env: Env, m: Summaries)
      returns (work: Progress)
    requires m == Summarize(ds)
    requires forall r :: r in revs ==> r in groups && groups[r] == Group(ds, r)
    modifies repo
    ensures work == RunGroups(revs, Slots(plan), ds, env)
    ensures repo.packages == AddAll(old(repo.packages), work.imported) && repo.publishes == old(repo.publishes)
  {
    work := Progress([], [], m, false, false);
    for k := 0 to |revs|
      invariant work == RunGroups(revs[..k], Slots(plan), ds, env) && !work.aborted
      invariant repo.packages == AddAll(old(repo.packages), work.imported) && repo.publishes == old(repo.publishes)
    {
      assert revs[..k + 1][..k] == revs[..k];
      assert revs[k] in revs;
      ghost var before := work.imported;
      work := RunGroup(repo, plan, ds, revs[k], groups[revs[k]], env, work);
      assert before + work.imported[|before|..] == work.imported;
      AddAllAppend(old(repo.packages), before, work.imported[|before|..]);
      if work.aborted {
        AbortIsFinal(revs, k + 1, Slots(plan), ds, env);
        return;
      }
    }
    assert revs[..|revs|] == revs;
  }

  /** runReconcile: the report, the packages afterwards and the number of publishes. */
  method RunReconcile(repo: Repository, plan: seq<PlanPackage>, env: Env, dryRun: bool) returns (r: Report)
    modifies repo
    ensures r == Run(old(repo.packages), plan, env, dryRun)
    ensures repo.packages == AddAll(old(repo.packages), r.work.imported)
    ensures repo.publishes == old(repo.publishes) + if r.published then 1 else 0
  {
    var decided := Decide(QuerierOf(repo.packages, env), plan);
    if decided.Err? { return Report(DecideFailed, false, NO_WORK); }
    var ds := decided.value;
    if dryRun { return Report(DryRun, false, NO_WORK); }
    var m := InitPackageSummaries(ds);
    var groups := GroupByRevision(ds);
    var revs := SortedRevisions(groups);
    AscendingUnique(revs, Revisions(ds));
    var work := RunAllGroups(repo, plan, ds, groups, revs, env, m);
    if work.aborted { return Report(CallFailed, false, work); }
    if work.imported != [] {
      var ok := repo.Publish(env.publishFails);
      if !ok { return Report(PublishFailed, true, work); }
    }
    return Report(if work.failed then SomeFailed else Done, work.imported != [], work);
  }
}
