/** What every sequence of drayman runs keeps: nothing is evicted, versions only grow,
    revisions have no gaps, and a fully successful run leaves nothing to do. */
module History {
  import opened Text
  import opened Version
  import opened Policy
  import opened Reconcile

  // ----- plans drayman is given ---------------------------------------------

  predicate SamePlace(name1: string, arch1: string, name2: string, arch2: string) {
    name1 == name2 && arch1 == arch2
  }

  /** Names and architectures hold no '|', and a plan names each (name, arch) once. */
  predicate PlanOk(slots: seq<Slot>) {
    && (forall i :: 0 <= i < |slots| && slots[i].Decided? ==>
          Free(slots[i].cell.name, '|') && Free(slots[i].cell.art.arch, '|'))
    && (forall i, j :: 0 <= i < j < |slots| && slots[i].Decided? && slots[j].Decided? ==>
          !SamePlace(slots[i].cell.name, slots[i].cell.art.arch, slots[j].cell.name, slots[j].cell.art.arch))
  }

  predicate BasesOk(slots: seq<Slot>) {
    forall i :: 0 <= i < |slots| && slots[i].Decided? ==> IsBase(Base(slots[i].cell))
  }

  /** Decisions line up with the slots they were made for. */
  predicate Follows(slots: seq<Slot>, ds: seq<Decision>) {
    |ds| == |slots| && forall i :: 0 <= i < |ds| && ds[i].action == Build ==>
      slots[i].Decided? && ds[i].packageName == slots[i].cell.name && ds[i].arch == slots[i].cell.art.arch
  }

  lemma {:induction false} DecisionsFollow(q: Querier, slots: seq<Slot>)
    requires DecideAll(q, slots).Ok?
    ensures Follows(slots, DecideAll(q, slots).value)
  {
    DecideAllPointwise(q, slots);
    var ds := DecideAll(q, slots).value;
    forall i | 0 <= i < |ds| && ds[i].action == Build
      ensures slots[i].Decided? && ds[i].packageName == slots[i].cell.name && ds[i].arch == slots[i].cell.art.arch
    {
      BuildNamesItsSlot(q, slots[i], ds[i]);
    }
  }

  lemma {:induction false} BuildNamesItsSlot(q: Querier, s: Slot, d: Decision)
    requires DecideSlot(q, s) == Ok(d) && d.action == Build
    ensures s.Decided? && d.packageName == s.cell.name && d.arch == s.cell.art.arch
  {
  }

  // ----- each build decision reaches one call, at its own revision ----------

  function Select(slots: seq<Slot>, ds: seq<Decision>, revision: nat): seq<Cell>
    requires Follows(slots, ds)
  {
    if ds == [] then []
    else
      var n := |ds| - 1;
      Select(slots[..n], ds[..n], revision) + if BuildsAt(ds[n], revision) then [slots[n].cell] else []
  }

  lemma {:induction false} KeptByPosition(slots: seq<Slot>, ds: seq<Decision>, keep: set<string>, revision: nat)
    requires Follows(slots, ds)
    requires forall i :: 0 <= i < |ds| ==> (Keeps(keep, slots[i]) <==> BuildsAt(ds[i], revision))
    ensures Kept(slots, keep) == Select(slots, ds, revision)
  {
    if ds != [] {
      var n := |ds| - 1;
      KeptByPosition(slots[..n], ds[..n], keep, revision);
    }
  }

  /** Filtering by "name|arch" hands `cooper build` exactly the artifacts decided at
      that revision, in plan order. */
  lemma {:induction false} CallGetsItsDecisions(slots: seq<Slot>, ds: seq<Decision>, revision: nat)
    requires PlanOk(slots) && Follows(slots, ds)
    ensures CellsAt(slots, ds, revision) == Select(slots, ds, revision)
  {
    var group := Group(ds, revision);
    var keep := KeepKeys(group);
    forall i | 0 <= i < |ds| ensures Keeps(keep, slots[i]) <==> BuildsAt(ds[i], revision) {
      if BuildsAt(ds[i], revision) {
        assert ds[i] in group;
      }
      if Keeps(keep, slots[i]) {
        var d :| d in group && KeepKey(d.packageName, d.arch) == KeepKey(slots[i].cell.name, slots[i].cell.art.arch);
        var j :| 0 <= j < |ds| && ds[j] == d;
        SplitAtSeparator(slots[j].cell.name, slots[j].cell.art.arch, slots[i].cell.name, slots[i].cell.art.arch, '|');
        assert i == j;
      }
    }
    KeptByPosition(slots, ds, keep, revision);
  }

  lemma {:induction false} SelectMembers(slots: seq<Slot>, ds: seq<Decision>, revision: nat)
    requires Follows(slots, ds)
    ensures forall c :: c in Select(slots, ds, revision) <==>
      exists i :: 0 <= i < |ds| && BuildsAt(ds[i], revision) && slots[i].cell == c
  {
    if ds != [] {
      var n := |ds| - 1;
      SelectMembers(slots[..n], ds[..n], revision);
      forall c ensures c in Select(slots, ds, revision) <==>
                       exists i :: 0 <= i < |ds| && BuildsAt(ds[i], revision) && slots[i].cell == c {
        if c in Select(slots[..n], ds[..n], revision) {
          var i :| 0 <= i < n && BuildsAt(ds[..n][i], revision) && slots[..n][i].cell == c;
          assert BuildsAt(ds[i], revision) && slots[i].cell == c;
        }
        if i :| 0 <= i < |ds| && BuildsAt(ds[i], revision) && slots[i].cell == c {
          if i < n { assert BuildsAt(ds[..n][i], revision) && slots[..n][i].cell == c; }
        }
      }
    }
  }

  /** Every build decision is handed to exactly one call, the one at its own revision,
      and calls are made in ascending order of revision. */
  lemma {:induction false} EveryBuildInOneCall(slots: seq<Slot>, ds: seq<Decision>, i: nat, revision: nat)
    requires PlanOk(slots) && Follows(slots, ds)
    requires i < |ds| && ds[i].action == Build
    ensures slots[i].cell in CellsAt(slots, ds, revision) <==> revision == ds[i].revision
    ensures ds[i].revision in Revisions(ds) && Ascending(Revisions(ds))
  {
    CallGetsItsDecisions(slots, ds, revision);
    SelectMembers(slots, ds, revision);
    assert ds[i] in Group(ds, ds[i].revision);
  }

  // ----- what a run imports -------------------------------------------------

  predicate DistinctCells(cells: seq<Cell>) {
    forall i, j :: 0 <= i < j < |cells| ==>
      !SamePlace(cells[i].name, cells[i].art.arch, cells[j].name, cells[j].art.arch)
  }

  predicate DistinctPlaces(ps: seq<Package>) {
    forall i, j :: 0 <= i < j < |ps| ==> !SamePlace(ps[i].name, ps[i].arch, ps[j].name, ps[j].arch)
  }

  lemma {:induction false} SelectDistinct(slots: seq<Slot>, ds: seq<Decision>, revision: nat)
    requires Follows(slots, ds) && PlanOk(slots)
    ensures DistinctCells(Select(slots, ds, revision))
  {
    if ds != [] {
      var n := |ds| - 1;
      SelectDistinct(slots[..n], ds[..n], revision);
      var before := Select(slots[..n], ds[..n], revision);
      SelectMembers(slots[..n], ds[..n], revision);
      forall k | 0 <= k < |before| && BuildsAt(ds[n], revision)
        ensures !SamePlace(before[k].name, before[k].art.arch, slots[n].cell.name, slots[n].cell.art.arch) {
        assert before[k] in before;
      }
    }
  }

  lemma {:induction false} BuiltDistinct(cells: seq<Cell>, revision: nat, env: Env)
    requires DistinctCells(cells)
    ensures DistinctCells(BuiltCells(cells, revision, env))
  {
    if cells != [] {
      var n := |cells| - 1;
      BuiltDistinct(cells[..n], revision, env);
      BuiltCellsMembers(cells[..n], revision, env);
      var before := BuiltCells(cells[..n], revision, env);
      forall k | 0 <= k < |before|
        ensures !SamePlace(before[k].name, before[k].art.arch, cells[n].name, cells[n].art.arch) {
        assert before[k] in before;
      }
    }
  }

  /** A package that came from one of the given cells. */
  ghost predicate FromCell(p: Package, cells: seq<Cell>, revision: nat) {
    exists c :: c in cells && p == PackageOf(c, revision)
  }

  lemma {:induction false} ImportsMembers(built: seq<Cell>, revision: nat, env: Env)
    ensures forall p :: p in Imports(built, revision, env) ==> FromCell(p, built, revision)
    ensures forall c :: c in built && !env.importFails(revision, c) ==>
      PackageOf(c, revision) in Imports(built, revision, env)
  {
    if built != [] {
      var n := |built| - 1;
      assert built == built[..n] + [built[n]];
      ImportsMembers(built[..n], revision, env);
      forall p | p in Imports(built[..n], revision, env) ensures FromCell(p, built, revision) {
        var c :| c in built[..n] && p == PackageOf(c, revision);
        assert c in built;
      }
      assert FromCell(PackageOf(built[n], revision), built, revision);
    }
  }

  lemma {:induction false} ImportsDistinct(built: seq<Cell>, revision: nat, env: Env)
    requires DistinctCells(built)
    ensures DistinctPlaces(Imports(built, revision, env))
  {
    if built != [] {
      var n := |built| - 1;
      ImportsDistinct(built[..n], revision, env);
      ImportsMembers(built[..n], revision, env);
      var before := Imports(built[..n], revision, env);
      forall k | 0 <= k < |before|
        ensures !SamePlace(before[k].name, before[k].arch, built[n].name, built[n].art.arch) {
        assert before[k] in before;
        var c :| c in built[..n] && before[k] == PackageOf(c, revision);
      }
    }
  }

  /** A package that carries out a build decision of the plan. */
  ghost predicate FromDecision(p: Package, slots: seq<Slot>, ds: seq<Decision>, revs: seq<nat>) {
    exists i :: 0 <= i < |ds| && i < |slots| && ds[i].action == Build && ds[i].revision in revs
                && slots[i].Decided? && p == PackageOf(slots[i].cell, ds[i].revision)
  }

  lemma {:induction false} GroupImports(slots: seq<Slot>, ds: seq<Decision>, revision: nat, env: Env)
    requires PlanOk(slots) && Follows(slots, ds)
    ensures var ps := Imports(BuiltCells(CellsAt(slots, ds, revision), revision, env), revision, env);
      DistinctPlaces(ps) && forall p :: p in ps ==> FromDecision(p, slots, ds, [revision])
  {
    var cells := Select(slots, ds, revision);
    CallGetsItsDecisions(slots, ds, revision);
    SelectDistinct(slots, ds, revision);
    SelectMembers(slots, ds, revision);
    BuiltDistinct(cells, revision, env);
    BuiltCellsMembers(cells, revision, env);
    var built := BuiltCells(cells, revision, env);
    ImportsMembers(built, revision, env);
    ImportsDistinct(built, revision, env);
    forall p | p in Imports(built, revision, env) ensures FromDecision(p, slots, ds, [revision]) {
      var c :| c in built && p == PackageOf(c, revision);
      assert c in cells;
      var i :| 0 <= i < |ds| && BuildsAt(ds[i], revision) && slots[i].cell == c;
    }
  }

  lemma {:induction false} RunImports(revs: seq<nat>, slots: seq<Slot>, ds: seq<Decision>, env: Env)
    requires PlanOk(slots) && Follows(slots, ds) && Ascending(revs)
    ensures var ps := RunGroups(revs, slots, ds, env).imported;
      DistinctPlaces(ps) && forall p :: p in ps ==> FromDecision(p, slots, ds, revs)
  {
    if revs != [] {
      var n := |revs| - 1;
      RunImports(revs[..n], slots, ds, env);
      GroupImports(slots, ds, revs[n], env);
      var old_ := RunGroups(revs[..n], slots, ds, env).imported;
      var new_ := Imports(BuiltCells(CellsAt(slots, ds, revs[n]), revs[n], env), revs[n], env);
      forall p | p in old_ ensures FromDecision(p, slots, ds, revs) {
        var i :| 0 <= i < |ds| && i < |slots| && ds[i].action == Build && ds[i].revision in revs[..n]
                 && slots[i].Decided? && p == PackageOf(slots[i].cell, ds[i].revision);
      }
      forall p | p in new_ ensures FromDecision(p, slots, ds, revs) {
        var i :| 0 <= i < |ds| && i < |slots| && ds[i].action == Build && ds[i].revision in [revs[n]]
                 && slots[i].Decided? && p == PackageOf(slots[i].cell, ds[i].revision);
      }
      forall j, k | 0 <= j < |old_| && 0 <= k < |new_|
        ensures !SamePlace(old_[j].name, old_[j].arch, new_[k].name, new_[k].arch) {
        assert old_[j] in old_ && new_[k] in new_;
        DifferentGroups(old_[j], new_[k], slots, ds, revs);
      }
    }
  }

  /** The slot a package was built for. */
  lemma {:induction false} SlotOf(p: Package, slots: seq<Slot>, ds: seq<Decision>, revs: seq<nat>) returns (i: nat)
    requires FromDecision(p, slots, ds, revs)
    ensures i < |ds| && i < |slots| && ds[i].revision in revs && slots[i].Decided?
    ensures p.name == slots[i].cell.name && p.arch == slots[i].cell.art.arch
  {
    i :| 0 <= i < |ds| && i < |slots| && ds[i].action == Build && ds[i].revision in revs
         && slots[i].Decided? && p == PackageOf(slots[i].cell, ds[i].revision);
  }

  lemma {:induction false} DifferentSlots(slots: seq<Slot>, i: nat, j: nat)
    requires PlanOk(slots) && i < |slots| && j < |slots| && i != j && slots[i].Decided? && slots[j].Decided?
    ensures !SamePlace(slots[i].cell.name, slots[i].cell.art.arch, slots[j].cell.name, slots[j].cell.art.arch)
  {
  }

  lemma {:induction false} DifferentGroups(p: Package, q: Package, slots: seq<Slot>, ds: seq<Decision>, revs: seq<nat>)
    requires PlanOk(slots) && Ascending(revs) && revs != []
    requires FromDecision(p, slots, ds, revs[..|revs| - 1]) && FromDecision(q, slots, ds, [revs[|revs| - 1]])
    ensures !SamePlace(p.name, p.arch, q.name, q.arch)
  {
    var i := SlotOf(p, slots, ds, revs[..|revs| - 1]);
    var j := SlotOf(q, slots, ds, [revs[|revs| - 1]]);
    assert ds[i].revision < ds[j].revision;
    DifferentSlots(slots, i, j);
  }

  // ----- exactly what a run imports -----------------------------------------

  /** A `cooper build` invocation of one of these revisions fails as a whole. */
  predicate SomeCallFails(revs: seq<nat>, env: Env) { exists i :: 0 <= i < |revs| && env.callFails(revs[i]) }

  lemma {:induction false} LastCallAborts(revs: seq<nat>, slots: seq<Slot>, ds: seq<Decision>, env: Env)
    requires revs != []
    ensures var n := |revs| - 1;
      RunGroups(revs, slots, ds, env).aborted
      <==> RunGroups(revs[..n], slots, ds, env).aborted || env.callFails(revs[n])
  {
  }

  lemma {:induction false} LastCallFails(revs: seq<nat>, env: Env)
    requires revs != []
    ensures var n := |revs| - 1; SomeCallFails(revs, env) <==> SomeCallFails(revs[..n], env) || env.callFails(revs[n])
  {
    var n := |revs| - 1;
    assert forall i :: 0 <= i < n ==> revs[..n][i] == revs[i];
  }

  /** The run is cut short exactly then. */
  lemma {:induction false} AbortedExactly(revs: seq<nat>, slots: seq<Slot>, ds: seq<Decision>, env: Env)
    ensures RunGroups(revs, slots, ds, env).aborted <==> SomeCallFails(revs, env)
  {
    if revs != [] {
      AbortedExactly(revs[..|revs| - 1], slots, ds, env);
      LastCallAborts(revs, slots, ds, env);
      LastCallFails(revs, env);
    }
  }

  /** An artifact that is built and imported when its turn comes. */
  predicate Goes(revision: nat, c: Cell, env: Env) {
    env.outcome(revision, c) == Built && !env.importFails(revision, c)
  }

  /** Its turn comes: no call up to its own revision fails. */
  predicate Lands(revs: seq<nat>, revision: nat, c: Cell, env: Env) {
    (forall r :: r in revs && r <= revision ==> !env.callFails(r)) && Goes(revision, c, env)
  }

  lemma {:induction false} ImportedCell(built: seq<Cell>, revision: nat, env: Env, p: Package) returns (c: Cell)
    requires p in Imports(built, revision, env)
    ensures c in built && !env.importFails(revision, c) && p == PackageOf(c, revision)
  {
    var n := |built| - 1;
    if p in Imports(built[..n], revision, env) {
      c := ImportedCell(built[..n], revision, env, p);
    } else {
      c := built[n];
    }
  }

  lemma {:induction false} SameCell(cells: seq<Cell>, c: Cell, d: Cell)
    requires DistinctCells(cells) && c in cells && d in cells && SamePlace(c.name, c.art.arch, d.name, d.art.arch)
    ensures c == d
  {
    var i :| 0 <= i < |cells| && cells[i] == c;
    var j :| 0 <= j < |cells| && cells[j] == d;
    assert i == j;
  }

  lemma {:induction false} GroupImportsExactly(cells: seq<Cell>, revision: nat, env: Env, c: Cell)
    requires DistinctCells(cells) && c in cells
    ensures PackageOf(c, revision) in Imports(BuiltCells(cells, revision, env), revision, env)
      <==> Goes(revision, c, env)
  {
    var built := BuiltCells(cells, revision, env);
    BuiltCellsMembers(cells, revision, env);
    ImportsMembers(built, revision, env);
    if PackageOf(c, revision) in Imports(built, revision, env) {
      var d := ImportedCell(built, revision, env, PackageOf(c, revision));
      SameCell(cells, c, d);
    }
  }

  lemma {:induction false} OwnGroupImports(slots: seq<Slot>, ds: seq<Decision>, env: Env, i: nat)
    requires PlanOk(slots) && Follows(slots, ds) && i < |ds| && ds[i].action == Build
    ensures var c, rev := slots[i].cell, ds[i].revision;
      PackageOf(c, rev) in Imports(BuiltCells(CellsAt(slots, ds, rev), rev, env), rev, env) <==> Goes(rev, c, env)
  {
    CallGetsItsDecisions(slots, ds, ds[i].revision);
    SelectDistinct(slots, ds, ds[i].revision);
    EveryBuildInOneCall(slots, ds, i, ds[i].revision);
    GroupImportsExactly(CellsAt(slots, ds, ds[i].revision), ds[i].revision, env, slots[i].cell);
  }

  lemma {:induction false} OtherGroupImports(slots: seq<Slot>, ds: seq<Decision>, env: Env, i: nat, revision: nat)
    requires PlanOk(slots) && Follows(slots, ds) && i < |ds| && ds[i].action == Build && revision != ds[i].revision
    ensures PackageOf(slots[i].cell, ds[i].revision)
      !in Imports(BuiltCells(CellsAt(slots, ds, revision), revision, env), revision, env)
  {
    var p := PackageOf(slots[i].cell, ds[i].revision);
    GroupImports(slots, ds, revision, env);
    if p in Imports(BuiltCells(CellsAt(slots, ds, revision), revision, env), revision, env) {
      var j := SlotOf(p, slots, ds, [revision]);
      DifferentSlots(slots, i, j);
    }
  }

  lemma {:induction false} LastGroupRuns(revs: seq<nat>, slots: seq<Slot>, ds: seq<Decision>, env: Env)
    requires revs != []
    ensures var n := |revs| - 1;
      RunGroups(revs, slots, ds, env).imported == RunGroups(revs[..n], slots, ds, env).imported
        + if RunGroups(revs[..n], slots, ds, env).aborted || env.callFails(revs[n]) then []
          else Imports(BuiltCells(CellsAt(slots, ds, revs[n]), revs[n], env), revs[n], env)
  {
  }

  /** A build decision's package is imported exactly when no call up to its revision fails,
      its artifact builds, and its import succeeds. */
  lemma {:induction false} ImportedExactly(revs: seq<nat>, slots: seq<Slot>, ds: seq<Decision>, env: Env, i: nat)
    requires PlanOk(slots) && Follows(slots, ds) && Ascending(revs) && i < |ds| && ds[i].action == Build
    ensures PackageOf(slots[i].cell, ds[i].revision) in RunGroups(revs, slots, ds, env).imported
      <==> ds[i].revision in revs && Lands(revs, ds[i].revision, slots[i].cell, env)
  {
    if revs != [] {
      var n := |revs| - 1;
      var rev := ds[i].revision;
      ImportedExactly(revs[..n], slots, ds, env, i);
      LastGroupRuns(revs, slots, ds, env);
      AbortedExactly(revs[..n], slots, ds, env);
      if rev == revs[n] {
        OwnGroupImports(slots, ds, env, i);
        LastInTurn(revs, env);
      } else {
        OtherGroupImports(slots, ds, env, i, revs[n]);
        EarlierInTurn(revs, rev, slots[i].cell, env);
      }
    }
  }

  lemma {:induction false} LastInTurn(revs: seq<nat>, env: Env)
    requires revs != [] && Ascending(revs)
    ensures var n := |revs| - 1;
      && revs[n] !in revs[..n]
      && ((forall r :: r in revs && r <= revs[n] ==> !env.callFails(r))
          <==> !SomeCallFails(revs[..n], env) && !env.callFails(revs[n]))
  {
    var n := |revs| - 1;
    if forall r :: r in revs && r <= revs[n] ==> !env.callFails(r) {
      forall k | 0 <= k < n ensures !env.callFails(revs[..n][k]) { assert revs[k] in revs; }
    }
    if !SomeCallFails(revs[..n], env) && !env.callFails(revs[n]) {
      forall r | r in revs ensures !env.callFails(r) {
        var k :| 0 <= k < |revs| && revs[k] == r;
        if k < n { assert revs[..n][k] == r; }
      }
    }
  }

  lemma {:induction false} EarlierInTurn(revs: seq<nat>, revision: nat, c: Cell, env: Env)
    requires revs != [] && Ascending(revs) && revision != revs[|revs| - 1]
    ensures var n := |revs| - 1;
      revision in revs && Lands(revs, revision, c, env) <==> revision in revs[..n] && Lands(revs[..n], revision, c, env)
  {
    var n := |revs| - 1;
    assert revs == revs[..n] + [revs[n]];
    assert revision in revs ==> revision < revs[n];
    assert forall r :: r in revs && r <= revision && revision in revs ==> r in revs[..n];
  }

  // ----- nothing is evicted -------------------------------------------------

  predicate NoClash(repo: seq<Package>, p: Package) { forall e :: e in repo ==> !SameIdentity(e, p) }

  lemma {:induction false} WithoutNothing(repo: seq<Package>, p: Package)
    requires NoClash(repo, p)
    ensures Without(repo, p) == repo
  {
    if repo != [] {
      assert repo[0] in repo;
      WithoutNothing(repo[1..], p);
      assert repo == [repo[0]] + repo[1..];
    }
  }

  lemma {:induction false} AddAllAppends(repo: seq<Package>, ps: seq<Package>)
    requires DistinctPlaces(ps) && forall p :: p in ps ==> NoClash(repo, p)
    ensures AddAll(repo, ps) == repo + ps
  {
    if ps == [] {
      assert repo + [] == repo;
    } else {
      var n := |ps| - 1;
      AddAllAppends(repo, ps[..n]);
      assert ps[n] in ps;
      assert NoClash(repo + ps[..n], ps[n]);
      WithoutNothing(repo + ps[..n], ps[n]);
      assert repo + ps[..n] + [ps[n]] == repo + ps;
    }
  }

  /** What a decision to build says, for the artifact of slot i. */
  lemma {:induction false} BuildDecision(repo: seq<Package>, env: Env, slots: seq<Slot>, ds: seq<Decision>, i: nat)
    requires DecideAll(QuerierOf(repo, env), slots) == Ok(ds)
    requires i < |slots| && i < |ds| && slots[i].Decided? && ds[i].action == Build && Base(slots[i].cell) != ""
    ensures var c := slots[i].cell;
      && !HashExists(repo, c.art.hash)
      && ds[i] == Judge(ListByNameArch(repo, c.name, c.art.arch), c.name, c.art, Base(c))
  {
    DecideAllPointwise(QuerierOf(repo, env), slots);
    assert DecideSlot(QuerierOf(repo, env), slots[i]) == Ok(ds[i]);
  }

  /** Whatever the repository holds, a run evicts nothing: it appends its imports. */
  lemma {:induction false} RunOnlyAppends(repo: seq<Package>, plan: seq<PlanPackage>, env: Env)
    requires PlanOk(Slots(plan)) && BasesOk(Slots(plan))
    ensures var imported := Run(repo, plan, env, false).work.imported;
      AddAll(repo, imported) == repo + imported
  {
    var decided := DecideAll(QuerierOf(repo, env), Slots(plan));
    if decided.Ok? {
      var slots, ds := Slots(plan), decided.value;
      DecisionsFollow(QuerierOf(repo, env), slots);
      RunImports(Revisions(ds), slots, ds, env);
      var imported := RunGroups(Revisions(ds), slots, ds, env).imported;
      forall p | p in imported ensures NoClash(repo, p) {
        ImportIsNew(repo, env, slots, ds, p);
      }
      AddAllAppends(repo, imported);
    } else {
      AddAllAppends(repo, []);
    }
  }

  lemma {:induction false} ImportIsNew(repo: seq<Package>, env: Env, slots: seq<Slot>, ds: seq<Decision>, p: Package)
    requires DecideAll(QuerierOf(repo, env), slots) == Ok(ds) && BasesOk(slots)
    requires FromDecision(p, slots, ds, Revisions(ds))
    ensures NoClash(repo, p) && forall e :: e in repo ==> e.hash != p.hash
  {
    var i :| 0 <= i < |ds| && i < |slots| && ds[i].action == Build && ds[i].revision in Revisions(ds)
             && slots[i].Decided? && p == PackageOf(slots[i].cell, ds[i].revision);
    var c := slots[i].cell;
    BuildDecision(repo, env, slots, ds, i);
    forall e | e in repo && e.name == p.name && e.arch == p.arch ensures e.version != p.version {
      ChosenVersionIsNew(ListByNameArch(repo, c.name, c.art.arch), c.name, c.art, Base(c), e);
    }
  }

  // ----- the invariant of a repository filled by drayman alone --------------

  /** A version drayman publishes: a base, bare or with an integer revision. */
  ghost predicate Published(v: string) {
    IsBase(Upstream(v)) && exists r: nat :: v == VersionString(Upstream(v), r)
  }

  ghost function RevisionNumber(v: string): nat
    requires Published(v)
  {
    var r: nat :| v == VersionString(Upstream(v), r);
    r
  }

  predicate SamePackage(p: Package, q: Package) { SamePlace(p.name, p.arch, q.name, q.arch) }

  /** Within each (name, arch), every later import is strictly newer. */
  predicate StrictlyMonotone(repo: seq<Package>) {
    forall i, j :: 0 <= i < j < |repo| && SamePackage(repo[i], repo[j]) ==>
      Compare(repo[i].version, repo[j].version) < 0
  }

  /** q carries the debian-revision just below p's, on the same base. */
  ghost predicate IsPredecessor(q: Package, p: Package) {
    && SamePackage(q, p) && Published(p.version) && RevisionNumber(p.version) > 0
    && q.version == VersionString(Upstream(p.version), RevisionNumber(p.version) - 1)
  }

  ghost predicate Revised(p: Package) { Published(p.version) && RevisionNumber(p.version) > 0 }

  /** For each (name, arch, base) the revisions are bare, 1, ..., k, without a gap: a
      revised version never comes before the one it was bumped from. */
  ghost predicate GapFree(repo: seq<Package>) {
    forall j :: 0 <= j < |repo| && Revised(repo[j]) ==> exists i :: 0 <= i < j && IsPredecessor(repo[i], repo[j])
  }

  predicate DistinctHashes(repo: seq<Package>) {
    forall i, j :: 0 <= i < j < |repo| && SamePackage(repo[i], repo[j]) ==> repo[i].hash != repo[j].hash
  }

  ghost predicate Inv(repo: seq<Package>) {
    && (forall p :: p in repo ==> Published(p.version))
    && StrictlyMonotone(repo) && GapFree(repo) && DistinctHashes(repo)
  }

  lemma {:induction false} PublishedRevision(base: string, r: nat)
    requires IsBase(base)
    ensures var v := VersionString(base, r);
      Published(v) && Upstream(v) == base && RevisionNumber(v) == r && RevisionAt(v, base) == Some(r)
  {
    var v := VersionString(base, r);
    SplitRevised(base, r);
    RevisionOfRevised(base, r);
    VersionStringInjective(base, r, base, RevisionNumber(v));
  }

  lemma {:induction false} PublishedIsSound(v: string)
    requires Published(v)
    ensures SoundVersion(v)
  {
    var base, r := Upstream(v), RevisionNumber(v);
    ItoaValue(r);
    assert forall p: nat :: p < |v| ==> (StrayNul(v, p) ==> p < |base| && StrayNul(base, p));
  }

  lemma {:induction false} NotRegressed(existing: seq<Package>, name: string, art: Artifact, base: string, e: Package)
    requires IsBase(base) && e in existing && forall p :: p in existing ==> Published(p.version)
    requires Judge(existing, name, art, base).action == Build
    ensures Compare(Upstream(e.version), base) <= 0
  {
    forall p | p in existing ensures SoundVersion(p.version) { PublishedIsSound(p.version); }
    RegressionMeaning(existing, name, art, base);
    CompareAntisymmetric(Upstream(e.version), base);
  }

  lemma {:induction false} RevisionOfPublished(v: string)
    requires Published(v)
    ensures RevisionAt(v, Upstream(v)) == Some(RevisionNumber(v))
  {
    PublishedRevision(Upstream(v), RevisionNumber(v));
  }

  lemma {:induction false} SameBaseIsBelow(
    existing: seq<Package>, name: string, art: Artifact, base: string, e: Package)
    requires IsBase(base) && e in existing && Published(e.version) && Upstream(e.version) == base
    requires Judge(existing, name, art, base).action == Build
    ensures Compare(Upstream(e.version), base) == 0
    ensures RevisionNumber(e.version) < Judge(existing, name, art, base).revision
  {
    CompareReflexive(base);
    RevisionOfPublished(e.version);
    RevisionMeaning(existing, name, art, base);
  }

  lemma {:induction false} PublishedCompared(v: string, base: string, r: nat)
    requires Published(v) && IsBase(base)
    ensures Compare(v, VersionString(base, r))
      == if Compare(Upstream(v), base) != 0 then Compare(Upstream(v), base) else Sign(RevisionNumber(v) - r)
  {
    CompareRevised(Upstream(v), RevisionNumber(v), base, r);
  }

  lemma {:induction false} BaseThenRevision(order: int, bases: int, k: nat, r: nat, same: bool)
    requires order == if bases != 0 then bases else Sign(k - r)
    requires bases <= 0 && (same ==> bases == 0 && k < r)
    ensures order < 0 <==> !(bases == 0 && !same && k >= r)
  {
  }

  /** The chosen version against one existing version, in a repository of drayman's own
      versions: older unless the same base is there under another spelling. */
  lemma {:induction false} ExistingAgainstChosen(
    existing: seq<Package>, name: string, art: Artifact, base: string, e: Package)
    requires IsBase(base) && e in existing && forall p :: p in existing ==> Published(p.version)
    requires Judge(existing, name, art, base).action == Build
    ensures var r := Judge(existing, name, art, base).revision;
      Compare(e.version, VersionString(base, r)) < 0 <==>
      !(Compare(Upstream(e.version), base) == 0 && Upstream(e.version) != base && RevisionNumber(e.version) >= r)
  {
    var r := Judge(existing, name, art, base).revision;
    NotRegressed(existing, name, art, base, e);
    if Upstream(e.version) == base { SameBaseIsBelow(existing, name, art, base, e); }
    PublishedCompared(e.version, base, r);
    BaseThenRevision(Compare(e.version, VersionString(base, r)), Compare(Upstream(e.version), base),
                     RevisionNumber(e.version), r, Upstream(e.version) == base);
  }

  /** The very base is present with a revision of at least k. */
  predicate Outrevised(existing: seq<Package>, base: string, k: nat) {
    exists q :: q in existing && RevisionAt(q.version, base).Some? && RevisionAt(q.version, base).value >= k
  }

  lemma {:induction false} AboveExactly(existing: seq<Package>, base: string, r: nat, k: nat)
    requires forall p :: p in existing && RevisionAt(p.version, base).Some? ==> RevisionAt(p.version, base).value < r
    requires r > 0 ==> exists p :: p in existing && RevisionAt(p.version, base) == Some(r - 1)
    ensures k < r <==> Outrevised(existing, base, k)
  {
  }

  /** The same version under another spelling, as 1.00 is of 1.0. */
  predicate Respelled(version: string, base: string) {
    Compare(Upstream(version), base) == 0 && Upstream(version) != base
  }

  predicate OlderThan(chosen: string, e: Package) { Compare(e.version, chosen) < 0 }

  /** If e is a respelling of the base, the very base is there too with a revision no smaller. */
  ghost predicate Covered(existing: seq<Package>, base: string, e: Package) {
    Published(e.version) && Respelled(e.version, base) ==> Outrevised(existing, base, RevisionNumber(e.version))
  }

  lemma {:induction false} JudgedAboveExactly(existing: seq<Package>, name: string, art: Artifact, base: string, k: nat)
    requires Judge(existing, name, art, base).action == Build
    ensures k < Judge(existing, name, art, base).revision <==> Outrevised(existing, base, k)
  {
    RevisionMeaning(existing, name, art, base);
    AboveExactly(existing, base, Judge(existing, name, art, base).revision, k);
  }

  lemma {:induction false} NewerThanOneExactly(
    existing: seq<Package>, name: string, art: Artifact, base: string, e: Package)
    requires IsBase(base) && e in existing && forall p :: p in existing ==> Published(p.version)
    requires Judge(existing, name, art, base).action == Build
    ensures OlderThan(VersionString(base, Judge(existing, name, art, base).revision), e) <==> Covered(existing, base, e)
  {
    ExistingAgainstChosen(existing, name, art, base, e);
    JudgedAboveExactly(existing, name, art, base, RevisionNumber(e.version));
  }

  /** Exactly when a build is strictly newer than everything present. */
  lemma {:induction false} StrictlyNewerExactly(existing: seq<Package>, name: string, art: Artifact, base: string)
    requires IsBase(base) && forall p :: p in existing ==> Published(p.version)
    requires Judge(existing, name, art, base).action == Build
    ensures var chosen := VersionString(base, Judge(existing, name, art, base).revision);
      (forall e :: e in existing ==> OlderThan(chosen, e))
      <==> (forall e :: e in existing ==> Covered(existing, base, e))
  {
    var chosen := VersionString(base, Judge(existing, name, art, base).revision);
    forall e | e in existing ensures OlderThan(chosen, e) <==> Covered(existing, base, e) {
      NewerThanOneExactly(existing, name, art, base, e);
    }
  }

  /** A bare version whose respelling is planned gets a build that is not newer. */
  lemma {:induction false} RespelledIsNotNewer(name: string, art: Artifact, e: Package, base: string)
    requires IsBase(e.version) && IsBase(base) && e.version != base && Compare(e.version, base) == 0
    ensures Published(e.version) && Judge([e], name, art, base).action == Build
    ensures !OlderThan(VersionString(base, Judge([e], name, art, base).revision), e)
  {
    PublishedRevision(e.version, 0);
    CompareAntisymmetric(e.version, base);
    OneScanned(e, base);
    BuildsBare([e], name, art, base);
  }

  /** So it is with 1.0 present and 1.00 planned. */
  lemma {:induction false} SameVersionTwice(name: string, art: Artifact, e: Package, base: string)
    requires e.version == "1.0" && base == "1.00"
    ensures Judge([e], name, art, base).action == Build
    ensures !OlderThan(VersionString(base, Judge([e], name, art, base).revision), e)
  {
    RespelledEqual();
    RespelledBases();
    RespelledIsNotNewer(name, art, e, base);
  }

  /** The guard of the theorem, to be checked before a run: whatever is there under another
      spelling of an artifact's base ("1.0" for "1.00"), the very base is there too with a
      revision no smaller. */
  ghost predicate CellCovered(repo: seq<Package>, c: Cell) {
    var existing := ListByNameArch(repo, c.name, c.art.arch);
    forall e :: e in existing ==> Covered(existing, Base(c), e)
  }

  ghost predicate RespellingsCovered(repo: seq<Package>, slots: seq<Slot>) {
    forall i :: 0 <= i < |slots| && slots[i].Decided? ==> CellCovered(repo, slots[i].cell)
  }

  /** What one import needs to keep the invariant. */
  ghost predicate Extends(repo: seq<Package>, p: Package) {
    && Published(p.version)
    && (forall e :: e in repo && SamePackage(e, p) ==> Compare(e.version, p.version) < 0 && e.hash != p.hash)
    && (Revised(p) ==> exists q :: q in repo && IsPredecessor(q, p))
  }

  /** The import of an artifact's chosen version keeps it exactly when the artifact's
      respellings are covered. */
  lemma {:induction false} ChosenExtendsExactly(repo: seq<Package>, c: Cell, rev: nat)
    requires Inv(repo) && IsBase(Base(c)) && !HashExists(repo, c.art.hash)
    requires var d := Judge(ListByNameArch(repo, c.name, c.art.arch), c.name, c.art, Base(c));
      d.action == Build && d.revision == rev
    ensures Extends(repo, PackageOf(c, rev)) <==> CellCovered(repo, c)
  {
    var p, base, existing := PackageOf(c, rev), Base(c), ListByNameArch(repo, c.name, c.art.arch);
    PublishedRevision(base, rev);
    StrictlyNewerExactly(existing, c.name, c.art, base);
    ChosenHasPredecessor(repo, c, rev);
    NewerThanItsOwn(repo, existing, p);
  }

  lemma {:induction false} NewerThanItsOwn(repo: seq<Package>, existing: seq<Package>, p: Package)
    requires existing == ListByNameArch(repo, p.name, p.arch) && forall e :: e in repo ==> e.hash != p.hash
    requires Published(p.version) && (Revised(p) ==> exists q :: q in repo && IsPredecessor(q, p))
    ensures Extends(repo, p) <==> forall e :: e in existing ==> OlderThan(p.version, e)
  {
    forall e | e in repo ensures SamePackage(e, p) <==> e in existing {}
  }

  lemma {:induction false} ChosenHasPredecessor(repo: seq<Package>, c: Cell, rev: nat)
    requires Inv(repo) && IsBase(Base(c))
    requires Judge(ListByNameArch(repo, c.name, c.art.arch), c.name, c.art, Base(c)).revision == rev
    ensures var p := PackageOf(c, rev);
      Published(p.version) && (Revised(p) ==> exists q :: q in repo && IsPredecessor(q, p))
  {
    PublishedRevision(Base(c), rev);
    if rev > 0 {
      var q := PriorPackage(ListByNameArch(repo, c.name, c.art.arch), c);
      assert IsPredecessor(q, PackageOf(c, rev));
    }
  }

  lemma {:induction false} PriorPackage(existing: seq<Package>, c: Cell) returns (q: Package)
    requires forall e :: e in existing ==> Published(e.version)
    requires Judge(existing, c.name, c.art, Base(c)).revision > 0
    ensures q in existing
    ensures q.version == VersionString(Base(c), Judge(existing, c.name, c.art, Base(c)).revision - 1)
  {
    var (max, prior) := MaxRevision(existing, Base(c));
    MaxRevisionIsMaximum(existing, Base(c));
    PublishedAt(prior.version, Base(c), max);
    q := prior;
  }

  lemma {:induction false} PublishedAt(v: string, base: string, r: nat)
    requires Published(v) && RevisionAt(v, base) == Some(r)
    ensures v == VersionString(base, r)
  {
    PublishedRevision(base, RevisionNumber(v));
  }

  lemma {:induction false} ImportExtends(
    repo: seq<Package>, env: Env, slots: seq<Slot>, ds: seq<Decision>, p: Package)
    requires Inv(repo) && BasesOk(slots) && RespellingsCovered(repo, slots)
    requires DecideAll(QuerierOf(repo, env), slots) == Ok(ds) && FromDecision(p, slots, ds, Revisions(ds))
    ensures Extends(repo, p)
  {
    var i :| 0 <= i < |ds| && i < |slots| && ds[i].action == Build && ds[i].revision in Revisions(ds)
             && slots[i].Decided? && p == PackageOf(slots[i].cell, ds[i].revision);
    BuildDecision(repo, env, slots, ds, i);
    ChosenExtendsExactly(repo, slots[i].cell, ds[i].revision);
  }

  lemma {:induction false} AppendKeepsInv(repo: seq<Package>, ps: seq<Package>)
    requires Inv(repo) && DistinctPlaces(ps) && forall p :: p in ps ==> Extends(repo, p)
    ensures Inv(repo + ps)
  {
    if ps == [] {
      assert repo + ps == repo;
    } else {
      var n := |ps| - 1;
      AppendKeepsInv(repo, ps[..n]);
      assert ps[n] in ps;
      ExtendsMore(repo, ps[..n], ps[n]);
      AppendOneKeepsInv(repo + ps[..n], ps[n]);
      assert repo + ps == repo + ps[..n] + [ps[n]];
    }
  }

  lemma {:induction false} ExtendsMore(repo: seq<Package>, others: seq<Package>, p: Package)
    requires Extends(repo, p) && forall o :: o in others ==> !SamePackage(o, p)
    ensures Extends(repo + others, p)
  {
    if Revised(p) {
      var q :| q in repo && IsPredecessor(q, p);
      assert q in repo + others;
    }
  }

  lemma {:induction false} AppendOneKeepsInv(repo: seq<Package>, p: Package)
    requires Inv(repo) && Extends(repo, p)
    ensures Inv(repo + [p])
  {
    AppendOneKeepsOrder(repo, p);
    AppendOneKeepsGapFree(repo, p);
  }

  lemma {:induction false} AppendOneKeepsOrder(repo: seq<Package>, p: Package)
    requires StrictlyMonotone(repo) && DistinctHashes(repo)
    requires forall e :: e in repo && SamePackage(e, p) ==> Compare(e.version, p.version) < 0 && e.hash != p.hash
    ensures StrictlyMonotone(repo + [p]) && DistinctHashes(repo + [p])
  {
    assert forall i :: 0 <= i < |repo| ==> repo[i] in repo;
  }

  lemma {:induction false} AppendOneKeepsGapFree(repo: seq<Package>, p: Package)
    requires GapFree(repo) && (Revised(p) ==> exists q :: q in repo && IsPredecessor(q, p))
    ensures GapFree(repo + [p])
  {
    var all := repo + [p];
    if Revised(p) {
      var q :| q in repo && IsPredecessor(q, p);
      var i :| 0 <= i < |repo| && repo[i] == q;
      assert IsPredecessor(all[i], all[|repo|]);
    }
    forall j | 0 <= j < |repo| && Revised(all[j]) ensures exists i :: 0 <= i < j && IsPredecessor(all[i], all[j]) {
      var i :| 0 <= i < j && IsPredecessor(repo[i], repo[j]);
      assert IsPredecessor(all[i], all[j]);
    }
  }

  /** One run keeps the invariant, whatever fails in it. */
  lemma {:induction false} RunKeepsInv(repo: seq<Package>, plan: seq<PlanPackage>, env: Env, dryRun: bool)
    requires Inv(repo)
    requires PlanOk(Slots(plan)) && BasesOk(Slots(plan)) && RespellingsCovered(repo, Slots(plan))
    ensures var imported := Run(repo, plan, env, dryRun).work.imported;
      AddAll(repo, imported) == repo + imported && Inv(repo + imported)
  {
    var decided := DecideAll(QuerierOf(repo, env), Slots(plan));
    if decided.Ok? && !dryRun {
      var slots, ds := Slots(plan), decided.value;
      RunOnlyAppends(repo, plan, env);
      DecisionsFollow(QuerierOf(repo, env), slots);
      RunImports(Revisions(ds), slots, ds, env);
      var imported := RunGroups(Revisions(ds), slots, ds, env).imported;
      forall p | p in imported ensures Extends(repo, p) { ImportExtends(repo, env, slots, ds, p); }
      AppendKeepsInv(repo, imported);
    } else {
      AddAllAppends(repo, []);
      AppendKeepsInv(repo, []);
    }
  }

  /** Slot i is one to build whose respellings are not covered. */
  ghost predicate BuildsUncovered(repo: seq<Package>, slots: seq<Slot>, ds: seq<Decision>, i: nat) {
    && i < |ds| && i < |slots| && ds[i].action == Build && slots[i].Decided?
    && !CellCovered(repo, slots[i].cell)
  }

  /** And nothing keeps it from being imported. */
  ghost predicate LandsUncovered(repo: seq<Package>, slots: seq<Slot>, ds: seq<Decision>, env: Env, i: nat) {
    BuildsUncovered(repo, slots, ds, i) && Lands(Revisions(ds), ds[i].revision, slots[i].cell, env)
  }

  lemma {:induction false} ImportExtendsExactly(
    repo: seq<Package>, env: Env, slots: seq<Slot>, ds: seq<Decision>, i: nat)
    requires Inv(repo) && BasesOk(slots) && DecideAll(QuerierOf(repo, env), slots) == Ok(ds)
    requires i < |ds| && i < |slots| && ds[i].action == Build && slots[i].Decided?
    ensures Extends(repo, PackageOf(slots[i].cell, ds[i].revision)) <==> CellCovered(repo, slots[i].cell)
  {
    BuildDecision(repo, env, slots, ds, i);
    ChosenExtendsExactly(repo, slots[i].cell, ds[i].revision);
  }

  lemma {:induction false} ImportedKeepOrder(repo: seq<Package>, imported: seq<Package>, p: Package)
    requires Inv(repo + imported) && p in imported && Published(p.version)
    requires Revised(p) ==> exists q :: q in repo && IsPredecessor(q, p)
    ensures Extends(repo, p)
  {
    var all := repo + imported;
    var k :| 0 <= k < |imported| && imported[k] == p;
    assert all[|repo| + k] == p;
    forall e | e in repo && SamePackage(e, p) ensures Compare(e.version, p.version) < 0 && e.hash != p.hash {
      var j :| 0 <= j < |repo| && repo[j] == e;
      assert all[j] == e;
    }
  }

  lemma {:induction false} ImportHasPredecessor(
    repo: seq<Package>, env: Env, slots: seq<Slot>, ds: seq<Decision>, i: nat)
    requires Inv(repo) && BasesOk(slots) && DecideAll(QuerierOf(repo, env), slots) == Ok(ds)
    requires i < |ds| && i < |slots| && ds[i].action == Build && slots[i].Decided?
    ensures var p := PackageOf(slots[i].cell, ds[i].revision);
      Published(p.version) && (Revised(p) ==> exists q :: q in repo && IsPredecessor(q, p))
  {
    BuildDecision(repo, env, slots, ds, i);
    ChosenHasPredecessor(repo, slots[i].cell, ds[i].revision);
  }

  lemma {:induction false} LandedIsImported(
    repo: seq<Package>, env: Env, slots: seq<Slot>, ds: seq<Decision>, i: nat)
    requires PlanOk(slots) && Follows(slots, ds) && i < |ds| && ds[i].action == Build
    ensures PackageOf(slots[i].cell, ds[i].revision) in RunGroups(Revisions(ds), slots, ds, env).imported
      <==> Lands(Revisions(ds), ds[i].revision, slots[i].cell, env)
  {
    EveryBuildInOneCall(slots, ds, i, ds[i].revision);
    ImportedExactly(Revisions(ds), slots, ds, env, i);
  }

  lemma {:induction false} LandedExtend(repo: seq<Package>, slots: seq<Slot>, ds: seq<Decision>, env: Env, p: Package)
    requires Inv(repo) && PlanOk(slots) && BasesOk(slots) && Follows(slots, ds)
    requires DecideAll(QuerierOf(repo, env), slots) == Ok(ds)
    requires p in RunGroups(Revisions(ds), slots, ds, env).imported && FromDecision(p, slots, ds, Revisions(ds))
    requires forall i: nat :: !LandsUncovered(repo, slots, ds, env, i)
    ensures Extends(repo, p)
  {
    var i :| 0 <= i < |ds| && i < |slots| && ds[i].action == Build && ds[i].revision in Revisions(ds)
             && slots[i].Decided? && p == PackageOf(slots[i].cell, ds[i].revision);
    LandedIsImported(repo, env, slots, ds, i);
    assert !LandsUncovered(repo, slots, ds, env, i);
    ImportExtendsExactly(repo, env, slots, ds, i);
  }

  lemma {:induction false} LandedUncoveredBreaks(
    repo: seq<Package>, slots: seq<Slot>, ds: seq<Decision>, env: Env, i: nat)
    requires Inv(repo) && PlanOk(slots) && BasesOk(slots) && Follows(slots, ds)
    requires DecideAll(QuerierOf(repo, env), slots) == Ok(ds) && LandsUncovered(repo, slots, ds, env, i)
    ensures !Inv(repo + RunGroups(Revisions(ds), slots, ds, env).imported)
  {
    var imported := RunGroups(Revisions(ds), slots, ds, env).imported;
    LandedIsImported(repo, env, slots, ds, i);
    ImportHasPredecessor(repo, env, slots, ds, i);
    ImportExtendsExactly(repo, env, slots, ds, i);
    if Inv(repo + imported) { ImportedKeepOrder(repo, imported, PackageOf(slots[i].cell, ds[i].revision)); }
  }

  /** The exact condition: a run keeps the invariant if and only if no artifact that lands
      has a respelling that is not covered. */
  lemma {:induction false} RunKeepsInvExactly(repo: seq<Package>, plan: seq<PlanPackage>, env: Env, ds: seq<Decision>)
    requires Inv(repo) && PlanOk(Slots(plan)) && BasesOk(Slots(plan))
    requires DecideAll(QuerierOf(repo, env), Slots(plan)) == Ok(ds)
    ensures Inv(AddAll(repo, Run(repo, plan, env, false).work.imported))
      <==> forall i: nat :: !LandsUncovered(repo, Slots(plan), ds, env, i)
  {
    var slots, imported := Slots(plan), RunGroups(Revisions(ds), Slots(plan), ds, env).imported;
    RunOnlyAppends(repo, plan, env);
    DecisionsFollow(QuerierOf(repo, env), slots);
    RunImports(Revisions(ds), slots, ds, env);
    if forall i: nat :: !LandsUncovered(repo, slots, ds, env, i) {
      forall p | p in imported ensures Extends(repo, p) { LandedExtend(repo, slots, ds, env, p); }
      AppendKeepsInv(repo, imported);
    } else {
      var i: nat :| LandsUncovered(repo, slots, ds, env, i);
      LandedUncoveredBreaks(repo, slots, ds, env, i);
    }
  }

  // ----- whatever may happen ------------------------------------------------

  /** A backend that answers every query. */
  function Calm(repo: seq<Package>): Querier { Querier(repo, _ => false, (_, _) => false) }

  lemma {:induction false} QueriesOnlyFail(q: Querier, slots: seq<Slot>)
    requires DecideAll(q, slots).Ok?
    ensures DecideAll(Calm(q.repo), slots) == DecideAll(q, slots)
  {
    if slots != [] {
      QueriesOnlyFail(q, slots[1..]);
      SlotOnlyFails(q, slots[0]);
    }
  }

  lemma {:induction false} SlotOnlyFails(q: Querier, s: Slot)
    requires DecideSlot(q, s).Ok?
    ensures DecideSlot(Calm(q.repo), s) == DecideSlot(q, s)
  {
  }

  ghost predicate KeepsInv(repo: seq<Package>, plan: seq<PlanPackage>, env: Env) {
    Inv(AddAll(repo, Run(repo, plan, env, false).work.imported))
  }

  /** Everything succeeds. */
  const FINE: Env := Env(_ => false, (_, _) => false, _ => false, (_, _) => Built, (_, _) => false, false)

  lemma {:induction false} DecidedKeepsInv(repo: seq<Package>, plan: seq<PlanPackage>, env: Env, ds: seq<Decision>)
    requires Inv(repo) && PlanOk(Slots(plan)) && BasesOk(Slots(plan))
    requires DecideAll(Calm(repo), Slots(plan)) == Ok(ds) && forall i: nat :: !BuildsUncovered(repo, Slots(plan), ds, i)
    ensures KeepsInv(repo, plan, env)
  {
    if DecideAll(QuerierOf(repo, env), Slots(plan)).Ok? {
      QueriesOnlyFail(QuerierOf(repo, env), Slots(plan));
      assert forall i: nat :: LandsUncovered(repo, Slots(plan), ds, env, i) ==>
        BuildsUncovered(repo, Slots(plan), ds, i);
      RunKeepsInvExactly(repo, plan, env, ds);
    } else {
      assert AddAll(repo, []) == repo;
    }
  }

  lemma {:induction false} UndecidedKeepsInv(repo: seq<Package>, plan: seq<PlanPackage>, env: Env)
    requires Inv(repo) && DecideAll(Calm(repo), Slots(plan)).Err?
    ensures KeepsInv(repo, plan, env)
  {
    if DecideAll(QuerierOf(repo, env), Slots(plan)).Ok? { QueriesOnlyFail(QuerierOf(repo, env), Slots(plan)); }
    assert AddAll(repo, []) == repo;
  }

  lemma {:induction false} FineRunLands(repo: seq<Package>, plan: seq<PlanPackage>, ds: seq<Decision>, i: nat)
    requires Inv(repo) && PlanOk(Slots(plan)) && BasesOk(Slots(plan))
    requires DecideAll(Calm(repo), Slots(plan)) == Ok(ds) && BuildsUncovered(repo, Slots(plan), ds, i)
    ensures !KeepsInv(repo, plan, FINE)
  {
    SameQuerier(repo);
    RunKeepsInvExactly(repo, plan, FINE, ds);
    assert LandsUncovered(repo, Slots(plan), ds, FINE, i);
  }

  lemma {:induction false} SameQuerier(repo: seq<Package>)
    ensures forall slots :: DecideAll(QuerierOf(repo, FINE), slots) == DecideAll(Calm(repo), slots)
  {
    forall slots ensures DecideAll(QuerierOf(repo, FINE), slots) == DecideAll(Calm(repo), slots) {
      FineQueries(repo, slots);
    }
  }

  lemma {:induction false} FineQueries(repo: seq<Package>, slots: seq<Slot>)
    ensures DecideAll(QuerierOf(repo, FINE), slots) == DecideAll(Calm(repo), slots)
  {
    if slots != [] {
      FineQueries(repo, slots[1..]);
      FineQuery(repo, slots[0]);
    }
  }

  lemma {:induction false} FineQuery(repo: seq<Package>, s: Slot)
    ensures DecideSlot(QuerierOf(repo, FINE), s) == DecideSlot(Calm(repo), s)
  {
  }

  /** What can be said before a run: it keeps the invariant whatever fails in it, if and
      only if every artifact the plan decides to build has its respellings covered. */
  lemma {:induction false} AlwaysKeepsInvExactly(repo: seq<Package>, plan: seq<PlanPackage>)
    requires Inv(repo) && PlanOk(Slots(plan)) && BasesOk(Slots(plan))
    ensures (forall env: Env :: KeepsInv(repo, plan, env)) <==>
      match DecideAll(Calm(repo), Slots(plan))
      case Err => true
      case Ok(ds) => forall i: nat :: !BuildsUncovered(repo, Slots(plan), ds, i)
  {
    var decided := DecideAll(Calm(repo), Slots(plan));
    if decided.Err? {
      forall env: Env ensures KeepsInv(repo, plan, env) { UndecidedKeepsInv(repo, plan, env); }
    } else if forall i: nat :: !BuildsUncovered(repo, Slots(plan), decided.value, i) {
      forall env: Env ensures KeepsInv(repo, plan, env) { DecidedKeepsInv(repo, plan, env, decided.value); }
    } else {
      var i: nat :| BuildsUncovered(repo, Slots(plan), decided.value, i);
      FineRunLands(repo, plan, decided.value, i);
    }
  }

  /** A plan together with everything that happened while it was reconciled. */
  datatype Attempt = Attempt(plan: seq<PlanPackage>, env: Env, dryRun: bool)

  ghost function RepoAfter(attempts: seq<Attempt>): seq<Package> {
    if attempts == [] then []
    else
      var repo := RepoAfter(attempts[..|attempts| - 1]);
      var a := attempts[|attempts| - 1];
      AddAll(repo, Run(repo, a.plan, a.env, a.dryRun).work.imported)
  }

  /** Every plan was acceptable for the repository it met. */
  ghost predicate Acceptable(attempts: seq<Attempt>) {
    forall k :: 0 <= k < |attempts| ==>
      var slots := Slots(attempts[k].plan);
      PlanOk(slots) && BasesOk(slots) && RespellingsCovered(RepoAfter(attempts[..k]), slots)
  }

  /** Over every sequence of runs from an empty repository, with arbitrary build, import
      and publish failures: what was imported stays, in import order, and each (name,
      arch) sees strictly newer versions, gap-free revisions and no hash twice. */
  lemma {:induction false} EveryHistoryKeepsInv(attempts: seq<Attempt>)
    requires Acceptable(attempts)
    ensures Inv(RepoAfter(attempts))
  {
    if attempts != [] {
      AcceptablePrefix(attempts, |attempts| - 1);
      EveryHistoryKeepsInv(attempts[..|attempts| - 1]);
      LastRun(attempts);
    }
  }

  lemma {:induction false} AcceptablePrefix(attempts: seq<Attempt>, k: nat)
    requires Acceptable(attempts) && k <= |attempts|
    ensures Acceptable(attempts[..k])
  {
    assert forall j :: 0 <= j < k ==> attempts[..k][..j] == attempts[..j];
  }

  lemma {:induction false} LastRun(attempts: seq<Attempt>)
    requires Acceptable(attempts) && attempts != [] && Inv(RepoAfter(attempts[..|attempts| - 1]))
    ensures Inv(RepoAfter(attempts)) && RepoAfter(attempts[..|attempts| - 1]) <= RepoAfter(attempts)
  {
    var n := |attempts| - 1;
    RunKeepsInv(RepoAfter(attempts[..n]), attempts[n].plan, attempts[n].env, attempts[n].dryRun);
  }

  // ----- a guard on the plans alone -----------------------------------------

  predicate DecidedAt(attempts: seq<Attempt>, k: nat, i: nat) {
    k < |attempts| && i < |Slots(attempts[k].plan)| && Slots(attempts[k].plan)[i].Decided?
  }

  function CellAt(attempts: seq<Attempt>, k: nat, i: nat): Cell
    requires DecidedAt(attempts, k, i)
  {
    Slots(attempts[k].plan)[i].cell
  }

  /** Bases of one name and architecture that compare equal are spelled the same, within a
      plan and from plan to plan. */
  ghost predicate SpelledAlike(attempts: seq<Attempt>) {
    forall k: nat, i: nat, l: nat, j: nat :: DecidedAt(attempts, k, i) && DecidedAt(attempts, l, j) ==>
      OneSpelling(CellAt(attempts, k, i), CellAt(attempts, l, j))
  }

  predicate OneSpelling(c: Cell, d: Cell) {
    SamePlace(c.name, c.art.arch, d.name, d.art.arch) && Compare(Base(c), Base(d)) == 0 ==> Base(c) == Base(d)
  }

  predicate PlansOk(attempts: seq<Attempt>) {
    forall k :: 0 <= k < |attempts| ==> PlanOk(Slots(attempts[k].plan)) && BasesOk(Slots(attempts[k].plan))
  }

  /** The package was built for slot i of plan k, at revision r. */
  predicate CameFrom(e: Package, attempts: seq<Attempt>, k: nat, i: nat, r: nat) {
    DecidedAt(attempts, k, i) && e == PackageOf(CellAt(attempts, k, i), r)
  }

  ghost predicate HasOrigin(e: Package, attempts: seq<Attempt>) {
    exists k: nat, i: nat, r: nat :: CameFrom(e, attempts, k, i, r)
  }

  lemma {:induction false} OriginOfPrefix(e: Package, attempts: seq<Attempt>, k: nat)
    requires k <= |attempts| && HasOrigin(e, attempts[..k])
    ensures HasOrigin(e, attempts)
  {
    var l: nat, j: nat, r: nat :| CameFrom(e, attempts[..k], l, j, r);
    assert attempts[..k][l] == attempts[l];
    assert CameFrom(e, attempts, l, j, r);
  }

  lemma {:induction false} RunBuiltFor(repo: seq<Package>, a: Attempt, e: Package) returns (i: nat, r: nat)
    requires PlanOk(Slots(a.plan)) && e in Run(repo, a.plan, a.env, a.dryRun).work.imported
    ensures i < |Slots(a.plan)| && Slots(a.plan)[i].Decided? && e == PackageOf(Slots(a.plan)[i].cell, r)
  {
    var decided := DecideAll(QuerierOf(repo, a.env), Slots(a.plan));
    if decided.Ok? && !a.dryRun { i, r := DecidedBuiltFor(repo, a, decided.value, e); }
  }

  lemma {:induction false} DecidedBuiltFor(repo: seq<Package>, a: Attempt, ds: seq<Decision>, e: Package)
      returns (i: nat, r: nat)
    requires PlanOk(Slots(a.plan)) && DecideAll(QuerierOf(repo, a.env), Slots(a.plan)) == Ok(ds)
    requires e in RunGroups(Revisions(ds), Slots(a.plan), ds, a.env).imported
    ensures i < |Slots(a.plan)| && Slots(a.plan)[i].Decided? && e == PackageOf(Slots(a.plan)[i].cell, r)
  {
    DecisionsFollow(QuerierOf(repo, a.env), Slots(a.plan));
    RunImports(Revisions(ds), Slots(a.plan), ds, a.env);
    i := BuiltFor(e, Slots(a.plan), ds, Revisions(ds));
    r := ds[i].revision;
  }

  lemma {:induction false} LastImported(attempts: seq<Attempt>, e: Package)
    requires attempts != [] && PlansOk(attempts)
    requires var n := |attempts| - 1; var repo, a := RepoAfter(attempts[..n]), attempts[n];
      e in Run(repo, a.plan, a.env, a.dryRun).work.imported
    ensures HasOrigin(e, attempts)
  {
    var n := |attempts| - 1;
    var i, r := RunBuiltFor(RepoAfter(attempts[..n]), attempts[n], e);
    assert CameFrom(e, attempts, n, i, r);
  }

  lemma {:induction false} BuiltFor(p: Package, slots: seq<Slot>, ds: seq<Decision>, revs: seq<nat>) returns (i: nat)
    requires FromDecision(p, slots, ds, revs)
    ensures i < |ds| && i < |slots| && slots[i].Decided? && p == PackageOf(slots[i].cell, ds[i].revision)
  {
    i :| 0 <= i < |ds| && i < |slots| && ds[i].action == Build && ds[i].revision in revs
         && slots[i].Decided? && p == PackageOf(slots[i].cell, ds[i].revision);
  }

  /** Every package in the repository was built for an artifact of one of the plans. */
  lemma {:induction false} EveryPackageHasOrigin(attempts: seq<Attempt>, e: Package)
    requires PlansOk(attempts) && e in RepoAfter(attempts)
    ensures HasOrigin(e, attempts)
  {
    if attempts != [] {
      var n := |attempts| - 1;
      var repo, a := RepoAfter(attempts[..n]), attempts[n];
      RunOnlyAdds(repo, a, e);
      if e in repo {
        EveryPackageHasOrigin(attempts[..n], e);
        OriginOfPrefix(e, attempts, n);
      } else {
        LastImported(attempts, e);
      }
    }
  }

  lemma {:induction false} RunOnlyAdds(repo: seq<Package>, a: Attempt, e: Package)
    requires PlanOk(Slots(a.plan)) && BasesOk(Slots(a.plan))
    requires e in AddAll(repo, Run(repo, a.plan, a.env, a.dryRun).work.imported)
    ensures e in repo || e in Run(repo, a.plan, a.env, a.dryRun).work.imported
  {
    if a.dryRun { AddAllAppends(repo, []); } else { RunOnlyAppends(repo, a.plan, a.env); }
  }

  lemma {:induction false} OriginIsNoRespelling(attempts: seq<Attempt>, k: nat, i: nat, e: Package)
    requires PlansOk(attempts) && SpelledAlike(attempts) && DecidedAt(attempts, k, i)
    requires HasOrigin(e, attempts)
    requires e.name == CellAt(attempts, k, i).name && e.arch == CellAt(attempts, k, i).art.arch
    ensures !Respelled(e.version, Base(CellAt(attempts, k, i)))
  {
    var l: nat, j: nat, r: nat :| CameFrom(e, attempts, l, j, r);
    var d := CellAt(attempts, l, j);
    assert PlanOk(Slots(attempts[l].plan)) && BasesOk(Slots(attempts[l].plan));
    PublishedRevision(Base(d), r);
    assert OneSpelling(d, CellAt(attempts, k, i));
  }

  lemma {:induction false} AlikeIsCovered(attempts: seq<Attempt>, k: nat)
    requires PlansOk(attempts) && SpelledAlike(attempts) && k < |attempts|
    ensures RespellingsCovered(RepoAfter(attempts[..k]), Slots(attempts[k].plan))
  {
    var repo, slots := RepoAfter(attempts[..k]), Slots(attempts[k].plan);
    forall i | 0 <= i < |slots| && slots[i].Decided? ensures CellCovered(repo, slots[i].cell) {
      var existing := ListByNameArch(repo, slots[i].cell.name, slots[i].cell.art.arch);
      forall e | e in existing ensures Covered(existing, Base(slots[i].cell), e) {
        EveryPackageHasOrigin(attempts[..k], e);
        OriginOfPrefix(e, attempts, k);
        assert DecidedAt(attempts, k, i);
        OriginIsNoRespelling(attempts, k, i, e);
      }
    }
  }

  /** Plans that agree on how a base is spelled are acceptable, one after the other,
      whatever happens while they are reconciled. */
  lemma {:induction false} AlikeIsAcceptable(attempts: seq<Attempt>)
    requires PlansOk(attempts) && SpelledAlike(attempts)
    ensures Acceptable(attempts) && Inv(RepoAfter(attempts))
  {
    forall k | 0 <= k < |attempts|
      ensures RespellingsCovered(RepoAfter(attempts[..k]), Slots(attempts[k].plan))
    {
      AlikeIsCovered(attempts, k);
    }
    EveryHistoryKeepsInv(attempts);
  }

  /** No run ever takes away or reorders what earlier runs imported. */
  lemma {:induction false} HistoryOnlyGrows(attempts: seq<Attempt>, k: nat)
    requires Acceptable(attempts) && k <= |attempts|
    ensures RepoAfter(attempts[..k]) <= RepoAfter(attempts)
  {
    if k == |attempts| {
      assert attempts[..k] == attempts;
    } else {
      var n := |attempts| - 1;
      AcceptablePrefix(attempts, n);
      EveryHistoryKeepsInv(attempts[..n]);
      HistoryOnlyGrows(attempts[..n], k);
      assert attempts[..n][..k] == attempts[..k];
      LastRun(attempts);
    }
  }

  // ----- convergence --------------------------------------------------------

  /** Every build and every import of the run succeeded. */
  ghost predicate AllSucceeded(env: Env) {
    && (forall rev: nat :: !env.callFails(rev))
    && (forall rev: nat, c: Cell :: env.outcome(rev, c) == Built && !env.importFails(rev, c))
  }

  predicate AllSkipped(ds: seq<Decision>) { forall i :: 0 <= i < |ds| ==> ds[i].action == Skip }

  lemma {:induction false} GroupImportsAll(cells: seq<Cell>, revision: nat, env: Env, c: Cell)
    requires AllSucceeded(env) && c in cells
    ensures PackageOf(c, revision) in Imports(BuiltCells(cells, revision, env), revision, env)
  {
    BuiltCellsMembers(cells, revision, env);
    ImportsMembers(BuiltCells(cells, revision, env), revision, env);
  }

  lemma {:induction false} LastGroupImports(revs: seq<nat>, slots: seq<Slot>, ds: seq<Decision>, env: Env)
    requires AllSucceeded(env) && revs != []
    ensures var n := |revs| - 1;
      RunGroups(revs, slots, ds, env).imported == RunGroups(revs[..n], slots, ds, env).imported
        + Imports(BuiltCells(CellsAt(slots, ds, revs[n]), revs[n], env), revs[n], env)
  {
    NeverAborts(revs[..|revs| - 1], slots, ds, env);
  }

  lemma {:induction false} SuccessImportsAll(
    revs: seq<nat>, slots: seq<Slot>, ds: seq<Decision>, env: Env, revision: nat, c: Cell)
    requires AllSucceeded(env) && revision in revs && c in CellsAt(slots, ds, revision)
    ensures PackageOf(c, revision) in RunGroups(revs, slots, ds, env).imported
  {
    var n := |revs| - 1;
    LastGroupImports(revs, slots, ds, env);
    if revision == revs[n] {
      GroupImportsAll(CellsAt(slots, ds, revision), revision, env, c);
    } else {
      SuccessImportsAll(revs[..n], slots, ds, env, revision, c);
    }
  }

  lemma {:induction false} NeverAborts(revs: seq<nat>, slots: seq<Slot>, ds: seq<Decision>, env: Env)
    requires AllSucceeded(env)
    ensures !RunGroups(revs, slots, ds, env).aborted
  {
    if revs != [] { NeverAborts(revs[..|revs| - 1], slots, ds, env); }
  }

  /** After the successful run, slot i is skipped. */
  lemma {:induction false} SlotSettled(
    repo: seq<Package>, imported: seq<Package>, env: Env, env': Env, slots: seq<Slot>, ds: seq<Decision>, i: nat)
    requires PlanOk(slots) && BasesOk(slots) && AllSucceeded(env)
    requires forall p :: p in repo + imported ==> SoundVersion(p.version)
    requires DecideAll(QuerierOf(repo, env), slots) == Ok(ds) && |ds| == |slots| && i < |ds|
    requires imported == RunGroups(Revisions(ds), slots, ds, env).imported
    requires (forall h: string :: !env'.hashFails(h)) && (forall n: string, a: string :: !env'.listFails(n, a))
    ensures var d := DecideSlot(QuerierOf(repo + imported, env'), slots[i]);
      d.Ok? && d.value.action == Skip
  {
    assert forall p :: p in repo ==> p in repo + imported;
    if slots[i].Decided? && !HashExists(repo + imported, slots[i].cell.art.hash) {
      var c := slots[i].cell;
      DecideAllPointwise(QuerierOf(repo, env), slots);
      assert DecideSlot(QuerierOf(repo, env), slots[i]) == Ok(ds[i]);
      if ds[i].action == Build { BuiltHashPresent(repo, env, slots, ds, i); }
      StillRegression(ListByNameArch(repo, c.name, c.art.arch), ListByNameArch(repo + imported, c.name, c.art.arch), c);
    }
  }

  lemma {:induction false} BuiltHashPresent(repo: seq<Package>, env: Env, slots: seq<Slot>, ds: seq<Decision>, i: nat)
    requires PlanOk(slots) && AllSucceeded(env)
    requires DecideAll(QuerierOf(repo, env), slots) == Ok(ds) && |ds| == |slots| && i < |ds|
    requires slots[i].Decided? && ds[i].action == Build
    ensures HashExists(repo + RunGroups(Revisions(ds), slots, ds, env).imported, slots[i].cell.art.hash)
  {
    DecisionsFollow(QuerierOf(repo, env), slots);
    EveryBuildInOneCall(slots, ds, i, ds[i].revision);
    SuccessImportsAll(Revisions(ds), slots, ds, env, ds[i].revision, slots[i].cell);
    var p := PackageOf(slots[i].cell, ds[i].revision);
    assert p in repo + RunGroups(Revisions(ds), slots, ds, env).imported;
  }

  lemma {:induction false} StillRegression(before: seq<Package>, after: seq<Package>, c: Cell)
    requires IsBase(Base(c)) && forall p :: p in after ==> SoundVersion(p.version)
    requires forall p :: p in before ==> p in after
    requires Judge(before, c.name, c.art, Base(c)).action == Skip
    ensures Judge(after, c.name, c.art, Base(c)).action == Skip
  {
    RegressionMeaning(before, c.name, c.art, Base(c));
    RegressionMeaning(after, c.name, c.art, Base(c));
  }

  lemma {:induction false} DecideAllSkips(q: Querier, slots: seq<Slot>)
    requires forall i :: 0 <= i < |slots| ==>
      DecideSlot(q, slots[i]).Ok? && DecideSlot(q, slots[i]).value.action == Skip
    ensures DecideAll(q, slots).Ok? && AllSkipped(DecideAll(q, slots).value)
  {
    if slots != [] { DecideAllSkips(q, slots[1..]); }
  }

  lemma {:induction false} SkipsMeanNoWork(ds: seq<Decision>)
    requires AllSkipped(ds)
    ensures Revisions(ds) == []
  {
    if ds != [] { SkipsMeanNoWork(ds[..|ds| - 1]); }
  }

  /** Reconcile converges: once every build and import succeeded, the same plan asks for
      no build, no import and no publish. The repository may hold anything comparable. */
  lemma {:induction false} ReconcileConverges(repo: seq<Package>, plan: seq<PlanPackage>, env: Env, env': Env)
    requires PlanOk(Slots(plan)) && BasesOk(Slots(plan)) && AllSucceeded(env)
    requires forall p :: p in repo ==> SoundVersion(p.version)
    requires Run(repo, plan, env, false).status != DecideFailed
    requires (forall h: string :: !env'.hashFails(h)) && (forall n: string, a: string :: !env'.listFails(n, a))
    ensures var repo' := AddAll(repo, Run(repo, plan, env, false).work.imported);
      var again := Run(repo', plan, env', false);
      again.status == Done && !again.published && again.work.calls == [] && again.work.imported == []
  {
    var slots := Slots(plan);
    var ds := DecideAll(QuerierOf(repo, env), slots).value;
    DecideAllPointwise(QuerierOf(repo, env), slots);
    RunOnlyAppends(repo, plan, env);
    NeverAborts(Revisions(ds), slots, ds, env);
    var imported := RunGroups(Revisions(ds), slots, ds, env).imported;
    ImportedSound(repo, env, slots, ds);
    forall i | 0 <= i < |slots| ensures
      DecideSlot(QuerierOf(repo + imported, env'), slots[i]).Ok? &&
      DecideSlot(QuerierOf(repo + imported, env'), slots[i]).value.action == Skip {
      SlotSettled(repo, imported, env, env', slots, ds, i);
    }
    DecideAllSkips(QuerierOf(repo + imported, env'), slots);
    SkipsMeanNoWork(DecideAll(QuerierOf(repo + imported, env'), slots).value);
  }

  lemma {:induction false} ImportedSound(repo: seq<Package>, env: Env, slots: seq<Slot>, ds: seq<Decision>)
    requires PlanOk(slots) && BasesOk(slots) && DecideAll(QuerierOf(repo, env), slots) == Ok(ds)
    ensures forall p :: p in RunGroups(Revisions(ds), slots, ds, env).imported ==> SoundVersion(p.version)
  {
    DecisionsFollow(QuerierOf(repo, env), slots);
    RunImports(Revisions(ds), slots, ds, env);
    forall p | p in RunGroups(Revisions(ds), slots, ds, env).imported ensures SoundVersion(p.version) {
      var i :| 0 <= i < |ds| && i < |slots| && ds[i].action == Build && ds[i].revision in Revisions(ds)
               && slots[i].Decided? && p == PackageOf(slots[i].cell, ds[i].revision);
      PublishedRevision(Base(slots[i].cell), ds[i].revision);
      PublishedIsSound(p.version);
    }
  }

  // ----- gap-freedom, read off the invariant --------------------------------

  /** In a repository drayman filled, every smaller revision of a present version is present. */
  lemma {:induction false} SmallerRevisionsPresent(repo: seq<Package>, p: Package, r: nat) returns (w: Package)
    requires Inv(repo) && p in repo && r <= RevisionNumber(p.version)
    ensures w in repo && SamePackage(w, p) && w.version == VersionString(Upstream(p.version), r)
    decreases RevisionNumber(p.version)
  {
    if r == RevisionNumber(p.version) {
      w := p;
    } else {
      var q := PredecessorOf(repo, p);
      PublishedRevision(Upstream(p.version), RevisionNumber(p.version) - 1);
      w := SmallerRevisionsPresent(repo, q, r);
    }
  }

  lemma {:induction false} PredecessorOf(repo: seq<Package>, p: Package) returns (q: Package)
    requires GapFree(repo) && p in repo && Revised(p)
    ensures q in repo && IsPredecessor(q, p)
  {
    var j :| 0 <= j < |repo| && repo[j] == p;
    var i :| 0 <= i < j && IsPredecessor(repo[i], repo[j]);
    q := repo[i];
  }
}
