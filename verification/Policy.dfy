/** internal/drayman/policy/decide.go: what drayman does with each artifact of a plan,
    given the packages already in the target repository. */
module Policy {
  import opened Text
  import opened Version

  datatype Package = Package(name: string, version: string, arch: string, hash: string)

  /** nfpmVersion is None when the nfpm document has no string field "version". */
  datatype Artifact = Artifact(arch: string, hash: string, nfpmVersion: Option<string>)

  datatype PlanPackage = PlanPackage(name: string, ok: bool, artifacts: seq<Artifact>)

  datatype Action = Skip | Build

  datatype Code = HashInRepo | DiscoverFailed | VersionRegression | BuildNew | BuildBump

  datatype Decision = Decision(
    packageName: string, arch: string, action: Action, code: Code, revision: nat,
    planVersion: string, planHash: string, repoMaxVersion: string,
    priorVersion: string, priorHash: string)

  /** A backend as the policy sees it; either query may fail. */
  datatype Querier = Querier(repo: seq<Package>, hashFails: string -> bool, listFails: (string, string) -> bool)

  predicate HashExists(repo: seq<Package>, hash: string) { exists p :: p in repo && p.hash == hash }

  function ListByNameArch(repo: seq<Package>, name: string, arch: string): (ps: seq<Package>)
    ensures forall p :: p in ps <==> p in repo && p.name == name && p.arch == arch
  {
    if repo == [] then []
    else
      var rest := ListByNameArch(repo[1..], name, arch);
      assert repo == [repo[0]] + repo[1..];
      if repo[0].name == name && repo[0].arch == arch then [repo[0]] + rest else rest
  }

  function Upstream(version: string): string { SplitDebianRevision(version).0 }

  // ----- the two scans of decideOne -----------------------------------------

  /** The newest upstream seen (empty: none) and the full version it came from. */
  function MaxUpstream(ps: seq<Package>): (string, string) {
    if ps == [] then ("", "")
    else
      var (up, full) := MaxUpstream(ps[..|ps| - 1]);
      var v := ps[|ps| - 1].version;
      if up == "" || Compare(Upstream(v), up) > 0 then (Upstream(v), v) else (up, full)
  }

  /** The integer debian-revision an existing version holds on top of base: bare counts
      as 0; another base or a non-integer revision does not count. */
  function RevisionAt(version: string, base: string): Option<int> {
    var (up, rev) := SplitDebianRevision(version);
    if up != base then None else if rev == "" then Some(0) else Atoi(rev)
  }

  const NO_PACKAGE := Package("", "", "", "")

  function MaxRevision(ps: seq<Package>, base: string): (r: (int, Package))
    ensures r.0 >= -1
  {
    if ps == [] then (-1, NO_PACKAGE)
    else
      var (max, prior) := MaxRevision(ps[..|ps| - 1], base);
      var p := ps[|ps| - 1];
      match RevisionAt(p.version, base)
      case Some(n) => if n > max then (n, p) else (max, prior)
      case None => (max, prior)
  }

  /** Steps 2 and 3: regression check, then the next debian-revision. */
  function Judge(existing: seq<Package>, name: string, art: Artifact, base: string): Decision {
    var (up, full) := MaxUpstream(existing);
    var (max, prior) := MaxRevision(existing, base);
    if up != "" && Compare(base, up) < 0 then
      Decision(name, art.arch, Skip, VersionRegression, 0, base, art.hash, full, "", "")
    else if max < 0 then
      Decision(name, art.arch, Build, BuildNew, 0, base, art.hash, "", "", "")
    else
      Decision(name, art.arch, Build, BuildBump, max + 1, base, art.hash, "", prior.version, prior.hash)
  }

  function DecideArtifact(q: Querier, name: string, art: Artifact): Result<Decision> {
    if q.hashFails(art.hash) then Err
    else if HashExists(q.repo, art.hash) then
      Ok(Decision(name, art.arch, Skip, HashInRepo, 0, "", art.hash, "", "", ""))
    else if art.nfpmVersion.None? || art.nfpmVersion.value == "" || q.listFails(name, art.arch) then Err
    else Ok(Judge(ListByNameArch(q.repo, name, art.arch), name, art, art.nfpmVersion.value))
  }

  method ScanUpstreams(existing: seq<Package>) returns (maxUpstream: string, maxFull: string)
    ensures (maxUpstream, maxFull) == MaxUpstream(existing)
  {
    maxUpstream, maxFull := "", "";
    for i := 0 to |existing|
      invariant (maxUpstream, maxFull) == MaxUpstream(existing[..i])
    {
      assert existing[..i + 1][..i] == existing[..i];
      var v := existing[i].version;
      var up := Upstream(v);
      var newer := 1;
      if maxUpstream != "" { newer := CompareVersions(up, maxUpstream); }
      if newer > 0 { maxUpstream, maxFull := up, v; }
    }
    assert existing[..|existing|] == existing;
  }

  lemma {:induction false} MaxRevisionStep(ps: seq<Package>, base: string, i: nat)
    requires i < |ps|
    ensures var (max, prior) := MaxRevision(ps[..i], base);
      var n := RevisionAt(ps[i].version, base);
      MaxRevision(ps[..i + 1], base) == if n.Some? && n.value > max then (n.value, ps[i]) else (max, prior)
  {
    assert ps[..i + 1][..i] == ps[..i];
  }

  method ScanRevisions(existing: seq<Package>, base: string) returns (maxRev: int, prior: Package)
    ensures (maxRev, prior) == MaxRevision(existing, base)
  {
    maxRev, prior := -1, NO_PACKAGE;
    for i := 0 to |existing|
      invariant (maxRev, prior) == MaxRevision(existing[..i], base)
    {
      MaxRevisionStep(existing, base, i);
      var (upstream, rev) := SplitDebianRevision(existing[i].version);
      if upstream != base { continue; }
      if rev == "" {
        if maxRev < 0 { maxRev, prior := 0, existing[i]; }
        continue;
      }
      match Atoi(rev)
      case None =>
      case Some(n) => if n > maxRev { maxRev, prior := n, existing[i]; }
    }
    assert existing[..|existing|] == existing;
  }

  /** The policy for one artifact; the two scans of the existing packages are the two
      methods above. */
  method DecideOne(q: Querier, name: string, art: Artifact) returns (r: Result<Decision>)
    ensures r == DecideArtifact(q, name, art)
  {
    var d := Decision(name, art.arch, Skip, HashInRepo, 0, "", art.hash, "", "", "");
    if q.hashFails(art.hash) { return Err; }
    if HashExists(q.repo, art.hash) { return Ok(d); }
    if art.nfpmVersion.None? || art.nfpmVersion.value == "" { return Err; }
    var base := art.nfpmVersion.value;
    d := d.(planVersion := base);
    if q.listFails(name, art.arch) { return Err; }
    var existing := ListByNameArch(q.repo, name, art.arch);

    var maxUpstream, maxFull := ScanUpstreams(existing);
    if maxUpstream != "" {
      var c := CompareVersions(base, maxUpstream);
      if c < 0 { return Ok(d.(code := VersionRegression, repoMaxVersion := maxFull)); }
    }

    var maxRev, prior := ScanRevisions(existing, base);
    if maxRev < 0 {
      return Ok(d.(action := Build, code := BuildNew));
    }
    return Ok(d.(action := Build, code := BuildBump, revision := maxRev + 1,
                 priorVersion := prior.version, priorHash := prior.hash));
  }

  // ----- the whole plan -----------------------------------------------------

  /** What Decide visits, in plan order: one slot for a package whose discovery failed,
      one per artifact otherwise. */
  datatype Slot = FailedPackage(name: string) | Decided(cell: Cell)

  datatype Cell = Cell(name: string, art: Artifact)

  function PackageSlots(p: PlanPackage): seq<Slot> {
    if p.ok then seq(|p.artifacts|, i requires 0 <= i < |p.artifacts| => Decided(Cell(p.name, p.artifacts[i])))
    else [FailedPackage(p.name)]
  }

  function Slots(plan: seq<PlanPackage>): seq<Slot> {
    if plan == [] then [] else PackageSlots(plan[0]) + Slots(plan[1..])
  }

  function DecideSlot(q: Querier, s: Slot): Result<Decision> {
    match s
    case FailedPackage(name) => Ok(Decision(name, "", Skip, DiscoverFailed, 0, "", "", "", "", ""))
    case Decided(c) => DecideArtifact(q, c.name, c.art)
  }

  function DecideAll(q: Querier, slots: seq<Slot>): Result<seq<Decision>> {
    if slots == [] then Ok([]) else Cons(DecideSlot(q, slots[0]), DecideAll(q, slots[1..]))
  }

  function Cons(d: Result<Decision>, ds: Result<seq<Decision>>): Result<seq<Decision>> {
    if d.Ok? && ds.Ok? then Ok([d.value] + ds.value) else Err
  }

  function Append(ds: seq<Decision>, rest: Result<seq<Decision>>): Result<seq<Decision>> {
    if rest.Ok? then Ok(ds + rest.value) else Err
  }

  lemma {:induction false} AppendEnds(ds: seq<Decision>, rest: Result<seq<Decision>>)
    ensures ds == [] ==> Append(ds, rest) == rest
    ensures rest == Ok([]) ==> Append(ds, rest) == Ok(ds)
  {
    if rest.Ok? { assert [] + rest.value == rest.value && ds + [] == ds; }
  }

  lemma {:induction false} AppendStep(ds: seq<Decision>, q: Querier, slots: seq<Slot>)
    requires slots != []
    ensures Append(ds, DecideAll(q, slots)) ==
            match DecideSlot(q, slots[0])
            case Err => Err
            case Ok(d) => Append(ds + [d], DecideAll(q, slots[1..]))
  {
    var rest := DecideAll(q, slots[1..]);
    if DecideSlot(q, slots[0]).Ok? && rest.Ok? {
      var d := DecideSlot(q, slots[0]).value;
      assert ds + ([d] + rest.value) == ds + [d] + rest.value;
    }
  }

  lemma {:induction false} PackageFirst(plan: seq<PlanPackage>, i: nat, slots: seq<Slot>)
    requires i < |plan| && slots == Slots(plan[i..])
    ensures var p := plan[i];
      if p.ok then
        && |p.artifacts| <= |slots| && slots[|p.artifacts|..] == Slots(plan[i + 1..])
        && forall j :: 0 <= j < |p.artifacts| ==> slots[j] == Decided(Cell(p.name, p.artifacts[j]))
      else slots != [] && slots[0] == FailedPackage(p.name) && slots[1..] == Slots(plan[i + 1..])
  {
    assert plan[i..][1..] == plan[i + 1..];
  }

  method Decide(q: Querier, plan: seq<PlanPackage>) returns (r: Result<seq<Decision>>)
    ensures r == DecideAll(q, Slots(plan))
  {
    var out: seq<Decision> := [];
    ghost var todo := Slots(plan);
    ghost var goal := DecideAll(q, todo);
    assert plan[0..] == plan;
    AppendEnds([], goal);
    for i := 0 to |plan|
      invariant todo == Slots(plan[i..]) && goal == Append(out, DecideAll(q, todo))
    {
      var pkg := plan[i];
      ghost var slots := todo;
      PackageFirst(plan, i, slots);
      if !pkg.ok {
        AppendStep(out, q, todo);
        todo := todo[1..];
        out := out + [Decision(pkg.name, "", Skip, DiscoverFailed, 0, "", "", "", "", "")];
        continue;
      }
      for j := 0 to |pkg.artifacts|
        invariant todo == slots[j..] && goal == Append(out, DecideAll(q, todo))
      {
        AppendStep(out, q, todo);
        todo := todo[1..];
        var d := DecideOne(q, pkg.name, pkg.artifacts[j]);
        if d.Err? { return Err; }
        out := out + [d.value];
      }
    }
    assert plan[|plan|..] == [];
    AppendEnds(out, Ok([]));
    r := Ok(out);
  }

  lemma {:induction false} DecideAllPointwise(q: Querier, slots: seq<Slot>)
    requires DecideAll(q, slots).Ok?
    ensures var ds := DecideAll(q, slots).value;
      |ds| == |slots| && forall i :: 0 <= i < |ds| ==> DecideSlot(q, slots[i]) == Ok(ds[i])
  {
    if slots != [] { DecideAllPointwise(q, slots[1..]); }
  }

  // ----- what a decision means, whatever order the backend lists packages in --

  /** A version drayman can compare: a non-empty upstream and no stray NUL. */
  predicate SoundVersion(v: string) { NoStrayNul(v) && Upstream(v) != "" }

  lemma {:induction false} UpstreamSound(v: string)
    requires NoStrayNul(v)
    ensures NoStrayNul(Upstream(v))
  {
    SplitKeepsNuls(v);
  }

  lemma {:induction false} MaxUpstreamIsMaximum(ps: seq<Package>)
    requires forall p :: p in ps ==> SoundVersion(p.version)
    ensures MaxUpstream(ps).0 == "" <==> ps == []
    ensures ps != [] ==>
      exists p :: p in ps && MaxUpstream(ps) == (Upstream(p.version), p.version)
    ensures forall p :: p in ps ==> Compare(Upstream(p.version), MaxUpstream(ps).0) <= 0
  {
    if ps != [] {
      var init, last := ps[..|ps| - 1], ps[|ps| - 1];
      assert ps == init + [last];
      MaxUpstreamIsMaximum(init);
      var up := Upstream(last.version);
      var before := MaxUpstream(init).0;
      CompareReflexive(up);
      UpstreamSound(last.version);
      assert last in ps;
      if init != [] {
        var w :| w in init && MaxUpstream(init) == (Upstream(w.version), w.version);
        assert w in ps;
        UpstreamSound(w.version);
        CompareAntisymmetric(up, before);
        if Compare(up, before) > 0 {
          forall p | p in init ensures Compare(Upstream(p.version), up) <= 0 {
            assert p in ps;
            UpstreamSound(p.version);
            CompareTransitive(Upstream(p.version), before, up);
          }
        }
      }
    }
  }

  lemma {:induction false} MaxRevisionIsMaximum(ps: seq<Package>, base: string)
    ensures var (max, prior) := MaxRevision(ps, base);
      && (max >= 0 ==> prior in ps && RevisionAt(prior.version, base) == Some(max))
      && (forall p :: p in ps && RevisionAt(p.version, base).Some? ==>
            0 <= RevisionAt(p.version, base).value <= max)
  {
    if ps != [] {
      var init, last := ps[..|ps| - 1], ps[|ps| - 1];
      assert ps == init + [last];
      MaxRevisionIsMaximum(init, base);
      RevisionNotNegative(last.version, base);
    }
  }

  /** A debian-revision follows the last hyphen, so it carries no minus sign. */
  lemma {:induction false} RevisionNotNegative(v: string, base: string)
    ensures RevisionAt(v, base).Some? ==> RevisionAt(v, base).value >= 0
  {
    var i := LastIndex(v, '-');
    var rev := SplitDebianRevision(v).1;
    assert i >= 0 && rev != "" ==> rev[0] == v[i + 1];
  }

  /** A skip, said without any scan: some package already present has a newer upstream. */
  lemma {:induction false} RegressionMeaning(existing: seq<Package>, name: string, art: Artifact, base: string)
    requires NoStrayNul(base) && forall p :: p in existing ==> SoundVersion(p.version)
    ensures Judge(existing, name, art, base).action == Skip <==>
            exists p :: p in existing && Compare(base, Upstream(p.version)) < 0
  {
    MaxUpstreamIsMaximum(existing);
    var max := MaxUpstream(existing).0;
    forall p | p in existing && Compare(base, Upstream(p.version)) < 0 ensures Compare(base, max) < 0 {
      var w :| w in existing && MaxUpstream(existing) == (Upstream(w.version), w.version);
      UpstreamSound(p.version);
      UpstreamSound(w.version);
      CompareTransitive(base, Upstream(p.version), max);
    }
  }

  /** The revision of a build: bare when no integer revision of this base is present,
      else one above the greatest, which the audit fields name. */
  lemma {:induction false} RevisionMeaning(existing: seq<Package>, name: string, art: Artifact, base: string)
    requires Judge(existing, name, art, base).action == Build
    ensures var d := Judge(existing, name, art, base);
      && (d.revision == 0 <==> forall p :: p in existing ==> RevisionAt(p.version, base).None?)
      && (forall p :: p in existing && RevisionAt(p.version, base).Some? ==>
            RevisionAt(p.version, base).value < d.revision)
      && (d.revision > 0 ==>
            exists p :: p in existing && RevisionAt(p.version, base) == Some(d.revision - 1)
                        && p.version == d.priorVersion && p.hash == d.priorHash)
  {
    MaxRevisionIsMaximum(existing, base);
  }

  /** Neither the action nor the revision depends on the order in which the backend
      lists the packages. */
  lemma {:induction false} DecisionOrderFree(
    xs: seq<Package>, ys: seq<Package>, name: string, art: Artifact, base: string)
    requires NoStrayNul(base) && forall p :: p in xs ==> SoundVersion(p.version)
    requires forall p :: p in xs <==> p in ys
    ensures Judge(xs, name, art, base).action == Judge(ys, name, art, base).action
    ensures Judge(xs, name, art, base).revision == Judge(ys, name, art, base).revision
  {
    RegressionMeaning(xs, name, art, base);
    RegressionMeaning(ys, name, art, base);
    if Judge(xs, name, art, base).action == Build {
      RevisionMeaning(xs, name, art, base);
      RevisionMeaning(ys, name, art, base);
    }
  }

  // ----- what a decision says, field by field -------------------------------

  predicate Digits(s: string) { s != "" && AllDigits(s) }

  /** A debian-revision that stands for n: none for 0, or digits after an optional plus. */
  predicate StandsFor(rev: string, n: nat) {
    || (rev == "" && n == 0)
    || (Digits(rev) && Value(rev) == n)
    || (rev != "" && rev[0] == '+' && Digits(rev[1..]) && Value(rev[1..]) == n)
  }

  predicate Carries(version: string, base: string, n: nat) {
    SplitDebianRevision(version).0 == base && StandsFor(SplitDebianRevision(version).1, n)
  }

  lemma {:induction false} StandsForExactly(rev: string, n: nat)
    requires Free(rev, '-')
    ensures StandsFor(rev, n) <==> (if rev == "" then n == 0 else Atoi(rev) == Some(n))
  {
    AtoiExactly(rev);
    if rev != "" { assert rev[0] in rev; }
  }

  lemma {:induction false} CarriesExactly(v: string, base: string, n: nat)
    ensures RevisionAt(v, base) == Some(n) <==> Carries(v, base, n)
  {
    NoMinusAfterHyphen(v);
    StandsForExactly(SplitDebianRevision(v).1, n);
  }

  lemma {:induction false} NoMinusAfterHyphen(v: string)
    ensures Free(SplitDebianRevision(v).1, '-')
  {
    var i := LastIndex(v, '-');
    if i >= 0 {
      var rev := v[i + 1..];
      forall k | 0 <= k < |rev| ensures rev[k] != '-' { assert rev[k] == v[i + 1 + k]; }
    }
  }

  lemma {:induction false} CarriesSome(v: string, base: string)
    ensures RevisionAt(v, base).Some? <==> exists n: nat :: Carries(v, base, n)
  {
    RevisionNotNegative(v, base);
    if RevisionAt(v, base).Some? { CarriesExactly(v, base, RevisionAt(v, base).value); }
    if exists n: nat :: Carries(v, base, n) {
      var n: nat :| Carries(v, base, n);
      CarriesExactly(v, base, n);
    }
  }

  /** The scan keeps the first package at the greatest revision. */
  lemma {:induction false} PriorIsFirst(ps: seq<Package>, base: string) returns (i: nat)
    requires MaxRevision(ps, base).0 >= 0
    ensures var (max, prior) := MaxRevision(ps, base);
      && i < |ps| && prior == ps[i] && RevisionAt(ps[i].version, base) == Some(max)
      && forall j :: 0 <= j < i ==> RevisionAt(ps[j].version, base) != Some(max)
  {
    var n := |ps| - 1;
    var (max, prior) := MaxRevision(ps[..n], base);
    var last := RevisionAt(ps[n].version, base);
    if last.Some? && last.value > max {
      MaxRevisionIsMaximum(ps[..n], base);
      forall j | 0 <= j < n ensures RevisionAt(ps[j].version, base) != last { assert ps[..n][j] in ps[..n]; }
      i := n;
    } else {
      i := PriorIsFirst(ps[..n], base);
      assert forall j :: 0 <= j < i ==> ps[..n][j] == ps[j];
    }
  }

  /** A build is new, and bare, exactly when no present version of this very base carries a
      revision; a version with some other text after its hyphen does not matter. */
  lemma {:induction false} NewExactly(existing: seq<Package>, name: string, art: Artifact, base: string)
    requires Judge(existing, name, art, base).action == Build
    ensures var d := Judge(existing, name, art, base);
      && (d.code == BuildNew <==> d.revision == 0) && (d.code == BuildBump <==> d.revision > 0)
      && (d.revision == 0 <==> forall p, n: nat :: p in existing ==> !Carries(p.version, base, n))
      && (d.revision == 0 ==> d.priorVersion == "" && d.priorHash == "")
  {
    RevisionMeaning(existing, name, art, base);
    forall p | p in existing
      ensures RevisionAt(p.version, base).Some? <==> exists n: nat :: Carries(p.version, base, n)
    {
      CarriesSome(p.version, base);
    }
  }

  /** A bump is one above the greatest revision carried, and names the first package listed
      that carries it. */
  lemma {:induction false} BumpExactly(existing: seq<Package>, name: string, art: Artifact, base: string)
      returns (i: nat)
    requires Judge(existing, name, art, base).action == Build && Judge(existing, name, art, base).revision > 0
    ensures var d := Judge(existing, name, art, base);
      && i < |existing| && Carries(existing[i].version, base, d.revision - 1)
      && (forall j :: 0 <= j < i ==> !Carries(existing[j].version, base, d.revision - 1))
      && (forall p, n: nat :: p in existing && Carries(p.version, base, n) ==> n < d.revision)
      && d.priorVersion == existing[i].version && d.priorHash == existing[i].hash
  {
    var r := Judge(existing, name, art, base).revision;
    i := PriorIsFirst(existing, base);
    FirstCarrier(existing, base, i, r - 1);
    AboveCarried(existing, base, r - 1);
  }

  lemma {:induction false} FirstCarrier(existing: seq<Package>, base: string, i: nat, n: nat)
    requires i < |existing| && RevisionAt(existing[i].version, base) == Some(n)
    requires forall j :: 0 <= j < i ==> RevisionAt(existing[j].version, base) != Some(n)
    ensures Carries(existing[i].version, base, n)
    ensures forall j :: 0 <= j < i ==> !Carries(existing[j].version, base, n)
  {
    CarriesExactly(existing[i].version, base, n);
    forall j | 0 <= j < i ensures !Carries(existing[j].version, base, n) {
      CarriesExactly(existing[j].version, base, n);
    }
  }

  lemma {:induction false} AboveCarried(existing: seq<Package>, base: string, max: nat)
    requires MaxRevision(existing, base).0 == max
    ensures forall p, n: nat :: p in existing && Carries(p.version, base, n) ==> n <= max
  {
    MaxRevisionIsMaximum(existing, base);
    forall p, n: nat | p in existing && Carries(p.version, base, n) ensures n <= max {
      CarriesExactly(p.version, base, n);
    }
  }

  // The first greatest of a list, for any comparison that orders it.

  predicate FirstGreatest<T>(cmp: (T, T) -> int, xs: seq<T>, i: nat) {
    && i < |xs|
    && (forall j :: 0 <= j < |xs| ==> cmp(xs[j], xs[i]) <= 0)
    && (forall j :: 0 <= j < i ==> cmp(xs[j], xs[i]) < 0)
  }

  predicate OrdersAll<T(==)>(cmp: (T, T) -> int, xs: seq<T>) {
    && (forall x :: x in xs ==> cmp(x, x) == 0)
    && (forall x, y, z :: x in xs && y in xs && z in xs && cmp(x, y) <= 0 && cmp(z, y) > 0 ==> cmp(x, z) < 0)
  }

  function Greatest<T>(cmp: (T, T) -> int, xs: seq<T>): (i: nat)
    requires xs != []
    ensures i < |xs|
  {
    var n := |xs| - 1;
    if n == 0 then 0
    else
      var i := Greatest(cmp, xs[..n]);
      if cmp(xs[n], xs[i]) > 0 then n else i
  }

  lemma {:induction false} GreatestIsFirst<T>(cmp: (T, T) -> int, xs: seq<T>)
    requires xs != [] && OrdersAll(cmp, xs)
    ensures FirstGreatest(cmp, xs, Greatest(cmp, xs))
  {
    var n := |xs| - 1;
    if n > 0 {
      GreatestIsFirst(cmp, xs[..n]);
      GreatestOfMore(cmp, xs, Greatest(cmp, xs[..n]));
    }
  }

  lemma {:induction false} GreatestOfMore<T>(cmp: (T, T) -> int, xs: seq<T>, i: nat)
    requires |xs| > 1 && OrdersAll(cmp, xs) && FirstGreatest(cmp, xs[..|xs| - 1], i)
    ensures FirstGreatest(cmp, xs, if cmp(xs[|xs| - 1], xs[i]) > 0 then |xs| - 1 else i)
  {
    var n := |xs| - 1;
    forall j | 0 <= j < n
      ensures cmp(xs[j], xs[i]) <= 0 && (j < i ==> cmp(xs[j], xs[i]) < 0)
      ensures cmp(xs[n], xs[i]) > 0 ==> cmp(xs[j], xs[n]) < 0
    {
      assert xs[..n][j] == xs[j] && xs[..n][i] == xs[i];
    }
  }

  function CompareUpstreams(p: Package, q: Package): int { Compare(Upstream(p.version), Upstream(q.version)) }

  lemma {:induction false} UpstreamsOrdered(ps: seq<Package>)
    requires forall p :: p in ps ==> SoundVersion(p.version)
    ensures OrdersAll(CompareUpstreams, ps)
  {
    forall p | p in ps ensures CompareUpstreams(p, p) == 0 { CompareReflexive(Upstream(p.version)); }
    forall p, q, r | p in ps && q in ps && r in ps && CompareUpstreams(p, q) <= 0 && CompareUpstreams(r, q) > 0
      ensures CompareUpstreams(p, r) < 0
    {
      BelowThenBelow(p.version, q.version, r.version);
    }
  }

  lemma {:induction false} MaxUpstreamSnoc(ps: seq<Package>)
    requires ps != []
    ensures var (up, full) := MaxUpstream(ps[..|ps| - 1]);
      var v := ps[|ps| - 1].version;
      MaxUpstream(ps) == if up == "" || Compare(Upstream(v), up) > 0 then (Upstream(v), v) else (up, full)
  {
  }

  /** The scan keeps the first package whose upstream no other exceeds. */
  lemma {:induction false} MaxUpstreamIsGreatest(ps: seq<Package>)
    requires ps != [] && forall p :: p in ps ==> SoundVersion(p.version)
    ensures var v := ps[Greatest(CompareUpstreams, ps)].version; MaxUpstream(ps) == (Upstream(v), v)
  {
    var n := |ps| - 1;
    MaxUpstreamSnoc(ps);
    if n > 0 {
      MaxUpstreamIsGreatest(ps[..n]);
      var i := Greatest(CompareUpstreams, ps[..n]);
      assert ps[..n][i] == ps[i] && ps[i] in ps;
      assert CompareUpstreams(ps[n], ps[i]) == Compare(Upstream(ps[n].version), Upstream(ps[i].version));
    }
  }

  lemma {:induction false} BelowThenBelow(u: string, v: string, w: string)
    requires SoundVersion(u) && SoundVersion(v) && SoundVersion(w)
    requires Compare(Upstream(u), Upstream(v)) <= 0 && Compare(Upstream(w), Upstream(v)) > 0
    ensures Compare(Upstream(u), Upstream(w)) < 0
  {
    UpstreamSound(u);
    UpstreamSound(v);
    UpstreamSound(w);
    CompareAntisymmetric(Upstream(w), Upstream(v));
    CompareTransitive(Upstream(u), Upstream(v), Upstream(w));
    CompareAntisymmetric(Upstream(u), Upstream(w));
  }

  /** A skipped regression names the first package listed whose upstream no other exceeds. */
  lemma {:induction false} RegressionFields(existing: seq<Package>, name: string, art: Artifact, base: string)
      returns (i: nat)
    requires forall p :: p in existing ==> SoundVersion(p.version)
    requires Judge(existing, name, art, base).action == Skip
    ensures var d := Judge(existing, name, art, base);
      && d.code == VersionRegression && d.revision == 0 && d.priorVersion == "" && d.priorHash == ""
      && FirstGreatest(CompareUpstreams, existing, i) && d.repoMaxVersion == existing[i].version
      && Compare(base, Upstream(existing[i].version)) < 0
  {
    i := Greatest(CompareUpstreams, existing);
    UpstreamsOrdered(existing);
    GreatestIsFirst(CompareUpstreams, existing);
    MaxUpstreamIsGreatest(existing);
  }

  predicate HashPresent(repo: seq<Package>, hash: string) { exists i :: 0 <= i < |repo| && repo[i].hash == hash }

  /** The order of the steps: the hash query, then the version field, then the listing; and
      an artifact whose hash is there needs neither of the other two. */
  lemma {:induction false} DecideFailsExactly(q: Querier, name: string, art: Artifact)
    ensures DecideArtifact(q, name, art).Err? <==>
      || q.hashFails(art.hash)
      || (!HashPresent(q.repo, art.hash)
          && (art.nfpmVersion.None? || art.nfpmVersion == Some("") || q.listFails(name, art.arch)))
  {
    HashAt(q.repo, art.hash);
  }

  lemma {:induction false} HashAt(repo: seq<Package>, hash: string)
    ensures HashExists(repo, hash) <==> HashPresent(repo, hash)
  {
    if HashPresent(repo, hash) {
      var i :| 0 <= i < |repo| && repo[i].hash == hash;
      assert repo[i] in repo;
    }
  }

  /** What every decision names, and what it is made from: nothing but the hash when it is
      there, else the packages of that name and architecture. */
  lemma {:induction false} DecisionNames(q: Querier, name: string, art: Artifact)
    requires DecideArtifact(q, name, art).Ok?
    ensures var d := DecideArtifact(q, name, art).value;
      && d.packageName == name && d.arch == art.arch && d.planHash == art.hash
      && (d.code == HashInRepo <==> HashPresent(q.repo, art.hash))
      && (d.code == HashInRepo ==> d.action == Skip && d.revision == 0 && d.planVersion == "")
      && (d.code == HashInRepo ==> d.repoMaxVersion == "" && d.priorVersion == "" && d.priorHash == "")
      && (d.code != HashInRepo ==> Some(d.planVersion) == art.nfpmVersion)
      && (d.action == Build <==> d.code == BuildNew || d.code == BuildBump)
  {
    HashAt(q.repo, art.hash);
  }

  /** A package whose discovery failed is skipped, under its name alone. */
  lemma {:induction false} FailedPackageSkipped(q: Querier, p: PlanPackage)
    requires !p.ok
    ensures DecideAll(q, PackageSlots(p)) == Ok([Decision(p.name, "", Skip, DiscoverFailed, 0, "", "", "", "", "")])
  {
    var d := Decision(p.name, "", Skip, DiscoverFailed, 0, "", "", "", "", "");
    assert PackageSlots(p)[1..] == [] && DecideSlot(q, PackageSlots(p)[0]) == Ok(d) && [d] + [] == [d];
    assert DecideAll(q, []) == Ok([]);
  }

  // ----- collision freedom, and when it fails -------------------------------

  /** With a hyphen-free base the chosen version is never one that is already there,
      whatever the repository holds. */
  lemma {:induction false} ChosenVersionIsNew(
    existing: seq<Package>, name: string, art: Artifact, base: string, p: Package)
    requires Judge(existing, name, art, base).action == Build && p in existing
    requires Free(base, '-')
    ensures p.version != VersionString(base, Judge(existing, name, art, base).revision)
  {
    MaxRevisionIsMaximum(existing, base);
    var r := Judge(existing, name, art, base).revision;
    RevisionOfRevised(base, r);
  }

  lemma {:induction false} RevisionOfRevised(base: string, r: nat)
    requires Free(base, '-') || r > 0
    ensures RevisionAt(VersionString(base, r), base) == Some(r)
  {
    SplitRevised(base, r);
    AtoiItoa(r);
    ItoaValue(r);
  }

  /** A hyphenated base can be published on top of itself ... */
  predicate SelfColliding(base: string) {
    SoundVersion(base) && '-' in base && Compare(base, Upstream(base)) >= 0
  }

  lemma {:induction false} BuildsBare(existing: seq<Package>, name: string, art: Artifact, base: string)
    requires MaxUpstream(existing).0 != "" ==> Compare(base, MaxUpstream(existing).0) >= 0
    requires MaxRevision(existing, base).0 == -1
    ensures Judge(existing, name, art, base).action == Build && Judge(existing, name, art, base).revision == 0
  {
  }

  lemma {:induction false} OneScanned(e: Package, base: string)
    ensures MaxUpstream([e]) == (Upstream(e.version), e.version)
    ensures RevisionAt(e.version, base).None? ==> MaxRevision([e], base).0 == -1
  {
    assert [e][..0] == [];
  }

  lemma {:induction false} HyphenatedBaseCollides(name: string, art: Artifact, base: string)
    requires SelfColliding(base)
    ensures var d := Judge([Package(name, base, art.arch, "")], name, art, base);
      d.action == Build && VersionString(base, d.revision) == base
  {
    var p := Package(name, base, art.arch, "");
    OneScanned(p, base);
    NotItsOwnBase(base);
    BuildsBare([p], name, art, base);
  }

  lemma {:induction false} NotItsOwnBase(base: string)
    requires '-' in base
    ensures RevisionAt(base, base).None?
  {
    assert |Upstream(base)| < |base|;
  }

  /** ... such as 1.0-rc1 ... */
  lemma {:induction false} CandidateCollides(v: string)
    requires v == "1.0-rc1"
    ensures SelfColliding(v)
  {
    SplitAtLastHyphen(v, "1.0", "rc1");
    CandidateSound(v);
    RevisionDecides(v, "1.0", "rc1");
    LetterAboveEnd("rc1");
  }

  lemma {:induction false} CandidateSound(v: string)
    requires v == "1.0-rc1"
    ensures NoStrayNul(v) && Free(v, ':') && '-' in v
  {
    assert v[3] == '-';
  }

  lemma {:induction false} RevisionDecides(v: string, up: string, rev: string)
    requires Free(v, ':') && Free(up, ':') && Free(up, '-') && SplitDebianRevision(v) == (up, rev)
    ensures Compare(v, up) == Verrev(rev, "")
  {
    assert v[0..] == v;
    assert SplitFull(v) == Parts(0, up, rev);
    PlainVersion(up);
    VerrevReflexive(up);
  }

  lemma {:induction false} LetterAboveEnd(rev: string)
    requires rev == "rc1"
    ensures Verrev(rev, "") > 0
  {
  }

  /** ... and no other base ever is. */
  lemma {:induction false} CollisionOnlyIfSelfColliding(
    existing: seq<Package>, name: string, art: Artifact, base: string, p: Package)
    requires forall e :: e in existing ==> SoundVersion(e.version)
    requires Judge(existing, name, art, base).action == Build && p in existing
    requires p.version == VersionString(base, Judge(existing, name, art, base).revision)
    ensures SelfColliding(base)
  {
    var r := Judge(existing, name, art, base).revision;
    MaxRevisionIsMaximum(existing, base);
    if Free(base, '-') || r > 0 {
      RevisionOfRevised(base, r);
    } else {
      RegressionMeaning(existing, name, art, base);
      CompareAntisymmetric(base, Upstream(base));
    }
  }
}
