/** Every published snapshot is closed: what its Release lists is served under both names
    with the listed hash, every Packages Filename leads to its own .deb, and over a run
    by-hash paths and redirects stay for exactly one retention. */
module Closure {
  import opened Text
  import opened Index
  import opened Snapshots
  import opened Compose
  import Bootstrap

  // ----- key classes --------------------------------------------------------

  predicate IsDists(p: string) { |p| > 14 && p[1] == 'd' && p[14] == 'm' }

  predicate IsPool(p: string) { |p| > 2 && p[1] == 'p' && p[2] == 'o' }

  lemma {:induction false} CopyPathsAreDists(arch: string, v: Variant, h: string)
    ensures IsDists(CanonicalPath(arch, v)) && IsDists(ByHashPath(arch, h))
  {
    assert DISTS[14] == 'm';
    assert CanonicalPath(arch, v)[14] == DISTS[14] && ByHashPath(arch, h)[14] == DISTS[14];
  }

  lemma {:induction false} PoolPathsArePool(pkg: string, v: string, a: string)
    requires pkg != ""
    ensures IsPool(PoolPath(pkg, v, a)) && IsPool(Bootstrap.PoolPath(pkg, v))
  {
  }

  lemma {:induction false} MetadataKeeps(
    files: map<string, Served<Body>>, release: Bytes, gpg: Bytes, inRelease: Bytes, p: string)
    requires IsDists(p) || IsPool(p)
    ensures var files' := WithMetadata(files, release, gpg, inRelease);
      (p in files' <==> p in files) && (p in files ==> files'[p] == files[p])
  {
    assert !IsDists("/dists/stable/Release") && !IsPool("/dists/stable/Release");
    assert !IsDists("/dists/stable/Release.gpg") && !IsPool("/dists/stable/Release.gpg");
    assert !IsDists("/dists/stable/InRelease") && !IsPool("/dists/stable/InRelease");
  }

  lemma {:induction false} BootstrapKeeps(files: map<string, Served<Body>>, inp: Input, keyring: Bytes, p: string)
    requires Ready(inp) && (IsDists(p) || IsPool(p)) && p != BootstrapPath(inp)
    ensures var files' := WithBootstrap(files, inp, keyring);
      (p in files' <==> p in files) && (p in files ==> files'[p] == files[p])
  {
    assert !IsDists("/pubkey.gpg") && !IsPool("/pubkey.gpg");
    assert !IsDists("/release/stable/latest") && !IsPool("/release/stable/latest");
  }

  lemma {:induction false} BootstrapServed(files: map<string, Served<Body>>, inp: Input, keyring: Bytes)
    requires Ready(inp)
    ensures var files', p := WithBootstrap(files, inp, keyring), BootstrapPath(inp);
      IsPool(p) && p in files' && files'[p].content.data == inp.deb
  {
    PoolPathsArePool(inp.cfg.bootstrapName, inp.bs.version, "");
    assert !IsPool("/pubkey.gpg") && !IsPool("/release/stable/latest");
  }

  // ----- the copies of one variant ------------------------------------------

  ghost predicate SlashFree(archs: set<string>) { forall a :: a in archs ==> Free(a, '/') }

  lemma {:induction false} HashRecorded(mk: Making, inp: Input, tools: Tools, at: Place)
    requires FieldsPresent(tools) && Ready(inp) && MadeIndex(mk, inp, tools) && at.arch in mk.built.perArch
    ensures var p, data := PackagesPath("main", at.arch, at.variant), mk.built.perArch[at.arch].Get(at.variant);
      && p in mk.built.hashes && p in mk.built.sizes && HashOf(mk.built, at.arch, at.variant) == mk.built.hashes[p]
      && mk.built.hashes[p] == tools.codec.sha256(data) && mk.built.sizes[p] == |data|
  {
    assert Recorded("main", at.arch, at.variant, mk.built.perArch[at.arch], mk.built.hashes, mk.built.sizes,
                    tools.codec);
  }

  /** The variant a laid-out file comes from. */
  lemma {:induction false} CopyOrigin(
    files: map<string, Served<Body>>, from: Origins, l: Layout, now: int, archs: set<string>, p: string)
    requires OnlyCopies(files, from, l, now, archs, "", 0) && p in files
    ensures p in from && from[p].arch in archs && CopyOf(p, files[p], from[p], l, now)
  {
    assert Reached(from[p], archs, "", 0);
  }

  lemma {:induction false} CopiesPresent(files: map<string, Served<Body>>, l: Layout, archs: set<string>, at: Place)
    requires AllCopies(files, l, archs, "", 0) && at.arch in archs
    ensures l.canonical(at) in files && l.byHash(at) in files
  {
    assert Reached(at, archs, "", 0) && HasCopies(files, l, at);
  }

  lemma {:induction false} LayoutPaths(b: Built, at: Place)
    ensures LayoutOf(b).canonical(at) == CanonicalPath(at.arch, at.variant)
    ensures LayoutOf(b).byHash(at) == ByHashPath(at.arch, HashOf(b, at.arch, at.variant))
    ensures LayoutOf(b).body(at) == VariantBody(b, at.arch, at.variant)
  {
  }

  /** Distinct variants are laid out apart. */
  ghost predicate Apart(l: Layout, at: Place, o: Place) {
    && (l.canonical(at) == l.canonical(o) ==> at == o)
    && l.canonical(at) != l.byHash(o) && l.canonical(o) != l.byHash(at)
  }

  lemma {:induction false} VariantsApart(b: Built, at: Place, o: Place)
    requires Free(at.arch, '/') && Free(o.arch, '/')
    ensures Apart(LayoutOf(b), at, o)
  {
    LayoutPaths(b, at);
    LayoutPaths(b, o);
    CanonicalIsNotByHash(at.arch, at.variant, o.arch, HashOf(b, o.arch, o.variant));
    CanonicalIsNotByHash(o.arch, o.variant, at.arch, HashOf(b, at.arch, at.variant));
    if CanonicalPath(at.arch, at.variant) == CanonicalPath(o.arch, o.variant) {
      CanonicalInjective(at.arch, at.variant, o.arch, o.variant);
    }
  }

  lemma {:induction false} CanonicalResolved(e: Served<Body>, l: Layout, now: int, at: Place, o: Place)
    requires CopyOf(l.canonical(at), e, o, l, now) && Apart(l, at, o)
    ensures e == Served(l.body(at), None)
  {
  }

  lemma {:induction false} CanonicalCopy(mk: Making, now: int, at: Place)
    requires MadeCopies(mk, now) && SlashFree(mk.built.perArch.Keys) && at.arch in mk.built.perArch
    ensures var l := LayoutOf(mk.built); var p := l.canonical(at);
      p in mk.copies && mk.copies[p] == Served(l.body(at), None)
  {
    CanonicalCopyIn(mk.copies, mk.from, mk.built, now, at);
  }

  lemma {:induction false} CanonicalCopyIn(
    files: map<string, Served<Body>>, from: Origins, b: Built, now: int, at: Place)
    requires OnlyCopies(files, from, LayoutOf(b), now, b.perArch.Keys, "", 0)
    requires AllCopies(files, LayoutOf(b), b.perArch.Keys, "", 0)
    requires SlashFree(b.perArch.Keys) && at.arch in b.perArch
    ensures var l := LayoutOf(b); var p := l.canonical(at);
      p in files && files[p] == Served(l.body(at), None)
  {
    var l, p := LayoutOf(b), LayoutOf(b).canonical(at);
    CopiesPresent(files, l, b.perArch.Keys, at);
    CopyOrigin(files, from, l, now, b.perArch.Keys, p);
    VariantsApart(b, at, from[p]);
    CanonicalResolved(files[p], l, now, at, from[p]);
  }

  lemma {:induction false} ByHashResolved(e: Served<Body>, l: Layout, now: int, at: Place, o: Place)
    requires CopyOf(l.byHash(at), e, o, l, now) && Apart(l, at, o)
    ensures e == Served(l.body(o), Some(now + RETENTION)) && l.byHash(at) == l.byHash(o)
  {
  }

  lemma {:induction false} ByHashCopy(mk: Making, now: int, at: Place) returns (o: Place)
    requires MadeCopies(mk, now) && SlashFree(mk.built.perArch.Keys) && at.arch in mk.built.perArch
    ensures var l := LayoutOf(mk.built); var p := l.byHash(at);
      && p in mk.copies && mk.copies[p] == Served(l.body(o), Some(now + RETENTION))
      && o.arch in mk.built.perArch && p == l.byHash(o)
  {
    o := ByHashCopyIn(mk.copies, mk.from, mk.built, now, at);
  }

  lemma {:induction false} ByHashCopyIn(files: map<string, Served<Body>>, from: Origins, b: Built, now: int, at: Place)
      returns (o: Place)
    requires OnlyCopies(files, from, LayoutOf(b), now, b.perArch.Keys, "", 0)
    requires AllCopies(files, LayoutOf(b), b.perArch.Keys, "", 0)
    requires SlashFree(b.perArch.Keys) && at.arch in b.perArch
    ensures var l := LayoutOf(b); var p := l.byHash(at);
      && p in files && files[p] == Served(l.body(o), Some(now + RETENTION))
      && o.arch in b.perArch && p == l.byHash(o)
  {
    var l, p := LayoutOf(b), LayoutOf(b).byHash(at);
    CopiesPresent(files, l, b.perArch.Keys, at);
    CopyOrigin(files, from, l, now, b.perArch.Keys, p);
    o := from[p];
    VariantsApart(b, at, o);
    ByHashResolved(files[p], l, now, at, o);
  }

  lemma {:induction false} SameHash(b: Built, at: Place, o: Place)
    requires Free(at.arch, '/') && Free(o.arch, '/') && LayoutOf(b).byHash(at) == LayoutOf(b).byHash(o)
    ensures HashOf(b, at.arch, at.variant) == HashOf(b, o.arch, o.variant)
  {
    LayoutPaths(b, at);
    LayoutPaths(b, o);
    ByHashInjective(at.arch, HashOf(b, at.arch, at.variant), o.arch, HashOf(b, o.arch, o.variant));
  }

  /** What one line "hash size path" of Release promises about a snapshot. */
  ghost predicate LineServed(s: Snapshot, mk: Making, tools: Tools, arch: string, v: Variant) {
    var line := PackagesPath("main", arch, v);
    var canonical := CanonicalPath(arch, v);
    && line in mk.built.hashes && line in mk.built.sizes
    && var hash, size := mk.built.hashes[line], mk.built.sizes[line];
       var byHash := ByHashPath(arch, hash);
       && canonical in s.files && byHash in s.files
       && tools.codec.sha256(s.files[canonical].content.data) == hash && |s.files[canonical].content.data| == size
       && tools.codec.sha256(s.files[byHash].content.data) == hash
       && (CollisionFree(tools.codec.sha256) ==> s.files[byHash].content.data == s.files[canonical].content.data)
  }

  lemma {:induction false} MadeLineServed(m: Snapshot, mk: Making, inp: Input, tools: Tools, at: Place)
    requires FieldsPresent(tools) && Ready(inp) && MadeFrom(m, mk, inp, tools)
    requires SlashFree(mk.built.perArch.Keys) && at.arch in mk.built.perArch
    ensures LineServed(m, mk, tools, at.arch, at.variant)
  {
    var l := LayoutOf(mk.built);
    LayoutPaths(mk.built, at);
    HashRecorded(mk, inp, tools, at);
    CanonicalCopy(mk, inp.now, at);
    CopyServed(mk, inp, tools, at, l.canonical(at));
    var o := ByHashCopy(mk, inp.now, at);
    CopyServed(mk, inp, tools, at, l.byHash(at));
    LayoutPaths(mk.built, o);
    HashRecorded(mk, inp, tools, o);
    SameHash(mk.built, at, o);
  }

  function LaidOver(mk: Making, inp: Input, keyring: Bytes): map<string, Served<Body>>
    requires Ready(inp)
  {
    WithBootstrap(WithMetadata(mk.copies, mk.built.release, mk.gpg, mk.inRelease), inp, keyring)
  }

  /** The metadata and bootstrap files do not get in the way of the copies. */
  lemma {:induction false} CopyServed(mk: Making, inp: Input, tools: Tools, at: Place, p: string)
    requires Ready(inp) && p in mk.copies
    requires p == LayoutOf(mk.built).canonical(at) || p == LayoutOf(mk.built).byHash(at)
    ensures p in LaidOver(mk, inp, tools.keyring) && LaidOver(mk, inp, tools.keyring)[p] == mk.copies[p]
  {
    CopyPathIsDists(mk.built, at, p);
    LaidOverKeeps(mk, inp, tools, p);
  }

  lemma {:induction false} CopyPathIsDists(b: Built, at: Place, p: string)
    requires p == LayoutOf(b).canonical(at) || p == LayoutOf(b).byHash(at)
    ensures IsDists(p)
  {
    LayoutPaths(b, at);
    CopyPathsAreDists(at.arch, at.variant, HashOf(b, at.arch, at.variant));
  }

  lemma {:induction false} LaidOverKeeps(mk: Making, inp: Input, tools: Tools, p: string)
    requires Ready(inp) && IsDists(p)
    ensures var files := LaidOver(mk, inp, tools.keyring);
      (p in files <==> p in mk.copies) && (p in mk.copies ==> files[p] == mk.copies[p])
  {
    PoolPathsArePool(inp.cfg.bootstrapName, inp.bs.version, "");
    MetadataKeeps(mk.copies, mk.built.release, mk.gpg, mk.inRelease, p);
    BootstrapKeeps(WithMetadata(mk.copies, mk.built.release, mk.gpg, mk.inRelease), inp, tools.keyring, p);
  }

  /** Every line of Release is served: under its canonical path with the listed hash and
      size, and under its by-hash path with the listed hash; also after carry-over. */
  lemma {:induction false} ReleaseIsClosed(
    prev: Option<Snapshot>, s: Snapshot, m: Snapshot, mk: Making, inp: Input, tools: Tools, line: string)
      returns (at: Place)
    requires FieldsPresent(tools) && Ready(inp) && ComposesTo(prev, s, m, mk, inp, tools)
    requires forall a :: a in inp.cfg.architectures ==> Free(a, '/')
    requires line in mk.built.hashes
    ensures line == PackagesPath("main", at.arch, at.variant) && at.arch in inp.cfg.architectures
    ensures LineServed(s, mk, tools, at.arch, at.variant)
    ensures CanonicalPath(at.arch, at.variant) == "/dists/stable/" + line
    ensures ByHashPath(at.arch, mk.built.hashes[line])
      == "/dists/stable/main/binary-" + (at.arch + ("/by-hash/SHA256/" + mk.built.hashes[line]))
  {
    var a, v :| a in mk.built.perArch.Keys && line == PackagesPath("main", a, v);
    at := Place(a, v);
    ListedNames(a, v, mk.built.hashes[line]);
    MadeLineServed(m, mk, inp, tools, at);
  }

  /** Both names as a client makes them from a line of Release. */
  lemma {:induction false} ListedNames(arch: string, v: Variant, hash: string)
    ensures CanonicalPath(arch, v) == "/dists/stable/" + PackagesPath("main", arch, v)
    ensures ByHashPath(arch, hash) == "/dists/stable/main/binary-" + (arch + ("/by-hash/SHA256/" + hash))
  {
    PackagesPathShape(arch, v);
    SameHeads("/dists/stable/", "main/binary-", arch + ("/Packages" + Suffix(v)));
  }

  lemma {:induction false} SameHeads(head: string, more: string, rest: string)
    ensures (head + more) + rest == head + (more + rest)
  {
  }

  predicate IsSigned(p: string) {
    p == "/dists/stable/Release" || p == "/dists/stable/Release.gpg" || p == "/dists/stable/InRelease"
  }

  /** What stands under the three names. */
  function SignedBytes(p: string, release: Bytes, gpg: Bytes, inRelease: Bytes): Bytes
    requires IsSigned(p)
  {
    if p == "/dists/stable/Release" then release else if p == "/dists/stable/Release.gpg" then gpg else inRelease
  }

  /** Served as what it is, by this snapshot only. */
  predicate SignedEntry(e: Served<Body>, p: string, data: Bytes) {
    var contentType := if p == "/dists/stable/Release.gpg" then "application/pgp-signature" else "text/plain";
    e == Served(Body(data, contentType), None)
  }

  lemma {:induction false} MetadataServed(
    files: map<string, Served<Body>>, release: Bytes, gpg: Bytes, inRelease: Bytes, p: string)
    requires IsSigned(p)
    ensures var files' := WithMetadata(files, release, gpg, inRelease);
      p in files' && SignedEntry(files'[p], p, SignedBytes(p, release, gpg, inRelease))
  {
    var r, g, i := "/dists/stable/Release", "/dists/stable/Release.gpg", "/dists/stable/InRelease";
    assert |r| != |g| && |i| != |g| && r[14] != i[14];
  }

  lemma {:induction false} BootstrapKeepsMetadata(
    files: map<string, Served<Body>>, inp: Input, keyring: Bytes, p: string)
    requires Ready(inp) && |p| > 1 && p[1] == 'd'
    ensures var files' := WithBootstrap(files, inp, keyring);
      (p in files' <==> p in files) && (p in files ==> files'[p] == files[p])
  {
    PoolPathsArePool(inp.cfg.bootstrapName, inp.bs.version, "");
    var k, t := "/pubkey.gpg", "/release/stable/latest";
    assert k[1] != 'd' && t[1] != 'd';
  }

  /** The Release, its signature and the InRelease on display are the ones the tick built
      and signed. */
  lemma {:induction false} SignedFilesServed(
    prev: Option<Snapshot>, s: Snapshot, m: Snapshot, mk: Making, inp: Input, tools: Tools, p: string)
    requires FieldsPresent(tools) && Ready(inp) && ComposesTo(prev, s, m, mk, inp, tools) && IsSigned(p)
    ensures tools.clearsign(mk.built.release).Some? && tools.detachSign(mk.built.release).Some?
    ensures p in s.files && SignedEntry(s.files[p], p, SignedBytes(
      p, mk.built.release, tools.detachSign(mk.built.release).value, tools.clearsign(mk.built.release).value))
  {
    SignedLaidOver(mk, inp, tools, p);
    assert p in m.files;
  }

  lemma {:induction false} SignedLaidOver(mk: Making, inp: Input, tools: Tools, p: string)
    requires Ready(inp) && IsSigned(p)
    ensures var files := LaidOver(mk, inp, tools.keyring);
      p in files && SignedEntry(files[p], p, SignedBytes(p, mk.built.release, mk.gpg, mk.inRelease))
  {
    assert p[1] == 'd';
    MetadataServed(mk.copies, mk.built.release, mk.gpg, mk.inRelease, p);
    BootstrapKeepsMetadata(WithMetadata(mk.copies, mk.built.release, mk.gpg, mk.inRelease), inp, tools.keyring, p);
  }

  // ----- Filenames resolve --------------------------------------------------

  /** Served pool files belong to the bootstrap package. */
  ghost predicate PoolIsBootstrap(files: map<string, Served<Body>>, name: string)
    requires name != ""
  {
    forall p :: p in files && IsPool(p) ==> exists v :: p == Bootstrap.PoolPath(name, v)
  }

  lemma {:induction false} MadePoolIsBootstrap(mk: Making, inp: Input, tools: Tools)
    requires Ready(inp) && MadeCopies(mk, inp.now)
    ensures PoolIsBootstrap(LaidOver(mk, inp, tools.keyring), inp.cfg.bootstrapName)
  {
    var files := LaidOver(mk, inp, tools.keyring);
    forall p | p in files && IsPool(p) ensures exists v :: p == Bootstrap.PoolPath(inp.cfg.bootstrapName, v) {
      if p == BootstrapPath(inp) {
        assert p == Bootstrap.PoolPath(inp.cfg.bootstrapName, inp.bs.version);
      } else {
        MetadataKeeps(mk.copies, mk.built.release, mk.gpg, mk.inRelease, p);
        BootstrapKeeps(WithMetadata(mk.copies, mk.built.release, mk.gpg, mk.inRelease), inp, tools.keyring, p);
        CopiesAreDists(mk.copies, mk.from, mk.built, inp.now, p);
      }
    }
  }

  lemma {:induction false} CopiesAreDists(
    files: map<string, Served<Body>>, from: Origins, b: Built, now: int, p: string)
    requires OnlyCopies(files, from, LayoutOf(b), now, b.perArch.Keys, "", 0) && p in files
    ensures IsDists(p)
  {
    CopyPathIsDists(b, from[p], p);
  }

  /** Carry-over adds no other pool files. */
  lemma {:induction false} PoolStaysBootstrap(
    prev: Option<Snapshot>, s: Snapshot, m: Snapshot, mk: Making, inp: Input, tools: Tools)
    requires FieldsPresent(tools) && Ready(inp) && ComposesTo(prev, s, m, mk, inp, tools)
    requires prev.Some? ==> PoolIsBootstrap(prev.value.files, inp.cfg.bootstrapName)
    ensures PoolIsBootstrap(s.files, inp.cfg.bootstrapName)
  {
    MadePoolIsBootstrap(mk, inp, tools);
    assert PoolIsBootstrap(m.files, inp.cfg.bootstrapName);
  }

  /** Name parts that can be told apart in a pool path, and no source under the
      bootstrap package's name. */
  ghost predicate NamesOk(inp: Input, tools: Tools) {
    Free(inp.cfg.bootstrapName, '/') &&
    forall n :: n in inp.states && Usable(tools, inp.states[n]) ==>
      var f := tools.extractFields(inp.states[n].control).value;
      Free(f.package, '/') && Free(f.version, '_') && f.package != inp.cfg.bootstrapName
  }

  /** Where a Packages stanza says its .deb is. */
  function FilenamePath(e: Entry): string { "/" + TrimSlash(e.poolPath) }

  lemma {:induction false} SourcePathIsFilename(tools: Tools, n: string, st: SourceState)
    requires FieldsPresent(tools) && Usable(tools, st)
    ensures FilenamePath(SourceEntry(tools, n, st)) == SourcePath(tools, st) && IsPool(SourcePath(tools, st))
  {
    var p := SourcePath(tools, st);
    assert p[0] == '/';
    assert "/" + p[1..] == p;
  }

  lemma {:induction false} RedirectOwner(redirects: map<string, Served<string>>, inp: Input, tools: Tools, n: string)
      returns (o: string)
    requires FieldsPresent(tools) && RedirectsLaidOut(tools, inp.states, inp.now, redirects)
    requires n in inp.states && Usable(tools, inp.states[n])
    ensures var p := SourcePath(tools, inp.states[n]);
      p in redirects && RedirectOf(p, redirects[p], o, tools, inp.states, inp.now)
  {
    var p := SourcePath(tools, inp.states[n]);
    o :| RedirectOf(p, redirects[p], o, tools, inp.states, inp.now);
  }

  /** One source's redirect is its own: no other usable source has its path. */
  lemma {:induction false} OwnRedirect(mk: Making, inp: Input, tools: Tools, n: string)
    requires FieldsPresent(tools) && Ready(inp) && MadeIndex(mk, inp, tools) && NamesOk(inp, tools)
    requires RedirectsLaidOut(tools, inp.states, inp.now, mk.redirects)
    requires n in inp.states && Usable(tools, inp.states[n])
    ensures var p := SourcePath(tools, inp.states[n]);
      p in mk.redirects && mk.redirects[p] == SourceRedirect(inp.states[n], inp.now)
  {
    var p := SourcePath(tools, inp.states[n]);
    var o := RedirectOwner(mk.redirects, inp, tools, n);
    SamePathSameSource(mk, inp, tools, n, o);
  }

  lemma {:induction false} SamePathSameSource(mk: Making, inp: Input, tools: Tools, n: string, o: string)
    requires FieldsPresent(tools) && Ready(inp) && MadeIndex(mk, inp, tools) && NamesOk(inp, tools)
    requires n in inp.states && Usable(tools, inp.states[n]) && o in inp.states && Usable(tools, inp.states[o])
    requires SourcePath(tools, inp.states[n]) == SourcePath(tools, inp.states[o])
    ensures n == o
  {
    var f := tools.extractFields(inp.states[n].control).value;
    var g := tools.extractFields(inp.states[o].control).value;
    PoolPathInjective(f.package, f.version, f.architecture, g.package, g.version, g.architecture);
    assert f == g;
    var e, d := SourceEntry(tools, n, inp.states[n]), SourceEntry(tools, o, inp.states[o]);
    if e != d { StrictForbidsTwins(mk, inp, e, d); }
    assert e.sourceName == n && d.sourceName == o;
  }

  lemma {:induction false} StrictForbidsTwins(mk: Making, inp: Input, e: Entry, d: Entry)
    requires forall err :: !Offends(err, SuiteOf(inp.cfg), mk.Entries())
    requires e in mk.sources && d in mk.sources && e.fields == d.fields
    ensures e == d
  {
    var s, es := SuiteOf(inp.cfg), mk.Entries();
    var i :| 0 <= i < |mk.sources| && mk.sources[i] == e;
    var j :| 0 <= j < |mk.sources| && mk.sources[j] == d;
    assert es[i] == e && es[j] == d && e in es;
    assert !Offends(BadArchitecture(e.sourceName, e.fields.architecture), s, es);
    assert !Offends(Duplicate(e.fields), s, es);
    assert i == j;
  }

  lemma {:induction false} LatestIsNotPool()
    ensures !IsPool(LATEST_DEB)
  {
  }

  /** What a Filename leads to: the upstream URL of the entry's source, or the bytes of the
      bootstrap package. */
  ghost predicate Leads(found: Found, e: Entry, mk: Making, inp: Input, tools: Tools)
    requires FieldsPresent(tools)
  {
    match found
    case File(body) => e == mk.bootstrap && body.data == inp.deb
    case Redirect(url) => exists n :: EntryOf(e, n, tools, inp.states) && url == inp.states[n].assetURL
    case Miss => false
  }

  lemma {:induction false} RedirectStays(
    prev: Option<Snapshot>, s: Snapshot, m: Snapshot, redirects: map<string, Served<string>>,
    latest: Served<string>, p: string)
    requires s == OnTopOf(m, prev) && m.redirects == redirects[LATEST_DEB := latest] && IsPool(p) && p in redirects
    ensures p in s.redirects && s.redirects[p] == redirects[p]
  {
    LatestIsNotPool();
    assert p in m.redirects && m.redirects[p] == redirects[p];
  }

  lemma {:induction false} NotAFile(s: Snapshot, inp: Input, tools: Tools, n: string, e: Entry, r: Served<string>)
    requires FieldsPresent(tools) && Ready(inp) && NamesOk(inp, tools) && EntryOf(e, n, tools, inp.states)
    requires PoolIsBootstrap(s.files, inp.cfg.bootstrapName)
    requires var p := SourcePath(tools, inp.states[n]); p in s.redirects && s.redirects[p] == r
    ensures Lookup(s, FilenamePath(e)) == Redirect(r.content)
  {
    SourcePathIsFilename(tools, n, inp.states[n]);
    SourceNotAFile(s.files, inp, tools, n);
  }

  lemma {:induction false} SourceResolves(
    prev: Option<Snapshot>, s: Snapshot, m: Snapshot, mk: Making, inp: Input, tools: Tools, e: Entry, n: string)
    requires FieldsPresent(tools) && Ready(inp) && ComposesTo(prev, s, m, mk, inp, tools) && NamesOk(inp, tools)
    requires prev.Some? ==> PoolIsBootstrap(prev.value.files, inp.cfg.bootstrapName)
    requires EntryOf(e, n, tools, inp.states)
    ensures Lookup(s, FilenamePath(e)) == Redirect(inp.states[n].assetURL)
  {
    SourcePathIsFilename(tools, n, inp.states[n]);
    OwnRedirect(mk, inp, tools, n);
    RedirectStays(prev, s, m, mk.redirects, Served(inp.cfg.pathPrefix + BootstrapPath(inp), None),
                  SourcePath(tools, inp.states[n]));
    PoolStaysBootstrap(prev, s, m, mk, inp, tools);
    NotAFile(s, inp, tools, n, e, SourceRedirect(inp.states[n], inp.now));
  }

  /** Every Packages Filename resolves through Lookup to that entry's own .deb. */
  lemma {:induction false} FilenamesResolve(
    prev: Option<Snapshot>, s: Snapshot, m: Snapshot, mk: Making, inp: Input, tools: Tools, e: Entry)
    requires FieldsPresent(tools) && Ready(inp) && ComposesTo(prev, s, m, mk, inp, tools) && NamesOk(inp, tools)
    requires prev.Some? ==> PoolIsBootstrap(prev.value.files, inp.cfg.bootstrapName)
    requires e in mk.Entries()
    ensures Leads(Lookup(s, FilenamePath(e)), e, mk, inp, tools)
  {
    if e == mk.bootstrap {
      BootstrapResolves(m, mk, inp, tools);
    } else {
      var n :| EntryOf(e, n, tools, inp.states);
      SourceResolves(prev, s, m, mk, inp, tools, e, n);
    }
  }

  lemma {:induction false} BootstrapResolves(m: Snapshot, mk: Making, inp: Input, tools: Tools)
    requires FieldsPresent(tools) && Ready(inp) && MadeFrom(m, mk, inp, tools)
    ensures var p := FilenamePath(mk.bootstrap); p in m.files && m.files[p].content.data == inp.deb
  {
    var p := BootstrapPath(inp);
    assert p[0] == '/';
    assert "/" + p[1..] == p;
    BootstrapServed(WithMetadata(mk.copies, mk.built.release, mk.gpg, mk.inRelease), inp, tools.keyring);
  }

  lemma {:induction false} SourceNotAFile(files: map<string, Served<Body>>, inp: Input, tools: Tools, n: string)
    requires FieldsPresent(tools) && Ready(inp) && NamesOk(inp, tools)
    requires PoolIsBootstrap(files, inp.cfg.bootstrapName)
    requires n in inp.states && Usable(tools, inp.states[n])
    ensures SourcePath(tools, inp.states[n]) !in files
  {
    var p, f := SourcePath(tools, inp.states[n]), tools.extractFields(inp.states[n].control).value;
    PoolPathsArePool(f.package, f.version, f.architecture);
    if p in files {
      var v :| p == Bootstrap.PoolPath(inp.cfg.bootstrapName, v);
      PoolPathsApart(f.package, f.version, f.architecture, inp.cfg.bootstrapName, v);
    }
  }

  // ----- over a run ---------------------------------------------------------

  /** A tick that published, with its intermediate values, or one that failed. */
  datatype Beat = Published(inp: Input, m: Snapshot, mk: Making) | Kept(now: int)

  ghost predicate BeatOk(prev: Option<Snapshot>, next: Option<Snapshot>, b: Beat, tools: Tools, name: string)
    requires FieldsPresent(tools)
  {
    match b
    case Kept(_) => next == prev
    case Published(inp, m, mk) =>
      && inp.cfg.bootstrapName == name && Ready(inp) && NamesOk(inp, tools)
      && next.Some? && ComposesTo(prev, next.value, m, mk, inp, tools)
  }

  /** snaps[0] is the empty holder; snaps[k + 1] is on display after beat k. */
  ghost predicate RunOk(snaps: seq<Option<Snapshot>>, beats: seq<Beat>, tools: Tools, name: string)
    requires FieldsPresent(tools)
  {
    && |snaps| == |beats| + 1 && snaps[0] == None
    && forall k :: 0 <= k < |beats| ==> BeatOk(snaps[k], snaps[k + 1], beats[k], tools, name)
  }

  /** In every run, every snapshot ever on display resolves every Filename it published. */
  lemma {:induction false} EveryRunResolves(
    snaps: seq<Option<Snapshot>>, beats: seq<Beat>, tools: Tools, name: string, k: nat, e: Entry)
    requires FieldsPresent(tools) && name != "" && RunOk(snaps, beats, tools, name)
    requires k < |beats| && beats[k].Published? && e in beats[k].mk.Entries()
    ensures snaps[k + 1].Some?
    ensures Leads(Lookup(snaps[k + 1].value, FilenamePath(e)), e, beats[k].mk, beats[k].inp, tools)
  {
    RunPool(snaps, beats, tools, name, k);
    assert BeatOk(snaps[k], snaps[k + 1], beats[k], tools, name);
    FilenamesResolve(snaps[k], snaps[k + 1].value, beats[k].m, beats[k].mk, beats[k].inp, tools, e);
  }

  lemma {:induction false} RunPool(snaps: seq<Option<Snapshot>>, beats: seq<Beat>, tools: Tools, name: string, k: nat)
    requires FieldsPresent(tools) && name != "" && RunOk(snaps, beats, tools, name) && k <= |beats|
    ensures snaps[k].Some? ==> PoolIsBootstrap(snaps[k].value.files, name)
  {
    if k > 0 {
      RunPool(snaps, beats, tools, name, k - 1);
      var b := beats[k - 1];
      assert BeatOk(snaps[k - 1], snaps[k], b, tools, name);
      if b.Published? { PoolStaysBootstrap(snaps[k - 1], snaps[k].value, b.m, b.mk, b.inp, tools); }
    }
  }

  function FilesTick(b: Beat): Tick<Body> {
    match b case Kept(now) => Tick(now, None) case Published(inp, m, _) => Tick(inp.now, Some(m.files))
  }

  function RedirectsTick(b: Beat): Tick<string> {
    match b case Kept(now) => Tick(now, None) case Published(inp, m, _) => Tick(inp.now, Some(m.redirects))
  }

  function FilesTicks(beats: seq<Beat>): (ticks: seq<Tick<Body>>)
    ensures |ticks| == |beats| && forall i :: 0 <= i < |beats| ==> ticks[i] == FilesTick(beats[i])
  {
    seq(|beats|, i requires 0 <= i < |beats| => FilesTick(beats[i]))
  }

  function RedirectsTicks(beats: seq<Beat>): (ticks: seq<Tick<string>>)
    ensures |ticks| == |beats| && forall i :: 0 <= i < |beats| ==> ticks[i] == RedirectsTick(beats[i])
  {
    seq(|beats|, i requires 0 <= i < |beats| => RedirectsTick(beats[i]))
  }

  function FilesShown(s: Option<Snapshot>): map<string, Served<Body>> { if s.Some? then s.value.files else map[] }

  function RedirectsShown(s: Option<Snapshot>): map<string, Served<string>> {
    if s.Some? then s.value.redirects else map[]
  }

  lemma {:induction false} CarryOnNothing<V>(made: map<string, Served<V>>, now: int)
    ensures Carry(made, map[], now) == made
  {
  }

  lemma {:induction false} BeatShows(
    prev: Option<Snapshot>, next: Option<Snapshot>, b: Beat, tools: Tools, name: string)
    requires FieldsPresent(tools) && BeatOk(prev, next, b, tools, name)
    ensures FilesShown(next) == Shown(FilesTick(b), FilesShown(prev))
    ensures RedirectsShown(next) == Shown(RedirectsTick(b), RedirectsShown(prev))
  {
    if b.Published? && prev.None? {
      CarryOnNothing(b.m.files, b.inp.now);
      CarryOnNothing(b.m.redirects, b.inp.now);
    }
  }

  /** What is on display after k ticks, files and redirects, is what the whole history says. */
  lemma {:induction false} RunIsHistory(
    snaps: seq<Option<Snapshot>>, beats: seq<Beat>, tools: Tools, name: string, k: nat)
    requires FieldsPresent(tools) && RunOk(snaps, beats, tools, name) && k <= |beats|
    ensures FilesShown(snaps[k]) == Snapshots.Published(FilesTicks(beats)[..k])
    ensures RedirectsShown(snaps[k]) == Snapshots.Published(RedirectsTicks(beats)[..k])
  {
    var files := seq(|snaps|, i requires 0 <= i < |snaps| => FilesShown(snaps[i]));
    var redirects := seq(|snaps|, i requires 0 <= i < |snaps| => RedirectsShown(snaps[i]));
    forall i | 0 <= i < |beats|
      ensures files[i + 1] == Shown(FilesTick(beats[i]), files[i])
      ensures redirects[i + 1] == Shown(RedirectsTick(beats[i]), redirects[i])
    {
      BeatShows(snaps[i], snaps[i + 1], beats[i], tools, name);
    }
    ShownIsPublished(FilesTicks(beats), files, k);
    ShownIsPublished(RedirectsTicks(beats), redirects, k);
  }

  // ----- how long a by-hash path and a redirect stay ------------------------

  /** Some variant of the architecture was listed with this hash. */
  predicate Lists(b: Built, arch: string, hash: string) {
    arch in b.perArch && exists v: Variant :: HashOf(b, arch, v) == hash
  }

  lemma {:induction false} ByHashOrigin(e: Served<Body>, b: Built, now: int, o: Place, arch: string, hash: string)
    requires CopyOf(ByHashPath(arch, hash), e, o, LayoutOf(b), now) && Free(arch, '/') && Free(o.arch, '/')
    ensures o.arch == arch && HashOf(b, o.arch, o.variant) == hash
    ensures e == Served(LayoutOf(b).body(o), Some(now + RETENTION))
  {
    LayoutPaths(b, o);
    CanonicalIsNotByHash(o.arch, o.variant, arch, hash);
    ByHashInjective(arch, hash, o.arch, HashOf(b, o.arch, o.variant));
  }

  lemma {:induction false} ServedIsListed(
    files: map<string, Served<Body>>, from: Origins, b: Built, now: int, arch: string, hash: string)
    requires OnlyCopies(files, from, LayoutOf(b), now, b.perArch.Keys, "", 0) && ByHashPath(arch, hash) in files
    requires SlashFree(b.perArch.Keys) && Free(arch, '/')
    ensures Lists(b, arch, hash) && files[ByHashPath(arch, hash)].expiresAt == Some(now + RETENTION)
  {
    var p := ByHashPath(arch, hash);
    CopyOrigin(files, from, LayoutOf(b), now, b.perArch.Keys, p);
    ByHashOrigin(files[p], b, now, from[p], arch, hash);
  }

  lemma {:induction false} ListedIsServed(files: map<string, Served<Body>>, b: Built, arch: string, hash: string)
    requires AllCopies(files, LayoutOf(b), b.perArch.Keys, "", 0) && Lists(b, arch, hash)
    ensures ByHashPath(arch, hash) in files
  {
    var v: Variant :| HashOf(b, arch, v) == hash;
    CopiesPresent(files, LayoutOf(b), b.perArch.Keys, Place(arch, v));
    LayoutPaths(b, Place(arch, v));
  }

  /** A fresh snapshot holds a by-hash path exactly when its Release lists that hash, for
      one retention. */
  ghost predicate ByHashOf(files: map<string, Served<Body>>, b: Built, now: int, arch: string, hash: string) {
    var p := ByHashPath(arch, hash);
    && (p in files <==> Lists(b, arch, hash))
    && (p in files ==> files[p].expiresAt == Some(now + RETENTION))
  }

  lemma {:induction false} CopiesByHash(
    files: map<string, Served<Body>>, from: Origins, b: Built, now: int, arch: string, hash: string)
    requires OnlyCopies(files, from, LayoutOf(b), now, b.perArch.Keys, "", 0)
    requires AllCopies(files, LayoutOf(b), b.perArch.Keys, "", 0)
    requires SlashFree(b.perArch.Keys) && Free(arch, '/')
    ensures ByHashOf(files, b, now, arch, hash)
  {
    if ByHashPath(arch, hash) in files { ServedIsListed(files, from, b, now, arch, hash); }
    if Lists(b, arch, hash) { ListedIsServed(files, b, arch, hash); }
  }

  lemma {:induction false} LaidOverByHash(mk: Making, inp: Input, tools: Tools, arch: string, hash: string)
    requires Ready(inp) && ByHashOf(mk.copies, mk.built, inp.now, arch, hash)
    ensures ByHashOf(LaidOver(mk, inp, tools.keyring), mk.built, inp.now, arch, hash)
  {
    CopyPathsAreDists(arch, Plain, hash);
    LaidOverKeeps(mk, inp, tools, ByHashPath(arch, hash));
  }

  /** What of a composition the files on display depend on. */
  ghost predicate FilesMade(m: Snapshot, mk: Making, inp: Input, tools: Tools) {
    Ready(inp) && m.files == LaidOver(mk, inp, tools.keyring) && MadeCopies(mk, inp.now)
  }

  lemma {:induction false} MadeByHash(m: Snapshot, mk: Making, inp: Input, tools: Tools, arch: string, hash: string)
    requires FilesMade(m, mk, inp, tools) && SlashFree(mk.built.perArch.Keys) && Free(arch, '/')
    ensures ByHashOf(m.files, mk.built, inp.now, arch, hash)
  {
    CopiesByHash(mk.copies, mk.from, mk.built, inp.now, arch, hash);
    LaidOverByHash(mk, inp, tools, arch, hash);
  }

  lemma {:induction false} BeatMade(prev: Option<Snapshot>, next: Option<Snapshot>, b: Beat, tools: Tools, name: string)
    requires FieldsPresent(tools) && name != "" && BeatOk(prev, next, b, tools, name) && b.Published?
    ensures FilesMade(b.m, b.mk, b.inp, tools)
    ensures RedirectsLaidOut(tools, b.inp.states, b.inp.now, b.mk.redirects)
    ensures forall a :: a in b.mk.built.perArch.Keys ==> a in b.inp.cfg.architectures
    ensures exists url :: b.m.redirects == b.mk.redirects[LATEST_DEB := Served(url, None)]
  {
  }

  /** Published at beat i with that hash in its Release. */
  predicate ListsAt(b: Beat, arch: string, hash: string) { b.Published? && Lists(b.mk.built, arch, hash) }

  ghost predicate SlashFreeRun(beats: seq<Beat>) {
    forall i, a :: 0 <= i < |beats| && beats[i].Published? && a in beats[i].inp.cfg.architectures ==> Free(a, '/')
  }

  lemma {:induction false} BeatByHash(
    snaps: seq<Option<Snapshot>>, beats: seq<Beat>, tools: Tools, name: string, i: nat, arch: string, hash: string)
    requires FieldsPresent(tools) && name != "" && RunOk(snaps, beats, tools, name) && i < |beats|
    requires SlashFreeRun(beats) && Free(arch, '/')
    ensures beats[i].Published? ==> ByHashOf(beats[i].m.files, beats[i].mk.built, beats[i].inp.now, arch, hash)
  {
    if beats[i].Published? {
      BeatMade(snaps[i], snaps[i + 1], beats[i], tools, name);
      MadeByHash(beats[i].m, beats[i].mk, beats[i].inp, tools, arch, hash);
    }
  }

  predicate ProducesAsListed(b: Beat, arch: string, hash: string) {
    var t, p := FilesTick(b), ByHashPath(arch, hash);
    && (Produces(t, p) <==> ListsAt(b, arch, hash))
    && (Produces(t, p) ==> t.made.value[p].expiresAt == Some(t.at + RETENTION))
  }

  lemma {:induction false} BeatProduces(b: Beat, arch: string, hash: string)
    requires b.Published? ==> ByHashOf(b.m.files, b.mk.built, b.inp.now, arch, hash)
    ensures ProducesAsListed(b, arch, hash)
  {
  }

  /** The time of a beat. */
  function At(b: Beat): int { FilesTick(b).at }

  predicate TimesAdvance(beats: seq<Beat>) { forall i, j :: 0 <= i < j < |beats| ==> At(beats[i]) <= At(beats[j]) }

  /** Beat n is the last of the first k that published. */
  predicate IsShown(beats: seq<Beat>, k: nat, n: nat) {
    n < k <= |beats| && beats[n].Published? && forall i :: n < i < k ==> beats[i].Kept?
  }

  lemma {:induction false} ShownIsLast(beats: seq<Beat>, k: nat, n: nat)
    requires IsShown(beats, k, n)
    ensures LastSuccess(FilesTicks(beats)[..k]) == n && LastSuccess(RedirectsTicks(beats)[..k]) == n
  {
    var f, r := FilesTicks(beats)[..k], RedirectsTicks(beats)[..k];
    assert f[n].made.Some? && r[n].made.Some?;
    assert forall i :: n < i < k ==> f[i].made.None? && r[i].made.None?;
  }

  lemma {:induction false} HistoryByHash(beats: seq<Beat>, k: nat, n: nat, arch: string, hash: string)
    requires TimesAdvance(beats) && IsShown(beats, k, n)
    requires forall i :: 0 <= i < k ==> ProducesAsListed(beats[i], arch, hash)
    ensures ByHashPath(arch, hash) in Snapshots.Published(FilesTicks(beats)[..k]) <==>
      exists i :: 0 <= i <= n && ListsAt(beats[i], arch, hash) && (i == n || At(beats[i]) + RETENTION > At(beats[n]))
  {
    var ticks, p := FilesTicks(beats)[..k], ByHashPath(arch, hash);
    ShownIsLast(beats, k, n);
    forall i | 0 <= i < k && Produces(ticks[i], p)
      ensures ticks[i].made.value[p].expiresAt == Some(ticks[i].at + RETENTION)
    {
      assert ProducesAsListed(beats[i], arch, hash);
    }
    ExpiringServedExactly(ticks, p);
    forall i | 0 <= i <= n
      ensures StillServed(ticks, p, i, n)
        <==> ListsAt(beats[i], arch, hash) && (i == n || At(beats[i]) + RETENTION > At(beats[n]))
    {
      assert ProducesAsListed(beats[i], arch, hash);
    }
  }

  /** In every run, after any number of ticks: a by-hash path is served exactly when the
      Release on display lists the hash, or some earlier one did that is less than a
      retention older. */
  lemma {:induction false} ByHashServedExactly(
    snaps: seq<Option<Snapshot>>, beats: seq<Beat>, tools: Tools, name: string,
    k: nat, n: nat, arch: string, hash: string)
    requires FieldsPresent(tools) && name != "" && RunOk(snaps, beats, tools, name) && TimesAdvance(beats)
    requires SlashFreeRun(beats) && Free(arch, '/') && IsShown(beats, k, n)
    ensures ByHashPath(arch, hash) in FilesShown(snaps[k]) <==>
      exists i :: 0 <= i <= n && ListsAt(beats[i], arch, hash) && (i == n || At(beats[i]) + RETENTION > At(beats[n]))
  {
    forall i | 0 <= i < k ensures ProducesAsListed(beats[i], arch, hash) {
      BeatByHash(snaps, beats, tools, name, i, arch, hash);
      BeatProduces(beats[i], arch, hash);
    }
    RunIsHistory(snaps, beats, tools, name, k);
    HistoryByHash(beats, k, n, arch, hash);
  }

  /** So what a client read in a Release stays there for a retention, whatever the ticks
      in between did. */
  lemma {:induction false} ByHashStays(
    snaps: seq<Option<Snapshot>>, beats: seq<Beat>, tools: Tools, name: string,
    k: nat, n: nat, i: nat, arch: string, hash: string)
    requires FieldsPresent(tools) && name != "" && RunOk(snaps, beats, tools, name) && TimesAdvance(beats)
    requires SlashFreeRun(beats) && Free(arch, '/') && IsShown(beats, k, n)
    requires i < k && ListsAt(beats[i], arch, hash) && At(beats[n]) < At(beats[i]) + RETENTION
    ensures ByHashPath(arch, hash) in FilesShown(snaps[k])
  {
    ByHashServedExactly(snaps, beats, tools, name, k, n, arch, hash);
  }

  // ----- redirects ----------------------------------------------------------

  /** Beat i published with a source at this pool path. */
  ghost predicate SourceAt(b: Beat, p: string, tools: Tools)
    requires FieldsPresent(tools)
  {
    b.Published? &&
    exists n :: n in b.inp.states && Usable(tools, b.inp.states[n]) && p == SourcePath(tools, b.inp.states[n])
  }

  ghost predicate RedirectsAsSources(b: Beat, p: string, tools: Tools)
    requires FieldsPresent(tools)
  {
    var t := RedirectsTick(b);
    && (Produces(t, p) <==> SourceAt(b, p, tools))
    && (Produces(t, p) ==> t.made.value[p].expiresAt == Some(t.at + RETENTION))
  }

  lemma {:induction false} MadeRedirect(redirects: map<string, Served<string>>, inp: Input, tools: Tools, p: string)
    requires FieldsPresent(tools) && RedirectsLaidOut(tools, inp.states, inp.now, redirects) && p in redirects
    ensures exists n :: n in inp.states && Usable(tools, inp.states[n]) && p == SourcePath(tools, inp.states[n])
    ensures redirects[p].expiresAt == Some(inp.now + RETENTION)
  {
    var n :| RedirectOf(p, redirects[p], n, tools, inp.states, inp.now);
  }

  lemma {:induction false} BeatRedirects(b: Beat, p: string, tools: Tools, url: string)
    requires FieldsPresent(tools) && IsPool(p) && b.Published?
    requires RedirectsLaidOut(tools, b.inp.states, b.inp.now, b.mk.redirects)
    requires b.m.redirects == b.mk.redirects[LATEST_DEB := Served(url, None)]
    ensures RedirectsAsSources(b, p, tools)
  {
    LatestIsNotPool();
    assert p in b.m.redirects <==> p in b.mk.redirects;
    if p in b.mk.redirects { MadeRedirect(b.mk.redirects, b.inp, tools, p); }
  }

  lemma {:induction false} BeatRedirect(
    snaps: seq<Option<Snapshot>>, beats: seq<Beat>, tools: Tools, name: string, i: nat, p: string)
    requires FieldsPresent(tools) && name != "" && RunOk(snaps, beats, tools, name) && i < |beats| && IsPool(p)
    ensures RedirectsAsSources(beats[i], p, tools)
  {
    var b := beats[i];
    if b.Published? {
      BeatMade(snaps[i], snaps[i + 1], b, tools, name);
      var url :| b.m.redirects == b.mk.redirects[LATEST_DEB := Served(url, None)];
      BeatRedirects(b, p, tools, url);
    }
  }

  lemma {:induction false} HistoryRedirects(beats: seq<Beat>, tools: Tools, k: nat, n: nat, p: string)
    requires FieldsPresent(tools) && TimesAdvance(beats) && IsShown(beats, k, n)
    requires forall i :: 0 <= i < k ==> RedirectsAsSources(beats[i], p, tools)
    ensures p in Snapshots.Published(RedirectsTicks(beats)[..k]) <==>
      exists i :: 0 <= i <= n && SourceAt(beats[i], p, tools) && (i == n || At(beats[i]) + RETENTION > At(beats[n]))
  {
    var ticks := RedirectsTicks(beats)[..k];
    ShownIsLast(beats, k, n);
    forall i | 0 <= i < k && Produces(ticks[i], p)
      ensures ticks[i].made.value[p].expiresAt == Some(ticks[i].at + RETENTION)
    {
      assert RedirectsAsSources(beats[i], p, tools);
    }
    ExpiringServedExactly(ticks, p);
    forall i | 0 <= i <= n
      ensures StillServed(ticks, p, i, n)
        <==> SourceAt(beats[i], p, tools) && (i == n || At(beats[i]) + RETENTION > At(beats[n]))
    {
      assert RedirectsAsSources(beats[i], p, tools);
    }
  }

  /** In every run, after any number of ticks: a pool path redirects exactly when it is a
      source's on display, or was one in a snapshot less than a retention older. */
  lemma {:induction false} RedirectServedExactly(
    snaps: seq<Option<Snapshot>>, beats: seq<Beat>, tools: Tools, name: string, k: nat, n: nat, p: string)
    requires FieldsPresent(tools) && name != "" && RunOk(snaps, beats, tools, name) && TimesAdvance(beats)
    requires IsPool(p) && IsShown(beats, k, n)
    ensures p in RedirectsShown(snaps[k]) <==>
      exists i :: 0 <= i <= n && SourceAt(beats[i], p, tools) && (i == n || At(beats[i]) + RETENTION > At(beats[n]))
  {
    forall i | 0 <= i < k ensures RedirectsAsSources(beats[i], p, tools) {
      BeatRedirect(snaps, beats, tools, name, i, p);
    }
    RunIsHistory(snaps, beats, tools, name, k);
    HistoryRedirects(beats, tools, k, n, p);
  }

  // ----- the bootstrap stanza -----------------------------------------------

  /** When the tick composes from what ensureBootstrap returned after some run of it, the
      bootstrap stanza's Size and SHA256 are those of the bytes its Filename serves. */
  lemma {:induction false} BootstrapStanzaIsGenuine(
    prev: Option<Snapshot>, s: Snapshot, m: Snapshot, mk: Making, inp: Input, tools: Tools,
    steps: seq<Bootstrap.Step>, last: Bootstrap.Step, packager: Bootstrap.Tools)
    requires FieldsPresent(tools) && Ready(inp) && ComposesTo(prev, s, m, mk, inp, tools)
    requires Bootstrap.ValidDates(steps) && last.Call? && packager.sha256 == tools.codec.sha256
    requires Bootstrap.Ensure(Bootstrap.DiskAfter(steps, packager), last.inp, last.now, packager, last.faults).1
      == Ok((inp.bs, inp.deb))
    ensures var e := mk.bootstrap;
      && FilenamePath(e) in s.files && s.files[FilenamePath(e)].content.data == inp.deb
      && e.size == |inp.deb| && e.sha256 == tools.codec.sha256(inp.deb)
  {
    BootstrapResolves(m, mk, inp, tools);
    assert FilenamePath(mk.bootstrap) in m.files;
    Bootstrap.EnsureIsGenuine(steps, last, packager);
  }

  // ----- which sources are in it, and what is served under fixed names ------

  /** A source's entry: its own stanza, size and hash, at the pool path of its fields. */
  lemma {:induction false} SourceEntryFields(tools: Tools, n: string, st: SourceState, f: Fields)
    requires FieldsPresent(tools) && st.control != "" && tools.extractFields(st.control) == Some(f)
    ensures Usable(tools, st)
    ensures SourceEntry(tools, n, st) ==
      Entry(n, st.control, PoolPath(f.package, f.version, f.architecture), st.assetSize, st.assetSHA256, f)
  {
  }

  /** Every source with a control stanza that parses has its entry, and its pool path leads
      to its own asset; also after carry-over. */
  lemma {:induction false} EverySourceIndexed(
    prev: Option<Snapshot>, s: Snapshot, m: Snapshot, mk: Making, inp: Input, tools: Tools, n: string)
    requires FieldsPresent(tools) && Ready(inp) && ComposesTo(prev, s, m, mk, inp, tools) && NamesOk(inp, tools)
    requires prev.Some? ==> PoolIsBootstrap(prev.value.files, inp.cfg.bootstrapName)
    requires n in inp.states && inp.states[n].control != "" && tools.extractFields(inp.states[n].control).Some?
    ensures var st := inp.states[n]; var f := tools.extractFields(st.control).value;
      var path := PoolPath(f.package, f.version, f.architecture);
      && Entry(n, st.control, path, st.assetSize, st.assetSHA256, f) in mk.Entries()
      && Lookup(s, path) == Redirect(st.assetURL)
  {
    var st := inp.states[n];
    SourceEntryFields(tools, n, st, tools.extractFields(st.control).value);
    var e := SourceEntry(tools, n, st);
    EntryIsMade(mk, inp, tools, n);
    SourceResolves(prev, s, m, mk, inp, tools, e, n);
    SourcePathIsFilename(tools, n, st);
  }

  lemma {:induction false} EntryIsMade(mk: Making, inp: Input, tools: Tools, n: string)
    requires FieldsPresent(tools) && EntriesLaidOut(tools, inp.states, mk.sources)
    requires n in inp.states && Usable(tools, inp.states[n])
    ensures SourceEntry(tools, n, inp.states[n]) in mk.Entries()
  {
  }

  /** There is no other entry but the bootstrap package's, at its own pool path with its own
      size and hash. */
  lemma {:induction false} NothingElseIndexed(mk: Making, inp: Input, tools: Tools, e: Entry)
    requires FieldsPresent(tools) && Ready(inp) && MadeIndex(mk, inp, tools) && e in mk.Entries()
    ensures
      || (e.sourceName == "bootstrap" && e.poolPath == Bootstrap.PoolPath(inp.cfg.bootstrapName, inp.bs.version)
          && e.size == inp.bs.size && e.sha256 == inp.bs.sha256 && Some(e.control) == tools.debControl(inp.deb))
      || (e.sourceName in inp.states && e.control == inp.states[e.sourceName].control && e.control != ""
          && tools.extractFields(e.control) == Some(e.fields))
  {
    if e in mk.sources { var n :| EntryOf(e, n, tools, inp.states); }
  }

  /** In every run, every source of every tick that published. */
  lemma {:induction false} EveryRunIndexes(
    snaps: seq<Option<Snapshot>>, beats: seq<Beat>, tools: Tools, name: string, k: nat, n: string)
    requires FieldsPresent(tools) && name != "" && RunOk(snaps, beats, tools, name)
    requires k < |beats| && beats[k].Published? && n in beats[k].inp.states
    requires var st := beats[k].inp.states[n]; st.control != "" && tools.extractFields(st.control).Some?
    ensures var st := beats[k].inp.states[n]; var f := tools.extractFields(st.control).value;
      snaps[k + 1].Some?
      && Lookup(snaps[k + 1].value, PoolPath(f.package, f.version, f.architecture)) == Redirect(st.assetURL)
  {
    RunPool(snaps, beats, tools, name, k);
    assert BeatOk(snaps[k], snaps[k + 1], beats[k], tools, name);
    EverySourceIndexed(snaps[k], snaps[k + 1].value, beats[k].m, beats[k].mk, beats[k].inp, tools, n);
  }

  /** Debian's pool layout: libraries under their first four characters, all others under
      their first; then the package's own directory. */
  lemma {:induction false} PoolLayout(pkg: string, version: string, arch: string)
    requires pkg != ""
    ensures |pkg| >= 4 && pkg[0] == 'l' && pkg[1] == 'i' && pkg[2] == 'b' ==>
      PoolPath(pkg, version, arch)
      == "/pool/main/" + (pkg[..4] + ("/" + (pkg + ("/" + (pkg + ("_" + (version + ("_" + (arch + ".deb")))))))))
    ensures |pkg| < 4 || pkg[..3] != "lib" ==>
      PoolPath(pkg, version, arch)
      == "/pool/main/" + ([pkg[0]] + ("/" + (pkg + ("/" + (pkg + ("_" + (version + ("_" + (arch + ".deb")))))))))
  {
    assert PoolPrefix(pkg) == if |pkg| >= 4 && pkg[..3] == "lib" then pkg[..4] else [pkg[0]];
    SlashAssociates(PoolPrefix(pkg), pkg, "_" + (version + "_" + (arch + ".deb")));
    assert version + ("_" + (arch + ".deb")) == version + "_" + (arch + ".deb");
  }

  lemma {:induction false} SlashAssociates(prefix: string, pkg: string, rest: string)
    ensures prefix + "/" + (pkg + "/" + (pkg + rest)) == prefix + ("/" + (pkg + ("/" + (pkg + rest))))
  {
  }

  function Under(dir: string, name: string, version: string, tail: string): string {
    "/pool/main/" + (dir + ("/" + (name + ("/" + (name + ("_" + (version + tail)))))))
  }

  lemma {:induction false} Reassociate(a: string, b: string, c: string, d: string, e: string, f: string, g: string)
    ensures a + b + c + d + c + d + e + f + g == a + (b + (c + (d + (c + (d + (e + (f + g)))))))
  {
  }

  lemma {:induction false} BootstrapPathText(name: string, version: string)
    requires name != ""
    ensures Bootstrap.PoolPath(name, version) == Under([name[0]], name, version, "_all.deb")
    ensures Bootstrap.Filename(name, version) == name + ("_" + (version + "_all.deb"))
  {
    Reassociate("/pool/main/", [name[0]], "/", name, "_", version, "_all.deb");
    Associate(name, "_", version, "_all.deb");
  }

  lemma {:induction false} Associate(a: string, b: string, c: string, d: string)
    ensures a + b + c + d == a + (b + (c + d))
  {
  }

  lemma {:induction false} ArchAll(name: string, version: string)
    requires name != ""
    ensures PoolPath(name, version, "all")
      == Under(if |name| >= 4 && name[..3] == "lib" then name[..4] else [name[0]], name, version, "_all.deb")
  {
    PoolLayout(name, version, "all");
    assert "_" + (version + ("_" + ("all" + ".deb"))) == "_" + (version + "_all.deb");
  }

  /** The bootstrap package lies in the directory of its first letter, under its filename;
      that is the place of any other package exactly when its name is not a library's. */
  lemma {:induction false} BootstrapLayout(name: string, version: string)
    requires name != ""
    ensures Bootstrap.PoolPath(name, version) == "/pool/main/" + ([name[0]] + ("/" + (name + ("/"
      + Bootstrap.Filename(name, version)))))
    ensures Bootstrap.PoolPath(name, version) == PoolPath(name, version, "all")
      <==> |name| < 4 || name[..3] != "lib"
  {
    BootstrapPathText(name, version);
    ArchAll(name, version);
    if |name| >= 4 && name[..3] == "lib" {
      DirectoriesDiffer("/pool/main/", [name[0]], name[..4], name + ("/" + (name + ("_" + (version + "_all.deb")))));
    }
  }

  lemma {:induction false} DirectoriesDiffer(head: string, x: string, y: string, rest: string)
    requires |x| != |y|
    ensures head + (x + ("/" + rest)) != head + (y + ("/" + rest))
  {
    assert |head + (x + ("/" + rest))| != |head + (y + ("/" + rest))|;
  }

  /** The Packages of an architecture as served, in the four forms clients may ask for, is
      the rendering of its own entries and the "all" entries, by name and version. */
  lemma {:induction false} PackagesServed(
    prev: Option<Snapshot>, s: Snapshot, m: Snapshot, mk: Making, inp: Input, tools: Tools, arch: string)
      returns (list: seq<Entry>)
    requires FieldsPresent(tools) && Ready(inp) && ComposesTo(prev, s, m, mk, inp, tools)
    requires (forall a :: a in inp.cfg.architectures ==> Free(a, '/')) && arch in inp.cfg.architectures
    ensures (forall e :: e in list <==> e in mk.Entries() && Concerns(e, arch)) && InOrder(list)
    ensures forall e :: multiset(list)[e] == if Concerns(e, arch) then multiset(mk.Entries())[e] else 0
    ensures PackagesForms(s.files, "/dists/stable/main/binary-" + arch + "/Packages", Packages(list), tools.codec)
  {
    BuiltArch(mk, inp, tools, arch);
    list := FormsOfArch(mk.built.perArch[arch], mk.Entries(), arch, tools.codec);
    MadeFiles(prev, s, m, mk, inp, tools);
    forall v: Variant ensures FormIn(s.files, mk.built, Place(arch, v)) {
      FormServed(s, m, mk, inp, tools, Place(arch, v));
    }
    FormsTogether(s.files, mk.built, arch, Packages(list), tools.codec);
  }

  lemma {:induction false} BuiltArch(mk: Making, inp: Input, tools: Tools, arch: string)
    requires FieldsPresent(tools) && Ready(inp) && MadeIndex(mk, inp, tools) && arch in inp.cfg.architectures
    ensures arch in mk.built.perArch && ArchBuilt(mk.built.perArch[arch], mk.Entries(), arch, tools.codec)
  {
  }

  /** The fresh files, and that nothing fresh is lost in the carry-over. */
  lemma {:induction false} MadeFiles(
    prev: Option<Snapshot>, s: Snapshot, m: Snapshot, mk: Making, inp: Input, tools: Tools)
    requires FieldsPresent(tools) && Ready(inp) && ComposesTo(prev, s, m, mk, inp, tools)
    ensures FilesMade(m, mk, inp, tools) && FreshKept(m.files, s.files)
    ensures forall a :: a in mk.built.perArch.Keys ==> a in inp.cfg.architectures
  {
  }

  predicate FreshKept(made: map<string, Served<Body>>, files: map<string, Served<Body>>) {
    forall p :: p in made ==> p in files && files[p] == made[p]
  }

  /** The canonical copy of a variant. */
  predicate FormIn(files: map<string, Served<Body>>, b: Built, at: Place) {
    var p := CanonicalPath(at.arch, at.variant);
    p in files && files[p].content == VariantBody(b, at.arch, at.variant)
  }

  lemma {:induction false} FormsTogether(
    files: map<string, Served<Body>>, b: Built, arch: string, text: Bytes, c: Codec)
    requires arch in b.perArch && forall v: Variant :: FormIn(files, b, Place(arch, v))
    requires var f := b.perArch[arch];
      f.Get(Plain) == text && f.Get(Gz) == c.gzip(text) && f.Get(Xz) == c.xz(text) && f.Get(Zst) == c.zstd(text)
    ensures PackagesForms(files, "/dists/stable/main/binary-" + arch + "/Packages", text, c)
  {
    CanonicalNames(arch);
    assert FormIn(files, b, Place(arch, Plain)) && FormIn(files, b, Place(arch, Gz));
    assert FormIn(files, b, Place(arch, Xz)) && FormIn(files, b, Place(arch, Zst));
  }

  predicate PackagesForms(files: map<string, Served<Body>>, path: string, text: Bytes, c: Codec) {
    && path in files && files[path].content == Body(text, "text/plain")
    && path + ".gz" in files && files[path + ".gz"].content == Body(c.gzip(text), "application/gzip")
    && path + ".xz" in files && files[path + ".xz"].content == Body(c.xz(text), "application/x-xz")
    && path + ".zst" in files && files[path + ".zst"].content == Body(c.zstd(text), "application/zstd")
  }

  lemma {:induction false} CanonicalNames(arch: string)
    ensures var path := "/dists/stable/main/binary-" + arch + "/Packages";
      && CanonicalPath(arch, Plain) == path && CanonicalPath(arch, Gz) == path + ".gz"
      && CanonicalPath(arch, Xz) == path + ".xz" && CanonicalPath(arch, Zst) == path + ".zst"
  {
  }

  lemma {:induction false} FormServed(s: Snapshot, m: Snapshot, mk: Making, inp: Input, tools: Tools, at: Place)
    requires FilesMade(m, mk, inp, tools) && FreshKept(m.files, s.files)
    requires SlashFree(mk.built.perArch.Keys) && at.arch in mk.built.perArch
    ensures FormIn(s.files, mk.built, at)
  {
    LayoutPaths(mk.built, at);
    CanonicalCopy(mk, inp.now, at);
    CopyServed(mk, inp, tools, at, LayoutOf(mk.built).canonical(at));
  }

  predicate FixedNames(files: map<string, Served<Body>>, pool: string, inp: Input, keyring: Bytes) {
    && "/pubkey.gpg" in files && files["/pubkey.gpg"].content == Body(keyring, "application/pgp-keys")
    && "/release/stable/latest" in files
    && files["/release/stable/latest"].content == Body(inp.bs.version + "\n", "text/plain")
    && pool in files && files[pool].expiresAt == Some(inp.now + 30 * 60 * 1_000_000_000)
    && files[pool].content == Body(inp.deb, "application/vnd.debian.binary-package")
  }

  lemma {:induction false} FixedNamesKept(
    made: map<string, Served<Body>>, files: map<string, Served<Body>>, pool: string, inp: Input, keyring: Bytes)
    requires FixedNames(made, pool, inp, keyring) && FreshKept(made, files)
    ensures FixedNames(files, pool, inp, keyring)
  {
  }

  lemma {:induction false} LatestServed(
    prev: Option<Snapshot>, s: Snapshot, m: Snapshot, mk: Making, inp: Input, tools: Tools)
    requires FieldsPresent(tools) && Ready(inp) && ComposesTo(prev, s, m, mk, inp, tools)
    ensures "/release/stable/latest.deb" in s.redirects
      && s.redirects["/release/stable/latest.deb"] == Served(inp.cfg.pathPrefix + BootstrapPath(inp), None)
  {
  }

  /** The files and the redirect under fixed names, and the bootstrap package for half an
      hour. */
  lemma {:induction false} FixedNamesServed(
    prev: Option<Snapshot>, s: Snapshot, m: Snapshot, mk: Making, inp: Input, tools: Tools)
    requires FieldsPresent(tools) && Ready(inp) && ComposesTo(prev, s, m, mk, inp, tools)
    ensures var pool := Bootstrap.PoolPath(inp.cfg.bootstrapName, inp.bs.version);
      && FixedNames(s.files, pool, inp, tools.keyring) && "/release/stable/latest.deb" in s.redirects
      && s.redirects["/release/stable/latest.deb"] == Served(inp.cfg.pathPrefix + pool, None)
  {
    MadeFiles(prev, s, m, mk, inp, tools);
    FixedNamesMade(WithMetadata(mk.copies, mk.built.release, mk.gpg, mk.inRelease), inp, tools.keyring);
    FixedNamesKept(m.files, s.files, BootstrapPath(inp), inp, tools.keyring);
    LatestServed(prev, s, m, mk, inp, tools);
  }

  /** The bootstrap package's own path answers with its bytes, whatever redirects there are
      for it, and a path that is neither file nor redirect is not answered. */
  lemma {:induction false} BootstrapIsServed(
    prev: Option<Snapshot>, s: Snapshot, m: Snapshot, mk: Making, inp: Input, tools: Tools, other: string)
    requires FieldsPresent(tools) && Ready(inp) && ComposesTo(prev, s, m, mk, inp, tools)
    ensures Lookup(s, Bootstrap.PoolPath(inp.cfg.bootstrapName, inp.bs.version))
      == File(Body(inp.deb, "application/vnd.debian.binary-package"))
    ensures Lookup(s, other) == Miss <==> other !in s.files && other !in s.redirects
  {
    FixedNamesServed(prev, s, m, mk, inp, tools);
  }

  lemma {:induction false} FixedNamesApart()
    ensures !IsPool("/pubkey.gpg") && !IsPool("/release/stable/latest") && "/pubkey.gpg" != "/release/stable/latest"
  {
    assert "/pubkey.gpg"[1] == 'p' && "/pubkey.gpg"[2] == 'u' && "/release/stable/latest"[1] == 'r';
  }

  lemma {:induction false} FixedNamesMade(files: map<string, Served<Body>>, inp: Input, keyring: Bytes)
    requires Ready(inp)
    ensures FixedNames(WithBootstrap(files, inp, keyring), BootstrapPath(inp), inp, keyring)
  {
    PoolPathsArePool(inp.cfg.bootstrapName, inp.bs.version, "");
    FixedNamesApart();
  }
}
