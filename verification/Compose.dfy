/** internal/signpost/refresh/compose.go: laying out one snapshot, and what makes every
    published snapshot closed: whatever its Release and Packages name is served. */
module Compose {
  import opened Text
  import opened Index
  import opened Snapshots
  import Bootstrap

  datatype Config = Config(
    origin: string, suiteLabel: string, codename: string, description: string,
    architectures: seq<string>, bootstrapName: string, pathPrefix: string)

  datatype SourceState = SourceState(control: Bytes, assetURL: string, assetSize: nat, assetSHA256: string)

  /** Library code: compression and hashing, control-stanza parsing, .deb unpacking, signing. */
  datatype Tools = Tools(
    codec: Codec, extractFields: Bytes -> Option<Fields>, debControl: Bytes -> Option<Bytes>,
    clearsign: Bytes -> Option<Bytes>, detachSign: Bytes -> Option<Bytes>, keyring: Bytes)

  /** Everything one tick composes from. */
  datatype Input = Input(
    cfg: Config, states: map<string, SourceState>, bs: Bootstrap.BootstrapState, deb: Bytes, now: int)

  function SuiteOf(cfg: Config): Suite {
    Suite(cfg.origin, cfg.suiteLabel, cfg.codename, cfg.description, "main", cfg.architectures)
  }

  // ----- paths --------------------------------------------------------------

  const DISTS := "/dists/stable/main/binary-"

  function CanonicalPath(arch: string, v: Variant): string { DISTS + (arch + ("/Packages" + Suffix(v))) }

  function ByHashPath(arch: string, hash: string): string { DISTS + (arch + ("/by-hash/SHA256/" + hash)) }

  /** "libX" for library packages, else the first letter; pkg[:1] panics on "", which
      ExtractFields excludes. */
  function PoolPrefix(pkg: string): string
    requires pkg != ""
  {
    if HasPrefix(pkg, "lib") && |pkg| >= 4 then pkg[..4] else pkg[..1]
  }

  function PoolPath(pkg: string, version: string, arch: string): string
    requires pkg != ""
  {
    "/pool/main/" + (PoolPrefix(pkg) + "/" + (pkg + "/" + (pkg + "_" + (version + "_" + (arch + ".deb")))))
  }

  lemma {:induction false} PoolPathInjective(p: string, v: string, a: string, q: string, w: string, b: string)
    requires p != "" && q != "" && Free(p, '/') && Free(q, '/') && Free(v, '_') && Free(w, '_')
    requires PoolPath(p, v, a) == PoolPath(q, w, b)
    ensures p == q && v == w && a == b
  {
    var x, y := p + "_" + (v + "_" + (a + ".deb")), q + "_" + (w + "_" + (b + ".deb"));
    SameTail("/pool/main/", PoolPrefix(p) + "/" + (p + "/" + x), PoolPrefix(q) + "/" + (q + "/" + y));
    SplitAtSeparator(PoolPrefix(p), p + "/" + x, PoolPrefix(q), q + "/" + y, '/');
    SplitAtSeparator(p, x, q, y, '/');
    SameTail(p + "_", v + "_" + (a + ".deb"), w + "_" + (b + ".deb"));
    SplitAtSeparator(v, a + ".deb", w, b + ".deb", '_');
    assert a == (a + ".deb")[..|a|] && b == (b + ".deb")[..|b|];
  }

  lemma {:induction false} SameTail(head: string, x: string, y: string)
    requires head + x == head + y
    ensures x == y
  {
    assert x == (head + x)[|head|..] && y == (head + y)[|head|..];
  }

  /** A source's pool path is not a bootstrap pool path of a differently named package. */
  lemma {:induction false} PoolPathsApart(p: string, v: string, a: string, name: string, w: string)
    requires p != "" && name != "" && Free(p, '/') && Free(name, '/') && p != name
    ensures PoolPath(p, v, a) != Bootstrap.PoolPath(name, w)
  {
    var x := p + "_" + (v + "_" + (a + ".deb"));
    var y := name + "_" + w + "_all.deb";
    assert Bootstrap.PoolPath(name, w) == "/pool/main/" + ([name[0]] + "/" + (name + "/" + y));
    if PoolPath(p, v, a) == Bootstrap.PoolPath(name, w) {
      SameTail("/pool/main/", PoolPrefix(p) + "/" + (p + "/" + x), [name[0]] + "/" + (name + "/" + y));
      SplitAtSeparator(PoolPrefix(p), p + "/" + x, [name[0]], name + "/" + y, '/');
      SplitAtSeparator(p, x, name, y, '/');
    }
  }

  lemma {:induction false} PackagesPathShape(a: string, v: Variant)
    ensures PackagesPath("main", a, v) == "main/binary-" + (a + ("/Packages" + Suffix(v)))
  {
  }

  lemma {:induction false} OtherHead(head: string, other: string, x: string, y: string)
    requires head + x == head + y
    ensures other + x == other + y
  {
    SameTail(head, x, y);
  }

  lemma {:induction false} CanonicalInjective(a: string, v: Variant, b: string, w: Variant)
    requires CanonicalPath(a, v) == CanonicalPath(b, w)
    ensures a == b && v == w
  {
    OtherHead(DISTS, "main/binary-", a + ("/Packages" + Suffix(v)), b + ("/Packages" + Suffix(w)));
    PackagesPathShape(a, v);
    PackagesPathShape(b, w);
    PackagesPathInjective("main", a, v, b, w);
  }

  lemma {:induction false} ByHashInjective(a: string, h: string, b: string, k: string)
    requires Free(a, '/') && Free(b, '/') && ByHashPath(a, h) == ByHashPath(b, k)
    ensures a == b && h == k
  {
    SameTail(DISTS, a + ("/by-hash/SHA256/" + h), b + ("/by-hash/SHA256/" + k));
    assert a + ("/by-hash/SHA256/" + h) == a + "/" + ("by-hash/SHA256/" + h);
    assert b + ("/by-hash/SHA256/" + k) == b + "/" + ("by-hash/SHA256/" + k);
    SplitAtSeparator(a, "by-hash/SHA256/" + h, b, "by-hash/SHA256/" + k, '/');
    SameTail("by-hash/SHA256/", h, k);
  }

  lemma {:induction false} SecondPartsDiffer(head: string, a: string, x: string, b: string, y: string)
    requires Free(a, '/') && Free(b, '/') && x != "" && y != "" && x[0] != y[0]
    ensures head + (a + ("/" + x)) != head + (b + ("/" + y))
  {
    if head + (a + ("/" + x)) == head + (b + ("/" + y)) {
      SameTail(head, a + ("/" + x), b + ("/" + y));
      assert a + ("/" + x) == a + "/" + x && b + ("/" + y) == b + "/" + y;
      SplitAtSeparator(a, x, b, y, '/');
    }
  }

  lemma {:induction false} CanonicalIsNotByHash(a: string, v: Variant, b: string, h: string)
    requires Free(a, '/') && Free(b, '/')
    ensures CanonicalPath(a, v) != ByHashPath(b, h)
  {
    var x, y := "Packages" + Suffix(v), "by-hash/SHA256/" + h;
    assert x[0] == 'P' && y[0] == 'b';
    assert "/Packages" + Suffix(v) == "/" + x && "/by-hash/SHA256/" + h == "/" + y;
    SecondPartsDiffer(DISTS, a, x, b, y);
  }

  // ----- entries and redirects ----------------------------------------------

  predicate Usable(tools: Tools, st: SourceState) { st.control != "" && tools.extractFields(st.control).Some? }

  /** ExtractFields never yields an empty field. */
  ghost predicate FieldsPresent(tools: Tools) {
    forall c :: tools.extractFields(c).Some? ==>
      var f := tools.extractFields(c).value; f.package != "" && f.version != "" && f.architecture != ""
  }

  function SourcePath(tools: Tools, st: SourceState): string
    requires Usable(tools, st) && tools.extractFields(st.control).value.package != ""
  {
    var f := tools.extractFields(st.control).value;
    PoolPath(f.package, f.version, f.architecture)
  }

  function SourceEntry(tools: Tools, name: string, st: SourceState): Entry
    requires Usable(tools, st) && tools.extractFields(st.control).value.package != ""
  {
    Entry(name, st.control, SourcePath(tools, st), st.assetSize, st.assetSHA256, tools.extractFields(st.control).value)
  }

  function SourceRedirect(st: SourceState, now: int): Served<string> { Served(st.assetURL, Some(now + RETENTION)) }

  ghost predicate EntryOf(e: Entry, n: string, tools: Tools, states: map<string, SourceState>)
    requires FieldsPresent(tools)
  {
    n in states && Usable(tools, states[n]) && e == SourceEntry(tools, n, states[n])
  }

  ghost predicate RedirectOf(
    p: string, r: Served<string>, n: string, tools: Tools, states: map<string, SourceState>, now: int)
    requires FieldsPresent(tools)
  {
    n in states && Usable(tools, states[n]) && p == SourcePath(tools, states[n]) && r == SourceRedirect(states[n], now)
  }

  function UsableNames(tools: Tools, states: map<string, SourceState>): set<string> {
    set n | n in states && Usable(tools, states[n])
  }

  /** With EntriesLaidOut: no source has two entries. */
  predicate OncePerSource(tools: Tools, states: map<string, SourceState>, entries: seq<Entry>) {
    |entries| == |UsableNames(tools, states)|
  }

  /** An entry for every usable source, and nothing else. */
  ghost predicate EntriesLaidOut(tools: Tools, states: map<string, SourceState>, entries: seq<Entry>)
    requires FieldsPresent(tools)
  {
    && (forall e :: e in entries ==> exists n :: EntryOf(e, n, tools, states))
    && (forall n :: n in states && Usable(tools, states[n]) ==> SourceEntry(tools, n, states[n]) in entries)
  }

  /** Every usable source's path redirects, and each redirect is some source's own. */
  ghost predicate RedirectsLaidOut(tools: Tools, states: map<string, SourceState>, now: int,
                                   redirects: map<string, Served<string>>)
    requires FieldsPresent(tools)
  {
    && (forall p :: p in redirects ==> exists n :: RedirectOf(p, redirects[p], n, tools, states, now))
    && (forall n :: n in states && Usable(tools, states[n]) ==> SourcePath(tools, states[n]) in redirects)
  }

  lemma {:induction false} AddName(tools: Tools, states: map<string, SourceState>, name: string, st: SourceState)
    requires name !in states
    ensures |UsableNames(tools, states[name := st])|
      == |UsableNames(tools, states)| + if Usable(tools, st) then 1 else 0
  {
    assert UsableNames(tools, states[name := st])
      == UsableNames(tools, states) + (if Usable(tools, st) then {name} else {});
  }

  lemma {:induction false} AddEntry(
    tools: Tools, states: map<string, SourceState>, entries: seq<Entry>, name: string, st: SourceState)
    requires FieldsPresent(tools) && EntriesLaidOut(tools, states, entries) && name !in states
    ensures EntriesLaidOut(tools, states[name := st],
                           if Usable(tools, st) then entries + [SourceEntry(tools, name, st)] else entries)
  {
    var states' := states[name := st];
    forall e | e in entries ensures exists n :: EntryOf(e, n, tools, states') {
      var n :| EntryOf(e, n, tools, states);
      assert EntryOf(e, n, tools, states');
    }
    if Usable(tools, st) { assert EntryOf(SourceEntry(tools, name, st), name, tools, states'); }
  }

  lemma {:induction false} AddRedirect(
    tools: Tools, states: map<string, SourceState>, now: int, redirects: map<string, Served<string>>,
    name: string, st: SourceState, path: string, r: Served<string>)
    requires FieldsPresent(tools) && RedirectsLaidOut(tools, states, now, redirects) && name !in states
    requires RedirectOf(path, r, name, tools, states[name := st], now)
    ensures RedirectsLaidOut(tools, states[name := st], now, redirects[path := r])
  {
    var states', redirects' := states[name := st], redirects[path := r];
    forall p | p in redirects' ensures exists n :: RedirectOf(p, redirects'[p], n, tools, states', now) {
      if p == path {
        assert RedirectOf(p, redirects'[p], name, tools, states', now);
      } else {
        var n :| RedirectOf(p, redirects[p], n, tools, states, now);
        assert RedirectOf(p, redirects'[p], n, tools, states', now);
      }
    }
  }

  lemma {:induction false} SkipSource(
    tools: Tools, states: map<string, SourceState>, now: int, redirects: map<string, Served<string>>,
    name: string, st: SourceState)
    requires FieldsPresent(tools) && RedirectsLaidOut(tools, states, now, redirects) && name !in states
      && !Usable(tools, st)
    ensures RedirectsLaidOut(tools, states[name := st], now, redirects)
  {
    var states' := states[name := st];
    forall p | p in redirects ensures exists n :: RedirectOf(p, redirects[p], n, tools, states', now) {
      var n :| RedirectOf(p, redirects[p], n, tools, states, now);
      assert RedirectOf(p, redirects[p], n, tools, states', now);
    }
  }

  ghost predicate LaidOut(tools: Tools, states: map<string, SourceState>, now: int, entries: seq<Entry>,
                          redirects: map<string, Served<string>>)
    requires FieldsPresent(tools)
  {
    && EntriesLaidOut(tools, states, entries) && OncePerSource(tools, states, entries)
    && RedirectsLaidOut(tools, states, now, redirects)
  }

  lemma {:induction false} NothingLaidOut(tools: Tools, now: int)
    requires FieldsPresent(tools)
    ensures LaidOut(tools, map[], now, [], map[])
  {
    assert UsableNames(tools, map[]) == {};
  }

  lemma {:induction false} AddSource(
    tools: Tools, states: map<string, SourceState>, now: int, entries: seq<Entry>,
    redirects: map<string, Served<string>>,
    name: string, st: SourceState)
    requires FieldsPresent(tools) && name !in states && LaidOut(tools, states, now, entries, redirects)
    ensures Usable(tools, st) ==>
      LaidOut(tools, states[name := st], now, entries + [SourceEntry(tools, name, st)],
              redirects[SourcePath(tools, st) := SourceRedirect(st, now)])
    ensures !Usable(tools, st) ==> LaidOut(tools, states[name := st], now, entries, redirects)
  {
    AddEntry(tools, states, entries, name, st);
    AddName(tools, states, name, st);
    if Usable(tools, st) {
      var path, r := SourcePath(tools, st), SourceRedirect(st, now);
      assert RedirectOf(path, r, name, tools, states[name := st], now);
      AddRedirect(tools, states, now, redirects, name, st, path, r);
    } else {
      SkipSource(tools, states, now, redirects, name, st);
    }
  }

  method LayOutSource(tools: Tools, name: string, st: SourceState, now: int, entries: seq<Entry>,
                      redirects: map<string, Served<string>>, ghost done: map<string, SourceState>)
      returns (entries': seq<Entry>, redirects': map<string, Served<string>>)
    requires FieldsPresent(tools) && name !in done && LaidOut(tools, done, now, entries, redirects)
    ensures LaidOut(tools, done[name := st], now, entries', redirects')
  {
    AddSource(tools, done, now, entries, redirects, name, st);
    if !Usable(tools, st) { return entries, redirects; }
    entries' := entries + [SourceEntry(tools, name, st)];
    redirects' := redirects[SourcePath(tools, st) := SourceRedirect(st, now)];
  }

  predicate DoneSoFar(done: map<string, SourceState>, states: map<string, SourceState>, todo: set<string>) {
    todo <= states.Keys && done.Keys == states.Keys - todo && forall n :: n in done ==> done[n] == states[n]
  }

  lemma {:induction false} OneMoreDone(
    done: map<string, SourceState>, states: map<string, SourceState>, todo: set<string>, name: string)
    requires DoneSoFar(done, states, todo) && name in todo
    ensures name !in done && DoneSoFar(done[name := states[name]], states, todo - {name})
  {
  }

  lemma {:induction false} AllDone(done: map<string, SourceState>, states: map<string, SourceState>)
    requires DoneSoFar(done, states, {})
    ensures done == states
  {
  }

  method LayOutSources(tools: Tools, states: map<string, SourceState>, now: int)
      returns (entries: seq<Entry>, redirects: map<string, Served<string>>)
    requires FieldsPresent(tools)
    ensures LaidOut(tools, states, now, entries, redirects)
  {
    entries, redirects := [], map[];
    var todo := states.Keys;
    ghost var done: map<string, SourceState> := map[];
    NothingLaidOut(tools, now);
    assert DoneSoFar(done, states, todo);
    while todo != {}
      invariant DoneSoFar(done, states, todo)
      invariant LaidOut(tools, done, now, entries, redirects)
    {
      var name :| name in todo;
      var st := states[name];
      entries, redirects := LayOutSource(tools, name, st, now, entries, redirects, done);
      OneMoreDone(done, states, todo, name);
      done, todo := done[name := st], todo - {name};
    }
    AllDone(done, states);
  }

  // ----- files --------------------------------------------------------------

  function ContentType(v: Variant): string {
    match v
    case Plain => "text/plain"
    case Gz => "application/gzip"
    case Xz => "application/x-xz"
    case Zst => "application/zstd"
  }

  function HashOf(b: Built, arch: string, v: Variant): string {
    var p := PackagesPath("main", arch, v);
    if p in b.hashes then b.hashes[p] else ""
  }

  function VariantBody(b: Built, arch: string, v: Variant): Body {
    Body(if arch in b.perArch then b.perArch[arch].Get(v) else "", ContentType(v))
  }

  datatype Place = Place(arch: string, variant: Variant)

  /** Where the two copies of a variant go, and what they hold. */
  datatype Layout = Layout(canonical: Place -> string, byHash: Place -> string, body: Place -> Body)

  function LayoutOf(b: Built): Layout {
    Layout((at: Place) => CanonicalPath(at.arch, at.variant),
           (at: Place) => ByHashPath(at.arch, HashOf(b, at.arch, at.variant)),
           (at: Place) => VariantBody(b, at.arch, at.variant))
  }

  function Rank(v: Variant): nat { match v case Plain => 0 case Gz => 1 case Xz => 2 case Zst => 3 }

  /** The file under p is the canonical or the by-hash copy of one variant. */
  ghost predicate CopyOf(p: string, e: Served<Body>, at: Place, l: Layout, now: int) {
    (p == l.canonical(at) && e == Served(l.body(at), None)) ||
    (p == l.byHash(at) && e == Served(l.body(at), Some(now + RETENTION)))
  }

  /** Laid out so far: the architectures in archs, and arch's first k variants. */
  ghost predicate Reached(at: Place, archs: set<string>, arch: string, k: nat) {
    at.arch in archs || (at.arch == arch && Rank(at.variant) < k)
  }

  ghost predicate HasCopies(files: map<string, Served<Body>>, l: Layout, at: Place) {
    l.canonical(at) in files && l.byHash(at) in files
  }

  type Origins = map<string, Place>

  /** Every file is a copy of a variant reached, namely of the one it comes from. */
  ghost predicate OnlyCopies(files: map<string, Served<Body>>, from: Origins, l: Layout, now: int,
                             archs: set<string>, arch: string, k: nat)
  {
    files.Keys == from.Keys &&
    forall p :: p in from ==> Reached(from[p], archs, arch, k) && CopyOf(p, files[p], from[p], l, now)
  }

  /** Both copies of every variant reached are there. */
  ghost predicate AllCopies(files: map<string, Served<Body>>, l: Layout, archs: set<string>, arch: string, k: nat) {
    forall at :: Reached(at, archs, arch, k) ==> HasCopies(files, l, at)
  }

  lemma {:induction false} AddCopy(
    files: map<string, Served<Body>>, from: Origins, l: Layout, now: int, archs: set<string>,
    arch: string, k: nat, at: Place, p: string, e: Served<Body>)
    requires OnlyCopies(files, from, l, now, archs, arch, k)
    requires Reached(at, archs, arch, k) && CopyOf(p, e, at, l, now)
    ensures OnlyCopies(files[p := e], from[p := at], l, now, archs, arch, k)
  {
    var files', from' := files[p := e], from[p := at];
    forall x | x in from' ensures Reached(from'[x], archs, arch, k) && CopyOf(x, files'[x], from'[x], l, now) {
      if x != p { assert x in from && files'[x] == files[x] && from'[x] == from[x]; }
    }
  }

  lemma {:induction false} MoreReached(
    files: map<string, Served<Body>>, from: Origins, l: Layout, now: int, archs: set<string>, arch: string, k: nat)
    requires OnlyCopies(files, from, l, now, archs, arch, k)
    ensures OnlyCopies(files, from, l, now, archs, arch, k + 1)
  {
    assert forall at :: Reached(at, archs, arch, k) ==> Reached(at, archs, arch, k + 1);
  }

  lemma {:induction false} CopiesStay(
    files: map<string, Served<Body>>, files': map<string, Served<Body>>, l: Layout, archs: set<string>, at: Place)
    requires AllCopies(files, l, archs, at.arch, Rank(at.variant)) && files.Keys <= files'.Keys
      && HasCopies(files', l, at)
    ensures AllCopies(files', l, archs, at.arch, Rank(at.variant) + 1)
  {
    forall y | Reached(y, archs, at.arch, Rank(at.variant) + 1) ensures HasCopies(files', l, y) {
      if Reached(y, archs, at.arch, Rank(at.variant)) {
        assert HasCopies(files, l, y);
      } else {
        assert Rank(y.variant) == Rank(at.variant);
        assert y == at;
      }
    }
  }

  method LayOutVariant(files: map<string, Served<Body>>, ghost from: Origins, l: Layout, now: int,
                       at: Place, ghost archs: set<string>)
      returns (files': map<string, Served<Body>>, ghost from': Origins)
    requires OnlyCopies(files, from, l, now, archs, at.arch, Rank(at.variant))
    requires AllCopies(files, l, archs, at.arch, Rank(at.variant))
    ensures OnlyCopies(files', from', l, now, archs, at.arch, Rank(at.variant) + 1)
    ensures AllCopies(files', l, archs, at.arch, Rank(at.variant) + 1)
  {
    files', from' := WithVariant(files, l, now, at), WithOrigin(from, l, at);
    VariantCopies(files, from, l, now, at, archs);
    VariantPresent(files, l, now, at, archs);
  }

  function WithVariant(files: map<string, Served<Body>>, l: Layout, now: int, at: Place): map<string, Served<Body>> {
    files[l.canonical(at) := Served(l.body(at), None)][l.byHash(at) := Served(l.body(at), Some(now + RETENTION))]
  }

  function WithOrigin(from: Origins, l: Layout, at: Place): Origins { from[l.canonical(at) := at][l.byHash(at) := at] }

  lemma {:induction false} VariantPresent(
    files: map<string, Served<Body>>, l: Layout, now: int, at: Place, archs: set<string>)
    requires AllCopies(files, l, archs, at.arch, Rank(at.variant))
    ensures AllCopies(WithVariant(files, l, now, at), l, archs, at.arch, Rank(at.variant) + 1)
  {
    CopiesStay(files, WithVariant(files, l, now, at), l, archs, at);
  }

  lemma {:induction false} VariantCopies(
    files: map<string, Served<Body>>, from: Origins, l: Layout, now: int, at: Place, archs: set<string>)
    requires OnlyCopies(files, from, l, now, archs, at.arch, Rank(at.variant))
    ensures OnlyCopies(WithVariant(files, l, now, at), WithOrigin(from, l, at), l, now, archs,
                       at.arch, Rank(at.variant) + 1)
  {
    var p, q, k := l.canonical(at), l.byHash(at), Rank(at.variant) + 1;
    var e, f := Served(l.body(at), None), Served(l.body(at), Some(now + RETENTION));
    MoreReached(files, from, l, now, archs, at.arch, k - 1);
    AddCopy(files, from, l, now, archs, at.arch, k, at, p, e);
    AddCopy(files[p := e], from[p := at], l, now, archs, at.arch, k, at, q, f);
  }

  lemma {:induction false} ArchReached(at: Place, archs: set<string>, arch: string, other: string)
    ensures Reached(at, archs, arch, 4) <==> Reached(at, archs + {arch}, other, 0)
  {
    assert Rank(at.variant) < 4;
  }

  lemma {:induction false} ArchDoneOnly(
    files: map<string, Served<Body>>, from: Origins, l: Layout, now: int, archs: set<string>,
    arch: string, other: string)
    requires OnlyCopies(files, from, l, now, archs, arch, 4)
    ensures OnlyCopies(files, from, l, now, archs + {arch}, other, 0)
  {
    forall p | p in from { ArchReached(from[p], archs, arch, other); }
  }

  lemma {:induction false} ArchDoneAll(
    files: map<string, Served<Body>>, l: Layout, archs: set<string>, arch: string, other: string)
    requires AllCopies(files, l, archs, arch, 4)
    ensures AllCopies(files, l, archs + {arch}, other, 0)
  {
    forall at { ArchReached(at, archs, arch, other); }
  }

  method LayOutArch(files: map<string, Served<Body>>, ghost from: Origins, l: Layout, now: int,
                    arch: string, ghost archs: set<string>)
      returns (files': map<string, Served<Body>>, ghost from': Origins)
    requires OnlyCopies(files, from, l, now, archs, arch, 0) && AllCopies(files, l, archs, arch, 0)
    ensures OnlyCopies(files', from', l, now, archs, arch, 4) && AllCopies(files', l, archs, arch, 4)
  {
    files', from' := files, from;
    for k := 0 to |ALL_VARIANTS|
      invariant OnlyCopies(files', from', l, now, archs, arch, k) && AllCopies(files', l, archs, arch, k)
    {
      assert Rank(ALL_VARIANTS[k]) == k;
      files', from' := LayOutVariant(files', from', l, now, Place(arch, ALL_VARIANTS[k]), archs);
    }
  }

  /** The loop over architectures: canonical and by-hash copies of every variant. */
  method LayOutCopies(
    l: Layout, arches: set<string>, now: int) returns (files: map<string, Served<Body>>, ghost from: Origins)
    ensures OnlyCopies(files, from, l, now, arches, "", 0) && AllCopies(files, l, arches, "", 0)
  {
    files, from := map[], map[];
    var todo := arches;
    while todo != {}
      invariant todo <= arches
      invariant forall other :: OnlyCopies(files, from, l, now, arches - todo, other, 0)
      invariant forall other :: AllCopies(files, l, arches - todo, other, 0)
    {
      var arch :| arch in todo;
      ghost var archs := arches - todo;
      files, from := LayOutArch(files, from, l, now, arch, archs);
      forall other { ArchDoneOnly(files, from, l, now, archs, arch, other); }
      forall other { ArchDoneAll(files, l, archs, arch, other); }
      assert arches - (todo - {arch}) == archs + {arch};
      todo := todo - {arch};
    }
    assert arches - todo == arches;
  }

  // ----- one snapshot -------------------------------------------------------

  function Metadata(data: Bytes): Served<Body> { Served(Body(data, "text/plain"), None) }

  function WithMetadata(files: map<string, Served<Body>>, release: Bytes, gpg: Bytes, inRelease: Bytes)
    : map<string, Served<Body>>
  {
    files["/dists/stable/Release" := Metadata(release)]
         ["/dists/stable/Release.gpg" := Served(Body(gpg, "application/pgp-signature"), None)]
         ["/dists/stable/InRelease" := Metadata(inRelease)]
  }

  function BootstrapPath(inp: Input): string
    requires inp.cfg.bootstrapName != ""
  {
    Bootstrap.PoolPath(inp.cfg.bootstrapName, inp.bs.version)
  }

  function WithBootstrap(files: map<string, Served<Body>>, inp: Input, keyring: Bytes): map<string, Served<Body>>
    requires inp.cfg.bootstrapName != ""
  {
    files[BootstrapPath(inp) :=
            Served(Body(inp.deb, "application/vnd.debian.binary-package"), Some(inp.now + RETENTION))]
         ["/pubkey.gpg" := Served(Body(keyring, "application/pgp-keys"), None)]
         ["/release/stable/latest" := Metadata(inp.bs.version + "\n")]
  }

  const LATEST_DEB := "/release/stable/latest.deb"

  function BootstrapEntry(inp: Input, control: Bytes, fields: Fields): Entry
    requires inp.cfg.bootstrapName != ""
  {
    Entry("bootstrap", control, BootstrapPath(inp), inp.bs.size, inp.bs.sha256, fields)
  }

  /** The intermediate values of one composition. */
  datatype Making = Making(
    sources: seq<Entry>, bootstrap: Entry, built: Built, copies: map<string, Served<Body>>, from: Origins,
    redirects: map<string, Served<string>>, inRelease: Bytes, gpg: Bytes)
  {
    function Entries(): seq<Entry> { sources + [bootstrap] }
  }

  predicate Ready(inp: Input) { inp.cfg.bootstrapName != "" }

  ghost predicate MadeIndex(mk: Making, inp: Input, tools: Tools)
    requires FieldsPresent(tools) && Ready(inp)
  {
    && EntriesLaidOut(tools, inp.states, mk.sources)
    && Some(mk.bootstrap.control) == tools.debControl(inp.deb)
    && Some(mk.bootstrap.fields) == tools.extractFields(mk.bootstrap.control)
    && mk.bootstrap == BootstrapEntry(inp, mk.bootstrap.control, mk.bootstrap.fields)
    && (forall err :: !Offends(err, SuiteOf(inp.cfg), mk.Entries()))
    && IsBuilt(mk.built, SuiteOf(inp.cfg), mk.Entries(), tools.codec, inp.now)
  }

  ghost predicate MadeCopies(mk: Making, now: int) {
    var l, archs := LayoutOf(mk.built), mk.built.perArch.Keys;
    OnlyCopies(mk.copies, mk.from, l, now, archs, "", 0) && AllCopies(mk.copies, l, archs, "", 0)
  }

  /** m is what a tick makes before anything is carried over. */
  ghost predicate MadeFrom(m: Snapshot, mk: Making, inp: Input, tools: Tools)
    requires FieldsPresent(tools) && Ready(inp)
  {
    && MadeIndex(mk, inp, tools) && MadeCopies(mk, inp.now)
    && tools.clearsign(mk.built.release) == Some(mk.inRelease) && tools.detachSign(mk.built.release) == Some(mk.gpg)
    && RedirectsLaidOut(tools, inp.states, inp.now, mk.redirects)
    && m.files == WithBootstrap(WithMetadata(mk.copies, mk.built.release, mk.gpg, mk.inRelease), inp, tools.keyring)
    && m.redirects == mk.redirects[LATEST_DEB := Served(inp.cfg.pathPrefix + BootstrapPath(inp), None)]
    && m.builtAt == inp.now
  }

  /** The bootstrap .deb yields no control stanza, or the strict checks find an offender. */
  ghost predicate IndexFails(inp: Input, tools: Tools, sources: seq<Entry>)
    requires Ready(inp)
  {
    var control := tools.debControl(inp.deb);
    control.None? ||
    var fields := tools.extractFields(control.value);
    fields.None? ||
    exists err :: Offends(err, SuiteOf(inp.cfg), sources + [BootstrapEntry(inp, control.value, fields.value)])
  }

  ghost predicate SigningFails(inp: Input, tools: Tools, sources: seq<Entry>, built: Built)
    requires Ready(inp) && !IndexFails(inp, tools, sources)
  {
    var control := tools.debControl(inp.deb).value;
    var entry := BootstrapEntry(inp, control, tools.extractFields(control).value);
    && IsBuilt(built, SuiteOf(inp.cfg), sources + [entry], tools.codec, inp.now)
    && (tools.clearsign(built.release).None? || tools.detachSign(built.release).None?)
  }

  /** Why a tick composes nothing: its index cannot be built or its Release not signed. */
  ghost predicate ComposeFails(inp: Input, tools: Tools)
    requires FieldsPresent(tools) && Ready(inp)
  {
    exists sources: seq<Entry>, built: Built :: FailsWith(inp, tools, sources, built)
  }

  ghost predicate FailsWith(inp: Input, tools: Tools, sources: seq<Entry>, built: Built)
    requires FieldsPresent(tools) && Ready(inp)
  {
    && EntriesLaidOut(tools, inp.states, sources) && OncePerSource(tools, inp.states, sources)
    && (IndexFails(inp, tools, sources) || SigningFails(inp, tools, sources, built))
  }

  const NOTHING_BUILT := Built(map[], "", map[], map[])

  method MakeIndex(inp: Input, tools: Tools, sources: seq<Entry>) returns (r: Result<(Entry, Built)>)
    requires FieldsPresent(tools) && Ready(inp)
    ensures r.Err? <==> IndexFails(inp, tools, sources)
    ensures r.Ok? ==>
      && Some(r.value.0.control) == tools.debControl(inp.deb)
      && Some(r.value.0.fields) == tools.extractFields(r.value.0.control)
      && r.value.0 == BootstrapEntry(inp, r.value.0.control, r.value.0.fields)
      && IsBuilt(r.value.1, SuiteOf(inp.cfg), sources + [r.value.0], tools.codec, inp.now)
  {
    var control := tools.debControl(inp.deb);
    if control.None? { return Err; }
    var fields := tools.extractFields(control.value);
    if fields.None? { return Err; }
    var entry := BootstrapEntry(inp, control.value, fields.value);
    var built := Build(SuiteOf(inp.cfg), sources + [entry], tools.codec, inp.now);
    if built.Err? { return Err; }
    r := Ok((entry, built.value));
  }

  method MakeSnapshot(inp: Input, tools: Tools) returns (r: Result<Snapshot>, ghost mk: Making)
    requires FieldsPresent(tools) && Ready(inp)
    ensures r.Err? ==> ComposeFails(inp, tools)
    ensures r.Ok? ==> MadeFrom(r.value, mk, inp, tools)
  {
    mk := Making([], Entry("", "", "", 0, "", Fields("", "", "")), NOTHING_BUILT, map[], map[], map[], "", "");
    var sources, redirects := LayOutSources(tools, inp.states, inp.now);
    var index := MakeIndex(inp, tools, sources);
    if index.Err? {
      assert FailsWith(inp, tools, sources, NOTHING_BUILT);
      return Err, mk;
    }
    var (entry, built) := index.value;
    var copies, from := LayOutCopies(LayoutOf(built), built.perArch.Keys, inp.now);
    var inRelease := tools.clearsign(built.release);
    var gpg := tools.detachSign(built.release);
    if inRelease.None? || gpg.None? {
      assert FailsWith(inp, tools, sources, built);
      return Err, mk;
    }
    var files := WithMetadata(copies, built.release, gpg.value, inRelease.value);
    files := WithBootstrap(files, inp, tools.keyring);
    mk := Making(sources, entry, built, copies, from, redirects, inRelease.value, gpg.value);
    redirects := redirects[LATEST_DEB := Served(inp.cfg.pathPrefix + BootstrapPath(inp), None)];
    r := Ok(Snapshot(files, redirects, inp.now));
  }

  /** What a tick publishes on top of the previous snapshot. */
  function OnTopOf(m: Snapshot, prev: Option<Snapshot>): Snapshot {
    match prev
    case None => m
    case Some(s) => Snapshot(Carry(m.files, s.files, m.builtAt), Carry(m.redirects, s.redirects, m.builtAt), m.builtAt)
  }

  ghost predicate ComposesTo(prev: Option<Snapshot>, s: Snapshot, m: Snapshot, mk: Making, inp: Input, tools: Tools)
    requires FieldsPresent(tools) && Ready(inp)
  {
    MadeFrom(m, mk, inp, tools) && s == OnTopOf(m, prev)
  }

  method ComposeSnapshot(inp: Input, tools: Tools, prev: Option<Snapshot>)
      returns (r: Result<Snapshot>, ghost m: Snapshot, ghost mk: Making)
    requires FieldsPresent(tools) && Ready(inp)
    ensures r.Err? ==> ComposeFails(inp, tools)
    ensures r.Ok? ==> ComposesTo(prev, r.value, m, mk, inp, tools)
  {
    var made;
    made, mk := MakeSnapshot(inp, tools);
    m := Snapshot(map[], map[], 0);
    if made.Err? { return Err, m, mk; }
    m := made.value;
    var s := made.value;
    if prev.Some? {
      var files := CarryOver(s.files, prev.value.files, inp.now);
      var redirects := CarryOver(s.redirects, prev.value.redirects, inp.now);
      s := Snapshot(files, redirects, inp.now);
    }
    r := Ok(s);
  }

  /** internal/signpost/refresh/refresher.go, compose: publish, or keep the prior snapshot. */
  class Refresher {
    var holder: Option<Snapshot>

    method Compose(inp: Input, tools: Tools, loadFails: bool) returns (ok: bool, ghost m: Snapshot, ghost mk: Making)
      requires FieldsPresent(tools) && Ready(inp)
      modifies this
      ensures ok ==> !loadFails && holder.Some? && ComposesTo(old(holder), holder.value, m, mk, inp, tools)
      ensures !ok ==> holder == old(holder) && (loadFails || ComposeFails(inp, tools))
    {
      m, mk := Snapshot(map[], map[], 0), *;
      if loadFails { return false, m, mk; }
      var r;
      r, m, mk := ComposeSnapshot(inp, tools, holder);
      if r.Err? { return false, m, mk; }
      holder := Some(r.value);
      ok := true;
    }
  }
}
