/** internal/signpost/index/build.go: per-architecture Packages files and the Release text. */
module Index {
  import opened Text
  import opened Sorting

  datatype Fields = Fields(package: string, version: string, architecture: string)

  datatype Entry = Entry(
    sourceName: string, control: Bytes, poolPath: string, size: nat, sha256: string, fields: Fields)

  datatype Suite = Suite(
    origin: string, suiteLabel: string, codename: string, description: string,
    component: string, architectures: seq<string>)

  datatype Variant = Plain | Gz | Xz | Zst

  /** Compression, hashing and date formatting: deterministic library functions. */
  datatype Codec = Codec(
    gzip: Bytes -> Bytes, xz: Bytes -> Bytes, zstd: Bytes -> Bytes, sha256: Bytes -> string, date: int -> string)

  datatype ArchFiles = ArchFiles(packages: Bytes, packagesGz: Bytes, packagesXz: Bytes, packagesZst: Bytes) {
    function Get(v: Variant): Bytes {
      match v case Plain => packages case Gz => packagesGz case Xz => packagesXz case Zst => packagesZst
    }
  }

  datatype Built = Built(
    perArch: map<string, ArchFiles>, release: Bytes, hashes: map<string, string>, sizes: map<string, nat>)

  const ALL_VARIANTS: seq<Variant> := [Plain, Gz, Xz, Zst]

  function Suffix(v: Variant): string {
    match v case Plain => "" case Gz => ".gz" case Xz => ".xz" case Zst => ".zst"
  }

  function PackagesPath(component: string, arch: string, v: Variant): string {
    component + "/binary-" + arch + "/Packages" + Suffix(v)
  }

  /** Paths of different architectures or variants are different. */
  lemma {:induction false} PackagesPathInjective(component: string, a: string, v: Variant, b: string, w: Variant)
    requires PackagesPath(component, a, v) == PackagesPath(component, b, w)
    ensures a == b && v == w
  {
    var head := component + "/binary-";
    PackagesPathParts(component, a, v);
    PackagesPathParts(component, b, w);
    SameVariant(head + a + "/Packages", v, head + b + "/Packages", w);
    SameMiddle(head, a, b, "/Packages" + Suffix(v));
  }

  lemma {:induction false} PackagesPathParts(component: string, a: string, v: Variant)
    ensures PackagesPath(component, a, v) == component + "/binary-" + a + "/Packages" + Suffix(v)
    ensures PackagesPath(component, a, v) == component + "/binary-" + a + ("/Packages" + Suffix(v))
  {
  }

  lemma {:induction false} SameVariant(x: string, v: Variant, y: string, w: Variant)
    requires |x| >= 2 && x[|x| - 1] == 's' && x[|x| - 2] == 'e' && |y| >= 2 && y[|y| - 1] == 's' && y[|y| - 2] == 'e'
    requires x + Suffix(v) == y + Suffix(w)
    ensures v == w
  {
    LastTwo(x, v);
    LastTwo(y, w);
  }

  lemma {:induction false} LastTwo(s: string, v: Variant)
    requires |s| >= 2 && s[|s| - 1] == 's' && s[|s| - 2] == 'e'
    ensures var p := s + Suffix(v);
      [p[|p| - 2], p[|p| - 1]] == match v case Plain => "es" case Gz => "gz" case Xz => "xz" case Zst => "st"
  {
    match v
    case Plain => assert s + "" == s;
    case Gz =>
    case Xz =>
    case Zst =>
  }

  lemma {:induction false} SameMiddle(head: string, a: string, b: string, tail: string)
    ensures head + a + tail == head + b + tail ==> a == b
  {
    var p, q := head + a + tail, head + b + tail;
    assert p[|head|..|head| + |a|] == a && q[|head|..|head| + |b|] == b;
  }

  // ----- strict checks ------------------------------------------------------

  datatype CheckError = BadArchitecture(source: string, arch: string) | Duplicate(fields: Fields)

  predicate Allowed(s: Suite, arch: string) { arch == "all" || arch in s.architectures }

  function Occurrences(s: Suite, entries: seq<Entry>, k: Fields): nat {
    if entries == [] then 0
    else
      var last := entries[|entries| - 1];
      Occurrences(s, entries[..|entries| - 1], k) +
      if Allowed(s, last.fields.architecture) && last.fields == k then 1 else 0
  }

  ghost predicate Twice(s: Suite, entries: seq<Entry>, k: Fields) {
    Allowed(s, k.architecture) &&
    exists i, j :: 0 <= i < j < |entries| && entries[i].fields == k && entries[j].fields == k
  }

  lemma {:induction false} OccursOnce(s: Suite, entries: seq<Entry>, k: Fields)
    ensures Occurrences(s, entries, k) >= 1 <==>
            Allowed(s, k.architecture) && exists i :: 0 <= i < |entries| && entries[i].fields == k
  {
    if entries != [] {
      var n := |entries| - 1;
      OccursOnce(s, entries[..n], k);
      assert forall i :: 0 <= i < n ==> entries[..n][i] == entries[i];
    }
  }

  lemma {:induction false} OccursTwice(s: Suite, entries: seq<Entry>, k: Fields)
    ensures Occurrences(s, entries, k) >= 2 <==> Twice(s, entries, k)
  {
    if entries != [] {
      var n := |entries| - 1;
      OccursTwice(s, entries[..n], k);
      OccursOnce(s, entries[..n], k);
      assert forall i :: 0 <= i < n ==> entries[..n][i] == entries[i];
    }
  }

  ghost predicate Offends(err: CheckError, s: Suite, entries: seq<Entry>) {
    match err
    case BadArchitecture(source, arch) =>
      !Allowed(s, arch) && exists e :: e in entries && e.sourceName == source && e.fields.architecture == arch
    case Duplicate(k) => Twice(s, entries, k)
  }

  /** All offenders are reported together, and nothing else is. */
  method StrictChecks(s: Suite, entries: seq<Entry>) returns (errs: seq<CheckError>)
    ensures forall err :: err in errs <==> Offends(err, s, entries)
  {
    errs := [];
    var seen: map<Fields, nat> := map[];
    for i := 0 to |entries|
      invariant forall err :: err in errs <==> err.BadArchitecture? && Offends(err, s, entries[..i])
      invariant forall k :: (if k in seen then seen[k] else 0) == Occurrences(s, entries[..i], k)
    {
      var e := entries[i];
      assert entries[..i + 1] == entries[..i] + [e] && entries[..i + 1][..i] == entries[..i];
      if !Allowed(s, e.fields.architecture) {
        errs := errs + [BadArchitecture(e.sourceName, e.fields.architecture)];
        continue;
      }
      seen := seen[e.fields := (if e.fields in seen then seen[e.fields] else 0) + 1];
    }
    assert entries[..|entries|] == entries;
    forall k { OccursTwice(s, entries, k); }
    var todo := seen.Keys;
    while todo != {}
      invariant todo <= seen.Keys
      invariant forall err :: err in errs <==>
        match err
        case BadArchitecture(_, _) => Offends(err, s, entries)
        case Duplicate(k) => k in seen.Keys - todo && seen[k] > 1
    {
      var k :| k in todo;
      if seen[k] > 1 { errs := errs + [Duplicate(k)]; }
      todo := todo - {k};
    }
  }

  // ----- the entries of one architecture ------------------------------------

  function OfArch(entries: seq<Entry>, arch: string): seq<Entry> {
    if entries == [] then []
    else
      var last := entries[|entries| - 1];
      OfArch(entries[..|entries| - 1], arch) + if last.fields.architecture == arch then [last] else []
  }

  /** An architecture's own entries plus every "all" entry. */
  function ArchEntries(entries: seq<Entry>, arch: string): seq<Entry> {
    (if arch == "all" then [] else OfArch(entries, arch)) + OfArch(entries, "all")
  }

  predicate EntryLess(e: Entry, f: Entry) {
    if e.fields.package != f.fields.package then Less(e.fields.package, f.fields.package)
    else Less(e.fields.version, f.fields.version)
  }

  predicate EntryLe(e: Entry, f: Entry) { !EntryLess(f, e) }

  lemma {:induction false} EntryLeMeans(e: Entry, f: Entry)
    ensures EntryLe(e, f) <==>
      Less(e.fields.package, f.fields.package) ||
      (e.fields.package == f.fields.package && AtMost(e.fields.version, f.fields.version))
  {
    LessTotal(e.fields.package, f.fields.package);
    LessAsymmetric(e.fields.package, f.fields.package);
    LessAsymmetric(e.fields.package, e.fields.package);
  }

  lemma {:induction false} EntryLeTransitive(e: Entry, f: Entry, g: Entry)
    requires EntryLe(e, f) && EntryLe(f, g)
    ensures EntryLe(e, g)
  {
    EntryLeMeans(e, f);
    EntryLeMeans(f, g);
    EntryLeMeans(e, g);
    if Less(e.fields.package, f.fields.package) && Less(f.fields.package, g.fields.package) {
      LessTransitive(e.fields.package, f.fields.package, g.fields.package);
    } else if e.fields.package == f.fields.package == g.fields.package {
      AtMostTransitive(e.fields.version, f.fields.version, g.fields.version);
    }
  }

  lemma {:induction false} EntryOrder()
    ensures TotalPreorder(EntryLe)
  {
    forall e: Entry, f: Entry ensures EntryLe(e, f) || EntryLe(f, e) {
      EntryLeMeans(e, f);
      EntryLeMeans(f, e);
      LessTotal(e.fields.package, f.fields.package);
      LessAsymmetric(e.fields.version, f.fields.version);
    }
    forall e: Entry, f: Entry, g: Entry | EntryLe(e, f) && EntryLe(f, g) ensures EntryLe(e, g) {
      EntryLeTransitive(e, f, g);
    }
  }

  /** sort.Slice is not stable: callers may rely on order and contents alone. */
  method SortEntries(es: seq<Entry>) returns (out: seq<Entry>)
    ensures multiset(out) == multiset(es) && Sorted(out, EntryLe)
  {
    EntryOrder();
    SortIsSorted(es, EntryLe);
    out := Sort(es, EntryLe);
  }

  // ----- rendering ----------------------------------------------------------

  function TrimSlash(path: string): string { if HasPrefix(path, "/") then path[1..] else path }

  function Stanza(e: Entry): Bytes {
    TrimRight(e.control, '\n') + "\n" + "Filename: " + TrimSlash(e.poolPath) + "\n" +
    "Size: " + Itoa(e.size) + "\n" + "SHA256: " + e.sha256 + "\n"
  }

  function Packages(entries: seq<Entry>): Bytes {
    if entries == [] then ""
    else
      var n := |entries| - 1;
      Packages(entries[..n]) + (if n > 0 then "\n" else "") + Stanza(entries[n])
  }

  method RenderPackages(entries: seq<Entry>) returns (buf: Bytes)
    ensures buf == Packages(entries)
  {
    buf := "";
    for i := 0 to |entries|
      invariant buf == Packages(entries[..i])
    {
      assert entries[..i + 1][..i] == entries[..i];
      if i > 0 { buf := buf + "\n"; }
      buf := buf + Stanza(entries[i]);
    }
    assert entries[..|entries|] == entries;
  }

  function HashLine(hash: string, size: nat, path: string): Bytes {
    " " + hash + " " + Itoa(size) + " " + path + "\n"
  }

  function HashLines(paths: seq<string>, hashes: map<string, string>, sizes: map<string, nat>): Bytes
    requires forall p :: p in paths ==> p in hashes && p in sizes
  {
    if paths == [] then ""
    else
      var n := |paths| - 1;
      HashLines(paths[..n], hashes, sizes) + HashLine(hashes[paths[n]], sizes[paths[n]], paths[n])
  }

  function FieldLine(key: string, value: string): Bytes { key + ": " + value + "\n" }

  function ReleaseHeader(s: Suite, date: string): Bytes {
    FieldLine("Origin", s.origin) + (FieldLine("Label", s.suiteLabel) + (
    FieldLine("Suite", s.codename) + (FieldLine("Codename", s.codename) + (
    FieldLine("Components", s.component) + (FieldLine("Architectures", Join(s.architectures, ' ')) + (
    FieldLine("Description", s.description) + (FieldLine("Date", date) + (
    FieldLine("Acquire-By-Hash", "yes") + "SHA256:\n"))))))))
  }

  ghost predicate IsRelease(r: Bytes, header: Bytes, hashes: map<string, string>, sizes: map<string, nat>) {
    exists paths: seq<string> :: PathList(paths, hashes.Keys)
      && (forall p :: p in paths ==> p in hashes && p in sizes)
      && r == header + HashLines(paths, hashes, sizes)
  }

  lemma {:induction false} HashLinesPrefix(
    paths: seq<string>, i: nat, hashes: map<string, string>, sizes: map<string, nat>)
    requires i < |paths| && forall p :: p in paths ==> p in hashes && p in sizes
    ensures HashLines(paths[..i + 1], hashes, sizes) ==
            HashLines(paths[..i], hashes, sizes) + HashLine(hashes[paths[i]], sizes[paths[i]], paths[i])
  {
    assert paths[..i + 1][..i] == paths[..i];
  }

  lemma {:induction false} ConcatAssociates(a: Bytes, b: Bytes, c: Bytes)
    ensures a + b + c == a + (b + c)
  {
  }

  method RenderHashLines(header: Bytes, hashes: map<string, string>, sizes: map<string, nat>) returns (buf: Bytes)
    requires hashes.Keys == sizes.Keys
    ensures IsRelease(buf, header, hashes, sizes)
  {
    buf := header;
    var paths := SortedPaths(hashes.Keys);
    PathListMembers(paths, hashes.Keys);
    for i := 0 to |paths|
      invariant buf == header + HashLines(paths[..i], hashes, sizes)
    {
      HashLinesPrefix(paths, i, hashes, sizes);
      var line := HashLine(hashes[paths[i]], sizes[paths[i]], paths[i]);
      ConcatAssociates(header, HashLines(paths[..i], hashes, sizes), line);
      buf := buf + line;
    }
    assert paths[..|paths|] == paths;
  }

  method RenderRelease(
    s: Suite, hashes: map<string, string>, sizes: map<string, nat>, date: string) returns (buf: Bytes)
    requires hashes.Keys == sizes.Keys
    ensures IsRelease(buf, ReleaseHeader(s, date), hashes, sizes)
  {
    buf := RenderHashLines(ReleaseHeader(s, date), hashes, sizes);
  }

  // ----- Build --------------------------------------------------------------

  function FilesOf(c: Codec, pkg: Bytes): ArchFiles { ArchFiles(pkg, c.gzip(pkg), c.xz(pkg), c.zstd(pkg)) }

  /** One of the orders sort.Slice may leave an architecture's entries in. */
  ghost predicate ArchList(list: seq<Entry>, entries: seq<Entry>, arch: string) {
    multiset(list) == multiset(ArchEntries(entries, arch)) && Sorted(list, EntryLe)
  }

  ghost predicate ArchBuilt(files: ArchFiles, entries: seq<Entry>, arch: string, c: Codec) {
    exists list: seq<Entry> :: ArchList(list, entries, arch) && files == FilesOf(c, Packages(list))
  }

  ghost predicate IsPath(p: string, component: string, archs: set<string>) {
    exists a, v :: a in archs && p == PackagesPath(component, a, v)
  }

  /** The hash and size of one variant, as the Release file lists them. */
  ghost predicate Recorded(component: string, arch: string, v: Variant, files: ArchFiles,
                           hashes: map<string, string>, sizes: map<string, nat>, c: Codec)
  {
    var p, data := PackagesPath(component, arch, v), files.Get(v);
    p in hashes && p in sizes && hashes[p] == c.sha256(data) && sizes[p] == |data|
  }

  /** hashes and sizes list exactly the four variants of every architecture. */
  ghost predicate Listed(component: string, perArch: map<string, ArchFiles>, hashes: map<string, string>,
                         sizes: map<string, nat>, c: Codec)
  {
    && hashes.Keys == sizes.Keys
    && (forall p :: p in hashes ==> IsPath(p, component, perArch.Keys))
    && (forall a, v {:trigger Recorded(component, a, v, perArch[a], hashes, sizes, c)} :: a in perArch ==>
          Recorded(component, a, v, perArch[a], hashes, sizes, c))
  }

  ghost predicate IsBuilt(b: Built, s: Suite, entries: seq<Entry>, c: Codec, now: int) {
    && ArchesBuilt(b.perArch, s.architectures, entries, c)
    && Listed(s.component, b.perArch, b.hashes, b.sizes, c)
    && IsRelease(b.release, ReleaseHeader(s, c.date(now)), b.hashes, b.sizes)
  }

  /** Everything listed except the variants of arch that are still to do. */
  ghost predicate ListedBut(component: string, perArch: map<string, ArchFiles>, hashes: map<string, string>,
                            sizes: map<string, nat>, c: Codec, arch: string, todo: seq<Variant>)
    requires arch in perArch
  {
    && hashes.Keys == sizes.Keys
    && (forall p :: p in hashes ==> IsPath(p, component, perArch.Keys))
    && (forall a, v {:trigger Recorded(component, a, v, perArch[a], hashes, sizes, c)} ::
          a in perArch && (a == arch ==> v !in todo) ==>
          Recorded(component, a, v, perArch[a], hashes, sizes, c))
  }

  lemma {:induction false} RecordVariant(
    component: string, perArch: map<string, ArchFiles>, hashes: map<string, string>,
                                         sizes: map<string, nat>, c: Codec, arch: string, todo: seq<Variant>)
    requires arch in perArch && todo != [] && ListedBut(component, perArch, hashes, sizes, c, arch, todo)
    ensures var p, data := PackagesPath(component, arch, todo[0]), perArch[arch].Get(todo[0]);
      ListedBut(component, perArch, hashes[p := c.sha256(data)], sizes[p := |data|], c, arch, todo[1..])
  {
    var p, data := PackagesPath(component, arch, todo[0]), perArch[arch].Get(todo[0]);
    var hashes', sizes' := hashes[p := c.sha256(data)], sizes[p := |data|];
    assert todo == [todo[0]] + todo[1..];
    assert IsPath(p, component, perArch.Keys);
    assert forall q :: q in hashes' ==> IsPath(q, component, perArch.Keys);
    forall a, v {:trigger Recorded(component, a, v, perArch[a], hashes', sizes', c)}
      | a in perArch && (a == arch ==> v !in todo[1..])
      ensures Recorded(component, a, v, perArch[a], hashes', sizes', c) {
      StillRecorded(component, perArch, hashes, sizes, c, arch, todo[0], a, v);
    }
    assert hashes'.Keys == sizes'.Keys;
    assert ListedBut(component, perArch, hashes', sizes', c, arch, todo[1..]);
  }

  lemma {:induction false} StillRecorded(
    component: string, perArch: map<string, ArchFiles>, hashes: map<string, string>,
                                         sizes: map<string, nat>, c: Codec, arch: string, u: Variant,
                                         a: string, v: Variant)
    requires arch in perArch && a in perArch
    requires (a, v) == (arch, u) || Recorded(component, a, v, perArch[a], hashes, sizes, c)
    ensures var p, data := PackagesPath(component, arch, u), perArch[arch].Get(u);
      Recorded(component, a, v, perArch[a], hashes[p := c.sha256(data)], sizes[p := |data|], c)
  {
    if PackagesPath(component, a, v) == PackagesPath(component, arch, u) {
      PackagesPathInjective(component, a, v, arch, u);
    }
  }

  method RecordArch(component: string, arch: string, files: ArchFiles, c: Codec, ghost perArch: map<string, ArchFiles>,
                    hashes: map<string, string>, sizes: map<string, nat>)
      returns (hashes': map<string, string>, sizes': map<string, nat>)
    requires Listed(component, perArch, hashes, sizes, c)
    ensures Listed(component, perArch[arch := files], hashes', sizes', c)
  {
    hashes', sizes' := hashes, sizes;
    ghost var perArch' := perArch[arch := files];
    forall p | p in hashes ensures IsPath(p, component, perArch'.Keys) {
      var a, v :| a in perArch.Keys && p == PackagesPath(component, a, v);
      assert a in perArch'.Keys;
    }
    forall a, v | a in perArch' && (a == arch ==> v !in ALL_VARIANTS)
      ensures Recorded(component, a, v, perArch'[a], hashes', sizes', c) {
      VariantListed(v);
      assert Recorded(component, a, v, perArch[a], hashes, sizes, c);
    }
    assert ALL_VARIANTS[0..] == ALL_VARIANTS;
    for k := 0 to |ALL_VARIANTS|
      invariant ListedBut(component, perArch', hashes', sizes', c, arch, ALL_VARIANTS[k..])
    {
      RecordVariant(component, perArch', hashes', sizes', c, arch, ALL_VARIANTS[k..]);
      var v := ALL_VARIANTS[k];
      var p, data := PackagesPath(component, arch, v), files.Get(v);
      hashes', sizes' := hashes'[p := c.sha256(data)], sizes'[p := |data|];
    }
    assert ALL_VARIANTS[|ALL_VARIANTS|..] == [];
    assert forall a, v :: a in perArch' ==> Recorded(component, a, v, perArch'[a], hashes', sizes', c);
  }

  lemma {:induction false} VariantListed(v: Variant)
    ensures v in ALL_VARIANTS
  {
    match v
    case Plain => assert ALL_VARIANTS[0] == v;
    case Gz => assert ALL_VARIANTS[1] == v;
    case Xz => assert ALL_VARIANTS[2] == v;
    case Zst => assert ALL_VARIANTS[3] == v;
  }

  ghost predicate FannedOut(byArch: map<string, seq<Entry>>, entries: seq<Entry>) {
    forall a :: (if a in byArch then byArch[a] else []) == if a == "all" then [] else OfArch(entries, a)
  }

  method FanOut(entries: seq<Entry>) returns (byArch: map<string, seq<Entry>>, allEntries: seq<Entry>)
    ensures allEntries == OfArch(entries, "all")
    ensures FannedOut(byArch, entries)
  {
    allEntries, byArch := [], map[];
    for i := 0 to |entries|
      invariant allEntries == OfArch(entries[..i], "all")
      invariant FannedOut(byArch, entries[..i])
    {
      assert entries[..i + 1][..i] == entries[..i];
      var e := entries[i];
      var arch := e.fields.architecture;
      if arch == "all" {
        allEntries := allEntries + [e];
        continue;
      }
      byArch := byArch[arch := (if arch in byArch then byArch[arch] else []) + [e]];
    }
    assert entries[..|entries|] == entries;
  }

  method BuildArch(
    archEntries: seq<Entry>, c: Codec, ghost entries: seq<Entry>, ghost arch: string) returns (files: ArchFiles)
    requires archEntries == ArchEntries(entries, arch)
    ensures ArchBuilt(files, entries, arch, c)
  {
    var sorted := SortEntries(archEntries);
    var pkg := RenderPackages(sorted);
    files := FilesOf(c, pkg);
    assert ArchList(sorted, entries, arch);
  }

  method Build(s: Suite, entries: seq<Entry>, c: Codec, now: int) returns (r: Result<Built>)
    ensures r.Ok? <==> forall err :: !Offends(err, s, entries)
    ensures r.Ok? ==> IsBuilt(r.value, s, entries, c, now)
  {
    var errs := StrictChecks(s, entries);
    if errs != [] {
      assert Offends(errs[0], s, entries);
      return Err;
    }
    var built := BuildAll(s, entries, c, now);
    r := Ok(built);
  }

  ghost predicate ArchesBuilt(perArch: map<string, ArchFiles>, archs: seq<string>, entries: seq<Entry>, c: Codec) {
    && (forall a :: a in perArch <==> a in archs)
    && (forall a :: a in perArch ==> ArchBuilt(perArch[a], entries, a, c))
  }

  ghost predicate KeyedBy<V(!new)>(m: map<string, V>, keys: seq<string>, ok: (string, V) -> bool) {
    (forall k :: k in m <==> k in keys) && forall k :: k in m ==> ok(k, m[k])
  }

  lemma {:induction false} AddKey<V(!new)>(
    m: map<string, V>, keys: seq<string>, k: string, v: V, ok: (string, V) -> bool)
    requires KeyedBy(m, keys, ok) && ok(k, v)
    ensures KeyedBy(m[k := v], keys + [k], ok)
  {
  }

  lemma {:induction false} AddArch(perArch: map<string, ArchFiles>, archs: seq<string>, arch: string, files: ArchFiles,
                                   entries: seq<Entry>, c: Codec)
    requires ArchesBuilt(perArch, archs, entries, c) && ArchBuilt(files, entries, arch, c)
    ensures ArchesBuilt(perArch[arch := files], archs + [arch], entries, c)
  {
    AddKey(perArch, archs, arch, files, (a, f) => ArchBuilt(f, entries, a, c));
  }

  lemma {:induction false} ArchPart(
    byArch: map<string, seq<Entry>>, allEntries: seq<Entry>, entries: seq<Entry>, arch: string)
    requires FannedOut(byArch, entries) && allEntries == OfArch(entries, "all")
    ensures (if arch in byArch then byArch[arch] else []) + allEntries == ArchEntries(entries, arch)
  {
  }

  method BuildArches(s: Suite, entries: seq<Entry>, c: Codec)
      returns (perArch: map<string, ArchFiles>, hashes: map<string, string>, sizes: map<string, nat>)
    ensures ArchesBuilt(perArch, s.architectures, entries, c)
    ensures Listed(s.component, perArch, hashes, sizes, c)
  {
    var byArch, allEntries := FanOut(entries);
    perArch, hashes, sizes := map[], map[], map[];
    for i := 0 to |s.architectures|
      invariant ArchesBuilt(perArch, s.architectures[..i], entries, c)
      invariant Listed(s.component, perArch, hashes, sizes, c)
    {
      var arch := s.architectures[i];
      assert s.architectures[..i + 1] == s.architectures[..i] + [arch];
      ArchPart(byArch, allEntries, entries, arch);
      var files := BuildArch((if arch in byArch then byArch[arch] else []) + allEntries, c, entries, arch);
      hashes, sizes := RecordArch(s.component, arch, files, c, perArch, hashes, sizes);
      AddArch(perArch, s.architectures[..i], arch, files, entries, c);
      perArch := perArch[arch := files];
    }
    assert s.architectures[..|s.architectures|] == s.architectures;
  }

  method BuildAll(s: Suite, entries: seq<Entry>, c: Codec, now: int) returns (b: Built)
    ensures IsBuilt(b, s, entries, c, now)
  {
    var perArch, hashes, sizes := BuildArches(s, entries, c);
    var release := RenderRelease(s, hashes, sizes, c.date(now));
    b := Built(perArch, release, hashes, sizes);
  }

  // ----- when the output depends on the entries alone -----------------------

  predicate SameSortKey(e: Entry, f: Entry) {
    e.fields.package == f.fields.package && e.fields.version == f.fields.version
  }

  /** No two different entries carry the same (Package, Version). */
  ghost predicate KeysTell(es: seq<Entry>) {
    forall x, y :: x in es && y in es && SameSortKey(x, y) ==> x == y
  }

  ghost predicate SortedAs(list: seq<Entry>, es: seq<Entry>) {
    multiset(list) == multiset(es) && Sorted(list, EntryLe)
  }

  lemma {:induction false} TiesShareKey(e: Entry, f: Entry)
    ensures EntryLe(e, f) && EntryLe(f, e) <==> SameSortKey(e, f)
  {
    EntryLeMeans(e, f);
    EntryLeMeans(f, e);
    LessAsymmetric(e.fields.package, f.fields.package);
    LessTotal(e.fields.version, f.fields.version);
    LessAsymmetric(e.fields.version, f.fields.version);
  }

  lemma {:induction false} KeysDecideOrder(es: seq<Entry>, xs: seq<Entry>, ys: seq<Entry>)
    requires KeysTell(es) && SortedAs(xs, es) && SortedAs(ys, es)
    ensures xs == ys
  {
    forall x, y | x in xs && y in xs && EntryLe(x, y) && EntryLe(y, x) ensures x == y {
      assert x in multiset(xs) && y in multiset(xs);
      TiesShareKey(x, y);
    }
    SortedUnique(xs, ys, EntryLe);
  }

  lemma {:induction false} SwapKeeps(xs: seq<Entry>, i: nat, j: nat)
    requires i < |xs| && j < |xs|
    ensures multiset(xs[i := xs[j]][j := xs[i]]) == multiset(xs)
  {
  }

  /** Two entries that tie can stand in either order. */
  lemma {:induction false} TieLeavesChoice(es: seq<Entry>, x: Entry, y: Entry) returns (xs: seq<Entry>, ys: seq<Entry>)
    requires x in es && y in es && SameSortKey(x, y) && x != y
    ensures SortedAs(xs, es) && SortedAs(ys, es) && xs != ys
  {
    EntryOrder();
    SortIsSorted(es, EntryLe);
    xs := Sort(es, EntryLe);
    assert x in multiset(xs) && y in multiset(xs);
    var i :| 0 <= i < |xs| && xs[i] == x;
    var j :| 0 <= j < |xs| && xs[j] == y;
    ys := xs[i := y][j := x];
    SwapKeeps(xs, i, j);
    TiesShareKey(x, y);
    forall a, b | 0 <= a < b < |ys| ensures EntryLe(ys[a], ys[b]) {
      SwappedPair(xs, i, j, a, b);
    }
  }

  lemma {:induction false} SwappedPair(xs: seq<Entry>, i: nat, j: nat, a: nat, b: nat)
    requires i < |xs| && j < |xs| && i != j && a < b < |xs| && Sorted(xs, EntryLe)
    requires EntryLe(xs[i], xs[j]) && EntryLe(xs[j], xs[i])
    ensures var ys := xs[i := xs[j]][j := xs[i]]; EntryLe(ys[a], ys[b])
  {
    EntryOrder();
    var a' := if a == i then j else if a == j then i else a;
    var b' := if b == i then j else if b == j then i else b;
    assert EntryLe(xs[a'], xs[a]) && EntryLe(xs[a], xs[a']);
    assert EntryLe(xs[b'], xs[b]) && EntryLe(xs[b], xs[b']);
    EntryLeTransitive(xs[a'], xs[a], xs[b]);
    EntryLeTransitive(xs[a'], xs[b], xs[b']);
  }

  /** The order sort.Slice leaves is determined exactly when the keys tell entries apart. */
  lemma {:induction false} OrderDeterminedExactly(es: seq<Entry>)
    ensures KeysTell(es) <==>
            forall xs: seq<Entry>, ys: seq<Entry> :: SortedAs(xs, es) && SortedAs(ys, es) ==> xs == ys
  {
    if KeysTell(es) {
      forall xs: seq<Entry>, ys: seq<Entry> | SortedAs(xs, es) && SortedAs(ys, es) ensures xs == ys {
        KeysDecideOrder(es, xs, ys);
      }
    } else {
      var x, y :| x in es && y in es && SameSortKey(x, y) && x != y;
      var xs, ys := TieLeavesChoice(es, x, y);
    }
  }

  /** What a caller can check: the strict checks pass and no (Package, Version) occurs
      both as "all" and for an architecture. */
  ghost predicate NoCross(entries: seq<Entry>) {
    forall e, f :: e in entries && f in entries && e.fields.architecture == "all" && f.fields.architecture != "all"
      ==> !SameSortKey(e, f)
  }

  lemma {:induction false} OfArchMembers(entries: seq<Entry>, arch: string)
    ensures forall e :: multiset(OfArch(entries, arch))[e] ==
                        if e.fields.architecture == arch then multiset(entries)[e] else 0
  {
    if entries != [] {
      var n := |entries| - 1;
      OfArchMembers(entries[..n], arch);
      assert entries == entries[..n] + [entries[n]];
    }
  }

  predicate Concerns(e: Entry, arch: string) { e.fields.architecture == arch || e.fields.architecture == "all" }

  lemma {:induction false} ArchEntriesMembers(entries: seq<Entry>, arch: string)
    ensures forall e :: multiset(ArchEntries(entries, arch))[e] == if Concerns(e, arch) then multiset(entries)[e] else 0
  {
    OfArchMembers(entries, arch);
    OfArchMembers(entries, "all");
  }

  /** An architecture's Packages holds exactly its own entries and every "all" entry. */
  lemma {:induction false} ArchListContents(list: seq<Entry>, entries: seq<Entry>, arch: string, e: Entry)
    requires ArchList(list, entries, arch)
    ensures e in list <==> e in entries && Concerns(e, arch)
    ensures multiset(list)[e] == if Concerns(e, arch) then multiset(entries)[e] else 0
  {
    ArchEntriesMembers(entries, arch);
    assert e in list <==> e in multiset(list);
    assert e in entries <==> e in multiset(entries);
  }

  lemma {:induction false} StrictKeysTell(s: Suite, entries: seq<Entry>, arch: string)
    requires arch in s.architectures && NoCross(entries)
    requires forall err :: !Offends(err, s, entries)
    ensures KeysTell(ArchEntries(entries, arch))
  {
    var es := ArchEntries(entries, arch);
    forall x, y | x in es && y in es && SameSortKey(x, y) ensures x == y {
      OfThisArch(entries, arch, x);
      OfThisArch(entries, arch, y);
      StrictPair(s, entries, arch, x, y);
    }
  }

  lemma {:induction false} OfThisArch(entries: seq<Entry>, arch: string, e: Entry)
    requires e in ArchEntries(entries, arch)
    ensures e in entries && Concerns(e, arch)
  {
    ArchEntriesMembers(entries, arch);
    assert e in multiset(ArchEntries(entries, arch));
    assert e in multiset(entries);
  }

  lemma {:induction false} StrictPair(s: Suite, entries: seq<Entry>, arch: string, x: Entry, y: Entry)
    requires arch in s.architectures && NoCross(entries)
    requires forall err :: !Offends(err, s, entries)
    requires x in entries && y in entries && SameSortKey(x, y)
    requires x.fields.architecture == arch || x.fields.architecture == "all"
    requires y.fields.architecture == arch || y.fields.architecture == "all"
    ensures x == y
  {
    var i :| 0 <= i < |entries| && entries[i] == x;
    var j :| 0 <= j < |entries| && entries[j] == y;
    if i != j && x.fields == y.fields {
      assert Offends(Duplicate(x.fields), s, entries);
    }
  }

  lemma {:induction false} InArchEntries(entries: seq<Entry>, arch: string, e: Entry)
    requires e in entries && Concerns(e, arch)
    ensures e in ArchEntries(entries, arch)
  {
    ArchEntriesMembers(entries, arch);
    assert e in multiset(entries);
    assert e in multiset(ArchEntries(entries, arch));
  }

  /** By package name, and within one by version, both as byte strings. */
  predicate InOrder(list: seq<Entry>) {
    forall i, j :: 0 <= i < j < |list| ==> Precedes(list[i].fields, list[j].fields)
  }

  predicate Precedes(f: Fields, g: Fields) {
    AtMost(f.package, g.package) && (f.package == g.package ==> AtMost(f.version, g.version))
  }

  lemma {:induction false} SortedInOrder(list: seq<Entry>)
    requires Sorted(list, EntryLe)
    ensures InOrder(list)
  {
    forall i, j | 0 <= i < j < |list| ensures Precedes(list[i].fields, list[j].fields) {
      var f, g := list[i].fields, list[j].fields;
      assert EntryLe(list[i], list[j]);
      LessAsymmetric(f.package, g.package);
      LessTotal(f.package, g.package);
    }
  }

  /** What is built for an architecture: the rendering of its own and the "all" entries, and
      the three compressed forms of that. */
  lemma {:induction false} FormsOfArch(files: ArchFiles, entries: seq<Entry>, arch: string, c: Codec)
      returns (list: seq<Entry>)
    requires ArchBuilt(files, entries, arch, c)
    ensures (forall e :: e in list <==> e in entries && Concerns(e, arch)) && InOrder(list)
    ensures forall e :: multiset(list)[e] == if Concerns(e, arch) then multiset(entries)[e] else 0
    ensures files.Get(Plain) == Packages(list) && files.Get(Gz) == c.gzip(Packages(list))
    ensures files.Get(Xz) == c.xz(Packages(list)) && files.Get(Zst) == c.zstd(Packages(list))
  {
    list :| ArchList(list, entries, arch) && files == FilesOf(c, Packages(list));
    SortedInOrder(list);
    forall e
      ensures e in list <==> e in entries && Concerns(e, arch)
      ensures multiset(list)[e] == if Concerns(e, arch) then multiset(entries)[e] else 0
    {
      ArchListContents(list, entries, arch, e);
    }
  }

  /** Once the strict checks pass, the keys tell the entries of every architecture apart
      exactly when nothing is listed both as "all" and for an architecture. */
  lemma {:induction false} StrictKeysTellExactly(s: Suite, entries: seq<Entry>)
    requires forall err :: !Offends(err, s, entries)
    ensures NoCross(entries) <==> forall arch :: arch in s.architectures ==> KeysTell(ArchEntries(entries, arch))
  {
    if NoCross(entries) {
      forall arch | arch in s.architectures ensures KeysTell(ArchEntries(entries, arch)) {
        StrictKeysTell(s, entries, arch);
      }
    } else {
      var e, f :| e in entries && f in entries && e.fields.architecture == "all" && f.fields.architecture != "all"
                  && SameSortKey(e, f);
      assert !Offends(BadArchitecture(f.sourceName, f.fields.architecture), s, entries);
      InArchEntries(entries, f.fields.architecture, e);
      InArchEntries(entries, f.fields.architecture, f);
    }
  }

  /** So that is exactly when the order of every architecture's Packages is determined. */
  lemma {:induction false} PackagesOrderExactly(s: Suite, entries: seq<Entry>)
    requires forall err :: !Offends(err, s, entries)
    ensures NoCross(entries) <==> forall arch :: arch in s.architectures ==> OneOrder(entries, arch)
  {
    StrictKeysTellExactly(s, entries);
    forall arch | arch in s.architectures ensures OneOrder(entries, arch) <==> KeysTell(ArchEntries(entries, arch)) {
      OneOrderExactly(entries, arch);
    }
  }

  ghost predicate OneOrder(entries: seq<Entry>, arch: string) {
    forall xs, ys :: ArchList(xs, entries, arch) && ArchList(ys, entries, arch) ==> xs == ys
  }

  lemma {:induction false} OneOrderExactly(entries: seq<Entry>, arch: string)
    ensures OneOrder(entries, arch) <==> KeysTell(ArchEntries(entries, arch))
  {
    var es := ArchEntries(entries, arch);
    OrderDeterminedExactly(es);
    assert forall xs :: ArchList(xs, entries, arch) <==> SortedAs(xs, es);
  }

  /** Build gives the same bytes for every permutation of its entries. */
  lemma {:induction false} BuildIgnoresOrder(
    s: Suite, xs: seq<Entry>, ys: seq<Entry>, c: Codec, now: int, b1: Built, b2: Built)
    requires multiset(xs) == multiset(ys) && NoCross(xs)
    requires forall err :: !Offends(err, s, xs)
    requires IsBuilt(b1, s, xs, c, now) && IsBuilt(b2, s, ys, c, now)
    ensures b1 == b2
  {
    SamePerArch(s, xs, ys, c, b1.perArch, b2.perArch);
    SameListing(s.component, b1.perArch, b1.hashes, b1.sizes, b2.hashes, b2.sizes, c);
    SameRelease(b1.release, b2.release, ReleaseHeader(s, c.date(now)), b1.hashes, b1.sizes);
  }

  lemma {:induction false} SamePerArch(
    s: Suite, xs: seq<Entry>, ys: seq<Entry>, c: Codec, m1: map<string, ArchFiles>, m2: map<string, ArchFiles>)
    requires multiset(xs) == multiset(ys) && NoCross(xs)
    requires forall err :: !Offends(err, s, xs)
    requires ArchesBuilt(m1, s.architectures, xs, c) && ArchesBuilt(m2, s.architectures, ys, c)
    ensures m1 == m2
  {
    forall a | a in s.architectures ensures m1[a] == m2[a] {
      StrictKeysTell(s, xs, a);
      SameArch(xs, ys, a, c, m1[a], m2[a]);
    }
  }

  lemma {:induction false} SameArch(xs: seq<Entry>, ys: seq<Entry>, a: string, c: Codec, f1: ArchFiles, f2: ArchFiles)
    requires multiset(xs) == multiset(ys) && KeysTell(ArchEntries(xs, a))
    requires ArchBuilt(f1, xs, a, c) && ArchBuilt(f2, ys, a, c)
    ensures f1 == f2
  {
    var l1 :| ArchList(l1, xs, a) && f1 == FilesOf(c, Packages(l1));
    var l2 :| ArchList(l2, ys, a) && f2 == FilesOf(c, Packages(l2));
    ArchEntriesPermuted(xs, ys, a);
    KeysDecideOrder(ArchEntries(xs, a), l1, l2);
  }

  lemma {:induction false} ArchEntriesPermuted(xs: seq<Entry>, ys: seq<Entry>, a: string)
    requires multiset(xs) == multiset(ys)
    ensures multiset(ArchEntries(xs, a)) == multiset(ArchEntries(ys, a))
  {
    ArchEntriesMembers(xs, a);
    ArchEntriesMembers(ys, a);
    var m1, m2 := multiset(ArchEntries(xs, a)), multiset(ArchEntries(ys, a));
    assert forall e :: m1[e] == m2[e];
  }

  lemma {:induction false} SameListing(
    component: string, perArch: map<string, ArchFiles>, h1: map<string, string>, z1: map<string, nat>,
    h2: map<string, string>, z2: map<string, nat>, c: Codec)
    requires Listed(component, perArch, h1, z1, c) && Listed(component, perArch, h2, z2, c)
    ensures h1 == h2 && z1 == z2
  {
    forall p | p in h1 ensures p in h2 && h1[p] == h2[p] && z1[p] == z2[p] {
      var a, v :| a in perArch.Keys && p == PackagesPath(component, a, v);
      assert Recorded(component, a, v, perArch[a], h1, z1, c) && Recorded(component, a, v, perArch[a], h2, z2, c);
    }
    forall p | p in h2 ensures p in h1 {
      var a, v :| a in perArch.Keys && p == PackagesPath(component, a, v);
      assert Recorded(component, a, v, perArch[a], h1, z1, c);
    }
  }

  lemma {:induction false} SameRelease(
    r1: Bytes, r2: Bytes, header: Bytes, hashes: map<string, string>, sizes: map<string, nat>)
    requires IsRelease(r1, header, hashes, sizes) && IsRelease(r2, header, hashes, sizes)
    ensures r1 == r2
  {
    var p1: seq<string> :| PathList(p1, hashes.Keys) && (forall p :: p in p1 ==> p in hashes && p in sizes)
      && r1 == header + HashLines(p1, hashes, sizes);
    var p2: seq<string> :| PathList(p2, hashes.Keys) && (forall p :: p in p2 ==> p in hashes && p in sizes)
      && r2 == header + HashLines(p2, hashes, sizes);
    forall x, y | x in p1 && y in p1 && AtMost(x, y) && AtMost(y, x) ensures x == y { LessTotal(x, y); }
    SortedUnique(p1, p2, AtMost);
  }
}
