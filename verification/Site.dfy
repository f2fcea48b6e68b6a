/** An export of a composed snapshot: what internal/signpost/refresh/compose.go lays out
    is what the write order of internal/signpost/export/export.go relies on. */
module Site {
  import opened Text
  import opened Sorting
  import opened Index
  import opened Snapshots
  import opened Compose
  import opened Closure
  import Export
  import Reading
  import Reprepro

  // ----- by-hash files ------------------------------------------------------

  ghost predicate IsByHashPath(p: string, arch: string, hash: string) {
    Free(arch, '/') && Free(hash, '/') && p == ByHashPath(arch, hash)
  }

  /** Every by-hash file that is served has the hash it is served under. */
  ghost predicate Addressed(files: map<string, Served<Body>>, sha256: Bytes -> string) {
    forall p, arch, hash :: p in files && IsByHashPath(p, arch, hash) ==> sha256(files[p].content.data) == hash
  }

  lemma {:induction false} FreshIsAddressed(
    m: Snapshot, mk: Making, inp: Input, tools: Tools, p: string, arch: string, hash: string)
    requires FieldsPresent(tools) && Ready(inp) && MadeFrom(m, mk, inp, tools) && SlashFree(mk.built.perArch.Keys)
    requires p in m.files && IsByHashPath(p, arch, hash)
    ensures tools.codec.sha256(m.files[p].content.data) == hash
  {
    CopyPathsAreDists(arch, Plain, hash);
    LaidOverKeeps(mk, inp, tools, p);
    var o := ByHashSource(mk.copies, mk.from, mk.built, inp.now, arch, hash);
    HashRecorded(mk, inp, tools, o);
    LayoutPaths(mk.built, o);
  }

  lemma {:induction false} ByHashSource(
    files: map<string, Served<Body>>, from: Origins, b: Built, now: int, arch: string, hash: string) returns (o: Place)
    requires OnlyCopies(files, from, LayoutOf(b), now, b.perArch.Keys, "", 0) && SlashFree(b.perArch.Keys)
    requires ByHashPath(arch, hash) in files && Free(arch, '/')
    ensures o.arch in b.perArch && HashOf(b, o.arch, o.variant) == hash
    ensures files[ByHashPath(arch, hash)].content == LayoutOf(b).body(o)
  {
    var p := ByHashPath(arch, hash);
    CopyOrigin(files, from, LayoutOf(b), now, b.perArch.Keys, p);
    o := from[p];
    ByHashOrigin(files[p], b, now, o, arch, hash);
  }

  /** Carry-over keeps it: no by-hash file, fresh or carried, is ever served under a hash
      that is not its own. */
  lemma {:induction false} ComposedIsAddressed(
    prev: Option<Snapshot>, s: Snapshot, m: Snapshot, mk: Making, inp: Input, tools: Tools)
    requires FieldsPresent(tools) && Ready(inp) && ComposesTo(prev, s, m, mk, inp, tools)
    requires SlashFree(mk.built.perArch.Keys)
    requires prev.Some? ==> Addressed(prev.value.files, tools.codec.sha256)
    ensures Addressed(s.files, tools.codec.sha256)
  {
    forall p, arch, hash | p in s.files && IsByHashPath(p, arch, hash)
      ensures tools.codec.sha256(s.files[p].content.data) == hash {
      if p in m.files { FreshIsAddressed(m, mk, inp, tools, p, arch, hash); }
    }
  }

  // ----- what a client of the export needs ----------------------------------

  /** A file's name on disk: its path without the leading slash. */
  function Rel(p: string): string
    requires p != ""
  {
    p[1..]
  }

  /** What a client finds in the output: every file of the snapshot under its relative
      path, and no other by-hash names. */
  ghost predicate Exports(files: map<string, Served<Body>>, out: map<string, Bytes>, rd: Export.Reader) {
    && (forall p :: p in files ==> HasPrefix(p, "/") && Rel(p) in out && out[Rel(p)] == files[p].content.data)
    && (forall q :: q in out && rd.byHash(q) ==> "/" + q in files)
  }

  /** The site part of an output: the snapshot's files, each once, in any order. */
  ghost predicate SiteOf(site: seq<(string, Bytes)>, files: map<string, Served<Body>>) {
    && Export.Listing(site)
    && (forall i :: 0 <= i < |site| ==> site[i].0 in files && site[i].1 == files[site[i].0].content.data)
    && (forall p :: p in files ==> exists i :: 0 <= i < |site| && site[i].0 == p)
  }

  /** Target files (redirect and header rules at the root) have no by-hash names. */
  ghost predicate TargetsApart(targets: seq<(string, Bytes)>, rd: Export.Reader) {
    forall q :: rd.byHash(q) ==> !Export.OfTargets(q, targets)
  }

  /** Collecting the output yields just that. */
  lemma {:induction false} CollectedIsExport(
    files: map<string, Served<Body>>, site: seq<(string, Bytes)>, targets: seq<(string, Bytes)>,
    out: map<string, Bytes>, rd: Export.Reader)
    requires SiteOf(site, files) && TargetsApart(targets, rd) && Export.Collect(site, targets) == Ok(out)
    ensures Exports(files, out, rd)
  {
    forall p | p in files ensures HasPrefix(p, "/") && Rel(p) in out && out[Rel(p)] == files[p].content.data {
      var i :| 0 <= i < |site| && site[i].0 == p;
      Export.SiteIsCollected(site, targets, i);
    }
    forall q | q in out && rd.byHash(q) ensures "/" + q in files {
      Export.OnlyTheseCollected(site, targets, q);
      var i :| 0 <= i < |site| && Export.RelPath(site[i].0) == Ok(q);
      assert site[i].0 == "/" + q;
    }
  }

  /** A client that knows this repository: where InRelease is, and its by-hash names. */
  ghost predicate Knows(rd: Export.Reader) {
    && rd.inRelease == Export.INRELEASE
    && (forall q :: rd.byHash(q) <==> exists arch, hash :: IsByHashPath("/" + q, arch, hash))
    && (forall b, r :: r in rd.refs(b) ==> rd.byHash(r))
  }

  /** It reads out of the signed text of a tick by-hash files that lines of its Release
      stand for. */
  ghost predicate Reads(rd: Export.Reader, mk: Making, sha256: Bytes -> string) {
    rd.sha256 == sha256 && forall q :: q in rd.refs(mk.inRelease) ==> exists at: Place :: RefersTo(q, mk, at)
  }

  ghost predicate RefersTo(q: string, mk: Making, at: Place) {
    && at.arch in mk.built.perArch && PackagesPath("main", at.arch, at.variant) in mk.built.hashes
    && "/" + q == ByHashPath(at.arch, mk.built.hashes[PackagesPath("main", at.arch, at.variant)])
  }

  /** A composed snapshot, exported, is what ClosedAtEveryStep and EveryRunStaysClosed
      ask of an output: each file its InRelease names is there, and every by-hash file,
      carried ones included, holds the bytes of its name. */
  lemma {:induction false} ComposedExportIsOk(
    prev: Option<Snapshot>, s: Snapshot, m: Snapshot, mk: Making, inp: Input, tools: Tools,
    rd: Export.Reader, out: map<string, Bytes>)
    requires FieldsPresent(tools) && Ready(inp) && ComposesTo(prev, s, m, mk, inp, tools)
    requires SlashFree(mk.built.perArch.Keys)
    requires prev.Some? ==> Addressed(prev.value.files, tools.codec.sha256)
    requires Exports(s.files, out, rd) && Knows(rd) && Reads(rd, mk, tools.codec.sha256)
    ensures Export.OutOk(rd, out)
  {
    InReleaseExported(prev, s, m, mk, inp, tools, rd, out);
    forall q | q in rd.refs(mk.inRelease) ensures q in out {
      var at: Place :| RefersTo(q, mk, at);
      RefExported(prev, s, m, mk, inp, tools, rd, out, q, at);
    }
    ComposedIsAddressed(prev, s, m, mk, inp, tools);
    forall q | q in out && rd.byHash(q) ensures Export.Addressed(rd, q, out[q]) {
      NameIsHash(s.files, tools.codec.sha256, rd, out, q);
    }
  }

  lemma {:induction false} InReleaseExported(
    prev: Option<Snapshot>, s: Snapshot, m: Snapshot, mk: Making, inp: Input, tools: Tools,
    rd: Export.Reader, out: map<string, Bytes>)
    requires FieldsPresent(tools) && Ready(inp) && ComposesTo(prev, s, m, mk, inp, tools)
    requires Exports(s.files, out, rd)
    ensures Export.INRELEASE in out && out[Export.INRELEASE] == mk.inRelease
  {
    var p := "/dists/stable/InRelease";
    SignedFilesServed(prev, s, m, mk, inp, tools, p);
    assert Rel(p) == Export.INRELEASE;
  }

  lemma {:induction false} RefExported(
    prev: Option<Snapshot>, s: Snapshot, m: Snapshot, mk: Making, inp: Input, tools: Tools,
    rd: Export.Reader, out: map<string, Bytes>, q: string, at: Place)
    requires FieldsPresent(tools) && Ready(inp) && ComposesTo(prev, s, m, mk, inp, tools)
    requires SlashFree(mk.built.perArch.Keys) && Exports(s.files, out, rd) && RefersTo(q, mk, at)
    ensures q in out
  {
    MadeLineServed(m, mk, inp, tools, at);
    var p := "/" + q;
    assert p in m.files && p in s.files;
    assert Rel(p) == q;
  }

  lemma {:induction false} NameIsHash(
    files: map<string, Served<Body>>, sha256: Bytes -> string, rd: Export.Reader, out: map<string, Bytes>, q: string)
    requires Addressed(files, sha256) && Exports(files, out, rd) && Knows(rd) && rd.sha256 == sha256
    requires q in out && rd.byHash(q)
    ensures Export.Addressed(rd, q, out[q])
  {
    var arch, hash :| IsByHashPath("/" + q, arch, hash);
    assert Rel("/" + q) == q;
    ByHashShape(q, arch, hash);
    Export.LastPart("dists/stable/main/binary-" + arch + "/by-hash/SHA256", hash, q);
  }

  lemma {:induction false} ByHashShape(q: string, arch: string, hash: string)
    requires "/" + q == ByHashPath(arch, hash)
    ensures q == "dists/stable/main/binary-" + arch + "/by-hash/" + ("SHA256/" + hash)
    ensures q == "dists/stable/main/binary-" + arch + "/by-hash/SHA256" + "/" + hash
  {
    var head := "dists/stable/main/binary-" + arch;
    assert DISTS == "/" + "dists/stable/main/binary-" && "/by-hash/SHA256/" == "/by-hash/" + "SHA256/";
    assert ByHashPath(arch, hash) == "/" + (head + ("/by-hash/SHA256/" + hash));
    SameTail("/", q, head + ("/by-hash/SHA256/" + hash));
    assert "/by-hash/SHA256/" + hash == "/by-hash/" + ("SHA256/" + hash);
    assert "/by-hash/SHA256/" + hash == "/by-hash/SHA256" + ("/" + hash);
  }

  /** The by-hash names of this repository are of the exporter's by-hash tier. */
  lemma {:induction false} ByHashNames(q: string, arch: string, hash: string)
    requires IsByHashPath("/" + q, arch, hash)
    ensures Export.Tier(q) == 1
  {
    ByHashShape(q, arch, hash);
    assert q[..6] == "dists/";
    Export.ByHashTier("dists/stable/main/binary-" + arch, "SHA256/" + hash);
  }

  // ----- over runs ----------------------------------------------------------

  /** In every run of ticks every by-hash file on display has the hash of its name. */
  lemma {:induction false} RunIsAddressed(
    snaps: seq<Option<Snapshot>>, beats: seq<Beat>, tools: Tools, name: string, k: nat)
    requires FieldsPresent(tools) && RunOk(snaps, beats, tools, name) && k <= |beats|
    requires forall i :: 0 <= i < |beats| && beats[i].Published? ==> SlashFree(beats[i].mk.built.perArch.Keys)
    ensures snaps[k].Some? ==> Addressed(snaps[k].value.files, tools.codec.sha256)
  {
    if k > 0 {
      RunIsAddressed(snaps, beats, tools, name, k - 1);
      var b := beats[k - 1];
      assert BeatOk(snaps[k - 1], snaps[k], b, tools, name);
      if b.Published? { ComposedIsAddressed(snaps[k - 1], snaps[k].value, b.m, b.mk, b.inp, tools); }
    }
  }

  /** A composition and the output collected from it. */
  datatype Composed = Composed(
    prev: Option<Snapshot>, s: Snapshot, m: Snapshot, mk: Making, inp: Input,
    site: seq<(string, Bytes)>, targets: seq<(string, Bytes)>)

  ghost predicate ExportOf(x: Composed, tools: Tools, rd: Export.Reader, out: map<string, Bytes>)
    requires FieldsPresent(tools)
  {
    && Ready(x.inp) && ComposesTo(x.prev, x.s, x.m, x.mk, x.inp, tools) && SlashFree(x.mk.built.perArch.Keys)
    && (x.prev.Some? ==> Addressed(x.prev.value.files, tools.codec.sha256))
    && SiteOf(x.site, x.s.files) && TargetsApart(x.targets, rd) && Export.Collect(x.site, x.targets) == Ok(out)
    && Reads(rd, x.mk, tools.codec.sha256)
  }

  lemma {:induction false} KnowsTiers(rd: Export.Reader)
    requires Knows(rd)
    ensures Export.Tiered(rd)
  {
    Export.InReleaseIsLast();
    forall q | rd.byHash(q) ensures Export.Tier(q) == 1 {
      var arch, hash :| IsByHashPath("/" + q, arch, hash);
      ByHashNames(q, arch, hash);
    }
  }

  /** End to end: snapshots composed from any source states, collected and exported one
      after the other with a crash at any rename or removal of each; whenever anyone
      looks, the InRelease on disk finds every by-hash file it names, with the named hash. */
  lemma {:induction false} ExportedRunStaysClosed(
    rd: Export.Reader, tools: Tools, made: seq<Composed>,
    states: seq<Export.State>, outs: seq<map<string, Bytes>>, k: nat)
    requires FieldsPresent(tools) && |states| == |outs| + 1 && |made| == |outs| && k < |states|
    requires Knows(rd) && Export.Closed(rd, states[0].files)
    requires forall i :: 0 <= i < |outs| ==> ExportOf(made[i], tools, rd, outs[i])
    requires forall i :: 0 <= i < |outs| ==> Export.Attempt(states[i], states[i + 1], outs[i])
    ensures Export.Closed(rd, states[k].files)
  {
    KnowsTiers(rd);
    forall i | 0 <= i < |outs| ensures Export.Exported(rd, states, outs, i) {
      OneExportIsOk(made[i], tools, rd, outs[i]);
    }
    Export.EveryRunStaysClosed(rd, states, outs, k);
  }

  lemma {:induction false} OneExportIsOk(x: Composed, tools: Tools, rd: Export.Reader, out: map<string, Bytes>)
    requires FieldsPresent(tools) && Knows(rd) && ExportOf(x, tools, rd, out)
    ensures Export.OutOk(rd, out)
  {
    CollectedIsExport(x.s.files, x.site, x.targets, out, rd);
    ComposedExportIsOk(x.prev, x.s, x.m, x.mk, x.inp, tools, rd, out);
  }

  // ----- the Release as served ----------------------------------------------

  /** The lines a client reads first. */
  function Introduction(cfg: Config, date: string): seq<string> {
    ["Origin: " + cfg.origin, "Label: " + cfg.suiteLabel, "Suite: " + cfg.codename, "Codename: " + cfg.codename,
     "Components: main", "Architectures: " + Join(cfg.architectures, ' '), "Description: " + cfg.description,
     "Date: " + date, "Acquire-By-Hash: yes", "SHA256:"]
  }

  lemma {:induction false} IntroductionLines(cfg: Config, date: string)
    ensures Reading.HeaderLines(SuiteOf(cfg), date) == Introduction(cfg, date)
  {
    var l, m := Reading.HeaderLines(SuiteOf(cfg), date), Introduction(cfg, date);
    forall i | 0 <= i < 10 ensures l[i] == m[i] { IntroductionLine(cfg, date, i); }
  }

  lemma {:induction false} IntroductionLine(cfg: Config, date: string, i: nat)
    requires i < 10
    ensures Reading.HeaderLines(SuiteOf(cfg), date)[i] == Introduction(cfg, date)[i]
  {
  }

  /** The Release on display, read line by line, introduces the configured suite and then
      lists, in byte order, what the tick built. */
  lemma {:induction false} ReleaseServed(
    prev: Option<Snapshot>, s: Snapshot, m: Snapshot, mk: Making, inp: Input, tools: Tools)
      returns (paths: seq<string>)
    requires FieldsPresent(tools) && Ready(inp) && ComposesTo(prev, s, m, mk, inp, tools)
    requires Reading.CleanSuite(SuiteOf(inp.cfg), tools.codec.date(inp.now))
    requires forall p :: p in mk.built.hashes ==> Reading.OneLine(mk.built.hashes[p], p)
    ensures "/dists/stable/Release" in s.files && PathList(paths, mk.built.hashes.Keys)
    ensures var lines := Reprepro.Lines(s.files["/dists/stable/Release"].content.data);
      && |lines| == 10 + |paths| && lines[..10] == Introduction(inp.cfg, tools.codec.date(inp.now))
      && forall i :: 0 <= i < |paths| ==>
           paths[i] in mk.built.hashes && paths[i] in mk.built.sizes
           && Reading.ReadHash(lines[10 + i])
              == Some((mk.built.hashes[paths[i]], Itoa(mk.built.sizes[paths[i]]), paths[i]))
  {
    SignedFilesServed(prev, s, m, mk, inp, tools, "/dists/stable/Release");
    var date, suite := tools.codec.date(inp.now), SuiteOf(inp.cfg);
    paths := Reading.ReleaseReadsBack(mk.built.release, suite, date, mk.built.hashes, mk.built.sizes);
    IntroductionLines(inp.cfg, date);
  }
}
