/** internal/signpost/refresh/compose.go: which files of earlier snapshots are still there.
    Packages under its own name is the current snapshot's alone; a bootstrap package stays
    for one retention. */
module Retention {
  import opened Text
  import opened Index
  import opened Snapshots
  import opened Compose
  import opened Closure
  import Bootstrap

  // ----- canonical paths ----------------------------------------------------

  lemma {:induction false} CanonicalOrigin(e: Served<Body>, b: Built, now: int, o: Place, arch: string, v: Variant)
    requires CopyOf(CanonicalPath(arch, v), e, o, LayoutOf(b), now) && Free(arch, '/') && Free(o.arch, '/')
    ensures o == Place(arch, v) && e.expiresAt == None
  {
    LayoutPaths(b, o);
    CanonicalIsNotByHash(arch, v, o.arch, HashOf(b, o.arch, o.variant));
    CanonicalInjective(arch, v, o.arch, o.variant);
  }

  /** The canonical path is there, without an expiry, exactly for the architectures built. */
  predicate CanonicalIn(files: map<string, Served<Body>>, b: Built, arch: string, v: Variant) {
    var p := CanonicalPath(arch, v);
    (p in files <==> arch in b.perArch) && (p in files ==> files[p].expiresAt == None)
  }

  lemma {:induction false} CopiesCanonical(
    files: map<string, Served<Body>>, from: Origins, b: Built, now: int, arch: string, v: Variant)
    requires OnlyCopies(files, from, LayoutOf(b), now, b.perArch.Keys, "", 0)
    requires AllCopies(files, LayoutOf(b), b.perArch.Keys, "", 0)
    requires SlashFree(b.perArch.Keys) && Free(arch, '/')
    ensures CanonicalIn(files, b, arch, v)
  {
    var p := CanonicalPath(arch, v);
    if p in files {
      CopyOrigin(files, from, LayoutOf(b), now, b.perArch.Keys, p);
      CanonicalOrigin(files[p], b, now, from[p], arch, v);
    }
    if arch in b.perArch {
      CopiesPresent(files, LayoutOf(b), b.perArch.Keys, Place(arch, v));
      LayoutPaths(b, Place(arch, v));
    }
  }

  lemma {:induction false} LaidOverCanonical(mk: Making, inp: Input, tools: Tools, arch: string, v: Variant)
    requires Ready(inp) && CanonicalIn(mk.copies, mk.built, arch, v)
    ensures CanonicalIn(LaidOver(mk, inp, tools.keyring), mk.built, arch, v)
  {
    CopyPathsAreDists(arch, v, "");
    LaidOverKeeps(mk, inp, tools, CanonicalPath(arch, v));
  }

  lemma {:induction false} MadeCanonical(m: Snapshot, mk: Making, inp: Input, tools: Tools, arch: string, v: Variant)
    requires FilesMade(m, mk, inp, tools) && SlashFree(mk.built.perArch.Keys) && Free(arch, '/')
    ensures CanonicalIn(m.files, mk.built, arch, v)
  {
    CopiesCanonical(mk.copies, mk.from, mk.built, inp.now, arch, v);
    LaidOverCanonical(mk, inp, tools, arch, v);
  }

  /** What never expires is never carried over either. */
  lemma {:induction false} NeverCarried<V>(ticks: seq<Tick<V>>, p: string, n: nat)
    requires Snapshots.ClockAdvances(ticks) && LastSuccess(ticks) == n
    requires forall i :: 0 <= i < |ticks| && Produces(ticks[i], p) ==> ticks[i].made.value[p].expiresAt == None
    ensures p in Snapshots.Published(ticks) <==> Produces(ticks[n], p)
  {
    CarryOverIsHistory(ticks, p);
    var k := LastProducer(ticks, p);
    assert k >= 0 ==> Produces(ticks[k], p) && k <= n;
  }

  predicate CanonicalAt(b: Beat, arch: string, v: Variant) {
    var t, p := FilesTick(b), CanonicalPath(arch, v);
    && (Produces(t, p) <==> b.Published? && arch in b.inp.cfg.architectures)
    && (Produces(t, p) ==> t.made.value[p].expiresAt == None)
  }

  lemma {:induction false} BeatArches(
    prev: Option<Snapshot>, next: Option<Snapshot>, b: Beat, tools: Tools, name: string)
    requires FieldsPresent(tools) && BeatOk(prev, next, b, tools, name) && b.Published?
    ensures forall a :: a in b.mk.built.perArch <==> a in b.inp.cfg.architectures
  {
  }

  lemma {:induction false} BeatCanonical(
    snaps: seq<Option<Snapshot>>, beats: seq<Beat>, tools: Tools, name: string, i: nat, arch: string, v: Variant)
    requires FieldsPresent(tools) && name != "" && RunOk(snaps, beats, tools, name) && i < |beats|
    requires SlashFreeRun(beats) && Free(arch, '/')
    ensures CanonicalAt(beats[i], arch, v)
  {
    var b := beats[i];
    if b.Published? {
      assert BeatOk(snaps[i], snaps[i + 1], b, tools, name);
      BeatArches(snaps[i], snaps[i + 1], b, tools, name);
      BeatMade(snaps[i], snaps[i + 1], b, tools, name);
      MadeCanonical(b.m, b.mk, b.inp, tools, arch, v);
    }
  }

  lemma {:induction false} HistoryCanonical(beats: seq<Beat>, k: nat, n: nat, arch: string, v: Variant)
    requires TimesAdvance(beats) && IsShown(beats, k, n)
    requires forall i :: 0 <= i < k ==> CanonicalAt(beats[i], arch, v)
    ensures CanonicalPath(arch, v) in Snapshots.Published(FilesTicks(beats)[..k])
      <==> arch in beats[n].inp.cfg.architectures
  {
    var ticks, p := FilesTicks(beats)[..k], CanonicalPath(arch, v);
    ShownIsLast(beats, k, n);
    forall i | 0 <= i < k && Produces(ticks[i], p) ensures ticks[i].made.value[p].expiresAt == None {
      assert CanonicalAt(beats[i], arch, v);
    }
    NeverCarried(ticks, p, n);
    assert CanonicalAt(beats[n], arch, v);
  }

  /** In every run, after any number of ticks: Packages of an architecture, in any of its
      forms, is served under its own name exactly when the configuration of the snapshot on
      display has the architecture. One that was dropped is gone at once. */
  lemma {:induction false} CanonicalServedExactly(
    snaps: seq<Option<Snapshot>>, beats: seq<Beat>, tools: Tools, name: string,
    k: nat, n: nat, arch: string, v: Variant)
    requires FieldsPresent(tools) && name != "" && RunOk(snaps, beats, tools, name) && TimesAdvance(beats)
    requires SlashFreeRun(beats) && Free(arch, '/') && IsShown(beats, k, n)
    ensures CanonicalPath(arch, v) in FilesShown(snaps[k]) <==> arch in beats[n].inp.cfg.architectures
  {
    forall i | 0 <= i < k ensures CanonicalAt(beats[i], arch, v) {
      BeatCanonical(snaps, beats, tools, name, i, arch, v);
    }
    RunIsHistory(snaps, beats, tools, name, k);
    HistoryCanonical(beats, k, n, arch, v);
  }

  // ----- bootstrap packages -------------------------------------------------

  lemma {:induction false} DistsIsNotPool(p: string)
    ensures !(IsDists(p) && IsPool(p))
  {
  }

  lemma {:induction false} NoCopyInPool(mk: Making, now: int, p: string)
    requires MadeCopies(mk, now) && IsPool(p)
    ensures p !in mk.copies
  {
    if p in mk.copies {
      CopiesAreDists(mk.copies, mk.from, mk.built, now, p);
      DistsIsNotPool(p);
    }
  }

  /** The path is there for a retention exactly when it should be. */
  predicate ExpiringFile(files: map<string, Served<Body>>, p: string, there: bool, now: int) {
    (p in files <==> there) && (p in files ==> files[p].expiresAt == Some(now + RETENTION))
  }

  lemma {:induction false} LaidOverPool(mk: Making, inp: Input, tools: Tools, p: string)
    requires Ready(inp) && IsPool(p) && p !in mk.copies
    ensures ExpiringFile(LaidOver(mk, inp, tools.keyring), p, p == BootstrapPath(inp), inp.now)
  {
    var files := WithMetadata(mk.copies, mk.built.release, mk.gpg, mk.inRelease);
    if p == BootstrapPath(inp) {
      FixedNamesMade(files, inp, tools.keyring);
    } else {
      MetadataKeeps(mk.copies, mk.built.release, mk.gpg, mk.inRelease, p);
      BootstrapKeeps(files, inp, tools.keyring, p);
    }
  }

  /** The one pool file of a fresh snapshot is its bootstrap package. */
  lemma {:induction false} MadePool(m: Snapshot, mk: Making, inp: Input, tools: Tools, p: string)
    requires FilesMade(m, mk, inp, tools) && IsPool(p)
    ensures ExpiringFile(m.files, p, p == BootstrapPath(inp), inp.now)
  {
    NoCopyInPool(mk, inp.now, p);
    LaidOverPool(mk, inp, tools, p);
  }

  predicate VersionAt(b: Beat, version: string) { b.Published? && b.inp.bs.version == version }

  predicate PackageAt(b: Beat, name: string, version: string)
    requires name != ""
  {
    var t, p := FilesTick(b), Bootstrap.PoolPath(name, version);
    && (Produces(t, p) <==> VersionAt(b, version))
    && (Produces(t, p) ==> t.made.value[p].expiresAt == Some(t.at + RETENTION))
  }

  lemma {:induction false} BeatPackage(
    snaps: seq<Option<Snapshot>>, beats: seq<Beat>, tools: Tools, name: string, i: nat, version: string)
    requires FieldsPresent(tools) && name != "" && RunOk(snaps, beats, tools, name) && i < |beats|
    ensures PackageAt(beats[i], name, version)
  {
    var b := beats[i];
    if b.Published? {
      assert BeatOk(snaps[i], snaps[i + 1], b, tools, name);
      BeatMade(snaps[i], snaps[i + 1], b, tools, name);
      MadePackage(b, tools, name, version);
    }
  }

  lemma {:induction false} MadePackage(b: Beat, tools: Tools, name: string, version: string)
    requires b.Published? && FilesMade(b.m, b.mk, b.inp, tools) && b.inp.cfg.bootstrapName == name && name != ""
    ensures PackageAt(b, name, version)
  {
    var p := Bootstrap.PoolPath(name, version);
    PoolPathsArePool(name, version, "");
    MadePool(b.m, b.mk, b.inp, tools, p);
    if p == BootstrapPath(b.inp) { Bootstrap.PoolPathInjective(name, version, b.inp.bs.version); }
  }

  lemma {:induction false} HistoryPackage(beats: seq<Beat>, name: string, k: nat, n: nat, version: string)
    requires name != "" && TimesAdvance(beats) && IsShown(beats, k, n)
    requires forall i :: 0 <= i < k ==> PackageAt(beats[i], name, version)
    ensures Bootstrap.PoolPath(name, version) in Snapshots.Published(FilesTicks(beats)[..k]) <==>
      exists i :: 0 <= i <= n && VersionAt(beats[i], version) && (i == n || At(beats[i]) + RETENTION > At(beats[n]))
  {
    var ticks, p := FilesTicks(beats)[..k], Bootstrap.PoolPath(name, version);
    ShownIsLast(beats, k, n);
    forall i | 0 <= i < k && Produces(ticks[i], p)
      ensures ticks[i].made.value[p].expiresAt == Some(ticks[i].at + RETENTION)
    {
      assert PackageAt(beats[i], name, version);
    }
    ExpiringServedExactly(ticks, p);
    forall i | 0 <= i <= n
      ensures StillServed(ticks, p, i, n)
        <==> VersionAt(beats[i], version) && (i == n || At(beats[i]) + RETENTION > At(beats[n]))
    {
      assert PackageAt(beats[i], name, version);
    }
  }

  /** In every run, after any number of ticks: a bootstrap package is served under its pool
      path exactly when it is that of the snapshot on display, or was that of one less than
      a retention older. */
  lemma {:induction false} BootstrapServedExactly(
    snaps: seq<Option<Snapshot>>, beats: seq<Beat>, tools: Tools, name: string, k: nat, n: nat, version: string)
    requires FieldsPresent(tools) && name != "" && RunOk(snaps, beats, tools, name) && TimesAdvance(beats)
    requires IsShown(beats, k, n)
    ensures Bootstrap.PoolPath(name, version) in FilesShown(snaps[k]) <==>
      exists i :: 0 <= i <= n && VersionAt(beats[i], version) && (i == n || At(beats[i]) + RETENTION > At(beats[n]))
  {
    forall i | 0 <= i < k ensures PackageAt(beats[i], name, version) {
      BeatPackage(snaps, beats, tools, name, i, version);
    }
    RunIsHistory(snaps, beats, tools, name, k);
    HistoryPackage(beats, name, k, n, version);
  }
}
