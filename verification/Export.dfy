/** internal/signpost/export/export.go: replaying a snapshot onto disk, one atomic
    rename or removal at a time, and what survives a crash between any two of them. */
module Export {
  import opened Text
  import opened Sorting

  const MARKER_NAME := ".signpost-export.json"

  /** .signpost-export.json: absent, unreadable (or of another version), or a path list. */
  datatype MarkerFile = NoMarker | BadMarker | Marker(paths: seq<string>)

  /** litter: the directory has entries besides the root's files and marker, that is,
      subdirectories or temporary files. It is not taken back, as it matters only while
      there is no marker, and then nothing is ever removed. */
  datatype State = State(files: map<string, Bytes>, marker: MarkerFile, litter: bool)

  /** What Write does to the disk. Each step is atomic: a rename, a removal, or the
      rename of the marker. */
  datatype Op = Put(path: string, data: Bytes) | Remove(path: string) | PutMarker(paths: seq<string>)

  function Target(op: Op): string { if op.PutMarker? then MARKER_NAME else op.path }

  /** How a step can fail: leaving no trace, after its directories were made, or (killed)
      after its temporary file was. */
  datatype Fault = Traceless | AfterDirs | AfterTemp

  function Leave(s: State, op: Op, fault: Fault): State {
    if op.Remove? || fault.Traceless? then s
    else if fault.AfterDirs? then s.(litter := s.litter || '/' in Target(op))
    else s.(litter := true)
  }

  function Do(s: State, op: Op): State {
    match op
    case Put(p, data) => s.(files := s.files[p := data], litter := s.litter || '/' in p)
    case Remove(p) => s.(files := s.files - {p})
    case PutMarker(paths) => s.(marker := Marker(paths))
  }

  function Exec(s: State, ops: seq<Op>): State {
    if ops == [] then s else Do(Exec(s, ops[..|ops| - 1]), ops[|ops| - 1])
  }

  // ----- relPath ------------------------------------------------------------

  function Segments(s: string): seq<string> {
    var i := Index(s, '/');
    if i < 0 then [s] else [s[..i]] + Segments(s[i + 1..])
  }

  predicate SafeSegment(seg: string) { seg != "" && seg != "." && seg != ".." }

  predicate SafePath(rel: string) { forall seg :: seg in Segments(rel) ==> SafeSegment(seg) }

  /** A leading slash, a canonical rest without "." or "..", and not the marker's name. */
  function RelPath(p: string): Result<string> {
    if !HasPrefix(p, "/") || !SafePath(p[1..]) || p[1..] == MARKER_NAME then Err else Ok(p[1..])
  }

  lemma {:induction false} SegmentsJoin(s: string)
    ensures Join(Segments(s), '/') == s && Segments(s) != []
    ensures forall seg :: seg in Segments(s) ==> Free(seg, '/')
  {
    var i := Index(s, '/');
    if i >= 0 {
      SegmentsJoin(s[i + 1..]);
      JoinOneMore(s[..i], Segments(s[i + 1..]));
      SlashInMiddle(s, i);
    }
  }

  lemma {:induction false} JoinOneMore(seg: string, segs: seq<string>)
    requires segs != []
    ensures Join([seg] + segs, '/') == seg + ['/'] + Join(segs, '/')
  {
    assert ([seg] + segs)[1..] == segs;
  }

  lemma {:induction false} SlashInMiddle(s: string, i: nat)
    requires i < |s| && s[i] == '/'
    ensures s[..i] + ['/'] + s[i + 1..] == s
  {
  }

  lemma {:induction false} JoinSegments(segs: seq<string>)
    requires segs != [] && forall seg :: seg in segs ==> Free(seg, '/')
    ensures Segments(Join(segs, '/')) == segs
  {
    var s := Join(segs, '/');
    assert segs[0] in segs;
    if |segs| == 1 {
      assert segs == [segs[0]];
    } else {
      JoinSegments(segs[1..]);
      SlashAt(s, |segs[0]|);
      assert s[..|segs[0]|] == segs[0] && s[|segs[0]| + 1..] == Join(segs[1..], '/');
    }
  }

  lemma {:induction false} SlashAt(s: string, i: nat)
    requires i < |s| && s[i] == '/' && forall k :: 0 <= k < i ==> s[k] != '/'
    ensures Index(s, '/') == i
  {
  }

  /** A list of segments that stays below the output root and does not name the marker. */
  predicate StaysBelow(segs: seq<string>) {
    && segs != [] && segs != [".signpost-export.json"]
    && forall seg :: seg in segs ==> Free(seg, '/') && seg != "" && seg != "." && seg != ".."
  }

  /** relPath takes exactly a slash and segments that stay below the root. */
  lemma {:induction false} RelPathExactly(segs: seq<string>)
    requires segs != [] && forall seg :: seg in segs ==> Free(seg, '/')
    ensures RelPath("/" + Join(segs, '/')) == if StaysBelow(segs) then Ok(Join(segs, '/')) else Err
  {
    var rel := Join(segs, '/');
    JoinSegments(segs);
    assert ("/" + rel)[1..] == rel;
    assert Free(MARKER_NAME, '/');
    if rel == MARKER_NAME { OneSegment(segs); }
  }

  lemma {:induction false} OneSegment(segs: seq<string>)
    requires segs != [] && Join(segs, '/') == MARKER_NAME && Free(MARKER_NAME, '/')
    ensures segs == [MARKER_NAME]
  {
    if |segs| > 1 { SlashInside(segs); }
  }

  lemma {:induction false} SlashInside(segs: seq<string>)
    requires |segs| > 1
    ensures '/' in Join(segs, '/')
  {
    assert Join(segs, '/')[|segs[0]|] == '/';
  }

  lemma {:induction false} RelPathNeedsSlash(p: string)
    ensures RelPath(p).Ok? ==> p != "" && p[0] == '/' && StaysBelow(Segments(p[1..])) && RelPath(p).value == p[1..]
  {
    if p != "" {
      SegmentsJoin(p[1..]);
      if Segments(p[1..]) == [MARKER_NAME] { assert Join(Segments(p[1..]), '/') == MARKER_NAME; }
    }
  }

  // ----- writeOrder ---------------------------------------------------------

  /** strings.Contains. */
  predicate Contains(s: string, sub: string) {
    if |s| < |sub| then false else if HasPrefix(s, sub) then true else Contains(s[1..], sub)
  }

  function BaseName(p: string): string { p[LastIndex(p, '/') + 1..] }

  /** Leaves first: outside dists/, by-hash, Packages, Release.gpg, Release, InRelease. */
  function Tier(p: string): nat {
    if !HasPrefix(p, "dists/") then 0
    else if Contains(p, "/by-hash/") then 1
    else if BaseName(p) == "InRelease" then 5
    else if BaseName(p) == "Release" then 4
    else if BaseName(p) == "Release.gpg" then 3
    else 2
  }

  predicate TierLe(p: string, q: string) { Tier(p) < Tier(q) || (Tier(p) == Tier(q) && AtMost(p, q)) }

  lemma {:induction false} TierOrder()
    ensures TotalPreorder(TierLe)
  {
    forall p: string, q: string ensures TierLe(p, q) || TierLe(q, p) { LessAsymmetric(p, q); }
    forall p: string, q: string, r: string | TierLe(p, q) && TierLe(q, r) ensures TierLe(p, r) {
      if Tier(p) == Tier(q) == Tier(r) { AtMostTransitive(p, q, r); }
    }
  }

  ghost predicate IsOrder(order: seq<string>, keys: set<string>) {
    Sorted(order, TierLe) && multiset(order) == multiset(keys)
  }

  method WriteOrder(keys: set<string>) returns (order: seq<string>)
    ensures IsOrder(order, keys)
  {
    var todo, picked: seq<string> := keys, [];
    while todo != {}
      invariant todo <= keys && multiset(picked) == multiset(keys - todo)
    {
      var p :| p in todo;
      assert keys - (todo - {p}) == (keys - todo) + {p};
      picked, todo := picked + [p], todo - {p};
    }
    assert keys - todo == keys;
    TierOrder();
    SortIsSorted(picked, TierLe);
    order := Sort(picked, TierLe);
  }

  lemma {:induction false} OrderMembers(order: seq<string>, keys: set<string>)
    requires IsOrder(order, keys)
    ensures forall p :: p in order <==> p in keys
    ensures forall i, j :: 0 <= i < j < |order| ==> order[i] != order[j]
  {
    forall p ensures p in order <==> p in keys {
      assert p in order <==> p in multiset(order);
      assert p in multiset(keys) <==> p in keys;
    }
    forall i, j | 0 <= i < j < |order| ensures order[i] != order[j] {
      TwiceCounted(order, i, j);
      assert multiset(keys)[order[i]] <= 1;
    }
  }

  lemma {:induction false} TwiceCounted(xs: seq<string>, i: nat, j: nat)
    requires i < j < |xs|
    ensures xs[i] == xs[j] ==> multiset(xs)[xs[i]] >= 2
  {
    assert xs == xs[..j] + [xs[j]] + xs[j + 1..];
    assert xs[i] in xs[..j];
    assert xs[i] in multiset(xs[..j]);
  }

  // ----- the steps of one Write ---------------------------------------------

  function Puts(order: seq<string>, out: map<string, Bytes>): seq<Op>
    requires forall p :: p in order ==> p in out
  {
    seq(|order|, i requires 0 <= i < |order| => Put(order[i], out[order[i]]))
  }

  /** Previous paths that the new output does not have, in marker order. */
  function Stale(prev: seq<string>, out: map<string, Bytes>): seq<string> {
    if prev == [] then []
    else
      var last := prev[|prev| - 1];
      Stale(prev[..|prev| - 1], out) + if last in out then [] else [last]
  }

  function Removes(paths: seq<string>): seq<Op> {
    seq(|paths|, i requires 0 <= i < |paths| => Remove(paths[i]))
  }

  function Ops(order: seq<string>, out: map<string, Bytes>, prev: seq<string>, paths: seq<string>): seq<Op>
    requires forall p :: p in order ==> p in out
  {
    Puts(order, out) + Removes(Stale(prev, out)) + [PutMarker(paths)]
  }

  /** The operations of a Write of out over the paths of a previous export. */
  ghost predicate IsPlan(ops: seq<Op>, out: map<string, Bytes>, prev: seq<string>) {
    exists order: seq<string>, paths: seq<string> ::
      IsOrder(order, out.Keys) && PathList(paths, out.Keys) && (forall p :: p in order ==> p in out)
      && ops == Ops(order, out, prev, paths)
  }

  /** readMarker: the previous paths, or a refusal. */
  function ReadMarker(s: State): Result<seq<string>> {
    match s.marker
    case NoMarker => if s.files == map[] && !s.litter then Ok([]) else Err
    case BadMarker => Err
    case Marker(paths) => if forall p :: p in paths ==> RelPath("/" + p).Ok? then Ok(paths) else Err
  }

  /** A disk that takes `budget` more steps and then fails or crashes. */
  class Disk {
    var files: map<string, Bytes>
    var marker: MarkerFile
    var litter: bool
    var budget: nat
    var fault: Fault

    function Contents(): State
      reads this
    {
      State(files, marker, litter)
    }

    method Step(op: Op) returns (ok: bool)
      modifies this
      ensures fault == old(fault) && (ok <==> old(budget) > 0)
      ensures ok ==> budget == old(budget) - 1 && Contents() == Do(old(Contents()), op)
      ensures !ok ==> budget == 0 && Contents() == Leave(old(Contents()), op, fault)
    {
      ok := budget > 0;
      if !ok {
        litter := Leave(Contents(), op, fault).litter;
        return;
      }
      budget := budget - 1;
      match op
      case Put(p, data) =>
        litter := litter || '/' in p;
        files := files[p := data];
      case Remove(p) => files := files - {p};
      case PutMarker(paths) => marker := Marker(paths);
    }
  }

  lemma {:induction false} ExecStep(s: State, ops: seq<Op>, k: nat)
    requires k < |ops|
    ensures Exec(s, ops[..k + 1]) == Do(Exec(s, ops[..k]), ops[k])
  {
    assert ops[..k + 1][..k] == ops[..k];
  }

  datatype Counts = Counts(written: nat, pruned: nat)

  /** Where a target's file goes: a leading slash is optional. */
  function TargetRel(p: string): Result<string> { RelPath("/" + (if HasPrefix(p, "/") then p[1..] else p)) }

  /** The output to write: site files first, then target files, which must not clash. */
  function Collect(site: seq<(string, Bytes)>, targets: seq<(string, Bytes)>): Result<map<string, Bytes>> {
    if targets != [] then
      var (p, data) := targets[|targets| - 1];
      match (Collect(site, targets[..|targets| - 1]), TargetRel(p))
      case (Ok(out), Ok(rel)) => if rel in out then Err else Ok(out[rel := data])
      case _ => Err
    else if site != [] then
      var (p, data) := site[|site| - 1];
      match (Collect(site[..|site| - 1], []), RelPath(p))
      case (Ok(out), Ok(rel)) => Ok(out[rel := data])
      case _ => Err
    else Ok(map[])
  }

  lemma {:induction false} CollectSite(site: seq<(string, Bytes)>)
    requires site != []
    ensures Collect(site, []) ==
      match (Collect(site[..|site| - 1], []), RelPath(site[|site| - 1].0))
      case (Ok(out), Ok(rel)) => Ok(out[rel := site[|site| - 1].1])
      case _ => Err
  {
  }

  lemma {:induction false} CollectErr(site: seq<(string, Bytes)>, k: nat, targets: seq<(string, Bytes)>)
    requires k <= |site| && Collect(site[..k], []).Err?
    ensures Collect(site, targets).Err?
    decreases |targets|, |site|
  {
    if targets != [] {
      CollectErr(site, k, targets[..|targets| - 1]);
    } else if k < |site| {
      assert site[..|site| - 1][..k] == site[..k];
      CollectErr(site[..|site| - 1], k, []);
    } else {
      assert site[..k] == site;
    }
  }

  lemma {:induction false} CollectTargetErr(site: seq<(string, Bytes)>, targets: seq<(string, Bytes)>, k: nat)
    requires k <= |targets| && Collect(site, targets[..k]).Err?
    ensures Collect(site, targets).Err?
    decreases |targets|
  {
    if k < |targets| {
      assert targets[..|targets| - 1][..k] == targets[..k];
      CollectTargetErr(site, targets[..|targets| - 1], k);
    } else {
      assert targets[..k] == targets;
    }
  }

  lemma {:induction false} RelPathInjective(p: string, q: string)
    requires RelPath(p).Ok? && RelPath(p) == RelPath(q)
    ensures p == q
  {
    assert p == "/" + p[1..] && q == "/" + q[1..];
  }

  /** A snapshot's files: no path twice. */
  predicate Listing(site: seq<(string, Bytes)>) { forall i, j :: 0 <= i < j < |site| ==> site[i].0 != site[j].0 }

  /** What is collected: every site file under its relative path with its own bytes ... */
  lemma {:induction false} SiteIsCollected(site: seq<(string, Bytes)>, targets: seq<(string, Bytes)>, i: nat)
    requires Listing(site) && i < |site| && Collect(site, targets).Ok?
    ensures var rel, out := RelPath(site[i].0), Collect(site, targets).value;
      rel.Ok? && rel.value in out && out[rel.value] == site[i].1
    decreases |targets|, |site|
  {
    if targets != [] {
      SiteIsCollected(site, targets[..|targets| - 1], i);
    } else if i < |site| - 1 {
      var n := |site| - 1;
      SiteIsCollected(site[..n], [], i);
      assert site[i].0 != site[n].0;
      if RelPath(site[i].0) == RelPath(site[n].0) { RelPathInjective(site[i].0, site[n].0); }
    }
  }

  /** ... every target file likewise ... */
  lemma {:induction false} TargetIsCollected(site: seq<(string, Bytes)>, targets: seq<(string, Bytes)>, j: nat)
    requires j < |targets| && Collect(site, targets).Ok?
    ensures var rel, out := TargetRel(targets[j].0), Collect(site, targets).value;
      rel.Ok? && rel.value in out && out[rel.value] == targets[j].1
    decreases |targets|
  {
    if j < |targets| - 1 { TargetIsCollected(site, targets[..|targets| - 1], j); }
  }

  ghost predicate OfSite(q: string, site: seq<(string, Bytes)>) {
    exists i :: 0 <= i < |site| && RelPath(site[i].0) == Ok(q)
  }

  ghost predicate OfTargets(q: string, targets: seq<(string, Bytes)>) {
    exists j :: 0 <= j < |targets| && TargetRel(targets[j].0) == Ok(q)
  }

  /** ... and nothing else. */
  lemma {:induction false} OnlyTheseCollected(site: seq<(string, Bytes)>, targets: seq<(string, Bytes)>, q: string)
    requires Collect(site, targets).Ok?
    ensures q in Collect(site, targets).value <==> OfSite(q, site) || OfTargets(q, targets)
    decreases |targets|, |site|
  {
    if targets != [] {
      OnlyTheseCollected(site, targets[..|targets| - 1], q);
      MoreTargets(q, targets);
    } else if site != [] {
      OnlyTheseCollected(site[..|site| - 1], [], q);
      MoreSite(q, site);
    }
  }

  lemma {:induction false} MoreTargets(q: string, targets: seq<(string, Bytes)>)
    requires targets != []
    ensures var n := |targets| - 1;
      OfTargets(q, targets) <==> OfTargets(q, targets[..n]) || TargetRel(targets[n].0) == Ok(q)
  {
    var n := |targets| - 1;
    if OfTargets(q, targets[..n]) {
      var j :| 0 <= j < n && TargetRel(targets[..n][j].0) == Ok(q);
      assert TargetRel(targets[j].0) == Ok(q);
    }
    if j :| 0 <= j < n && TargetRel(targets[j].0) == Ok(q) { assert TargetRel(targets[..n][j].0) == Ok(q); }
  }

  lemma {:induction false} MoreSite(q: string, site: seq<(string, Bytes)>)
    requires site != []
    ensures var n := |site| - 1; OfSite(q, site) <==> OfSite(q, site[..n]) || RelPath(site[n].0) == Ok(q)
  {
    var n := |site| - 1;
    if OfSite(q, site[..n]) {
      var j :| 0 <= j < n && RelPath(site[..n][j].0) == Ok(q);
      assert RelPath(site[j].0) == Ok(q);
    }
    if j :| 0 <= j < n && RelPath(site[j].0) == Ok(q) { assert RelPath(site[..n][j].0) == Ok(q); }
  }

  predicate UnsafeSite(site: seq<(string, Bytes)>, i: nat) { i < |site| && RelPath(site[i].0).Err? }

  /** Target j has an unsafe path, or the place of a site file or of an earlier target. */
  ghost predicate BadTarget(site: seq<(string, Bytes)>, targets: seq<(string, Bytes)>, j: nat) {
    j < |targets| &&
    (TargetRel(targets[j].0).Err? || OfSite(TargetRel(targets[j].0).value, site)
     || OfTargets(TargetRel(targets[j].0).value, targets[..j]))
  }

  ghost predicate AnyUnsafe(site: seq<(string, Bytes)>) { exists i: nat :: UnsafeSite(site, i) }

  ghost predicate AnyBad(site: seq<(string, Bytes)>, targets: seq<(string, Bytes)>) {
    exists j: nat :: BadTarget(site, targets, j)
  }

  /** Collecting fails exactly on an unsafe path or a clash. */
  lemma {:induction false} CollectFailsExactly(site: seq<(string, Bytes)>, targets: seq<(string, Bytes)>)
    ensures Collect(site, targets).Err? <==> AnyUnsafe(site) || AnyBad(site, targets)
    decreases |targets|, |site|
  {
    if targets != [] {
      var n := |targets| - 1;
      CollectFailsExactly(site, targets[..n]);
      MoreBad(site, targets);
      if Collect(site, targets[..n]).Ok? && TargetRel(targets[n].0).Ok? {
        OnlyTheseCollected(site, targets[..n], TargetRel(targets[n].0).value);
      }
    } else if site != [] {
      CollectFailsExactly(site[..|site| - 1], []);
      MoreUnsafe(site);
    }
  }

  lemma {:induction false} EarlierBad(site: seq<(string, Bytes)>, targets: seq<(string, Bytes)>, n: nat, j: nat)
    requires j < n <= |targets|
    ensures BadTarget(site, targets, j) <==> BadTarget(site, targets[..n], j)
  {
    assert targets[..n][..j] == targets[..j];
  }

  lemma {:induction false} BadIsEarlierOrLast(site: seq<(string, Bytes)>, targets: seq<(string, Bytes)>, j: nat)
    requires BadTarget(site, targets, j)
    ensures targets != [] && (j < |targets| - 1 ==> BadTarget(site, targets[..|targets| - 1], j))
  {
    if j < |targets| - 1 { EarlierBad(site, targets, |targets| - 1, j); }
  }

  lemma {:induction false} BadBefore(site: seq<(string, Bytes)>, targets: seq<(string, Bytes)>, j: nat)
    requires targets != [] && BadTarget(site, targets[..|targets| - 1], j)
    ensures BadTarget(site, targets, j)
  {
    EarlierBad(site, targets, |targets| - 1, j);
  }

  lemma {:induction false} MoreBad(site: seq<(string, Bytes)>, targets: seq<(string, Bytes)>)
    requires targets != []
    ensures var n := |targets| - 1; AnyBad(site, targets) <==> AnyBad(site, targets[..n]) || BadTarget(site, targets, n)
  {
    if AnyBad(site, targets) {
      var j: nat :| BadTarget(site, targets, j);
      BadIsEarlierOrLast(site, targets, j);
    }
    if AnyBad(site, targets[..|targets| - 1]) {
      var j: nat :| BadTarget(site, targets[..|targets| - 1], j);
      BadBefore(site, targets, j);
    }
  }

  lemma {:induction false} MoreUnsafe(site: seq<(string, Bytes)>)
    requires site != []
    ensures var n := |site| - 1; AnyUnsafe(site) <==> AnyUnsafe(site[..n]) || UnsafeSite(site, n)
  {
    var n := |site| - 1;
    if i: nat :| UnsafeSite(site, i) && i < n { assert UnsafeSite(site[..n], i); }
    if i: nat :| UnsafeSite(site[..n], i) { assert UnsafeSite(site, i); }
  }

  method CollectOutput(
    site: seq<(string, Bytes)>, targets: seq<(string, Bytes)>) returns (r: Result<map<string, Bytes>>)
    ensures r == Collect(site, targets)
  {
    var out: map<string, Bytes> := map[];
    for i := 0 to |site|
      invariant Collect(site[..i], []) == Ok(out)
    {
      CollectSite(site[..i + 1]);
      assert site[..i + 1][..i] == site[..i];
      var rel := RelPath(site[i].0);
      if rel.Err? {
        CollectErr(site, i + 1, targets);
        return Err;
      }
      out := out[rel.value := site[i].1];
    }
    assert site[..|site|] == site;
    for i := 0 to |targets|
      invariant Collect(site, targets[..i]) == Ok(out)
    {
      assert targets[..i + 1][..i] == targets[..i];
      var p := targets[i].0;
      var rel := TargetRel(p);
      if rel.Err? || rel.value in out {
        CollectTargetErr(site, targets, i + 1);
        return Err;
      }
      out := out[rel.value := targets[i].1];
    }
    assert targets[..|targets|] == targets;
    r := Ok(out);
  }

  /** The state after n steps of ops, where the next one, if any, fails. */
  function Stopped(before: State, ops: seq<Op>, n: nat, fault: Fault): State
    requires n <= |ops|
  {
    if n == |ops| then Exec(before, ops) else Leave(Exec(before, ops[..n]), ops[n], fault)
  }

  /** The part of ops from lo on is done in order; n is how far it got. */
  method StepAll(disk: Disk, part: seq<Op>, ghost start: State, ghost ops: seq<Op>, ghost lo: nat)
      returns (ok: bool, ghost n: nat)
    requires lo + |part| <= |ops| && part == ops[lo..lo + |part|] && disk.Contents() == Exec(start, ops[..lo])
    modifies disk
    ensures disk.fault == old(disk.fault) && lo <= n && old(disk.budget) == disk.budget + (n - lo)
    ensures ok ==> n == lo + |part| && disk.Contents() == Exec(start, ops[..n])
    ensures !ok ==> n < lo + |part| && disk.budget == 0 && disk.Contents() == Stopped(start, ops, n, disk.fault)
  {
    n := lo;
    for i := 0 to |part|
      invariant n == lo + i && disk.Contents() == Exec(start, ops[..n])
      invariant disk.fault == old(disk.fault) && old(disk.budget) == disk.budget + i
    {
      assert part[i] == ops[lo + i];
      ok := disk.Step(part[i]);
      if !ok { return; }
      ExecStep(start, ops, n);
      n := n + 1;
    }
    ok := true;
  }

  predicate Split(ops: seq<Op>, puts: seq<Op>, removes: seq<Op>, last: Op) {
    var k, m := |puts|, |puts| + |removes|;
    |ops| == m + 1 && ops[0..k] == puts && ops[k..m] == removes && ops[m..m + 1] == [last]
  }

  /** A put for every output path, a removal for every stale one, and the marker. */
  function PlanLength(out: map<string, Bytes>, prev: seq<string>): nat { |out| + |Stale(prev, out)| + 1 }

  lemma {:induction false} PlanParts(order: seq<string>, out: map<string, Bytes>, prev: seq<string>, paths: seq<string>)
      returns (ops: seq<Op>)
    requires IsOrder(order, out.Keys) && PathList(paths, out.Keys) && forall p :: p in order ==> p in out
    ensures IsPlan(ops, out, prev) && |ops| == PlanLength(out, prev)
    ensures Split(ops, Puts(order, out), Removes(Stale(prev, out)), PutMarker(paths))
  {
    OrderWithin(order, out);
    ops := Ops(order, out, prev, paths);
  }

  /** A Write that took n steps along one of its plans, and failed then if that was not all. */
  ghost predicate Reaches(
    before: State, after: State, out: map<string, Bytes>, prev: seq<string>, n: nat, fault: Fault)
  {
    exists ops: seq<Op> :: IsPlan(ops, out, prev) && n <= |ops| && after == Stopped(before, ops, n, fault)
  }

  lemma {:induction false} OrderWithin(order: seq<string>, out: map<string, Bytes>)
    requires IsOrder(order, out.Keys)
    ensures |order| == |out| && forall p :: p in order ==> p in out
  {
    OrderMembers(order, out.Keys);
    assert |order| == |multiset(order)| == |multiset(out.Keys)|;
  }

  lemma {:induction false} ReachesBy(
    before: State, ops: seq<Op>, n: nat, fault: Fault, out: map<string, Bytes>, prev: seq<string>)
    requires IsPlan(ops, out, prev) && n <= |ops|
    ensures Reaches(before, Stopped(before, ops, n, fault), out, prev, n, fault)
  {
  }

  /** Puts in order, then removals, then the marker, up to the first fault. */
  method Replay(disk: Disk, puts: seq<Op>, removes: seq<Op>, last: Op, ghost ops: seq<Op>)
      returns (ok: bool, ghost n: nat)
    requires Split(ops, puts, removes, last)
    modifies disk
    ensures n <= |ops| && disk.fault == old(disk.fault)
    ensures disk.Contents() == Stopped(old(disk.Contents()), ops, n, disk.fault)
    ensures ok == (n == |ops|) && old(disk.budget) == disk.budget + n && (!ok ==> disk.budget == 0)
  {
    ghost var start := disk.Contents();
    ok, n := StepAll(disk, puts, start, ops, 0);
    if !ok { return; }
    ok, n := StepAll(disk, removes, start, ops, |puts|);
    if !ok { return; }
    ok, n := StepAll(disk, [last], start, ops, |puts| + |removes|);
    assert ops[..|ops|] == ops;
  }

  /** What a Write over a disk that takes `budget` more steps leaves and answers. */
  ghost predicate Written(before: State, budget: nat, fault: Fault, after: State, left: nat,
                          out: map<string, Bytes>, prev: seq<string>, r: Result<Counts>)
  {
    var length := PlanLength(out, prev);
    && left == (if budget < length then 0 else budget - length)
    && Reaches(before, after, out, prev, budget - left, fault)
    && r == if budget < length then Err else Ok(Counts(|out|, |Stale(prev, out)|))
  }

  method WriteOver(disk: Disk, out: map<string, Bytes>, prev: seq<string>) returns (r: Result<Counts>)
    modifies disk
    ensures Written(old(disk.Contents()), old(disk.budget), old(disk.fault), disk.Contents(), disk.budget, out, prev, r)
  {
    var order := WriteOrder(out.Keys);
    OrderWithin(order, out);
    var paths := SortedPaths(out.Keys);
    var stale := Stale(prev, out);
    ghost var start := disk.Contents();
    ghost var ops := PlanParts(order, out, prev, paths);
    var ok, n := Replay(disk, Puts(order, out), Removes(stale), PutMarker(paths), ops);
    ReachesBy(start, ops, n, disk.fault, out, prev);
    r := if ok then Ok(Counts(|order|, |stale|)) else Err;
  }

  /** Write, once the output is collected: refused on an unreadable marker; otherwise it
      goes along its plan for as many steps as the disk takes, and succeeds exactly when
      that is all of them. */
  method Write(disk: Disk, out: map<string, Bytes>) returns (r: Result<Counts>)
    modifies disk
    ensures match ReadMarker(old(disk.Contents()))
      case Err => r.Err? && disk.Contents() == old(disk.Contents()) && disk.budget == old(disk.budget)
      case Ok(prev) =>
        Written(old(disk.Contents()), old(disk.budget), old(disk.fault), disk.Contents(), disk.budget, out, prev, r)
  {
    var marker := ReadMarker(disk.Contents());
    if marker.Err? { return Err; }
    r := WriteOver(disk, out, marker.value);
  }

  // ----- what every step keeps ----------------------------------------------

  const INRELEASE := "dists/stable/InRelease"

  /** How clients read the repository: where its InRelease is, which paths are those of
      by-hash files, which of them an InRelease text names, and the hash in the last
      segment of such a path. */
  datatype Reader = Reader(
    inRelease: string, byHash: string -> bool, refs: Bytes -> set<string>, sha256: Bytes -> string)

  /** The write order knows the paths: InRelease is of the last tier, by-hash files are of
      one before it. */
  ghost predicate Tiered(rd: Reader) {
    && Tier(rd.inRelease) == 5
    && (forall p :: rd.byHash(p) ==> Tier(p) == 1)
    && (forall b, r :: r in rd.refs(b) ==> rd.byHash(r))
  }

  predicate Addressed(rd: Reader, p: string, data: Bytes) { BaseName(p) == rd.sha256(data) }

  /** The InRelease on disk names only files that are on disk, with the named hash. */
  ghost predicate Closed(rd: Reader, files: map<string, Bytes>) {
    rd.inRelease in files ==>
      forall r :: r in rd.refs(files[rd.inRelease]) ==> r in files && Addressed(rd, r, files[r])
  }

  /** What composing a snapshot guarantees about an export of it. */
  ghost predicate OutOk(rd: Reader, out: map<string, Bytes>) {
    && rd.inRelease in out && (forall r :: r in rd.refs(out[rd.inRelease]) ==> r in out)
    && (forall p :: p in out && rd.byHash(p) ==> Addressed(rd, p, out[p]))
  }

  lemma {:induction false} InReleaseNotByHash()
    ensures !Contains(INRELEASE, "/by-hash/")
  {
    assert forall k :: 0 <= k < |INRELEASE| ==> INRELEASE[k] != 'y';
    NeedsChar(INRELEASE, "/by-hash/", 2);
  }

  lemma {:induction false} InReleaseBase()
    ensures BaseName(INRELEASE) == "InRelease"
  {
    assert INRELEASE[12] == '/' && forall k :: 12 < k < |INRELEASE| ==> INRELEASE[k] != '/';
    assert LastIndex(INRELEASE, '/') == 12;
  }

  lemma {:induction false} InReleaseUnderDists()
    ensures HasPrefix(INRELEASE, "dists/")
  {
    assert INRELEASE[..6] == "dists/";
  }

  lemma {:induction false} NeedsChar(s: string, sub: string, k: nat)
    requires k < |sub| && forall i :: 0 <= i < |s| ==> s[i] != sub[k]
    ensures !Contains(s, sub)
  {
    if |s| >= |sub| {
      assert s[k] != sub[k];
      if |s| > 0 { NeedsChar(s[1..], sub, k); }
    }
  }

  lemma {:induction false} LastTier(p: string)
    requires HasPrefix(p, "dists/") && !Contains(p, "/by-hash/") && BaseName(p) == "InRelease"
    ensures Tier(p) == 5
  {
  }

  lemma {:induction false} InReleaseIsLast()
    ensures Tier(INRELEASE) == 5
  {
    InReleaseNotByHash();
    InReleaseBase();
    InReleaseUnderDists();
    LastTier(INRELEASE);
  }

  lemma {:induction false} ExecAppend(s: State, a: seq<Op>, b: seq<Op>)
    ensures Exec(s, a + b) == Exec(Exec(s, a), b)
  {
    if b == [] {
      assert a + b == a;
    } else {
      assert (a + b)[..|a + b| - 1] == a + b[..|b| - 1];
      ExecAppend(s, a, b[..|b| - 1]);
    }
  }

  lemma {:induction false} AfterPuts(s: State, order: seq<string>, out: map<string, Bytes>, k: nat)
    requires k <= |order| && forall p :: p in order ==> p in out
    ensures var t := Exec(s, Puts(order, out)[..k]);
      && t.marker == s.marker
      && (forall p :: p in t.files <==> p in s.files || p in order[..k])
      && (forall p :: p in t.files ==> t.files[p] == if p in order[..k] then out[p] else s.files[p])
  {
    if k > 0 {
      AfterPuts(s, order, out, k - 1);
      ExecStep(s, Puts(order, out), k - 1);
      assert order[..k] == order[..k - 1] + [order[k - 1]];
    }
  }

  lemma {:induction false} AfterRemoves(s: State, paths: seq<string>, k: nat)
    requires k <= |paths|
    ensures var t := Exec(s, Removes(paths)[..k]);
      && t.marker == s.marker
      && (forall p :: p in t.files <==> p in s.files && p !in paths[..k])
      && (forall p :: p in t.files ==> t.files[p] == s.files[p])
  {
    if k > 0 {
      AfterRemoves(s, paths, k - 1);
      ExecStep(s, Removes(paths), k - 1);
      assert paths[..k] == paths[..k - 1] + [paths[k - 1]];
    }
  }

  lemma {:induction false} StaleMembers(prev: seq<string>, out: map<string, Bytes>)
    ensures forall p :: p in Stale(prev, out) <==> p in prev && p !in out
  {
    if prev != [] {
      StaleMembers(prev[..|prev| - 1], out);
      assert prev == prev[..|prev| - 1] + [prev[|prev| - 1]];
    }
  }

  lemma {:induction false} LowerTierFirst(order: seq<string>, i: nat, j: nat)
    requires Sorted(order, TierLe) && i < |order| && j < |order| && Tier(order[j]) < Tier(order[i])
    ensures j < i
  {
  }

  /** In the write order a path of a lower tier has been written once one of a higher tier
      has: by-hash files come before InRelease. */
  lemma {:induction false} RefsComeFirst(order: seq<string>, keys: set<string>, k: nat, last: string, r: string)
    requires IsOrder(order, keys) && k <= |order| && last in order[..k] && Tier(r) < Tier(last) && r in keys
    ensures r in order[..k]
  {
    OrderMembers(order, keys);
    var i :| 0 <= i < k && order[i] == last;
    var j :| 0 <= j < |order| && order[j] == r;
    LowerTierFirst(order, i, j);
    assert order[..k][j] == r;
  }

  /** Whatever the InRelease of the output names is written before it. */
  ghost predicate RefsFirst(rd: Reader, order: seq<string>, out: map<string, Bytes>)
    requires rd.inRelease in out
  {
    forall k, r :: 0 <= k <= |order| && rd.inRelease in order[..k] && r in rd.refs(out[rd.inRelease]) ==>
      r in order[..k]
  }

  lemma {:induction false} OrderPutsRefsFirst(rd: Reader, order: seq<string>, out: map<string, Bytes>)
    requires Tiered(rd) && OutOk(rd, out) && IsOrder(order, out.Keys)
    ensures RefsFirst(rd, order, out)
  {
    forall k, r | 0 <= k <= |order| && rd.inRelease in order[..k] && r in rd.refs(out[rd.inRelease])
      ensures r in order[..k]
    {
      RefsComeFirst(order, out.Keys, k, rd.inRelease, r);
    }
  }

  /** Files with the whole output among them are closed. */
  lemma {:induction false} OutputIsClosed(rd: Reader, out: map<string, Bytes>, files: map<string, Bytes>)
    requires OutOk(rd, out) && forall b, r :: r in rd.refs(b) ==> rd.byHash(r)
    requires forall p :: p in out ==> p in files && files[p] == out[p]
    ensures Closed(rd, files)
  {
  }

  /** Files of which some are from the output, each by-hash one with its hash. */
  lemma {:induction false} OldInReleaseIsClosed(
    rd: Reader, before: map<string, Bytes>, out: map<string, Bytes>, done: seq<string>, files: map<string, Bytes>)
    requires Closed(rd, before) && OutOk(rd, out) && (forall b, r :: r in rd.refs(b) ==> rd.byHash(r))
    requires rd.inRelease !in done && forall p :: p in done ==> p in out
    requires forall p :: p in files <==> p in before || p in done
    requires forall p :: p in files ==> files[p] == if p in done then out[p] else before[p]
    ensures Closed(rd, files)
  {
  }

  lemma {:induction false} NewInReleaseIsClosed(
    rd: Reader, before: map<string, Bytes>, out: map<string, Bytes>, done: seq<string>, files: map<string, Bytes>)
    requires OutOk(rd, out) && (forall b, r :: r in rd.refs(b) ==> rd.byHash(r))
    requires rd.inRelease in done && forall p :: p in done ==> p in out
    requires forall r :: r in rd.refs(out[rd.inRelease]) ==> r in done
    requires forall p :: p in files <==> p in before || p in done
    requires forall p :: p in files ==> files[p] == if p in done then out[p] else before[p]
    ensures Closed(rd, files)
  {
  }

  lemma {:induction false} ClosedWhilePutting(
    rd: Reader, s: State, order: seq<string>, out: map<string, Bytes>, k: nat)
    requires OutOk(rd, out) && Closed(rd, s.files) && forall b, r :: r in rd.refs(b) ==> rd.byHash(r)
    requires RefsFirst(rd, order, out) && k <= |order| && forall p :: p in order ==> p in out
    ensures Closed(rd, Exec(s, Puts(order, out)[..k]).files)
  {
    AfterPuts(s, order, out, k);
    var files := Exec(s, Puts(order, out)[..k]).files;
    if rd.inRelease in order[..k] {
      NewInReleaseIsClosed(rd, s.files, out, order[..k], files);
    } else {
      OldInReleaseIsClosed(rd, s.files, out, order[..k], files);
    }
  }

  /** From the last put on the whole output is there. */
  lemma {:induction false} OutputInPlace(
    s: State, order: seq<string>, out: map<string, Bytes>, prev: seq<string>, j: nat, p: string)
    requires (forall q :: q in order <==> q in out) && j <= |Stale(prev, out)| && p in out
    ensures var files := Exec(Exec(s, Puts(order, out)), Removes(Stale(prev, out))[..j]).files;
      p in files && files[p] == out[p]
  {
    var t := Exec(s, Puts(order, out));
    assert Puts(order, out)[..|order|] == Puts(order, out) && order[..|order|] == order;
    AfterPuts(s, order, out, |order|);
    StaleMembers(prev, out);
    AfterRemoves(t, Stale(prev, out), j);
    assert p !in Stale(prev, out)[..j];
  }

  lemma {:induction false} ClosedWhilePruning(
    rd: Reader, s: State, order: seq<string>, out: map<string, Bytes>, prev: seq<string>, j: nat)
    requires OutOk(rd, out) && (forall b, r :: r in rd.refs(b) ==> rd.byHash(r))
    requires (forall q :: q in order <==> q in out) && j <= |Stale(prev, out)|
    ensures Closed(rd, Exec(Exec(s, Puts(order, out)), Removes(Stale(prev, out))[..j]).files)
  {
    var files := Exec(Exec(s, Puts(order, out)), Removes(Stale(prev, out))[..j]).files;
    forall p | p in out ensures p in files && files[p] == out[p] { OutputInPlace(s, order, out, prev, j, p); }
    OutputIsClosed(rd, out, files);
  }

  /** The state after the first n steps, phase by phase. */
  lemma {:induction false} PrefixPhases(
    s: State, order: seq<string>, out: map<string, Bytes>, prev: seq<string>, paths: seq<string>, n: nat)
    requires forall p :: p in order ==> p in out
    requires n <= |Ops(order, out, prev, paths)|
    ensures var ops, k, m := Ops(order, out, prev, paths), |order|, |Stale(prev, out)|;
      Exec(s, ops[..n]) ==
        if n <= k then Exec(s, Puts(order, out)[..n])
        else if n <= k + m then Exec(Exec(s, Puts(order, out)), Removes(Stale(prev, out))[..n - k])
        else Do(Exec(Exec(s, Puts(order, out)), Removes(Stale(prev, out))), PutMarker(paths))
  {
    var ops, k, m := Ops(order, out, prev, paths), |order|, |Stale(prev, out)|;
    var puts, removes := Puts(order, out), Removes(Stale(prev, out));
    if n <= k {
      assert ops[..n] == puts[..n];
    } else if n <= k + m {
      assert ops[..n] == puts + removes[..n - k];
      ExecAppend(s, puts, removes[..n - k]);
    } else {
      assert ops[..n] == puts + removes + [PutMarker(paths)];
      assert ops[..n][..n - 1] == puts + removes;
      ExecAppend(s, puts, removes);
    }
  }

  /** A failed step changes neither a file nor the marker. */
  lemma {:induction false} LeaveKeeps(s: State, ops: seq<Op>, n: nat, fault: Fault)
    requires n <= |ops|
    ensures var t := Exec(s, ops[..n]); Stopped(s, ops, n, fault) == t.(litter := Stopped(s, ops, n, fault).litter)
  {
    assert ops[..|ops|] == ops;
  }

  /** At every single rename and removal of a Write, and wherever it fails: the InRelease
      on disk, old or new, finds every by-hash file it names. */
  lemma {:induction false} ClosedAtEveryStep(
    rd: Reader, s: State, ops: seq<Op>, out: map<string, Bytes>, prev: seq<string>, n: nat, fault: Fault)
    requires Tiered(rd) && OutOk(rd, out) && Closed(rd, s.files)
    requires IsPlan(ops, out, prev) && n <= |ops|
    ensures Closed(rd, Exec(s, ops[..n]).files) && Closed(rd, Stopped(s, ops, n, fault).files)
  {
    var order: seq<string>, paths: seq<string> :| IsOrder(order, out.Keys) && PathList(paths, out.Keys)
      && (forall p :: p in order ==> p in out) && ops == Ops(order, out, prev, paths);
    OrderPutsRefsFirst(rd, order, out);
    OrderMembers(order, out.Keys);
    ClosedAlongPlan(rd, s, order, out, prev, paths, n);
    LeaveKeeps(s, ops, n, fault);
  }

  lemma {:induction false} ClosedAlongPlan(
    rd: Reader, s: State, order: seq<string>, out: map<string, Bytes>, prev: seq<string>, paths: seq<string>, n: nat)
    requires OutOk(rd, out) && Closed(rd, s.files) && forall b, r :: r in rd.refs(b) ==> rd.byHash(r)
    requires RefsFirst(rd, order, out) && forall q :: q in order <==> q in out
    requires n <= |Ops(order, out, prev, paths)|
    ensures Closed(rd, Exec(s, Ops(order, out, prev, paths)[..n]).files)
  {
    PrefixPhases(s, order, out, prev, paths, n);
    var k, m := |order|, |Stale(prev, out)|;
    if n <= k {
      ClosedWhilePutting(rd, s, order, out, n);
    } else {
      assert Removes(Stale(prev, out))[..m] == Removes(Stale(prev, out));
      ClosedWhilePruning(rd, s, order, out, prev, if n <= k + m then n - k else m);
    }
  }

  /** A path that is neither in the previous marker nor in the output is never touched, a
      path of the output that is there stays there, and any path holds its old bytes, its
      new bytes, or (pruned) nothing. */
  lemma {:induction false} OnlyOwnPathsTouched(
    s: State, ops: seq<Op>, out: map<string, Bytes>, prev: seq<string>, n: nat, p: string)
    requires IsPlan(ops, out, prev) && n <= |ops|
    ensures var t := Exec(s, ops[..n]);
      && (p !in out && p !in prev ==> (p in t.files <==> p in s.files))
      && (p in out && p in s.files ==> p in t.files)
      && (p in t.files ==> (p in s.files && t.files[p] == s.files[p]) || (p in out && t.files[p] == out[p]))
  {
    var order: seq<string>, paths: seq<string> :| IsOrder(order, out.Keys) && PathList(paths, out.Keys)
      && (forall q :: q in order ==> q in out) && ops == Ops(order, out, prev, paths);
    TouchedAlongPlan(s, order, out, prev, paths, n, p);
  }

  lemma {:induction false} TouchedAlongPlan(
    s: State, order: seq<string>, out: map<string, Bytes>, prev: seq<string>, paths: seq<string>, n: nat, p: string)
    requires forall q :: q in order ==> q in out
    requires n <= |Ops(order, out, prev, paths)|
    ensures var t := Exec(s, Ops(order, out, prev, paths)[..n]);
      && (p !in out && p !in prev ==> (p in t.files <==> p in s.files))
      && (p in out && p in s.files ==> p in t.files)
      && (p in t.files ==> (p in s.files && t.files[p] == s.files[p]) || (p in out && t.files[p] == out[p]))
  {
    PrefixPhases(s, order, out, prev, paths, n);
    var k, m := |order|, |Stale(prev, out)|;
    TouchedByPuts(s, order, out, if n <= k then n else k, p);
    assert Puts(order, out)[..k] == Puts(order, out);
    if n > k {
      var j := if n <= k + m then n - k else m;
      assert Removes(Stale(prev, out))[..m] == Removes(Stale(prev, out));
      AfterRemoves(Exec(s, Puts(order, out)), Stale(prev, out), j);
      StaleMembers(prev, out);
      assert forall q :: q in Stale(prev, out)[..j] ==> q in Stale(prev, out);
    }
  }

  lemma {:induction false} TouchedByPuts(s: State, order: seq<string>, out: map<string, Bytes>, n: nat, p: string)
    requires n <= |order| && forall q :: q in order ==> q in out
    ensures var t := Exec(s, Puts(order, out)[..n]);
      && (p !in out ==> (p in t.files <==> p in s.files)) && (p in s.files ==> p in t.files)
      && (p in t.files ==> (p in s.files && t.files[p] == s.files[p]) || (p in out && t.files[p] == out[p]))
  {
    AfterPuts(s, order, out, n);
    assert forall q :: q in order[..n] ==> q in order;
  }

  lemma {:induction false} AllPutsAndRemoves(s: State, order: seq<string>, out: map<string, Bytes>, prev: seq<string>)
    requires IsOrder(order, out.Keys) && forall p :: p in order ==> p in out
    ensures var t := Exec(Exec(s, Puts(order, out)), Removes(Stale(prev, out)));
      && (forall p :: p in t.files <==> p in out || (p in s.files && p !in prev))
      && (forall p :: p in t.files ==> t.files[p] == if p in out then out[p] else s.files[p])
  {
    var k, m := |order|, |Stale(prev, out)|;
    assert Puts(order, out)[..k] == Puts(order, out) && order[..k] == order;
    assert Removes(Stale(prev, out))[..m] == Removes(Stale(prev, out)) && Stale(prev, out)[..m] == Stale(prev, out);
    AfterPuts(s, order, out, k);
    OrderMembers(order, out.Keys);
    AfterRemoves(Exec(s, Puts(order, out)), Stale(prev, out), m);
    StaleMembers(prev, out);
  }

  /** A Write that runs to its end leaves exactly the output, plus what was never its own,
      and a marker that lists the output. */
  lemma {:induction false} CompleteWrite(s: State, ops: seq<Op>, out: map<string, Bytes>, prev: seq<string>)
    requires IsPlan(ops, out, prev)
    ensures var t := Exec(s, ops);
      && (forall p :: p in t.files <==> p in out || (p in s.files && p !in prev))
      && (forall p :: p in t.files ==> t.files[p] == if p in out then out[p] else s.files[p])
      && t.marker.Marker? && PathList(t.marker.paths, out.Keys)
  {
    var order: seq<string>, paths: seq<string> :| IsOrder(order, out.Keys) && PathList(paths, out.Keys)
      && (forall q :: q in order ==> q in out) && ops == Ops(order, out, prev, paths);
    CompletePlan(s, order, out, prev, paths);
  }

  lemma {:induction false} CompletePlan(
    s: State, order: seq<string>, out: map<string, Bytes>, prev: seq<string>, paths: seq<string>)
    requires IsOrder(order, out.Keys) && forall q :: q in order ==> q in out
    ensures var t := Exec(s, Ops(order, out, prev, paths));
      && (forall p :: p in t.files <==> p in out || (p in s.files && p !in prev))
      && (forall p :: p in t.files ==> t.files[p] == if p in out then out[p] else s.files[p])
      && t.marker == Marker(paths)
  {
    AllPutsAndRemoves(s, order, out, prev);
    WholePlan(s, order, out, prev, paths);
  }

  lemma {:induction false} WholePlan(
    s: State, order: seq<string>, out: map<string, Bytes>, prev: seq<string>, paths: seq<string>)
    requires forall p :: p in order ==> p in out
    ensures Exec(s, Ops(order, out, prev, paths)) ==
            Do(Exec(Exec(s, Puts(order, out)), Removes(Stale(prev, out))), PutMarker(paths))
  {
    var ops := Ops(order, out, prev, paths);
    assert ops[..|ops|] == ops;
    PrefixPhases(s, order, out, prev, paths, |ops|);
  }

  // ----- leaves first -------------------------------------------------------

  predicate UnderDists(p: string) { |p| >= 6 && p[..6] == "dists/" }

  predicate ByHashFile(p: string) { UnderDists(p) && Contains(p, "/by-hash/") }

  /** A file of that name under dists/, not among the by-hash files. */
  predicate Called(p: string, name: string) { UnderDists(p) && !ByHashFile(p) && BaseName(p) == name }

  /** A file under dists/ that is none of the three a client starts from: Packages and its
      compressed forms, in this repository. */
  predicate Leaf(p: string) {
    UnderDists(p) && !ByHashFile(p) && BaseName(p) !in ["InRelease", "Release", "Release.gpg"]
  }

  /** p has to be there before q: everything outside dists/, then by-hash files, Packages,
      Release.gpg, Release, and InRelease. */
  predicate Needs(q: string, p: string) {
    || (UnderDists(q) && !UnderDists(p))
    || (UnderDists(q) && !ByHashFile(q) && ByHashFile(p))
    || ((Called(q, "Release.gpg") || Called(q, "Release") || Called(q, "InRelease")) && Leaf(p))
    || ((Called(q, "Release") || Called(q, "InRelease")) && Called(p, "Release.gpg"))
    || (Called(q, "InRelease") && Called(p, "Release"))
  }

  /** Tier, of what it looks at. */
  function TierCase(under: bool, byHash: bool, base: string): nat {
    if !under then 0
    else if byHash then 1
    else if base == "InRelease" then 5
    else if base == "Release" then 4
    else if base == "Release.gpg" then 3
    else 2
  }

  lemma {:induction false} TierIsCase(p: string)
    ensures Tier(p) == TierCase(UnderDists(p), ByHashFile(p), BaseName(p))
  {
  }

  predicate CaseNeeds(under: bool, byHash: bool, base: string, under': bool, byHash': bool, base': string) {
    var leaf := under' && !byHash' && base' !in ["InRelease", "Release", "Release.gpg"];
    || (under && !under')
    || (under && !byHash && under' && byHash')
    || (under && !byHash && base in ["Release.gpg", "Release", "InRelease"] && leaf)
    || (under && !byHash && base in ["Release", "InRelease"] && under' && !byHash' && base' == "Release.gpg")
    || (under && !byHash && base == "InRelease" && under' && !byHash' && base' == "Release")
  }

  lemma {:induction false} CaseIsLower(
    under: bool, byHash: bool, base: string, under': bool, byHash': bool, base': string)
    requires CaseNeeds(under, byHash, base, under', byHash', base')
    ensures TierCase(under', byHash', base') < TierCase(under, byHash, base)
  {
  }

  lemma {:induction false} NeedsIsCase(q: string, p: string)
    requires Needs(q, p)
    ensures CaseNeeds(UnderDists(q), ByHashFile(q), BaseName(q), UnderDists(p), ByHashFile(p), BaseName(p))
  {
  }

  lemma {:induction false} NeededIsLower(p: string, q: string)
    requires Needs(q, p)
    ensures Tier(p) < Tier(q)
  {
    TierIsCase(p);
    TierIsCase(q);
    NeedsIsCase(q, p);
    CaseIsLower(UnderDists(q), ByHashFile(q), BaseName(q), UnderDists(p), ByHashFile(p), BaseName(p));
  }

  /** In every write order what a path needs has been written once the path has. */
  lemma {:induction false} LeavesFirst(order: seq<string>, keys: set<string>, k: nat, p: string, q: string)
    requires IsOrder(order, keys) && k <= |order| && q in order[..k] && p in keys && Needs(q, p)
    ensures p in order[..k]
  {
    NeededIsLower(p, q);
    RefsComeFirst(order, keys, k, q, p);
  }

  /** Nothing is left over: an InRelease needs every path but other InReleases. */
  lemma {:induction false} InReleaseNeedsAll(q: string, p: string)
    requires Called(q, "InRelease")
    ensures Needs(q, p) || Called(p, "InRelease")
  {
  }

  lemma {:induction false} IsCalled(p: string, name: string)
    requires HasPrefix(p, "dists/") && !Contains(p, "/by-hash/") && BaseName(p) == name
    ensures Called(p, name)
  {
  }

  lemma {:induction false} InReleaseIsCalled()
    ensures Called(INRELEASE, "InRelease")
  {
    InReleaseNotByHash();
    InReleaseBase();
    InReleaseUnderDists();
    IsCalled(INRELEASE, "InRelease");
  }

  /** Some step of the first n puts the path. */
  predicate PutBy(ops: seq<Op>, n: nat, q: string) {
    exists i :: 0 <= i < n && i < |ops| && ops[i].Put? && ops[i].path == q
  }

  /** After any number of steps of a Write: once a path has landed, so has everything it
      needs, with its new bytes. */
  lemma {:induction false} LeavesLandFirst(
    s: State, ops: seq<Op>, out: map<string, Bytes>, prev: seq<string>, n: nat, p: string, q: string)
    requires IsPlan(ops, out, prev) && n <= |ops| && PutBy(ops, n, q) && p in out && Needs(q, p)
    ensures var t := Exec(s, ops[..n]); p in t.files && t.files[p] == out[p]
  {
    var order: seq<string>, paths: seq<string> :| IsOrder(order, out.Keys) && PathList(paths, out.Keys)
      && (forall q :: q in order ==> q in out) && ops == Ops(order, out, prev, paths);
    OrderMembers(order, out.Keys);
    PutIsWritten(order, out, prev, paths, n, q);
    LeavesFirst(order, out.Keys, if n <= |order| then n else |order|, p, q);
    WrittenIsThere(s, order, out, prev, paths, n, p);
  }

  lemma {:induction false} PutIsWritten(
    order: seq<string>, out: map<string, Bytes>, prev: seq<string>, paths: seq<string>, n: nat, q: string)
    requires (forall q :: q in order ==> q in out) && PutBy(Ops(order, out, prev, paths), n, q)
    ensures q in order[..if n <= |order| then n else |order|]
  {
    var ops, k := Ops(order, out, prev, paths), if n <= |order| then n else |order|;
    var i :| 0 <= i < n && i < |ops| && ops[i].Put? && ops[i].path == q;
    assert ops[i] == Puts(order, out)[i];
    assert order[..k][i] == q;
  }

  lemma {:induction false} WrittenIsThere(
    s: State, order: seq<string>, out: map<string, Bytes>, prev: seq<string>, paths: seq<string>, n: nat, p: string)
    requires (forall q :: q in order <==> q in out) && n <= |Ops(order, out, prev, paths)|
    requires p in order[..if n <= |order| then n else |order|]
    ensures var t := Exec(s, Ops(order, out, prev, paths)[..n]); p in t.files && t.files[p] == out[p]
  {
    PrefixPhases(s, order, out, prev, paths, n);
    var k, m := |order|, |Stale(prev, out)|;
    if n <= k {
      AfterPuts(s, order, out, n);
    } else {
      assert Removes(Stale(prev, out))[..m] == Removes(Stale(prev, out));
      OutputInPlace(s, order, out, prev, if n <= k + m then n - k else m, p);
    }
  }

  /** So the InRelease of an output lands last: once it has, all other files of the output
      outside and under dists/ are there. */
  lemma {:induction false} InReleaseLandsLast(
    s: State, ops: seq<Op>, out: map<string, Bytes>, prev: seq<string>, n: nat, p: string)
    requires IsPlan(ops, out, prev) && n <= |ops| && PutBy(ops, n, INRELEASE)
    requires p in out && !Called(p, "InRelease")
    ensures var t := Exec(s, ops[..n]); p in t.files && t.files[p] == out[p]
  {
    InReleaseIsCalled();
    InReleaseNeedsAll(INRELEASE, p);
    LeavesLandFirst(s, ops, out, prev, n, p, INRELEASE);
  }

  predicate OccursAt(s: string, sub: string, i: nat) { i + |sub| <= |s| && s[i..i + |sub|] == sub }

  ghost predicate Occurs(s: string, sub: string) { exists i: nat :: OccursAt(s, sub, i) }

  /** Contains finds what is there, and only that. */
  lemma {:induction false} ContainsExactly(s: string, sub: string)
    ensures Contains(s, sub) <==> Occurs(s, sub)
  {
    if |s| >= |sub| {
      if HasPrefix(s, sub) {
        assert OccursAt(s, sub, 0);
      } else {
        ContainsExactly(s[1..], sub);
        OccursInTail(s, sub);
      }
    }
  }

  lemma {:induction false} AtStart(s: string, sub: string)
    ensures OccursAt(s, sub, 0) ==> HasPrefix(s, sub)
  {
    if |sub| <= |s| { assert s[0..0 + |sub|] == s[..|sub|]; }
  }

  lemma {:induction false} OccursInTail(s: string, sub: string)
    requires s != "" && !HasPrefix(s, sub)
    ensures Occurs(s, sub) <==> Occurs(s[1..], sub)
  {
    if Occurs(s, sub) {
      var i: nat :| OccursAt(s, sub, i);
      AtStart(s, sub);
      assert s[1..][i - 1..i - 1 + |sub|] == s[i..i + |sub|];
      assert OccursAt(s[1..], sub, i - 1);
    }
    if Occurs(s[1..], sub) {
      var i: nat :| OccursAt(s[1..], sub, i);
      assert s[i + 1..i + 1 + |sub|] == s[1..][i..i + |sub|];
      assert OccursAt(s, sub, i + 1);
    }
  }

  // ----- the marker ---------------------------------------------------------

  lemma {:induction false} SafeIsBelow(p: string)
    ensures RelPath("/" + p).Ok? <==> StaysBelow(Segments(p))
  {
    SegmentsJoin(p);
    RelPathExactly(Segments(p));
  }

  /** A directory is refused exactly when it holds something but no marker, or a marker that
      cannot be read or lists a path that does not stay below the root. */
  lemma {:induction false} RefusedExactly(s: State)
    ensures ReadMarker(s).Err? <==>
      || (s.marker.NoMarker? && (s.files != map[] || s.litter))
      || s.marker.BadMarker?
      || (s.marker.Marker? && exists p :: p in s.marker.paths && !StaysBelow(Segments(p)))
  {
    forall p ensures RelPath("/" + p).Ok? <==> StaysBelow(Segments(p)) { SafeIsBelow(p); }
  }

  lemma {:induction false} CollectedIsSafe(site: seq<(string, Bytes)>, targets: seq<(string, Bytes)>, p: string)
    requires Collect(site, targets).Ok? && p in Collect(site, targets).value
    ensures RelPath("/" + p) == Ok(p)
  {
    OnlyTheseCollected(site, targets, p);
    if OfSite(p, site) {
      var i :| 0 <= i < |site| && RelPath(site[i].0) == Ok(p);
      assert site[i].0 == "/" + p;
    } else {
      var j :| 0 <= j < |targets| && TargetRel(targets[j].0) == Ok(p);
    }
  }

  /** The marker of a complete export of collected files is accepted by the next one, which
      so knows exactly the paths of the output. */
  lemma {:induction false} MarkerReadsBack(
    s: State, ops: seq<Op>, site: seq<(string, Bytes)>, targets: seq<(string, Bytes)>, prev: seq<string>)
    requires Collect(site, targets).Ok? && IsPlan(ops, Collect(site, targets).value, prev)
    ensures var r := ReadMarker(Exec(s, ops)); r.Ok? && PathList(r.value, Collect(site, targets).value.Keys)
  {
    var out := Collect(site, targets).value;
    CompleteWrite(s, ops, out, prev);
    var paths := Exec(s, ops).marker.paths;
    PathListMembers(paths, out.Keys);
    forall p | p in paths ensures RelPath("/" + p).Ok? { CollectedIsSafe(site, targets, p); }
  }

  // ----- what is never pruned -----------------------------------------------

  function MarkedPaths(s: State): seq<string> { if s.marker.Marker? then s.marker.paths else [] }

  /** A file that no marker knows of, so that no export will remove it. */
  predicate Orphan(s: State, p: string) { p in s.files && p !in MarkedPaths(s) }

  /** One call of Write: its output, its plan, how many steps of it came about. */
  datatype Try = Try(out: map<string, Bytes>, ops: seq<Op>, n: nat, fault: Fault)

  ghost predicate Tried(s: State, t: State, x: Try) {
    match ReadMarker(s)
    case Err => t == s
    case Ok(prev) => IsPlan(x.ops, x.out, prev) && x.n <= |x.ops| && t == Stopped(s, x.ops, x.n, x.fault)
  }

  predicate Completes(s: State, x: Try) { ReadMarker(s).Ok? && x.n == |x.ops| }

  predicate PutsPath(x: Try, p: string) {
    exists i :: 0 <= i < x.n && i < |x.ops| && x.ops[i].Put? && x.ops[i].path == p
  }

  /** An export that does not get to its marker leaves a file the previous marker lacks. */
  predicate MakesOrphan(s: State, x: Try, p: string) {
    ReadMarker(s).Ok? && x.n < |x.ops| && PutsPath(x, p) && p !in MarkedPaths(s)
  }

  lemma {:induction false} PlannedPuts(
    order: seq<string>, out: map<string, Bytes>, prev: seq<string>, paths: seq<string>, x: Try, p: string)
    requires (forall q :: q in order ==> q in out) && x.ops == Ops(order, out, prev, paths) && x.n <= |x.ops|
    ensures PutsPath(x, p) <==> p in order[..if x.n <= |order| then x.n else |order|]
  {
    var k := if x.n <= |order| then x.n else |order|;
    if p in order[..k] {
      var i :| 0 <= i < k && order[..k][i] == p;
      assert x.ops[i] == Puts(order, out)[i];
    }
    if PutsPath(x, p) {
      var i :| 0 <= i < x.n && i < |x.ops| && x.ops[i].Put? && x.ops[i].path == p;
      assert x.ops[i] == Puts(order, out)[i];
      assert order[..k][i] == p;
    }
  }

  lemma {:induction false} PutsAdd(
    s: State, order: seq<string>, out: map<string, Bytes>, k: nat, p: string)
    requires k <= |order| && forall q :: q in order ==> q in out
    ensures var t := Exec(s, Puts(order, out)[..k]);
      t.marker == s.marker && (p in t.files <==> p in s.files || p in order[..k])
  {
    AfterPuts(s, order, out, k);
  }

  lemma {:induction false} RemovesSpare(s: State, out: map<string, Bytes>, prev: seq<string>, k: nat, p: string)
    requires k <= |Stale(prev, out)| && p !in prev
    ensures var t := Exec(s, Removes(Stale(prev, out))[..k]); t.marker == s.marker && (p in t.files <==> p in s.files)
  {
    AfterRemoves(s, Stale(prev, out), k);
    StaleMembers(prev, out);
    assert p !in Stale(prev, out)[..k];
  }

  lemma {:induction false} PartOfPlan(
    s: State, order: seq<string>, out: map<string, Bytes>, prev: seq<string>, paths: seq<string>, n: nat, p: string)
    requires (forall q :: q in order ==> q in out) && n < |Ops(order, out, prev, paths)| && p !in prev
    ensures var t, k := Exec(s, Ops(order, out, prev, paths)[..n]), if n <= |order| then n else |order|;
      t.marker == s.marker && (p in t.files <==> p in s.files || p in order[..k])
  {
    PrefixPhases(s, order, out, prev, paths, n);
    var k := |order|;
    assert Puts(order, out)[..k] == Puts(order, out);
    PutsAdd(s, order, out, if n <= k then n else k, p);
    if n > k { RemovesSpare(Exec(s, Puts(order, out)), out, prev, n - k, p); }
  }

  lemma {:induction false} BrokenOffOrphans(s: State, t: State, x: Try, p: string)
    requires ReadMarker(s).Ok? && Tried(s, t, x) && x.n < |x.ops|
    ensures Orphan(t, p) <==> Orphan(s, p) || MakesOrphan(s, x, p)
  {
    var prev := ReadMarker(s).value;
    var order: seq<string>, paths: seq<string> :| IsOrder(order, x.out.Keys) && PathList(paths, x.out.Keys)
      && (forall q :: q in order ==> q in x.out) && x.ops == Ops(order, x.out, prev, paths);
    LeaveKeeps(s, x.ops, x.n, x.fault);
    PlannedPuts(order, x.out, prev, paths, x, p);
    if p !in prev {
      PartOfPlan(s, order, x.out, prev, paths, x.n, p);
    } else {
      MarkerKept(s, order, x.out, prev, paths, x.n);
    }
  }

  lemma {:induction false} MarkerKept(
    s: State, order: seq<string>, out: map<string, Bytes>, prev: seq<string>, paths: seq<string>, n: nat)
    requires (forall q :: q in order ==> q in out) && n < |Ops(order, out, prev, paths)|
    ensures Exec(s, Ops(order, out, prev, paths)[..n]).marker == s.marker
  {
    PrefixPhases(s, order, out, prev, paths, n);
    var k := |order|;
    assert Puts(order, out)[..k] == Puts(order, out);
    AfterPuts(s, order, out, if n <= k then n else k);
    if n > k { AfterRemoves(Exec(s, Puts(order, out)), Stale(prev, out), n - k); }
  }

  lemma {:induction false} CompletedOrphans(s: State, t: State, x: Try, p: string)
    requires Completes(s, x) && Tried(s, t, x)
    ensures Orphan(t, p) <==> Orphan(s, p) && p !in x.out
    ensures p in t.files <==> p in x.out || Orphan(t, p)
  {
    CompleteWrite(s, x.ops, x.out, ReadMarker(s).value);
    PathListMembers(t.marker.paths, x.out.Keys);
  }

  /** A complete export takes over the orphans among its output, and prunes none; one that
      was broken off adds those of its files that the previous marker lacks. */
  lemma {:induction false} OrphansAfterTry(s: State, t: State, x: Try, p: string)
    requires Tried(s, t, x)
    ensures Orphan(t, p) <==>
      if Completes(s, x) then Orphan(s, p) && p !in x.out else Orphan(s, p) || MakesOrphan(s, x, p)
  {
    if Completes(s, x) { CompletedOrphans(s, t, x, p); } else if ReadMarker(s).Ok? { BrokenOffOrphans(s, t, x, p); }
  }

  ghost predicate TriedInTurn(states: seq<State>, tries: seq<Try>) {
    |states| == |tries| + 1 && forall i :: 0 <= i < |tries| ==> Tried(states[i], states[i + 1], tries[i])
  }

  /** Some complete export from lo on has p in its output. */
  predicate Adopted(states: seq<State>, tries: seq<Try>, lo: nat, k: nat, p: string)
    requires k <= |tries| < |states|
  {
    exists i :: lo <= i < k && Completes(states[i], tries[i]) && p in tries[i].out
  }

  predicate OrphanedAt(states: seq<State>, tries: seq<Try>, j: nat, k: nat, p: string)
    requires k <= |tries| < |states|
  {
    j < k && MakesOrphan(states[j], tries[j], p) && !Adopted(states, tries, j + 1, k, p)
  }

  ghost predicate EverOrphaned(states: seq<State>, tries: seq<Try>, k: nat, p: string)
    requires k <= |tries| < |states|
  {
    exists j: nat :: OrphanedAt(states, tries, j, k, p)
  }

  lemma {:induction false} AdoptedMore(states: seq<State>, tries: seq<Try>, lo: nat, k: nat, p: string)
    requires lo <= k < |tries| < |states|
    ensures Adopted(states, tries, lo, k + 1, p) <==>
      Adopted(states, tries, lo, k, p) || (Completes(states[k], tries[k]) && p in tries[k].out)
  {
  }

  lemma {:induction false} OrphanedMore(states: seq<State>, tries: seq<Try>, k: nat, p: string)
    requires k < |tries| < |states|
    ensures EverOrphaned(states, tries, k + 1, p) <==>
      || MakesOrphan(states[k], tries[k], p)
      || (EverOrphaned(states, tries, k, p) && !(Completes(states[k], tries[k]) && p in tries[k].out))
  {
    if EverOrphaned(states, tries, k + 1, p) {
      var j: nat :| OrphanedAt(states, tries, j, k + 1, p);
      if j < k {
        AdoptedMore(states, tries, j + 1, k, p);
        assert OrphanedAt(states, tries, j, k, p);
      }
    }
    if EverOrphaned(states, tries, k, p) && !(Completes(states[k], tries[k]) && p in tries[k].out) {
      var j: nat :| OrphanedAt(states, tries, j, k, p);
      AdoptedMore(states, tries, j + 1, k, p);
      assert OrphanedAt(states, tries, j, k + 1, p);
    }
    if MakesOrphan(states[k], tries[k], p) { assert OrphanedAt(states, tries, k, k + 1, p); }
  }

  /** Over every sequence of exports, some refused, some broken off: a file that the marker
      does not list, and that no export will remove, is exactly one that was such from the
      start or was left so by a broken-off export, and that no complete export since has had
      in its output. */
  lemma {:induction false} OrphansExactly(states: seq<State>, tries: seq<Try>, k: nat, p: string)
    requires TriedInTurn(states, tries) && k <= |tries|
    ensures Orphan(states[k], p) <==>
      (Orphan(states[0], p) && !Adopted(states, tries, 0, k, p)) || EverOrphaned(states, tries, k, p)
  {
    if k > 0 {
      OrphansExactly(states, tries, k - 1, p);
      OrphansAfterTry(states[k - 1], states[k], tries[k - 1], p);
      AdoptedMore(states, tries, 0, k - 1, p);
      OrphanedMore(states, tries, k - 1, p);
    }
  }

  /** So after a complete export into a directory that was empty at first, the files are
      those of the output and those that broken-off exports left for good. */
  lemma {:induction false} LeftBehindExactly(states: seq<State>, tries: seq<Try>, k: nat, p: string)
    requires TriedInTurn(states, tries) && k < |tries| && states[0].files == map[]
    requires Completes(states[k], tries[k])
    ensures p in states[k + 1].files <==> p in tries[k].out || EverOrphaned(states, tries, k + 1, p)
  {
    OrphansExactly(states, tries, k + 1, p);
    CompletedOrphans(states[k], states[k + 1], tries[k], p);
  }

  /** One attempt to export: refused, or carried some way and then ended or crashed. */
  ghost predicate Attempt(before: State, after: State, out: map<string, Bytes>) {
    match ReadMarker(before)
    case Err => after == before
    case Ok(prev) => exists n: nat, fault :: Reaches(before, after, out, prev, n, fault)
  }

  ghost predicate Exported(rd: Reader, states: seq<State>, outs: seq<map<string, Bytes>>, i: nat)
    requires i < |outs| && |states| == |outs| + 1
  {
    OutOk(rd, outs[i]) && Attempt(states[i], states[i + 1], outs[i])
  }

  lemma {:induction false} KeptThroughout(rd: Reader, states: seq<State>, k: nat)
    requires k < |states| && Closed(rd, states[0].files)
    requires forall i :: 0 <= i < k && Closed(rd, states[i].files) ==> Closed(rd, states[i + 1].files)
    ensures Closed(rd, states[k].files)
  {
    if k > 0 {
      KeptThroughout(rd, states, k - 1);
      assert Closed(rd, states[k - 1 + 1].files);
    }
  }

  lemma {:induction false} ExportKeepsClosed(rd: Reader, states: seq<State>, outs: seq<map<string, Bytes>>, i: nat)
    requires Tiered(rd) && |states| == |outs| + 1 && i < |outs|
    requires Exported(rd, states, outs, i) && Closed(rd, states[i].files)
    ensures Closed(rd, states[i + 1].files)
  {
    AttemptKeepsClosed(rd, states[i], states[i + 1], outs[i]);
  }

  /** Over every sequence of exports, each crashing anywhere: the repository on disk is
      closed whenever anyone looks. */
  lemma {:induction false} EveryRunStaysClosed(rd: Reader, states: seq<State>, outs: seq<map<string, Bytes>>, k: nat)
    requires Tiered(rd) && |states| == |outs| + 1 && k < |states|
    requires Closed(rd, states[0].files)
    requires forall i :: 0 <= i < |outs| ==> Exported(rd, states, outs, i)
    ensures Closed(rd, states[k].files)
  {
    forall i | 0 <= i < k && Closed(rd, states[i].files) ensures Closed(rd, states[i + 1].files) {
      ExportKeepsClosed(rd, states, outs, i);
    }
    KeptThroughout(rd, states, k);
  }

  lemma {:induction false} AttemptKeepsClosed(rd: Reader, s: State, t: State, out: map<string, Bytes>)
    requires Tiered(rd) && Closed(rd, s.files) && OutOk(rd, out) && Attempt(s, t, out)
    ensures Closed(rd, t.files)
  {
    if ReadMarker(s).Ok? {
      var prev := ReadMarker(s).value;
      var n: nat, fault :| Reaches(s, t, out, prev, n, fault);
      var ops: seq<Op> :| IsPlan(ops, out, prev) && n <= |ops| && t == Stopped(s, ops, n, fault);
      ClosedAtEveryStep(rd, s, ops, out, prev, n, fault);
    }
  }

  // ----- two places where the discipline has an end -------------------------

  /** A first export that fails leaves a directory without a marker. Every later export is
      refused then, until someone empties it, exactly when any entry was left: a file that
      had landed, a temporary file, or a subdirectory made for the first file. */
  lemma {:induction false} InterruptedFirstExport(ops: seq<Op>, out: map<string, Bytes>, n: nat, fault: Fault)
    requires IsPlan(ops, out, []) && n < |ops|
    ensures ReadMarker(Stopped(State(map[], NoMarker, false), ops, n, fault)).Err? <==>
            n > 0 || fault.AfterTemp? || (fault.AfterDirs? && '/' in Target(ops[0]))
  {
    var order: seq<string>, paths: seq<string> :| IsOrder(order, out.Keys) && PathList(paths, out.Keys)
      && (forall q :: q in order ==> q in out) && ops == Ops(order, out, [], paths);
    assert Stale([], out) == [];
    LeaveKeeps(State(map[], NoMarker, false), ops, n, fault);
    if n > 0 { SomethingLanded(order, out, paths, n); } else { assert ops[..0] == [] && !ops[0].Remove?; }
  }

  lemma {:induction false} SomethingLanded(order: seq<string>, out: map<string, Bytes>, paths: seq<string>, n: nat)
    requires (forall q :: q in order ==> q in out) && 0 < n < |Ops(order, out, [], paths)|
    ensures var t := Exec(State(map[], NoMarker, false), Ops(order, out, [], paths)[..n]);
      t.files != map[] && t.marker == NoMarker
  {
    var s := State(map[], NoMarker, false);
    assert Stale([], out) == [];
    PrefixPhases(s, order, out, [], paths, n);
    AfterPuts(s, order, out, n);
    assert order[..n][0] in order[..n];
    assert order[0] in Exec(s, Ops(order, out, [], paths)[..n]).files;
  }

  // ----- path prefixes ------------------------------------------------------

  /** Where the site's InRelease and by-hash files go under a path prefix ("" or "a/b/"). */
  function InReleaseAt(prefix: string): string { prefix + "dists/stable/InRelease" }

  function ByHashAt(prefix: string, arch: string, hash: string): string {
    prefix + "dists/stable/main/binary-" + arch + "/by-hash/SHA256/" + hash
  }

  /** The tiers test the literal head dists/, and look for /by-hash/ anywhere. */
  predicate GoodPrefix(prefix: string) {
    HasPrefix(InReleaseAt(prefix), "dists/") && !Contains(InReleaseAt(prefix), "/by-hash/")
  }

  lemma {:induction false} PathsUnder(prefix: string, arch: string, hash: string)
    ensures InReleaseAt(prefix) == prefix + "dists/stable/" + "InRelease"
    ensures InReleaseAt(prefix) == prefix + "dists/stable" + "/" + "InRelease"
    ensures ByHashAt(prefix, arch, hash)
      == prefix + "dists/stable/" + ("main/binary-" + arch + "/by-hash/SHA256/" + hash)
    ensures ByHashAt(prefix, arch, hash)
      == prefix + "dists/stable/main/binary-" + arch + "/by-hash/" + ("SHA256/" + hash)
  {
    assert "/by-hash/" + ("SHA256/" + hash) == "/by-hash/SHA256/" + hash;
    assert "dists/stable/main/binary-" == "dists/stable/" + "main/binary-";
  }

  lemma {:induction false} SameHead(h: string, x: string, y: string)
    requires |h| >= 6
    ensures HasPrefix(h + x, "dists/") <==> HasPrefix(h + y, "dists/")
  {
    assert (h + x)[..6] == h[..6] && (h + y)[..6] == h[..6];
  }

  lemma {:induction false} GoodTiers(prefix: string, arch: string, hash: string)
    requires GoodPrefix(prefix)
    ensures Tier(InReleaseAt(prefix)) == 5 && Tier(ByHashAt(prefix, arch, hash)) == 1
  {
    PathsUnder(prefix, arch, hash);
    LastPart(prefix + "dists/stable", "InRelease", InReleaseAt(prefix));
    LastTier(InReleaseAt(prefix));
    SameHead(prefix + "dists/stable/", "InRelease", "main/binary-" + arch + "/by-hash/SHA256/" + hash);
    ByHashTier(prefix + "dists/stable/main/binary-" + arch, "SHA256/" + hash);
  }

  /** Outside dists/ both have the first tier; under it, both that of by-hash files. */
  lemma {:induction false} BadTiers(prefix: string, arch: string, hash: string)
    requires !GoodPrefix(prefix)
    ensures Tier(InReleaseAt(prefix)) == Tier(ByHashAt(prefix, arch, hash))
  {
    PathsUnder(prefix, arch, hash);
    SameHead(prefix + "dists/stable/", "InRelease", "main/binary-" + arch + "/by-hash/SHA256/" + hash);
    if HasPrefix(InReleaseAt(prefix), "dists/") {
      ByHashTier(prefix + "dists/stable/main/binary-" + arch, "SHA256/" + hash);
      ByHashIsFirst(InReleaseAt(prefix));
    }
  }

  lemma {:induction false} ByHashIsFirst(p: string)
    requires HasPrefix(p, "dists/") && Contains(p, "/by-hash/")
    ensures Tier(p) == 1
  {
  }

  lemma {:induction false} InReleaseSortsFirst(prefix: string, arch: string, hash: string)
    ensures Less(InReleaseAt(prefix), ByHashAt(prefix, arch, hash))
  {
    PathsUnder(prefix, arch, hash);
    CommonPrefix(prefix + "dists/stable/", "InRelease", "main/binary-" + arch + "/by-hash/SHA256/" + hash);
  }

  lemma {:induction false} SameTierByBytes(p: string, q: string)
    requires Tier(p) == Tier(q) && Less(p, q)
    ensures TierLe(p, q) && !TierLe(q, p)
  {
    LessAsymmetric(p, q);
  }

  lemma {:induction false} LowerTierBefore(p: string, q: string)
    requires Tier(p) < Tier(q)
    ensures TierLe(p, q) && !TierLe(q, p)
  {
  }

  /** Under every prefix the by-hash files and InRelease are strictly ordered: leaves
      first exactly under a good one. */
  lemma {:induction false} PrefixOrderExactly(prefix: string, arch: string, hash: string)
    ensures var a, b := InReleaseAt(prefix), ByHashAt(prefix, arch, hash);
      && (TierLe(b, a) && !TierLe(a, b) <==> GoodPrefix(prefix))
      && (TierLe(a, b) && !TierLe(b, a) <==> !GoodPrefix(prefix))
  {
    if GoodPrefix(prefix) {
      GoodTiers(prefix, arch, hash);
      LowerTierBefore(ByHashAt(prefix, arch, hash), InReleaseAt(prefix));
    } else {
      BadTiers(prefix, arch, hash);
      InReleaseSortsFirst(prefix, arch, hash);
      SameTierByBytes(InReleaseAt(prefix), ByHashAt(prefix, arch, hash));
    }
  }

  /** No prefix at all is good ... */
  lemma {:induction false} NoPrefixIsGood(prefix: string)
    requires prefix == ""
    ensures GoodPrefix(prefix)
  {
    InReleaseNotByHash();
    InReleaseUnderDists();
    assert InReleaseAt(prefix) == INRELEASE;
  }

  /** ... one outside dists/ is not ... */
  lemma {:induction false} OutsideDistsIsBad(prefix: string)
    requires prefix != "" && prefix[0] != 'd'
    ensures !GoodPrefix(prefix)
  {
    assert InReleaseAt(prefix)[0] == prefix[0];
  }

  /** ... nor one under it with a directory named by-hash, such as dists/by-hash/. */
  lemma {:induction false} ByHashDirectoryIsBad(head: string, rest: string)
    ensures !GoodPrefix(head + "/by-hash/" + rest)
  {
    Found(head, "/by-hash/", rest + "dists/stable/InRelease");
    assert InReleaseAt(head + "/by-hash/" + rest) == head + "/by-hash/" + (rest + "dists/stable/InRelease");
  }

  /** A client of the repository under a prefix. */
  ghost predicate ReadsUnder(rd: Reader, prefix: string) {
    && rd.inRelease == InReleaseAt(prefix)
    && (forall p :: rd.byHash(p) ==> exists arch, hash :: p == ByHashAt(prefix, arch, hash))
    && (forall b, r :: r in rd.refs(b) ==> rd.byHash(r))
  }

  lemma {:induction false} GoodPrefixIsTiered(rd: Reader, prefix: string)
    requires ReadsUnder(rd, prefix) && GoodPrefix(prefix)
    ensures Tiered(rd)
  {
    GoodTiers(prefix, "", "");
    forall p | rd.byHash(p) ensures Tier(p) == 1 {
      var arch, hash :| p == ByHashAt(prefix, arch, hash);
      GoodTiers(prefix, arch, hash);
    }
  }

  /** Whatever the new InRelease names is on disk already. */
  predicate NamedAlready(rd: Reader, files: map<string, Bytes>, out: map<string, Bytes>)
    requires rd.inRelease in out
  {
    forall r :: r in rd.refs(out[rd.inRelease]) ==> r in files && Addressed(rd, r, files[r])
  }

  /** Under a bad prefix InRelease lands before everything it names. */
  lemma {:induction false} BadPrefixOpens(
    rd: Reader, s: State, order: seq<string>, out: map<string, Bytes>, prefix: string) returns (k: nat)
    requires ReadsUnder(rd, prefix) && !GoodPrefix(prefix) && OutOk(rd, out)
    requires IsOrder(order, out.Keys) && (forall p :: p in order ==> p in out) && !NamedAlready(rd, s.files, out)
    ensures k <= |order| && !Closed(rd, Exec(s, Puts(order, out)[..k]).files)
  {
    var r :| r in rd.refs(out[rd.inRelease]) && !(r in s.files && Addressed(rd, r, s.files[r]));
    InReleaseBeforeNamed(rd, r, prefix);
    k := FirstWithout(order, out.Keys, rd.inRelease, r);
    AfterPuts(s, order, out, k);
    NamedMissing(rd, s.files, out, order[..k], Exec(s, Puts(order, out)[..k]).files, r);
  }

  lemma {:induction false} InReleaseBeforeNamed(rd: Reader, r: string, prefix: string)
    requires ReadsUnder(rd, prefix) && !GoodPrefix(prefix) && rd.byHash(r)
    ensures TierLe(rd.inRelease, r) && !TierLe(r, rd.inRelease)
  {
    var arch, hash :| r == ByHashAt(prefix, arch, hash);
    PrefixOrderExactly(prefix, arch, hash);
  }

  lemma {:induction false} NamedMissing(
    rd: Reader, before: map<string, Bytes>, out: map<string, Bytes>, done: seq<string>, files: map<string, Bytes>,
    r: string)
    requires rd.inRelease in out && rd.inRelease in done && r !in done && r in rd.refs(out[rd.inRelease])
    requires !(r in before && Addressed(rd, r, before[r])) && forall p :: p in done ==> p in out
    requires forall p :: p in files <==> p in before || p in done
    requires forall p :: p in files ==> files[p] == if p in done then out[p] else before[p]
    ensures !Closed(rd, files)
  {
  }

  lemma {:induction false} KeptWhilePutting(rd: Reader, s: State, order: seq<string>, out: map<string, Bytes>, k: nat)
    requires OutOk(rd, out) && Closed(rd, s.files) && (forall b, r :: r in rd.refs(b) ==> rd.byHash(r))
    requires NamedAlready(rd, s.files, out) && k <= |order| && forall p :: p in order ==> p in out
    ensures Closed(rd, Exec(s, Puts(order, out)[..k]).files)
  {
    AfterPuts(s, order, out, k);
    var files := Exec(s, Puts(order, out)[..k]).files;
    if rd.inRelease in order[..k] {
      NamedStays(rd, s.files, out, order[..k], files);
    } else {
      OldInReleaseIsClosed(rd, s.files, out, order[..k], files);
    }
  }

  lemma {:induction false} NamedStays(
    rd: Reader, before: map<string, Bytes>, out: map<string, Bytes>, done: seq<string>, files: map<string, Bytes>)
    requires OutOk(rd, out) && (forall b, r :: r in rd.refs(b) ==> rd.byHash(r)) && NamedAlready(rd, before, out)
    requires rd.inRelease in done && forall p :: p in done ==> p in out
    requires forall p :: p in files <==> p in before || p in done
    requires forall p :: p in files ==> files[p] == if p in done then out[p] else before[p]
    ensures Closed(rd, files)
  {
  }

  lemma {:induction false} KeptAlongPlan(
    rd: Reader, s: State, order: seq<string>, out: map<string, Bytes>, prev: seq<string>, paths: seq<string>, n: nat)
    requires OutOk(rd, out) && Closed(rd, s.files) && (forall b, r :: r in rd.refs(b) ==> rd.byHash(r))
    requires NamedAlready(rd, s.files, out) && forall q :: q in order <==> q in out
    requires n <= |Ops(order, out, prev, paths)|
    ensures Closed(rd, Exec(s, Ops(order, out, prev, paths)[..n]).files)
  {
    PrefixPhases(s, order, out, prev, paths, n);
    var k, m := |order|, |Stale(prev, out)|;
    if n <= k {
      KeptWhilePutting(rd, s, order, out, n);
    } else {
      assert Removes(Stale(prev, out))[..m] == Removes(Stale(prev, out));
      ClosedWhilePruning(rd, s, order, out, prev, if n <= k + m then n - k else m);
    }
  }

  lemma {:induction false} OpenAlongPlan(
    s: State, order: seq<string>, out: map<string, Bytes>, prev: seq<string>, paths: seq<string>, k: nat)
    requires k <= |order| && forall p :: p in order ==> p in out
    ensures k <= |Ops(order, out, prev, paths)|
    ensures Exec(s, Ops(order, out, prev, paths)[..k]) == Exec(s, Puts(order, out)[..k])
  {
    PrefixPhases(s, order, out, prev, paths, k);
  }

  /** Under every prefix, an export onto a closed repository keeps it closed at every
      rename and removal exactly when the prefix is good, or whatever the new InRelease
      names is on disk already. */
  lemma {:induction false} PrefixedExportExactly(
    rd: Reader, s: State, ops: seq<Op>, out: map<string, Bytes>, prev: seq<string>, prefix: string)
    requires ReadsUnder(rd, prefix) && OutOk(rd, out) && Closed(rd, s.files) && IsPlan(ops, out, prev)
    ensures (forall n :: 0 <= n <= |ops| ==> Closed(rd, Exec(s, ops[..n]).files))
      <==> GoodPrefix(prefix) || NamedAlready(rd, s.files, out)
  {
    var order: seq<string>, paths: seq<string> :| IsOrder(order, out.Keys) && PathList(paths, out.Keys)
      && (forall q :: q in order ==> q in out) && ops == Ops(order, out, prev, paths);
    OrderMembers(order, out.Keys);
    if GoodPrefix(prefix) {
      GoodPrefixIsTiered(rd, prefix);
      forall n | 0 <= n <= |ops| ensures Closed(rd, Exec(s, ops[..n]).files) {
        ClosedAtEveryStep(rd, s, ops, out, prev, n, Traceless);
      }
    } else if NamedAlready(rd, s.files, out) {
      forall n | 0 <= n <= |ops| ensures Closed(rd, Exec(s, ops[..n]).files) {
        KeptAlongPlan(rd, s, order, out, prev, paths, n);
      }
    } else {
      var k := BadPrefixOpens(rd, s, order, out, prefix);
      OpenAlongPlan(s, order, out, prev, paths, k);
    }
  }

  lemma {:induction false} FirstWithout(order: seq<string>, keys: set<string>, a: string, b: string) returns (n: nat)
    requires IsOrder(order, keys) && a in keys && b in keys && TierLe(a, b) && !TierLe(b, a)
    ensures n <= |order| && a in order[..n] && b !in order[..n]
  {
    OrderMembers(order, keys);
    var i :| 0 <= i < |order| && order[i] == a;
    n := i + 1;
    assert order[..n][i] == a;
    forall j | 0 <= j < n ensures order[..n][j] != b { UpTo(order, j, i); }
  }

  lemma {:induction false} UpTo(order: seq<string>, j: nat, i: nat)
    requires Sorted(order, TierLe) && j <= i < |order|
    ensures TierLe(order[j], order[i])
  {
    LessAsymmetric(order[j], order[i]);
  }

  lemma {:induction false} ByHashTier(head: string, rest: string)
    requires HasPrefix(head + "/by-hash/" + rest, "dists/")
    ensures Tier(head + "/by-hash/" + rest) == 1
  {
    Found(head, "/by-hash/", rest);
  }

  lemma {:induction false} LastPart(head: string, last: string, p: string)
    requires Free(last, '/') && p == head + "/" + last
    ensures BaseName(p) == last
  {
    assert p[|head|] == '/' && forall k :: |head| < k < |p| ==> p[k] == last[k - |head| - 1];
    assert LastIndex(p, '/') == |head|;
  }

  lemma {:induction false} Found(head: string, sub: string, rest: string)
    ensures Contains(head + sub + rest, sub)
  {
    var s := head + sub + rest;
    if head == "" {
      assert s[..|sub|] == sub;
    } else {
      assert s[1..] == head[1..] + sub + rest;
      Found(head[1..], sub, rest);
    }
  }

  lemma {:induction false} CommonPrefix(h: string, x: string, y: string)
    requires x != "" && y != "" && x[0] < y[0]
    ensures Less(h + x, h + y)
  {
    if h != "" {
      assert (h + x)[1..] == h[1..] + x && (h + y)[1..] == h[1..] + y;
      CommonPrefix(h[1..], x, y);
    } else {
      assert h + x == x && h + y == y;
    }
  }

  // ----- what an export reports ---------------------------------------------

  predicate Distinct(paths: seq<string>) { forall i, j :: 0 <= i < j < |paths| ==> paths[i] != paths[j] }

  /** The paths of the previous marker that are not in the output. */
  function Left(prev: seq<string>, out: map<string, Bytes>): set<string> { set p | p in prev && p !in out }

  lemma {:induction false} LeftSnoc(prev: seq<string>, out: map<string, Bytes>)
    requires prev != [] && Distinct(prev)
    ensures var n := |prev| - 1;
      && prev[n] !in Left(prev[..n], out)
      && Left(prev, out) == Left(prev[..n], out) + if prev[n] in out then {} else {prev[n]}
  {
    var n := |prev| - 1;
    assert prev == prev[..n] + [prev[n]];
  }

  lemma {:induction false} StaleCounted(prev: seq<string>, out: map<string, Bytes>)
    requires Distinct(prev)
    ensures |Stale(prev, out)| == |Left(prev, out)|
  {
    if prev != [] {
      StaleCounted(prev[..|prev| - 1], out);
      LeftSnoc(prev, out);
    }
  }

  /** A successful export reports the files of its output as written, and as pruned the
      paths of the previous marker that are no longer in it. */
  lemma {:induction false} ReportExactly(
    before: State, budget: nat, fault: Fault, after: State, left: nat,
    out: map<string, Bytes>, prev: seq<string>, r: Result<Counts>)
    requires Written(before, budget, fault, after, left, out, prev, r) && Distinct(prev)
    ensures r.Ok? <==> budget >= |out| + |Left(prev, out)| + 1
    ensures r.Ok? ==> r.value.written == |out| && r.value.pruned == |Left(prev, out)|
  {
    StaleCounted(prev, out);
  }
}
