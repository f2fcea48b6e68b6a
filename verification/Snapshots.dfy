/** internal/signpost/refresh/snapshot.go and the carry-over of compose.go: what a path
    serves after a run of refresh ticks, each of which looks only at its predecessor. */
module Snapshots {
  import opened Text

  /** Something served under a path; without an expiry it lives until the next snapshot. */
  datatype Served<+V> = Served(content: V, expiresAt: Option<int>)

  datatype Body = Body(data: Bytes, contentType: string)

  datatype Snapshot = Snapshot(files: map<string, Served<Body>>, redirects: map<string, Served<string>>, builtAt: int)

  datatype Found = File(body: Body) | Redirect(url: string) | Miss

  /** Files win over redirects. */
  function Lookup(s: Snapshot, path: string): Found {
    if path in s.files then File(s.files[path].content)
    else if path in s.redirects then Redirect(s.redirects[path].content)
    else Miss
  }

  /** 30 minutes, in nanoseconds. */
  const RETENTION: int := 1_800_000_000_000

  predicate Alive<V>(e: Served<V>, now: int) { e.expiresAt.Some? && now < e.expiresAt.value }

  /** Newly made entries, and below them what the previous snapshot still holds alive. */
  function Carry<V>(made: map<string, Served<V>>, prev: map<string, Served<V>>, now: int): map<string, Served<V>> {
    (map p | p in prev && Alive(prev[p], now) :: prev[p]) + made
  }

  /** The part of a map that a loop over its keys has been through. */
  function Seen<V>(prev: map<string, V>, todo: set<string>): map<string, V> {
    map p | p in prev && p !in todo :: prev[p]
  }

  lemma {:induction false} CarryOneMore<V>(
    made: map<string, Served<V>>, prev: map<string, Served<V>>, now: int, todo: set<string>, p: string)
    requires todo <= prev.Keys && p in todo
    ensures var m := Carry(made, Seen(prev, todo), now);
      Carry(made, Seen(prev, todo - {p}), now) == if p !in m && Alive(prev[p], now) then m[p := prev[p]] else m
  {
  }

  method CarryOver<V>(made: map<string, Served<V>>, prev: map<string, Served<V>>, now: int)
      returns (m: map<string, Served<V>>)
    ensures m == Carry(made, prev, now)
  {
    m := made;
    var todo := prev.Keys;
    assert Seen(prev, todo) == map[];
    while todo != {}
      invariant todo <= prev.Keys && m == Carry(made, Seen(prev, todo), now)
    {
      var p :| p in todo;
      CarryOneMore(made, prev, now, todo, p);
      todo := todo - {p};
      if p !in m && Alive(prev[p], now) { m := m[p := prev[p]]; }
    }
    assert Seen(prev, {}) == prev;
  }

  // ----- a run of ticks -----------------------------------------------------

  /** A tick at a time: what it composed afresh, or None when it failed before publishing. */
  datatype Tick<V> = Tick(at: int, made: Option<map<string, Served<V>>>)

  /** What is published after the ticks; a failed tick keeps the prior snapshot. */
  function Published<V>(ticks: seq<Tick<V>>): map<string, Served<V>> {
    if ticks == [] then map[]
    else
      var before, last := Published(ticks[..|ticks| - 1]), ticks[|ticks| - 1];
      if last.made.None? then before else Carry(last.made.value, before, last.at)
  }

  predicate ClockAdvances<V>(ticks: seq<Tick<V>>) { forall i, j :: 0 <= i < j < |ticks| ==> ticks[i].at <= ticks[j].at }

  predicate Produces<V>(t: Tick<V>, path: string) { t.made.Some? && path in t.made.value }

  /** The last successful tick, and the last one that produced path itself; -1 if none. */
  function LastSuccess<V>(ticks: seq<Tick<V>>): (k: int)
    ensures -1 <= k < |ticks|
    ensures k >= 0 ==> ticks[k].made.Some?
    ensures forall i :: k < i < |ticks| ==> ticks[i].made.None?
  {
    if ticks == [] then -1
    else if ticks[|ticks| - 1].made.Some? then |ticks| - 1
    else LastSuccess(ticks[..|ticks| - 1])
  }

  function LastProducer<V>(ticks: seq<Tick<V>>, path: string): (k: int)
    ensures -1 <= k < |ticks|
    ensures k >= 0 ==> Produces(ticks[k], path)
    ensures forall i :: k < i < |ticks| ==> !Produces(ticks[i], path)
  {
    if ticks == [] then -1
    else if Produces(ticks[|ticks| - 1], path) then |ticks| - 1
    else LastProducer(ticks[..|ticks| - 1], path)
  }

  /** Carrying over from only the previous snapshot equals looking at the whole history:
      a path is served exactly when its last producer is the snapshot on display, or left
      an entry that is still alive then; and it serves that producer's value. */
  lemma {:induction false} CarryOverIsHistory<V>(ticks: seq<Tick<V>>, path: string)
    requires ClockAdvances(ticks)
    ensures var k, n := LastProducer(ticks, path), LastSuccess(ticks);
      && (path in Published(ticks) <==> k >= 0 && (k == n || Alive(ticks[k].made.value[path], ticks[n].at)))
      && (path in Published(ticks) ==> Published(ticks)[path] == ticks[k].made.value[path])
  {
    if ticks != [] {
      var m := |ticks| - 1;
      CarryOverIsHistory(ticks[..m], path);
    }
  }

  /** Every entry ever produced under path expires a retention after its tick. */
  predicate Expiring<V>(ticks: seq<Tick<V>>, path: string) {
    forall i :: 0 <= i < |ticks| && Produces(ticks[i], path) ==>
      ticks[i].made.value[path].expiresAt == Some(ticks[i].at + RETENTION)
  }

  predicate IsLastProducer<V>(ticks: seq<Tick<V>>, path: string, i: nat, n: nat)
    requires i <= n < |ticks|
  {
    Produces(ticks[i], path) && forall j :: i < j <= n ==> !Produces(ticks[j], path)
  }

  /** For an expiring path: served at t exactly when produced at t, or by some earlier
      successful tick at s with s + RETENTION > t; and the newest such value is served. */
  lemma {:induction false} ExpiringServedExactly<V>(ticks: seq<Tick<V>>, path: string)
    requires ClockAdvances(ticks) && Expiring(ticks, path) && LastSuccess(ticks) >= 0
    ensures var n := LastSuccess(ticks);
      && (path in Published(ticks) <==> exists i :: 0 <= i <= n && StillServed(ticks, path, i, n))
      && (path in Published(ticks) ==>
            forall i :: 0 <= i <= n && IsLastProducer(ticks, path, i, n) ==>
              Published(ticks)[path] == ticks[i].made.value[path])
  {
    var k, n := LastProducer(ticks, path), LastSuccess(ticks);
    CarryOverIsHistory(ticks, path);
    assert k <= n by { assert forall i :: n < i < |ticks| ==> !Produces(ticks[i], path); }
    if k >= 0 { assert path in Published(ticks) ==> StillServed(ticks, path, k, n); }
    if i :| 0 <= i <= n && StillServed(ticks, path, i, n) { LastProducerToo(ticks, path, i, n); }
  }

  /** Tick i produced path, and the entry it left is alive at tick n. */
  predicate StillServed<V>(ticks: seq<Tick<V>>, path: string, i: nat, n: nat)
    requires i <= n < |ticks|
  {
    Produces(ticks[i], path) && (i == n || ticks[i].at + RETENTION > ticks[n].at)
  }

  lemma {:induction false} LastProducerToo<V>(ticks: seq<Tick<V>>, path: string, i: nat, n: nat)
    requires ClockAdvances(ticks) && i <= n < |ticks| && StillServed(ticks, path, i, n)
      && LastProducer(ticks, path) <= n
    ensures var k := LastProducer(ticks, path); i <= k && StillServed(ticks, path, k, n)
  {
    var k := LastProducer(ticks, path);
    assert i <= k;
    assert ticks[i].at <= ticks[k].at || i == k;
  }

  // ----- what a holder shows ------------------------------------------------

  /** shown[k] is on display before tick k: nothing at first, then what tick k - 1 made on
      top of the one before, or still that one when it failed. */
  ghost predicate Shows<V>(ticks: seq<Tick<V>>, shown: seq<map<string, Served<V>>>) {
    && |shown| == |ticks| + 1 && shown[0] == map[]
    && forall k :: 0 <= k < |ticks| ==> shown[k + 1] == Shown(ticks[k], shown[k])
  }

  function Shown<V>(t: Tick<V>, before: map<string, Served<V>>): map<string, Served<V>> {
    if t.made.None? then before else Carry(t.made.value, before, t.at)
  }

  /** What is on display is what the whole history says. */
  lemma {:induction false} ShownIsPublished<V>(ticks: seq<Tick<V>>, shown: seq<map<string, Served<V>>>, k: nat)
    requires Shows(ticks, shown) && k <= |ticks|
    ensures Published(ticks[..k]) == shown[k]
  {
    if k > 0 {
      ShownIsPublished(ticks, shown, k - 1);
      assert ticks[..k][..k - 1] == ticks[..k - 1];
      assert shown[k - 1 + 1] == Shown(ticks[k - 1], shown[k - 1]);
    }
  }
}
