/** Go's sort.Strings, sort.Ints and sort.Slice, as insertion sort on values, and the
    one fact callers need: a sorted list is determined by its elements. */
module Sorting {
  import opened Text

  predicate Sorted<T>(xs: seq<T>, le: (T, T) -> bool) {
    forall i, j :: 0 <= i < j < |xs| ==> le(xs[i], xs[j])
  }

  ghost predicate TotalPreorder<T(!new)>(le: (T, T) -> bool) {
    && (forall x, y :: le(x, y) || le(y, x))
    && (forall x, y, z :: le(x, y) && le(y, z) ==> le(x, z))
  }

  function Insert<T>(x: T, xs: seq<T>, le: (T, T) -> bool): seq<T> {
    if xs == [] then [x]
    else if le(x, xs[0]) then [x] + xs
    else [xs[0]] + Insert(x, xs[1..], le)
  }

  function Sort<T>(xs: seq<T>, le: (T, T) -> bool): seq<T> {
    if xs == [] then [] else Insert(xs[0], Sort(xs[1..], le), le)
  }

  lemma {:induction false} InsertElements<T>(x: T, xs: seq<T>, le: (T, T) -> bool)
    ensures multiset(Insert(x, xs, le)) == multiset(xs) + multiset{x}
  {
    if xs != [] {
      assert xs == [xs[0]] + xs[1..];
      if !le(x, xs[0]) { InsertElements(x, xs[1..], le); }
    }
  }

  lemma {:induction false} InsertSorted<T(!new)>(x: T, xs: seq<T>, le: (T, T) -> bool)
    requires TotalPreorder(le) && Sorted(xs, le)
    ensures Sorted(Insert(x, xs, le), le)
  {
    if xs != [] && !le(x, xs[0]) {
      InsertSorted(x, xs[1..], le);
      InsertElements(x, xs[1..], le);
      var rest := Insert(x, xs[1..], le);
      forall k | 0 <= k < |rest| ensures le(xs[0], rest[k]) {
        assert rest[k] in multiset(rest);
        assert rest[k] in multiset(xs[1..]) + multiset{x};
      }
    }
  }

  lemma {:induction false} SortIsSorted<T(!new)>(xs: seq<T>, le: (T, T) -> bool)
    requires TotalPreorder(le)
    ensures Sorted(Sort(xs, le), le)
    ensures multiset(Sort(xs, le)) == multiset(xs)
  {
    if xs != [] {
      SortIsSorted(xs[1..], le);
      InsertSorted(xs[0], Sort(xs[1..], le), le);
      InsertElements(xs[0], Sort(xs[1..], le), le);
      assert xs == [xs[0]] + xs[1..];
    }
  }

  lemma {:induction false} WithoutFirst<T>(xs: seq<T>)
    requires xs != []
    ensures multiset(xs[1..]) == multiset(xs) - multiset{xs[0]} && xs == [xs[0]] + xs[1..]
  {
    assert xs == [xs[0]] + xs[1..];
  }

  /** Two sorted lists with the same elements are the same list, as long as the
      order tells those elements apart. */
  lemma {:induction false} SortedUnique<T>(xs: seq<T>, ys: seq<T>, le: (T, T) -> bool)
    requires Sorted(xs, le) && Sorted(ys, le)
    requires multiset(xs) == multiset(ys)
    requires forall x, y :: x in xs && y in xs && le(x, y) && le(y, x) ==> x == y
    ensures xs == ys
  {
    if xs == [] || ys == [] {
      assert |multiset(xs)| == |xs| && |multiset(ys)| == |ys|;
    } else {
      assert xs[0] in multiset(ys) && ys[0] in multiset(xs);
      assert xs[0] == ys[0];
      WithoutFirst(xs);
      WithoutFirst(ys);
      SortedUnique(xs[1..], ys[1..], le);
    }
  }

  /** Go's string order sorts strings. */
  lemma {:induction false} StringOrder()
    ensures TotalPreorder(AtMost)
  {
    forall s: string, t: string ensures AtMost(s, t) || AtMost(t, s) { LessAsymmetric(s, t); }
    forall s: string, t: string, u: string | AtMost(s, t) && AtMost(t, u) ensures AtMost(s, u) {
      AtMostTransitive(s, t, u);
    }
  }

  /** The paths of a map in sort.Strings order, each once. */
  ghost predicate PathList(paths: seq<string>, keys: set<string>) {
    Sorted(paths, AtMost) && multiset(paths) == multiset(keys)
  }

  lemma {:induction false} PathListMembers(paths: seq<string>, keys: set<string>)
    requires PathList(paths, keys)
    ensures forall p :: p in paths <==> p in keys
  {
    forall p ensures p in paths <==> p in keys {
      assert p in paths <==> p in multiset(paths);
      assert p in multiset(keys) <==> p in keys;
    }
  }

  method SortedPaths(keys: set<string>) returns (paths: seq<string>)
    ensures PathList(paths, keys)
  {
    var todo, picked: seq<string> := keys, [];
    while todo != {}
      invariant todo <= keys && multiset(picked) == multiset(keys - todo)
    {
      var p :| p in todo;
      assert keys - (todo - {p}) == (keys - todo) + {p};
      picked, todo := picked + [p], todo - {p};
    }
    StringOrder();
    SortIsSorted(picked, AtMost);
    assert keys - todo == keys;
    paths := Sort(picked, AtMost);
  }
}
