/** pkg/plan/version.go: the Debian version order of section 5.6.12 of Debian Policy. */
module Version {
  import opened Text

  // ----- character classes --------------------------------------------------

  predicate IsLetter(c: char) { 'a' <= c <= 'z' || 'A' <= c <= 'Z' }

  function OrderChar(c: char): int {
    if IsDigit(c) then 0
    else if IsLetter(c) then c as int
    else if c == '~' then -1
    else if c == NUL then 0
    else c as int + 256
  }

  predicate AtNonDigit(s: string) { s != "" && !IsDigit(s[0]) }

  /** What the walk sees at the front of s; the end of the string reads as NUL. */
  function HeadOrder(s: string): int { if s == "" then 0 else OrderChar(s[0]) }

  function Tail(s: string): string { if s == "" then "" else s[1..] }

  function DigitRun(s: string): (n: nat)
    ensures n <= |s| && AllDigits(s[..n]) && !(n < |s| && IsDigit(s[n]))
    ensures forall k :: 0 <= k < n ==> IsDigit(s[k])
  {
    if s == "" || !IsDigit(s[0]) then 0 else 1 + DigitRun(s[1..])
  }

  function LeadValue(s: string): nat { Value(s[..DigitRun(s)]) }

  function AfterDigits(s: string): string { s[DigitRun(s)..] }

  // ----- verrevcmp ----------------------------------------------------------

  function Sign(n: int): int { if n < 0 then -1 else if n > 0 then 1 else 0 }

  /** What verrevcmp decides, on every pair of strings: characters are compared by
      class while either side is at a non-digit, digit runs as natural numbers. */
  function Verrev(a: string, b: string): int
    decreases |a| + |b|
  {
    if a == "" && b == "" then 0
    else if AtNonDigit(a) || AtNonDigit(b) then
      var diff := HeadOrder(a) - HeadOrder(b);
      if diff != 0 then Sign(diff) else Verrev(Tail(a), Tail(b))
    else
      var diff := LeadValue(a) - LeadValue(b);
      if diff != 0 then Sign(diff) else Verrev(AfterDigits(a), AfterDigits(b))
  }

  /** Difference of the leftmost digits at which two equally long runs differ. */
  function FirstDiff(x: string, y: string): int
    requires |x| == |y|
  {
    if x == "" then 0
    else
      var d := FirstDiff(x[..|x| - 1], y[..|y| - 1]);
      if d != 0 then d else x[|x| - 1] as int - y[|y| - 1] as int
  }

  lemma {:induction false} FirstDiffDecides(x: string, y: string)
    requires |x| == |y| && AllDigits(x) && AllDigits(y)
    ensures Sign(Value(x) - Value(y)) == Sign(FirstDiff(x, y))
  {
    if x != "" { FirstDiffDecides(x[..|x| - 1], y[..|y| - 1]); }
  }

  lemma {:induction false} LeadingDigitCounts(x: string)
    requires AllDigits(x) && x != "" && x[0] != '0'
    ensures Value(x) > 0
  {
    if |x| > 1 { LeadingDigitCounts(x[..|x| - 1]); }
  }

  lemma {:induction false} LongerWins(x: string, y: string)
    requires AllDigits(x) && AllDigits(y) && |x| > |y| && x[0] != '0'
    ensures Value(x) > Value(y)
  {
    if y == "" {
      LeadingDigitCounts(x);
    } else {
      LongerWins(x[..|x| - 1], y[..|y| - 1]);
    }
  }

  lemma {:induction false} LeadingZero(x: string)
    requires AllDigits(x) && x != "" && x[0] == '0'
    ensures Value(x[1..]) == Value(x)
  {
    if |x| > 1 {
      LeadingZero(x[..|x| - 1]);
      assert x[..|x| - 1][1..] == x[1..][..|x[1..]| - 1];
    }
  }

  lemma {:induction false} FirstDiffStep(x: string, y: string, k: nat)
    requires k < |x| && k < |y|
    ensures FirstDiff(x[..k + 1], y[..k + 1]) ==
            if FirstDiff(x[..k], y[..k]) != 0 then FirstDiff(x[..k], y[..k]) else x[k] as int - y[k] as int
  {
    assert x[..k + 1][..k] == x[..k] && y[..k + 1][..k] == y[..k];
  }

  /** Zero-stripped runs scanned together until the shorter ends. */
  lemma {:induction false} RunsDecided(x: string, y: string, k: nat)
    requires AllDigits(x) && AllDigits(y)
    requires (x == "" || x[0] != '0') && (y == "" || y[0] != '0')
    requires k == if |x| < |y| then |x| else |y|
    ensures Sign(Value(x) - Value(y)) ==
            if k < |x| then 1 else if k < |y| then -1 else Sign(FirstDiff(x[..k], y[..k]))
  {
    if k < |x| {
      LongerWins(x, y);
    } else if k < |y| {
      LongerWins(y, x);
    } else {
      assert x[..k] == x && y[..k] == y;
      FirstDiffDecides(x, y);
    }
  }

  /** The end of the digit run of s that starts at i, as an index of s. */
  ghost predicate RunEnds(s: string, i: nat, e: nat) {
    && i <= e <= |s|
    && (forall k :: i <= k < e ==> IsDigit(s[k]))
    && !(e < |s| && IsDigit(s[e]))
  }

  lemma {:induction false} RunAt(s: string, i: nat) returns (e: nat)
    requires i <= |s|
    ensures RunEnds(s, i, e) && LeadValue(s[i..]) == Value(s[i..e]) && AfterDigits(s[i..]) == s[e..]
  {
    e := i + DigitRun(s[i..]);
    assert s[i..][..DigitRun(s[i..])] == s[i..e];
    assert forall k :: i <= k < e ==> s[k] == s[i..e][k - i];
    assert e < |s| ==> s[e] == s[i..][DigitRun(s[i..])];
  }

  method StripZeros(s: string, start: nat, ghost e: nat) returns (i: nat)
    requires RunEnds(s, start, e)
    ensures start <= i <= e && Value(s[i..e]) == Value(s[start..e]) && !(i < |s| && s[i] == '0')
  {
    i := start;
    while i < |s| && s[i] == '0'
      invariant start <= i <= e && Value(s[i..e]) == Value(s[start..e])
    {
      LeadingZero(s[i..e]);
      assert s[i..e][1..] == s[i + 1..e];
      i := i + 1;
    }
  }

  lemma {:induction false} FrontAt(s: string, i: nat)
    requires i <= |s|
    ensures HeadOrder(s[i..]) == OrderChar(if i < |s| then s[i] else NUL)
    ensures Tail(s[i..]) == s[if i < |s| then i + 1 else i..]
    ensures AtNonDigit(s[i..]) <==> i < |s| && !IsDigit(s[i])
  {
  }

  lemma {:induction false} VerrevWalks(u: string, v: string)
    requires AtNonDigit(u) || AtNonDigit(v)
    ensures Verrev(u, v) ==
      if HeadOrder(u) != HeadOrder(v) then Sign(HeadOrder(u) - HeadOrder(v))
      else Verrev(Tail(u), Tail(v))
  {
  }

  lemma {:induction false} VerrevRuns(u: string, v: string)
    requires !AtNonDigit(u) && !AtNonDigit(v)
    ensures Verrev(u, v) ==
      if LeadValue(u) != LeadValue(v) then Sign(LeadValue(u) - LeadValue(v))
      else Verrev(AfterDigits(u), AfterDigits(v))
  {
  }

  /** The inner walk: c is the answer when a class difference decides, and otherwise
      both sides stand at a digit or at their end. */
  method WalkNonDigits(a: string, b: string, i0: nat, j0: nat) returns (i: nat, j: nat, c: int)
    requires i0 <= |a| && j0 <= |b|
    ensures i0 <= i <= |a| && j0 <= j <= |b|
    ensures c != 0 ==> Verrev(a[i0..], b[j0..]) == c
    ensures c == 0 ==> Verrev(a[i0..], b[j0..]) == Verrev(a[i..], b[j..])
    ensures c == 0 ==> !AtNonDigit(a[i..]) && !AtNonDigit(b[j..])
  {
    i, j := i0, j0;
    ghost var u, v := a[i..], b[j..];
    ghost var goal := Verrev(u, v);
    while (i < |a| && !IsDigit(a[i])) || (j < |b| && !IsDigit(b[j]))
      invariant i0 <= i <= |a| && j0 <= j <= |b| && u == a[i..] && v == b[j..]
      invariant goal == Verrev(u, v)
      decreases |a| - i + |b| - j
    {
      FrontAt(a, i);
      FrontAt(b, j);
      VerrevWalks(u, v);
      u, v := Tail(u), Tail(v);
      var va := OrderChar(if i < |a| then a[i] else NUL);
      var vb := OrderChar(if j < |b| then b[j] else NUL);
      if va < vb { return i, j, -1; }
      if va > vb { return i, j, 1; }
      if i < |a| { i := i + 1; }
      if j < |b| { j := j + 1; }
    }
    FrontAt(a, i);
    FrontAt(b, j);
    c := 0;
  }

  lemma {:induction false} InRun(s: string, start: nat, i: nat, k: nat, e: nat)
    requires RunEnds(s, start, e) && start <= i <= k <= e
    ensures (k < |s| && IsDigit(s[k])) <==> k < e
    ensures AllDigits(s[i..e]) && (k < e ==> s[i..e][k - i] == s[k])
  {
  }

  /** The digit-run comparison: zeros stripped, then the longer run wins, then the
      first difference; c is the sign of the difference of the two numbers. */
  method CompareDigits(a: string, b: string, i0: nat, j0: nat, ghost ea: nat, ghost eb: nat)
      returns (i: nat, j: nat, c: int)
    requires RunEnds(a, i0, ea) && RunEnds(b, j0, eb)
    ensures c == Sign(Value(a[i0..ea]) - Value(b[j0..eb]))
    ensures c == 0 ==> i == ea && j == eb
  {
    var i1 := StripZeros(a, i0, ea);
    var j1 := StripZeros(b, j0, eb);
    ghost var x, y := a[i1..ea], b[j1..eb];
    i, j := i1, j1;
    InRun(a, i0, i1, i, ea);
    InRun(b, j0, j1, j, eb);
    var firstDiff := 0;
    while i < |a| && IsDigit(a[i]) && j < |b| && IsDigit(b[j])
      invariant i1 <= i <= ea && j1 <= j <= eb && i - i1 == j - j1
      invariant firstDiff == FirstDiff(x[..i - i1], y[..i - i1])
      decreases |a| - i
    {
      InRun(a, i0, i1, i, ea);
      InRun(b, j0, j1, j, eb);
      FirstDiffStep(x, y, i - i1);
      if firstDiff == 0 { firstDiff := a[i] as int - b[j] as int; }
      i, j := i + 1, j + 1;
    }
    InRun(a, i0, i1, i, ea);
    InRun(b, j0, j1, j, eb);
    RunsDecided(x, y, i - i1);
    if i < |a| && IsDigit(a[i]) { return i, j, 1; }
    if j < |b| && IsDigit(b[j]) { return i, j, -1; }
    c := if firstDiff < 0 then -1 else if firstDiff > 0 then 1 else 0;
  }

  method Verrevcmp(a: string, b: string) returns (c: int)
    ensures c == Verrev(a, b)
  {
    var i: nat, j: nat := 0, 0;
    ghost var goal := Verrev(a, b);
    while i < |a| || j < |b|
      invariant i <= |a| && j <= |b|
      invariant goal == Verrev(a[i..], b[j..])
      decreases |a| - i + |b| - j
    {
      i, j, c := WalkNonDigits(a, b, i, j);
      if c != 0 { return; }
      ghost var ea := RunAt(a, i);
      ghost var eb := RunAt(b, j);
      VerrevRuns(a[i..], b[j..]);
      i, j, c := CompareDigits(a, b, i, j, ea, eb);
      if c != 0 { return; }
    }
    c := 0;
  }

  // ----- the order verrevcmp refines ----------------------------------------

  /** A version component as the list of numbers that Policy compares in turn: the
      class of each non-digit, a 0 that ends a non-digit run, the value of a digit
      run. Beyond its end a key reads as zeros. */
  function Key(s: string): seq<int>
    decreases |s|
  {
    if s == "" then []
    else if !IsDigit(s[0]) then [OrderChar(s[0])] + Key(s[1..])
    else [0, LeadValue(s)] + Key(AfterDigits(s))
  }

  function At(p: seq<int>, i: nat): int { if i < |p| then p[i] else 0 }

  ghost predicate SameKey(p: seq<int>, q: seq<int>) { forall i: nat :: At(p, i) == At(q, i) }

  ghost predicate DiffersAt(p: seq<int>, q: seq<int>, k: nat) {
    At(p, k) < At(q, k) && forall i: nat :: i < k ==> At(p, i) == At(q, i)
  }

  ghost predicate Before(p: seq<int>, q: seq<int>) { exists k: nat :: DiffersAt(p, q, k) }

  function CompareKeys(p: seq<int>, q: seq<int>): int
    decreases |p| + |q|
  {
    if p == [] && q == [] then 0
    else if At(p, 0) != At(q, 0) then Sign(At(p, 0) - At(q, 0))
    else CompareKeys(if p == [] then [] else p[1..], if q == [] then [] else q[1..])
  }

  /** CompareKeys is the lexicographic comparison of zero-extended keys. */
  lemma {:induction false} CompareKeysIsLexicographic(p: seq<int>, q: seq<int>)
    ensures CompareKeys(p, q) == -1 <==> Before(p, q)
    ensures CompareKeys(p, q) == 0 <==> SameKey(p, q)
    ensures CompareKeys(p, q) == 1 <==> Before(q, p)
    decreases |p| + |q|
  {
    if p == [] && q == [] {
      assert SameKey(p, q);
    } else if At(p, 0) < At(q, 0) {
      assert DiffersAt(p, q, 0);
      assert forall k: nat :: !DiffersAt(q, p, k);
    } else if At(q, 0) < At(p, 0) {
      assert DiffersAt(q, p, 0);
      assert forall k: nat :: !DiffersAt(p, q, k);
    } else {
      var p', q' := if p == [] then [] else p[1..], if q == [] then [] else q[1..];
      CompareKeysIsLexicographic(p', q');
      ShiftedKeys(p, q, p', q');
      ShiftedKeys(q, p, q', p');
    }
  }

  lemma {:induction false} ShiftedKeys(p: seq<int>, q: seq<int>, p': seq<int>, q': seq<int>)
    requires At(p, 0) == At(q, 0)
    requires p' == (if p == [] then [] else p[1..]) && q' == (if q == [] then [] else q[1..])
    ensures SameKey(p, q) <==> SameKey(p', q')
    ensures Before(p, q) <==> Before(p', q')
  {
    assert forall i: nat :: At(p', i) == At(p, i + 1) && At(q', i) == At(q, i + 1);
    assert forall i: nat :: i > 0 ==> At(p, i) == At(p', i - 1) && At(q, i) == At(q', i - 1);
    if k: nat :| DiffersAt(p, q, k) {
      assert DiffersAt(p', q', k - 1);
    }
    if k: nat :| DiffersAt(p', q', k) {
      assert DiffersAt(p, q, k + 1);
    }
  }

  lemma {:induction false} CompareKeysTransitive(p: seq<int>, q: seq<int>, r: seq<int>)
    requires CompareKeys(p, q) <= 0 && CompareKeys(q, r) <= 0
    ensures CompareKeys(p, r) <= 0
    ensures CompareKeys(p, r) == 0 ==> CompareKeys(p, q) == 0 && CompareKeys(q, r) == 0
    decreases |p| + |q| + |r|
  {
    if !(p == [] && q == [] && r == []) && At(p, 0) == At(q, 0) == At(r, 0) {
      CompareKeysTransitive(if p == [] then [] else p[1..], if q == [] then [] else q[1..],
                            if r == [] then [] else r[1..]);
    }
  }

  // ----- which strings the order is sound on --------------------------------

  /** A NUL that does not directly follow a digit. The walk reads such a NUL as the
      end of a non-digit run, and steps over a digit of the other side with it. */
  predicate StrayNul(s: string, p: nat) {
    p < |s| && s[p] == NUL && (p == 0 || !IsDigit(s[p - 1]))
  }

  predicate NoStrayNul(s: string) { forall p: nat :: p < |s| ==> !StrayNul(s, p) }

  /** NoStrayNul, except that a NUL may come first when the other side has no digit there. */
  predicate Aligned(a: string, b: string) {
    && (forall p: nat :: 0 < p < |a| ==> !StrayNul(a, p))
    && (forall p: nat :: 0 < p < |b| ==> !StrayNul(b, p))
    && !(StrayNul(a, 0) && b != "" && IsDigit(b[0]))
    && !(StrayNul(b, 0) && a != "" && IsDigit(a[0]))
  }

  lemma {:induction false} AlignedTails(a: string, b: string)
    requires Aligned(a, b) && (AtNonDigit(a) || AtNonDigit(b)) && HeadOrder(a) == HeadOrder(b)
    ensures Aligned(Tail(a), Tail(b))
    ensures (a == "" || !IsDigit(a[0])) && (b == "" || !IsDigit(b[0]))
  {
    assert forall p: nat :: p + 1 < |a| ==> (StrayNul(Tail(a), p) ==> StrayNul(a, p + 1));
    assert forall p: nat :: p + 1 < |b| ==> (StrayNul(Tail(b), p) ==> StrayNul(b, p + 1));
  }

  lemma {:induction false} AlignedAfterDigits(a: string, b: string)
    requires Aligned(a, b) && !AtNonDigit(a) && !AtNonDigit(b)
    ensures Aligned(AfterDigits(a), AfterDigits(b))
  {
    AfterDigitsKeeps(a);
    AfterDigitsKeeps(b);
  }

  lemma {:induction false} AfterDigitsKeeps(s: string)
    requires forall p: nat :: 0 < p < |s| ==> !StrayNul(s, p)
    ensures forall p: nat :: 0 < p < |AfterDigits(s)| ==> !StrayNul(AfterDigits(s), p)
    ensures AfterDigits(s) == "" || !IsDigit(AfterDigits(s)[0])
  {
    var n := DigitRun(s);
    assert forall p: nat :: 0 < p < |s| - n ==> (StrayNul(AfterDigits(s), p) ==> StrayNul(s, n + p));
  }

  lemma {:induction false} AlignedVerrev(a: string, b: string)
    requires Aligned(a, b)
    ensures Verrev(a, b) == CompareKeys(Key(a), Key(b))
    decreases |a| + |b|
  {
    if a == "" && b == "" {
    } else if AtNonDigit(a) || AtNonDigit(b) {
      assert HeadOrder(a) == At(Key(a), 0) && HeadOrder(b) == At(Key(b), 0);
      if HeadOrder(a) == HeadOrder(b) {
        AlignedTails(a, b);
        AlignedVerrev(Tail(a), Tail(b));
        assert a != "" ==> Key(a)[1..] == Key(Tail(a));
        assert b != "" ==> Key(b)[1..] == Key(Tail(b));
      }
    } else {
      AlignedAfterDigits(a, b);
      DigitKey(a);
      DigitKey(b);
      var p, q := Key(a), Key(b);
      var p', q' := if p == [] then [] else p[1..], if q == [] then [] else q[1..];
      assert CompareKeys(p, q) == CompareKeys(p', q');
      if LeadValue(a) == LeadValue(b) {
        AlignedVerrev(AfterDigits(a), AfterDigits(b));
      }
    }
  }

  lemma {:induction false} DigitKey(s: string)
    requires !AtNonDigit(s)
    ensures At(Key(s), 0) == 0 && At(Key(s), 1) == LeadValue(s)
    ensures s == "" ==> LeadValue(s) == 0 && AfterDigits(s) == ""
    ensures s != "" ==> |Key(s)| >= 2 && Key(s)[1..][1..] == Key(AfterDigits(s))
  {
  }

  /** verrevcmp refines the simple order: on strings without a stray NUL it compares
      token keys, with zeros beyond the end. */
  lemma {:induction false} VerrevIsKeyOrder(a: string, b: string)
    requires NoStrayNul(a) && NoStrayNul(b)
    ensures Verrev(a, b) == CompareKeys(Key(a), Key(b))
  {
    AlignedVerrev(a, b);
  }

  lemma {:induction false} VerrevAntisymmetric(a: string, b: string)
    ensures Verrev(a, b) == -Verrev(b, a)
    decreases |a| + |b|
  {
    if a == "" && b == "" {
    } else if AtNonDigit(a) || AtNonDigit(b) {
      if HeadOrder(a) == HeadOrder(b) { VerrevAntisymmetric(Tail(a), Tail(b)); }
    } else if LeadValue(a) == LeadValue(b) {
      VerrevAntisymmetric(AfterDigits(a), AfterDigits(b));
    }
  }

  lemma {:induction false} VerrevReflexive(a: string)
    ensures Verrev(a, a) == 0
  {
    VerrevAntisymmetric(a, a);
  }

  // ----- a stray NUL breaks transitivity ------------------------------------

  lemma {:induction false} StrayNulMatchesDigit(s: string, q: nat, d: char)
    requires StrayNul(s, q) && IsDigit(d)
    ensures Verrev(s[q := d], s) == 0
    decreases |s|
  {
    var t := s[q := d];
    if q == 0 {
      assert t[1..] == s[1..];
      VerrevReflexive(s[1..]);
    } else if !IsDigit(s[0]) {
      assert t[1..] == s[1..][q - 1 := d];
      StrayNulMatchesDigit(s[1..], q - 1, d);
    } else {
      var n := DigitRun(s);
      SameRun(s, q, d);
      StrayNulMatchesDigit(s[n..], q - n, d);
    }
  }

  lemma {:induction false} SameRun(s: string, q: nat, d: char)
    requires StrayNul(s, q) && q > 0 && IsDigit(s[0]) && IsDigit(d)
    ensures var n := DigitRun(s);
      && 0 < n < q && DigitRun(s[q := d]) == n && LeadValue(s[q := d]) == LeadValue(s)
      && AfterDigits(s[q := d]) == s[n..][q - n := d] && StrayNul(s[n..], q - n)
  {
    var n, t := DigitRun(s), s[q := d];
    assert !IsDigit(s[q - 1]) && forall k :: 0 <= k < q ==> t[k] == s[k];
    assert DigitRun(t) == n;
    assert t[..n] == s[..n];
  }

  lemma {:induction false} HeadDigitOrders(x: string)
    requires AllDigits(x)
    ensures AllDigits("1" + x) && AllDigits("2" + x) && Value("1" + x) < Value("2" + x)
  {
    if x != "" {
      var x' := x[..|x| - 1];
      HeadDigitOrders(x');
      assert ("1" + x)[..|x|] == "1" + x' && ("2" + x)[..|x|] == "2" + x';
    }
  }

  lemma {:induction false} StrayNulSplits(s: string, q: nat)
    requires StrayNul(s, q)
    ensures Verrev(s[q := '1'], s[q := '2']) == -1
    decreases |s|
  {
    var t, u := s[q := '1'], s[q := '2'];
    if q == 0 {
      var n := DigitRun(s[1..]);
      assert t[1..] == s[1..] && u[1..] == s[1..];
      assert t[..n + 1] == "1" + s[1..][..n] && u[..n + 1] == "2" + s[1..][..n];
      HeadDigitOrders(s[1..][..n]);
    } else if !IsDigit(s[0]) {
      assert t[1..] == s[1..][q - 1 := '1'] && u[1..] == s[1..][q - 1 := '2'];
      StrayNulSplits(s[1..], q - 1);
    } else {
      SameRun(s, q, '1');
      SameRun(s, q, '2');
      StrayNulSplits(s[DigitRun(s)..], q - DigitRun(s));
    }
  }

  // ----- whole versions -----------------------------------------------------

  /** The debian-revision is what follows the last hyphen. */
  function SplitDebianRevision(v: string): (string, string) {
    var i := LastIndex(v, '-');
    if i >= 0 then (v[..i], v[i + 1..]) else (v, "")
  }

  datatype Parts = Parts(epoch: int, upstream: string, revision: string)

  /** Where the text after a valid epoch starts, and that epoch; (0, 0) without one. */
  function Epoch(v: string): (int, nat) {
    var i := Index(v, ':');
    if i < 0 then (0, 0)
    else match Atoi(v[..i])
      case None => (0, 0)
      case Some(n) => if n >= 0 then (n, i + 1) else (0, 0)
  }

  function SplitFull(v: string): Parts {
    var (epoch, start) := Epoch(v);
    var (upstream, revision) := SplitDebianRevision(v[start..]);
    Parts(epoch, upstream, revision)
  }

  function CompareParts(x: Parts, y: Parts): int {
    if x.epoch != y.epoch then Sign(x.epoch - y.epoch)
    else if Verrev(x.upstream, y.upstream) != 0 then Verrev(x.upstream, y.upstream)
    else Verrev(x.revision, y.revision)
  }

  function Compare(a: string, b: string): int { CompareParts(SplitFull(a), SplitFull(b)) }

  method CompareVersions(a: string, b: string) returns (c: int)
    ensures c == Compare(a, b)
  {
    var pa, pb := SplitFull(a), SplitFull(b);
    if pa.epoch != pb.epoch {
      if pa.epoch < pb.epoch { return -1; }
      return 1;
    }
    c := Verrevcmp(pa.upstream, pb.upstream);
    if c != 0 { return; }
    c := Verrevcmp(pa.revision, pb.revision);
  }

  lemma {:induction false} SplitKeepsNuls(r: string)
    requires NoStrayNul(r)
    ensures NoStrayNul(SplitDebianRevision(r).0) && NoStrayNul(SplitDebianRevision(r).1)
  {
    var (u, d) := SplitDebianRevision(r);
    var i := LastIndex(r, '-');
    assert forall p: nat :: p < |u| ==> (StrayNul(u, p) ==> StrayNul(r, p));
    assert i >= 0 ==> forall p: nat :: p < |d| ==> (StrayNul(d, p) ==> StrayNul(r, i + 1 + p));
  }

  lemma {:induction false} PartsKeepNuls(v: string)
    requires NoStrayNul(v)
    ensures NoStrayNul(SplitFull(v).upstream) && NoStrayNul(SplitFull(v).revision)
  {
    var (e, start) := Epoch(v);
    var r := v[start..];
    assert forall p: nat :: p < |r| ==> (StrayNul(r, p) ==> StrayNul(v, start + p));
    SplitKeepsNuls(r);
  }

  lemma {:induction false} CompareReflexive(a: string)
    ensures Compare(a, a) == 0
  {
    VerrevReflexive(SplitFull(a).upstream);
    VerrevReflexive(SplitFull(a).revision);
  }

  lemma {:induction false} CompareAntisymmetric(a: string, b: string)
    ensures Compare(a, b) == -Compare(b, a)
    ensures Compare(a, b) in {-1, 0, 1}
  {
    VerrevAntisymmetric(SplitFull(a).upstream, SplitFull(b).upstream);
    VerrevAntisymmetric(SplitFull(a).revision, SplitFull(b).revision);
    VerrevSign(SplitFull(a).upstream, SplitFull(b).upstream);
    VerrevSign(SplitFull(a).revision, SplitFull(b).revision);
  }

  lemma {:induction false} VerrevSign(a: string, b: string)
    ensures Verrev(a, b) in {-1, 0, 1}
    decreases |a| + |b|
  {
    if a == "" && b == "" {
    } else if AtNonDigit(a) || AtNonDigit(b) {
      if HeadOrder(a) == HeadOrder(b) { VerrevSign(Tail(a), Tail(b)); }
    } else if LeadValue(a) == LeadValue(b) {
      VerrevSign(AfterDigits(a), AfterDigits(b));
    }
  }

  lemma {:induction false} VerrevTransitive(a: string, b: string, c: string)
    requires NoStrayNul(a) && NoStrayNul(b) && NoStrayNul(c)
    requires Verrev(a, b) <= 0 && Verrev(b, c) <= 0
    ensures Verrev(a, c) <= 0
    ensures Verrev(a, c) == 0 ==> Verrev(a, b) == 0 && Verrev(b, c) == 0
  {
    VerrevIsKeyOrder(a, b);
    VerrevIsKeyOrder(b, c);
    VerrevIsKeyOrder(a, c);
    CompareKeysTransitive(Key(a), Key(b), Key(c));
  }

  /** With reflexivity and antisymmetry: a total preorder on versions without a stray
      NUL. Equality is transitive because antisymmetry turns it into both directions. */
  lemma {:induction false} CompareTransitive(a: string, b: string, c: string)
    requires NoStrayNul(a) && NoStrayNul(b) && NoStrayNul(c)
    requires Compare(a, b) <= 0 && Compare(b, c) <= 0
    ensures Compare(a, c) <= 0
    ensures Compare(a, c) == 0 <==> Compare(a, b) == 0 && Compare(b, c) == 0
  {
    PartsKeepNuls(a);
    PartsKeepNuls(b);
    PartsKeepNuls(c);
    PartsTransitive(SplitFull(a), SplitFull(b), SplitFull(c));
    if Compare(a, b) == 0 && Compare(b, c) == 0 {
      CompareAntisymmetric(a, b);
      CompareAntisymmetric(b, c);
      CompareAntisymmetric(a, c);
      PartsTransitive(SplitFull(c), SplitFull(b), SplitFull(a));
    }
  }

  predicate SoundParts(x: Parts) { NoStrayNul(x.upstream) && NoStrayNul(x.revision) }

  lemma {:induction false} PartsTransitive(x: Parts, y: Parts, z: Parts)
    requires SoundParts(x) && SoundParts(y) && SoundParts(z)
    requires CompareParts(x, y) <= 0 && CompareParts(y, z) <= 0
    ensures CompareParts(x, z) <= 0
    ensures CompareParts(x, z) == 0 ==> CompareParts(x, y) == 0 && CompareParts(y, z) == 0
  {
    if x.epoch == y.epoch == z.epoch {
      VerrevTransitive(x.upstream, y.upstream, z.upstream);
      if Verrev(x.upstream, z.upstream) == 0 {
        VerrevTransitive(x.revision, y.revision, z.revision);
      }
    }
  }

  // ----- a version with a stray NUL is equivalent to two ordered versions ----

  lemma {:induction false} WithExplicitEpoch(v: string) returns (e: string, r: string)
    ensures forall x: string :: Epoch(e + ":" + x) == (SplitFull(v).epoch, |e| + 1)
    ensures SplitFull(v) == PartsOf(SplitFull(v).epoch, r)
    ensures (exists p: nat :: StrayNul(v, p)) ==> exists q: nat :: StrayNul(r, q)
  {
    var (n, start) := Epoch(v);
    r := v[start..];
    if start == 0 {
      e := "0";
      assert "0"[..0] == "" && Value("0") == 0;
    } else {
      e := v[..start - 1];
    }
    forall x: string ensures Epoch(e + ":" + x) == (n, |e| + 1) {
      var w := e + ":" + x;
      assert w[|e|] == ':' && forall k :: 0 <= k < |e| ==> w[k] == e[k];
      assert Index(w, ':') == |e| && w[..|e|] == e;
    }
    if p: nat :| StrayNul(v, p) {
      if start > 0 {
        EpochHasNoNul(v[..start - 1]);
        assert forall k :: 0 <= k < start - 1 ==> v[k] == v[..start - 1][k];
        assert p >= start;
      }
      assert StrayNul(r, p - start);
    }
  }

  lemma {:induction false} EpochHasNoNul(s: string)
    requires Atoi(s).Some?
    ensures forall k :: 0 <= k < |s| ==> s[k] != NUL
  {
    var digits := if s[0] == '+' || s[0] == '-' then s[1..] else s;
    assert forall k :: 0 < k < |s| ==> s[k] == digits[k - (|s| - |digits|)];
  }

  lemma {:induction false} ReplaceInPart(r: string, q: nat, d: char)
    requires StrayNul(r, q) && IsDigit(d)
    ensures var i := LastIndex(r, '-'); var (u, v) := SplitDebianRevision(r);
      && SplitDebianRevision(r[q := d]) ==
         (if i < 0 || q < i then (u[q := d], v) else (u, v[q - i - 1 := d]))
      && (if i < 0 || q < i then StrayNul(u, q) else StrayNul(v, q - i - 1))
  {
    var i, t := LastIndex(r, '-'), r[q := d];
    assert forall k :: 0 <= k < |r| ==> (t[k] == '-' <==> r[k] == '-');
    assert LastIndex(t, '-') == i;
  }

  /** No order at all is possible once a stray NUL is allowed: v is equivalent to two
      versions of which one is strictly older. */
  lemma {:induction false} StrayNulBreaksOrder(v: string) returns (a: string, b: string)
    requires !NoStrayNul(v)
    ensures Compare(a, v) == 0 && Compare(v, b) == 0 && Compare(a, b) == -1
  {
    var e, r := WithExplicitEpoch(v);
    var q: nat :| StrayNul(r, q);
    a, b := e + ":" + r[q := '1'], e + ":" + r[q := '2'];
    assert a[|e| + 1..] == r[q := '1'] && b[|e| + 1..] == r[q := '2'];
    StrayNulBreaksParts(SplitFull(v).epoch, r, q);
  }

  function PartsOf(epoch: int, r: string): Parts {
    Parts(epoch, SplitDebianRevision(r).0, SplitDebianRevision(r).1)
  }

  lemma {:induction false} StrayNulBreaksParts(epoch: int, r: string, q: nat)
    requires StrayNul(r, q)
    ensures CompareParts(PartsOf(epoch, r[q := '1']), PartsOf(epoch, r)) == 0
    ensures CompareParts(PartsOf(epoch, r), PartsOf(epoch, r[q := '2'])) == 0
    ensures CompareParts(PartsOf(epoch, r[q := '1']), PartsOf(epoch, r[q := '2'])) == -1
  {
    ReplaceInPart(r, q, '1');
    ReplaceInPart(r, q, '2');
    var i := LastIndex(r, '-');
    var (up, rev) := SplitDebianRevision(r);
    VerrevReflexive(up);
    VerrevReflexive(rev);
    if i < 0 || q < i { StrayNulBetween(up, q); } else { StrayNulBetween(rev, q - i - 1); }
  }

  lemma {:induction false} StrayNulBetween(s: string, q: nat)
    requires StrayNul(s, q)
    ensures Verrev(s[q := '1'], s) == 0 && Verrev(s, s[q := '2']) == 0
    ensures Verrev(s[q := '1'], s[q := '2']) == -1
  {
    StrayNulMatchesDigit(s, q, '1');
    StrayNulMatchesDigit(s, q, '2');
    VerrevAntisymmetric(s[q := '2'], s);
    StrayNulSplits(s, q);
  }

  // ----- what the order says of single characters ---------------------------

  predicate StartsWithDigit(s: string) { s != "" && '0' <= s[0] <= '9' }

  predicate EndsWithDigit(s: string) { s != "" && '0' <= s[|s| - 1] <= '9' }

  /** What two strings share at the front does not matter, as long as no number is cut. */
  lemma {:induction false} SharedFront(x: string, s: string, t: string)
    requires EndsWithDigit(x) ==> !StartsWithDigit(s) && !StartsWithDigit(t)
    ensures Verrev(x + s, x + t) == Verrev(s, t)
    decreases |x|
  {
    if x == "" {
      assert x + s == s && x + t == t;
    } else if !IsDigit(x[0]) {
      assert (x + s)[1..] == x[1..] + s && (x + t)[1..] == x[1..] + t;
      SharedFront(x[1..], s, t);
    } else {
      SharedRun(x, s);
      SharedRun(x, t);
      VerrevRuns(x + s, x + t);
      SharedFront(x[DigitRun(x)..], s, t);
    }
  }

  lemma {:induction false} SharedRun(x: string, s: string)
    requires x != "" && IsDigit(x[0]) && (EndsWithDigit(x) ==> !StartsWithDigit(s))
    ensures LeadValue(x + s) == LeadValue(x) && AfterDigits(x + s) == x[DigitRun(x)..] + s
    ensures !AtNonDigit(x + s) && 0 < DigitRun(x)
  {
    var n := DigitRun(x);
    var rest := x[n..] + s;
    assert x + s == x[..n] + rest;
    DigitsFirst(x[..n], rest);
  }

  /** The letters of ASCII, by code. */
  predicate Alphabetic(c: char) { 65 <= c as int <= 90 || 97 <= c as int <= 122 }

  /** Which of two different characters that are no digits comes first: the tilde, then
      letters by byte, then all others by byte. */
  predicate ComesFirst(c: char, d: char) {
    if c == '~' || d == '~' then c == '~'
    else if Alphabetic(c) != Alphabetic(d) then Alphabetic(c)
    else c < d
  }

  /** A character that takes part in the comparison by class. */
  predicate Compared(c: char) { !('0' <= c <= '9') && c as int != 0 }

  lemma {:induction false} CharsDecide(c: char, y: string, d: char, z: string)
    requires Compared(c) && Compared(d) && c != d
    ensures Verrev([c] + y, [d] + z) == if ComesFirst(c, d) then -1 else 1
  {
    VerrevWalks([c] + y, [d] + z);
  }

  /** Only the tilde comes before the end of the string and before a digit. */
  lemma {:induction false} EndDecides(c: char, y: string, t: string)
    requires Compared(c) && (t == "" || StartsWithDigit(t))
    ensures Verrev([c] + y, t) == if c == '~' then -1 else 1
  {
    VerrevWalks([c] + y, t);
  }

  // ----- numbers with dots between them -------------------------------------

  lemma {:induction false} DigitsFirst(x: string, rest: string)
    requires AllDigits(x) && (rest == "" || !IsDigit(rest[0]))
    ensures DigitRun(x + rest) == |x| && LeadValue(x + rest) == Value(x) && AfterDigits(x + rest) == rest
  {
    var n := DigitRun(x + rest);
    assert forall k :: 0 <= k < |x| ==> (x + rest)[k] == x[k];
    assert rest != "" ==> (x + rest)[|x|] == rest[0];
    assert (x + rest)[..|x|] == x;
  }

  lemma {:induction false} DottedStep(x: string, r: string, y: string, q: string)
    requires AllDigits(x) && AllDigits(y) && x != "" && y != ""
    ensures Verrev(x + ("." + r), y + ("." + q)) ==
      if Value(x) != Value(y) then Sign(Value(x) - Value(y)) else Verrev(r, q)
  {
    DigitsFirst(x, "." + r);
    DigitsFirst(y, "." + q);
    VerrevRuns(x + ("." + r), y + ("." + q));
    VerrevWalks("." + r, "." + q);
    assert Tail("." + r) == r && Tail("." + q) == q;
  }

  lemma {:induction false} Numbers(x: string, y: string)
    requires AllDigits(x) && AllDigits(y)
    ensures Verrev(x, y) == Sign(Value(x) - Value(y))
  {
    assert x + "" == x && y + "" == y;
    DigitsFirst(x, "");
    DigitsFirst(y, "");
  }

  lemma {:induction false} PlainVersion(v: string)
    requires Free(v, ':') && Free(v, '-')
    ensures SplitFull(v) == Parts(0, v, "")
  {
    assert v[0..] == v;
  }

  lemma {:induction false} PlainCompare(v: string, w: string)
    requires Free(v, ':') && Free(v, '-') && Free(w, ':') && Free(w, '-')
    ensures Compare(v, w) == Verrev(v, w)
  {
    PlainVersion(v);
    PlainVersion(w);
    VerrevReflexive("");
  }

  lemma {:induction false} SameNumbers(x: string, r: string, q: string, v: string, w: string)
    requires AllDigits(x) && AllDigits(r) && AllDigits(q) && x != "" && Value(r) == Value(q)
    requires v == x + ("." + r) && w == x + ("." + q)
    ensures Verrev(v, w) == 0
  {
    DottedStep(x, r, x, q);
    Numbers(r, q);
  }

  /** 1.0 and 1.00 are one version in two spellings. */
  lemma {:induction false} RespelledEqual()
    ensures Compare("1.0", "1.00") == 0
  {
    ZerosAreZero();
    SameNumbers("1", "0", "00", "1.0", "1.00");
    PlainCompare("1.0", "1.00");
  }

  lemma {:induction false} ZerosAreZero()
    ensures AllDigits("0") && AllDigits("00") && Value("0") == 0 && Value("00") == 0
  {
    assert "00"[..1] == "0" && "0"[..0] == "";
  }

  // ----- what the order says of whole versions ------------------------------

  /** The debian-revision is cut off at the last hyphen. */
  lemma {:induction false} SplitAtLastHyphen(v: string, up: string, rev: string)
    requires v == up + "-" + rev && Free(rev, '-')
    ensures SplitDebianRevision(v) == (up, rev)
  {
    var n := |up|;
    assert v[n] == '-' && forall k :: n < k < |v| ==> v[k] == rev[k - n - 1];
    assert LastIndex(v, '-') == n && v[..n] == up && v[n + 1..] == rev;
  }

  lemma {:induction false} SplitOfHyphenFree(v: string)
    requires Free(v, '-')
    ensures SplitDebianRevision(v) == (v, "")
  {
  }

  lemma {:induction false} ColonAt(v: string, e: string, r: string)
    requires v == e + ":" + r && Free(e, ':')
    ensures Index(v, ':') == |e| && v[..|e|] == e && v[|e| + 1..] == r
  {
    assert v[|e|] == ':' && forall k :: 0 <= k < |e| ==> v[k] == e[k];
  }

  lemma {:induction false} ItoaHasNoColon(n: nat)
    ensures Free(Itoa(n), ':')
  {
    ItoaValue(n);
  }

  lemma {:induction false} WithEpoch(n: nat, r: string)
    ensures Epoch(Itoa(n) + ":" + r).0 == n && SplitFull(Itoa(n) + ":" + r) == PartsOf(n, r)
  {
    ItoaHasNoColon(n);
    ColonAt(Itoa(n) + ":" + r, Itoa(n), r);
    AtoiItoa(n);
  }

  /** A greater epoch is newer whatever follows it, a version without a colon has epoch 0,
      and what follows equal epochs decides. */
  lemma {:induction false} EpochsDecide(m: nat, x: string, n: nat, y: string)
    ensures m < n ==> Compare(Itoa(m) + ":" + x, Itoa(n) + ":" + y) == -1
    ensures 0 < n && Free(x, ':') ==> Compare(x, Itoa(n) + ":" + y) == -1
    ensures m == n && Free(x, ':') && Free(y, ':') ==> Compare(Itoa(m) + ":" + x, Itoa(n) + ":" + y) == Compare(x, y)
  {
    WithEpoch(m, x);
    WithEpoch(n, y);
    if Free(x, ':') { NoEpoch(x); }
    if Free(y, ':') { NoEpoch(y); }
  }

  lemma {:induction false} NoEpoch(x: string)
    requires Free(x, ':')
    ensures SplitFull(x) == PartsOf(0, x)
  {
    assert x[0..] == x;
  }

  lemma {:induction false} SameParts(v: string, w: string)
    requires SplitFull(v) == SplitFull(w)
    ensures Compare(v, w) == 0
  {
    VerrevReflexive(SplitFull(v).upstream);
    VerrevReflexive(SplitFull(v).revision);
  }

  /** Text that is no number, or a negative one. */
  predicate IsNoEpoch(e: string) {
    !IsNumeral(e) || (e[0] == '-' && AllDigits(e[1..]) && Value(e[1..]) > 0)
  }

  lemma {:induction false} BadEpochParts(e: string, r: string, v: string)
    requires Free(e, ':') && IsNoEpoch(e) && v == e + ":" + r
    ensures SplitFull(v) == PartsOf(0, v)
  {
    ColonAt(v, e, r);
    AtoiExactly(e);
    assert v[0..] == v;
  }

  /** What stands before the first colon is no part of a valid version number, and stays. */
  lemma {:induction false} BadEpochStays(e: string, r: string)
    requires Free(e, ':') && IsNoEpoch(e)
    ensures Compare(e + ":" + r, "0:" + (e + ":" + r)) == 0
  {
    var v := e + ":" + r;
    BadEpochParts(e, r, v);
    WithEpoch(0, v);
    assert Itoa(0) + ":" == "0:";
    SameParts(v, Itoa(0) + ":" + v);
  }

  lemma {:induction false} NumeralHasNoColon(e: string)
    requires IsNumeral(e)
    ensures Free(e, ':')
  {
    forall k | 0 <= k < |e| ensures e[k] != ':' {
      if Unsigned(e) == e { assert '0' <= Unsigned(e)[k] <= '9'; }
      else if k > 0 { assert '0' <= Unsigned(e)[k - 1] <= '9'; }
    }
  }

  /** An epoch counts as the number it denotes, however it is spelled. */
  lemma {:induction false} EpochByValue(e: string, r: string)
    requires IsNumeral(e) && e[0] != '-'
    ensures AllDigits(Unsigned(e)) && Compare(e + ":" + r, Itoa(Value(Unsigned(e))) + ":" + r) == 0
  {
    DigitsByRange(Unsigned(e));
    AtoiExactly(e);
    NumeralHasNoColon(e);
    var v, n := e + ":" + r, Value(Unsigned(e));
    ColonAt(v, e, r);
    assert Epoch(v) == (n, |e| + 1) && v[|e| + 1..] == r;
    WithEpoch(n, r);
    SameParts(v, Itoa(n) + ":" + r);
  }

  lemma {:induction false} EpochOfMore(x: string, s: string)
    requires Free(s, ':')
    ensures Epoch(x + s) == Epoch(x)
  {
    var i := Index(x, ':');
    assert forall k :: 0 <= k < |x| ==> (x + s)[k] == x[k];
    assert Index(x + s, ':') == i;
    if i >= 0 { assert (x + s)[..i] == x[..i]; }
  }

  lemma {:induction false} SplitOfMore(r: string, s: string)
    requires Free(s, '-')
    ensures var (up, rev) := SplitDebianRevision(r);
      SplitDebianRevision(r + s) == if '-' in r then (up, rev + s) else (r + s, "")
  {
    var i := LastIndex(r, '-');
    if i >= 0 {
      assert r == r[..i] + "-" + r[i + 1..];
      assert r + s == r[..i] + "-" + (r[i + 1..] + s);
      SplitAtLastHyphen(r + s, r[..i], r[i + 1..] + s);
    } else {
      SplitOfHyphenFree(r + s);
    }
  }

  /** The part of a version after its epoch. */
  function AfterEpoch(v: string): string { v[Epoch(v).1..] }

  lemma {:induction false} AfterEpochOfMore(x: string, s: string)
    requires Free(s, ':')
    ensures AfterEpoch(x + s) == AfterEpoch(x) + s && Epoch(x + s).0 == Epoch(x).0
  {
    EpochOfMore(x, s);
    assert (x + s)[Epoch(x).1..] == x[Epoch(x).1..] + s;
  }

  lemma {:induction false} InRevision(epoch: int, r: string, s: string, t: string)
    requires Free(s, '-') && Free(t, '-') && '-' in r
    requires EndsWithDigit(r) ==> !StartsWithDigit(s) && !StartsWithDigit(t)
    ensures CompareParts(PartsOf(epoch, r + s), PartsOf(epoch, r + t)) == Verrev(s, t)
  {
    SplitOfMore(r, s);
    SplitOfMore(r, t);
    var (up, rev) := SplitDebianRevision(r);
    VerrevReflexive(up);
    if EndsWithDigit(rev) { LastOfRevision(r); }
    SharedFront(rev, s, t);
  }

  lemma {:induction false} InUpstream(epoch: int, r: string, s: string, t: string)
    requires Free(s, '-') && Free(t, '-') && '-' !in r
    requires EndsWithDigit(r) ==> !StartsWithDigit(s) && !StartsWithDigit(t)
    ensures CompareParts(PartsOf(epoch, r + s), PartsOf(epoch, r + t)) == Verrev(s, t)
  {
    SplitOfMore(r, s);
    SplitOfMore(r, t);
    VerrevReflexive("");
    SharedFront(r, s, t);
  }

  lemma {:induction false} PartsAfter(epoch: int, r: string, s: string, t: string)
    requires Free(s, '-') && Free(t, '-') && (EndsWithDigit(r) ==> !StartsWithDigit(s) && !StartsWithDigit(t))
    ensures CompareParts(PartsOf(epoch, r + s), PartsOf(epoch, r + t)) == Verrev(s, t)
  {
    if '-' in r { InRevision(epoch, r, s, t); } else { InUpstream(epoch, r, s, t); }
  }

  lemma {:induction false} LastOfRevision(r: string)
    requires '-' in r && EndsWithDigit(SplitDebianRevision(r).1)
    ensures EndsWithDigit(r)
  {
  }

  /** After a common beginning, in the upstream version as in the revision, the rest decides. */
  lemma {:induction false} RestDecides(x: string, s: string, t: string)
    requires Free(s, '-') && Free(s, ':') && Free(t, '-') && Free(t, ':')
    requires EndsWithDigit(x) ==> !StartsWithDigit(s) && !StartsWithDigit(t)
    ensures Compare(x + s, x + t) == Verrev(s, t)
  {
    AfterEpochOfMore(x, s);
    AfterEpochOfMore(x, t);
    PartsAfter(Epoch(x).0, AfterEpoch(x), s, t);
  }

  /** At the first difference between characters that are no digits, upstream or revision,
      the tilde comes first, then letters by byte, then all others by byte. */
  lemma {:induction false} FirstDifferenceDecides(x: string, c: char, y: string, d: char, z: string)
    requires Compared(c) && Compared(d) && c != d
    requires Free([c] + y, '-') && Free([c] + y, ':') && Free([d] + z, '-') && Free([d] + z, ':')
    ensures Compare(x + ([c] + y), x + ([d] + z)) == if ComesFirst(c, d) then -1 else 1
  {
    RestDecides(x, [c] + y, [d] + z);
    CharsDecide(c, y, d, z);
  }

  /** More text after a version makes it newer, unless it starts with a tilde. */
  lemma {:induction false} MoreIsNewer(x: string, c: char, y: string)
    requires Compared(c) && Free([c] + y, '-') && Free([c] + y, ':')
    ensures Compare(x + ([c] + y), x) == if c == '~' then -1 else 1
  {
    assert x + "" == x;
    RestDecides(x, [c] + y, "");
    EndDecides(c, y, "");
  }

  /** After a common beginning that cuts no number, numbers compare by value, and equal
      ones leave it to what follows. */
  lemma {:induction false} NumbersDecide(x: string, m: nat, s: string, n: nat, t: string)
    requires !EndsWithDigit(x) && !StartsWithDigit(s) && !StartsWithDigit(t)
    requires Free(s, '-') && Free(s, ':') && Free(t, '-') && Free(t, ':')
    ensures Compare(x + (Itoa(m) + s), x + (Itoa(n) + t)) == if m != n then Sign(m - n) else Verrev(s, t)
  {
    ItoaValue(m);
    ItoaValue(n);
    DigitsFirst(Itoa(m), s);
    DigitsFirst(Itoa(n), t);
    VerrevRuns(Itoa(m) + s, Itoa(n) + t);
    RestDecides(x, Itoa(m) + s, Itoa(n) + t);
  }

  lemma {:induction false} TildeKeepsEpoch(x: string, y: string)
    ensures Epoch(x + ("~" + y)) == Epoch(x)
  {
    var v, i := x + ("~" + y), Index(x, ':');
    assert forall k :: 0 <= k < |x| ==> v[k] == x[k];
    if i >= 0 {
      assert Index(v, ':') == i && v[..i] == x[..i];
    } else {
      var j := Index(v, ':');
      if j >= 0 {
        assert v[..j][|x|] == '~';
        TildeIsNoNumber(v[..j], |x|);
      }
    }
  }

  lemma {:induction false} TildeIsNoNumber(s: string, k: nat)
    requires k < |s| && s[k] == '~'
    ensures Atoi(s).None?
  {
    if k > 0 { assert s[1..][k - 1] == '~'; }
  }

  /** Exactly when x followed by a tilde and anything is older than x itself: unless the
      tilde is in a revision and the last hyphen behind it. */
  lemma {:induction false} TildeIsOlderExactly(x: string, y: string)
    ensures Compare(x + ("~" + y), x) == if '-' in AfterEpoch(x) && '-' in y then 1 else -1
  {
    TildeKeepsEpoch(x, y);
    var r := AfterEpoch(x);
    assert (x + ("~" + y))[Epoch(x).1..] == r + ("~" + y);
    TildeParts(Epoch(x).0, r, y);
  }

  lemma {:induction false} TildeParts(epoch: int, r: string, y: string)
    ensures CompareParts(PartsOf(epoch, r + ("~" + y)), PartsOf(epoch, r)) == if '-' in r && '-' in y then 1 else -1
  {
    if '-' !in y {
      assert r + "" == r;
      PartsAfter(epoch, r, "~" + y, "");
      EndDecides('~', y, "");
    } else {
      var i := LastIndex(y, '-');
      var head := "~" + y[..i];
      assert r + ("~" + y) == (r + head) + "-" + y[i + 1..];
      SplitAtLastHyphen(r + ("~" + y), r + head, y[i + 1..]);
      LongerUpstream(r, head);
    }
  }

  lemma {:induction false} LongerUpstream(r: string, head: string)
    requires head != "" && head[0] == '~'
    ensures Verrev(r + head, SplitDebianRevision(r).0) == if '-' in r then 1 else -1
  {
    var i := LastIndex(r, '-');
    if i >= 0 {
      var up := r[..i];
      assert r + head == up + ("-" + (r[i + 1..] + head));
      assert up + "" == up;
      SharedFront(up, "-" + (r[i + 1..] + head), "");
      EndDecides('-', r[i + 1..] + head, "");
    } else {
      assert r + "" == r && head == "~" + head[1..];
      SharedFront(r, head, "");
      EndDecides('~', head[1..], "");
    }
  }

  // ----- the versions drayman publishes -------------------------------------

  /** A plan's base version as drayman needs it: non-empty and without a hyphen. */
  predicate IsBase(b: string) { b != "" && Free(b, '-') && NoStrayNul(b) }

  lemma {:induction false} RespelledBases()
    ensures IsBase("1.0") && IsBase("1.00") && "1.0" != "1.00"
  {
  }

  function VersionString(base: string, revision: nat): string {
    if revision == 0 then base else base + "-" + Itoa(revision)
  }

  function RevisionString(revision: nat): string { if revision == 0 then "" else Itoa(revision) }

  lemma {:induction false} SplitRevised(base: string, revision: nat)
    requires Free(base, '-') || revision > 0
    ensures SplitDebianRevision(VersionString(base, revision)) == (base, RevisionString(revision))
  {
    ItoaValue(revision);
    var v := VersionString(base, revision);
    if revision > 0 {
      assert v[|base|] == '-' && forall k :: |base| < k < |v| ==> v[k] == Itoa(revision)[k - |base| - 1];
      assert LastIndex(v, '-') == |base|;
      assert v[..|base|] == base && v[|base| + 1..] == Itoa(revision);
    }
  }

  lemma {:induction false} EpochRevised(base: string, revision: nat)
    requires Free(base, '-')
    ensures Epoch(VersionString(base, revision)) == Epoch(base)
  {
    ItoaValue(revision);
    var v, i := VersionString(base, revision), Index(base, ':');
    assert forall k :: 0 <= k < |base| ==> v[k] == base[k];
    assert Index(v, ':') == i;
    if i >= 0 { assert v[..i] == base[..i]; }
  }

  lemma {:induction false} DropFromSum(s: string, t: string, u: string, k: nat)
    requires k <= |s|
    ensures (s + t + u)[k..] == s[k..] + t + u
  {
  }

  lemma {:induction false} VersionStringDrop(base: string, revision: nat, start: nat)
    requires start <= |base|
    ensures start <= |VersionString(base, revision)|
    ensures VersionString(base, revision)[start..] == VersionString(base[start..], revision)
  {
    if revision > 0 { DropFromSum(base, "-", Itoa(revision), start); }
  }

  lemma {:induction false} SplitFullRevised(base: string, revision: nat)
    requires Free(base, '-')
    ensures SplitFull(base).revision == ""
    ensures SplitFull(VersionString(base, revision)) == SplitFull(base).(revision := RevisionString(revision))
  {
    EpochRevised(base, revision);
    var start := Epoch(base).1;
    VersionStringDrop(base, revision, start);
    SplitRevised(base[start..], 0);
    SplitRevised(base[start..], revision);
  }

  lemma {:induction false} VerrevNumerals(r: nat, s: nat)
    ensures Verrev(RevisionString(r), RevisionString(s)) == Sign(r - s)
  {
    NumeralRun(r);
    NumeralRun(s);
  }

  lemma {:induction false} NumeralRun(r: nat)
    ensures !AtNonDigit(RevisionString(r)) && LeadValue(RevisionString(r)) == r
    ensures AfterDigits(RevisionString(r)) == ""
  {
    ItoaValue(r);
    var s := RevisionString(r);
    assert DigitRun(s) == |s|;
    assert s[..|s|] == s;
  }

  /** Revised versions are ordered by base, then numerically by revision. */
  lemma {:induction false} CompareRevised(b: string, r: nat, c: string, s: nat)
    requires Free(b, '-') && Free(c, '-')
    ensures Compare(VersionString(b, r), VersionString(c, s)) ==
            if Compare(b, c) != 0 then Compare(b, c) else Sign(r - s)
  {
    SplitFullRevised(b, r);
    SplitFullRevised(c, s);
    PartsRevised(SplitFull(b), r, SplitFull(c), s);
  }

  lemma {:induction false} PartsRevised(x: Parts, r: nat, y: Parts, s: nat)
    requires x.revision == "" && y.revision == ""
    ensures CompareParts(x.(revision := RevisionString(r)), y.(revision := RevisionString(s))) ==
            if CompareParts(x, y) != 0 then CompareParts(x, y) else Sign(r - s)
  {
    VerrevReflexive("");
    VerrevNumerals(r, s);
  }

  lemma {:induction false} VersionStringInjective(b: string, r: nat, c: string, s: nat)
    requires Free(b, '-') && Free(c, '-') && VersionString(b, r) == VersionString(c, s)
    ensures b == c && r == s
  {
    SplitRevised(b, r);
    SplitRevised(c, s);
    ItoaValue(r);
    ItoaValue(s);
  }
}
