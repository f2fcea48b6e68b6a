/** Strings as the program sees them: a Go string is a sequence of bytes, so one
    `char` stands for one byte. Decimal numerals, Go's bytewise string order, and
    the few library functions the program leans on are defined here once. */
module Text {
  datatype Option<+T> = None | Some(value: T)

  /** A Go (value, error) pair; error texts are not modelled. */
  datatype Result<+T> = Ok(value: T) | Err

  type Bytes = string

  const NUL: char := 0 as char

  /** Assumed of SHA-256 only by the statements that name it. */
  ghost predicate CollisionFree(sha256: Bytes -> string) { forall x, y :: sha256(x) == sha256(y) ==> x == y }

  // ----- decimal numerals ---------------------------------------------------

  predicate IsDigit(c: char) { '0' <= c <= '9' }

  function Digit(c: char): nat
    requires IsDigit(c)
  {
    c as int - '0' as int
  }

  predicate AllDigits(s: string) { forall i :: 0 <= i < |s| ==> IsDigit(s[i]) }

  /** The number a run of decimal digits denotes; the empty run denotes 0. */
  function Value(s: string): nat
    requires AllDigits(s)
  {
    if s == "" then 0 else Value(s[..|s| - 1]) * 10 + Digit(s[|s| - 1])
  }

  /** strconv.Itoa on naturals: no sign, no leading zero. */
  function Itoa(n: nat): string {
    if n < 10 then [('0' as int + n) as char]
    else Itoa(n / 10) + [('0' as int + n % 10) as char]
  }

  lemma {:induction false} ItoaValue(n: nat)
    ensures Itoa(n) != "" && AllDigits(Itoa(n)) && Value(Itoa(n)) == n
    ensures n > 0 ==> Itoa(n)[0] != '0'
  {
    if n >= 10 {
      ItoaValue(n / 10);
      assert Itoa(n)[..|Itoa(n)| - 1] == Itoa(n / 10);
    } else {
      assert Itoa(n)[..0] == "";
    }
  }

  /** strconv.Atoi as a partial function: an optional sign and at least one digit. */
  function Atoi(s: string): Option<int> {
    var signed := s != "" && (s[0] == '+' || s[0] == '-');
    var digits := if signed then s[1..] else s;
    if digits == "" || !AllDigits(digits) then None
    else
      var magnitude: int := Value(digits);
      Some(if s[0] == '-' then -magnitude else magnitude)
  }

  lemma {:induction false} AtoiItoa(n: nat)
    ensures Atoi(Itoa(n)) == Some(n)
  {
    ItoaValue(n);
  }

  function Unsigned(s: string): string { if s != "" && (s[0] == '+' || s[0] == '-') then s[1..] else s }

  /** Optional sign, digits. */
  predicate IsNumeral(s: string) {
    Unsigned(s) != "" && forall k :: 0 <= k < |Unsigned(s)| ==> '0' <= Unsigned(s)[k] <= '9'
  }

  lemma {:induction false} DigitsByRange(s: string)
    ensures AllDigits(s) <==> forall k :: 0 <= k < |s| ==> '0' <= s[k] <= '9'
  {
    if forall k :: 0 <= k < |s| ==> '0' <= s[k] <= '9' {
      forall k | 0 <= k < |s| ensures IsDigit(s[k]) { assert '0' <= s[k] <= '9'; }
    }
    if AllDigits(s) {
      forall k | 0 <= k < |s| ensures '0' <= s[k] <= '9' { assert IsDigit(s[k]); }
    }
  }

  /** What Atoi takes, and what for. */
  lemma {:induction false} AtoiExactly(s: string)
    ensures Atoi(s).Some? <==> IsNumeral(s)
    ensures Atoi(s).Some? && s[0] != '+' && s[0] != '-' ==> AllDigits(s) && Atoi(s) == Some(Value(s))
    ensures Atoi(s).Some? && s[0] == '+' ==> AllDigits(s[1..]) && Atoi(s) == Some(Value(s[1..]))
    ensures Atoi(s).Some? && s[0] == '-' ==> AllDigits(s[1..]) && Atoi(s) == Some(-(Value(s[1..]) as int))
  {
    DigitsByRange(Unsigned(s));
  }

  // ----- searching ----------------------------------------------------------

  predicate HasPrefix(s: string, prefix: string) { prefix <= s }

  /** strings.IndexByte: the first occurrence, or -1. */
  function Index(s: string, c: char): (i: int)
    ensures -1 <= i < |s|
    ensures i >= 0 ==> s[i] == c
    ensures forall k :: 0 <= k < (if i < 0 then |s| else i) ==> s[k] != c
  {
    if s == "" then -1
    else if s[0] == c then 0
    else var i := Index(s[1..], c); if i < 0 then -1 else i + 1
  }

  /** strings.LastIndexByte: the last occurrence, or -1. */
  function LastIndex(s: string, c: char): (i: int)
    ensures -1 <= i < |s|
    ensures i >= 0 ==> s[i] == c
    ensures forall k :: i < k < |s| ==> s[k] != c
  {
    if s == "" then -1
    else if s[|s| - 1] == c then |s| - 1
    else LastIndex(s[..|s| - 1], c)
  }

  /** strings.TrimRight(s, c) for a single cut character. */
  function TrimRight(s: string, c: char): string {
    if s != "" && s[|s| - 1] == c then TrimRight(s[..|s| - 1], c) else s
  }

  function Repeat(c: char, n: nat): (s: string)
    ensures |s| == n && forall i :: 0 <= i < n ==> s[i] == c
  {
    seq(n, _ => c)
  }

  lemma {:induction false} TrimPadding(s: string, c: char, n: nat)
    requires s == "" || s[|s| - 1] != c
    ensures TrimRight(s + Repeat(c, n), c) == s
  {
    if n == 0 {
      assert s + Repeat(c, n) == s;
    } else {
      var padded := s + Repeat(c, n);
      assert padded[..|padded| - 1] == s + Repeat(c, n - 1);
      TrimPadding(s, c, n - 1);
    }
  }

  // ----- Go's string order --------------------------------------------------

  predicate Less(s: string, t: string) {
    if t == "" then false
    else if s == "" then true
    else if s[0] != t[0] then s[0] < t[0]
    else Less(s[1..], t[1..])
  }

  predicate AtMost(s: string, t: string) { !Less(t, s) }

  lemma {:induction false} LessAsymmetric(s: string, t: string)
    ensures !(Less(s, t) && Less(t, s))
  {
    if s != "" && t != "" && s[0] == t[0] { LessAsymmetric(s[1..], t[1..]); }
  }

  lemma {:induction false} LessTotal(s: string, t: string)
    ensures s == t || Less(s, t) || Less(t, s)
  {
    if s != "" && t != "" && s[0] == t[0] {
      LessTotal(s[1..], t[1..]);
      assert s == [s[0]] + s[1..] && t == [t[0]] + t[1..];
    }
  }

  lemma {:induction false} LessTransitive(s: string, t: string, u: string)
    requires Less(s, t) && Less(t, u)
    ensures Less(s, u)
  {
    if s != "" && t != "" && u != "" && s[0] == t[0] == u[0] {
      LessTransitive(s[1..], t[1..], u[1..]);
    }
  }

  lemma {:induction false} AtMostTransitive(s: string, t: string, u: string)
    requires AtMost(s, t) && AtMost(t, u)
    ensures AtMost(s, u)
  {
    LessTotal(s, t);
    LessTotal(t, u);
    if Less(u, s) {
      if s != t && t != u {
        LessTransitive(s, t, u);
        LessAsymmetric(s, u);
      }
    }
  }

  /** The byte after a common beginning decides, and the end of a string is below any. */
  lemma {:induction false} LessDecides(x: string, s: string, t: string)
    ensures Less(x, x + s) <==> s != ""
    ensures s != "" && t != "" && s[0] != t[0] ==> (Less(x + s, x + t) <==> s[0] < t[0])
  {
    if x != "" {
      LessDecides(x[1..], s, t);
      assert (x + s)[1..] == x[1..] + s && (x + t)[1..] == x[1..] + t;
    } else {
      assert x + s == s && x + t == t;
    }
  }

  // ----- joining ------------------------------------------------------------

  predicate Free(s: string, c: char) { c !in s }

  /** strings.Join with a one-byte separator. */
  function Join(xs: seq<string>, sep: char): string {
    if xs == [] then "" else if |xs| == 1 then xs[0] else xs[0] + [sep] + Join(xs[1..], sep)
  }

  /** Two separator-free strings in front of the same separator can be told apart. */
  lemma {:induction false} SplitAtSeparator(p: string, x: string, q: string, y: string, sep: char)
    requires Free(p, sep) && Free(q, sep)
    requires p + [sep] + x == q + [sep] + y
    ensures p == q && x == y
  {
    var s := p + [sep] + x;
    assert s[|p|] == sep && s[|q|] == sep;
    assert forall k :: 0 <= k < |p| ==> s[k] == p[k];
    assert forall k :: 0 <= k < |q| ==> s[k] == q[k];
    assert |p| == |q|;
    assert p == s[..|p|] && q == s[..|q|];
    assert x == s[|p| + 1..] && y == s[|q| + 1..];
  }
}
