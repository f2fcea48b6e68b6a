/** internal/signpost/bootstrap/bootstrap.go and refresh/bootstrap_step.go: the input
    hash, the version and the reuse-or-rebuild step of the keyring package. */
module Bootstrap {
  import opened Text
  import opened Sorting
  import opened Version

  datatype Inputs = Inputs(
    packageName: string, maintainer: string, description: string, baseURL: string, codename: string,
    components: seq<string>, architectures: seq<string>, keyring: Bytes)

  // ----- the byte stream behind InputHash -----------------------------------

  function Field(key: string, val: string): Bytes {
    key + [NUL] + (Itoa(|val|) + [NUL] + (val + [NUL]))
  }

  function SortedList(xs: seq<string>): string { Join(Sort(xs, AtMost), ',') }

  /** What the hasher is fed; keyHash is the hex hash of the keyring. */
  function Stream(inp: Inputs, keyHash: string): Bytes {
    Field("package_name", inp.packageName) + (Field("maintainer", inp.maintainer) + (
    Field("description", inp.description) + (Field("base_url", inp.baseURL) + (
    Field("codename", inp.codename) + (Field("components", SortedList(inp.components)) + (
    Field("architectures", SortedList(inp.architectures)) + Field("keyring_sha256", keyHash)))))))
  }

  function InputHash(inp: Inputs, sha256: Bytes -> string): string {
    "sha256:" + sha256(Stream(inp, sha256(inp.keyring)))
  }

  /** A field is self-delimiting, whatever bytes its value holds. */
  lemma {:induction false} FieldDecodable(key: string, v: string, x: Bytes, w: string, y: Bytes)
    requires Field(key, v) + x == Field(key, w) + y
    ensures v == w && x == y
  {
    var k := key + [NUL];
    var a, b := v + [NUL] + x, w + [NUL] + y;
    assert Field(key, v) + x == k + (Itoa(|v|) + [NUL] + a);
    assert Field(key, w) + y == k + (Itoa(|w|) + [NUL] + b);
    assert (Field(key, v) + x)[|k|..] == Itoa(|v|) + [NUL] + a;
    assert (Field(key, w) + y)[|k|..] == Itoa(|w|) + [NUL] + b;
    ItoaValue(|v|);
    ItoaValue(|w|);
    SplitAtSeparator(Itoa(|v|), a, Itoa(|w|), b, NUL);
    assert v == a[..|v|] && w == b[..|w|];
    assert x == a[|v| + 1..] && y == b[|w| + 1..];
  }

  lemma {:induction false} LastFieldDecodable(key: string, v: string, w: string)
    requires Field(key, v) == Field(key, w)
    ensures v == w
  {
    assert Field(key, v) + [] == Field(key, v) && Field(key, w) + [] == Field(key, w);
    FieldDecodable(key, v, [], w, []);
  }

  /** Equal streams have equal fields, NULs inside values included. */
  lemma {:induction false} StreamDecodable(p: Inputs, kp: string, q: Inputs, kq: string)
    requires Stream(p, kp) == Stream(q, kq)
    ensures p.packageName == q.packageName && p.maintainer == q.maintainer && p.description == q.description
    ensures p.baseURL == q.baseURL && p.codename == q.codename && kp == kq
    ensures SortedList(p.components) == SortedList(q.components)
    ensures SortedList(p.architectures) == SortedList(q.architectures)
  {
    var p8, q8 := Field("keyring_sha256", kp), Field("keyring_sha256", kq);
    var p7, q7 := Field("architectures", SortedList(p.architectures)) + p8,
                  Field("architectures", SortedList(q.architectures)) + q8;
    var p6, q6 := Field("components", SortedList(p.components)) + p7,
                  Field("components", SortedList(q.components)) + q7;
    var p5, q5 := Field("codename", p.codename) + p6, Field("codename", q.codename) + q6;
    var p4, q4 := Field("base_url", p.baseURL) + p5, Field("base_url", q.baseURL) + q5;
    var p3, q3 := Field("description", p.description) + p4, Field("description", q.description) + q4;
    var p2, q2 := Field("maintainer", p.maintainer) + p3, Field("maintainer", q.maintainer) + q3;
    FieldDecodable("package_name", p.packageName, p2, q.packageName, q2);
    FieldDecodable("maintainer", p.maintainer, p3, q.maintainer, q3);
    FieldDecodable("description", p.description, p4, q.description, q4);
    FieldDecodable("base_url", p.baseURL, p5, q.baseURL, q5);
    FieldDecodable("codename", p.codename, p6, q.codename, q6);
    FieldDecodable("components", SortedList(p.components), p7, SortedList(q.components), q7);
    FieldDecodable("architectures", SortedList(p.architectures), p8, SortedList(q.architectures), q8);
    LastFieldDecodable("keyring_sha256", kp, kq);
  }

  // ----- a reader of the stream ---------------------------------------------

  /** Key, NUL, the length of the value in decimal, NUL, the value, NUL; over and over. */
  function ReadFields(b: Bytes): Option<seq<(string, string)>>
    decreases |b|
  {
    if b == [] then Some([])
    else
      var i := Index(b, NUL);
      if i < 0 then None
      else
        var j := Index(b[i + 1..], NUL);
        if j < 0 then None else ReadValue(b[..i], Atoi(b[i + 1..][..j]), b[i + 1..][j + 1..])
  }

  /** A value of n bytes, and the fields after it. */
  function ReadValue(key: string, n: Option<int>, b: Bytes): Option<seq<(string, string)>>
    decreases |b|
  {
    if n.None? || n.value < 0 || n.value >= |b| || b[n.value] != NUL then None
    else
      match ReadFields(b[n.value + 1..])
      case None => None
      case Some(rest) => Some([(key, b[..n.value])] + rest)
  }

  lemma {:induction false} SeparatorAt(x: string, y: Bytes)
    requires Free(x, NUL)
    ensures var b := x + ([NUL] + y);
      Index(b, NUL) == |x| && b[..|x|] == x && b[|x| + 1..] == y
  {
    var b := x + ([NUL] + y);
    assert b[|x|] == NUL;
    assert forall k :: 0 <= k < |x| ==> b[k] == x[k];
  }

  lemma {:induction false} ValueReads(key: string, v: string, more: Bytes, rest: seq<(string, string)>)
    requires ReadFields(more) == Some(rest)
    ensures ReadValue(key, Some(|v|), v + ([NUL] + more)) == Some([(key, v)] + rest)
  {
    var body := v + ([NUL] + more);
    assert body[|v|] == NUL && body[..|v|] == v && body[|v| + 1..] == more;
  }

  lemma {:induction false} LengthReads(key: string, n: nat, body: Bytes)
    requires Free(key, NUL)
    ensures ReadFields(key + ([NUL] + (Itoa(n) + ([NUL] + body)))) == ReadValue(key, Some(n), body)
  {
    var tail := Itoa(n) + ([NUL] + body);
    ItoaValue(n);
    AtoiItoa(n);
    assert Free(Itoa(n), NUL);
    SeparatorAt(key, tail);
    SeparatorAt(Itoa(n), body);
  }

  lemma {:induction false} FieldAhead(key: string, v: string, more: Bytes)
    ensures Field(key, v) + more == key + ([NUL] + (Itoa(|v|) + ([NUL] + (v + ([NUL] + more)))))
  {
  }

  lemma {:induction false} FieldReads(key: string, v: string, more: Bytes, rest: seq<(string, string)>)
    requires Free(key, NUL) && ReadFields(more) == Some(rest)
    ensures ReadFields(Field(key, v) + more) == Some([(key, v)] + rest)
  {
    FieldAhead(key, v, more);
    var body := v + ([NUL] + more);
    LengthReads(key, |v|, body);
    ValueReads(key, v, more, rest);
  }

  /** The fields, one after the other. */
  function Written(fields: seq<(string, string)>): Bytes {
    if fields == [] then [] else Field(fields[0].0, fields[0].1) + Written(fields[1..])
  }

  lemma {:induction false} WrittenReadsBack(fields: seq<(string, string)>)
    requires forall f :: f in fields ==> Free(f.0, NUL)
    ensures ReadFields(Written(fields)) == Some(fields)
  {
    if fields != [] {
      WrittenReadsBack(fields[1..]);
      FieldReads(fields[0].0, fields[0].1, Written(fields[1..]), fields[1..]);
      assert fields == [(fields[0].0, fields[0].1)] + fields[1..];
    }
  }

  lemma {:induction false} WrittenAhead(key: string, v: string, fields: seq<(string, string)>)
    ensures Written([(key, v)] + fields) == Field(key, v) + Written(fields)
  {
    assert ([(key, v)] + fields)[1..] == fields;
  }

  lemma {:induction false} FourWritten(
    k1: string, v1: string, k2: string, v2: string, k3: string, v3: string, k4: string, v4: string,
    fields: seq<(string, string)>)
    ensures Written([(k1, v1)] + ([(k2, v2)] + ([(k3, v3)] + ([(k4, v4)] + fields))))
      == Field(k1, v1) + (Field(k2, v2) + (Field(k3, v3) + (Field(k4, v4) + Written(fields))))
  {
    WrittenAhead(k4, v4, fields);
    WrittenAhead(k3, v3, [(k4, v4)] + fields);
    WrittenAhead(k2, v2, [(k3, v3)] + ([(k4, v4)] + fields));
    WrittenAhead(k1, v1, [(k2, v2)] + ([(k3, v3)] + ([(k4, v4)] + fields)));
  }

  function FirstFour(inp: Inputs, rest: seq<(string, string)>): seq<(string, string)> {
    [("package_name", inp.packageName)] + ([("maintainer", inp.maintainer)]
    + ([("description", inp.description)] + ([("base_url", inp.baseURL)] + rest)))
  }

  /** The eight fields by name, in order. */
  function Named(inp: Inputs, keyHash: string): seq<(string, string)> {
    FirstFour(inp, [("codename", inp.codename)] + ([("components", SortedList(inp.components))]
    + ([("architectures", SortedList(inp.architectures))] + ([("keyring_sha256", keyHash)] + []))))
  }

  lemma {:induction false} StreamIsWritten(inp: Inputs, keyHash: string)
    ensures Stream(inp, keyHash) == Written(Named(inp, keyHash))
  {
    var c, a := SortedList(inp.components), SortedList(inp.architectures);
    var last := [("codename", inp.codename)]
      + ([("components", c)] + ([("architectures", a)] + ([("keyring_sha256", keyHash)] + [])));
    FourWritten("codename", inp.codename, "components", c, "architectures", a, "keyring_sha256", keyHash, []);
    FourWritten("package_name", inp.packageName, "maintainer", inp.maintainer, "description", inp.description,
                "base_url", inp.baseURL, last);
    assert Field("keyring_sha256", keyHash) + [] == Field("keyring_sha256", keyHash);
  }

  lemma {:induction false} NamesAreFree(inp: Inputs, keyHash: string, f: (string, string))
    requires f in Named(inp, keyHash)
    ensures Free(f.0, NUL)
  {
  }

  /** What the hash sees is, in this order, eight named fields. */
  lemma {:induction false} StreamReadsBack(inp: Inputs, keyHash: string)
    ensures ReadFields(Stream(inp, keyHash)) == Some(Named(inp, keyHash))
  {
    forall f | f in Named(inp, keyHash) ensures Free(f.0, NUL) { NamesAreFree(inp, keyHash, f); }
    StreamIsWritten(inp, keyHash);
    WrittenReadsBack(Named(inp, keyHash));
  }

  predicate AllFree(xs: seq<string>, c: char) { forall i :: 0 <= i < |xs| ==> Free(xs[i], c) }

  /** Join forgets only whether a list is empty or holds one empty string. */
  lemma {:induction false} JoinInjective(xs: seq<string>, ys: seq<string>)
    requires AllFree(xs, ',') && AllFree(ys, ',')
    ensures Join(xs, ',') == Join(ys, ',') <==> xs == ys || (xs in {[], [""]} && ys in {[], [""]})
  {
    if |xs| >= 2 && |ys| >= 2 {
      JoinInjective(xs[1..], ys[1..]);
      assert xs == [xs[0]] + xs[1..] && ys == [ys[0]] + ys[1..];
      if Join(xs, ',') == Join(ys, ',') {
        SplitAtSeparator(xs[0], Join(xs[1..], ','), ys[0], Join(ys[1..], ','), ',');
        JoinTails(xs[1..], ys[1..]);
      }
    } else if |xs| >= 2 {
      JoinHasSeparator(xs);
      assert ys != [] ==> ys == [ys[0]];
      assert Free(Join(ys, ','), ',');
    } else if |ys| >= 2 {
      JoinHasSeparator(ys);
      assert xs != [] ==> xs == [xs[0]];
      assert Free(Join(xs, ','), ',');
    } else {
      assert xs != [] ==> xs == [xs[0]];
      assert ys != [] ==> ys == [ys[0]];
    }
  }

  lemma {:induction false} JoinTails(xs: seq<string>, ys: seq<string>)
    requires xs != [] && ys != []
    requires xs == ys || (xs in {[], [""]} && ys in {[], [""]})
    ensures xs == ys
  {
  }

  lemma {:induction false} JoinHasSeparator(xs: seq<string>)
    requires |xs| >= 2
    ensures ',' in Join(xs, ',')
  {
    assert Join(xs, ',')[|xs[0]|] == ',';
  }

  /** Two lists the hash does not tell apart: the same strings in any order (an empty
      list and a list of one empty string look alike). */
  ghost predicate SameList(xs: seq<string>, ys: seq<string>) {
    multiset(xs) == multiset(ys) || (xs in {[], [""]} && ys in {[], [""]})
  }

  lemma {:induction false} SortKeepsFree(xs: seq<string>)
    requires AllFree(xs, ',')
    ensures AllFree(Sort(xs, AtMost), ',') && multiset(Sort(xs, AtMost)) == multiset(xs)
    ensures Sorted(Sort(xs, AtMost), AtMost) && |Sort(xs, AtMost)| == |xs|
  {
    StringOrder();
    SortIsSorted(xs, AtMost);
    var s := Sort(xs, AtMost);
    assert |multiset(s)| == |s| && |multiset(xs)| == |xs|;
    forall i | 0 <= i < |s| ensures Free(s[i], ',') {
      assert s[i] in multiset(s);
      assert s[i] in multiset(xs);
    }
  }

  lemma {:induction false} SortedListExactly(xs: seq<string>, ys: seq<string>)
    requires AllFree(xs, ',') && AllFree(ys, ',')
    ensures SortedList(xs) == SortedList(ys) <==> SameList(xs, ys)
  {
    SortKeepsFree(xs);
    SortKeepsFree(ys);
    var s, t := Sort(xs, AtMost), Sort(ys, AtMost);
    JoinInjective(s, t);
    if multiset(xs) == multiset(ys) {
      forall x, y | x in s && y in s && AtMost(x, y) && AtMost(y, x) ensures x == y { LessTotal(x, y); }
      SortedUnique(s, t, AtMost);
    }
    ShortSort(xs);
    ShortSort(ys);
  }

  lemma {:induction false} ShortSort(xs: seq<string>)
    ensures Sort(xs, AtMost) in {[], [""]} <==> xs in {[], [""]}
  {
    StringOrder();
    SortIsSorted(xs, AtMost);
    var s := Sort(xs, AtMost);
    assert |multiset(s)| == |s| && |multiset(xs)| == |xs|;
    if |xs| == 1 {
      assert xs == [xs[0]] && xs[1..] == [];
    }
  }

  /** What a joined list still shows of its elements: the pieces between the commas. */
  function Pieces(xs: seq<string>): seq<string> {
    if xs == [] then [""] else if |xs| == 1 then Cut(xs[0]) else Cut(xs[0]) + Pieces(xs[1..])
  }

  function Cut(s: string): (pieces: seq<string>)
    ensures pieces != []
  {
    var i := Index(s, ',');
    if i < 0 then [s] else [s[..i]] + Cut(s[i + 1..])
  }

  lemma {:induction false} FirstCut(s: string, x: string, rest: string)
    requires s == x + [','] + rest && Free(x, ',')
    ensures Cut(s) == [x] + Cut(rest)
  {
    CommaAt(s, |x|);
    assert s[..|x|] == x && s[|x| + 1..] == rest;
  }

  lemma {:induction false} CommaAt(s: string, i: nat)
    requires i < |s| && s[i] == ',' && forall k :: 0 <= k < i ==> s[k] != ','
    ensures Index(s, ',') == i
  {
  }

  lemma {:induction false} CutAtComma(x: string, rest: string)
    ensures Cut(x + [','] + rest) == Cut(x) + Cut(rest)
  {
    var i := Index(x, ',');
    if i < 0 {
      FirstCut(x + [','] + rest, x, rest);
    } else {
      CommaAhead(x, i, rest);
      FirstCut(x + [','] + rest, x[..i], x[i + 1..] + [','] + rest);
      CutAtComma(x[i + 1..], rest);
      PiecesAssociate(x[..i], Cut(x[i + 1..]), Cut(rest));
    }
  }

  lemma {:induction false} CommaAhead(x: string, i: nat, rest: string)
    requires i < |x| && x[i] == ','
    ensures x + [','] + rest == x[..i] + [','] + (x[i + 1..] + [','] + rest)
  {
  }

  lemma {:induction false} PiecesAssociate(x: string, ys: seq<string>, zs: seq<string>)
    ensures [x] + (ys + zs) == ([x] + ys) + zs
  {
  }

  lemma {:induction false} CutOfJoin(xs: seq<string>)
    ensures Cut(Join(xs, ',')) == Pieces(xs)
  {
    if |xs| >= 2 {
      CutOfJoin(xs[1..]);
      CutAtComma(xs[0], Join(xs[1..], ','));
    }
  }

  lemma {:induction false} JoinOfCut(s: string)
    ensures Join(Cut(s), ',') == s
  {
    var i := Index(s, ',');
    if i >= 0 {
      var pieces := Cut(s[i + 1..]);
      JoinOfCut(s[i + 1..]);
      JoinHead(s[..i], pieces);
      CommaInside(s, i);
    }
  }

  lemma {:induction false} CommaInside(s: string, i: nat)
    requires i < |s| && s[i] == ','
    ensures s[..i] + [','] + s[i + 1..] == s
  {
  }

  lemma {:induction false} JoinHead(x: string, xs: seq<string>)
    requires xs != []
    ensures Join([x] + xs, ',') == x + [','] + Join(xs, ',')
  {
    assert ([x] + xs)[1..] == xs;
  }

  /** Joined lists are equal exactly when their pieces are. */
  lemma {:induction false} JoinedExactly(xs: seq<string>, ys: seq<string>)
    ensures Join(xs, ',') == Join(ys, ',') <==> Pieces(xs) == Pieces(ys)
  {
    CutOfJoin(xs);
    CutOfJoin(ys);
    JoinOfCut(Join(xs, ','));
    JoinOfCut(Join(ys, ','));
  }

  /** Two lists the hash does not tell apart, whatever their elements hold: sorted, they
      have the same pieces. */
  predicate Confused(xs: seq<string>, ys: seq<string>) { Pieces(Sort(xs, AtMost)) == Pieces(Sort(ys, AtMost)) }

  /** Without commas that means the same list up to order. */
  lemma {:induction false} ConfusedExactly(xs: seq<string>, ys: seq<string>)
    requires AllFree(xs, ',') && AllFree(ys, ',')
    ensures Confused(xs, ys) <==> SameList(xs, ys)
  {
    SortedListExactly(xs, ys);
    JoinedExactly(Sort(xs, AtMost), Sort(ys, AtMost));
  }

  /** The inputs with the two lists left out. */
  function Bare(inp: Inputs): Inputs { inp.(components := [], architectures := []) }

  /** The stream determines the inputs up to the pieces of the two sorted lists, and the
      keyring up to its hash; and nothing less would do. */
  lemma {:induction false} StreamExactly(p: Inputs, kp: string, q: Inputs, kq: string)
    ensures Stream(p, kp) == Stream(q, kq) <==>
      && Bare(p).(keyring := []) == Bare(q).(keyring := []) && kp == kq
      && Confused(p.components, q.components) && Confused(p.architectures, q.architectures)
  {
    JoinedExactly(Sort(p.components, AtMost), Sort(q.components, AtMost));
    JoinedExactly(Sort(p.architectures, AtMost), Sort(q.architectures, AtMost));
    if Stream(p, kp) == Stream(q, kq) { StreamDecodable(p, kp, q, kq); }
  }

  /** A comma inside an architecture, which configuration validation lets through, is not
      told from a separator. */
  lemma {:induction false} CommasConfuse(p: Inputs, k: string)
    ensures Stream(p.(architectures := ["amd64,arm64"]), k) == Stream(p.(architectures := ["amd64", "arm64"]), k)
  {
    SortOne("amd64,arm64");
    assert AtMost("amd64", "arm64") by { InOrder(); }
    SortTwo("amd64", "arm64");
    JoinTwo("amd64", "arm64");
    SameArchitectures(p, ["amd64,arm64"], ["amd64", "arm64"], k);
  }

  lemma {:induction false} InOrder()
    ensures Less("amd64", "arm64") && AtMost("amd64", "arm64")
  {
    assert "amd64"[1..] == "md64" && "arm64"[1..] == "rm64";
    LessAsymmetric("amd64", "arm64");
  }

  lemma {:induction false} SameArchitectures(p: Inputs, xs: seq<string>, ys: seq<string>, k: string)
    requires SortedList(xs) == SortedList(ys)
    ensures Stream(p.(architectures := xs), k) == Stream(p.(architectures := ys), k)
  {
  }

  lemma {:induction false} SortOne(x: string)
    ensures Sort([x], AtMost) == [x]
  {
    assert [x][1..] == [];
  }

  lemma {:induction false} SortTwo(x: string, y: string)
    requires AtMost(x, y)
    ensures Sort([x, y], AtMost) == [x, y]
  {
    assert [x, y][1..] == [y];
    SortOne(y);
  }

  lemma {:induction false} JoinTwo(x: string, y: string)
    ensures Join([x, y], ',') == x + "," + y
  {
    assert [x, y][1..] == [y];
  }

  // ----- the version --------------------------------------------------------

  datatype Date = Date(year: nat, month: nat, day: nat)

  predicate ValidDate(d: Date) { d.year <= 9999 && 1 <= d.month <= 12 && 1 <= d.day <= 31 }

  predicate Earlier(d: Date, e: Date) {
    d.year < e.year || (d.year == e.year && (d.month < e.month || (d.month == e.month && d.day < e.day)))
  }

  function Two(n: nat): string { [('0' as int + n / 10 % 10) as char, ('0' as int + n % 10) as char] }

  /** time.Format("2006.01.02"). */
  function FormatDate(d: Date): string {
    Two(d.year / 100) + Two(d.year % 100) + "." + Two(d.month) + "." + Two(d.day)
  }

  function NextVersion(prev: string, now: Date): string {
    var prefix := FormatDate(now) + ".";
    if prev == "" then prefix + "1"
    else if HasPrefix(prev, prefix) then
      match Atoi(prev[|prefix|..])
      case Some(n) => if n > 0 then prefix + Itoa(n + 1) else prefix + "1"
      case None => prefix + "1"
    else prefix + "1"
  }

  /** The n-th bootstrap version of a day. */
  function DayVersion(d: Date, n: nat): string { FormatDate(d) + "." + Itoa(n) }

  lemma {:induction false} TwoValue(n: nat)
    requires n <= 99
    ensures AllDigits(Two(n)) && Value(Two(n)) == n
  {
    var t := Two(n);
    assert t[..1][..0] == "" && t[..1][0] == t[0];
    assert Value(t[..1]) == Digit(t[0]) == n / 10;
  }

  lemma {:induction false} FourValue(n: nat)
    requires n <= 9999
    ensures AllDigits(Two(n / 100) + Two(n % 100)) && Value(Two(n / 100) + Two(n % 100)) == n
  {
    var s := Two(n / 100) + Two(n % 100);
    TwoValue(n / 100);
    assert s[..3] == Two(n / 100) + [s[2]] && s[..3][..2] == Two(n / 100);
  }

  lemma {:induction false} FormatDateInjective(d: Date, e: Date)
    requires ValidDate(d) && ValidDate(e) && FormatDate(d) == FormatDate(e)
    ensures d == e
  {
    DateSlices(d);
    DateSlices(e);
    FourValue(d.year);
    FourValue(e.year);
    TwoValue(d.month);
    TwoValue(e.month);
    TwoValue(d.day);
    TwoValue(e.day);
  }

  lemma {:induction false} DateSlices(d: Date)
    ensures var s := FormatDate(d);
      |s| == 10 && s[..4] == Two(d.year / 100) + Two(d.year % 100) && s[5..7] == Two(d.month) && s[8..10] == Two(d.day)
  {
  }

  lemma {:induction false} FirstVersion(e: Date)
    ensures NextVersion("", e) == DayVersion(e, 1)
  {
    assert Itoa(1) == "1";
  }

  /** Within a day the counter goes up; a day after starts at 1 again. */
  lemma {:induction false} NextDayVersion(d: Date, n: nat, e: Date)
    requires ValidDate(d) && ValidDate(e) && n > 0
    ensures NextVersion(DayVersion(d, n), e) == if d == e then DayVersion(d, n + 1) else DayVersion(e, 1)
  {
    var prev, prefix := DayVersion(d, n), FormatDate(e) + ".";
    assert Itoa(1) == "1";
    DateSlices(d);
    DateSlices(e);
    if d == e {
      assert prev[..|prefix|] == prefix && prev[|prefix|..] == Itoa(n);
      AtoiItoa(n);
    } else if HasPrefix(prev, prefix) {
      assert FormatDate(d) == prev[..10] && FormatDate(e) == prefix[..10];
      FormatDateInjective(d, e);
    }
  }

  /** The text after the date is a number of at least 1, maybe with a plus sign. */
  predicate Counts(s: string) { IsNumeral(s) && s[0] != '-' && exists k :: 0 <= k < |s| && '1' <= s[k] <= '9' }

  lemma {:induction false} ValuePositive(s: string)
    requires AllDigits(s)
    ensures Value(s) > 0 <==> exists k :: 0 <= k < |s| && '1' <= s[k] <= '9'
  {
    if s != "" {
      var n := |s| - 1;
      ValuePositive(s[..n]);
      if k :| 0 <= k < |s| && '1' <= s[k] <= '9' {
        if k < n { assert s[..n][k] == s[k]; }
      }
      if Value(s[..n]) > 0 {
        var k :| 0 <= k < |s[..n]| && '1' <= s[..n][k] <= '9';
        assert '1' <= s[k] <= '9';
      } else if Value(s) > 0 {
        assert '1' <= s[n] <= '9';
      }
    }
  }

  lemma {:induction false} CountsExactly(s: string)
    ensures Counts(s) <==> Atoi(s).Some? && Atoi(s).value > 0
    ensures Counts(s) ==> AllDigits(Unsigned(s)) && Atoi(s) == Some(Value(Unsigned(s)))
  {
    AtoiExactly(s);
    if IsNumeral(s) {
      var u := Unsigned(s);
      DigitsByRange(u);
      ValuePositive(u);
      if u == s {
      } else {
        if k :| 0 <= k < |s| && '1' <= s[k] <= '9' { assert u[k - 1] == s[k]; }
        if k :| 0 <= k < |u| && '1' <= u[k] <= '9' { assert s[k + 1] == u[k]; }
      }
    }
  }

  /** Today's date and a counter before: the counter goes up by one. */
  lemma {:induction false} CounterGoesOn(count: string, now: Date)
    requires Counts(count)
    ensures AllDigits(Unsigned(count))
    ensures NextVersion(FormatDate(now) + "." + count, now) == DayVersion(now, Value(Unsigned(count)) + 1)
  {
    CountsExactly(count);
    var prev, prefix := FormatDate(now) + "." + count, FormatDate(now) + ".";
    assert prev[..|prefix|] == prefix && prev[|prefix|..] == count;
  }

  /** Anything else before, readable or not: it starts at 1. */
  lemma {:induction false} ElseCounterStarts(prev: string, now: Date)
    requires forall count :: Counts(count) ==> prev != FormatDate(now) + "." + count
    ensures NextVersion(prev, now) == DayVersion(now, 1)
  {
    assert Itoa(1) == "1";
    var prefix := FormatDate(now) + ".";
    if prev != "" && HasPrefix(prev, prefix) {
      CountsExactly(prev[|prefix|..]);
      assert prev == prefix + prev[|prefix|..];
    }
  }

  // ----- versions compare as dates ------------------------------------------

  lemma {:induction false} DayVersionIsPlain(d: Date, n: nat)
    requires ValidDate(d)
    ensures Free(DayVersion(d, n), ':') && Free(DayVersion(d, n), '-')
  {
    ItoaValue(n);
    var v, t := DayVersion(d, n), Itoa(n);
    assert forall k :: 0 <= k < |t| ==> IsDigit(t[k]);
    TwoIsDigits(d.year / 100);
    TwoIsDigits(d.year % 100);
    TwoIsDigits(d.month);
    TwoIsDigits(d.day);
    forall k | 0 <= k < |v| ensures IsDigit(v[k]) || v[k] == '.' {
      if k > 10 { assert v[k] == t[k - 11]; }
    }
  }

  lemma {:induction false} TwoIsDigits(n: nat)
    ensures |Two(n)| == 2 && IsDigit(Two(n)[0]) && IsDigit(Two(n)[1])
  {
  }

  /** Bootstrap versions are ordered by date, then by number within the day. */
  lemma {:induction false} DayVersionOrder(d: Date, n: nat, e: Date, m: nat)
    requires ValidDate(d) && ValidDate(e)
    requires Earlier(d, e) || (d == e && n < m)
    ensures Compare(DayVersion(d, n), DayVersion(e, m)) == -1
  {
    var v, w := DayVersion(d, n), DayVersion(e, m);
    DayVersionIsPlain(d, n);
    DayVersionIsPlain(e, m);
    PlainVersion(v);
    PlainVersion(w);
    DayVerrev(d, n, e, m);
  }

  /** The sign of the first difference that is not zero. */
  function FirstOf(a: int, b: int, c: int, d: int): int {
    if a != 0 then Sign(a) else if b != 0 then Sign(b) else if c != 0 then Sign(c) else Sign(d)
  }

  lemma {:induction false} DayVerrev(d: Date, n: nat, e: Date, m: nat)
    requires ValidDate(d) && ValidDate(e)
    ensures Verrev(DayVersion(d, n), DayVersion(e, m))
      == FirstOf(d.year - e.year, d.month - e.month, d.day - e.day, n - m)
  {
    var y1, m1, d1, n1 := DateParts(d, n);
    var y2, m2, d2, n2 := DateParts(e, m);
    VerrevReadsNumbers();
    DatesDecide(Verrev, d, n, y1, m1, d1, n1, e, m, y2, m2, d2, n2);
  }

  predicate Denotes(y: string, m: string, d: string, c: string, date: Date, n: nat) {
    && AllDigits(y) && AllDigits(m) && AllDigits(d) && AllDigits(c) && y != "" && m != "" && d != ""
    && Value(y) == date.year && Value(m) == date.month && Value(d) == date.day && Value(c) == n
  }

  /** A comparison that reads dotted numbers one after the other. */
  ghost predicate ReadsNumbers(f: (string, string) -> int) {
    && (forall x, r, y, q :: NumberFirst(f, x, r, y, q))
    && (forall x, y :: NumberLast(f, x, y))
  }

  predicate NumberFirst(f: (string, string) -> int, x: string, r: string, y: string, q: string) {
    AllDigits(x) && AllDigits(y) && x != "" && y != "" ==>
      f(x + ("." + r), y + ("." + q)) == if Value(x) != Value(y) then Sign(Value(x) - Value(y)) else f(r, q)
  }

  predicate NumberLast(f: (string, string) -> int, x: string, y: string) {
    AllDigits(x) && AllDigits(y) ==> f(x, y) == Sign(Value(x) - Value(y))
  }

  lemma {:induction false} VerrevReadsNumbers()
    ensures ReadsNumbers(Verrev)
  {
    forall x, r, y, q ensures NumberFirst(Verrev, x, r, y, q) {
      if AllDigits(x) && AllDigits(y) && x != "" && y != "" { DottedStep(x, r, y, q); }
    }
    forall x, y ensures NumberLast(Verrev, x, y) {
      if AllDigits(x) && AllDigits(y) { Numbers(x, y); }
    }
  }

  lemma {:induction false} DatesDecide(
    f: (string, string) -> int, d: Date, n: nat, y1: string, m1: string, d1: string, n1: string,
    e: Date, m: nat, y2: string, m2: string, d2: string, n2: string)
    requires ReadsNumbers(f) && Denotes(y1, m1, d1, n1, d, n) && Denotes(y2, m2, d2, n2, e, m)
    ensures f(Dotted(y1, m1, d1, n1), Dotted(y2, m2, d2, n2))
      == FirstOf(d.year - e.year, d.month - e.month, d.day - e.day, n - m)
  {
    assert NumberFirst(f, y1, m1 + ("." + (d1 + ("." + n1))), y2, m2 + ("." + (d2 + ("." + n2))));
    assert NumberFirst(f, m1, d1 + ("." + n1), m2, d2 + ("." + n2));
    assert NumberFirst(f, d1, n1, d2, n2);
    assert NumberLast(f, n1, n2);
  }

  lemma {:induction false} DateParts(d: Date, n: nat) returns (year: string, month: string, day: string, count: string)
    requires ValidDate(d)
    ensures DayVersion(d, n) == Dotted(year, month, day, count) && Denotes(year, month, day, count, d, n)
  {
    year, month, day, count := Two(d.year / 100) + Two(d.year % 100), Two(d.month), Two(d.day), Itoa(n);
    FourValue(d.year);
    TwoValue(d.month);
    TwoValue(d.day);
    ItoaValue(n);
    DayVersionSegments(d, n);
  }

  function Dotted(y: string, m: string, d: string, n: string): string { y + ("." + (m + ("." + (d + ("." + n))))) }

  lemma {:induction false} DayVersionSegments(d: Date, n: nat)
    ensures DayVersion(d, n) == Dotted(Two(d.year / 100) + Two(d.year % 100), Two(d.month), Two(d.day), Itoa(n))
  {
  }

  lemma {:induction false} DayVersionSound(d: Date, n: nat)
    requires ValidDate(d)
    ensures NoStrayNul(DayVersion(d, n))
  {
    ItoaValue(n);
    var v, t := DayVersion(d, n), Itoa(n);
    TwoIsDigits(d.year / 100);
    TwoIsDigits(d.year % 100);
    TwoIsDigits(d.month);
    TwoIsDigits(d.day);
    forall p: nat | p < |v| ensures v[p] != NUL {
      if p > 10 { assert v[p] == t[p - 11]; }
    }
  }

  // ----- where the package is served ----------------------------------------

  /** packageName[0] panics on "", which configuration validation excludes. */
  function PoolPath(packageName: string, version: string): string
    requires packageName != ""
  {
    "/pool/main/" + [packageName[0]] + "/" + packageName + "/" + packageName + "_" + version + "_all.deb"
  }

  function Filename(packageName: string, version: string): string { packageName + "_" + version + "_all.deb" }

  lemma {:induction false} PoolPathInjective(name: string, v: string, w: string)
    requires name != "" && PoolPath(name, v) == PoolPath(name, w)
    ensures v == w
  {
    var head := "/pool/main/" + [name[0]] + "/" + name + "/" + name + "_";
    assert PoolPath(name, v) == head + v + "_all.deb" && PoolPath(name, w) == head + w + "_all.deb";
    assert v == PoolPath(name, v)[|head|..|head| + |v|];
    assert w == PoolPath(name, w)[|head|..|head| + |w|];
  }

  // ----- ensureBootstrap ----------------------------------------------------

  datatype BootstrapState = BootstrapState(
    version: string, inputHash: string, filename: string, size: nat, sha256: string)

  /** nfpm and SHA-256: deterministic library functions. */
  datatype Tools = Tools(sha256: Bytes -> string, build: (Inputs, string) -> Result<Bytes>)

  /** What is on disk: bootstrap.json and the cached .debs by version. */
  datatype Disk = Disk(state: Option<BootstrapState>, debs: map<string, Bytes>)

  datatype Faults = Faults(debWriteFails: bool, stateWriteFails: bool)

  predicate Reusable(disk: Disk, hash: string) {
    disk.state.Some? && disk.state.value.inputHash == hash && disk.state.value.version in disk.debs
  }

  function VersionAfter(disk: Disk, now: Date): string {
    NextVersion(if disk.state.Some? then disk.state.value.version else "", now)
  }

  /** The disk after one call, and what the call returns. */
  function Ensure(
    disk: Disk, inp: Inputs, now: Date, tools: Tools, faults: Faults): (Disk, Result<(BootstrapState, Bytes)>)
  {
    var hash := InputHash(inp, tools.sha256);
    if Reusable(disk, hash) then (disk, Ok((disk.state.value, disk.debs[disk.state.value.version])))
    else
      var version := VersionAfter(disk, now);
      match tools.build(inp, version)
      case Err => (disk, Err)
      case Ok(body) =>
        if faults.debWriteFails then (disk, Err)
        else
          var debs := disk.debs[version := body];
          var state := BootstrapState(version, hash, Filename(inp.packageName, version), |body|, tools.sha256(body));
          if faults.stateWriteFails then (disk.(debs := debs), Err)
          else (Disk(Some(state), debs), Ok((state, body)))
  }

  class Store {
    var state: Option<BootstrapState>
    var debs: map<string, Bytes>

    function Contents(): Disk
      reads this
    {
      Disk(state, debs)
    }

    method EnsureBootstrap(inp: Inputs, now: Date, tools: Tools, faults: Faults)
        returns (r: Result<(BootstrapState, Bytes)>)
      modifies this
      ensures (Contents(), r) == Ensure(old(Contents()), inp, now, tools, faults)
    {
      var wantHash := InputHash(inp, tools.sha256);
      var prev := state;
      if prev.Some? && prev.value.inputHash == wantHash {
        if prev.value.version in debs {
          return Ok((prev.value, debs[prev.value.version]));
        }
      }
      var prevVersion := "";
      if prev.Some? { prevVersion := prev.value.version; }
      var newVersion := NextVersion(prevVersion, now);
      var built := tools.build(inp, newVersion);
      if built.Err? { return Err; }
      var body := built.value;
      if faults.debWriteFails { return Err; }
      debs := debs[newVersion := body];
      var st := BootstrapState(newVersion, wantHash, Filename(inp.packageName, newVersion), |body|, tools.sha256(body));
      if faults.stateWriteFails { return Err; }
      state := Some(st);
      return Ok((st, body));
    }
  }

  // ----- every sequence of calls --------------------------------------------

  /** A call, or a cached .deb disappearing from disk. */
  datatype Step = Call(inp: Inputs, now: Date, faults: Faults) | LoseDeb(version: string)

  function Apply(disk: Disk, step: Step, tools: Tools): Disk {
    match step
    case Call(inp, now, faults) => Ensure(disk, inp, now, tools, faults).0
    case LoseDeb(version) => disk.(debs := disk.debs - {version})
  }

  function DiskAfter(steps: seq<Step>, tools: Tools): Disk {
    if steps == [] then Disk(None, map[])
    else Apply(DiskAfter(steps[..|steps| - 1], tools), steps[|steps| - 1], tools)
  }

  /** Calls carry dates of the calendar; the clock may be set back. */
  predicate ValidDates(steps: seq<Step>) {
    forall i :: 0 <= i < |steps| && steps[i].Call? ==> ValidDate(steps[i].now)
  }

  /** The recorded version is the n-th of a date. */
  ghost predicate Dated(disk: Disk, d: Date, n: nat) {
    disk.state.Some? && ValidDate(d) && n > 0 && disk.state.value.version == DayVersion(d, n)
  }

  /** A successor is newer exactly when its date is not an earlier one. */
  lemma {:induction false} NextIsNewerExactly(d: Date, n: nat, e: Date)
    requires ValidDate(d) && ValidDate(e) && n > 0
    ensures Compare(DayVersion(d, n), NextVersion(DayVersion(d, n), e)) == if Earlier(e, d) then 1 else -1
  {
    NextDayVersion(d, n, e);
    if Earlier(e, d) {
      DayVersionOrder(e, 1, d, n);
      CompareAntisymmetric(DayVersion(e, 1), DayVersion(d, n));
    } else {
      DayVersionOrder(d, n, e, if d == e then n + 1 else 1);
    }
  }

  lemma {:induction false} StepDated(disk: Disk, step: Step, tools: Tools, d: Date, n: nat) returns (e: Date, m: nat)
    requires disk.state.Some? ==> Dated(disk, d, n)
    requires step.Call? ==> ValidDate(step.now)
    ensures var after := Apply(disk, step, tools);
      && (after.state.Some? ==> Dated(after, e, m))
      && (after.state == disk.state ==> e == d && m == n)
      && (after.state != disk.state ==> after.state.Some? && step.Call? && e == step.now)
      && (after.state != disk.state && disk.state.Some? ==>
            Compare(disk.state.value.version, after.state.value.version) == if Earlier(e, d) then 1 else -1)
  {
    var after := Apply(disk, step, tools);
    e, m := d, n;
    if after.state != disk.state {
      e := step.now;
      if disk.state.Some? {
        NextDayVersion(d, n, e);
        m := if d == e then n + 1 else 1;
        NextIsNewerExactly(d, n, e);
      } else {
        FirstVersion(e);
        m := 1;
      }
    }
  }

  /** The date of the call that wrote what is recorded after some steps. */
  function RecordDate(steps: seq<Step>, tools: Tools): Option<Date> {
    if steps == [] then None
    else
      var k := |steps| - 1;
      if steps[k].Call? && DiskAfter(steps, tools).state != DiskAfter(steps[..k], tools).state then Some(steps[k].now)
      else RecordDate(steps[..k], tools)
  }

  lemma {:induction false} RunDated(steps: seq<Step>, tools: Tools) returns (d: Date, n: nat)
    requires ValidDates(steps)
    ensures DiskAfter(steps, tools).state.Some? ==>
      Dated(DiskAfter(steps, tools), d, n) && RecordDate(steps, tools) == Some(d)
  {
    if steps == [] {
      d, n := Date(0, 1, 1), 1;
    } else {
      var k := |steps| - 1;
      d, n := RunDated(steps[..k], tools);
      d, n := StepDated(DiskAfter(steps[..k], tools), steps[k], tools, d, n);
    }
  }

  /** Step i replaces one record by another. */
  predicate Rebuilds(steps: seq<Step>, i: nat, tools: Tools)
    requires i < |steps|
  {
    var before := DiskAfter(steps[..i], tools).state;
    before.Some? && DiskAfter(steps[..i + 1], tools).state != before
  }

  /** Whether a rebuild's date is before that of the record it replaces. */
  predicate GoesBack(steps: seq<Step>, i: nat, tools: Tools)
    requires i < |steps|
  {
    && Rebuilds(steps, i, tools) && steps[i].Call? && RecordDate(steps[..i], tools).Some?
    && Earlier(steps[i].now, RecordDate(steps[..i], tools).value)
  }

  lemma {:induction false} ValidDatesPrefix(steps: seq<Step>, i: nat)
    requires ValidDates(steps) && i <= |steps|
    ensures ValidDates(steps[..i])
  {
  }

  /** In any run a rebuilt version is newer than the one it replaces exactly when the
      clock does not stand on an earlier date than when that one was written; else it is
      older. */
  lemma {:induction false} RebuildIsNewerExactly(steps: seq<Step>, i: nat, tools: Tools)
    requires ValidDates(steps) && i < |steps| && Rebuilds(steps, i, tools)
    ensures var s, t := DiskAfter(steps[..i], tools).state, DiskAfter(steps[..i + 1], tools).state;
      && s.Some? && t.Some? && NoStrayNul(s.value.version) && NoStrayNul(t.value.version)
      && Compare(s.value.version, t.value.version) == if GoesBack(steps, i, tools) then 1 else -1
  {
    var upto := steps[..i + 1];
    assert upto[..i] == steps[..i];
    ValidDatesPrefix(steps, i);
    var d, n := RunDated(steps[..i], tools);
    var e, m := StepDated(DiskAfter(steps[..i], tools), steps[i], tools, d, n);
    DayVersionSound(d, n);
    DayVersionSound(e, m);
  }

  lemma {:induction false} RecordedSound(steps: seq<Step>, i: nat, tools: Tools)
    requires ValidDates(steps) && i <= |steps| && DiskAfter(steps[..i], tools).state.Some?
    ensures NoStrayNul(DiskAfter(steps[..i], tools).state.value.version)
  {
    ValidDatesPrefix(steps, i);
    var d, n := RunDated(steps[..i], tools);
    DayVersionSound(d, n);
  }

  /** The same record, or one of a strictly newer version. */
  predicate Grew(s: BootstrapState, t: BootstrapState) { t == s || Compare(s.version, t.version) < 0 }

  /** Nothing before, or afterwards the same record or a strictly newer version. */
  predicate GrewTo(s: Option<BootstrapState>, t: Option<BootstrapState>) {
    s.Some? ==> t.Some? && Grew(s.value, t.value)
  }

  predicate SoundRecord(s: Option<BootstrapState>) { s.Some? ==> NoStrayNul(s.value.version) }

  lemma {:induction false} GrowthChains(s: Option<BootstrapState>, u: Option<BootstrapState>, t: Option<BootstrapState>)
    requires SoundRecord(s) && SoundRecord(u) && SoundRecord(t) && GrewTo(s, u) && GrewTo(u, t)
    ensures GrewTo(s, t)
  {
    if s.Some? && s != u && u != t { CompareTransitive(s.value.version, u.value.version, t.value.version); }
  }

  predicate ChainsWithin<T(==)>(le: (T, T) -> bool, xs: seq<T>) {
    && (forall x :: x in xs ==> le(x, x))
    && (forall x, y, z :: x in xs && y in xs && z in xs && le(x, y) && le(y, z) ==> le(x, z))
  }

  lemma {:induction false} HoldsThroughout<T>(le: (T, T) -> bool, xs: seq<T>, i: nat, j: nat)
    requires i <= j < |xs| && ChainsWithin(le, xs) && forall k :: i <= k < j ==> le(xs[k], xs[k + 1])
    ensures le(xs[i], xs[j])
    decreases j
  {
    if i < j {
      HoldsThroughout(le, xs, i, j - 1);
      assert le(xs[j - 1], xs[j - 1 + 1]);
    }
  }

  lemma {:induction false} GrowthChainsWithin(states: seq<Option<BootstrapState>>)
    requires forall k :: 0 <= k < |states| ==> SoundRecord(states[k])
    ensures ChainsWithin(GrewTo, states)
  {
    forall x, y, z | x in states && y in states && z in states && GrewTo(x, y) && GrewTo(y, z) ensures GrewTo(x, z) {
      GrowthChains(x, y, z);
    }
  }

  /** What is recorded before each step and after the last. */
  function Records(steps: seq<Step>, tools: Tools): (states: seq<Option<BootstrapState>>)
    ensures |states| == |steps| + 1 && forall k :: 0 <= k <= |steps| ==> states[k] == DiskAfter(steps[..k], tools).state
  {
    seq(|steps| + 1, k requires 0 <= k <= |steps| => DiskAfter(steps[..k], tools).state)
  }

  lemma {:induction false} StepGrowsExactly(steps: seq<Step>, k: nat, tools: Tools)
    requires ValidDates(steps) && k < |steps|
    ensures GrewTo(DiskAfter(steps[..k], tools).state, DiskAfter(steps[..k + 1], tools).state)
      <==> !GoesBack(steps, k, tools)
  {
    if Rebuilds(steps, k, tools) { RebuildIsNewerExactly(steps, k, tools); }
  }

  lemma {:induction false} RecordsAreSound(steps: seq<Step>, tools: Tools)
    requires ValidDates(steps)
    ensures forall k :: 0 <= k <= |steps| ==> SoundRecord(Records(steps, tools)[k])
    ensures forall k :: 0 <= k < |steps| ==>
      (GrewTo(Records(steps, tools)[k], Records(steps, tools)[k + 1]) <==> !GoesBack(steps, k, tools))
  {
    forall k | 0 <= k <= |steps| ensures SoundRecord(Records(steps, tools)[k]) {
      if DiskAfter(steps[..k], tools).state.Some? { RecordedSound(steps, k, tools); }
    }
    forall k | 0 <= k < |steps|
      ensures GrewTo(Records(steps, tools)[k], Records(steps, tools)[k + 1]) <==> !GoesBack(steps, k, tools) {
      StepGrowsExactly(steps, k, tools);
    }
  }

  lemma {:induction false} AllGrow(states: seq<Option<BootstrapState>>)
    requires forall k :: 0 <= k < |states| ==> SoundRecord(states[k])
    requires forall k :: 0 <= k < |states| - 1 ==> GrewTo(states[k], states[k + 1])
    ensures forall i, j :: 0 <= i <= j < |states| ==> GrewTo(states[i], states[j])
  {
    GrowthChainsWithin(states);
    forall i, j | 0 <= i <= j < |states| ensures GrewTo(states[i], states[j]) { HoldsThroughout(GrewTo, states, i, j); }
  }

  /** Over every run with builds, write faults and lost .debs in any order: what is
      recorded later is always the same record or a strictly newer version, exactly when no
      rebuild in it stands on an earlier date than the record it replaces. */
  lemma {:induction false} RecordedVersionsGrow(steps: seq<Step>, tools: Tools)
    requires ValidDates(steps)
    ensures (forall i, j :: 0 <= i <= j <= |steps| ==> GrewTo(Records(steps, tools)[i], Records(steps, tools)[j]))
      <==> forall k :: 0 <= k < |steps| ==> !GoesBack(steps, k, tools)
  {
    RecordsAreSound(steps, tools);
    if forall k :: 0 <= k < |steps| ==> !GoesBack(steps, k, tools) {
      AllGrow(Records(steps, tools));
    } else {
      var k :| 0 <= k < |steps| && GoesBack(steps, k, tools);
      assert !GrewTo(Records(steps, tools)[k], Records(steps, tools)[k + 1]);
    }
  }

  /** Calls carry dates that never go back. */
  predicate DatesAdvance(steps: seq<Step>) {
    forall i, j :: 0 <= i < j < |steps| && steps[i].Call? && steps[j].Call? ==> !Earlier(steps[j].now, steps[i].now)
  }

  /** A record's date is that of one of the calls. */
  lemma {:induction false} RecordDateIsACall(steps: seq<Step>, tools: Tools) returns (i: nat)
    requires RecordDate(steps, tools).Some?
    ensures i < |steps| && steps[i].Call? && RecordDate(steps, tools) == Some(steps[i].now)
  {
    var k := |steps| - 1;
    if steps[k].Call? && DiskAfter(steps, tools).state != DiskAfter(steps[..k], tools).state {
      i := k;
    } else {
      i := RecordDateIsACall(steps[..k], tools);
    }
  }

  /** A clock that does not go back is enough. */
  lemma {:induction false} AdvancingNeverGoesBack(steps: seq<Step>, k: nat, tools: Tools)
    requires DatesAdvance(steps) && k < |steps|
    ensures !GoesBack(steps, k, tools)
  {
    if RecordDate(steps[..k], tools).Some? {
      var i := RecordDateIsACall(steps[..k], tools);
      assert steps[..k][i] == steps[i];
    }
  }

  /** So a pool path never comes back for a different record. */
  lemma {:induction false} PoolPathNeverReused(steps: seq<Step>, i: nat, j: nat, tools: Tools, name: string)
    requires ValidDates(steps) && i <= j <= |steps| && name != ""
    requires forall k :: 0 <= k < |steps| ==> !GoesBack(steps, k, tools)
    requires DiskAfter(steps[..i], tools).state.Some?
    ensures var s, t := DiskAfter(steps[..i], tools).state, DiskAfter(steps[..j], tools).state;
      t.Some? && (t != s ==> PoolPath(name, s.value.version) != PoolPath(name, t.value.version))
  {
    RecordedVersionsGrow(steps, tools);
    assert GrewTo(Records(steps, tools)[i], Records(steps, tools)[j]);
    var s, t := DiskAfter(steps[..i], tools).state.value, DiskAfter(steps[..j], tools).state.value;
    CompareReflexive(s.version);
    if PoolPath(name, s.version) == PoolPath(name, t.version) { PoolPathInjective(name, s.version, t.version); }
  }

  /** Dates that go back do reuse a version: e, then d, then e again. */
  lemma {:induction false} ClockBackReuses(d: Date, e: Date)
    requires ValidDate(d) && ValidDate(e) && d != e
    ensures NextVersion(NextVersion(NextVersion("", e), d), e) == NextVersion("", e)
  {
    FirstVersion(e);
    NextDayVersion(e, 1, d);
    NextDayVersion(d, 1, e);
  }

  // ----- what a reused .deb was built from ----------------------------------

  /** A call of the run that built the recorded .deb, from inputs with the recorded hash. */
  predicate BuiltBy(steps: seq<Step>, i: nat, disk: Disk, tools: Tools)
    requires disk.state.Some? && disk.state.value.version in disk.debs
  {
    var st := disk.state.value;
    var body := disk.debs[st.version];
    && i < |steps| && steps[i].Call? && tools.build(steps[i].inp, st.version) == Ok(body)
    && InputHash(steps[i].inp, tools.sha256) == st.inputHash
    && st.size == |body| && st.sha256 == tools.sha256(body)
    && st.filename == Filename(steps[i].inp.packageName, st.version)
  }

  /** A build never writes over the recorded .deb. */
  lemma {:induction false} BuildsApart(disk: Disk, now: Date, d: Date, n: nat)
    requires disk.state.Some? && Dated(disk, d, n) && ValidDate(now)
    ensures VersionAfter(disk, now) != disk.state.value.version
  {
    NextDayVersion(d, n, now);
    if DayVersion(d, n) == VersionAfter(disk, now) { SameDayVersion(d, n, now, if d == now then n + 1 else 1); }
  }

  predicate HasDeb(disk: Disk) { disk.state.Some? && disk.state.value.version in disk.debs }

  lemma {:induction false} StepKeepsDeb(disk: Disk, step: Step, tools: Tools, d: Date, n: nat)
    requires disk.state.Some? ==> Dated(disk, d, n)
    requires step.Call? ==> ValidDate(step.now)
    requires var after := Apply(disk, step, tools); HasDeb(after) && after.state == disk.state
    ensures HasDeb(disk) && Apply(disk, step, tools).debs[disk.state.value.version]
      == disk.debs[disk.state.value.version]
  {
    if step.Call? { BuildsApart(disk, step.now, d, n); }
  }

  lemma {:induction false} StepBuilds(disk: Disk, step: Step, tools: Tools)
    requires Apply(disk, step, tools).state != disk.state
    ensures var after := Apply(disk, step, tools); HasDeb(after) && BuiltBy([step], 0, after, tools)
  {
  }

  /** Over every run, whatever the clock does, the recorded .deb, while it is there, was
      built by one of the calls for the recorded version, hash, name, size and checksum. */
  lemma {:induction false} RecordedDebIsBuilt(steps: seq<Step>, tools: Tools) returns (i: nat)
    requires ValidDates(steps) && HasDeb(DiskAfter(steps, tools))
    ensures BuiltBy(steps, i, DiskAfter(steps, tools), tools)
  {
    var k := |steps| - 1;
    var before := DiskAfter(steps[..k], tools);
    if DiskAfter(steps, tools).state == before.state {
      var d, n := RunDated(steps[..k], tools);
      StepKeepsDeb(before, steps[k], tools, d, n);
      i := RecordedDebIsBuilt(steps[..k], tools);
    } else {
      StepBuilds(before, steps[k], tools);
      i := k;
    }
  }

  lemma {:induction false} SameDayVersion(d: Date, n: nat, e: Date, m: nat)
    requires ValidDate(d) && ValidDate(e) && DayVersion(d, n) == DayVersion(e, m)
    ensures d == e && n == m
  {
    assert FormatDate(d) == DayVersion(d, n)[..10] && FormatDate(e) == DayVersion(e, m)[..10];
    FormatDateInjective(d, e);
    assert Itoa(n) == DayVersion(d, n)[11..] && Itoa(m) == DayVersion(e, m)[11..];
    ItoaValue(n);
    ItoaValue(m);
  }

  /** What ensureBootstrap returns after any run describes the bytes it returns. */
  lemma {:induction false} EnsureIsGenuine(steps: seq<Step>, last: Step, tools: Tools)
    requires ValidDates(steps) && last.Call?
    ensures match Ensure(DiskAfter(steps, tools), last.inp, last.now, tools, last.faults).1
      case Err => true
      case Ok((st, body)) => st.size == |body| && st.sha256 == tools.sha256(body)
  {
    if Reusable(DiskAfter(steps, tools), InputHash(last.inp, tools.sha256)) {
      var i := RecordedDebIsBuilt(steps, tools);
    }
  }

  lemma {:induction false} SameHashSameInputs(p: Inputs, q: Inputs, sha256: Bytes -> string)
    requires CollisionFree(sha256) && InputHash(p, sha256) == InputHash(q, sha256)
    ensures Bare(p) == Bare(q) && Confused(p.components, q.components) && Confused(p.architectures, q.architectures)
  {
    var kp, kq := sha256(p.keyring), sha256(q.keyring);
    assert sha256(Stream(p, kp)) == InputHash(p, sha256)[7..];
    assert sha256(Stream(q, kq)) == InputHash(q, sha256)[7..];
    StreamExactly(p, kp, q, kq);
  }

  /** With a collision-free hash the cached .deb is handed out only for the inputs it was
      built from: one of the calls of the run built these very bytes, from inputs that
      differ at most in lists with the same comma-separated pieces. */
  lemma {:induction false} ReuseIsForSameInputs(steps: seq<Step>, tools: Tools, inp: Inputs) returns (i: nat)
    requires ValidDates(steps) && CollisionFree(tools.sha256)
    requires Reusable(DiskAfter(steps, tools), InputHash(inp, tools.sha256))
    ensures var disk := DiskAfter(steps, tools);
      && BuiltBy(steps, i, disk, tools) && Bare(steps[i].inp) == Bare(inp)
      && Confused(steps[i].inp.components, inp.components) && Confused(steps[i].inp.architectures, inp.architectures)
  {
    i := RecordedDebIsBuilt(steps, tools);
    SameHashSameInputs(steps[i].inp, inp, tools.sha256);
  }

  /** Without commas in the lists: from the same inputs up to the order of the lists. */
  lemma {:induction false} ReuseIsUpToOrder(steps: seq<Step>, tools: Tools, inp: Inputs) returns (i: nat)
    requires ValidDates(steps) && CollisionFree(tools.sha256)
    requires Reusable(DiskAfter(steps, tools), InputHash(inp, tools.sha256))
    requires AllFree(inp.components, ',') && AllFree(inp.architectures, ',')
    requires forall k :: 0 <= k < |steps| && steps[k].Call? ==>
      AllFree(steps[k].inp.components, ',') && AllFree(steps[k].inp.architectures, ',')
    ensures var disk := DiskAfter(steps, tools);
      && BuiltBy(steps, i, disk, tools) && Bare(steps[i].inp) == Bare(inp)
      && SameList(steps[i].inp.components, inp.components) && SameList(steps[i].inp.architectures, inp.architectures)
  {
    i := ReuseIsForSameInputs(steps, tools, inp);
    ConfusedExactly(steps[i].inp.components, inp.components);
    ConfusedExactly(steps[i].inp.architectures, inp.architectures);
  }

  // ----- what one call comes to ---------------------------------------------

  /** There is a package on disk whose record has this hash. */
  ghost predicate Offers(disk: Disk, hash: string) {
    exists st :: disk.state == Some(st) && st.inputHash == hash && st.version in disk.debs
  }

  function PriorVersion(disk: Disk): string {
    match disk.state
    case None => ""
    case Some(st) => st.version
  }

  /** A call fails exactly when there is nothing to hand out and the package cannot be
      built, written or recorded. The record then stays, and only a package whose record
      could not be written is added to the disk. */
  lemma {:induction false} FailsExactly(disk: Disk, inp: Inputs, now: Date, tools: Tools, faults: Faults)
    ensures var (after, r) := Ensure(disk, inp, now, tools, faults);
      var v := NextVersion(PriorVersion(disk), now);
      var built := tools.build(inp, v);
      && (r.Err? <==> !Offers(disk, InputHash(inp, tools.sha256))
                      && (built.Err? || faults.debWriteFails || faults.stateWriteFails))
      && (r.Err? ==> after.state == disk.state)
      && (r.Err? ==>
            after.debs == if built.Err? || faults.debWriteFails then disk.debs else disk.debs[v := built.value])
  {
    if disk.state.Some? { assert disk.state == Some(disk.state.value); }
  }

  /** What a successful call returns is what is recorded and on disk afterwards. Nothing
      has changed if the record had this hash and its package was there; else a package was
      built under the next version and every other one is as before. */
  lemma {:induction false} ReturnsWhatIsRecorded(disk: Disk, inp: Inputs, now: Date, tools: Tools, faults: Faults)
    requires Ensure(disk, inp, now, tools, faults).1.Ok?
    ensures var (after, r) := Ensure(disk, inp, now, tools, faults);
      var (st, body) := r.value;
      && after.state == Some(st) && st.inputHash == InputHash(inp, tools.sha256)
      && st.version in after.debs && after.debs[st.version] == body
      && (Offers(disk, InputHash(inp, tools.sha256)) ==> after == disk)
      && (!Offers(disk, InputHash(inp, tools.sha256)) ==>
            && tools.build(inp, st.version) == Ok(body) && st.version == NextVersion(PriorVersion(disk), now)
            && (forall w :: w != st.version ==> (w in after.debs <==> w in disk.debs))
            && (forall w :: w != st.version && w in disk.debs ==> after.debs[w] == disk.debs[w]))
  {
    if disk.state.Some? { assert disk.state == Some(disk.state.value); }
  }

  /** Inputs that no hash tells apart: StreamExactly. */
  predicate Alike(p: Inputs, q: Inputs) {
    Bare(p) == Bare(q) && Confused(p.components, q.components) && Confused(p.architectures, q.architectures)
  }

  lemma {:induction false} AlikeHash(p: Inputs, q: Inputs, sha256: Bytes -> string)
    requires Alike(p, q)
    ensures InputHash(p, sha256) == InputHash(q, sha256)
  {
    StreamExactly(p, sha256(p.keyring), q, sha256(q.keyring));
  }

  /** Once a call has succeeded, calls for the same inputs, on any date and whatever writes
      would fail, return the same package and write nothing. */
  lemma {:induction false} AskingAgainChangesNothing(
    disk: Disk, p: Inputs, now: Date, tools: Tools, faults: Faults, q: Inputs, later: Date, others: Faults)
    requires Ensure(disk, p, now, tools, faults).1.Ok? && Alike(p, q)
    ensures var (after, r) := Ensure(disk, p, now, tools, faults); Ensure(after, q, later, tools, others) == (after, r)
  {
    ReturnsWhatIsRecorded(disk, p, now, tools, faults);
    AlikeHash(p, q, tools.sha256);
  }

  /** With a collision-free hash other inputs than the recorded package was built from, or
      the loss of that package, lead to a build under another version. */
  lemma {:induction false} ChangeIsBuilt(steps: seq<Step>, tools: Tools, i: nat, q: Inputs, now: Date)
    requires ValidDates(steps) && ValidDate(now) && CollisionFree(tools.sha256)
    requires var disk := DiskAfter(steps, tools);
      && disk.state.Some? && tools.build(q, NextVersion(disk.state.value.version, now)).Ok?
      && (HasDeb(disk) ==> BuiltBy(steps, i, disk, tools) && !Alike(steps[i].inp, q))
    ensures var disk := DiskAfter(steps, tools);
      var (after, r) := Ensure(disk, q, now, tools, Faults(false, false));
      && r.Ok? && r.value.0.version != disk.state.value.version
      && tools.build(q, r.value.0.version) == Ok(r.value.1) && after.state == Some(r.value.0)
  {
    var disk := DiskAfter(steps, tools);
    var hash := InputHash(q, tools.sha256);
    if Reusable(disk, hash) { SameHashSameInputs(steps[i].inp, q, tools.sha256); }
    var d, n := RunDated(steps, tools);
    BuildsApart(disk, now, d, n);
  }
}
