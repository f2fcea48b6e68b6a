/** internal/drayman/backend/reprepro: the stanza scanner of packages.go and the
    cached queries of backend.go. */
module Reprepro {
  import opened Text
  import Policy

  type Package = Policy.Package

  // ----- lines --------------------------------------------------------------

  function DropCR(line: string): string {
    if line != "" && line[|line| - 1] == '\r' then line[..|line| - 1] else line
  }

  /** One Scan of bufio.ScanLines: the next line and what is left. */
  function Scan(body: Bytes): (string, Bytes)
    requires body != ""
  {
    var i := Index(body, '\n');
    if i < 0 then (DropCR(body), "") else (DropCR(body[..i]), body[i + 1..])
  }

  function Lines(body: Bytes): seq<string>
    decreases |body|
  {
    if body == "" then [] else [Scan(body).0] + Lines(Scan(body).1)
  }

  predicate IsSpace(c: char) { c == ' ' || ('\t' <= c <= '\r') }

  function TrimSpace(s: string): (t: string)
    ensures |t| <= |s|
  {
    if s != "" && IsSpace(s[0]) then TrimSpace(s[1..])
    else if s != "" && IsSpace(s[|s| - 1]) then TrimSpace(s[..|s| - 1])
    else s
  }

  /** A continuation line, or a line without a colon, holds no field. */
  function FieldOf(line: string): Option<(string, string)>
    requires line != ""
  {
    if line[0] == ' ' || line[0] == '\t' then None
    else
      var colon := Index(line, ':');
      if colon < 0 then None else Some((line[..colon], TrimSpace(line[colon + 1..])))
  }

  // ----- the scanner --------------------------------------------------------

  function Set(p: Package, key: string, value: string): Package {
    if key == "Package" then p.(name := value)
    else if key == "Version" then p.(version := value)
    else if key == "Architecture" then p.(arch := value)
    else if key == "X-Cooper-Build-Inputs-Hash" then p.(hash := value)
    else p
  }

  datatype Scanner = Scanner(out: seq<Package>, cur: Package, hasFields: bool)

  const START := Scanner([], Policy.NO_PACKAGE, false)

  function Flush(s: Scanner): seq<Package> { if s.hasFields && s.cur.name != "" then s.out + [s.cur] else s.out }

  function Feed(s: Scanner, line: string): Scanner {
    if line == "" then Scanner(Flush(s), Policy.NO_PACKAGE, false)
    else
      match FieldOf(line)
      case None => s
      case Some((key, value)) => Scanner(s.out, Set(s.cur, key, value), true)
  }

  function FeedAll(s: Scanner, lines: seq<string>): Scanner
    decreases |lines|
  {
    if lines == [] then s else FeedAll(Feed(s, lines[0]), lines[1..])
  }

  lemma {:induction false} FeedNext(s: Scanner, rest: Bytes)
    requires rest != ""
    ensures FeedAll(s, Lines(rest)) == FeedAll(Feed(s, Scan(rest).0), Lines(Scan(rest).1))
  {
    assert Lines(rest)[0] == Scan(rest).0 && Lines(rest)[1..] == Lines(Scan(rest).1);
  }

  method ParsePackages(body: Bytes) returns (out: seq<Package>)
    ensures out == Parse(Lines(body))
  {
    out := [];
    var cur, hasFields := Policy.NO_PACKAGE, false;
    var rest := body;
    ghost var all := FeedAll(START, Lines(body));
    while rest != ""
      invariant all == FeedAll(Scanner(out, cur, hasFields), Lines(rest))
      decreases |rest|
    {
      FeedNext(Scanner(out, cur, hasFields), rest);
      var (line, left) := Scan(rest);
      rest := left;
      if line == "" {
        if hasFields && cur.name != "" { out := out + [cur]; }
        cur, hasFields := Policy.NO_PACKAGE, false;
        continue;
      }
      var field := FieldOf(line);
      if field.None? { continue; }
      cur, hasFields := Set(cur, field.value.0, field.value.1), true;
    }
    ScannerFromStart(Lines(body));
    if hasFields && cur.name != "" { out := out + [cur]; }
  }

  // ----- what it means ------------------------------------------------------

  /** The stanzas: the runs of lines between blank lines, empty runs included. */
  function FirstBlank(lines: seq<string>): (i: nat)
    ensures i <= |lines| && (i < |lines| ==> lines[i] == "") && forall k :: 0 <= k < i ==> lines[k] != ""
  {
    if lines == [] || lines[0] == "" then 0 else 1 + FirstBlank(lines[1..])
  }

  /** The value of a key in a stanza: that of its last field line, or empty. */
  function ValueOf(stanza: seq<string>, key: string): string {
    if stanza == [] then ""
    else
      var last := stanza[|stanza| - 1];
      if last != "" && FieldOf(last).Some? && FieldOf(last).value.0 == key then FieldOf(last).value.1
      else ValueOf(stanza[..|stanza| - 1], key)
  }

  function Record(stanza: seq<string>): Package {
    Policy.Package(ValueOf(stanza, "Package"), ValueOf(stanza, "Version"), ValueOf(stanza, "Architecture"),
                   ValueOf(stanza, "X-Cooper-Build-Inputs-Hash"))
  }

  function Emitted(stanza: seq<string>): seq<Package> {
    if Record(stanza).name != "" then [Record(stanza)] else []
  }

  /** Stanza by stanza, the record of each that names a package. */
  function Parse(lines: seq<string>): seq<Package>
    decreases |lines|
  {
    var i := FirstBlank(lines);
    if i == |lines| then Emitted(lines) else Emitted(lines[..i]) + Parse(lines[i + 1..])
  }

  predicate NoBlank(stanza: seq<string>) { forall k :: 0 <= k < |stanza| ==> stanza[k] != "" }

  /** The scanner in the middle of a stanza. */
  predicate Within(s: Scanner, stanza: seq<string>) {
    s.cur == Record(stanza) && (s.cur.name != "" ==> s.hasFields)
  }

  lemma {:induction false} FeedWithin(s: Scanner, stanza: seq<string>, line: string)
    requires Within(s, stanza) && line != ""
    ensures Within(Feed(s, line), stanza + [line]) && Feed(s, line).out == s.out
  {
    assert (stanza + [line])[..|stanza|] == stanza;
  }

  /** The scanner is the stanza-by-stanza reading. */
  lemma {:induction false} ScannerIsStanzas(s: Scanner, lines: seq<string>, stanza: seq<string>)
    requires Within(s, stanza) && NoBlank(stanza)
    ensures Flush(FeedAll(s, lines)) == s.out + Parse(stanza + lines)
    decreases |lines|
  {
    if lines == [] {
      assert stanza + lines == stanza;
      WholeStanza(stanza);
      FlushWithin(s, stanza);
    } else if lines[0] == "" {
      FeedBlank(s, stanza);
      ScannerIsStanzas(Feed(s, ""), lines[1..], []);
      assert [] + lines[1..] == lines[1..];
      BlankInside(s, stanza, lines);
    } else {
      FeedWithin(s, stanza, lines[0]);
      ScannerIsStanzas(Feed(s, lines[0]), lines[1..], stanza + [lines[0]]);
      LineInside(s, stanza, lines);
    }
  }

  lemma {:induction false} ScannerFromStart(lines: seq<string>)
    ensures Flush(FeedAll(START, lines)) == Parse(lines)
  {
    ScannerIsStanzas(START, lines, []);
    assert [] + lines == lines;
  }

  lemma {:induction false} LineInside(s: Scanner, stanza: seq<string>, lines: seq<string>)
    requires lines != [] && Feed(s, lines[0]).out == s.out
    requires Flush(FeedAll(Feed(s, lines[0]), lines[1..]))
      == Feed(s, lines[0]).out + Parse(stanza + [lines[0]] + lines[1..])
    ensures Flush(FeedAll(s, lines)) == s.out + Parse(stanza + lines)
  {
    assert stanza + lines == stanza + [lines[0]] + lines[1..];
  }

  lemma {:induction false} BlankInside(s: Scanner, stanza: seq<string>, lines: seq<string>)
    requires NoBlank(stanza) && lines != [] && lines[0] == "" && Feed(s, "").out == s.out + Emitted(stanza)
    requires Flush(FeedAll(Feed(s, ""), lines[1..])) == Feed(s, "").out + Parse(lines[1..])
    ensures Flush(FeedAll(s, lines)) == s.out + Parse(stanza + lines)
  {
    FeedHead(s, lines);
    BlankBefore(stanza, lines);
    Associates(s.out, Emitted(stanza), Parse(lines[1..]));
  }

  lemma {:induction false} FeedHead(s: Scanner, lines: seq<string>)
    requires lines != []
    ensures FeedAll(s, lines) == FeedAll(Feed(s, lines[0]), lines[1..])
  {
  }

  lemma {:induction false} BlankBefore(stanza: seq<string>, lines: seq<string>)
    requires NoBlank(stanza) && lines != [] && lines[0] == ""
    ensures Parse(stanza + lines) == Emitted(stanza) + Parse(lines[1..])
  {
    BlankSplits(stanza, lines[1..]);
    assert stanza + lines == stanza + [""] + lines[1..];
  }

  lemma {:induction false} Associates(a: seq<Package>, b: seq<Package>, c: seq<Package>)
    ensures (a + b) + c == a + (b + c)
  {
  }

  lemma {:induction false} FeedBlank(s: Scanner, stanza: seq<string>)
    requires Within(s, stanza)
    ensures Within(Feed(s, ""), []) && Feed(s, "").out == s.out + Emitted(stanza)
  {
    FlushWithin(s, stanza);
  }

  lemma {:induction false} WholeStanza(stanza: seq<string>)
    requires NoBlank(stanza)
    ensures Parse(stanza) == Emitted(stanza)
  {
    assert FirstBlank(stanza) == |stanza|;
  }

  lemma {:induction false} FlushWithin(s: Scanner, stanza: seq<string>)
    requires Within(s, stanza)
    ensures Flush(s) == s.out + Emitted(stanza)
  {
  }

  lemma {:induction false} BlankSplits(stanza: seq<string>, rest: seq<string>)
    requires NoBlank(stanza)
    ensures Parse(stanza + [""] + rest) == Emitted(stanza) + Parse(rest)
  {
    SplitAt(stanza + [""] + rest, stanza, rest);
  }

  lemma {:induction false} SplitAt(lines: seq<string>, stanza: seq<string>, rest: seq<string>)
    requires NoBlank(stanza) && lines == stanza + [""] + rest
    ensures Parse(lines) == Emitted(stanza) + Parse(rest)
  {
    assert FirstBlank(lines) == |stanza| by {
      assert lines[|stanza|] == "" && forall k :: 0 <= k < |stanza| ==> lines[k] == stanza[k];
    }
    assert lines[..|stanza|] == stanza && lines[|stanza| + 1..] == rest;
  }

  // ----- a homomorphism -----------------------------------------------------

  lemma {:induction false} ParseSplits(a: seq<string>, b: seq<string>)
    ensures Parse(a + [""] + b) == Parse(a) + Parse(b)
    decreases |a|
  {
    var i := FirstBlank(a);
    if i == |a| {
      BlankSplits(a, b);
    } else {
      var rest := a[i + 1..];
      assert a == a[..i] + [""] + rest;
      assert a + [""] + b == a[..i] + [""] + (rest + [""] + b);
      BlankSplits(a[..i], rest + [""] + b);
      ParseSplits(rest, b);
    }
  }

  predicate EndsLine(body: Bytes) { body == "" || body[|body| - 1] == '\n' }

  lemma {:induction false} LinesSplit(x: Bytes, y: Bytes)
    requires EndsLine(x)
    ensures Lines(x + y) == Lines(x) + Lines(y)
    decreases |x|
  {
    if x == "" {
      assert x + y == y;
    } else {
      ScanSplit(x, y);
      LinesSplit(Scan(x).1, y);
    }
  }

  lemma {:induction false} ScanSplit(x: Bytes, y: Bytes)
    requires EndsLine(x) && x != ""
    ensures Scan(x + y) == (Scan(x).0, Scan(x).1 + y) && EndsLine(Scan(x).1) && |Scan(x).1| < |x|
  {
    var i := Index(x, '\n');
    assert i >= 0;
    assert forall k :: 0 <= k <= i ==> (x + y)[k] == x[k];
    IndexAt(x + y, i);
    assert (x + y)[..i] == x[..i] && (x + y)[i + 1..] == x[i + 1..] + y;
  }

  lemma {:induction false} IndexAt(s: string, i: nat)
    requires i < |s| && s[i] == '\n' && forall k :: 0 <= k < i ==> s[k] != '\n'
    ensures Index(s, '\n') == i
  {
  }

  /** A file of stanzas, a blank line and another parse to both parses in turn. */
  lemma {:induction false} BlankLineSeparates(x: Bytes, y: Bytes)
    requires EndsLine(x)
    ensures Parse(Lines(x + "\n" + y)) == Parse(Lines(x)) + Parse(Lines(y))
  {
    assert x + "\n" + y == x + ("\n" + y);
    LinesSplit(x, "\n" + y);
    LinesSplit("\n", y);
    IndexAt("\n", 0);
    assert Lines("\n") == [""];
    assert Lines(x) + ([""] + Lines(y)) == Lines(x) + [""] + Lines(y);
    ParseSplits(Lines(x), Lines(y));
  }

  // ----- a printer ----------------------------------------------------------

  predicate Clean(value: string) { '\n' !in value && TrimSpace(value) == value }

  /** Fields the parser skips: continuation lines and other keys. */
  predicate Skipped(line: string) {
    && '\n' !in line && line != "" && line[|line| - 1] != '\r'
    && (FieldOf(line).None? || Set(Policy.NO_PACKAGE, FieldOf(line).value.0, "x") == Policy.NO_PACKAGE)
  }

  datatype Stanza = Stanza(package: Package, others: seq<string>)

  predicate Printable(s: Stanza) {
    && s.package.name != ""
    && Clean(s.package.name) && Clean(s.package.version) && Clean(s.package.arch) && Clean(s.package.hash)
    && forall line :: line in s.others ==> Skipped(line)
  }

  function Field(key: string, value: string): string { key + ": " + value }

  function FieldLines(p: Package): seq<string> {
    [Field("Package", p.name), Field("Version", p.version),
     Field("Architecture", p.arch), Field("X-Cooper-Build-Inputs-Hash", p.hash)]
  }

  function StanzaLines(s: Stanza): seq<string> { FieldLines(s.package) + s.others }

  function Unlines(lines: seq<string>): Bytes { if lines == [] then "" else lines[0] + "\n" + Unlines(lines[1..]) }

  function Print(stanzas: seq<Stanza>): Bytes {
    if stanzas == [] then "" else Unlines(StanzaLines(stanzas[0])) + "\n" + Print(stanzas[1..])
  }

  predicate Kept(line: string) { '\n' !in line && DropCR(line) == line }

  lemma {:induction false} ScanFirst(first: string, rest: Bytes)
    requires Kept(first)
    ensures Scan(first + "\n" + rest) == (first, rest) && (EndsLine(rest) ==> EndsLine(first + "\n" + rest))
  {
    var body := first + "\n" + rest;
    assert body[|first|] == '\n' && forall k :: 0 <= k < |first| ==> body[k] == first[k];
    IndexAt(body, |first|);
    assert body[..|first|] == first && body[|first| + 1..] == rest;
  }

  lemma {:induction false} UnlinesLines(lines: seq<string>)
    requires forall line :: line in lines ==> Kept(line)
    ensures EndsLine(Unlines(lines)) && Lines(Unlines(lines)) == lines
  {
    if lines != [] {
      ScanFirst(lines[0], Unlines(lines[1..]));
      UnlinesLines(lines[1..]);
    }
  }

  predicate Reads(line: string, key: string, value: string) {
    Kept(line) && line != "" && FieldOf(line) == Some((key, value))
  }

  predicate PlainKey(key: string) { Free(key, ':') && Free(key, '\n') && key != "" && !IsSpace(key[0]) }

  lemma {:induction false} PlainKeys()
    ensures PlainKey("Package") && PlainKey("Version") && PlainKey("Architecture")
  {
  }

  lemma {:induction false} PlainHashKey()
    ensures PlainKey("X-Cooper-Build-Inputs-Hash")
  {
  }

  /** A cleanly printed field line survives the line scanner and gives its value back. */
  lemma {:induction false} FieldReadsBack(key: string, value: string)
    requires PlainKey(key) && Clean(value)
    ensures Reads(Field(key, value), key, value)
  {
    var line := Field(key, value);
    assert line[|key|] == ':' && forall k :: 0 <= k < |key| ==> line[k] == key[k];
    ColonAt(line, |key|);
    assert line[..|key|] == key && line[|key| + 1..] == " " + value;
    assert (" " + value)[1..] == value;
    if value != "" { assert line[|line| - 1] == value[|value| - 1] && !IsSpace(value[|value| - 1]); }
    assert TrimSpace(" " + value) == value;
  }

  lemma {:induction false} ColonAt(s: string, i: nat)
    requires i < |s| && s[i] == ':' && forall k :: 0 <= k < i ==> s[k] != ':'
    ensures Index(s, ':') == i
  {
  }

  lemma {:induction false} SkippedKeepsValue(stanza: seq<string>, others: seq<string>, key: string)
    requires forall line :: line in others ==> Skipped(line)
    requires Set(Policy.NO_PACKAGE, key, "x") != Policy.NO_PACKAGE
    ensures ValueOf(stanza + others, key) == ValueOf(stanza, key)
  {
    if others == [] {
      assert stanza + others == stanza;
    } else {
      var n := |others| - 1;
      assert (stanza + others)[..|stanza + others| - 1] == stanza + others[..n];
      assert (stanza + others)[|stanza + others| - 1] == others[n] && Skipped(others[n]);
      SkippedKeepsValue(stanza, others[..n], key);
    }
  }

  lemma {:induction false} RecordSnoc(stanza: seq<string>, line: string)
    requires line != "" && FieldOf(line).Some?
    ensures Record(stanza + [line]) == Set(Record(stanza), FieldOf(line).value.0, FieldOf(line).value.1)
  {
    assert (stanza + [line])[..|stanza|] == stanza;
  }

  lemma {:induction false} StanzaReadsBack(s: Stanza)
    requires Printable(s)
    ensures Record(StanzaLines(s)) == s.package
  {
    FieldLinesRecord(s.package);
    SkippedKeeps(FieldLines(s.package), s.others);
  }

  lemma {:induction false} FieldLinesRecord(p: Package)
    requires Clean(p.name) && Clean(p.version) && Clean(p.arch) && Clean(p.hash)
    ensures Record(FieldLines(p)) == p
  {
    FieldsReadBack(p);
    FourFields(Field("Package", p.name), Field("Version", p.version), Field("Architecture", p.arch),
               Field("X-Cooper-Build-Inputs-Hash", p.hash), p);
  }

  lemma {:induction false} FourFields(n: string, v: string, a: string, h: string, p: Package)
    requires Reads(n, "Package", p.name) && Reads(v, "Version", p.version) && Reads(a, "Architecture", p.arch)
    requires Reads(h, "X-Cooper-Build-Inputs-Hash", p.hash)
    ensures Record([n, v, a, h]) == p
  {
    KeysDiffer();
    RecordSnoc([], n);
    var one := [] + [n];
    assert Record(one) == Policy.NO_PACKAGE.(name := p.name);
    RecordSnoc(one, v);
    var two := one + [v];
    assert Record(two) == Policy.NO_PACKAGE.(name := p.name, version := p.version);
    RecordSnoc(two, a);
    var three := two + [a];
    assert Record(three) == p.(hash := "");
    RecordSnoc(three, h);
    assert three + [h] == [n, v, a, h];
  }

  lemma {:induction false} KeysDiffer()
    ensures "Package" != "Version" && "Package" != "Architecture" && "Version" != "Architecture"
    ensures "X-Cooper-Build-Inputs-Hash" !in ["Package", "Version", "Architecture"]
  {
    assert "Package"[0] == 'P' && "Version"[0] == 'V' && "Architecture"[0] == 'A';
    assert "X-Cooper-Build-Inputs-Hash"[0] == 'X';
  }

  lemma {:induction false} SkippedKeeps(stanza: seq<string>, others: seq<string>)
    requires forall line :: line in others ==> Skipped(line)
    ensures Record(stanza + others) == Record(stanza)
  {
    SkippedKeepsValue(stanza, others, "Package");
    SkippedKeepsValue(stanza, others, "Version");
    SkippedKeepsValue(stanza, others, "Architecture");
    SkippedKeepsValue(stanza, others, "X-Cooper-Build-Inputs-Hash");
  }

  lemma {:induction false} FieldsReadBack(p: Package)
    requires Clean(p.name) && Clean(p.version) && Clean(p.arch) && Clean(p.hash)
    ensures Reads(Field("Package", p.name), "Package", p.name)
    ensures Reads(Field("Version", p.version), "Version", p.version)
    ensures Reads(Field("Architecture", p.arch), "Architecture", p.arch)
    ensures Reads(Field("X-Cooper-Build-Inputs-Hash", p.hash), "X-Cooper-Build-Inputs-Hash", p.hash)
  {
    PlainKeys();
    PlainHashKey();
    FieldReadsBack("Package", p.name);
    FieldReadsBack("Version", p.version);
    FieldReadsBack("Architecture", p.arch);
    FieldReadsBack("X-Cooper-Build-Inputs-Hash", p.hash);
  }

  lemma {:induction false} StanzaLinesKept(s: Stanza)
    requires Printable(s)
    ensures NoBlank(StanzaLines(s)) && forall line :: line in StanzaLines(s) ==> Kept(line)
  {
    FieldLinesKept(s.package);
    KeptTogether(FieldLines(s.package), s.others);
  }

  lemma {:induction false} FieldLinesKept(p: Package)
    requires Clean(p.name) && Clean(p.version) && Clean(p.arch) && Clean(p.hash)
    ensures forall k :: 0 <= k < |FieldLines(p)| ==> Kept(FieldLines(p)[k]) && FieldLines(p)[k] != ""
  {
    FieldsReadBack(p);
    AllFour(Field("Package", p.name), Field("Version", p.version), Field("Architecture", p.arch),
            Field("X-Cooper-Build-Inputs-Hash", p.hash));
  }

  lemma {:induction false} AllFour(n: string, v: string, a: string, h: string)
    requires Kept(n) && Kept(v) && Kept(a) && Kept(h) && n != "" && v != "" && a != "" && h != ""
    ensures forall k :: 0 <= k < |[n, v, a, h]| ==> Kept([n, v, a, h][k]) && [n, v, a, h][k] != ""
  {
  }

  lemma {:induction false} KeptTogether(fields: seq<string>, others: seq<string>)
    requires forall k :: 0 <= k < |fields| ==> Kept(fields[k]) && fields[k] != ""
    requires forall line :: line in others ==> Skipped(line)
    ensures NoBlank(fields + others) && forall line :: line in fields + others ==> Kept(line)
  {
    forall k | 0 <= k < |fields + others| ensures Kept((fields + others)[k]) && (fields + others)[k] != "" {
      if k >= |fields| { SkippedKept(others, k - |fields|); }
    }
  }

  lemma {:induction false} SkippedKept(others: seq<string>, k: nat)
    requires k < |others| && forall line :: line in others ==> Skipped(line)
    ensures Kept(others[k]) && others[k] != ""
  {
    assert Skipped(others[k]);
  }

  function Packages(stanzas: seq<Stanza>): seq<Package> {
    if stanzas == [] then [] else [stanzas[0].package] + Packages(stanzas[1..])
  }

  /** Parsing what was printed gives every package back, whatever other fields and
      continuation lines the stanzas carry. */
  lemma {:induction false} PrintReadsBack(stanzas: seq<Stanza>)
    requires forall s :: s in stanzas ==> Printable(s)
    ensures Parse(Lines(Print(stanzas))) == Packages(stanzas)
  {
    if stanzas != [] {
      var s := stanzas[0];
      StanzaLinesKept(s);
      UnlinesLines(StanzaLines(s));
      StanzaReadsBack(s);
      WholeStanza(StanzaLines(s));
      BlankLineSeparates(Unlines(StanzaLines(s)), Print(stanzas[1..]));
      PrintReadsBack(stanzas[1..]);
    }
  }

  // ----- one reading of the target ------------------------------------------

  /** What is there: the listed Packages files and the bytes of those that still exist. */
  datatype Target = Target(listing: seq<string>, files: map<string, Bytes>)

  /** What goes wrong during one reading: the listing, or the reading of some files. A
      transport may fail once and work the next time. */
  datatype Faults = Faults(listing: bool, files: set<string>)

  const NO_FAULTS := Faults(false, {})

  /** A file that has gone since the listing is skipped; one that cannot be read fails. */
  function FetchFiles(target: Target, faults: Faults, paths: seq<string>): Result<seq<Package>> {
    if paths == [] then Ok([])
    else
      var n := |paths| - 1;
      var all := FetchFiles(target, faults, paths[..n]);
      if all.Err? || paths[n] in faults.files then Err
      else if paths[n] !in target.files then all
      else Ok(all.value + Parse(Lines(target.files[paths[n]])))
  }

  function Fetch(target: Target, faults: Faults): Result<seq<Package>> {
    if faults.listing then Err else FetchFiles(target, faults, target.listing)
  }

  method FetchSnapshot(target: Target, faults: Faults) returns (r: Result<seq<Package>>)
    ensures r == Fetch(target, faults)
  {
    if faults.listing { return Err; }
    var paths := target.listing;
    var all: seq<Package> := [];
    for i := 0 to |paths|
      invariant FetchFiles(target, faults, paths[..i]) == Ok(all)
    {
      FetchPrefix(paths, i);
      if paths[i] in faults.files {
        FetchFilesExactly(target, faults, paths);
        return Err;
      }
      if paths[i] !in target.files { continue; }
      var more := ParsePackages(target.files[paths[i]]);
      all := all + more;
    }
    assert paths[..|paths|] == paths;
    return Ok(all);
  }

  lemma {:induction false} FetchPrefix(paths: seq<string>, i: nat)
    requires i < |paths|
    ensures paths[..i + 1][..i] == paths[..i] && paths[..i + 1][i] == paths[i]
  {
  }

  /** A reading meets a fault. */
  predicate Meets(target: Target, faults: Faults) { faults.listing || AnyIn(target.listing, faults.files) }

  predicate AnyIn(paths: seq<string>, lost: set<string>) { exists i :: 0 <= i < |paths| && paths[i] in lost }

  /** The records of the files that exist, in listing order. */
  function Records(target: Target, paths: seq<string>): seq<Package> {
    if paths == [] then []
    else
      var n := |paths| - 1;
      Records(target, paths[..n]) + if paths[n] in target.files then Parse(Lines(target.files[paths[n]])) else []
  }

  lemma {:induction false} FetchFilesExactly(target: Target, faults: Faults, paths: seq<string>)
    ensures FetchFiles(target, faults, paths)
      == if AnyIn(paths, faults.files) then Err else Ok(Records(target, paths))
  {
    if paths != [] {
      var n := |paths| - 1;
      FetchFilesExactly(target, faults, paths[..n]);
      AnyInSnoc(paths, faults.files);
      assert Records(target, paths[..n]) + [] == Records(target, paths[..n]);
    }
  }

  lemma {:induction false} AnyInSnoc(paths: seq<string>, lost: set<string>)
    requires paths != []
    ensures var n := |paths| - 1; AnyIn(paths, lost) <==> AnyIn(paths[..n], lost) || paths[n] in lost
  {
    var n := |paths| - 1;
    assert forall i :: 0 <= i < n ==> paths[..n][i] == paths[i];
  }

  /** A reading gives the records of the target, unless it meets a fault. */
  lemma {:induction false} FetchExactly(target: Target, faults: Faults)
    ensures Fetch(target, faults) == if Meets(target, faults) then Err else Ok(Records(target, target.listing))
  {
    FetchFilesExactly(target, faults, target.listing);
  }

  // ----- the cached backend -------------------------------------------------

  function HashAnswer(all: Result<seq<Package>>, hash: string): Result<bool> {
    if all.Err? then Err else Ok(Policy.HashExists(all.value, hash))
  }

  function ListAnswer(all: Result<seq<Package>>, name: string, arch: string): Result<seq<Package>> {
    if all.Err? then Err else Ok(Policy.ListByNameArch(all.value, name, arch))
  }

  /** includedeb's outcome: None for a failure, or the target afterwards. */
  type Included = Option<Target>

  type Cache = Option<Result<seq<Package>>>

  /** What a query looks at: the reading kept from an earlier query, its failure
      included, or else one of its own. */
  function Seen(cache: Cache, target: Target, faults: Faults): Result<seq<Package>> {
    if cache.Some? then cache.value else Fetch(target, faults)
  }

  class Backend {
    var cache: seq<Package>
    var cacheErr: bool
    var cached: bool

    constructor ()
      ensures Cached() == None
    {
      cache, cacheErr, cached := [], false, false;
    }

    ghost function Cached(): Cache
      reads this
    {
      if !cached then None else Some(if cacheErr then Err else Ok(cache))
    }

    method Snapshot(target: Target, faults: Faults) returns (r: Result<seq<Package>>)
      modifies this
      ensures r == Seen(old(Cached()), target, faults) && Cached() == Some(r)
    {
      if !cached {
        var all := FetchSnapshot(target, faults);
        cacheErr := all.Err?;
        cache := if all.Ok? then all.value else [];
        cached := true;
      }
      r := if cacheErr then Err else Ok(cache);
    }

    method HashExists(target: Target, faults: Faults, hash: string) returns (r: Result<bool>)
      modifies this
      ensures var all := Seen(old(Cached()), target, faults); r == HashAnswer(all, hash) && Cached() == Some(all)
    {
      var all := Snapshot(target, faults);
      if all.Err? { return Err; }
      for i := 0 to |all.value|
        invariant forall k :: 0 <= k < i ==> all.value[k].hash != hash
      {
        if all.value[i].hash == hash {
          assert all.value[i] in all.value;
          return Ok(true);
        }
      }
      return Ok(false);
    }

    method ListByNameArch(target: Target, faults: Faults, name: string, arch: string)
      returns (r: Result<seq<Package>>)
      modifies this
      ensures var all := Seen(old(Cached()), target, faults); r == ListAnswer(all, name, arch) && Cached() == Some(all)
    {
      var all := Snapshot(target, faults);
      if all.Err? { return Err; }
      var out: seq<Package> := [];
      ghost var whole := Policy.ListByNameArch(all.value, name, arch);
      for i := 0 to |all.value|
        invariant Cached() == Some(all) && out + Policy.ListByNameArch(all.value[i..], name, arch) == whole
      {
        MatchingStep(all.value, name, arch, i, out);
        if all.value[i].name == name && all.value[i].arch == arch { out := out + [all.value[i]]; }
      }
      assert out + Policy.ListByNameArch([], name, arch) == out;
      assert all.value[|all.value|..] == [];
      return Ok(out);
    }

    /** A failed stage or includedeb leaves the target, and then the cache, alone. */
    method Import(target: Target, staged: bool, included: Included) returns (ok: bool, after: Target)
      modifies this
      ensures ok == (staged && included.Some?) && after == if ok then included.value else target
      ensures Cached() == if ok then None else old(Cached())
    {
      if !staged || included.None? { return false, target; }
      cached, cache, cacheErr := false, [], false;
      return true, included.value;
    }
  }

  lemma {:induction false} MatchingStep(ps: seq<Package>, name: string, arch: string, i: nat, out: seq<Package>)
    requires i < |ps|
    ensures out + Policy.ListByNameArch(ps[i..], name, arch)
      == (if ps[i].name == name && ps[i].arch == arch then out + [ps[i]] else out)
         + Policy.ListByNameArch(ps[i + 1..], name, arch)
  {
    assert ps[i..][1..] == ps[i + 1..];
  }

  // ----- every sequence of queries and imports ------------------------------

  /** Each query carries the faults a reading would meet at its time. */
  datatype Op =
    | HashExists(hash: string, faults: Faults)
    | ListByNameArch(name: string, arch: string, faults: Faults)
    | Import(staged: bool, included: Included)

  datatype Answer = Exists(r: Result<bool>) | Listed(list: Result<seq<Package>>) | Imported(ok: bool)

  predicate Succeeds(op: Op) { op.Import? && op.staged && op.included.Some? }

  /** The target after some operations: only a successful import changes it. */
  function TargetAfter(target: Target, ops: seq<Op>): Target {
    if ops == [] then target
    else
      var n := |ops| - 1;
      if Succeeds(ops[n]) then ops[n].included.value else TargetAfter(target, ops[..n])
  }

  /** The answer to an operation, given what a query looks at. */
  function AnswerOn(all: Result<seq<Package>>, op: Op): Answer {
    match op
    case HashExists(hash, _) => Exists(HashAnswer(all, hash))
    case ListByNameArch(name, arch, _) => Listed(ListAnswer(all, name, arch))
    case Import(_, _) => Imported(Succeeds(op))
  }

  /** The answer of a backend that reads the target afresh for every query. */
  function Direct(target: Target, ops: seq<Op>, i: nat): Answer
    requires i < |ops|
  {
    AnswerOn(if ops[i].Import? then Err else Fetch(TargetAfter(target, ops[..i]), ops[i].faults), ops[i])
  }

  /** The query whose reading the cache holds after some operations. */
  function Filler(ops: seq<Op>): (f: Option<nat>)
    ensures f.Some? ==> f.value < |ops| && !ops[f.value].Import?
  {
    if ops == [] then None
    else
      var n := |ops| - 1;
      if Succeeds(ops[n]) then None
      else if Filler(ops[..n]).None? && !ops[n].Import? then Some(n)
      else Filler(ops[..n])
  }

  /** That is the first query since the last successful import. */
  lemma {:induction false} FillerIsFirst(ops: seq<Op>, lo: nat)
    requires lo <= |ops| && (lo == 0 || Succeeds(ops[lo - 1]))
    requires forall k :: lo <= k < |ops| ==> !Succeeds(ops[k])
    ensures Filler(ops).None? ==> forall k :: lo <= k < |ops| ==> ops[k].Import?
    ensures Filler(ops).Some? ==>
      lo <= Filler(ops).value && forall k :: lo <= k < Filler(ops).value ==> ops[k].Import?
  {
    if lo < |ops| {
      var n := |ops| - 1;
      assert forall k :: 0 <= k < n ==> ops[..n][k] == ops[k];
      FillerIsFirst(ops[..n], lo);
    }
  }

  /** The cached reading is one of the present target, with the faults of its own time. */
  function CacheAfter(target: Target, ops: seq<Op>): Cache {
    if Filler(ops).None? then None
    else Some(Fetch(TargetAfter(target, ops), ops[Filler(ops).value].faults))
  }

  /** The query at i is answered from a reading that fails exactly when its own would:
      the faults are those of the query that filled the cache, at its time. */
  predicate Current(target: Target, ops: seq<Op>, i: nat)
    requires i < |ops|
  {
    !ops[i].Import? && Filler(ops[..i]).Some? ==>
      var now := TargetAfter(target, ops[..i]);
      Meets(now, ops[Filler(ops[..i]).value].faults) == Meets(now, ops[i].faults)
  }

  function Cached(target: Target, ops: seq<Op>, i: nat): Answer
    requires i < |ops|
  {
    AnswerOn(if ops[i].Import? then Err
             else Seen(CacheAfter(target, ops[..i]), TargetAfter(target, ops[..i]), ops[i].faults),
             ops[i])
  }

  /** The cached backend and the one that reads afresh give the same answer exactly when
      the reading in the cache met a fault if and only if one now would. */
  lemma {:induction false} CachedIsDirectExactly(target: Target, ops: seq<Op>, i: nat)
    requires i < |ops|
    ensures Cached(target, ops, i) == Direct(target, ops, i) <==> Current(target, ops, i)
  {
    if !ops[i].Import? && Filler(ops[..i]).Some? {
      var now := TargetAfter(target, ops[..i]);
      FetchExactly(now, ops[Filler(ops[..i]).value].faults);
      FetchExactly(now, ops[i].faults);
    }
  }

  /** A failure of the transport is remembered: the second query of this run has nothing
      to fear, reads nothing, and fails all the same. */
  lemma {:induction false} FailureIsRemembered(target: Target, hash: string)
    ensures var ops := [HashExists(hash, Faults(true, {})), HashExists(hash, NO_FAULTS)];
      && Cached(target, ops, 1) == Exists(Err)
      && Direct(target, ops, 1) == Exists(Ok(Policy.HashExists(Records(target, target.listing), hash)))
  {
    var ops := [HashExists(hash, Faults(true, {})), HashExists(hash, NO_FAULTS)];
    var first := ops[..1];
    assert first[..0] == [] && Filler(first[..0]) == None;
    assert Filler(first) == Some(0);
    assert TargetAfter(target, first) == target;
    FetchExactly(target, NO_FAULTS);
  }

  /** When no reading fails the two always agree. */
  lemma {:induction false} AgreeWithoutFaults(target: Target, ops: seq<Op>, i: nat)
    requires i < |ops| && forall k :: 0 <= k <= i && !ops[k].Import? ==> ops[k].faults == NO_FAULTS
    ensures Cached(target, ops, i) == Direct(target, ops, i)
  {
    CachedIsDirectExactly(target, ops, i);
    if !ops[i].Import? && Filler(ops[..i]).Some? {
      var f := Filler(ops[..i]).value;
      assert ops[..i][f] == ops[f];
    }
  }

  lemma {:induction false} StepKeepsCache(target: Target, ops: seq<Op>, i: nat)
    requires i < |ops|
    ensures TargetAfter(target, ops[..i + 1])
      == if Succeeds(ops[i]) then ops[i].included.value else TargetAfter(target, ops[..i])
    ensures CacheAfter(target, ops[..i + 1])
      == if Succeeds(ops[i]) then None
         else if ops[i].Import? then CacheAfter(target, ops[..i])
         else Some(Seen(CacheAfter(target, ops[..i]), TargetAfter(target, ops[..i]), ops[i].faults))
  {
    assert ops[..i + 1][..i] == ops[..i];
  }

  predicate AnsweredTo(target: Target, ops: seq<Op>, answers: seq<Answer>) {
    |answers| <= |ops| && forall i :: 0 <= i < |answers| ==> answers[i] == Cached(target, ops, i)
  }

  lemma {:induction false} OneMoreAnswer(target: Target, ops: seq<Op>, answers: seq<Answer>)
    requires AnsweredTo(target, ops, answers) && |answers| < |ops|
    ensures AnsweredTo(target, ops, answers + [Cached(target, ops, |answers|)])
  {
  }

  lemma {:induction false} AnswersCompared(target: Target, ops: seq<Op>, answers: seq<Answer>)
    requires AnsweredTo(target, ops, answers)
    ensures forall i :: 0 <= i < |answers| ==> (answers[i] == Direct(target, ops, i) <==> Current(target, ops, i))
  {
    forall i | 0 <= i < |answers| ensures answers[i] == Direct(target, ops, i) <==> Current(target, ops, i) {
      CachedIsDirectExactly(target, ops, i);
    }
  }

  /** Over every sequence of queries and imports, and whatever readings would fail, as long
      as only the backend's own imports change the target: an answer is that of a fresh
      reading exactly when the cached one met a fault if and only if a fresh one would. */
  method RunOps(target: Target, ops: seq<Op>) returns (answers: seq<Answer>)
    ensures |answers| == |ops| && AnsweredTo(target, ops, answers)
    ensures forall i :: 0 <= i < |ops| ==> (answers[i] == Direct(target, ops, i) <==> Current(target, ops, i))
  {
    var backend := new Backend();
    answers := [];
    var now := target;
    for i := 0 to |ops|
      invariant fresh(backend) && backend.Cached() == CacheAfter(target, ops[..i])
      invariant now == TargetAfter(target, ops[..i])
      invariant |answers| == i && AnsweredTo(target, ops, answers)
    {
      StepKeepsCache(target, ops, i);
      OneMoreAnswer(target, ops, answers);
      var answer: Answer;
      match ops[i] {
        case HashExists(hash, faults) =>
          var r := backend.HashExists(now, faults, hash);
          answer := Exists(r);
        case ListByNameArch(name, arch, faults) =>
          var r := backend.ListByNameArch(now, faults, name, arch);
          answer := Listed(r);
        case Import(staged, included) =>
          var ok;
          ok, now := backend.Import(now, staged, included);
          answer := Imported(ok);
      }
      answers := answers + [answer];
    }
    AnswersCompared(target, ops, answers);
  }

  // ----- what a line is -----------------------------------------------------

  predicate White(c: char) { c in {' ', '\t', '\n', 11 as char, 12 as char, '\r'} }

  predicate AllWhite(s: string) { forall i :: 0 <= i < |s| ==> White(s[i]) }

  /** t is s without some white space at either end. */
  predicate Around(s: string, before: string, t: string, after: string) {
    s == before + t + after && AllWhite(before) && AllWhite(after)
  }

  lemma {:induction false} WhiteAhead(s: string, before: string, t: string, after: string)
    requires s != "" && White(s[0]) && Around(s[1..], before, t, after)
    ensures Around(s, [s[0]] + before, t, after)
  {
    assert s == [s[0]] + s[1..];
  }

  lemma {:induction false} WhiteBehind(s: string, before: string, t: string, after: string)
    requires s != "" && White(s[|s| - 1]) && Around(s[..|s| - 1], before, t, after)
    ensures Around(s, before, t, after + [s[|s| - 1]])
  {
    assert s == s[..|s| - 1] + [s[|s| - 1]];
  }

  /** Trimming takes the white space off both ends and nothing else. */
  lemma {:induction false} TrimsExactly(s: string) returns (before: string, after: string)
    ensures Around(s, before, TrimSpace(s), after)
    ensures var t := TrimSpace(s); t != "" ==> !White(t[0]) && !White(t[|t| - 1])
  {
    before, after := "", "";
    WhiteIsSpace();
    if s != "" && IsSpace(s[0]) {
      before, after := TrimsExactly(s[1..]);
      WhiteAhead(s, before, TrimSpace(s), after);
      before := [s[0]] + before;
    } else if s != "" && IsSpace(s[|s| - 1]) {
      before, after := TrimsExactly(s[..|s| - 1]);
      WhiteBehind(s, before, TrimSpace(s), after);
      after := after + [s[|s| - 1]];
    }
  }

  lemma {:induction false} WhiteIsSpace()
    ensures forall c :: White(c) <==> IsSpace(c)
  {
    assert '\t' as int == 9 && '\n' as int == 10 && '\r' as int == 13;
  }

  /** A line is a field exactly when it starts with neither blank nor tab and holds a colon:
      the key is what is before the first one, the value the rest without outer space. */
  lemma {:induction false} FieldExactly(line: string, key: string, rest: string)
    requires Free(key, ':')
    ensures key != "" && key[0] !in {' ', '\t'} ==> FieldOf(key + ":" + rest) == Some((key, TrimSpace(rest)))
    ensures key != "" && key[0] in {' ', '\t'} ==> FieldOf(key + ":" + rest).None?
    ensures line != "" && Free(line, ':') ==> FieldOf(line).None?
  {
    var whole := key + ":" + rest;
    ColonAt(whole, |key|);
    assert whole[..|key|] == key && whole[|key| + 1..] == rest;
    if line != "" && Free(line, ':') { assert Index(line, ':') < 0; }
  }

  lemma {:induction false} FirstLine(raw: string, rest: Bytes)
    requires Free(raw, '\n')
    ensures Lines(raw + ("\n" + rest)) == [DropCR(raw)] + Lines(rest)
  {
    var body := raw + ("\n" + rest);
    IndexAt(body, |raw|);
    assert body[..|raw|] == raw && body[|raw| + 1..] == rest;
  }

  /** The text with the given line ends. */
  function WithEnds(lines: seq<string>, end: string): Bytes {
    if lines == [] then "" else lines[0] + (end + WithEnds(lines[1..], end))
  }

  predicate PlainLine(line: string) { Free(line, '\n') && (line == "" || line[|line| - 1] != '\r') }

  lemma {:induction false} DosEnd(line: string, rest: Bytes)
    ensures line + ("\r\n" + rest) == (line + ['\r']) + ("\n" + rest)
  {
    assert "\r\n" + rest == ['\r'] + ("\n" + rest);
  }

  lemma {:induction false} CarriageReturnDropped(line: string)
    requires PlainLine(line)
    ensures DropCR(line) == line && DropCR(line + ['\r']) == line && Free(line + ['\r'], '\n')
  {
    assert (line + ['\r'])[..|line|] == line;
  }

  /** A carriage return before the newline is no part of the line. */
  lemma {:induction false} LineBeforeEnd(line: string, end: string, rest: Bytes)
    requires PlainLine(line) && (end == "\n" || end == "\r\n")
    ensures Lines(line + (end + rest)) == [line] + Lines(rest)
  {
    CarriageReturnDropped(line);
    if end == "\n" {
      FirstLine(line, rest);
    } else {
      DosEnd(line, rest);
      FirstLine(line + ['\r'], rest);
    }
  }

  /** A last line needs no newline. */
  lemma {:induction false} LineAtEnd(line: string)
    requires PlainLine(line) && line != ""
    ensures Lines(line) == [line]
  {
    assert Index(line, '\n') < 0;
  }

  lemma {:induction false} EndedLines(lines: seq<string>, end: string)
    requires (forall i :: 0 <= i < |lines| ==> PlainLine(lines[i])) && (end == "\n" || end == "\r\n")
    ensures Lines(WithEnds(lines, end)) == lines
  {
    if lines != [] {
      EndedLines(lines[1..], end);
      LineBeforeEnd(lines[0], end, WithEnds(lines[1..], end));
    }
  }

  /** So an index with either kind of line ends is parsed alike. */
  lemma {:induction false} EitherLineEnd(lines: seq<string>)
    requires forall i :: 0 <= i < |lines| ==> PlainLine(lines[i])
    ensures Lines(WithEnds(lines, "\n")) == lines && Lines(WithEnds(lines, "\r\n")) == lines
  {
    EndedLines(lines, "\n");
    EndedLines(lines, "\r\n");
  }

  /** A further line of a stanza: a field replaces what an earlier line of the same key said,
      a line that is no field changes nothing; and the stanza is a record exactly when it has
      come to name a package. */
  lemma {:induction false} LaterLineWins(stanza: seq<string>, line: string, key: string, v: string)
    requires NoBlank(stanza) && line != "" && (FieldOf(line) == Some((key, v)) || FieldOf(line).None?)
    ensures var p, q, field := Record(stanza), Record(stanza + [line]), FieldOf(line).Some?;
      && q.name == (if field && key == "Package" then v else p.name)
      && q.version == (if field && key == "Version" then v else p.version)
      && q.arch == (if field && key == "Architecture" then v else p.arch)
      && q.hash == (if field && key == "X-Cooper-Build-Inputs-Hash" then v else p.hash)
      && Parse(stanza + [line]) == (if q.name != "" then [q] else []) && Parse(stanza) == Emitted(stanza)
  {
    assert (stanza + [line])[..|stanza|] == stanza;
    WholeStanza(stanza);
    WholeStanza(stanza + [line]);
  }
}
