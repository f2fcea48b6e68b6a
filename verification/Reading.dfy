/** What a client reads out of the Packages and Release texts of
    internal/signpost/index/build.go: line by line, stanza by stanza. */
module Reading {
  import opened Text
  import opened Sorting
  import opened Packaging = Index
  import opened Reprepro

  // ----- stanzas ------------------------------------------------------------

  /** A source's control text as it stands in Packages: one newline at its end. */
  function ControlText(e: Entry): Bytes { TrimRight(e.control, '\n') + "\n" }

  /** The three lines that Packages adds. */
  function AddedLines(e: Entry): seq<string> {
    [Field("Filename", TrimSlash(e.poolPath)), Field("Size", Itoa(e.size)), Field("SHA256", e.sha256)]
  }

  predicate Readable(e: Entry) { Clean(TrimSlash(e.poolPath)) && Clean(e.sha256) }

  lemma {:induction false} FileKeys()
    ensures PlainKey("Filename") && PlainKey("Size") && PlainKey("SHA256")
  {
  }

  lemma {:induction false} NumeralIsClean(n: nat)
    ensures Clean(Itoa(n))
  {
    ItoaValue(n);
    var s := Itoa(n);
    assert IsDigit(s[0]) && IsDigit(s[|s| - 1]);
  }

  lemma {:induction false} AddedRead(e: Entry)
    requires Readable(e)
    ensures Reads(Field("Filename", TrimSlash(e.poolPath)), "Filename", TrimSlash(e.poolPath))
    ensures Reads(Field("Size", Itoa(e.size)), "Size", Itoa(e.size))
    ensures Reads(Field("SHA256", e.sha256), "SHA256", e.sha256)
  {
    FileKeys();
    NumeralIsClean(e.size);
    FieldReadsBack("Filename", TrimSlash(e.poolPath));
    FieldReadsBack("Size", Itoa(e.size));
    FieldReadsBack("SHA256", e.sha256);
  }

  lemma {:induction false} StanzaText(e: Entry)
    ensures Packaging.Stanza(e) == ControlText(e) + Unlines(AddedLines(e))
  {
    UnlinesThree(AddedLines(e));
    ThreeFields(ControlText(e), TrimSlash(e.poolPath), Itoa(e.size), e.sha256);
  }

  lemma {:induction false} UnlinesOne(l: seq<string>, i: nat)
    requires i < |l|
    ensures Unlines(l[i..]) == l[i] + ("\n" + Unlines(l[i + 1..]))
  {
    assert l[i..][1..] == l[i + 1..];
  }

  lemma {:induction false} UnlinesThree(l: seq<string>)
    requires |l| == 3
    ensures Unlines(l) == l[0] + ("\n" + (l[1] + ("\n" + (l[2] + ("\n" + "")))))
  {
    UnlinesOne(l, 0);
    UnlinesOne(l, 1);
    UnlinesOne(l, 2);
    assert l[0..] == l && l[3..] == [];
  }

  lemma {:induction false} ThreeFields(text: Bytes, name: string, size: string, hash: string)
    ensures text + "Filename: " + name + "\n" + "Size: " + size + "\n" + "SHA256: " + hash + "\n"
      == text + (Field("Filename", name) + ("\n" + (Field("Size", size) + ("\n"
         + (Field("SHA256", hash) + ("\n" + ""))))))
  {
    assert "Filename" + ": " == "Filename: " && "Size" + ": " == "Size: " && "SHA256" + ": " == "SHA256: ";
  }

  /** A stanza read line by line: the lines of the source's control text, untouched, and
      then where the file is, how long it is, and its hash. */
  lemma {:induction false} StanzaLinesRead(e: Entry)
    requires Readable(e)
    ensures Lines(Packaging.Stanza(e)) == Lines(ControlText(e)) + AddedLines(e) && EndsLine(Packaging.Stanza(e))
  {
    AddedRead(e);
    StanzaText(e);
    UnlinesLines(AddedLines(e));
    LinesSplit(ControlText(e), Unlines(AddedLines(e)));
  }

  lemma {:induction false} NewlinesTrimmed(text: Bytes, n: nat)
    requires |text| >= 2 && text[|text| - 1] == '\n' && text[|text| - 2] != '\n'
    ensures TrimRight(text + Repeat('\n', n), '\n') + "\n" == text
  {
    var body := text[..|text| - 1];
    assert text + Repeat('\n', n) == body + Repeat('\n', n + 1);
    TrimPadding(body, '\n', n + 1);
  }

  /** The lines of the control text are those of the source's stanza, however many newlines
      follow it. */
  lemma {:induction false} ControlIsVerbatim(lines: seq<string>, e: Entry, n: nat)
    requires lines != [] && lines[|lines| - 1] != "" && forall line :: line in lines ==> Kept(line)
    requires e.control == Unlines(lines) + Repeat('\n', n)
    ensures ControlText(e) == Unlines(lines) && Lines(ControlText(e)) == lines
  {
    LastLine(lines);
    NewlinesTrimmed(Unlines(lines), n);
    UnlinesLines(lines);
  }

  lemma {:induction false} LastLine(lines: seq<string>)
    requires lines != [] && lines[|lines| - 1] != "" && forall line :: line in lines ==> Kept(line)
    ensures var text := Unlines(lines);
      |text| >= 2 && text[|text| - 1] == '\n' && text[|text| - 2] != '\n'
  {
    if |lines| > 1 {
      LastLine(lines[1..]);
    } else {
      assert lines[0] in lines && lines[1..] == [];
      assert lines[0][|lines[0]| - 1] in lines[0];
    }
  }

  lemma {:induction false} ValueBeforeOther(stanza: seq<string>, line: string, k: string, v: string, key: string)
    requires Reads(line, k, v)
    ensures ValueOf(stanza + [line], key) == if k == key then v else ValueOf(stanza, key)
  {
    assert (stanza + [line])[..|stanza|] == stanza;
  }

  lemma {:induction false} ThreeValues(
    stanza: seq<string>, x: string, y: string, z: string, a: string, b: string, c: string)
    requires Reads(x, "Filename", a) && Reads(y, "Size", b) && Reads(z, "SHA256", c)
    ensures var all := stanza + [x, y, z];
      ValueOf(all, "Filename") == a && ValueOf(all, "Size") == b && ValueOf(all, "SHA256") == c
  {
    assert stanza + [x, y, z] == stanza + [x] + [y] + [z];
    assert |"Filename"| != |"Size"| && |"SHA256"| != |"Size"| && |"Filename"| != |"SHA256"|;
    ValueBeforeOther(stanza + [x] + [y], z, "SHA256", c, "SHA256");
    ValueBeforeOther(stanza + [x] + [y], z, "SHA256", c, "Size");
    ValueBeforeOther(stanza + [x] + [y], z, "SHA256", c, "Filename");
    ValueBeforeOther(stanza + [x], y, "Size", b, "Size");
    ValueBeforeOther(stanza + [x], y, "Size", b, "Filename");
    ValueBeforeOther(stanza, x, "Filename", a, "Filename");
  }

  /** Whatever the control text holds, a reader that takes the last value of a key finds the
      pool path without its slash, the size and the hash of the entry. */
  lemma {:induction false} StanzaReadsBack(e: Entry)
    requires Readable(e)
    ensures var stanza := Lines(Packaging.Stanza(e));
      && "/" + ValueOf(stanza, "Filename") == "/" + TrimSlash(e.poolPath)
      && Atoi(ValueOf(stanza, "Size")) == Some(e.size) && ValueOf(stanza, "SHA256") == e.sha256
      && (e.poolPath != "" && e.poolPath[0] == '/' ==> "/" + ValueOf(stanza, "Filename") == e.poolPath)
  {
    AddedRead(e);
    StanzaLinesRead(e);
    ThreeValues(Lines(ControlText(e)), Field("Filename", TrimSlash(e.poolPath)), Field("Size", Itoa(e.size)),
                Field("SHA256", e.sha256), TrimSlash(e.poolPath), Itoa(e.size), e.sha256);
    AtoiItoa(e.size);
    if e.poolPath != "" && e.poolPath[0] == '/' { assert "/" + e.poolPath[1..] == e.poolPath; }
  }

  // ----- a Packages file ----------------------------------------------------

  /** The runs of lines between blank lines. */
  function Blocks(lines: seq<string>): seq<seq<string>>
    decreases |lines|
  {
    var i := FirstBlank(lines);
    if i == |lines| then [lines] else [lines[..i]] + Blocks(lines[i + 1..])
  }

  lemma {:induction false} BlockAlone(block: seq<string>)
    requires NoBlank(block)
    ensures Blocks(block) == [block]
  {
    assert FirstBlank(block) == |block|;
  }

  lemma {:induction false} BlocksSnoc(lines: seq<string>, block: seq<string>)
    requires NoBlank(block)
    ensures Blocks(lines + [""] + block) == Blocks(lines) + [block]
    decreases |lines|
  {
    var i, all := FirstBlank(lines), lines + [""] + block;
    if i == |lines| {
      BlankAt(all, lines, block);
      BlockAlone(block);
    } else {
      var rest := lines[i + 1..];
      assert lines == lines[..i] + [""] + rest;
      assert all == lines[..i] + [""] + (rest + [""] + block);
      BlankAt(all, lines[..i], rest + [""] + block);
      BlocksSnoc(rest, block);
      BlocksAssociate(lines[..i], Blocks(rest), block);
    }
  }

  lemma {:induction false} BlocksAssociate(x: seq<string>, ys: seq<seq<string>>, z: seq<string>)
    ensures [x] + (ys + [z]) == ([x] + ys) + [z]
  {
  }

  lemma {:induction false} BlankAt(all: seq<string>, head: seq<string>, rest: seq<string>)
    requires NoBlank(head) && all == head + [""] + rest
    ensures Blocks(all) == [head] + Blocks(rest)
  {
    assert FirstBlank(all) == |head| by {
      assert all[|head|] == "" && forall k :: 0 <= k < |head| ==> all[k] == head[k];
    }
    assert all[..|head|] == head && all[|head| + 1..] == rest;
  }

  /** An entry whose control text has no blank line in it. */
  predicate Separable(e: Entry) { Readable(e) && NoBlank(Lines(ControlText(e))) }

  lemma {:induction false} StillNoBlank(block: seq<string>, x: string, y: string, z: string)
    requires NoBlank(block) && x != "" && y != "" && z != ""
    ensures NoBlank(block + [x, y, z])
  {
  }

  lemma {:induction false} StanzaHasNoBlank(e: Entry)
    requires Separable(e)
    ensures NoBlank(Lines(Packaging.Stanza(e)))
  {
    StanzaLinesRead(e);
    AddedRead(e);
    StillNoBlank(Lines(ControlText(e)), Field("Filename", TrimSlash(e.poolPath)), Field("Size", Itoa(e.size)),
                 Field("SHA256", e.sha256));
  }

  lemma {:induction false} PackagesSnoc(es: seq<Entry>)
    requires |es| > 1
    ensures Packaging.Packages(es) == Packaging.Packages(es[..|es| - 1]) + ("\n" + Packaging.Stanza(es[|es| - 1]))
  {
  }

  lemma {:induction false} PackagesOfOne(es: seq<Entry>)
    requires |es| == 1
    ensures Packaging.Packages(es) == Packaging.Stanza(es[0])
  {
    assert Packaging.Packages(es[..0]) == "";
  }

  function StanzaOf(e: Entry): seq<string> { Lines(Packaging.Stanza(e)) }

  function Each<T, U>(f: T -> U, xs: seq<T>): (ys: seq<U>)
    ensures |ys| == |xs| && forall i :: 0 <= i < |xs| ==> ys[i] == f(xs[i])
  {
    seq(|xs|, i requires 0 <= i < |xs| => f(xs[i]))
  }

  lemma {:induction false} EachSnoc<T, U>(f: T -> U, xs: seq<T>)
    requires xs != []
    ensures Each(f, xs) == Each(f, xs[..|xs| - 1]) + [f(xs[|xs| - 1])]
  {
  }

  lemma {:induction false} OneMoreStanza(before: Bytes, stanza: Bytes)
    requires EndsLine(before) && EndsLine(stanza) && stanza != "" && NoBlank(Lines(stanza))
    ensures Blocks(Lines(before + ("\n" + stanza))) == Blocks(Lines(before)) + [Lines(stanza)]
    ensures EndsLine(before + ("\n" + stanza))
  {
    BlankLineBetween(before, stanza);
    BlocksSnoc(Lines(before), Lines(stanza));
  }

  lemma {:induction false} FirstStanza(es: seq<Entry>)
    requires |es| == 1 && Separable(es[0])
    ensures Blocks(Lines(Packaging.Packages(es))) == [StanzaOf(es[0])] && EndsLine(Packaging.Packages(es))
  {
    StanzaHasNoBlank(es[0]);
    StanzaLinesRead(es[0]);
    PackagesOfOne(es);
    BlockAlone(StanzaOf(es[0]));
  }

  lemma {:induction false} NextStanza(es: seq<Entry>)
    requires |es| > 1 && Separable(es[|es| - 1]) && EndsLine(Packaging.Packages(es[..|es| - 1]))
    ensures Blocks(Lines(Packaging.Packages(es)))
      == Blocks(Lines(Packaging.Packages(es[..|es| - 1]))) + [StanzaOf(es[|es| - 1])]
    ensures EndsLine(Packaging.Packages(es))
  {
    var e := es[|es| - 1];
    StanzaHasNoBlank(e);
    StanzaLinesRead(e);
    PackagesSnoc(es);
    OneMoreStanza(Packaging.Packages(es[..|es| - 1]), Packaging.Stanza(e));
  }

  /** Packages reads back as one stanza for each entry, in order, and nothing else. */
  lemma {:induction false} PackagesReadsBack(es: seq<Entry>)
    requires es != [] && forall e :: e in es ==> Separable(e)
    ensures Blocks(Lines(Packaging.Packages(es))) == Each(StanzaOf, es) && EndsLine(Packaging.Packages(es))
  {
    if |es| == 1 {
      FirstStanza(es);
    } else {
      PackagesReadsBack(es[..|es| - 1]);
      NextStanza(es);
      EachSnoc(StanzaOf, es);
    }
  }

  lemma {:induction false} OnlyNewline()
    ensures Lines("\n") == [""] && EndsLine("\n")
  {
    IndexAt("\n", 0);
  }

  lemma {:induction false} BlankLineBetween(x: Bytes, y: Bytes)
    requires EndsLine(x) && EndsLine(y) && y != ""
    ensures Lines(x + ("\n" + y)) == Lines(x) + [""] + Lines(y) && EndsLine(x + ("\n" + y))
  {
    OnlyNewline();
    LinesSplit(x, "\n" + y);
    LinesSplit("\n", y);
    LinesAssociate(Lines(x), "", Lines(y));
    LastCharStays(x, y);
  }

  lemma {:induction false} LinesAssociate(x: seq<string>, line: string, y: seq<string>)
    ensures x + ([line] + y) == x + [line] + y
  {
  }

  lemma {:induction false} LastCharStays(x: Bytes, y: Bytes)
    requires EndsLine(y) && y != ""
    ensures EndsLine(x + ("\n" + y))
  {
  }

  // ----- Release ------------------------------------------------------------

  /** One line of the list of hashes, without its newline. */
  function HashText(hash: string, size: nat, path: string): string { " " + hash + " " + Itoa(size) + " " + path }

  /** A client's reading of such a line: three words after a space. */
  function ReadHash(line: string): Option<(string, string, string)> {
    if line == "" || line[0] != ' ' then None
    else
      var rest := line[1..];
      var i := Index(rest, ' ');
      if i < 0 then None
      else
        var more := rest[i + 1..];
        var j := Index(more, ' ');
        if j < 0 then None else Some((rest[..i], more[..j], more[j + 1..]))
  }

  lemma {:induction false} SpaceAt(s: string, word: string, rest: string)
    requires s == word + " " + rest && Free(word, ' ')
    ensures Index(s, ' ') == |word| && s[..|word|] == word && s[|word| + 1..] == rest
  {
    assert s[|word|] == ' ' && forall k :: 0 <= k < |word| ==> s[k] == word[k];
  }

  lemma {:induction false} NumeralHasNoSpace(n: nat)
    ensures Free(Itoa(n), ' ') && Free(Itoa(n), '\n')
  {
    ItoaValue(n);
  }

  /** A line of hashes gives hash, size and path back. */
  lemma {:induction false} HashLineReadsBack(hash: string, size: nat, path: string)
    requires Free(hash, ' ')
    ensures HashLine(hash, size, path) == HashText(hash, size, path) + "\n"
    ensures ReadHash(HashText(hash, size, path)) == Some((hash, Itoa(size), path)) && Atoi(Itoa(size)) == Some(size)
  {
    var line, rest := HashText(hash, size, path), hash + " " + (Itoa(size) + " " + path);
    assert line == " " + rest && line[1..] == rest;
    SpaceAt(rest, hash, Itoa(size) + " " + path);
    NumeralHasNoSpace(size);
    SpaceAt(Itoa(size) + " " + path, Itoa(size), path);
    AtoiItoa(size);
  }

  function HashTexts(paths: seq<string>, hashes: map<string, string>, sizes: map<string, nat>): seq<string>
    requires forall p :: p in paths ==> p in hashes && p in sizes
  {
    if paths == [] then []
    else
      var n := |paths| - 1;
      HashTexts(paths[..n], hashes, sizes) + [HashText(hashes[paths[n]], sizes[paths[n]], paths[n])]
  }

  /** A hash of hex digits, as SHA-256 gives, and a path on one line. */
  predicate OneLine(hash: string, path: string) {
    Free(hash, ' ') && Free(hash, '\n') && Free(path, '\n') && path != "" && path[|path| - 1] != '\r'
  }

  lemma {:induction false} OneHashLine(hash: string, size: nat, path: string)
    requires OneLine(hash, path)
    ensures Lines(HashLine(hash, size, path)) == [HashText(hash, size, path)] && EndsLine(HashLine(hash, size, path))
  {
    var line := HashText(hash, size, path);
    HashLineReadsBack(hash, size, path);
    NumeralHasNoSpace(size);
    assert line[|line| - 1] == path[|path| - 1];
    assert Kept(line);
    ScanFirst(line, "");
    assert line + "\n" + "" == line + "\n";
  }

  lemma {:induction false} HashLinesRead(paths: seq<string>, hashes: map<string, string>, sizes: map<string, nat>)
    requires forall p :: p in paths ==> p in hashes && p in sizes && OneLine(hashes[p], p)
    ensures Lines(HashLines(paths, hashes, sizes)) == HashTexts(paths, hashes, sizes)
    ensures EndsLine(HashLines(paths, hashes, sizes))
  {
    if paths != [] {
      var n := |paths| - 1;
      HashLinesRead(paths[..n], hashes, sizes);
      var p := paths[n];
      assert p in paths;
      OneHashLine(hashes[p], sizes[p], p);
      LinesSplit(HashLines(paths[..n], hashes, sizes), HashLine(hashes[p], sizes[p], p));
    }
  }

  function HeaderLines(s: Suite, date: string): seq<string> {
    [Field("Origin", s.origin), Field("Label", s.suiteLabel), Field("Suite", s.codename), Field("Codename", s.codename),
     Field("Components", s.component), Field("Architectures", Join(s.architectures, ' ')),
     Field("Description", s.description), Field("Date", date), Field("Acquire-By-Hash", "yes"), "SHA256:"]
  }

  predicate CleanSuite(s: Suite, date: string) {
    && Clean(s.origin) && Clean(s.suiteLabel) && Clean(s.codename) && Clean(s.component)
    && Clean(Join(s.architectures, ' ')) && Clean(s.description) && Clean(date)
  }

  /** A field of the header in front of the lines after it. */
  lemma {:induction false} PutBefore(k: string, v: string, l: seq<string>, i: nat, rest: Bytes)
    requires i < |l| && l[i] == Field(k, v) && rest == Unlines(l[i + 1..])
    ensures FieldLine(k, v) + rest == Unlines(l[i..])
  {
    UnlinesOne(l, i);
    assert FieldLine(k, v) == Field(k, v) + "\n";
    LineThenRest(Field(k, v), rest);
  }

  lemma {:induction false} LineThenRest(line: string, rest: Bytes)
    ensures (line + "\n") + rest == line + ("\n" + rest)
  {
  }

  lemma {:induction false} LastHeaderLine(l: seq<string>)
    requires |l| == 10 && l[9] == "SHA256:"
    ensures "SHA256:\n" == Unlines(l[9..])
  {
    UnlinesOne(l, 9);
    assert l[10..] == [];
  }

  lemma {:induction false} HeaderText(s: Suite, date: string)
    ensures ReleaseHeader(s, date) == Unlines(HeaderLines(s, date))
  {
    var l := HeaderLines(s, date);
    HeaderEnd(s, date, l);
    var r4 := Unlines(l[5..]);
    PutBefore("Components", s.component, l, 4, r4);
    var r3 := FieldLine("Components", s.component) + r4;
    PutBefore("Codename", s.codename, l, 3, r3);
    var r2 := FieldLine("Codename", s.codename) + r3;
    PutBefore("Suite", s.codename, l, 2, r2);
    var r1 := FieldLine("Suite", s.codename) + r2;
    PutBefore("Label", s.suiteLabel, l, 1, r1);
    PutBefore("Origin", s.origin, l, 0, FieldLine("Label", s.suiteLabel) + r1);
    assert l[0..] == l;
  }

  lemma {:induction false} HeaderEnd(s: Suite, date: string, l: seq<string>)
    requires l == HeaderLines(s, date)
    ensures FieldLine("Architectures", Join(s.architectures, ' ')) + (FieldLine("Description", s.description) + (
            FieldLine("Date", date) + (FieldLine("Acquire-By-Hash", "yes") + "SHA256:\n"))) == Unlines(l[5..])
  {
    LastHeaderLine(l);
    PutBefore("Acquire-By-Hash", "yes", l, 8, "SHA256:\n");
    var r7 := FieldLine("Acquire-By-Hash", "yes") + "SHA256:\n";
    PutBefore("Date", date, l, 7, r7);
    var r6 := FieldLine("Date", date) + r7;
    PutBefore("Description", s.description, l, 6, r6);
    PutBefore("Architectures", Join(s.architectures, ' '), l, 5, FieldLine("Description", s.description) + r6);
  }

  predicate HeaderKey(key: string) {
    key in ["Origin", "Label", "Suite", "Codename", "Components", "Architectures", "Description", "Date",
            "Acquire-By-Hash"]
  }

  lemma {:induction false} HeaderKeysPlain(key: string)
    requires HeaderKey(key)
    ensures PlainKey(key)
  {
  }

  lemma {:induction false} LastLineKept()
    ensures Kept("SHA256:") && Reads("SHA256:", "SHA256", "") && "SHA256:" != ""
  {
    ColonAt("SHA256:", 6);
    assert "SHA256:"[..6] == "SHA256" && "SHA256:"[7..] == "";
  }

  /** The header of Release, line by line: each field under its own key. */
  lemma {:induction false} HeaderLinesRead(s: Suite, date: string, i: nat)
    requires CleanSuite(s, date) && i < 9
    ensures var line := HeaderLines(s, date)[i];
      Kept(line) && FieldOf(line) == Some(HeaderField(s, date, i)) && line != "" && line[0] != ' '
  {
    var (k, v) := HeaderField(s, date, i);
    HeaderKeysPlain(k);
    assert Clean("yes");
    FieldReadsBack(k, v);
    assert HeaderLines(s, date)[i] == Field(k, v) && Field(k, v)[0] == k[0];
  }

  function HeaderField(s: Suite, date: string, i: nat): (string, string)
    requires i < 9
  {
    match i
    case 0 => ("Origin", s.origin)
    case 1 => ("Label", s.suiteLabel)
    case 2 => ("Suite", s.codename)
    case 3 => ("Codename", s.codename)
    case 4 => ("Components", s.component)
    case 5 => ("Architectures", Join(s.architectures, ' '))
    case 6 => ("Description", s.description)
    case 7 => ("Date", date)
    case _ => ("Acquire-By-Hash", "yes")
  }

  lemma {:induction false} HeaderIsRead(s: Suite, date: string)
    requires CleanSuite(s, date)
    ensures Lines(ReleaseHeader(s, date)) == HeaderLines(s, date) && EndsLine(ReleaseHeader(s, date))
  {
    var l := HeaderLines(s, date);
    forall line | line in l ensures Kept(line) {
      var i :| 0 <= i < |l| && l[i] == line;
      if i < 9 { HeaderLinesRead(s, date, i); } else { LastLineKept(); }
    }
    HeaderText(s, date);
    UnlinesLines(l);
  }

  lemma {:induction false} HashTextsAt(paths: seq<string>, hashes: map<string, string>, sizes: map<string, nat>, i: nat)
    requires (forall p :: p in paths ==> p in hashes && p in sizes) && i < |paths|
    ensures |HashTexts(paths, hashes, sizes)| == |paths|
    ensures HashTexts(paths, hashes, sizes)[i] == HashText(hashes[paths[i]], sizes[paths[i]], paths[i])
  {
    var n := |paths| - 1;
    HashTextsLength(paths[..n], hashes, sizes);
    if i < n { HashTextsAt(paths[..n], hashes, sizes, i); }
  }

  lemma {:induction false} HashTextsLength(paths: seq<string>, hashes: map<string, string>, sizes: map<string, nat>)
    requires forall p :: p in paths ==> p in hashes && p in sizes
    ensures |HashTexts(paths, hashes, sizes)| == |paths|
  {
    if paths != [] { HashTextsLength(paths[..|paths| - 1], hashes, sizes); }
  }

  /** Release read line by line: the header, and then for each listed path, in byte order,
      a line that gives its hash, its size and the path back. */
  lemma {:induction false} ReleaseReadsBack(
    release: Bytes, s: Suite, date: string, hashes: map<string, string>, sizes: map<string, nat>)
      returns (paths: seq<string>)
    requires IsRelease(release, ReleaseHeader(s, date), hashes, sizes) && CleanSuite(s, date)
    requires forall p :: p in hashes ==> OneLine(hashes[p], p)
    ensures PathList(paths, hashes.Keys) && (forall p :: p in paths ==> p in hashes && p in sizes)
    ensures |Lines(release)| == 10 + |paths| && Lines(release)[..10] == HeaderLines(s, date)
    ensures forall i :: 0 <= i < |paths| ==>
      ReadHash(Lines(release)[10 + i]) == Some((hashes[paths[i]], Itoa(sizes[paths[i]]), paths[i]))
  {
    paths :| PathList(paths, hashes.Keys) && (forall p :: p in paths ==> p in hashes && p in sizes)
      && release == ReleaseHeader(s, date) + HashLines(paths, hashes, sizes);
    HeaderIsRead(s, date);
    HashLinesRead(paths, hashes, sizes);
    LinesSplit(ReleaseHeader(s, date), HashLines(paths, hashes, sizes));
    HashTextsLength(paths, hashes, sizes);
    forall i | 0 <= i < |paths|
      ensures ReadHash(Lines(release)[10 + i]) == Some((hashes[paths[i]], Itoa(sizes[paths[i]]), paths[i]))
    {
      HashTextsAt(paths, hashes, sizes, i);
      assert paths[i] in paths;
      HashLineReadsBack(hashes[paths[i]], sizes[paths[i]], paths[i]);
    }
  }
}
