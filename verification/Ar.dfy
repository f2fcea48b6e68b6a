/** internal/signpost/fetch/ar.go and the splice in internal/signpost/fetch/fetch.go:
    reading a package's control member from a ranged head of the file. */
module Ar {
  import opened Text

  const MAGIC: Bytes := "!<arch>\n"
  const HEADER: nat := 60
  const MAX_CONTROL_TAR: nat := 16 * 1024 * 1024

  /** A declared size may carry a minus sign. */
  datatype Member = Member(name: string, offset: nat, size: int)

  /** Panics is a slice that starts before the buffer; Forever a walk that never ends. */
  datatype Walk = Members(list: seq<Member>) | Malformed | Panics | Forever

  // ----- one header ---------------------------------------------------------

  datatype Header = Header(name: string, size: int)

  function DropSlash(s: string): string { if s != "" && s[|s| - 1] == '/' then s[..|s| - 1] else s }

  /** Name and declared size, or None for a bad trailer or a size that is no number. */
  function ReadHeader(header: Bytes): Option<Header>
    requires |header| == HEADER
  {
    var size := Atoi(TrimRight(header[48..58], ' '));
    if header[58] != '`' || header[59] != '\n' || size.None? then None
    else Some(Header(DropSlash(TrimRight(header[..16], ' ')), size.value))
  }

  /** What the walk sees of a buffer: its length, and the header at each place that has
      60 bytes to read. */
  datatype Archive = Archive(header: int -> Option<Header>, length: nat)

  function ArchiveOf(buf: Bytes): Archive {
    Archive(pos => if 0 <= pos && pos + HEADER <= |buf| then ReadHeader(buf[pos..pos + HEADER]) else None, |buf|)
  }

  /** The whole header at pos is there. */
  predicate HeaderIn(a: Archive, pos: int) { 0 <= pos && pos + HEADER <= a.length }

  predicate Readable(a: Archive, pos: int) { HeaderIn(a, pos) && a.header(pos).Some? }

  function MemberAt(a: Archive, pos: int): Member
    requires Readable(a, pos)
  {
    Member(a.header(pos).value.name, pos + HEADER, a.header(pos).value.size)
  }

  /** Past the header and the declared body, padded to an even length. */
  function Advance(pos: int, size: int): int { pos + HEADER + size + if size % 2 != 0 then 1 else 0 }

  function Next(a: Archive, pos: int): int
    requires Readable(a, pos)
  {
    Advance(pos, a.header(pos).value.size)
  }

  // ----- the walk -----------------------------------------------------------

  function Prepend(members: seq<Member>, rest: Walk): Walk {
    if rest.Members? then Members(members + rest.list) else rest
  }

  /** The walk from pos over at most `left` headers; Forever when it is not done then. */
  function WalkFrom(a: Archive, pos: int, left: nat): Walk
    decreases left
  {
    if pos + HEADER > a.length then Members([])
    else if pos < 0 then Panics
    else if left == 0 then Forever
    else if a.header(pos).None? then Malformed
    else Prepend([MemberAt(a, pos)], WalkFrom(a, Next(a, pos), left - 1))
  }

  /** A walk over as many headers as there are bytes is over or never ends:
      NeverEndsExactly. */
  function Parse(buf: Bytes): Walk {
    if HasPrefix(buf, MAGIC) then WalkFrom(ArchiveOf(buf), |MAGIC|, |buf|) else Malformed
  }

  /** The program's loop, cut off with the answer Forever where it would run on for good. */
  method ParseARHeaders(buf: Bytes) returns (walk: Walk)
    ensures walk == Parse(buf)
  {
    if |buf| < |MAGIC| { return Malformed; }
    if buf[..|MAGIC|] != MAGIC { return Malformed; }
    walk := WalkHeaders(ArchiveOf(buf), |MAGIC|, |buf|);
  }

  method WalkHeaders(a: Archive, start: int, limit: nat) returns (walk: Walk)
    ensures walk == WalkFrom(a, start, limit)
  {
    var pos: int, left: nat := start, limit;
    var members: seq<Member> := [];
    ghost var all := WalkFrom(a, start, limit);
    assert all == Prepend(members, all);
    while pos + HEADER <= a.length
      invariant left <= limit && all == Prepend(members, WalkFrom(a, pos, left))
      decreases left
    {
      if pos < 0 { return Panics; }
      if left == 0 { return Forever; }
      var header := a.header(pos);
      if header.None? { return Malformed; }
      WalkStep(a, pos, left, members);
      members := members + [Member(header.value.name, pos + HEADER, header.value.size)];
      pos, left := Advance(pos, header.value.size), left - 1;
    }
    return Members(members);
  }

  lemma {:induction false} WalkStep(a: Archive, pos: int, left: nat, members: seq<Member>)
    requires Readable(a, pos) && left > 0
    ensures Prepend(members, WalkFrom(a, pos, left))
      == Prepend(members + [MemberAt(a, pos)], WalkFrom(a, Next(a, pos), left - 1))
  {
    PrependPrepend(members, [MemberAt(a, pos)], WalkFrom(a, Next(a, pos), left - 1));
  }

  lemma {:induction false} PrependPrepend(xs: seq<Member>, ys: seq<Member>, rest: Walk)
    ensures Prepend(xs, Prepend(ys, rest)) == Prepend(xs + ys, rest)
  {
    if rest.Members? { assert xs + (ys + rest.list) == (xs + ys) + rest.list; }
  }

  // ----- when it ends -------------------------------------------------------

  /** Which way a declared size moves the walk: on from -59 up, nowhere at -60 and -61,
      back below; and when to before the buffer. */
  lemma {:induction false} StepDirection(pos: int, size: int)
    ensures Advance(pos, size) > pos <==> size >= -59
    ensures Advance(pos, size) == pos <==> size == -60 || size == -61
    ensures Advance(pos, size) < pos <==> size <= -62
    ensures Advance(pos, size) < 0 <==> (if size % 2 != 0 then size + 1 else size) < -(pos + HEADER)
  {
  }

  /** Where the walk stands after n headers; it stands still at one it cannot read. */
  function After(a: Archive, pos: int, n: nat): int
    decreases n
  {
    if n == 0 || !Readable(a, pos) then pos else After(a, Next(a, pos), n - 1)
  }

  lemma {:induction false} AfterAdds(a: Archive, pos: int, m: nat, n: nat)
    ensures After(a, pos, m + n) == After(a, After(a, pos, m), n)
    decreases m
  {
    if m > 0 && Readable(a, pos) { AfterAdds(a, Next(a, pos), m - 1, n); }
  }

  ghost predicate ReadsOn(a: Archive, pos: int, n: nat) { forall i: nat :: i < n ==> Readable(a, After(a, pos, i)) }

  lemma {:induction false} ReadsOnStep(a: Archive, pos: int, n: nat)
    requires n > 0
    ensures ReadsOn(a, pos, n) <==> Readable(a, pos) && ReadsOn(a, Next(a, pos), n - 1)
  {
    assert After(a, pos, 0) == pos;
    if Readable(a, pos) {
      var next := Next(a, pos);
      if ReadsOn(a, next, n - 1) {
        forall i: nat | i < n ensures Readable(a, After(a, pos, i)) {
          if i > 0 { assert Readable(a, After(a, next, i - 1)); }
        }
      }
      if ReadsOn(a, pos, n) {
        forall i: nat | i < n - 1 ensures Readable(a, After(a, next, i)) {
          assert Readable(a, After(a, pos, i + 1));
        }
      }
    }
  }

  /** A walk is unfinished after its last header when it could read all of them and the
      next one is there. */
  lemma {:induction false} UnfinishedExactly(a: Archive, pos: int, left: nat)
    ensures WalkFrom(a, pos, left) == Forever <==> ReadsOn(a, pos, left) && HeaderIn(a, After(a, pos, left))
    decreases left
  {
    if left == 0 {
      assert ReadsOn(a, pos, 0);
    } else {
      ReadsOnStep(a, pos, left);
      if Readable(a, pos) { UnfinishedExactly(a, Next(a, pos), left - 1); }
    }
  }

  ghost predicate Repeats(a: Archive, pos: int, i: nat, j: nat) {
    i < j && ReadsOn(a, pos, j) && After(a, pos, i) == After(a, pos, j)
  }

  /** Some header is come to twice. */
  ghost predicate ComesBack(a: Archive, pos: int) { exists i: nat, j: nat :: Repeats(a, pos, i, j) }

  lemma {:induction false} CycleReadsOn(a: Archive, pos: int, i: nat, j: nat, n: nat)
    requires Repeats(a, pos, i, j)
    ensures Readable(a, After(a, pos, n))
    decreases n
  {
    if n >= j {
      AfterAdds(a, pos, j, n - j);
      AfterAdds(a, pos, i, n - j);
      CycleReadsOn(a, pos, i, j, i + (n - j));
    }
  }

  predicate VisitedAt(a: Archive, pos: int, n: nat, p: int, i: nat) { i < n && p == After(a, pos, i) }

  ghost predicate Visited(a: Archive, pos: int, n: nat, p: int) { exists i: nat :: VisitedAt(a, pos, n, p, i) }

  lemma {:induction false} VisitedMore(a: Archive, pos: int, n: nat, p: int)
    requires Visited(a, pos, n, p)
    ensures Visited(a, pos, n + 1, p)
  {
    var i: nat :| VisitedAt(a, pos, n, p, i);
    assert VisitedAt(a, pos, n + 1, p, i);
  }

  /** The headers of a walk that has not come back stand at different places. */
  lemma {:induction false} DistinctPlaces(a: Archive, pos: int, n: nat) returns (places: set<int>)
    requires ReadsOn(a, pos, n) && !ComesBack(a, pos)
    ensures |places| == n && forall p :: p in places ==> HeaderIn(a, p) && Visited(a, pos, n, p)
  {
    places := {};
    if n > 0 {
      var before := DistinctPlaces(a, pos, n - 1);
      var last := After(a, pos, n - 1);
      assert last !in before by {
        if last in before { NotBefore(a, pos, n); }
      }
      assert Readable(a, last);
      places := before + {last};
      assert |places| == |before| + 1;
      forall p | p in places ensures HeaderIn(a, p) && Visited(a, pos, n, p) {
        if p == last { assert VisitedAt(a, pos, n, p, n - 1); } else { VisitedMore(a, pos, n - 1, p); }
      }
    }
  }

  lemma {:induction false} NotBefore(a: Archive, pos: int, n: nat)
    requires n > 0 && ReadsOn(a, pos, n) && Visited(a, pos, n - 1, After(a, pos, n - 1))
    ensures ComesBack(a, pos)
  {
    var i: nat :| VisitedAt(a, pos, n - 1, After(a, pos, n - 1), i);
    assert ReadsOn(a, pos, n - 1);
    assert Repeats(a, pos, i, n - 1);
  }

  lemma {:induction false} FewPlaces(places: set<int>, n: nat)
    requires forall p :: p in places ==> 0 <= p < n
    ensures |places| <= n
  {
    if n == 0 {
      assert forall p :: p !in places;
      assert places == {};
    } else {
      FewPlaces(places - {n - 1}, n - 1);
    }
  }

  lemma {:induction false} MustComeBack(a: Archive, pos: int)
    requires ReadsOn(a, pos, a.length) && HeaderIn(a, After(a, pos, a.length))
    ensures ComesBack(a, pos)
  {
    if !ComesBack(a, pos) {
      var places := DistinctPlaces(a, pos, a.length);
      FewPlaces(places, a.length - 1);
    }
  }

  /** A walk that is not over after as many headers as there are bytes goes on for good,
      and that is exactly when it comes to some header twice. */
  lemma {:induction false} NeverEndsExactly(a: Archive, pos: int)
    ensures WalkFrom(a, pos, a.length) == Forever <==> ComesBack(a, pos)
    ensures ComesBack(a, pos) <==> forall left: nat :: WalkFrom(a, pos, left) == Forever
  {
    if WalkFrom(a, pos, a.length) == Forever {
      UnfinishedExactly(a, pos, a.length);
      MustComeBack(a, pos);
    }
    if ComesBack(a, pos) {
      var i: nat, j: nat :| Repeats(a, pos, i, j);
      forall left: nat ensures WalkFrom(a, pos, left) == Forever { CycleNeverEnds(a, pos, i, j, left); }
    }
  }

  lemma {:induction false} CycleNeverEnds(a: Archive, pos: int, i: nat, j: nat, left: nat)
    requires Repeats(a, pos, i, j)
    ensures WalkFrom(a, pos, left) == Forever
  {
    forall n: nat | n <= left ensures Readable(a, After(a, pos, n)) { CycleReadsOn(a, pos, i, j, n); }
    UnfinishedExactly(a, pos, left);
  }

  /** Only a size of -60 or less can make it panic or run for ever: otherwise it ends or
      is refused. */
  lemma {:induction false} OnlyFarBackGoesWrong(a: Archive, pos: int, left: nat) returns (n: nat)
    requires 0 <= pos && left >= a.length - pos
    requires WalkFrom(a, pos, left) == Panics || WalkFrom(a, pos, left) == Forever
    ensures Readable(a, After(a, pos, n)) && MemberAt(a, After(a, pos, n)).size <= -60
    decreases left
  {
    n := 0;
    StepDirection(pos, MemberAt(a, pos).size);
    if MemberAt(a, pos).size >= -59 {
      var m := OnlyFarBackGoesWrong(a, Next(a, pos), left - 1);
      n := m + 1;
    }
  }

  /** A first header of size -60 or -61 is read for ever; one that leads to before the
      buffer panics, unless so few bytes are left that the walk ends there. */
  lemma {:induction false} FirstSizeDecides(buf: Bytes, size: int)
    requires HasPrefix(buf, MAGIC)
    requires var a := ArchiveOf(buf); Readable(a, |MAGIC|) && MemberAt(a, |MAGIC|).size == size
    ensures size == -60 || size == -61 ==> Parse(buf) == Forever
    ensures Advance(|MAGIC|, size) < 0 && Advance(|MAGIC|, size) + HEADER <= |buf| ==> Parse(buf) == Panics
  {
    FirstSizeDecidesWalk(ArchiveOf(buf), |MAGIC|, size);
  }

  lemma {:induction false} FirstSizeDecidesWalk(a: Archive, pos: int, size: int)
    requires Readable(a, pos) && MemberAt(a, pos).size == size
    ensures size == -60 || size == -61 ==> WalkFrom(a, pos, a.length) == Forever
    ensures Advance(pos, size) < 0 && Advance(pos, size) + HEADER <= a.length ==> WalkFrom(a, pos, a.length) == Panics
  {
    if size == -60 || size == -61 {
      StepDirection(pos, size);
      assert After(a, pos, 0) == pos && After(a, pos, 1) == After(a, pos, 0);
      assert Repeats(a, pos, 0, 1);
      NeverEndsExactly(a, pos);
    }
  }

  // ----- well-formed archives -----------------------------------------------

  predicate NonNegative(list: seq<Member>) { forall i :: 0 <= i < |list| ==> list[i].size >= 0 }

  /** A walk that read every header, all of them of sizes that are not negative. */
  predicate Sound(walk: Walk) { walk.Members? && NonNegative(walk.list) }

  lemma {:induction false} FirstMember(a: Archive, pos: int, left: nat) returns (next: nat)
    requires Sound(WalkFrom(a, pos, left)) && WalkFrom(a, pos, left).list != []
    ensures left > 0 && Readable(a, pos) && MemberAt(a, pos).size >= 0
    ensures next == Next(a, pos) && next >= pos + HEADER && next >= pos + HEADER + MemberAt(a, pos).size
    ensures Sound(WalkFrom(a, next, left - 1))
    ensures WalkFrom(a, pos, left).list == [MemberAt(a, pos)] + WalkFrom(a, next, left - 1).list
  {
    var list := WalkFrom(a, pos, left).list;
    var rest := WalkFrom(a, Next(a, pos), left - 1).list;
    assert list == [MemberAt(a, pos)] + rest;
    assert list[0].size >= 0;
    next := Next(a, pos);
    forall i | 0 <= i < |rest| ensures rest[i].size >= 0 { assert list[i + 1] == rest[i]; }
  }

  /** Bodies never overlap: each member starts after the one before it ends. */
  lemma {:induction false} OffsetsIncrease(a: Archive, pos: int, left: nat, i: nat, j: nat)
    requires Sound(WalkFrom(a, pos, left)) && i <= j < |WalkFrom(a, pos, left).list|
    ensures var list := WalkFrom(a, pos, left).list;
      pos + HEADER <= list[i].offset && (i < j ==> list[i].offset + list[i].size < list[j].offset)
    decreases j
  {
    var next := FirstMember(a, pos, left);
    if i > 0 {
      OffsetsIncrease(a, next, left - 1, i - 1, j - 1);
    } else if j > 0 {
      OffsetsIncrease(a, next, left - 1, j - 1, j - 1);
    }
  }

  // ----- a head of the file -------------------------------------------------

  /** How many leading members have their whole header within the first k bytes. */
  function HeadersWithin(list: seq<Member>, k: nat): (m: nat)
    ensures m <= |list|
  {
    if list == [] || list[0].offset > k then 0 else 1 + HeadersWithin(list[1..], k)
  }

  lemma {:induction false} HeadersWithinStep(first: Member, rest: seq<Member>, k: nat)
    requires first.offset <= k
    ensures var m := HeadersWithin(rest, k);
      HeadersWithin([first] + rest, k) == m + 1 && ([first] + rest)[..m + 1] == [first] + rest[..m]
  {
    assert ([first] + rest)[1..] == rest;
  }

  /** h is what is left of a when only its first bytes are there. */
  ghost predicate HeadOf(h: Archive, a: Archive) {
    h.length <= a.length && forall pos :: HeaderIn(h, pos) ==> h.header(pos) == a.header(pos)
  }

  lemma {:induction false} HeadOfBuffer(buf: Bytes, k: nat)
    requires k <= |buf|
    ensures HeadOf(ArchiveOf(buf[..k]), ArchiveOf(buf))
  {
    forall pos | HeaderIn(ArchiveOf(buf[..k]), pos)
      ensures ArchiveOf(buf[..k]).header(pos) == ArchiveOf(buf).header(pos) {
      assert buf[..k][pos..pos + HEADER] == buf[pos..pos + HEADER];
    }
  }

  lemma {:induction false} WalkOfHead(h: Archive, a: Archive, pos: int, left: nat, few: nat)
    requires HeadOf(h, a) && 0 <= pos && few >= h.length - pos && Sound(WalkFrom(a, pos, left))
    ensures var list := WalkFrom(a, pos, left).list;
      WalkFrom(h, pos, few) == Members(list[..HeadersWithin(list, h.length)])
    decreases left
  {
    if WalkFrom(a, pos, left).list != [] {
      var next := FirstMember(a, pos, left);
      if pos + HEADER <= h.length {
        assert HeaderIn(h, pos);
        WalkOfHead(h, a, next, left - 1, few - 1);
        HeadersWithinStep(MemberAt(a, pos), WalkFrom(a, next, left - 1).list, h.length);
      }
    }
  }

  /** Of a whole archive any head that holds the magic shows exactly the members
      whose headers it holds, at the same places. */
  lemma {:induction false} HeadShowsAPrefix(buf: Bytes, k: nat, i: nat)
    requires |MAGIC| <= k <= |buf| && Sound(Parse(buf))
    ensures var list := Parse(buf).list;
      && Parse(buf[..k]) == Members(list[..HeadersWithin(list, k)])
      && (i < |list| ==> (i < HeadersWithin(list, k) <==> list[i].offset <= k))
  {
    assert buf[..k][..|MAGIC|] == buf[..|MAGIC|];
    HeadOfBuffer(buf, k);
    WalkOfHead(ArchiveOf(buf[..k]), ArchiveOf(buf), |MAGIC|, |buf|, k);
    if i < |Parse(buf).list| { CountIsExact(ArchiveOf(buf), k, |MAGIC|, |buf|, i); }
  }

  lemma {:induction false} CountIsExact(a: Archive, k: nat, pos: int, left: nat, i: nat)
    requires Sound(WalkFrom(a, pos, left)) && i < |WalkFrom(a, pos, left).list|
    ensures var list := WalkFrom(a, pos, left).list; i < HeadersWithin(list, k) <==> list[i].offset <= k
    decreases i
  {
    var next := FirstMember(a, pos, left);
    if i > 0 {
      var first, rest := MemberAt(a, pos), WalkFrom(a, next, left - 1).list;
      CountIsExact(a, k, next, left - 1, i - 1);
      OffsetsIncrease(a, pos, left, 0, i);
      if first.offset <= k { HeadersWithinStep(first, rest, k); }
    }
  }

  lemma {:induction false} HeadErrorFrom(h: Archive, a: Archive, pos: int, left: nat)
    requires HeadOf(h, a) && !WalkFrom(h, pos, left).Members?
    ensures WalkFrom(a, pos, left) == WalkFrom(h, pos, left)
    decreases left
  {
    if Readable(h, pos) && left > 0 { HeadErrorFrom(h, a, Next(h, pos), left - 1); }
  }

  lemma {:induction false} MoreLeft(a: Archive, pos: int, left: nat, more: nat)
    requires left <= more && WalkFrom(a, pos, left) != Forever
    ensures WalkFrom(a, pos, more) == WalkFrom(a, pos, left)
    decreases left
  {
    if Readable(a, pos) && left > 0 { MoreLeft(a, Next(a, pos), left - 1, more - 1); }
  }

  /** A head is refused, panics or is walked for ever only when the whole archive is,
      whatever the sizes. */
  lemma {:induction false} HeadErrorIsReal(buf: Bytes, k: nat)
    requires |MAGIC| <= k <= |buf| && !Parse(buf[..k]).Members?
    ensures Parse(buf) == Parse(buf[..k])
  {
    assert buf[..k][..|MAGIC|] == buf[..|MAGIC|];
    if HasPrefix(buf, MAGIC) {
      HeadOfBuffer(buf, k);
      HeadError(ArchiveOf(buf[..k]), ArchiveOf(buf), |MAGIC|);
    }
  }

  lemma {:induction false} HeadError(h: Archive, a: Archive, pos: int)
    requires HeadOf(h, a) && !WalkFrom(h, pos, h.length).Members?
    ensures WalkFrom(a, pos, a.length) == WalkFrom(h, pos, h.length)
  {
    if WalkFrom(h, pos, h.length) == Forever {
      NeverEndsExactly(h, pos);
    } else {
      MoreLeft(h, pos, h.length, a.length);
    }
    HeadErrorFrom(h, a, pos, a.length);
  }

  // ----- the control member -------------------------------------------------

  predicate IsControl(m: Member) { HasPrefix(m.name, "control.tar") }

  function FirstControl(members: seq<Member>): (r: Result<Member>)
    ensures r.Err? <==> forall i :: 0 <= i < |members| ==> !IsControl(members[i])
  {
    if members == [] then Err
    else if IsControl(members[0]) then Ok(members[0])
    else FirstControl(members[1..])
  }

  method FindControlMember(members: seq<Member>) returns (r: Result<Member>)
    ensures r == FirstControl(members)
  {
    for i := 0 to |members|
      invariant FirstControl(members) == FirstControl(members[i..])
    {
      if IsControl(members[i]) { return Ok(members[i]); }
    }
    return Err;
  }

  lemma {:induction false} FirstControlAt(members: seq<Member>, m: nat) returns (i: nat)
    requires FirstControl(members).Ok? && m <= |members|
    ensures i < |members| && members[i] == FirstControl(members).value
    ensures FirstControl(members[..m]) == if i < m then FirstControl(members) else Err
  {
    if IsControl(members[0]) {
      i := 0;
      if m > 0 { assert members[..m][0] == members[0]; }
    } else {
      if m > 0 { assert members[..m][1..] == members[1..][..m - 1]; }
      var j := FirstControlAt(members[1..], if m > 0 then m - 1 else 0);
      i := j + 1;
    }
  }

  // ----- extracting it ------------------------------------------------------

  /** The answer to a second range request, by first and last byte, if there is one. */
  type RangeServer = (nat, int) -> Result<Bytes>

  /** Opening the control tarball, by its name and bytes. */
  type Opener = (string, Bytes) -> Result<Bytes>

  /** What extractControl comes to; Crashes is a panic of the walk, or a slice with its end before its start. */
  datatype Extraction = Got(control: Bytes) | Refused | Crashes | Hangs

  /** The buffer is taken from the head, or made up of its end and the server's bytes. */
  method Splice(head: Bytes, control: Member, server: RangeServer) returns (r: Result<Bytes>)
    requires control.offset <= |head| && control.size >= 0
    ensures r == Fetched(head, control, server)
  {
    if control.offset + control.size <= |head| {
      return Ok(head[control.offset..control.offset + control.size]);
    }
    var have := head[control.offset..];
    var need := control.size - |have|;
    var tail := server(control.offset + |have|, control.offset + control.size - 1);
    if tail.Err? { return Err; }
    if |tail.value| != need { return Err; }
    var tar := new char[control.size];
    forall i | 0 <= i < |have| { tar[i] := have[i]; }
    forall i | 0 <= i < need { tar[|have| + i] := tail.value[i]; }
    assert tar[..] == have + tail.value;
    return Ok(tar[..]);
  }

  /** A total of 0 or less stands for a server that does not know it. */
  method ExtractControl(head: Bytes, totalSize: int, server: RangeServer, open: Opener) returns (r: Extraction)
    ensures r == Extract(head, totalSize, server, open)
  {
    if !HasPrefix(head, MAGIC) { return Refused; }
    var walk := ParseARHeaders(head);
    match walk {
      case Malformed => return Refused;
      case Panics => return Crashes;
      case Forever => return Hangs;
      case Members(list) =>
        var found := FindControlMember(list);
        if found.Err? { return Refused; }
        ControlWithin(head);
        r := ExtractMember(head, found.value, totalSize, server, open);
    }
  }

  method ExtractMember(head: Bytes, control: Member, totalSize: int, server: RangeServer, open: Opener)
      returns (r: Extraction)
    requires control.offset <= |head|
    ensures r == Extracted(head, control, totalSize, server, open)
  {
    if control.size > MAX_CONTROL_TAR { return Refused; }
    if totalSize > 0 && control.offset + control.size > totalSize { return Refused; }
    if control.size < 0 { return Crashes; }
    var tar := Splice(head, control, server);
    if tar.Err? { return Refused; }
    var inner := open(control.name, tar.value);
    r := if inner.Ok? then Got(inner.value) else Refused;
  }

  function Control(buf: Bytes): Result<Member> {
    if Parse(buf).Members? then FirstControl(Parse(buf).list) else Err
  }

  /** The body of a control member: from the head alone, or completed by the server. */
  function Fetched(head: Bytes, control: Member, server: RangeServer): Result<Bytes>
    requires control.offset <= |head| && control.size >= 0
  {
    var end := control.offset + control.size;
    if end <= |head| then Ok(head[control.offset..end])
    else
      match server(|head|, end - 1)
      case Err => Err
      case Ok(tail) => if |tail| == end - |head| then Ok(head[control.offset..] + tail) else Err
  }

  function Extracted(head: Bytes, control: Member, totalSize: int, server: RangeServer, open: Opener): Extraction
    requires control.offset <= |head|
  {
    if control.size > MAX_CONTROL_TAR then Refused
    else if totalSize > 0 && control.offset + control.size > totalSize then Refused
    else if control.size < 0 then Crashes
    else
      var tar := Fetched(head, control, server);
      if tar.Err? then Refused
      else if open(control.name, tar.value).Ok? then Got(open(control.name, tar.value).value)
      else Refused
  }

  function Extract(head: Bytes, totalSize: int, server: RangeServer, open: Opener): Extraction {
    match Parse(head)
    case Malformed => Refused
    case Panics => Crashes
    case Forever => Hangs
    case Members(list) =>
      if FirstControl(list).Err? then Refused
      else ControlWithin(head); Extracted(head, FirstControl(list).value, totalSize, server, open)
  }

  lemma {:induction false} WalkWithin(a: Archive, pos: int, left: nat, i: nat)
    requires WalkFrom(a, pos, left).Members? && i < |WalkFrom(a, pos, left).list|
    ensures WalkFrom(a, pos, left).list[i].offset <= a.length
    decreases i
  {
    if i > 0 { WalkWithin(a, Next(a, pos), left - 1, i - 1); }
  }

  lemma {:induction false} ControlWithin(buf: Bytes)
    requires Control(buf).Ok?
    ensures Control(buf).value.offset <= |buf|
  {
    var list := Parse(buf).list;
    var i := FirstControlAt(list, |list|);
    WalkWithin(ArchiveOf(buf), |MAGIC|, |buf|, i);
  }

  /** A server that answers a range with those bytes of the file, cut at its end. */
  ghost predicate Serves(file: Bytes, server: RangeServer) {
    forall first: nat, last :: first <= last ==>
      server(first, last) == Ok(if first >= |file| then "" else file[first..if last < |file| then last + 1 else |file|])
  }

  lemma {:induction false} ControlOfHead(file: Bytes, k: nat)
    requires |MAGIC| <= k <= |file| && Sound(Parse(file))
    ensures Control(file[..k]) == if Control(file).Ok? && Control(file).value.offset > k then Err else Control(file)
  {
    var list := Parse(file).list;
    var m := HeadersWithin(list, k);
    HeadShowsAPrefix(file, k, 0);
    if Control(file).Ok? {
      var i := FirstControlAt(list, m);
      HeadShowsAPrefix(file, k, i);
    } else {
      assert forall i :: 0 <= i < m ==> list[..m][i] == list[i];
    }
  }

  lemma {:induction false} AnswerIs(file: Bytes, server: RangeServer, first: nat, last: nat)
    requires Serves(file, server) && first <= last < |file|
    ensures server(first, last) == Ok(file[first..last + 1])
  {
    assert (if last < |file| then last + 1 else |file|) == last + 1;
  }

  lemma {:induction false} BodyIsSpliced(file: Bytes, k: nat, control: Member, server: RangeServer)
    requires control.offset <= k <= |file| && control.size >= 0 && Serves(file, server)
    ensures var end := control.offset + control.size;
      Fetched(file[..k], control, server) == if end <= |file| then Ok(file[control.offset..end]) else Err
  {
    var end := control.offset + control.size;
    if end <= k {
      assert file[..k][control.offset..end] == file[control.offset..end];
    } else if end <= |file| {
      AnswerIs(file, server, k, end - 1);
      assert file[..k][control.offset..] + file[k..end] == file[control.offset..end];
    } else {
      assert server(k, end - 1) == Ok(if k >= |file| then "" else file[k..|file|]);
    }
  }

  /** Ranged reading refines whole-file reading: over a well-formed archive and a server
      that serves it, told or not how long the file is, any head gives just what the
      whole file gives, unless the control member's header lies past the head, in which
      case it fails. */
  lemma {:induction false} RangedIsWhole(file: Bytes, k: nat, total: int, server: RangeServer, open: Opener)
    requires |MAGIC| <= k <= |file| && Sound(Parse(file)) && Serves(file, server)
    requires total <= 0 || total == |file|
    ensures Extract(file[..k], total, server, open)
      == if Control(file).Ok? && Control(file).value.offset > k then Refused else Extract(file, |file|, server, open)
  {
    ControlOfHead(file, k);
    HeadShowsAPrefix(file, k, 0);
    if Control(file).Ok? && Control(file).value.offset <= k {
      ControlNonNegative(file);
      ExtractedFromHead(file, k, Control(file).value, total, server, open);
    }
  }

  lemma {:induction false} ControlNonNegative(file: Bytes)
    requires Sound(Parse(file)) && Control(file).Ok?
    ensures Control(file).value.size >= 0
  {
    var i := FirstControlAt(Parse(file).list, 0);
  }

  lemma {:induction false} ExtractedFromHead(
    file: Bytes, k: nat, control: Member, total: int, server: RangeServer, open: Opener)
    requires control.offset <= k <= |file| && control.size >= 0 && Serves(file, server)
    requires total <= 0 || total == |file|
    ensures Extracted(file[..k], control, total, server, open) == Extracted(file, control, |file|, server, open)
  {
    BodyIsSpliced(file, k, control, server);
    WholeHead(file, control, server);
  }

  lemma {:induction false} WholeHead(file: Bytes, control: Member, server: RangeServer)
    requires control.offset <= |file| && control.size >= 0 && Serves(file, server)
    ensures var end := control.offset + control.size;
      Fetched(file, control, server) == if end <= |file| then Ok(file[control.offset..end]) else Err
  {
    assert file[..|file|] == file;
    BodyIsSpliced(file, |file|, control, server);
  }

  /** Whatever the server sends, a body that is used has the declared length and
      agrees with the head. */
  lemma {:induction false} ShortTailIsRefused(head: Bytes, control: Member, server: RangeServer)
    requires control.offset <= |head| && control.size >= 0 && Fetched(head, control, server).Ok?
    ensures var tar := Fetched(head, control, server).value;
      && |tar| == control.size
      && forall i :: 0 <= i < |tar| && control.offset + i < |head| ==> tar[i] == head[control.offset + i]
  {
  }

  /** Extraction goes wrong, instead of refusing, exactly when the walk does, or when the
      control member has a negative size that fits the total. */
  lemma {:induction false} GoesWrongExactly(head: Bytes, total: int, server: RangeServer, open: Opener)
    ensures var r := Extract(head, total, server, open);
      && (r == Hangs <==> Parse(head) == Forever)
      && (r == Crashes <==>
            || Parse(head) == Panics
            || (Control(head).Ok? && Control(head).value.size < 0
                && (total <= 0 || Control(head).value.offset + Control(head).value.size <= total)))
  {
  }

  // ----- a writer -----------------------------------------------------------

  /** A member to be written: slash for the name style that ends in one, and the 32
      bytes of date, owner and mode in between. */
  datatype File = File(name: string, slash: bool, meta: Bytes, body: Bytes)

  function NameField(f: File): string { if f.slash then f.name + "/" else f.name }

  predicate Writable(f: File) {
    && |NameField(f)| <= 16 && |f.meta| == 32 && |Itoa(|f.body|)| <= 10
    && (f.name != "" && !f.slash ==> f.name[|f.name| - 1] !in {' ', '/'})
  }

  function Padded(s: string, n: nat): string
    requires |s| <= n
  {
    s + Repeat(' ', n - |s|)
  }

  function WriteHeader(f: File): (h: Bytes)
    requires Writable(f)
    ensures |h| == HEADER
  {
    Padded(NameField(f), 16) + f.meta + Padded(Itoa(|f.body|), 10) + "`\n"
  }

  function WriteEntry(f: File): Bytes
    requires Writable(f)
  {
    WriteHeader(f) + f.body + if |f.body| % 2 != 0 then "\n" else ""
  }

  function WriteEntries(fs: seq<File>): Bytes
    requires forall f :: f in fs ==> Writable(f)
  {
    if fs == [] then "" else WriteEntry(fs[0]) + WriteEntries(fs[1..])
  }

  function WriteAr(fs: seq<File>): Bytes
    requires forall f :: f in fs ==> Writable(f)
  {
    MAGIC + WriteEntries(fs)
  }

  /** Where the written members are. */
  function Placed(fs: seq<File>, pos: nat): seq<Member> {
    if fs == [] then []
    else [Member(fs[0].name, pos + HEADER, |fs[0].body|)] + Placed(fs[1..], Advance(pos, |fs[0].body|))
  }

  lemma {:induction false} NameReadsBack(f: File)
    requires Writable(f)
    ensures DropSlash(TrimRight(WriteHeader(f)[..16], ' ')) == f.name
  {
    assert WriteHeader(f)[..16] == Padded(NameField(f), 16);
    TrimPadding(NameField(f), ' ', 16 - |NameField(f)|);
  }

  lemma {:induction false} SizeReadsBack(f: File)
    requires Writable(f)
    ensures Atoi(TrimRight(WriteHeader(f)[48..58], ' ')) == Some(|f.body|)
  {
    var digits := Itoa(|f.body|);
    assert WriteHeader(f)[48..58] == Padded(digits, 10);
    ItoaValue(|f.body|);
    TrimPadding(digits, ' ', 10 - |digits|);
    AtoiItoa(|f.body|);
  }

  lemma {:induction false} HeaderReadsBack(f: File)
    requires Writable(f)
    ensures ReadHeader(WriteHeader(f)) == Some(Header(f.name, |f.body|))
  {
    var h := WriteHeader(f);
    assert h[58..] == "`\n" && h[58] == h[58..][0] && h[59] == h[58..][1];
    NameReadsBack(f);
    SizeReadsBack(f);
  }

  lemma {:induction false} EntryThenRest(before: Bytes, f: File, rest: Bytes, members: seq<Member>, left: nat)
    requires Writable(f) && left > 0
    requires var buf := before + WriteEntry(f) + rest;
      WalkFrom(ArchiveOf(buf), |before + WriteEntry(f)|, left - 1) == Members(members)
    ensures WalkFrom(ArchiveOf(before + WriteEntry(f) + rest), |before|, left)
      == Members([Member(f.name, |before| + HEADER, |f.body|)] + members)
  {
    EntryRead(before, f, rest);
  }

  lemma {:induction false} BytesAssociate(a: Bytes, b: Bytes, c: Bytes)
    ensures a + (b + c) == a + b + c
  {
  }

  lemma {:induction false} EntryLength(before: Bytes, f: File)
    requires Writable(f)
    ensures |before + WriteEntry(f)| == Advance(|before|, |f.body|)
  {
    EntryInPlace(before, f, "");
  }

  lemma {:induction false} EntriesReadBack(before: Bytes, fs: seq<File>, left: nat)
    requires (forall f :: f in fs ==> Writable(f)) && left >= |fs|
    ensures WalkFrom(ArchiveOf(before + WriteEntries(fs)), |before|, left) == Members(Placed(fs, |before|))
    decreases |fs|
  {
    if fs != [] {
      EntryLength(before, fs[0]);
      BytesAssociate(before, WriteEntry(fs[0]), WriteEntries(fs[1..]));
      EntriesReadBack(before + WriteEntry(fs[0]), fs[1..], left - 1);
      EntryThenRest(before, fs[0], WriteEntries(fs[1..]), Placed(fs[1..], |before + WriteEntry(fs[0])|), left);
    } else {
      assert before + WriteEntries(fs) == before;
    }
  }

  lemma {:induction false} EntryRead(before: Bytes, f: File, rest: Bytes)
    requires Writable(f)
    ensures var a, pos := ArchiveOf(before + WriteEntry(f) + rest), |before|;
      && Readable(a, pos) && MemberAt(a, pos) == Member(f.name, pos + HEADER, |f.body|)
      && Next(a, pos) == |before + WriteEntry(f)|
  {
    EntryInPlace(before, f, rest);
    HeaderReadsBack(f);
  }

  lemma {:induction false} EntriesAreLong(fs: seq<File>)
    requires forall f :: f in fs ==> Writable(f)
    ensures |WriteEntries(fs)| >= |fs|
  {
    if fs != [] { EntriesAreLong(fs[1..]); }
  }

  lemma {:induction false} EntryInPlace(before: Bytes, f: File, rest: Bytes)
    requires Writable(f)
    ensures var buf, pos := before + WriteEntry(f) + rest, |before|;
      && |before + WriteEntry(f)| == Advance(pos, |f.body|) && pos + HEADER + |f.body| <= |buf|
      && buf[pos..pos + HEADER] == WriteHeader(f) && buf[pos + HEADER..pos + HEADER + |f.body|] == f.body
  {
  }

  /** Parsing what was written finds every member by its name, in order. */
  lemma {:induction false} ParseOfWritten(fs: seq<File>)
    requires forall f :: f in fs ==> Writable(f)
    ensures Parse(WriteAr(fs)) == Members(Placed(fs, |MAGIC|))
  {
    EntriesAreLong(fs);
    EntriesReadBack(MAGIC, fs, |WriteAr(fs)|);
  }

  lemma {:induction false} BodyInPlace(before: Bytes, fs: seq<File>, i: nat)
    requires (forall f :: f in fs ==> Writable(f)) && i < |fs|
    ensures var buf := before + WriteEntries(fs);
      && i < |Placed(fs, |before|)|
      && var m := Placed(fs, |before|)[i];
      && m.name == fs[i].name && 0 <= m.size && m.offset + m.size <= |buf|
      && buf[m.offset..m.offset + m.size] == fs[i].body
    decreases i
  {
    var f, rest := fs[0], WriteEntries(fs[1..]);
    assert before + WriteEntries(fs) == before + WriteEntry(f) + rest;
    EntryInPlace(before, f, rest);
    if i > 0 {
      BodyInPlace(before + WriteEntry(f), fs[1..], i - 1);
      assert Placed(fs, |before|)[i] == Placed(fs[1..], |before + WriteEntry(f)|)[i - 1];
    }
  }

  /** The slice found for each written member is its body. */
  lemma {:induction false} WrittenBodies(fs: seq<File>, i: nat)
    requires (forall f :: f in fs ==> Writable(f)) && i < |fs|
    ensures var walk := Parse(WriteAr(fs));
      && walk.Members? && i < |walk.list|
      && var m := walk.list[i];
      && m.name == fs[i].name && 0 <= m.size && m.offset + m.size <= |WriteAr(fs)|
      && WriteAr(fs)[m.offset..m.offset + m.size] == fs[i].body
  {
    ParseOfWritten(fs);
    BodyInPlace(MAGIC, fs, i);
  }

  // ----- any header ---------------------------------------------------------

  predicate EndsBare(s: string) { s == "" || s[|s| - 1] != ' ' }

  function HeaderOf(name: string, meta: Bytes, size: string, trailer: Bytes): Bytes
    requires |name| <= 16 && |size| <= 10
  {
    Padded(name, 16) + meta + Padded(size, 10) + trailer
  }

  lemma {:induction false} HeaderFields(name: string, meta: Bytes, size: string, trailer: Bytes)
    requires |name| <= 16 && |meta| == 32 && |size| <= 10 && |trailer| == 2 && EndsBare(name) && EndsBare(size)
    ensures var h := HeaderOf(name, meta, size, trailer);
      && |h| == HEADER && [h[58], h[59]] == trailer
      && TrimRight(h[..16], ' ') == name && TrimRight(h[48..58], ' ') == size
  {
    var h := HeaderOf(name, meta, size, trailer);
    assert h[..16] == Padded(name, 16) && h[48..58] == Padded(size, 10);
    TrimPadding(name, ' ', 16 - |name|);
    TrimPadding(size, ' ', 10 - |size|);
    assert trailer == [trailer[0], trailer[1]];
  }

  /** A header is read exactly when it ends in a backquote and a newline and its size field
      holds a number, maybe signed; one slash is taken off the name. */
  lemma {:induction false} ReadExactly(name: string, meta: Bytes, size: string, trailer: Bytes)
    requires |name| <= 16 && |meta| == 32 && |size| <= 10 && |trailer| == 2 && EndsBare(name) && EndsBare(size)
    ensures var h := HeaderOf(name, meta, size, trailer);
      && |h| == HEADER
      && (ReadHeader(h).Some? <==> trailer == ['`', '\n'] && IsNumeral(size))
      && (ReadHeader(h).Some? ==> Some(ReadHeader(h).value.size) == Atoi(size))
      && (ReadHeader(h).Some? ==>
            ReadHeader(h).value.name == if name != "" && name[|name| - 1] == '/' then name[..|name| - 1] else name)
  {
    HeaderFields(name, meta, size, trailer);
    AtoiExactly(size);
  }

  // ----- the control member of a written package ----------------------------

  ghost predicate NamesControl(name: string) { exists rest: string :: name == "control.tar" + rest }

  lemma {:induction false} NamesControlExactly(m: Member)
    ensures IsControl(m) <==> NamesControl(m.name)
  {
    if IsControl(m) {
      assert m.name == "control.tar" + m.name[|"control.tar"|..];
    }
  }

  lemma {:induction false} FirstOfThem(list: seq<Member>, i: nat)
    requires i < |list| && IsControl(list[i]) && forall j :: 0 <= j < i ==> !IsControl(list[j])
    ensures FirstControl(list) == Ok(list[i])
  {
    if i > 0 { FirstOfThem(list[1..], i - 1); }
  }

  lemma {:induction false} PlacedAt(fs: seq<File>, pos: nat, i: nat)
    requires i < |fs|
    ensures |Placed(fs, pos)| == |fs|
    ensures Placed(fs, pos)[i].name == fs[i].name && Placed(fs, pos)[i].size == |fs[i].body|
    decreases i
  {
    PlacedLength(fs, pos);
    if i > 0 { PlacedAt(fs[1..], Advance(pos, |fs[0].body|), i - 1); }
  }

  lemma {:induction false} PlacedLength(fs: seq<File>, pos: nat)
    ensures |Placed(fs, pos)| == |fs|
  {
    if fs != [] { PlacedLength(fs[1..], Advance(pos, |fs[0].body|)); }
  }

  /** The i-th is the first whose name begins control.tar. */
  ghost predicate IsFirstControl(fs: seq<File>, i: nat) {
    && i < |fs| && NamesControl(fs[i].name)
    && forall j :: 0 <= j < i ==> !NamesControl(fs[j].name)
  }

  lemma {:induction false} WrittenControl(fs: seq<File>, i: nat)
    requires (forall f :: f in fs ==> Writable(f)) && IsFirstControl(fs, i)
    ensures var list := Placed(fs, |MAGIC|);
      i < |list| && Parse(WriteAr(fs)) == Members(list) && FirstControl(list) == Ok(list[i])
  {
    var list := Placed(fs, |MAGIC|);
    ParseOfWritten(fs);
    PlacedAt(fs, |MAGIC|, i);
    forall j | 0 <= j <= i ensures IsControl(list[j]) <==> NamesControl(fs[j].name) {
      PlacedAt(fs, |MAGIC|, j);
      NamesControlExactly(list[j]);
    }
    FirstOfThem(list, i);
  }

  /** Where the i-th body of a written archive starts. */
  function PlaceOf(fs: seq<File>, i: nat): nat
    requires i < |fs| && forall f :: f in fs ==> Writable(f)
  {
    |"!<arch>\n" + WriteEntries(fs[..i])| + 60
  }

  lemma {:induction false} WholeIsOpened(
    buf: Bytes, control: Member, body: Bytes, total: int, server: RangeServer, open: Opener)
    requires Control(buf) == Ok(control) && control.size == |body|
    requires control.offset + |body| <= |buf| && buf[control.offset..control.offset + |body|] == body
    ensures Extract(buf, total, server, open)
      == if |body| > 16777216 || (total > 0 && total < control.offset + |body|) then Refused
         else if open(control.name, body).Ok? then Got(open(control.name, body).value)
         else Refused
  {
    assert Fetched(buf, control, server) == Ok(body);
  }

  lemma {:induction false} WrittenAt(fs: seq<File>, i: nat) returns (control: Member)
    requires (forall f :: f in fs ==> Writable(f)) && IsFirstControl(fs, i)
    ensures Control(WriteAr(fs)) == Ok(control)
    ensures control == Member(fs[i].name, PlaceOf(fs, i), |fs[i].body|)
    ensures control.offset + control.size <= |WriteAr(fs)|
    ensures WriteAr(fs)[control.offset..control.offset + control.size] == fs[i].body
  {
    WrittenControl(fs, i);
    WrittenBodies(fs, i);
    PlaceIs(fs, |MAGIC|, i);
    control := Placed(fs, |MAGIC|)[i];
  }

  /** How a written package is read: its first member called control.tar, with whatever
      ending, is opened under its own name, unless it is over 16 MiB or does not fit the
      total the server told. */
  lemma {:induction false} WrittenIsExtracted(
    fs: seq<File>, i: nat, total: int, server: RangeServer, open: Opener)
    requires (forall f :: f in fs ==> Writable(f)) && IsFirstControl(fs, i)
    ensures Extract("!<arch>\n" + WriteEntries(fs), total, server, open)
      == if |fs[i].body| > 16777216 || (total > 0 && total < PlaceOf(fs, i) + |fs[i].body|) then Refused
         else if open(fs[i].name, fs[i].body).Ok? then Got(open(fs[i].name, fs[i].body).value)
         else Refused
  {
    var control := WrittenAt(fs, i);
    WholeIsOpened(WriteAr(fs), control, fs[i].body, total, server, open);
  }

  lemma {:induction false} PlaceIs(fs: seq<File>, pos: nat, i: nat)
    requires (forall f :: f in fs ==> Writable(f)) && i < |fs|
    ensures |Placed(fs, pos)| == |fs| && Placed(fs, pos)[i].offset == pos + |WriteEntries(fs[..i])| + HEADER
    decreases i
  {
    PlacedLength(fs, pos);
    if i > 0 {
      var next := Advance(pos, |fs[0].body|);
      PlaceIs(fs[1..], next, i - 1);
      assert fs[..i][0] == fs[0] && fs[..i][1..] == fs[1..][..i - 1];
      assert |WriteEntry(fs[0])| == next - pos;
    }
  }

  lemma {:induction false} NoControlIsRefused(fs: seq<File>, total: int, server: RangeServer, open: Opener)
    requires forall f :: f in fs ==> Writable(f) && !NamesControl(f.name)
    ensures Extract(WriteAr(fs), total, server, open) == Refused
  {
    ParseOfWritten(fs);
    var list := Placed(fs, |MAGIC|);
    forall j | 0 <= j < |list| ensures !IsControl(list[j]) {
      PlacedLength(fs, |MAGIC|);
      PlacedAt(fs, |MAGIC|, j);
      NamesControlExactly(list[j]);
    }
  }

  /** Nothing is read of a file that does not begin as an archive. */
  lemma {:induction false} OtherMagicIsRefused(buf: Bytes, total: int, server: RangeServer, open: Opener)
    requires |buf| < 8 || buf[..8] != "!<arch>\n"
    ensures Parse(buf) == Malformed && Extract(buf, total, server, open) == Refused
  {
  }
}
