/** The archive round trip, exactly: which names come back. */
module ArExact {
  import opened Bytes
  import opened Wrappers
  import opened ArFormat
  import opened ArNames
  import opened ArMap
  import opened ArMapPasses
  import opened Archive
  import opened ArRoundTrip

  /** A short name that begins with a blank and is not ended by a slash: beside a table of
      long names it looks like a reference to it. */
  predicate LooksLikeReference(f: Format, name: seq<byte>) {
    name != [] && name[0] == SPACE && !IsLong(f, name) && !(f.slash && |name| < f.maxName)
  }

  /** Files to be archived: C strings for names, which are not empty, and sizes that fit. */
  predicate Nameable(f: Format, ms: seq<Member>) {
    && FreshHeaders(ms) && |TableOf(f, ms)| + 1 < SIZE_LIMIT
    && forall i :: 0 <= i < |ms| ==> NameableAt(f, ms, i)
  }

  predicate NameableAt(f: Format, ms: seq<Member>, i: nat)
    requires i < |ms|
  {
    var name := Basename(ms[i].path);
    && |ms[i].contents| < WORD && name != [] && NUL !in name
    && (TableOf(f, ms) != [] ==> !LooksLikeReference(f, name))
  }

  predicate AllGood(f: Format, ms: seq<Member>) {
    forall i :: 0 <= i < |ms| ==> GoodName(f, Basename(ms[i].path))
  }

  // ----- where the members are, whatever their names

  /** The members stand behind the front. */
  predicate Behind(f: Format, ms: seq<Member>, front: seq<byte>, all: seq<byte>)
    requires Known(f) && FreshHeaders(ms)
  {
    |front| % 2 == 0 && all == front + Body(f, ms, |ms|)
  }

  lemma HeaderThere(f: Format, ms: seq<Member>, front: seq<byte>, all: seq<byte>, i: nat)
    requires Known(f) && Nameable(f, ms) && i < |ms| && Behind(f, ms, front, all)
    ensures var pos := HeaderPos(ms, |front|, i);
            && HeaderAt(all, pos) && all[pos..pos + AR_HDR] == MemberHeader(f, ms, i)
            && SizeAt(all, pos) == |ms[i].contents| && NextPos(all, pos) == HeaderPos(ms, |front|, i + 1)
  {
    hide Header, SizeOf, NameField, NameTable;
    assert NameableAt(f, ms, i);
    var m, h, pos := ms[i], MemberHeader(f, ms, i), HeaderPos(ms, |front|, i);
    MemberPlaced(f, ms, front, i);
    HeadersAreEven(ms, |front|, i);
    ContentsRead(all, pos, h, m.contents, LinePad(|m.contents|));
    HeaderKeepsSize(NameField(f, Basename(m.path), |NameTable(f, ms, i)|), m.meta, |m.contents|);
    EvenAfter(pos, |m.contents|);
  }

  lemma HeaderField(f: Format, ms: seq<Member>, i: nat)
    requires Known(f) && i < |ms| && |ms[i].meta| == 32
    ensures MemberHeader(f, ms, i)[..16] == NameField(f, Basename(ms[i].path), |NameTable(f, ms, i)|)
  {
  }

  /** No header that was made for its file looks as if the name stood behind it. */
  lemma NoneFollows(f: Format, ms: seq<Member>, i: nat)
    requires Known(f) && i < |ms| && |ms[i].meta| == 32
    ensures !NameFollows(MemberHeader(f, ms, i))
  {
    var name, h := Basename(ms[i].path), MemberHeader(f, ms, i);
    HeaderField(f, ms, i);
    if IsLong(f, name) {
      assert h[0] == h[..16][0] == f.pad;
    } else {
      ShortNameIsThere(f, name, h);
    }
  }

  lemma NoneTaken(f: Format, h: seq<byte>, table: Option<seq<byte>>, behind: seq<byte>)
    requires Known(f) && |h| == AR_HDR && !NameFollows(h)
    ensures ReadName(f, h, table, behind).Some? ==> ReadName(f, h, table, behind).value.taken == 0
  {
  }

  /** From one header the reader goes to the next. */
  lemma NextThere(f: Format, ms: seq<Member>, front: seq<byte>, all: seq<byte>, table: Option<seq<byte>>, i: nat)
    requires Known(f) && Nameable(f, ms) && i < |ms| && Behind(f, ms, front, all)
    ensures var pos := HeaderPos(ms, |front|, i);
            ElementAt(f, all, pos, table).Some? ==> NextElement(f, all, pos, table) == HeaderPos(ms, |front|, i + 1)
  {
    hide ReadName, NameFollows, MemberHeader, HeaderPos, SizeOf, SizeAt, Behind, ContentsAt;
    HeaderThere(f, ms, front, all, i);
    NoneFollows(f, ms, i);
    var pos := HeaderPos(ms, |front|, i);
    NoneTaken(f, MemberHeader(f, ms, i), table, all[pos + AR_HDR..]);
    assert NameableAt(f, ms, i);
    SmallWord(|ms[i].contents|);
  }

  /** So a walk from the i-th header finds no more than the members from there on. */
  lemma {:induction false} WalkCount(f: Format, ms: seq<Member>, front: seq<byte>, all: seq<byte>,
                                     table: Option<seq<byte>>, i: nat)
    requires Known(f) && Nameable(f, ms) && i <= |ms| && Behind(f, ms, front, all)
    ensures |Walk(f, all, HeaderPos(ms, |front|, i), table).elements| <= |ms| - i
    decreases |ms| - i
  {
    hide *;
    if i < |ms| {
      WalkCount(f, ms, front, all, table, i + 1);
      NextThere(f, ms, front, all, table, i);
      WalkOneMore(f, all, HeaderPos(ms, |front|, i), table);
    } else {
      WalkAtEnd(f, ms, front, all, table);
    }
  }

  lemma WalkAtEnd(f: Format, ms: seq<Member>, front: seq<byte>, all: seq<byte>, table: Option<seq<byte>>)
    requires Known(f) && Nameable(f, ms) && Behind(f, ms, front, all)
    ensures Walk(f, all, HeaderPos(ms, |front|, |ms|), table).elements == []
  {
    HeaderPosShift(ms, |front|, |ms|);
  }

  lemma WalkOneMore(f: Format, all: seq<byte>, pos: nat, table: Option<seq<byte>>)
    requires Known(f)
    ensures var e, w := ElementAt(f, all, pos, table), Walk(f, all, pos, table).elements;
            if e.None? then w == [] else w == [e.value] + Walk(f, all, NextElement(f, all, pos, table), table).elements
  {
    hide NextElement;
  }

  /** If it finds just these, it finds each of them. */
  lemma {:induction false} WalkedName(f: Format, ms: seq<Member>, front: seq<byte>, all: seq<byte>,
                                      table: Option<seq<byte>>, i: nat, j: nat)
    requires Known(f) && Nameable(f, ms) && i <= j < |ms| && Behind(f, ms, front, all)
    requires Walk(f, all, HeaderPos(ms, |front|, i), table).elements == Originals(ms, i)
    ensures var e := ElementAt(f, all, HeaderPos(ms, |front|, j), table);
            e.Some? && e.value.name == Basename(ms[j].path)
    decreases |ms| - i
  {
    hide ElementAt, NextElement, Nameable;
    HeaderPosShift(ms, |front|, i);
    var pos, w := HeaderPos(ms, |front|, i), Walk(f, all, HeaderPos(ms, |front|, i), table);
    assert |w.elements| > 0 && w.elements[0] == Originals(ms, i)[0];
    if i < j {
      NextThere(f, ms, front, all, table, i);
      assert w.elements[1..] == Originals(ms, i)[1..] == Originals(ms, i + 1);
      WalkedName(f, ms, front, all, table, i + 1, j);
    }
  }

  /** A name that is found is good. */
  lemma NameTells(f: Format, ms: seq<Member>, i: nat, behind: seq<byte>)
    requires Known(f) && Nameable(f, ms) && i < |ms|
    requires var found := ReadName(f, MemberHeader(f, ms, i), TableRead(f, ms), behind);
             found.Some? && found.value.name == Basename(ms[i].path)
    ensures GoodName(f, Basename(ms[i].path))
  {
    var name, h := Basename(ms[i].path), MemberHeader(f, ms, i);
    assert NameableAt(f, ms, i);
    HeaderField(f, ms, i);
    if IsLong(f, name) {
      TableGrows(f, ms, i, |ms|);
      TableGrows(f, ms, i + 1, |ms|);
      LongFieldRead(f, name, |NameTable(f, ms, i)|, h);
      LongNameFound(f, ms, i, PaddedTable(f, ms));
    } else {
      NoneFollows(f, ms, i);
      NotReference(f, ms, i, h);
      ShortNameSurvivesIff(f, name, h, behind);
    }
  }

  lemma NotReference(f: Format, ms: seq<Member>, i: nat, h: seq<byte>)
    requires Known(f) && Nameable(f, ms) && i < |ms| && !IsLong(f, Basename(ms[i].path))
    requires |h| == AR_HDR && h[..16] == Padded(f, Basename(ms[i].path))
    ensures TableOf(f, ms) != [] ==> !RefersToTable(f, h)
  {
    var name := Basename(ms[i].path);
    assert NameableAt(f, ms, i);
    assert h[0] == h[..16][0] == name[0] && name[0] in name;
    if f.slash && |name| < f.maxName {
      assert h[..f.maxName][|name|] == h[..16][|name|] == SLASH;
    }
  }

  // ----- where the reader begins

  /** Without a table of long names the reader begins at a member, and at the first one only
      if its name is not reserved. */
  lemma BareFirst(f: Format, big: bool, ms: seq<Member>, withMap: bool, meta: seq<byte>) returns (j: nat)
    requires Known(f) && Nameable(f, ms) && |meta| == 32 && (withMap ==> MapRepresentable(f, ms))
    requires TableOf(f, ms) == []
    requires Open(big, ArchiveBytes(f, big, ms, withMap, meta)).Some?
    ensures var o := Open(big, ArchiveBytes(f, big, ms, withMap, meta)).value;
            && j <= |ms| && o.first == HeaderPos(ms, MembersStart(f, ms, withMap), j)
            && (j == 0 ==> o.table.None? && FirstNameOk(f, ms, withMap))
  {
    var all, front, start := ArchiveBytes(f, big, ms, withMap, meta), Front(f, big, ms, withMap, meta),
                             MembersStart(f, ms, withMap);
    FrontIsEven(f, ms, withMap);
    var p := MapPassed(f, big, ms, withMap, meta);
    var k := if p == start then 0 else 1;
    hide NameableAt, FirstNameOk, SlurpMap, MembersStart, Front, MapRepresentable, Body;
    if k < |ms| {
      HeaderThere(f, ms, front, all, k);
    } else {
      HeaderPosShift(ms, start, k);
    }
    NamesPassed(all, p);
    j := if SlurpNames(all, p).value.1 == p then k else k + 1;
    if j == 0 {
      FirstIsPlain(f, big, ms, withMap, meta);
    }
  }

  lemma FirstIsPlain(f: Format, big: bool, ms: seq<Member>, withMap: bool, meta: seq<byte>)
    requires Known(f) && Nameable(f, ms) && |meta| == 32 && TableOf(f, ms) == []
    requires var all, start := ArchiveBytes(f, big, ms, withMap, meta), MembersStart(f, ms, withMap);
             && SlurpMap(big, all, SARMAG).Some? && SlurpMap(big, all, SARMAG).value.1 == start
             && SlurpNames(all, start).Some? && SlurpNames(all, start).value.0.None?
    ensures FirstNameOk(f, ms, withMap)
  {
    hide Padded, NextPos, Whole, SlurpMap, SlurpNames, ArchiveBytes, MembersStart, NameableAt;
    if ms != [] {
      var start := MembersStart(f, ms, withMap);
      FirstFieldPlaced(f, big, ms, withMap, meta, start);
      ReservedFields();
      ReservedPadded(f, Basename(ms[0].path));
      NamesPassed(ArchiveBytes(f, big, ms, withMap, meta), start);
      if !withMap {
        BareStart(f, ms);
        NothingMapped(f, big, ms, withMap, meta);
      }
    }
  }

  /** The reader takes what stands behind the map for a table of names, or it does not. */
  lemma NamesPassed(all: seq<byte>, p: nat)
    requires SlurpNames(all, p).Some?
    ensures var n := SlurpNames(all, p).value;
            if n.0.None? then n.1 == p
            else p + AR_HDR <= |all| && HeaderAt(all, p) && n.1 == NextPos(all, p) > p
    ensures p + 16 <= |all| && all[p..p + 16] == TableName(SVR4.(slash := false)) ==> SlurpNames(all, p).value.0.Some?
  {
  }

  /** It passes the map that was written, or else at most the first member. */
  lemma MapPassed(f: Format, big: bool, ms: seq<Member>, withMap: bool, meta: seq<byte>) returns (p: nat)
    requires Known(f) && Nameable(f, ms) && |meta| == 32 && (withMap ==> MapRepresentable(f, ms))
    requires TableOf(f, ms) == []
    requires SlurpMap(big, ArchiveBytes(f, big, ms, withMap, meta), SARMAG).Some?
    ensures var start := MembersStart(f, ms, withMap);
            && p == SlurpMap(big, ArchiveBytes(f, big, ms, withMap, meta), SARMAG).value.1
            && (p == start || (ms != [] && p == HeaderPos(ms, start, 1)))
  {
    var all, front, start := ArchiveBytes(f, big, ms, withMap, meta), Front(f, big, ms, withMap, meta),
                             MembersStart(f, ms, withMap);
    p := SlurpMap(big, all, SARMAG).value.1;
    FrontIsEven(f, ms, withMap);
    FrontWithoutTable(f, big, ms, withMap, meta);
    if ms != [] {
      FirstByte(f, big, ms, withMap, meta);
      HeaderThere(f, ms, front, all, 0);
    }
    if withMap {
      FrontPieces(f, big, ms, withMap, meta, all, start);
      MapReadBack(f, big, ms, meta, all, start);
    }
  }

  lemma FirstByte(f: Format, big: bool, ms: seq<Member>, withMap: bool, meta: seq<byte>)
    requires Known(f) && Nameable(f, ms) && |meta| == 32 && TableOf(f, ms) == [] && ms != []
    ensures var all, start := ArchiveBytes(f, big, ms, withMap, meta), MembersStart(f, ms, withMap);
            start + AR_HDR <= |all| && all[start] != SLASH && all[start..start + 16] !in {COFF_MAP_NAME, SYM64_NAME}
  {
    var all, start, name := ArchiveBytes(f, big, ms, withMap, meta), MembersStart(f, ms, withMap), Basename(ms[0].path);
    FirstFieldPlaced(f, big, ms, withMap, meta, start);
    assert NameableAt(f, ms, 0);
    assert all[start] == all[start..start + 16][0] == name[0] && name[0] in name;
  }

  /** A first member that is named like a map is taken for one. */
  lemma NothingMapped(f: Format, big: bool, ms: seq<Member>, withMap: bool, meta: seq<byte>)
    requires Known(f) && Nameable(f, ms) && |meta| == 32 && TableOf(f, ms) == [] && ms != []
    ensures var all := ArchiveBytes(f, big, ms, withMap, meta);
            !withMap && Basename(ms[0].path) == RANLIBMAG && SlurpMap(big, all, SARMAG).Some? ==>
              SlurpMap(big, all, SARMAG).value.1 > SARMAG
  {
    FirstFieldPlaced(f, big, ms, withMap, meta, MembersStart(f, ms, withMap));
    ReservedFields();
    ReservedPadded(f, Basename(ms[0].path));
    BareStart(f, ms);
  }

  /** With one, it finds the table and stands at the first member. */
  lemma TabledFirst(f: Format, big: bool, ms: seq<Member>, withMap: bool, meta: seq<byte>)
    requires Known(f) && Nameable(f, ms) && |meta| == 32 && (withMap ==> MapRepresentable(f, ms))
    requires TableOf(f, ms) != []
    ensures Open(big, ArchiveBytes(f, big, ms, withMap, meta))
            == Some(Opened(SymbolsRead(f, ms, withMap), TableRead(f, ms), MembersStart(f, ms, withMap)))
  {
    var all, pos := ArchiveBytes(f, big, ms, withMap, meta), SARMAG + |MapPart(f, big, ms, withMap, meta)|;
    FrontPieces(f, big, ms, withMap, meta, all, pos);
    var half := MapPartEven(f, big, ms, withMap, meta);
    MagicIsEven(pos, half);
    TableReadBack(f, ms, all, pos, MembersStart(f, ms, withMap));
    TableField(f, ms, all, pos, withMap);
    MapSlurped(f, big, ms, withMap, meta, all, pos);
    OpenIs(big, all, SymbolsRead(f, ms, withMap), TableRead(f, ms), pos, MembersStart(f, ms, withMap));
  }

  // ----- the round trip

  /** Opening what was written and walking on yields the members that went in, and the end. */
  predicate RoundTrips(f: Format, big: bool, ms: seq<Member>, withMap: bool, meta: seq<byte>)
    requires Known(f) && FreshHeaders(ms) && |meta| == 32
  {
    var all := ArchiveBytes(f, big, ms, withMap, meta);
    && Open(big, all).Some?
    && Walk(f, all, Open(big, all).value.first, Open(big, all).value.table) == Walked(Originals(ms, 0), NoMore)
  }

  lemma Pieces(f: Format, big: bool, ms: seq<Member>, withMap: bool, meta: seq<byte>)
    requires Known(f) && FreshHeaders(ms) && |meta| == 32
    ensures Behind(f, ms, Front(f, big, ms, withMap, meta), ArchiveBytes(f, big, ms, withMap, meta))
    ensures |Front(f, big, ms, withMap, meta)| == MembersStart(f, ms, withMap) && MembersStart(f, ms, withMap) % 2 == 0
  {
    FrontIsEven(f, ms, withMap);
    hide Front, Body, MembersStart;
  }

  /** A walk from a later member would be too short. */
  lemma BeginsFirst(f: Format, big: bool, ms: seq<Member>, withMap: bool, meta: seq<byte>, table: Option<seq<byte>>,
                    j: nat)
    requires Known(f) && Nameable(f, ms) && |meta| == 32 && j <= |ms|
    requires Walk(f, ArchiveBytes(f, big, ms, withMap, meta), HeaderPos(ms, MembersStart(f, ms, withMap), j),
                  table).elements
             == Originals(ms, 0)
    ensures j == 0
  {
    Pieces(f, big, ms, withMap, meta);
    hide *;
    WalkCount(f, ms, Front(f, big, ms, withMap, meta), ArchiveBytes(f, big, ms, withMap, meta), table, j);
  }

  /** What comes back right was opened at its first member, with its table. */
  lemma BeginsRight(f: Format, big: bool, ms: seq<Member>, withMap: bool, meta: seq<byte>)
    requires Known(f) && Nameable(f, ms) && |meta| == 32 && (withMap ==> MapRepresentable(f, ms))
    requires RoundTrips(f, big, ms, withMap, meta)
    ensures FirstNameOk(f, ms, withMap)
    ensures var o := Open(big, ArchiveBytes(f, big, ms, withMap, meta)).value;
            o.first == MembersStart(f, ms, withMap) && o.table == TableRead(f, ms)
  {
    hide Walk, Open, NameableAt, MembersStart, ArchiveBytes, MapRepresentable, NameTable;
    if TableOf(f, ms) == [] {
      var j := BareFirst(f, big, ms, withMap, meta);
      BeginsFirst(f, big, ms, withMap, meta, Open(big, ArchiveBytes(f, big, ms, withMap, meta)).value.table, j);
    } else {
      TabledFirst(f, big, ms, withMap, meta);
    }
  }

  /** Exactly: an archive comes back as it was written if and only if every long name can be
      a line of text, every short one survives its field, and the first one, with no table
      of names before it, is not reserved. */
  lemma RoundTripsIff(f: Format, big: bool, ms: seq<Member>, withMap: bool, meta: seq<byte>)
    requires Known(f) && Nameable(f, ms) && |meta| == 32 && (withMap ==> MapRepresentable(f, ms))
    ensures RoundTrips(f, big, ms, withMap, meta) <==> AllGood(f, ms) && FirstNameOk(f, ms, withMap)
  {
    hide Walk, Open, ArchiveBytes, ReadName, NameableAt, GoodName, MapRepresentable;
    if AllGood(f, ms) && FirstNameOk(f, ms, withMap) {
      assert Archivable(f, ms) by {
        AllArchivable(f, ms);
      }
      ArchiveRoundTrip(f, big, ms, withMap, meta);
    }
    if RoundTrips(f, big, ms, withMap, meta) {
      BeginsRight(f, big, ms, withMap, meta);
      forall i | 0 <= i < |ms| ensures GoodName(f, Basename(ms[i].path)) {
        RightName(f, big, ms, withMap, meta, i);
      }
    }
  }

  lemma AllArchivable(f: Format, ms: seq<Member>)
    requires Nameable(f, ms) && AllGood(f, ms)
    ensures Archivable(f, ms)
  {
    forall i | 0 <= i < |ms| ensures |ms[i].contents| < WORD && GoodName(f, Basename(ms[i].path)) {
      assert NameableAt(f, ms, i);
    }
  }

  lemma RightName(f: Format, big: bool, ms: seq<Member>, withMap: bool, meta: seq<byte>, i: nat)
    requires Known(f) && Nameable(f, ms) && |meta| == 32 && i < |ms| && RoundTrips(f, big, ms, withMap, meta)
    requires var o := Open(big, ArchiveBytes(f, big, ms, withMap, meta)).value;
             o.first == MembersStart(f, ms, withMap) && o.table == TableRead(f, ms)
    ensures GoodName(f, Basename(ms[i].path))
  {
    Pieces(f, big, ms, withMap, meta);
    WalkIsWhole(f, big, ms, withMap, meta);
    hide *;
    NameWalked(f, ms, Front(f, big, ms, withMap, meta), ArchiveBytes(f, big, ms, withMap, meta), i);
  }

  lemma WalkIsWhole(f: Format, big: bool, ms: seq<Member>, withMap: bool, meta: seq<byte>)
    requires Known(f) && FreshHeaders(ms) && |meta| == 32 && RoundTrips(f, big, ms, withMap, meta)
    requires var o := Open(big, ArchiveBytes(f, big, ms, withMap, meta)).value;
             o.first == MembersStart(f, ms, withMap) && o.table == TableRead(f, ms)
    ensures Walk(f, ArchiveBytes(f, big, ms, withMap, meta), HeaderPos(ms, MembersStart(f, ms, withMap), 0),
                 TableRead(f, ms)).elements
            == Originals(ms, 0)
  {
    hide Walk, Open, ArchiveBytes, Originals, MembersStart, TableRead;
  }

  lemma ElementName(f: Format, all: seq<byte>, pos: nat, table: Option<seq<byte>>, h: seq<byte>)
    requires Known(f) && HeaderAt(all, pos) && |h| == AR_HDR && all[pos..pos + AR_HDR] == h
    requires ElementAt(f, all, pos, table).Some?
    ensures pos + AR_HDR <= |all|
    ensures var found := ReadName(f, h, table, all[pos + AR_HDR..]);
            found.Some? && found.value.name == ElementAt(f, all, pos, table).value.name
  {
    hide ReadName, SizeAt, ContentsAt;
  }

  lemma ElementTells(f: Format, ms: seq<Member>, all: seq<byte>, pos: nat, i: nat)
    requires Known(f) && Nameable(f, ms) && i < |ms| && |ms[i].meta| == 32
    requires HeaderAt(all, pos) && all[pos..pos + AR_HDR] == MemberHeader(f, ms, i)
    requires var e := ElementAt(f, all, pos, TableRead(f, ms)); e.Some? && e.value.name == Basename(ms[i].path)
    ensures GoodName(f, Basename(ms[i].path))
  {
    hide *;
    ElementName(f, all, pos, TableRead(f, ms), MemberHeader(f, ms, i));
    NameTells(f, ms, i, all[pos + AR_HDR..]);
  }

  lemma HasMeta(f: Format, ms: seq<Member>, i: nat)
    requires Nameable(f, ms) && i < |ms|
    ensures |ms[i].meta| == 32
  {
  }

  lemma NameWalked(f: Format, ms: seq<Member>, front: seq<byte>, all: seq<byte>, i: nat)
    requires Known(f) && Nameable(f, ms) && i < |ms| && Behind(f, ms, front, all)
    requires Walk(f, all, HeaderPos(ms, |front|, 0), TableRead(f, ms)).elements == Originals(ms, 0)
    ensures GoodName(f, Basename(ms[i].path))
  {
    hide *;
    HasMeta(f, ms, i);
    WalkedName(f, ms, front, all, TableRead(f, ms), 0, i);
    HeaderThere(f, ms, front, all, i);
    ElementTells(f, ms, all, HeaderPos(ms, |front|, i), i);
  }
}
