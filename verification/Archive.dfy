/** Whole archives: the bytes that are written, and the walk that reads them back. */
module Archive {
  import opened Bytes
  import opened Wrappers
  import opened ArFormat
  import opened ArNames
  import opened ArMap
  import opened ArMapPasses

  // ----- what is written

  /** The header name of the table of long names. */
  function TableName(f: Format): (n: seq<byte>)
    ensures |n| == 16
  {
    if f.slash then [SLASH, SLASH] + Spaces(14)
    else [65, 82, 70, 73, 76, 69, 78, 65, 77, 69, 83, SLASH] + Spaces(4)      // ARFILENAMES/
  }

  function LinePad(n: nat): (p: seq<byte>)
    ensures |p| == n % 2
  {
    if n % 2 == 1 then [NEWLINE] else []
  }

  function TableOf(f: Format, ms: seq<Member>): seq<byte> {
    NameTable(f, ms, |ms|)
  }

  function PaddedTable(f: Format, ms: seq<Member>): seq<byte> {
    TableOf(f, ms) + LinePad(|TableOf(f, ms)|)
  }

  /** The table of long names as an archive element, when there are long names. */
  function NamesSection(f: Format, ms: seq<Member>): (b: seq<byte>)
    ensures |b| == if TableOf(f, ms) == [] then 0 else AR_HDR + |PaddedTable(f, ms)|
  {
    if TableOf(f, ms) == [] then []
    else Header(TableName(f), Spaces(32), |PaddedTable(f, ms)|) + PaddedTable(f, ms)
  }

  /** The header of the i-th member. */
  function MemberHeader(f: Format, ms: seq<Member>, i: nat): (h: seq<byte>)
    requires Known(f) && i < |ms| && |ms[i].meta| == 32
    ensures |h| == AR_HDR
  {
    Header(NameField(f, Basename(ms[i].path), |NameTable(f, ms, i)|), ms[i].meta, |ms[i].contents|)
  }

  function MemberBytes(f: Format, ms: seq<Member>, i: nat): (b: seq<byte>)
    requires Known(f) && i < |ms| && |ms[i].meta| == 32
    ensures |b| == MemberLen(ms[i])
  {
    MemberHeader(f, ms, i) + ms[i].contents + LinePad(|ms[i].contents|)
  }

  /** A member's 60 bytes of header, with the text for its date and owner and the magic at
      the end, its contents, and a newline if they are of odd length. */
  lemma MemberBytesAre(f: Format, ms: seq<Member>, i: nat)
    requires Known(f) && i < |ms| && |ms[i].meta| == 32
    ensures var b, n := MemberBytes(f, ms, i), |ms[i].contents|;
            && |b| == 60 + n + n % 2 && b[16..48] == ms[i].meta && b[58] == 96 && b[59] == 10
            && b[60..60 + n] == ms[i].contents && (n % 2 == 1 ==> b[60 + n] == 10)
  {
    var h, c, n := MemberHeader(f, ms, i), ms[i].contents, |ms[i].contents|;
    HeaderMeta(NameField(f, Basename(ms[i].path), |NameTable(f, ms, i)|), ms[i].meta, n);
    assert (h + c + LinePad(n))[60..60 + n] == c;
    assert (h + c + LinePad(n))[16..48] == h[16..48];
  }

  lemma HeaderMeta(name: seq<byte>, meta: seq<byte>, size: nat)
    requires |name| == 16 && |meta| == 32
    ensures Header(name, meta, size)[16..48] == meta
  {
  }

  predicate FreshHeaders(ms: seq<Member>) {
    forall i :: 0 <= i < |ms| ==> |ms[i].meta| == 32
  }

  function Body(f: Format, ms: seq<Member>, n: nat): (b: seq<byte>)
    requires Known(f) && FreshHeaders(ms) && n <= |ms|
    ensures |b| == HeaderPos(ms, 0, n)
  {
    if n == 0 then [] else Body(f, ms, n - 1) + MemberBytes(f, ms, n - 1)
  }

  /** The map as an archive element; it is told where the members will be. */
  function MapSection(f: Format, big: bool, ms: seq<Member>, meta: seq<byte>): (b: seq<byte>)
    requires |meta| == 32
    ensures |b| == AR_HDR + if f.coff then CoffMapLen(Entries(ms, |ms|)) else BsdMapLen(Entries(ms, |ms|))
  {
    EntriesGrouped(ms, |ms|);
    var es := Entries(ms, |ms|);
    if f.coff then
      Header(COFF_MAP_NAME, meta, CoffMapLen(es)) + CoffMap(es, ms, MembersStart(f, ms, true))
    else
      Header(BSD_MAP_NAME, meta, BsdMapLen(es)) + BsdMap(big, es, ms, MembersStart(f, ms, true))
  }

  /** Where the writers of the map say that the first member will be. */
  function MembersStart(f: Format, ms: seq<Member>, withMap: bool): nat {
    var es := Entries(ms, |ms|);
    SARMAG + |NamesSection(f, ms)|
    + if !withMap then 0 else AR_HDR + if f.coff then CoffMapLen(es) else BsdMapLen(es)
  }

  /** Everything before the first member. */
  function Front(f: Format, big: bool, ms: seq<Member>, withMap: bool, meta: seq<byte>): (b: seq<byte>)
    requires |meta| == 32
    ensures |b| == MembersStart(f, ms, withMap)
  {
    ARMAG + (if withMap then MapSection(f, big, ms, meta) else []) + NamesSection(f, ms)
  }

  function ArchiveBytes(f: Format, big: bool, ms: seq<Member>, withMap: bool, meta: seq<byte>): seq<byte>
    requires Known(f) && FreshHeaders(ms) && |meta| == 32
  {
    Front(f, big, ms, withMap, meta) + Body(f, ms, |ms|)
  }

  // ----- the index agrees with the layout

  lemma {:induction false} HeaderPosShift(ms: seq<Member>, start: nat, i: nat)
    requires i <= |ms|
    ensures HeaderPos(ms, start, i) == start + HeaderPos(ms, 0, i)
  {
    if i > 0 {
      HeaderPosShift(ms, start, i - 1);
    }
  }

  lemma PrefixTransitive(a: seq<byte>, b: seq<byte>, c: seq<byte>)
    requires a <= b && b <= c
    ensures a <= c
  {
  }

  lemma PrefixOfSum(a: seq<byte>, b: seq<byte>)
    ensures a <= a + b
  {
  }

  lemma {:induction false} BodyGrows(f: Format, ms: seq<Member>, n: nat, m: nat)
    requires Known(f) && FreshHeaders(ms) && n <= m <= |ms|
    ensures Body(f, ms, n) <= Body(f, ms, m)
    decreases m
  {
    if n < m {
      BodyGrows(f, ms, n, m - 1);
      PrefixOfSum(Body(f, ms, m - 1), MemberBytes(f, ms, m - 1));
      PrefixTransitive(Body(f, ms, n), Body(f, ms, m - 1), Body(f, ms, m));
    }
  }

  /** These bytes stand at this place. */
  predicate StandsAt(all: seq<byte>, pos: nat, piece: seq<byte>) {
    pos + |piece| <= |all| && all[pos..pos + |piece|] == piece
  }

  /** Member i's bytes are found where HeaderPos says. */
  lemma {:induction false} MemberPlaced(f: Format, ms: seq<Member>, front: seq<byte>, i: nat)
    requires Known(f) && FreshHeaders(ms) && i < |ms|
    ensures StandsAt(front + Body(f, ms, |ms|), HeaderPos(ms, |front|, i), MemberBytes(f, ms, i))
  {
    HeaderPosShift(ms, |front|, i);
    BodyGrows(f, ms, i + 1, |ms|);
    InsideAt(front, Body(f, ms, i), MemberBytes(f, ms, i), Body(f, ms, |ms|), HeaderPos(ms, |front|, i));
  }

  lemma Inside(front: seq<byte>, before: seq<byte>, piece: seq<byte>, all: seq<byte>)
    requires before + piece <= all
    ensures StandsAt(front + all, |front| + |before|, piece)
  {
    var at := |front| + |before|;
    forall k | 0 <= k < |piece| ensures (front + all)[at + k] == piece[k] {
      assert all[|before| + k] == (before + piece)[|before| + k];
    }
  }

  lemma InsideAt(front: seq<byte>, before: seq<byte>, piece: seq<byte>, all: seq<byte>, pos: nat)
    requires before + piece <= all && pos == |front| + |before|
    ensures StandsAt(front + all, pos, piece)
  {
    Inside(front, before, piece, all);
  }

  lemma PrefixStands(all: seq<byte>, pos: nat, piece: seq<byte>, head: seq<byte>)
    requires StandsAt(all, pos, piece) && head <= piece
    ensures StandsAt(all, pos, head)
  {
    assert forall k :: 0 <= k < |head| ==> all[pos..pos + |piece|][k] == head[k];
  }

  lemma {:induction false} HeaderPlaced(f: Format, ms: seq<Member>, front: seq<byte>, i: nat)
    requires Known(f) && FreshHeaders(ms) && i < |ms|
    ensures StandsAt(front + Body(f, ms, |ms|), HeaderPos(ms, |front|, i), MemberHeader(f, ms, i))
  {
    MemberPlaced(f, ms, front, i);
    PrefixStands(front + Body(f, ms, |ms|), HeaderPos(ms, |front|, i), MemberBytes(f, ms, i), MemberHeader(f, ms, i));
  }

  /** Where the offset of entry k stands, from the header of the map on. */
  function OffsetField(f: Format, k: nat): nat {
    AR_HDR + if f.coff then 4 + 4 * k else 8 + 8 * k
  }

  lemma NumberBehind(big: bool, front: seq<byte>, raw: seq<byte>, at: nat)
    requires at + 4 <= |raw|
    ensures Number(big, front + raw, |front| + at) == Number(big, raw, at)
  {
  }

  lemma NumberInside(big: bool, all: seq<byte>, pos: nat, piece: seq<byte>, at: nat)
    requires StandsAt(all, pos, piece) && at + 4 <= |piece|
    ensures pos + at + 4 <= |all| && Number(big, all, pos + at) == Number(big, piece, at)
  {
    ByteInside(all, pos, piece, at);
    ByteInside(all, pos, piece, at + 1);
    ByteInside(all, pos, piece, at + 2);
    ByteInside(all, pos, piece, at + 3);
  }

  lemma ByteInside(all: seq<byte>, pos: nat, piece: seq<byte>, k: nat)
    requires StandsAt(all, pos, piece) && k < |piece|
    ensures pos + k < |all| && all[pos + k] == piece[k]
  {
    assert all[pos..pos + |piece|][k] == piece[k];
  }

  lemma CoffOffsetHeld(es: seq<Orl>, ms: seq<Member>, start: nat, h: seq<byte>, k: nat, at: nat)
    requires |h| == AR_HDR && Grouped(es, |ms|) && k < |es| && at == AR_HDR + (4 + 4 * k)
    ensures at + 4 <= |h + CoffMap(es, ms, start)|
    ensures Number(true, h + CoffMap(es, ms, start), at) == HeaderPos(ms, start, es[k].owner) % WORD
  {
    hide *;
    CoffParts(es, ms, start);
    CoffRoom(es, ms, start, CoffMap(es, ms, start), k);
    CoffOffsetRead(es, ms, start, CoffMap(es, ms, start), k);
    NumberBehind(true, h, CoffMap(es, ms, start), 4 + 4 * k);
  }

  lemma CoffRoom(es: seq<Orl>, ms: seq<Member>, start: nat, raw: seq<byte>, k: nat)
    requires Grouped(es, |ms|) && k < |es| && CoffLaidOut(es, ms, start, raw)
    ensures 4 + 4 * k + 4 <= |raw|
  {
  }

  lemma BsdOffsetHeld(big: bool, es: seq<Orl>, ms: seq<Member>, start: nat, h: seq<byte>, k: nat, at: nat)
    requires |h| == AR_HDR && Grouped(es, |ms|) && k < |es| && at == AR_HDR + (4 + 8 * k + 4)
    ensures at + 4 <= |h + BsdMap(big, es, ms, start)|
    ensures Number(big, h + BsdMap(big, es, ms, start), at) == HeaderPos(ms, start, es[k].owner) % WORD
  {
    hide *;
    BsdParts(big, es, ms, start);
    BsdRoom(big, es, ms, start, BsdMap(big, es, ms, start), k);
    BsdRowRead(big, es, ms, start, BsdMap(big, es, ms, start), k);
    NumberBehind(big, h, BsdMap(big, es, ms, start), 4 + 8 * k + 4);
  }

  lemma BsdRoom(big: bool, es: seq<Orl>, ms: seq<Member>, start: nat, raw: seq<byte>, k: nat)
    requires Grouped(es, |ms|) && k < |es| && BsdLaidOut(big, es, ms, start, raw)
    ensures 4 + 8 * k + 8 <= |raw|
  {
  }

  lemma MapIs(f: Format, big: bool, ms: seq<Member>, meta: seq<byte>)
    requires |meta| == 32
    ensures Grouped(Entries(ms, |ms|), |ms|)
    ensures var es, start := Entries(ms, |ms|), MembersStart(f, ms, true);
            MapSection(f, big, ms, meta)
            == if f.coff then Header(COFF_MAP_NAME, meta, CoffMapLen(es)) + CoffMap(es, ms, start)
               else Header(BSD_MAP_NAME, meta, BsdMapLen(es)) + BsdMap(big, es, ms, start)
  {
    EntriesGrouped(ms, |ms|);
    hide Header, CoffMap, BsdMap, Entries, MembersStart;
  }

  lemma FieldOffset(f: Format, k: nat)
    ensures OffsetField(f, k) == AR_HDR + if f.coff then 4 + 4 * k else 4 + 8 * k + 4
  {
  }

  /** The offset that the map has for entry k. */
  lemma MapOffset(f: Format, big: bool, ms: seq<Member>, meta: seq<byte>, k: nat)
    requires Known(f) && |meta| == 32 && k < |Entries(ms, |ms|)|
    ensures Entries(ms, |ms|)[k].owner < |ms| && OffsetField(f, k) + 4 <= |MapSection(f, big, ms, meta)|
    ensures Number(f.coff || big, MapSection(f, big, ms, meta), OffsetField(f, k))
            == HeaderPos(ms, MembersStart(f, ms, true), Entries(ms, |ms|)[k].owner) % WORD
  {
    var es, start := Entries(ms, |ms|), MembersStart(f, ms, true);
    hide *;
    EntriesGrouped(ms, |ms|);
    MapIs(f, big, ms, meta);
    FieldOffset(f, k);
    if f.coff {
      CoffOffsetHeld(es, ms, start, Header(COFF_MAP_NAME, meta, CoffMapLen(es)), k, OffsetField(f, k));
    } else {
      BsdOffsetHeld(big, es, ms, start, Header(BSD_MAP_NAME, meta, BsdMapLen(es)), k, OffsetField(f, k));
    }
  }

  lemma Chain(a: seq<byte>, m: seq<byte>, n: seq<byte>, b: seq<byte>)
    ensures (a + m + n + b)[..|a|] == a
    ensures StandsAt(a + m + n + b, |a|, m)
    ensures StandsAt(a + m + n + b, |a| + |m|, n)
  {
    assert a + m + n + b == a + (m + n + b) == (a + m) + (n + b);
    Inside(a, [], m, m + n + b);
    Inside(a + m, [], n, n + b);
  }

  lemma MapPlaced(f: Format, big: bool, ms: seq<Member>, meta: seq<byte>)
    requires Known(f) && FreshHeaders(ms) && |meta| == 32
    ensures StandsAt(ArchiveBytes(f, big, ms, true, meta), SARMAG, MapSection(f, big, ms, meta))
  {
    hide MapSection, NamesSection, Body, StandsAt;
    Chain(ARMAG, MapSection(f, big, ms, meta), NamesSection(f, ms), Body(f, ms, |ms|));
  }

  /** The four bytes of the archive that hold it. */
  lemma OffsetRead(f: Format, big: bool, ms: seq<Member>, meta: seq<byte>, k: nat)
    requires Known(f) && FreshHeaders(ms) && |meta| == 32 && k < |Entries(ms, |ms|)|
    ensures Entries(ms, |ms|)[k].owner < |ms|
    ensures SARMAG + OffsetField(f, k) + 4 <= |ArchiveBytes(f, big, ms, true, meta)|
    ensures Number(f.coff || big, ArchiveBytes(f, big, ms, true, meta), SARMAG + OffsetField(f, k))
            == HeaderPos(ms, MembersStart(f, ms, true), Entries(ms, |ms|)[k].owner) % WORD
  {
    hide *;
    MapOffset(f, big, ms, meta, k);
    MapPlaced(f, big, ms, meta);
    NumberInside(f.coff || big, ArchiveBytes(f, big, ms, true, meta), SARMAG, MapSection(f, big, ms, meta),
                 OffsetField(f, k));
  }

  /** Every offset the map gives for a symbol, in either format and with or without a
      table of long names: its four bytes hold, up to their width, the exact place of the
      header of a member that defines the symbol. */
  lemma IndexAgreesWithLayout(f: Format, big: bool, ms: seq<Member>, meta: seq<byte>, k: nat)
    requires Known(f) && FreshHeaders(ms) && |meta| == 32 && k < |Entries(ms, |ms|)|
    ensures var e := Entries(ms, |ms|)[k]; e.owner < |ms| && Defines(ms[e.owner], e.name)
    ensures var e, all, at := Entries(ms, |ms|)[k], ArchiveBytes(f, big, ms, true, meta), SARMAG + OffsetField(f, k);
            var pos := HeaderPos(ms, MembersStart(f, ms, true), e.owner);
            && at + 4 <= |all| && Number(f.coff || big, all, at) == pos % WORD
            && StandsAt(all, pos, MemberHeader(f, ms, e.owner))
  {
    var e := Entries(ms, |ms|)[k];
    assert Lists(Entries(ms, |ms|), e.name, e.owner);
    MapListsDefinitions(ms, |ms|, e.name, e.owner);
    hide Number, HeaderPos, MembersStart, MemberHeader, StandsAt, Entries, Defines, MapSection, Body, OffsetField;
    HeaderPlaced(f, ms, Front(f, big, ms, true, meta), e.owner);
    OffsetRead(f, big, ms, meta, k);
  }

  // ----- what is read

  /** A member as the walk finds it. */
  datatype Element = Element(name: seq<byte>, contents: seq<byte>)

  datatype End = NoMore | Malformed

  datatype Walked = Walked(elements: seq<Element>, end: End)

  /** The header at a place in the file, if there is a whole one with the right magic. */
  predicate HeaderAt(all: seq<byte>, pos: nat) {
    pos + AR_HDR <= |all| && all[pos + 58..pos + 60] == ARFMAG
  }

  function SizeAt(all: seq<byte>, pos: nat): nat
    requires HeaderAt(all, pos)
  {
    SizeOf(all[pos..pos + AR_HDR])
  }

  /** Contents of the given size behind a header, as far as the file goes. */
  function ContentsAt(all: seq<byte>, at: nat, size: nat): seq<byte>
    requires at <= |all|
  {
    if at + size <= |all| then all[at..at + size] else all[at..]
  }

  /** The place behind an element that is not opened as a member. */
  function NextPos(all: seq<byte>, pos: nat): nat
    requires HeaderAt(all, pos)
  {
    var after := pos + AR_HDR + SizeAt(all, pos);
    after + after % 2
  }

  function NameAt(f: Format, all: seq<byte>, pos: nat, table: Option<seq<byte>>): (found: Option<Found>)
    requires Known(f) && HeaderAt(all, pos)
    ensures found.Some? ==> pos + AR_HDR + found.value.taken <= |all|
  {
    ReadName(f, all[pos..pos + AR_HDR], table, all[pos + AR_HDR..])
  }

  const W64: nat := 0x1_0000_0000_0000_0000

  /** The size of the contents, without a name in front of them: an unsigned number. */
  function SizeWithout(size: nat, taken: nat): nat {
    if taken <= size then size - taken else (size - taken) % W64
  }

  /** _bfd_get_elt_at_filepos. */
  function ElementAt(f: Format, all: seq<byte>, pos: nat, table: Option<seq<byte>>): Option<Element>
    requires Known(f)
  {
    if !HeaderAt(all, pos) || NameAt(f, all, pos, table).None? then None
    else
      var found := NameAt(f, all, pos, table).value;
      Some(Element(found.name, ContentsAt(all, pos + AR_HDR + found.taken, SizeWithout(SizeAt(all, pos), found.taken))))
  }

  /** Where bfd_generic_openr_next_archived_file looks after this member; it has 32 bits for
      the size. */
  function NextElement(f: Format, all: seq<byte>, pos: nat, table: Option<seq<byte>>): (next: nat)
    requires Known(f) && ElementAt(f, all, pos, table).Some?
    ensures next >= pos + AR_HDR
  {
    var taken := NameAt(f, all, pos, table).value.taken;
    var after := pos + AR_HDR + taken + SizeWithout(SizeAt(all, pos), taken) % WORD;
    after + after % 2
  }

  /** A name behind the header that the end of the file cuts off is no error, but the end. */
  predicate CutOff(all: seq<byte>, pos: nat)
    requires pos + AR_HDR <= |all|
  {
    && HeaderAt(all, pos) && NameFollows(all[pos..pos + AR_HDR])
    && Strtol(all[pos..pos + AR_HDR][3..]) > |all| - (pos + AR_HDR)
  }

  /** Opening one member after the other, from a position on. */
  function Walk(f: Format, all: seq<byte>, pos: nat, table: Option<seq<byte>>): Walked
    requires Known(f)
    decreases |all| - pos
  {
    if pos + AR_HDR > |all| then Walked([], NoMore)
    else
      var e := ElementAt(f, all, pos, table);
      if e.None? then Walked([], if CutOff(all, pos) then NoMore else Malformed)
      else
        var rest := Walk(f, all, NextElement(f, all, pos, table), table);
        Walked([e.value] + rest.elements, rest.end)
  }

  // ----- what is read from any bytes

  /** The name field is a reference to the table of long names: it begins with a slash, or
      with a blank and has no slash. */
  predicate IsReference(f: Format, all: seq<byte>, pos: nat)
    requires Known(f) && pos + 60 <= |all|
  {
    all[pos] == 47 || (all[pos] == 32 && 47 !in all[pos..pos + f.maxName])
  }

  /** Or it is "#1/" and a digit: the name stands behind the header. */
  predicate IsBehind(all: seq<byte>, pos: nat)
    requires pos + 60 <= |all|
  {
    all[pos] == 35 && all[pos + 1] == 49 && all[pos + 2] == 47 && 48 <= all[pos + 3] <= 57
  }

  lemma HeaderBytes(f: Format, all: seq<byte>, pos: nat)
    requires Known(f) && pos + 60 <= |all|
    ensures var h := all[pos..pos + AR_HDR];
            && (HeaderAt(all, pos) <==> all[pos + 58] == 96 && all[pos + 59] == 10)
            && (RefersToTable(f, h) <==> IsReference(f, all, pos)) && (NameFollows(h) <==> IsBehind(all, pos))
            && h[1..] == all[pos + 1..pos + 60] && h[3..] == all[pos + 3..pos + 60]
            && h[48..] == all[pos + 48..pos + 60]
  {
    var h := all[pos..pos + AR_HDR];
    assert forall k :: 0 <= k < 60 ==> h[k] == all[pos + k];
    assert all[pos + 58..pos + 60] == [all[pos + 58], all[pos + 59]];
    assert h[..f.maxName] == all[pos..pos + f.maxName];
  }

  /** The whole header of a member is there and has its magic, a reference is into the table,
      and a name behind the header is there. */
  predicate Openable(f: Format, all: seq<byte>, pos: nat, table: Option<seq<byte>>)
    requires Known(f)
  {
    && pos + 60 <= |all| && all[pos + 58] == 96 && all[pos + 59] == 10
    && if IsReference(f, all, pos) && table.Some? then Strtol(all[pos + 1..pos + 60]) < |table.value|
       else IsBehind(all, pos) ==> pos + 60 + Strtol(all[pos + 3..pos + 60]) <= |all|
  }

  /** The bytes from `from` on, up to `to` or the end of the file. */
  function UpTo(all: seq<byte>, from: nat, to: nat): seq<byte>
    requires from <= to && from <= |all|
  {
    all[from..if to <= |all| then to else |all|]
  }

  /** A name in its own field ends before the first zero byte, or else the first slash, or
      else the first blank, or with the field. */
  predicate EndsName(field: seq<byte>, k: nat) {
    && k <= |field| && (k < |field| ==> field[k] in {0, 47, 32})
    && (forall i :: 0 <= i < k ==> field[i] != 0)
    && (k < |field| && field[k] == 47 ==> 0 !in field && forall i :: 0 <= i < k ==> field[i] != 47)
    && (k < |field| && field[k] == 32 ==> 0 !in field && 47 !in field && forall i :: 0 <= i < k ==> field[i] != 32)
    && (k == |field| ==> 0 !in field && 47 !in field && 32 !in field)
  }

  /** A member has as many bytes of contents behind its header as the header says, or as
      there are, and the name that is referred to; or the name that stands behind the header
      and is not part of the contents; or the one in its field. */
  predicate ReadAs(f: Format, all: seq<byte>, pos: nat, table: Option<seq<byte>>, e: Element)
    requires Known(f) && Openable(f, all, pos, table)
  {
    var start, size := pos + 60, Strtol(all[pos + 48..pos + 60]);
    if IsReference(f, all, pos) && table.Some? then
      e.contents == UpTo(all, start, start + size)
      && e.name == CString(table.value, Strtol(all[pos + 1..pos + 60]))
    else if IsBehind(all, pos) then
      var taken := Strtol(all[pos + 3..pos + 60]);
      && e.name == CString(all[start..start + taken], 0)
      && (taken <= size ==> e.contents == UpTo(all, start + taken, start + size))
    else
      && e.contents == UpTo(all, start, start + size) && |e.name| <= f.maxName && e.name == all[pos..pos + |e.name|]
      && EndsName(all[pos..pos + f.maxName], |e.name|)
  }

  /** So any bytes are read: a member can be opened if and only if it is openable, and is then
      what it says. */
  lemma ElementIff(f: Format, all: seq<byte>, pos: nat, table: Option<seq<byte>>)
    requires Known(f)
    ensures ElementAt(f, all, pos, table).Some? <==> Openable(f, all, pos, table)
    ensures Openable(f, all, pos, table) ==> ReadAs(f, all, pos, table, ElementAt(f, all, pos, table).value)
  {
    if pos + 60 <= |all| {
      HeaderBytes(f, all, pos);
      if Openable(f, all, pos, table) {
        ElementIs(f, all, pos, table);
      }
    }
  }

  lemma ElementIs(f: Format, all: seq<byte>, pos: nat, table: Option<seq<byte>>)
    requires Known(f) && Openable(f, all, pos, table) && ElementAt(f, all, pos, table).Some?
    ensures ReadAs(f, all, pos, table, ElementAt(f, all, pos, table).value)
  {
    HeaderBytes(f, all, pos);
    var h, behind := all[pos..pos + AR_HDR], all[pos + AR_HDR..];
    assert h[..f.maxName] == all[pos..pos + f.maxName];
    hide HeaderAt, Known, RefersToTable, NameFollows, IsReference, IsBehind, Strtol, CString, NameEnd, EndsName;
    if IsReference(f, all, pos) && table.Some? {
    } else if IsBehind(all, pos) {
      var taken := Strtol(all[pos + 3..pos + 60]);
      assert behind[..taken] == all[pos + 60..pos + 60 + taken];
    } else {
      var k := NameEnd(h[..f.maxName]);
      NameEnds(h[..f.maxName]);
      assert h[..k] == all[pos..pos + k];
    }
  }

  lemma NameEnds(field: seq<byte>)
    ensures EndsName(field, NameEnd(field))
  {
    var k := NameEnd(field);
    if k < |field| {
      assert field[k] in field;
    }
  }

  /** The walk goes on at the next even place behind the contents, whose length is taken
      modulo 2^32. */
  lemma WalkGoesOn(f: Format, all: seq<byte>, pos: nat, table: Option<seq<byte>>) returns (next: nat)
    requires Known(f) && Openable(f, all, pos, table)
    ensures var size := Strtol(all[pos + 48..pos + 60]);
            var taken := if !(IsReference(f, all, pos) && table.Some?) && IsBehind(all, pos)
                         then Strtol(all[pos + 3..pos + 60]) else 0;
            var end := pos + 60 + taken + (size - taken) % 0x1_0000_0000;
            next % 2 == 0 && end <= next <= end + 1
    ensures var w := Walk(f, all, pos, table);
            && w.elements != [] && ReadAs(f, all, pos, table, w.elements[0])
            && w.elements[1..] == Walk(f, all, next, table).elements && w.end == Walk(f, all, next, table).end
  {
    ElementIff(f, all, pos, table);
    HeaderBytes(f, all, pos);
    next := NextElement(f, all, pos, table);
    var taken := NameAt(f, all, pos, table).value.taken;
    Narrowed(SizeAt(all, pos), taken);
    hide ElementAt, ReadAs, Openable;
  }

  lemma Narrowed(size: nat, taken: nat)
    ensures SizeWithout(size, taken) % WORD == (size - taken) % 0x1_0000_0000
  {
    var q := (size - taken) / W64;
    if taken > size {
      var k := (size - taken) % W64 / WORD;
      assert size - taken == WORD * (0x1_0000_0000 * q + k) + (size - taken) % W64 % WORD;
      SameRemainder(size - taken, (size - taken) % W64 % WORD, 0x1_0000_0000 * q + k);
    }
  }

  lemma SameRemainder(x: int, r: int, q: int)
    requires x == WORD * q + r && 0 <= r < WORD
    ensures x % 0x1_0000_0000 == r
  {
  }

  /** The walk ends well where no header fits any more, or where the file is cut off inside
      a name behind a header; anything else that cannot be opened is an error. */
  lemma WalkEnds(f: Format, all: seq<byte>, pos: nat, table: Option<seq<byte>>)
    requires Known(f) && (pos + 60 > |all| || ElementAt(f, all, pos, table).None?)
    ensures var w := Walk(f, all, pos, table);
            && w.elements == []
            && (w.end == NoMore
                <==> pos + 60 > |all|
                     || (all[pos + 58] == 96 && all[pos + 59] == 10 && IsBehind(all, pos)
                         && pos + 60 + Strtol(all[pos + 3..pos + 60]) > |all|))
  {
    if pos + 60 <= |all| {
      HeaderBytes(f, all, pos);
    }
  }

  // ----- the walk finds the members

  /** What the format can represent: sizes that fit their fields, long names that are
      text, short names that survive their header field and are not empty. */
  predicate Archivable(f: Format, ms: seq<Member>) {
    && FreshHeaders(ms)
    && |TableOf(f, ms)| + 1 < SIZE_LIMIT
    && forall i :: 0 <= i < |ms| ==> |ms[i].contents| < WORD && GoodName(f, Basename(ms[i].path))
  }

  predicate GoodName(f: Format, name: seq<byte>) {
    if IsLong(f, name) then Printable(name)
    else name != [] && NUL !in name && ShortNameSurvives(f, name)
  }

  /** The terminated table a reader has while it walks this archive. */
  function TableRead(f: Format, ms: seq<Member>): Option<seq<byte>> {
    if TableOf(f, ms) == [] then None else Some(Terminate(PaddedTable(f, ms)))
  }

  /** Byte k of the field of a long name. */
  lemma {:induction false} LongField(f: Format, name: seq<byte>, offset: nat, h: seq<byte>, k: nat)
    requires Known(f) && IsLong(f, name) && offset < SIZE_LIMIT && k < 16
    requires |h| == AR_HDR && h[..16] == NameField(f, name, offset)
    ensures |Decimal(offset)| <= 10
    ensures h[k] == if k == 0 then f.pad else if k <= |Decimal(offset)| then Decimal(offset)[k - 1] else SPACE
  {
    assert Pow10(10) == SIZE_LIMIT;
    DecimalFits(offset, 10);
    assert h[k] == h[..16][k];
  }

  lemma LongFieldNumber(f: Format, name: seq<byte>, offset: nat, h: seq<byte>)
    requires Known(f) && IsLong(f, name) && offset < SIZE_LIMIT
    requires |h| == AR_HDR && h[..16] == NameField(f, name, offset)
    ensures Strtol(h[1..]) == offset
  {
    hide NameField, IsLong, Strtol, Decimal, Known;
    var d := Decimal(offset);
    LongField(f, name, offset, h, 0);
    LongField(f, name, offset, h, 1 + |d|);
    forall k | 0 <= k < |d| ensures h[1..][k] == d[k] {
      LongField(f, name, offset, h, 1 + k);
    }
    var post := h[1 + |d|..];
    assert h[1..] == d + post;
    StrtolReadsDecimal(offset, post);
  }

  /** The header of a long name gives back the offset written in it. */
  lemma LongFieldRead(f: Format, name: seq<byte>, offset: nat, h: seq<byte>)
    requires Known(f) && IsLong(f, name) && offset < SIZE_LIMIT
    requires |h| == AR_HDR && h[..16] == NameField(f, name, offset)
    ensures RefersToTable(f, h) && Strtol(h[1..]) == offset
  {
    LongFieldNumber(f, name, offset, h);
    LongField(f, name, offset, h, 0);
    forall k | 0 <= k < f.maxName ensures k > 0 ==> h[..f.maxName][k] != SLASH {
      LongField(f, name, offset, h, k);
    }
  }

  /** Reading a member's header finds its name. */
  lemma {:induction false} NameRead(f: Format, ms: seq<Member>, i: nat, h: seq<byte>, behind: seq<byte>)
    requires Known(f) && Archivable(f, ms) && i < |ms|
    requires |h| == AR_HDR && h[..16] == NameField(f, Basename(ms[i].path), |NameTable(f, ms, i)|)
    ensures ReadName(f, h, TableRead(f, ms), behind) == Some(Found(Basename(ms[i].path), 0))
  {
    var name := Basename(ms[i].path);
    assert GoodName(f, name);
    if IsLong(f, name) {
      TableGrows(f, ms, i, |ms|);
      TableGrows(f, ms, i + 1, |ms|);
      LongFieldRead(f, name, |NameTable(f, ms, i)|, h);
      LongNameFound(f, ms, i, PaddedTable(f, ms));
    } else {
      ShortNameBesideTable(f, name, h, TableRead(f, ms), behind);
    }
  }

  lemma ContentsRead(all: seq<byte>, pos: nat, h: seq<byte>, contents: seq<byte>, pad: seq<byte>)
    requires |h| == AR_HDR && h[58..] == ARFMAG && StandsAt(all, pos, h + contents + pad)
    ensures HeaderAt(all, pos) && all[pos..pos + AR_HDR] == h
    ensures ContentsAt(all, pos + AR_HDR, |contents|) == contents
  {
    var b, n := h + contents + pad, |contents|;
    SliceStands(all, pos, b, 0, AR_HDR);
    assert b[0..AR_HDR] == h;
    SliceStands(all, pos, b, 58, 60);
    assert b[58..60] == h[58..];
    SliceStands(all, pos, b, AR_HDR, AR_HDR + n);
    assert b[AR_HDR..AR_HDR + n] == contents;
  }

  lemma SliceStands(all: seq<byte>, pos: nat, piece: seq<byte>, a: nat, b: nat)
    requires StandsAt(all, pos, piece) && a <= b <= |piece|
    ensures all[pos + a..pos + b] == piece[a..b]
  {
    forall k | 0 <= k < b - a ensures all[pos + a..pos + b][k] == piece[a..b][k] {
      assert all[pos..pos + |piece|][a + k] == piece[a + k];
    }
  }

  /** A name that is taken for one behind the header costs the contents its length. */
  lemma ContentsLost(f: Format, all: seq<byte>, pos: nat, h: seq<byte>, contents: seq<byte>, pad: seq<byte>,
                     found: Found)
    requires Known(f) && |h| == AR_HDR && h[58..] == ARFMAG && StandsAt(all, pos, h + contents + pad)
    requires SizeOf(h) == |contents| && found.taken <= |contents|
    requires ReadName(f, h, None, all[pos + AR_HDR..]) == Some(found)
    ensures ElementAt(f, all, pos, None) == Some(Element(found.name, contents[found.taken..]))
  {
    hide ReadName, SizeOf;
    ContentsRead(all, pos, h, contents, pad);
    SliceStands(all, pos, h + contents + pad, AR_HDR + found.taken, AR_HDR + |contents|);
    assert (h + contents + pad)[AR_HDR + found.taken..AR_HDR + |contents|] == contents[found.taken..];
  }

  /** Opening the member at a place where its bytes stand. */
  lemma MemberRead(f: Format, ms: seq<Member>, i: nat, all: seq<byte>, pos: nat)
    requires Known(f) && Archivable(f, ms) && i < |ms| && pos % 2 == 0
    requires StandsAt(all, pos, MemberBytes(f, ms, i))
    ensures ElementAt(f, all, pos, TableRead(f, ms)) == Some(Element(Basename(ms[i].path), ms[i].contents))
    ensures HeaderAt(all, pos) && NextPos(all, pos) == pos + MemberLen(ms[i])
    ensures NextElement(f, all, pos, TableRead(f, ms)) == pos + MemberLen(ms[i])
  {
    hide Header, ReadName, SizeOf, NameField, NameTable;
    var m, h := ms[i], MemberHeader(f, ms, i);
    ContentsRead(all, pos, h, m.contents, LinePad(|m.contents|));
    HeaderKeepsSize(NameField(f, Basename(m.path), |NameTable(f, ms, i)|), m.meta, |m.contents|);
    NameRead(f, ms, i, h, all[pos + AR_HDR..]);
    SmallWord(|m.contents|);
    EvenAfter(pos, |m.contents|);
  }

  lemma EvenAfter(pos: nat, n: nat)
    requires pos % 2 == 0
    ensures pos + AR_HDR + n + (pos + AR_HDR + n) % 2 == pos + (AR_HDR + n + n % 2)
  {
  }

  /** The members from the i-th on, as a walk should find them. */
  function Originals(ms: seq<Member>, i: nat): (es: seq<Element>)
    requires i <= |ms|
    ensures |es| == |ms| - i
    decreases |ms| - i
  {
    if i == |ms| then [] else [Element(Basename(ms[i].path), ms[i].contents)] + Originals(ms, i + 1)
  }

  lemma {:induction false} WalkStep(f: Format, all: seq<byte>, pos: nat, table: Option<seq<byte>>, e: Element,
                                    next: nat, rest: seq<Element>)
    requires Known(f) && HeaderAt(all, pos) && ElementAt(f, all, pos, table) == Some(e)
    requires NextElement(f, all, pos, table) == next
    requires Walk(f, all, next, table) == Walked(rest, NoMore)
    ensures Walk(f, all, pos, table) == Walked([e] + rest, NoMore)
  {
  }

  /** Walking on from the i-th header finds exactly the members from there on. */
  lemma {:induction false} WalkFindsMembers(f: Format, ms: seq<Member>, front: seq<byte>, all: seq<byte>, i: nat)
    requires Known(f) && Archivable(f, ms) && i <= |ms| && |front| % 2 == 0
    requires all == front + Body(f, ms, |ms|)
    ensures Walk(f, all, HeaderPos(ms, |front|, i), TableRead(f, ms)) == Walked(Originals(ms, i), NoMore)
    decreases |ms| - i
  {
    var pos := HeaderPos(ms, |front|, i);
    if i < |ms| {
      WalkFindsMembers(f, ms, front, all, i + 1);
      MemberFound(f, ms, front, all, i);
      WalkStep(f, all, pos, TableRead(f, ms), Element(Basename(ms[i].path), ms[i].contents),
               HeaderPos(ms, |front|, i + 1),
               Originals(ms, i + 1));
    } else {
      HeaderPosShift(ms, |front|, i);
    }
  }

  lemma MemberFound(f: Format, ms: seq<Member>, front: seq<byte>, all: seq<byte>, i: nat)
    requires Known(f) && Archivable(f, ms) && i < |ms| && |front| % 2 == 0
    requires all == front + Body(f, ms, |ms|)
    ensures ElementAt(f, all, HeaderPos(ms, |front|, i), TableRead(f, ms))
            == Some(Element(Basename(ms[i].path), ms[i].contents))
    ensures HeaderAt(all, HeaderPos(ms, |front|, i))
    ensures NextElement(f, all, HeaderPos(ms, |front|, i), TableRead(f, ms)) == HeaderPos(ms, |front|, i + 1)
  {
    MemberPlaced(f, ms, front, i);
    HeadersAreEven(ms, |front|, i);
    MemberRead(f, ms, i, all, HeaderPos(ms, |front|, i));
  }
}
