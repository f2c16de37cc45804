/** Opening an archive: map, table of long names, first member; and the round trip of
    everything the writer puts there. */
module ArRoundTrip {
  import opened Bytes
  import opened Wrappers
  import opened ArFormat
  import opened ArNames
  import opened ArMap
  import opened ArMapPasses
  import opened Archive

  /** What bfd_generic_archive_p learns before any member is opened. */
  datatype Opened = Opened(symbols: Option<seq<Carsym>>, table: Option<seq<byte>>, first: nat)

  const OLD_TABLE_BASE: seq<byte> := [65, 82, 70, 73, 76, 69, 78, 65, 77, 69, 83]      // ARFILENAMES
  const OLD_MAP_NAME: seq<byte> := RANLIBMAG + [SLASH] + Spaces(6)                   // old Linux archives
  const SYM64_NAME: seq<byte> := [SLASH, 83, 89, 77, 54, 52, SLASH] + Spaces(9)      // /SYM64/

  /** The contents of the element at pos, if all of it is there. */
  function Whole(all: seq<byte>, pos: nat): Option<seq<byte>> {
    if HeaderAt(all, pos) && pos + AR_HDR + SizeAt(all, pos) <= |all| then
      Some(all[pos + AR_HDR..pos + AR_HDR + SizeAt(all, pos)])
    else None
  }

  /** A second map, which some formats put behind the first, is passed over. */
  function PassSecondMap(all: seq<byte>, pos: nat): nat {
    if HeaderAt(all, pos) && all[pos] == SLASH && all[pos + 1] == SPACE then
      pos + (SizeAt(all, pos) + AR_HDR) + (SizeAt(all, pos) + AR_HDR) % 2
    else pos
  }

  /** bfd_slurp_armap: the symbols, if there is a map, and the place behind it. */
  function SlurpMap(big: bool, all: seq<byte>, pos: nat): Option<(Option<seq<Carsym>>, nat)> {
    if |all| <= pos then Some((None, pos))
    else if |all| < pos + 16 then None
    else
      var name := all[pos..pos + 16];
      if name in {BSD_MAP_NAME, OLD_MAP_NAME} then
        var raw := Whole(all, pos);
        if raw.None? || ReadBsdMap(big, raw.value).None? then None
        else Some((Some(ReadBsdMap(big, raw.value).value), NextPos(all, pos)))
      else if name == COFF_MAP_NAME then
        var raw := Whole(all, pos);
        if raw.None? || ReadCoffMap(raw.value).None? then None
        else Some((Some(ReadCoffMap(raw.value).value), PassSecondMap(all, NextPos(all, pos))))
      else if name == SYM64_NAME then None
      else Some((None, pos))
  }

  /** _bfd_slurp_extended_name_table: the terminated table, if there is one, and the
      place behind it. */
  function SlurpNames(all: seq<byte>, pos: nat): Option<(Option<seq<byte>>, nat)> {
    if |all| < pos + 16 then Some((None, pos))
    else if all[pos..pos + 16] != TableName(SVR4)
      && all[pos..pos + 16] != TableName(SVR4.(slash := false)) then Some((None, pos))
    else
      var raw := Whole(all, pos);
      if raw.None? then None else Some((Some(Terminate(raw.value)), NextPos(all, pos)))
  }

  function Open(big: bool, all: seq<byte>): Option<Opened> {
    if |all| < SARMAG || all[..SARMAG] != ARMAG then None
    else
      var m := SlurpMap(big, all, SARMAG);
      if m.None? then None
      else
        var n := SlurpNames(all, m.value.1);
        if n.None? then None else Some(Opened(m.value.0, n.value.0, n.value.1))
  }

  /** A name that makes a member at the front look like a map, if the archive has none, or
      like a table of names, where fields end in a slash. */
  predicate Reserved(f: Format, name: seq<byte>, withMap: bool) {
    (name == RANLIBMAG && !withMap) || (name == OLD_TABLE_BASE && f.slash)
  }

  /** The first member, with no table of long names before it, has no such name. */
  predicate FirstNameOk(f: Format, ms: seq<Member>, withMap: bool) {
    ms == [] || TableOf(f, ms) != [] || !Reserved(f, Basename(ms[0].path), withMap)
  }

  // ----- which archives are recognised

  /** An element that is all there: header, magic, and as many bytes as the header says. */
  predicate Complete(all: seq<byte>, pos: nat) {
    && pos + 60 <= |all| && all[pos + 58] == 96 && all[pos + 59] == 10
    && pos + 60 + Strtol(all[pos + 48..pos + 60]) <= |all|
  }

  lemma CompleteIff(all: seq<byte>, pos: nat)
    ensures Whole(all, pos).Some? <==> Complete(all, pos)
    ensures Complete(all, pos) ==> |Whole(all, pos).value| == Strtol(all[pos + 48..pos + 60])
  {
    if pos + 60 <= |all| {
      HeaderBytes(SVR4, all, pos);
    }
  }

  /** A map has room for the number of symbols it gives: 8 bytes each and 4 in a BSD map, which
      gives the length of its table, 4 bytes each and 4 in a System V map. */
  predicate HasRoom(big: bool, raw: seq<byte>, coff: bool) {
    && |raw| >= 4
    && if coff then 4 * Number(true, raw, 0) + 4 <= |raw| else 8 * (Number(big, raw, 0) / 8) + 4 <= |raw|
  }

  /** No map is found where none is named so, an empty rest of a file has none, and a rest too
      short for a name, a 64-bit map, and a map that is cut off or too short are errors. */
  lemma MapFoundIff(big: bool, all: seq<byte>, pos: nat)
    ensures var rest, found := |all| - pos, SlurpMap(big, all, pos);
            if rest <= 0 then found == Some((None, pos))
            else if rest < 16 then found == None
            else
              var name := all[pos..pos + 16];
              var bsd := name == [95, 95, 46, 83, 89, 77, 68, 69, 70] + Spaces(7)
                         || name == [95, 95, 46, 83, 89, 77, 68, 69, 70, 47] + Spaces(6);
              var coff := name == [47] + Spaces(15);
              if bsd || coff then
                found.Some? <==> Complete(all, pos) && HasRoom(big, Whole(all, pos).value, coff)
              else if name == [47, 83, 89, 77, 54, 52, 47] + Spaces(9) then found == None
              else found == Some((None, pos))
  {
    CompleteIff(all, pos);
    if pos + 16 <= |all| {
      MapNames();
      hide Complete, Number;
    }
  }

  /** The next even place behind an element. */
  function Behind(all: seq<byte>, pos: nat): nat
    requires pos + 60 <= |all|
  {
    var end := pos + 60 + Strtol(all[pos + 48..pos + 60]);
    end + end % 2
  }

  lemma BehindIs(all: seq<byte>, pos: nat)
    requires Complete(all, pos)
    ensures HeaderAt(all, pos) && NextPos(all, pos) == Behind(all, pos)
  {
    HeaderBytes(SVR4, all, pos);
    hide Strtol;
  }

  lemma SecondPassed(all: seq<byte>, pos: nat)
    ensures PassSecondMap(all, pos)
            == if pos + 60 <= |all| && all[pos + 58] == 96 && all[pos + 59] == 10
                  && all[pos] == 47 && all[pos + 1] == 32 then
                 var size := 60 + Strtol(all[pos + 48..pos + 60]);
                 pos + size + size % 2
               else pos
  {
    if pos + 60 <= |all| {
      HeaderBytes(SVR4, all, pos);
    }
    hide Strtol;
  }

  /** Behind a BSD map the archive goes on at the next even place; behind a System V map
      another element whose name begins with a slash and a blank is passed over first. */
  lemma MapPassedOver(big: bool, all: seq<byte>, pos: nat)
    requires SlurpMap(big, all, pos).Some? && SlurpMap(big, all, pos).value.0.Some?
    ensures Complete(all, pos)
    ensures SlurpMap(big, all, pos).value.1
            == if all[pos] == 47 then PassSecondMap(all, Behind(all, pos)) else Behind(all, pos)
  {
    CompleteIff(all, pos);
    MapNames();
    assert all[pos] == all[pos..pos + 16][0];
    assert Complete(all, pos);
    BehindIs(all, pos);
    hide Complete, Whole, ReadBsdMap, ReadCoffMap, PassSecondMap, Behind, NextPos;
  }

  lemma MapNames()
    ensures BSD_MAP_NAME == [95, 95, 46, 83, 89, 77, 68, 69, 70] + Spaces(7)
    ensures OLD_MAP_NAME == [95, 95, 46, 83, 89, 77, 68, 69, 70, 47] + Spaces(6)
    ensures COFF_MAP_NAME == [47] + Spaces(15) && SYM64_NAME == [47, 83, 89, 77, 54, 52, 47] + Spaces(9)
    ensures BSD_MAP_NAME != COFF_MAP_NAME && OLD_MAP_NAME != COFF_MAP_NAME
  {
    assert BSD_MAP_NAME[0] == 95 && OLD_MAP_NAME[0] == 95 && COFF_MAP_NAME[0] == 47;
  }

  /** A table of long names is taken for one exactly by its name; it must be all there. */
  lemma TableFoundIff(all: seq<byte>, pos: nat)
    ensures var named := pos + 16 <= |all|
                         && (all[pos..pos + 16] == [47, 47] + Spaces(14)
                             || all[pos..pos + 16] == [65, 82, 70, 73, 76, 69, 78, 65, 77, 69, 83, 47] + Spaces(4));
            && (!named ==> SlurpNames(all, pos) == Some((None, pos)))
            && (named ==> (SlurpNames(all, pos).Some? <==> Complete(all, pos)))
            && (named && Complete(all, pos) ==>
                  SlurpNames(all, pos).value.0 == Some(Terminate(all[pos + 60..pos + 60 + |Whole(all, pos).value|])))
  {
    CompleteIff(all, pos);
    hide Complete, Terminate;
  }

  // ----- elements that stand whole in the file

  /** An element written with its even size is found whole, and what follows it is next. */
  lemma WholeRead(all: seq<byte>, pos: nat, name: seq<byte>, meta: seq<byte>, raw: seq<byte>, half: nat)
    requires |name| == 16 && |meta| == 32 && |raw| < SIZE_LIMIT && |raw| == 2 * half && pos % 2 == 0
    requires StandsAt(all, pos, Header(name, meta, |raw|) + raw)
    ensures pos + 16 <= |all| && all[pos..pos + 16] == name
    ensures Whole(all, pos) == Some(raw)
    ensures HeaderAt(all, pos) && NextPos(all, pos) == pos + AR_HDR + |raw|
  {
    var h := Header(name, meta, |raw|);
    var b := h + raw;
    HeaderKeepsSize(name, meta, |raw|);
    EvenTerm(pos, 30 + half);
    SliceStands(all, pos, b, 0, AR_HDR);
    assert b[0..AR_HDR] == h;
    SliceStands(all, pos, b, 0, 16);
    assert b[0..16] == h[..16];
    SliceStands(all, pos, b, 58, 60);
    assert b[58..60] == h[58..];
    SliceStands(all, pos, b, AR_HDR, AR_HDR + |raw|);
    assert b[AR_HDR..AR_HDR + |raw|] == raw;
  }

  // ----- the round trip

  /** The map has names C strings can hold and sizes its fields can hold. */
  predicate MapRepresentable(f: Format, ms: seq<Member>) {
    var es := Entries(ms, |ms|);
    CStrings(es) && Representable(es) && CoffMapLen(es) < SIZE_LIMIT && BsdMapLen(es) < SIZE_LIMIT
  }

  /** The symbols a reader should find. */
  function ExpectedSymbols(f: Format, ms: seq<Member>): seq<Carsym> {
    EntriesGrouped(ms, |ms|);
    Expected(Entries(ms, |ms|), ms, MembersStart(f, ms, true))
  }

  lemma SlurpsBsd(big: bool, all: seq<byte>, raw: seq<byte>, cs: seq<Carsym>, after: nat)
    requires |all| >= SARMAG + 16 && all[SARMAG..SARMAG + 16] == BSD_MAP_NAME
    requires Whole(all, SARMAG) == Some(raw) && ReadBsdMap(big, raw) == Some(cs)
    requires HeaderAt(all, SARMAG) && NextPos(all, SARMAG) == after
    ensures SlurpMap(big, all, SARMAG) == Some((Some(cs), after))
  {
  }

  lemma SlurpsCoff(big: bool, all: seq<byte>, raw: seq<byte>, cs: seq<Carsym>, after: nat)
    requires |all| >= SARMAG + 16 && all[SARMAG..SARMAG + 16] == COFF_MAP_NAME
    requires Whole(all, SARMAG) == Some(raw) && ReadCoffMap(raw) == Some(cs)
    requires HeaderAt(all, SARMAG) && NextPos(all, SARMAG) == after && PassSecondMap(all, after) == after
    ensures SlurpMap(big, all, SARMAG) == Some((Some(cs), after))
  {
    assert COFF_MAP_NAME[0] != BSD_MAP_NAME[0] && COFF_MAP_NAME[0] != OLD_MAP_NAME[0];
  }

  lemma MapsAreEven(es: seq<Orl>) returns (bsd: nat, coff: nat)
    ensures BsdMapLen(es) == 2 * bsd && CoffMapLen(es) == 2 * coff
  {
    var s := PaddedIsEven(StringsLen(es));
    bsd, coff := 4 * |es| + s + 4, 2 * |es| + 2 + s;
  }

  lemma PaddedIsEven(n: nat) returns (half: nat)
    ensures n + n % 2 == 2 * half
  {
    half := (n + 1) / 2;
  }

  lemma CoffMapFound(big: bool, es: seq<Orl>, ms: seq<Member>, start: nat, meta: seq<byte>, all: seq<byte>, after: nat)
    requires |meta| == 32 && Grouped(es, |ms|) && CStrings(es) && Representable(es) && CoffMapLen(es) < SIZE_LIMIT
    requires StandsAt(all, SARMAG, Header(COFF_MAP_NAME, meta, CoffMapLen(es)) + CoffMap(es, ms, start))
    requires after == SARMAG + AR_HDR + CoffMapLen(es) && PassSecondMap(all, after) == after
    ensures SlurpMap(big, all, SARMAG) == Some((Some(Expected(es, ms, start)), after))
  {
    var _, half := MapsAreEven(es);
    CoffMapRoundTrip(es, ms, start);
    WholeRead(all, SARMAG, COFF_MAP_NAME, meta, CoffMap(es, ms, start), half);
    SlurpsCoff(big, all, CoffMap(es, ms, start), Expected(es, ms, start), after);
  }

  lemma BsdMapFound(big: bool, es: seq<Orl>, ms: seq<Member>, start: nat, meta: seq<byte>, all: seq<byte>, after: nat)
    requires |meta| == 32 && Grouped(es, |ms|) && Indexed(es) && CStrings(es) && Representable(es)
    requires BsdMapLen(es) < SIZE_LIMIT
    requires StandsAt(all, SARMAG, Header(BSD_MAP_NAME, meta, BsdMapLen(es)) + BsdMap(big, es, ms, start))
    requires after == SARMAG + AR_HDR + BsdMapLen(es)
    ensures SlurpMap(big, all, SARMAG) == Some((Some(Expected(es, ms, start)), after))
  {
    var half, _ := MapsAreEven(es);
    BsdMapRoundTrip(big, es, ms, start);
    WholeRead(all, SARMAG, BSD_MAP_NAME, meta, BsdMap(big, es, ms, start), half);
    SlurpsBsd(big, all, BsdMap(big, es, ms, start), Expected(es, ms, start), after);
  }

  /** The map is read back, and the reader stands right behind it. */
  lemma MapReadBack(f: Format, big: bool, ms: seq<Member>, meta: seq<byte>, all: seq<byte>, after: nat)
    requires Known(f) && |meta| == 32 && MapRepresentable(f, ms)
    requires StandsAt(all, SARMAG, MapSection(f, big, ms, meta))
    requires after == SARMAG + |MapSection(f, big, ms, meta)| && (f.coff ==> PassSecondMap(all, after) == after)
    ensures SlurpMap(big, all, SARMAG) == Some((Some(ExpectedSymbols(f, ms)), after))
  {
    EntriesGrouped(ms, |ms|);
    if f.coff {
      CoffMapFound(big, Entries(ms, |ms|), ms, MembersStart(f, ms, true), meta, all, after);
    } else {
      BsdMapFound(big, Entries(ms, |ms|), ms, MembersStart(f, ms, true), meta, all, after);
    }
  }

  // ----- what comes first after the map

  /** Blanks filling up a word to a header field. */
  function Blank(word: seq<byte>): (field: seq<byte>)
    requires |word| < 16
    ensures |field| == 16
  {
    word + Spaces(16 - |word|)
  }

  /** A slash, then blanks. */
  function Slashed(word: seq<byte>): (field: seq<byte>)
    requires |word| < 16
    ensures |field| == 16
  {
    word + [SLASH] + Spaces(15 - |word|)
  }

  predicate Plain(word: seq<byte>) {
    |word| < 16 && SPACE !in word && SLASH !in word
  }

  /** In the slash format, the field of a short name is that of a word only if the name
      is the word, and it is never filled up with blanks alone. */
  lemma SlashField(f: Format, name: seq<byte>, word: seq<byte>)
    requires f == SVR4 && !IsLong(f, name) && SLASH !in name && Plain(word)
    ensures Padded(f, name) == Slashed(word) ==> name == word
    ensures Padded(f, name) != Blank(word)
  {
    var field := Padded(f, name);
    assert field[..|name|] == name && field[|name|] == SLASH;
    assert |name| < |word| ==> Blank(word)[|name|] == word[|name|] && word[|name|] in word;
    assert |name| >= |word| ==> Blank(word)[|name|] == SPACE;
    if field == Slashed(word) {
      assert forall k :: 0 <= k < |name| ==> field[k] == name[k];
      IndexIs(field, SLASH, |name|);
      assert forall k :: 0 <= k < |word| ==> field[k] == word[k];
      IndexIs(field, SLASH, |word|);
      assert name == field[..|name|] == field[..|word|] == word;
    }
  }

  /** Where fields are filled up with blanks, likewise. */
  lemma BlankField(f: Format, name: seq<byte>, word: seq<byte>)
    requires Known(f) && f.pad == SPACE && !IsLong(f, name) && SLASH !in name && SPACE !in name && Plain(word)
    ensures Padded(f, name) == Blank(word) ==> name == word
    ensures Padded(f, name) != Slashed(word)
  {
    var field := Padded(f, name);
    assert forall k :: 0 <= k < |name| ==> field[k] == name[k] && name[k] in name;
    assert forall k :: |name| <= k < 16 ==> field[k] == SPACE;
    assert field[|word|] != SLASH && Slashed(word)[|word|] == SLASH;
    if field == Blank(word) {
      assert field[15] == SPACE;
      assert |name| < 16;
      IndexIs(field, SPACE, |name|);
      assert forall k :: 0 <= k < |word| ==> field[k] == word[k];
      IndexIs(field, SPACE, |word|);
      assert name == field[..|name|] == field[..|word|] == word;
    }
  }

  lemma ReservedFields()
    ensures Plain(RANLIBMAG) && Plain(OLD_TABLE_BASE)
    ensures BSD_MAP_NAME == Blank(RANLIBMAG) && OLD_MAP_NAME == Slashed(RANLIBMAG)
    ensures TableName(SVR4.(slash := false)) == Slashed(OLD_TABLE_BASE)
  {
  }

  /** The field of a first member whose name is not reserved is none of the fields that
      mean something else at the front of an archive. */
  lemma FirstFieldIsPlain(f: Format, name: seq<byte>, withMap: bool)
    requires Known(f) && !IsLong(f, name) && GoodName(f, name) && SLASH !in name && !Reserved(f, name, withMap)
    ensures Padded(f, name) !in {TableName(SVR4), TableName(SVR4.(slash := false))} && Padded(f, name)[0] != SLASH
    ensures !withMap ==> Padded(f, name) !in {BSD_MAP_NAME, OLD_MAP_NAME, COFF_MAP_NAME, SYM64_NAME}
  {
    ReservedFields();
    assert name[0] in name && Padded(f, name)[0] == name[0];
    if f.slash {
      SlashField(f, name, RANLIBMAG);
      SlashField(f, name, OLD_TABLE_BASE);
    } else {
      BlankField(f, name, RANLIBMAG);
      BlankField(f, name, OLD_TABLE_BASE);
    }
  }

  // ----- the front of an archive that was written

  function MapPart(f: Format, big: bool, ms: seq<Member>, withMap: bool, meta: seq<byte>): seq<byte>
    requires |meta| == 32
  {
    if withMap then MapSection(f, big, ms, meta) else []
  }

  lemma FrontPieces(f: Format, big: bool, ms: seq<Member>, withMap: bool, meta: seq<byte>, all: seq<byte>, pos: nat)
    requires Known(f) && FreshHeaders(ms) && |meta| == 32
    requires all == ArchiveBytes(f, big, ms, withMap, meta) && pos == SARMAG + |MapPart(f, big, ms, withMap, meta)|
    ensures |all| >= SARMAG && all[..SARMAG] == ARMAG
    ensures StandsAt(all, SARMAG, MapPart(f, big, ms, withMap, meta))
    ensures StandsAt(all, pos, NamesSection(f, ms))
    ensures MembersStart(f, ms, withMap) == pos + |NamesSection(f, ms)|
  {
    Chain(ARMAG, MapPart(f, big, ms, withMap, meta), NamesSection(f, ms), Body(f, ms, |ms|));
  }

  /** The header field that stands behind the map: the name table's, or the first
      member's, unless the archive ends there. */
  predicate FieldBehindMap(f: Format, all: seq<byte>, pos: nat, withMap: bool) {
    || |all| == pos
    || (pos + AR_HDR <= |all|
        && (all[pos..pos + 16] == TableName(f)
            || (all[pos] != SLASH && all[pos..pos + 16] !in {TableName(SVR4), TableName(SVR4.(slash := false))}
                && (!withMap ==> all[pos..pos + 16] !in {BSD_MAP_NAME, OLD_MAP_NAME, COFF_MAP_NAME, SYM64_NAME}))))
  }

  /** A table of long names is found whole. */
  lemma TableWhole(f: Format, ms: seq<Member>, all: seq<byte>, pos: nat, raw: seq<byte>)
    requires Known(f) && |TableOf(f, ms)| + 1 < SIZE_LIMIT && pos % 2 == 0 && raw == PaddedTable(f, ms)
    requires TableOf(f, ms) != [] && StandsAt(all, pos, NamesSection(f, ms))
    ensures pos + AR_HDR <= |all| && all[pos..pos + 16] == TableName(f)
    ensures Whole(all, pos) == Some(raw)
    ensures HeaderAt(all, pos) && NextPos(all, pos) == pos + |NamesSection(f, ms)|
  {
    var half := PaddedIsEven(|TableOf(f, ms)|);
    WholeRead(all, pos, TableName(f), Spaces(32), raw, half);
  }

  lemma TableReadBack(f: Format, ms: seq<Member>, all: seq<byte>, pos: nat, after: nat)
    requires Known(f) && |TableOf(f, ms)| + 1 < SIZE_LIMIT && pos % 2 == 0
    requires TableOf(f, ms) != [] && StandsAt(all, pos, NamesSection(f, ms)) && after == pos + |NamesSection(f, ms)|
    ensures SlurpNames(all, pos) == Some((TableRead(f, ms), after))
  {
    TableWhole(f, ms, all, pos, PaddedTable(f, ms));
    SlurpsTable(f, all, pos, PaddedTable(f, ms), after);
  }

  lemma TableField(f: Format, ms: seq<Member>, all: seq<byte>, pos: nat, withMap: bool)
    requires Known(f) && |TableOf(f, ms)| + 1 < SIZE_LIMIT && pos % 2 == 0
    requires TableOf(f, ms) != [] && StandsAt(all, pos, NamesSection(f, ms))
    ensures FieldBehindMap(f, all, pos, withMap)
  {
    TableWhole(f, ms, all, pos, PaddedTable(f, ms));
    FieldIsTable(f, all, pos, withMap);
  }

  lemma FieldIsTable(f: Format, all: seq<byte>, pos: nat, withMap: bool)
    requires pos + AR_HDR <= |all| && all[pos..pos + 16] == TableName(f)
    ensures FieldBehindMap(f, all, pos, withMap)
  {
  }

  lemma KnownTableName(f: Format)
    requires Known(f)
    ensures TableName(f) == TableName(SVR4) || TableName(f) == TableName(SVR4.(slash := false))
  {
  }

  lemma SlurpsTable(f: Format, all: seq<byte>, pos: nat, raw: seq<byte>, after: nat)
    requires Known(f) && pos + 16 <= |all| && all[pos..pos + 16] == TableName(f)
    requires Whole(all, pos) == Some(raw) && HeaderAt(all, pos) && NextPos(all, pos) == after
    ensures SlurpNames(all, pos) == Some((Some(Terminate(raw)), after))
  {
    KnownTableName(f);
  }

  /** Without one, what stands there is a member that nobody takes for anything else. */
  lemma {:induction false} NoTableReadBack(f: Format, ms: seq<Member>, all: seq<byte>, front: seq<byte>, withMap: bool)
    requires Known(f) && Archivable(f, ms) && FirstNameOk(f, ms, withMap)
    requires TableOf(f, ms) == [] && all == front + Body(f, ms, |ms|)
    ensures SlurpNames(all, |front|) == Some((None, |front|))
    ensures FieldBehindMap(f, all, |front|, withMap)
  {
    hide Padded, Basename, Body, SizeOf, ShortNameSurvives;
    if ms != [] {
      var name := Basename(ms[0].path);
      TableGrows(f, ms, 1, |ms|);
      assert NameTable(f, ms, 1) == [] && !IsLong(f, name) by {
        assert NameTable(f, ms, 1) == NameTable(f, ms, 0) + if IsLong(f, name) then Entry(f, name) else [];
      }
      assert GoodName(f, name);
      HeaderPlaced(f, ms, front, 0);
      var h := MemberHeader(f, ms, 0);
      SliceStands(all, |front|, h, 0, 16);
      assert h[0..16] == h[..16] == Padded(f, name);
      FirstFieldIsPlain(f, name, withMap);
      assert all[|front|] == all[|front|..|front| + 16][0];
    }
  }

  lemma MapPartEven(f: Format, big: bool, ms: seq<Member>, withMap: bool, meta: seq<byte>) returns (half: nat)
    requires |meta| == 32
    ensures |MapPart(f, big, ms, withMap, meta)| == 2 * half
  {
    half := 0;
    if withMap {
      var bsd, coff := MapsAreEven(Entries(ms, |ms|));
      half := 30 + if f.coff then coff else bsd;
    }
  }

  lemma MagicIsEven(pos: nat, half: nat)
    requires pos == SARMAG + 2 * half
    ensures pos % 2 == 0
  {
  }

  lemma FrontWithoutTable(f: Format, big: bool, ms: seq<Member>, withMap: bool, meta: seq<byte>)
    requires |meta| == 32 && TableOf(f, ms) == []
    ensures |Front(f, big, ms, withMap, meta)| == SARMAG + |MapPart(f, big, ms, withMap, meta)|
  {
  }

  lemma {:induction false} NamesReadAt(f: Format, ms: seq<Member>, all: seq<byte>, pos: nat, start: nat,
                                       front: seq<byte>, withMap: bool)
    requires Known(f) && Archivable(f, ms) && FirstNameOk(f, ms, withMap) && pos % 2 == 0
    requires all == front + Body(f, ms, |ms|) && StandsAt(all, pos, NamesSection(f, ms))
    requires start == pos + |NamesSection(f, ms)| && (TableOf(f, ms) == [] ==> |front| == pos)
    ensures SlurpNames(all, pos) == Some((TableRead(f, ms), start))
    ensures FieldBehindMap(f, all, pos, withMap)
  {
    if TableOf(f, ms) == [] {
      NoTableReadBack(f, ms, all, front, withMap);
    } else {
      TableReadBack(f, ms, all, pos, start);
      TableField(f, ms, all, pos, withMap);
    }
  }

  /** Behind the map the reader finds the table of long names if one was written, does not
      take a member for one otherwise, and stands at the first member. */
  lemma NamesReadBack(f: Format, big: bool, ms: seq<Member>, withMap: bool, meta: seq<byte>, all: seq<byte>, pos: nat)
    requires Known(f) && Archivable(f, ms) && FirstNameOk(f, ms, withMap) && |meta| == 32
    requires all == ArchiveBytes(f, big, ms, withMap, meta) && pos == SARMAG + |MapPart(f, big, ms, withMap, meta)|
    ensures SlurpNames(all, pos) == Some((TableRead(f, ms), MembersStart(f, ms, withMap)))
    ensures FieldBehindMap(f, all, pos, withMap)
  {
    FrontPieces(f, big, ms, withMap, meta, all, pos);
    var half := MapPartEven(f, big, ms, withMap, meta);
    MagicIsEven(pos, half);
    if TableOf(f, ms) == [] {
      FrontWithoutTable(f, big, ms, withMap, meta);
    }
    NamesReadAt(f, ms, all, pos, MembersStart(f, ms, withMap), Front(f, big, ms, withMap, meta), withMap);
  }

  lemma NothingTakenForMap(f: Format, big: bool, all: seq<byte>, pos: nat, withMap: bool)
    requires Known(f) && FieldBehindMap(f, all, pos, withMap)
    ensures !withMap ==> SlurpMap(big, all, pos) == Some((None, pos))
    ensures f.coff ==> PassSecondMap(all, pos) == pos
  {
    if pos + AR_HDR <= |all| {
      assert TableName(f)[0] != BSD_MAP_NAME[0] && TableName(f)[0] != OLD_MAP_NAME[0];
      assert TableName(f)[1] != COFF_MAP_NAME[1] && TableName(f)[1] != SYM64_NAME[1];
      assert all[pos] == all[pos..pos + 16][0] && all[pos + 1] == all[pos..pos + 16][1];
    }
  }

  lemma OpenIs(big: bool, all: seq<byte>, symbols: Option<seq<Carsym>>, table: Option<seq<byte>>, pos: nat, first: nat)
    requires |all| >= SARMAG && all[..SARMAG] == ARMAG
    requires SlurpMap(big, all, SARMAG) == Some((symbols, pos)) && SlurpNames(all, pos) == Some((table, first))
    ensures Open(big, all) == Some(Opened(symbols, table, first))
  {
  }

  /** The symbols a reader should find, if there is a map. */
  function SymbolsRead(f: Format, ms: seq<Member>, withMap: bool): Option<seq<Carsym>> {
    if withMap then Some(ExpectedSymbols(f, ms)) else None
  }

  lemma MapSlurped(f: Format, big: bool, ms: seq<Member>, withMap: bool, meta: seq<byte>, all: seq<byte>, pos: nat)
    requires Known(f) && |meta| == 32 && (withMap ==> MapRepresentable(f, ms))
    requires StandsAt(all, SARMAG, MapPart(f, big, ms, withMap, meta))
    requires pos == SARMAG + |MapPart(f, big, ms, withMap, meta)| && FieldBehindMap(f, all, pos, withMap)
    ensures SlurpMap(big, all, SARMAG) == Some((SymbolsRead(f, ms, withMap), pos))
  {
    NothingTakenForMap(f, big, all, pos, withMap);
    if withMap {
      MapReadBack(f, big, ms, meta, all, pos);
    }
  }

  /** Opening a written archive finds the symbols with their members' places, the table
      of long names, and the first member. */
  lemma {:induction false} OpensAsWritten(f: Format, big: bool, ms: seq<Member>, withMap: bool, meta: seq<byte>)
    requires Known(f) && Archivable(f, ms) && FirstNameOk(f, ms, withMap) && |meta| == 32
    requires withMap ==> MapRepresentable(f, ms)
    ensures Open(big, ArchiveBytes(f, big, ms, withMap, meta))
            == Some(Opened(SymbolsRead(f, ms, withMap), TableRead(f, ms), MembersStart(f, ms, withMap)))
  {
    var all, pos := ArchiveBytes(f, big, ms, withMap, meta), SARMAG + |MapPart(f, big, ms, withMap, meta)|;
    FrontPieces(f, big, ms, withMap, meta, all, pos);
    NamesReadBack(f, big, ms, withMap, meta, all, pos);
    MapSlurped(f, big, ms, withMap, meta, all, pos);
    OpenIs(big, all, SymbolsRead(f, ms, withMap), TableRead(f, ms), pos, MembersStart(f, ms, withMap));
  }

  lemma FirstFieldPlaced(f: Format, big: bool, ms: seq<Member>, withMap: bool, meta: seq<byte>, pos: nat)
    requires Known(f) && FreshHeaders(ms) && |meta| == 32 && ms != [] && TableOf(f, ms) == []
    requires pos == MembersStart(f, ms, withMap)
    ensures var all := ArchiveBytes(f, big, ms, withMap, meta);
            !IsLong(f, Basename(ms[0].path)) && pos + AR_HDR <= |all|
              && all[pos..pos + 16] == Padded(f, Basename(ms[0].path))
  {
    var name, front := Basename(ms[0].path), Front(f, big, ms, withMap, meta);
    TableGrows(f, ms, 1, |ms|);
    assert NameTable(f, ms, 1) == [] && !IsLong(f, name) by {
      assert NameTable(f, ms, 1) == NameTable(f, ms, 0) + if IsLong(f, name) then Entry(f, name) else [];
    }
    HeaderPlaced(f, ms, front, 0);
    var h := MemberHeader(f, ms, 0);
    SliceStands(front + Body(f, ms, |ms|), |front|, h, 0, 16);
    assert h[0..16] == h[..16];
  }

  /** With a reserved name, what is found is not what was written. */
  lemma TakenForAnother(f: Format, big: bool, ms: seq<Member>, withMap: bool, meta: seq<byte>)
    requires Known(f) && Archivable(f, ms) && !FirstNameOk(f, ms, withMap) && |meta| == 32
    ensures Open(big, ArchiveBytes(f, big, ms, withMap, meta))
            != Some(Opened(SymbolsRead(f, ms, withMap), TableRead(f, ms), MembersStart(f, ms, withMap)))
  {
    hide Padded, MembersStart, ArchiveBytes, ReadBsdMap;
    var all, pos, name := ArchiveBytes(f, big, ms, withMap, meta), MembersStart(f, ms, withMap), Basename(ms[0].path);
    FirstFieldPlaced(f, big, ms, withMap, meta, pos);
    ReservedFields();
    ReservedPadded(f, name);
    if name == OLD_TABLE_BASE && f.slash {
      NotPassed(all, pos);
    } else {
      assert pos == SARMAG by {
        BareStart(f, ms);
      }
      assert SlurpMap(big, all, SARMAG).None? || SlurpMap(big, all, SARMAG).value.0.Some?;
    }
  }

  lemma ReservedPadded(f: Format, name: seq<byte>)
    requires Known(f) && !IsLong(f, name)
    ensures name == OLD_TABLE_BASE && f.slash ==> Padded(f, name) == Slashed(OLD_TABLE_BASE)
    ensures name == RANLIBMAG ==> Padded(f, name) == if f.slash then Slashed(RANLIBMAG) else Blank(RANLIBMAG)
  {
  }

  lemma BareStart(f: Format, ms: seq<Member>)
    requires TableOf(f, ms) == []
    ensures MembersStart(f, ms, false) == SARMAG
  {
  }

  /** Where there is a table of names, the reader does not stay. */
  lemma NotPassed(all: seq<byte>, pos: nat)
    requires pos + 16 <= |all| && all[pos..pos + 16] == TableName(SVR4.(slash := false))
    ensures SlurpNames(all, pos) != Some((None, pos))
    ensures forall p: nat :: SlurpNames(all, p).Some? && SlurpNames(all, p).value.0.None? ==>
              SlurpNames(all, p).value.1 == p
  {
  }

  /** So an archive is opened as it was written if and only if its first name is not
      reserved. */
  lemma OpensAsWrittenIff(f: Format, big: bool, ms: seq<Member>, withMap: bool, meta: seq<byte>)
    requires Known(f) && Archivable(f, ms) && |meta| == 32
    requires withMap ==> MapRepresentable(f, ms)
    ensures Open(big, ArchiveBytes(f, big, ms, withMap, meta))
            == Some(Opened(SymbolsRead(f, ms, withMap), TableRead(f, ms), MembersStart(f, ms, withMap)))
            <==> FirstNameOk(f, ms, withMap)
  {
    if FirstNameOk(f, ms, withMap) {
      OpensAsWritten(f, big, ms, withMap, meta);
    } else {
      TakenForAnother(f, big, ms, withMap, meta);
    }
  }

  /** The whole round trip: walking the written bytes yields exactly the members that
      went in, in order, with their names and contents, and then the end. */
  lemma {:induction false} ArchiveRoundTrip(f: Format, big: bool, ms: seq<Member>, withMap: bool, meta: seq<byte>)
    requires Known(f) && Archivable(f, ms) && FirstNameOk(f, ms, withMap) && |meta| == 32
    requires withMap ==> MapRepresentable(f, ms)
    ensures var all := ArchiveBytes(f, big, ms, withMap, meta);
            && Open(big, all).Some?
            && Walk(f, all, Open(big, all).value.first, Open(big, all).value.table) == Walked(Originals(ms, 0), NoMore)
  {
    var front := Front(f, big, ms, withMap, meta);
    OpensAsWritten(f, big, ms, withMap, meta);
    FrontIsEven(f, ms, withMap);
    WalkFindsMembers(f, ms, front, front + Body(f, ms, |ms|), 0);
  }

  lemma FrontIsEven(f: Format, ms: seq<Member>, withMap: bool)
    ensures MembersStart(f, ms, withMap) % 2 == 0
  {
    var bsd, coff := MapsAreEven(Entries(ms, |ms|));
    var names := NamesAreEven(f, ms);
    MagicIsEven(MembersStart(f, ms, withMap), names + if !withMap then 0 else 30 + if f.coff then coff else bsd);
  }

  lemma NamesAreEven(f: Format, ms: seq<Member>) returns (half: nat)
    ensures |NamesSection(f, ms)| == 2 * half
  {
    half := 0;
    if TableOf(f, ms) != [] {
      var h := PaddedIsEven(|TableOf(f, ms)|);
      half := 30 + h;
    }
  }

  /** And every entry of the map opens the member that defines its symbol, as long as
      the archive is small enough for 32-bit offsets. */
  lemma {:induction false} MapOpensMembers(f: Format, big: bool, ms: seq<Member>, meta: seq<byte>, k: nat, e: Orl)
    requires Known(f) && Archivable(f, ms) && |meta| == 32 && k < |Entries(ms, |ms|)| && e == Entries(ms, |ms|)[k]
    requires |ArchiveBytes(f, big, ms, true, meta)| < WORD
    ensures e.owner < |ms| && Defines(ms[e.owner], e.name)
    ensures ExpectedSymbols(f, ms)[k].name == e.name
    ensures ElementAt(f, ArchiveBytes(f, big, ms, true, meta), ExpectedSymbols(f, ms)[k].offset, TableRead(f, ms))
            == Some(Element(Basename(ms[e.owner].path), ms[e.owner].contents))
  {
    var start := MembersStart(f, ms, true);
    IndexAgreesWithLayout(f, big, ms, meta, k);
    SmallWord(HeaderPos(ms, start, e.owner));
    assert ExpectedSymbols(f, ms)[k].offset == HeaderPos(ms, start, e.owner);
    FrontIsEven(f, ms, true);
    OwnerOpens(f, big, ms, meta, e.owner);
  }

  lemma {:induction false} OwnerOpens(f: Format, big: bool, ms: seq<Member>, meta: seq<byte>, i: nat)
    requires Known(f) && Archivable(f, ms) && |meta| == 32 && i < |ms|
    ensures ElementAt(f, ArchiveBytes(f, big, ms, true, meta), HeaderPos(ms, MembersStart(f, ms, true), i),
                      TableRead(f, ms))
            == Some(Element(Basename(ms[i].path), ms[i].contents))
  {
    var front := Front(f, big, ms, true, meta);
    FrontIsEven(f, ms, true);
    MemberFound(f, ms, front, front + Body(f, ms, |ms|), i);
  }

  /** An archive begins with its magic. */
  lemma BeginsWithMagic(f: Format, big: bool, ms: seq<Member>, withMap: bool, meta: seq<byte>)
    requires Known(f) && FreshHeaders(ms) && |meta| == 32
    ensures ArchiveBytes(f, big, ms, withMap, meta)[..8] == [33, 60, 97, 114, 99, 104, 62, 10]
  {
    hide MapSection, NamesSection, Body, MembersStart;
    var map_, names, body := MapPart(f, big, ms, withMap, meta), NamesSection(f, ms), Body(f, ms, |ms|);
    assert ArchiveBytes(f, big, ms, withMap, meta) == ARMAG + (map_ + names + body);
  }

  /** A map is called "/" or "__.SYMDEF", with blanks behind. */
  lemma MapNamed(f: Format, big: bool, ms: seq<Member>, meta: seq<byte>)
    requires |meta| == 32
    ensures MapSection(f, big, ms, meta)[..16]
            == if f.coff then [47] + Spaces(15) else [95, 95, 46, 83, 89, 77, 68, 69, 70] + Spaces(7)
  {
    var es, start := Entries(ms, |ms|), MembersStart(f, ms, true);
    MapIs(f, big, ms, meta);
    hide MapSection, Entries, CoffMap, BsdMap, MembersStart, Header, CoffMapLen, BsdMapLen;
    if f.coff {
      StartsWith(Header(COFF_MAP_NAME, meta, CoffMapLen(es)), CoffMap(es, ms, start), 16);
    } else {
      StartsWith(Header(BSD_MAP_NAME, meta, BsdMapLen(es)), BsdMap(big, es, ms, start), 16);
    }
  }

  /** A table of long names "//" or "ARFILENAMES/". */
  lemma TableNamed(f: Format, ms: seq<Member>)
    requires NamesSection(f, ms) != []
    ensures NamesSection(f, ms)[..16]
            == if f.slash then [47, 47] + Spaces(14)
               else [65, 82, 70, 73, 76, 69, 78, 65, 77, 69, 83, 47] + Spaces(4)
  {
    hide PaddedTable, TableOf, Header;
    StartsWith(Header(TableName(f), Spaces(32), |PaddedTable(f, ms)|), PaddedTable(f, ms), 16);
  }

  lemma StartsWith(a: seq<byte>, b: seq<byte>, n: nat)
    requires n <= |a|
    ensures (a + b)[..n] == a[..n]
  {
  }

  lemma {:induction false} HeadersFollow(ms: seq<Member>, start: nat, i: nat, j: nat)
    requires i < j <= |ms|
    ensures HeaderPos(ms, start, i) + AR_HDR <= HeaderPos(ms, start, j)
    decreases j
  {
    if i < j - 1 {
      HeadersFollow(ms, start, i, j - 1);
    }
  }

  lemma PlacesTellOwners(ms: seq<Member>, es: seq<Orl>, cs: seq<Carsym>, start: nat, name: seq<byte>, i: nat)
    requires i < |ms| && HeaderPos(ms, start, |ms|) <= WORD && Grouped(es, |ms|) && cs == Expected(es, ms, start)
    ensures Carsym(name, HeaderPos(ms, start, i)) in cs <==> Lists(es, name, i)
  {
    forall k | 0 <= k < |es|
      ensures cs[k] == Carsym(name, HeaderPos(ms, start, i)) <==> es[k].name == name && es[k].owner == i
    {
      var o := es[k].owner;
      HeadersFollow(ms, start, o, |ms|);
      SmallWord(HeaderPos(ms, start, o));
      if o < i {
        HeadersFollow(ms, start, o, i);
      } else if i < o {
        HeadersFollow(ms, start, i, o);
      }
    }
    if Lists(es, name, i) {
      var k :| 0 <= k < |es| && es[k].name == name && es[k].owner == i;
      assert cs[k] in cs;
    }
  }

  /** The symbols that come back from the map, with the place of a member: exactly the names
      that this member defines. */
  lemma SymbolsComeBackIff(f: Format, ms: seq<Member>, name: seq<byte>, i: nat)
    requires i < |ms| && HeaderPos(ms, MembersStart(f, ms, true), |ms|) <= WORD
    ensures Carsym(name, HeaderPos(ms, MembersStart(f, ms, true), i)) in ExpectedSymbols(f, ms)
            <==> Defines(ms[i], name)
  {
    hide HeaderPos, MembersStart, Expected, Entries, Defines, Lists;
    EntriesGrouped(ms, |ms|);
    MapListsDefinitions(ms, |ms|, name, i);
    PlacesTellOwners(ms, Entries(ms, |ms|), ExpectedSymbols(f, ms), MembersStart(f, ms, true), name, i);
  }
}
