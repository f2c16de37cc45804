/** _bfd_write_archive_contents: the table of long names, the map and the members, written
    one after the other. */
module ArWriter {
  import opened Bytes
  import opened ArFormat
  import opened ArNames
  import opened ArNamePasses
  import opened ArMap
  import opened ArMapPasses
  import opened Archive

  const DEFAULT_BUFFERSIZE: nat := 8192

  /** How many members at the front are old maps. */
  function LeadingMaps(ms: seq<Member>): (n: nat)
    ensures n <= |ms|
    ensures forall i :: 0 <= i < n ==> ms[i].path == RANLIBMAG
    ensures n < |ms| ==> ms[n].path != RANLIBMAG
  {
    if ms != [] && ms[0].path == RANLIBMAG then 1 + LeadingMaps(ms[1..]) else 0
  }

  predicate HasObjects(ms: seq<Member>) {
    exists i :: 0 <= i < |ms| && ms[i].isObject
  }

  /** The members that are really written: old maps at the front make way for a new one. */
  function Kept(ms: seq<Member>, withMap: bool): seq<Member> {
    if withMap then ms[LeadingMaps(ms)..] else ms
  }

  lemma RanlibIsShort(f: Format)
    requires Known(f)
    ensures !IsLong(f, Basename(RANLIBMAG))
  {
    BasenameIs([], RANLIBMAG);
    assert [] + RANLIBMAG == RANLIBMAG;
  }

  /** The table of long names was built before the old maps were dropped; it is still the
      one the remaining members need. */
  lemma {:induction false} DroppingKeepsNames(f: Format, ms: seq<Member>, d: nat, j: nat)
    requires Known(f) && d + j <= |ms| && forall i :: 0 <= i < d ==> ms[i].path == RANLIBMAG
    ensures NameTable(f, ms, d + j) == NameTable(f, ms[d..], j)
    decreases d + j
  {
    if j > 0 {
      DroppingKeepsNames(f, ms, d, j - 1);
    } else if d > 0 {
      DroppingKeepsNames(f, ms, d - 1, 0);
      RanlibIsShort(f);
    }
  }

  lemma {:induction false} DroppingKeepsHeaders(f: Format, ms: seq<Member>, d: nat)
    requires Known(f) && d <= |ms| && forall i :: 0 <= i < d ==> ms[i].path == RANLIBMAG
    ensures TableOf(f, ms) == TableOf(f, ms[d..])
    ensures forall j :: 0 <= j < |ms| - d ==> NameTable(f, ms, d + j) == NameTable(f, ms[d..], j)
  {
    DroppingKeepsNames(f, ms, d, |ms| - d);
    forall j | 0 <= j < |ms| - d ensures NameTable(f, ms, d + j) == NameTable(f, ms[d..], j) {
      DroppingKeepsNames(f, ms, d, j);
    }
  }

  /** Copies contents through a buffer of fixed size. */
  method CopyContents(out: OutFile, contents: seq<byte>)
    modifies out
    ensures out.bytes == old(out.bytes) + contents
  {
    var remaining := |contents|;
    while remaining > 0
      invariant 0 <= remaining <= |contents| && out.bytes == old(out.bytes) + contents[..|contents| - remaining]
    {
      var amt := DEFAULT_BUFFERSIZE;
      if amt > remaining {
        amt := remaining;
      }
      var at := |contents| - remaining;
      assert contents[..at + amt] == contents[..at] + contents[at..at + amt];
      out.Write(contents[at..at + amt]);
      remaining := remaining - amt;
    }
    assert contents[..|contents|] == contents;
  }

  /** One member: its header, its contents, and a newline if they are of odd length. */
  method WriteMember(out: OutFile, f: Format, ms: seq<Member>, i: nat, field: seq<byte>)
    requires Known(f) && i < |ms| && |ms[i].meta| == 32 && Written(f, ms, i, field)
    modifies out
    ensures out.bytes == old(out.bytes) + MemberBytes(f, ms, i)
  {
    ghost var was, h, pad := out.bytes, MemberHeader(f, ms, i), LinePad(|ms[i].contents|);
    out.Write(Header(field, ms[i].meta, |ms[i].contents|));
    CopyContents(out, ms[i].contents);
    if |ms[i].contents| % 2 == 1 {
      out.Write([NEWLINE]);
    }
    Regroup3(was, h, ms[i].contents, pad);
  }

  method WriteNext(out: OutFile, f: Format, ms: seq<Member>, i: nat, field: seq<byte>, ghost before: seq<byte>)
    requires Known(f) && FreshHeaders(ms) && i < |ms| && Written(f, ms, i, field)
    requires out.bytes == before + Body(f, ms, i)
    modifies out
    ensures out.bytes == before + Body(f, ms, i + 1)
  {
    WriteMember(out, f, ms, i, field);
    Regroup2(before, Body(f, ms, i), MemberBytes(f, ms, i));
  }

  method WriteMembers(out: OutFile, f: Format, ms: seq<Member>, fields: seq<seq<byte>>)
    requires Known(f) && FreshHeaders(ms) && FieldsWritten(f, ms, fields)
    modifies out
    ensures out.bytes == old(out.bytes) + Body(f, ms, |ms|)
  {
    for i := 0 to |ms|
      invariant out.bytes == old(out.bytes) + Body(f, ms, i)
    {
      WriteNext(out, f, ms, i, fields[i], old(out.bytes));
    }
  }

  /** The table of long names as an element, if there is one. */
  method WriteNames(out: OutFile, f: Format, ms: seq<Member>, etable: seq<byte>)
    requires etable == TableOf(f, ms)
    modifies out
    ensures out.bytes == old(out.bytes) + NamesSection(f, ms)
  {
    var elength := |etable|;
    if elength != 0 {
      ghost var was := out.bytes;
      RoundedUp(elength);
      var h := Header(TableName(f), Spaces(32), (elength + 1) / 2 * 2);
      out.Write(h);
      out.Write(etable);
      if elength % 2 == 1 {
        out.Write([NEWLINE]);
      }
      Regroup3(was, h, etable, LinePad(elength));
    }
  }

  /** (n + 1) & ~1. */
  lemma RoundedUp(n: nat)
    ensures (n + 1) / 2 * 2 == n + n % 2
  {
  }

  /** What _bfd_compute_and_write_armap adds up for the table is what it will take. */
  method NamesLength(f: Format, ms: seq<Member>, etable: seq<byte>) returns (elength: nat)
    requires etable == TableOf(f, ms)
    ensures elength == |NamesSection(f, ms)| && elength % 2 == 0
  {
    elength := |etable|;
    if elength != 0 {
      elength := elength + AR_HDR;
      Even60(|etable|);
    }
    Even(elength);
    elength := elength + elength % 2;
  }

  lemma Even(n: nat)
    ensures (n + n % 2) % 2 == 0
  {
  }

  lemma Even60(n: nat)
    ensures n + AR_HDR + (n + AR_HDR) % 2 == AR_HDR + (n + n % 2)
  {
  }

  /** The writers of the map compute the first member's place as it is laid out. */
  lemma {:induction false} MapStarts(f: Format, ms: seq<Member>, es: seq<Orl>, elength: nat)
    requires es == Entries(ms, |ms|) && elength == |NamesSection(f, ms)|
    ensures MembersStart(f, ms, true) == (if f.coff then CoffMapLen(es) else BsdMapLen(es)) + elength + AR_HDR + SARMAG
  {
  }

  lemma {:induction false} MapSectionParts(f: Format, big: bool, ms: seq<Member>, meta: seq<byte>, es: seq<Orl>,
                                           start: nat)
    requires |meta| == 32 && es == Entries(ms, |ms|) && Grouped(es, |ms|) && start == MembersStart(f, ms, true)
    ensures MapSection(f, big, ms, meta)
            == if f.coff then Header(COFF_MAP_NAME, meta, CoffMapLen(es)) + CoffMap(es, ms, start)
               else Header(BSD_MAP_NAME, meta, BsdMapLen(es)) + BsdMap(big, es, ms, start)
  {
  }

  /** _bfd_compute_and_write_armap, after the old maps have been dropped. */
  method WriteMap(out: OutFile, f: Format, big: bool, ms: seq<Member>, etable: seq<byte>, meta: seq<byte>)
    requires Known(f) && |meta| == 32 && etable == TableOf(f, ms)
    modifies out
    ensures out.bytes == old(out.bytes) + MapSection(f, big, ms, meta)
  {
    var elength := NamesLength(f, ms, etable);
    var es, stridx := ComputeMap(ms);
    EntriesGrouped(ms, |ms|);
    ghost var start := MembersStart(f, ms, true);
    MapStarts(f, ms, es, elength);
    MapSectionParts(f, big, ms, meta, es, start);
    ghost var was := out.bytes;
    if f.coff {
      CoffWriteArmap(out, elength, es, stridx, ms, meta, start);
      Regroup2(was, Header(COFF_MAP_NAME, meta, CoffMapLen(es)), CoffMap(es, ms, start));
    } else {
      BsdWriteArmap(out, big, elength, es, stridx, ms, meta, start);
      Regroup2(was, Header(BSD_MAP_NAME, meta, BsdMapLen(es)), BsdMap(big, es, ms, start));
    }
  }

  /** Whether any member is an object file. */
  method AnyObject(ms: seq<Member>) returns (hasObjects: bool)
    ensures hasObjects == HasObjects(ms)
  {
    hasObjects := false;
    for i := 0 to |ms|
      invariant hasObjects == exists k :: 0 <= k < i && ms[k].isObject
    {
      if !hasObjects && ms[i].isObject {
        hasObjects := true;
      }
    }
  }

  /** Fresh headers have the names that fit them. */
  method TruncateNames(f: Format, ms: seq<Member>) returns (fields: array<seq<byte>>)
    requires Known(f)
    ensures fresh(fields) && FreshFields(f, ms, fields[..])
  {
    fields := new seq<byte>[|ms|];
    for i := 0 to |ms|
      invariant forall j :: 0 <= j < i ==> fields[j] == Truncated(f, Basename(ms[j].path))
    {
      fields[i] := Truncated(f, Basename(ms[i].path));
    }
  }

  lemma FieldsOfRest(f: Format, ms: seq<Member>, d: nat, fields: seq<seq<byte>>)
    requires Known(f) && d <= |ms| && FieldsWritten(f, ms, fields)
    requires forall i :: 0 <= i < d ==> ms[i].path == RANLIBMAG
    ensures FieldsWritten(f, ms[d..], fields[d..])
  {
    DroppingKeepsHeaders(f, ms, d);
    forall j | 0 <= j < |ms| - d ensures Written(f, ms[d..], j, fields[d..][j]) {
      assert Written(f, ms, d + j, fields[d + j]);
    }
  }

  /** Writes the archive once it is known which members go into it. */
  method WriteAll(f: Format, big: bool, withMap: bool, ms: seq<Member>, etable: seq<byte>, fields: seq<seq<byte>>,
                  meta: seq<byte>)
      returns (out: OutFile)
    requires Known(f) && FreshHeaders(ms) && |meta| == 32
    requires etable == TableOf(f, ms) && FieldsWritten(f, ms, fields)
    ensures fresh(out) && out.bytes == ArchiveBytes(f, big, ms, withMap, meta)
  {
    out := new OutFile();
    out.Write(ARMAG);
    assert [] + ARMAG == ARMAG;
    if withMap {
      WriteMap(out, f, big, ms, etable, meta);
    } else {
      assert ARMAG + [] == ARMAG;
    }
    WriteNames(out, f, ms, etable);
    WriteMembers(out, f, ms, fields);
  }

  /** The whole archive is written as ArchiveBytes lays it out, for the members that are
      left after old maps at the front have made way for the new one. */
  method WriteArchive(f: Format, big: bool, makeMap: bool, members: seq<Member>, meta: seq<byte>) returns (out: OutFile)
    requires Known(f) && FreshHeaders(members) && |meta| == 32
    ensures FreshHeaders(Kept(members, makeMap && HasObjects(members)))
    ensures out.bytes
            == ArchiveBytes(f, big, Kept(members, makeMap && HasObjects(members)), makeMap && HasObjects(members), meta)
  {
    hide PutRight, Written, ArchiveBytes, Basename, NameTable, Truncated;
    var hasObjects := AnyObject(members);
    var fields := TruncateNames(f, members);
    ghost var made := fields[..];
    var table := ConstructNameTable(f, members, fields);
    AllFreshPutRight(f, members, made, fields[..]);
    var dropped := 0;
    if makeMap && hasObjects {
      dropped := LeadingMaps(members);
    }
    DroppingKeepsHeaders(f, members, dropped);
    FieldsOfRest(f, members, dropped, fields[..]);
    assert members[0..] == members;
    out := WriteAll(f, big, makeMap && hasObjects, members[dropped..], table[..], fields[dropped..], meta);
  }
}
