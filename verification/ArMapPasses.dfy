/** The loops that collect the archive map and write it in either format. */
module ArMapPasses {
  import opened Bytes
  import opened ArFormat
  import opened ArNames
  import opened ArMap

  /** A file being written from front to back. */
  class OutFile {
    var bytes: seq<byte>

    constructor ()
      ensures bytes == []
    {
      bytes := [];
    }

    method Write(b: seq<byte>)
      modifies this
      ensures bytes == old(bytes) + b
    {
      bytes := bytes + b;
    }
  }

  const RANLIBMAG: seq<byte> := [95, 95, 46, 83, 89, 77, 68, 69, 70]      // __.SYMDEF
  const BSD_MAP_NAME: seq<byte> := RANLIBMAG + Spaces(7)
  const COFF_MAP_NAME: seq<byte> := [SLASH] + Spaces(15)

  /** The map loop of _bfd_compute_and_write_armap. */
  method ComputeMap(ms: seq<Member>) returns (map_: seq<Orl>, stridx: nat)
    ensures map_ == Entries(ms, |ms|) && stridx == StringsLen(map_)
  {
    map_, stridx := [], 0;
    for eltNo := 0 to |ms|
      invariant map_ == Entries(ms, eltNo) && stridx == StringsLen(map_)
    {
      var current := ms[eltNo];
      if current.isObject {
        ghost var before := map_;
        for srcCount := 0 to |current.symbols|
          invariant map_ == Collect(current.symbols, srcCount, eltNo, before) && stridx == StringsLen(map_)
        {
          var sym := current.symbols[srcCount];
          if (sym.global || sym.weak || sym.indirect || sym.common) && !sym.undefined {
            StringsOfPrefix(map_, map_ + [Orl(sym.name, stridx, eltNo)], |map_|);
            map_ := map_ + [Orl(sym.name, stridx, eltNo)];
            stridx := stridx + (|sym.name| + 1);
          }
        }
      }
    }
  }

  /** Where the next member's header will be: the walks of both writers take this step. */
  method PassMember(at: nat, m: Member, ghost ms: seq<Member>, ghost start: nat, ghost i: nat) returns (next: nat)
    requires i < |ms| && m == ms[i] && start % 2 == 0 && at == HeaderPos(ms, start, i)
    ensures next == HeaderPos(ms, start, i + 1)
  {
    HeadersAreEven(ms, start, i);
    next := at + (|m.contents| + AR_HDR);
    next := next + next % 2;
  }

  /** The strings, and a null that makes the map even. */
  method WriteStrings(out: OutFile, es: seq<Orl>, padit: nat)
    requires padit == StringsLen(es) % 2
    modifies out
    ensures out.bytes == old(out.bytes) + (Strings(es, |es|) + EvenPad(StringsLen(es)))
  {
    for count := 0 to |es|
      invariant out.bytes == old(out.bytes) + Strings(es, count)
    {
      out.Write(es[count].name + [NUL]);
    }
    if padit != 0 {
      out.Write([NUL]);
    }
  }

  method WriteRow(out: OutFile, big: bool, es: seq<Orl>, ms: seq<Member>, start: nat, count: nat, firstreal: nat,
                  ghost before: seq<byte>)
    requires Grouped(es, |ms|) && count < |es| && firstreal == HeaderPos(ms, start, es[count].owner)
    requires out.bytes == before + Rows(big, es, ms, start, count)
    modifies out
    ensures out.bytes == before + Rows(big, es, ms, start, count + 1)
  {
    ghost var row := Row(big, es[count], ms, start);
    Regroup2(before, Rows(big, es, ms, start, count), row);
    out.Write(Put32(big, es[count].namidx) + Put32(big, firstreal));
  }

  /** The first loop of bsd_write_armap: a member's place is found by walking on from the
      member of the entry before. */
  method WriteRows(out: OutFile, big: bool, es: seq<Orl>, ms: seq<Member>, start: nat)
    requires Grouped(es, |ms|) && start % 2 == 0
    modifies out
    ensures out.bytes == old(out.bytes) + Rows(big, es, ms, start, |es|)
  {
    var firstreal, current, lastElt := start, 0, 0;
    for count := 0 to |es|
      invariant current == lastElt <= |ms|
      invariant firstreal == HeaderPos(ms, start, current)
      invariant forall k :: count <= k < |es| ==> current <= es[k].owner
      invariant out.bytes == old(out.bytes) + Rows(big, es, ms, start, count)
    {
      if es[count].owner != lastElt {
        firstreal := PassMember(firstreal, ms[current], ms, start, current);
        current := current + 1;
        while current != es[count].owner
          invariant current <= es[count].owner && firstreal == HeaderPos(ms, start, current)
          invariant out.bytes == old(out.bytes) + Rows(big, es, ms, start, count)
          decreases es[count].owner - current
        {
          firstreal := PassMember(firstreal, ms[current], ms, start, current);
          current := current + 1;
        }
      }
      lastElt := current;
      WriteRow(out, big, es, ms, start, count, firstreal, old(out.bytes));
    }
  }

  lemma Regroup(h: seq<byte>, a: seq<byte>, b: seq<byte>, c: seq<byte>, d: seq<byte>)
    ensures h + a + b + c + d == h + (a + b + c + d)
  {
  }

  lemma Regroup2(h: seq<byte>, a: seq<byte>, b: seq<byte>)
    ensures h + a + b == h + (a + b)
  {
  }

  lemma Regroup3(h: seq<byte>, a: seq<byte>, b: seq<byte>, c: seq<byte>)
    ensures h + a + b + c == h + (a + b + c)
  {
  }

  lemma {:induction false} BsdMapParts(big: bool, es: seq<Orl>, ms: seq<Member>, start: nat)
    requires Grouped(es, |ms|)
    ensures BsdMap(big, es, ms, start)
            == Put32(big, 8 * |es|) + Rows(big, es, ms, start, |es|) + Put32(big, StringsLen(es) + StringsLen(es) % 2)
               + (Strings(es, |es|) + EvenPad(StringsLen(es)))
  {
  }

  lemma {:induction false} CoffMapParts(es: seq<Orl>, ms: seq<Member>, start: nat)
    requires Grouped(es, |ms|)
    ensures CoffMap(es, ms, start)
            == Put32(true, |es|) + Offsets(es, ms, start, |es|) + (Strings(es, |es|) + EvenPad(StringsLen(es)))
  {
  }

  /** What bsd_write_armap writes after the header. */
  method BsdWriteBody(out: OutFile, big: bool, es: seq<Orl>, stridx: nat, ms: seq<Member>, firstreal: nat)
    requires Grouped(es, |ms|) && stridx == StringsLen(es) && firstreal % 2 == 0
    modifies out
    ensures out.bytes == old(out.bytes) + BsdMap(big, es, ms, firstreal)
  {
    var padit := stridx % 2;
    ghost var head := out.bytes;
    out.Write(Put32(big, |es| * 8));
    WriteRows(out, big, es, ms, firstreal);
    out.Write(Put32(big, stridx + padit));
    WriteStrings(out, es, padit);
    Regroup(head, Put32(big, 8 * |es|), Rows(big, es, ms, firstreal, |es|), Put32(big, stridx + padit),
            Strings(es, |es|) + EvenPad(StringsLen(es)));
    BsdMapParts(big, es, ms, firstreal);
  }

  /** bsd_write_armap. */
  method BsdWriteArmap(out: OutFile, big: bool, elength: nat, es: seq<Orl>, stridx: nat, ms: seq<Member>,
                       meta: seq<byte>, ghost start: nat)
    requires start == BsdMapLen(es) + elength + AR_HDR + SARMAG
    requires Grouped(es, |ms|) && stridx == StringsLen(es) && elength % 2 == 0 && |meta| == 32
    modifies out
    ensures out.bytes == old(out.bytes) + Header(BSD_MAP_NAME, meta, BsdMapLen(es)) + BsdMap(big, es, ms, start)
  {
    var ranlibsize, stringsize := |es| * 8, stridx + stridx % 2;
    var mapsize := ranlibsize + stringsize + 8;
    var firstreal := mapsize + elength + AR_HDR + SARMAG;
    out.Write(Header(BSD_MAP_NAME, meta, mapsize));
    BsdWriteBody(out, big, es, stridx, ms, firstreal);
  }

  /** The inner walk of coff_write_armap: the offsets of one member's entries. */
  method WriteMemberOffsets(out: OutFile, es: seq<Orl>, ms: seq<Member>, start: nat, from: nat, current: nat,
                            filePtr: nat, ghost before: seq<byte>)
      returns (count: nat)
    requires Grouped(es, |ms|) && from <= |es| && current < |ms| && filePtr == HeaderPos(ms, start, current)
    requires forall k :: from <= k < |es| ==> current <= es[k].owner
    requires out.bytes == before + Offsets(es, ms, start, from)
    modifies out
    ensures from <= count <= |es| && forall k :: count <= k < |es| ==> current + 1 <= es[k].owner
    ensures out.bytes == before + Offsets(es, ms, start, count)
  {
    count := from;
    while count < |es| && es[count].owner == current
      invariant from <= count <= |es|
      invariant out.bytes == before + Offsets(es, ms, start, count)
      decreases |es| - count
    {
      Regroup2(before, Offsets(es, ms, start, count), Put32(true, filePtr));
      out.Write(Put32(true, filePtr));
      count := count + 1;
    }
  }

  /** The walks of coff_write_armap.  Every one of the offsets comes out, because the map
      is grouped in member order. */
  method WriteOffsets(out: OutFile, es: seq<Orl>, ms: seq<Member>, start: nat)
    requires Grouped(es, |ms|) && start % 2 == 0
    modifies out
    ensures out.bytes == old(out.bytes) + Offsets(es, ms, start, |es|)
  {
    var filePtr, current, count := start, 0, 0;
    while current < |ms| && count < |es|
      invariant current <= |ms| && count <= |es|
      invariant filePtr == HeaderPos(ms, start, current)
      invariant forall k :: count <= k < |es| ==> current <= es[k].owner
      invariant out.bytes == old(out.bytes) + Offsets(es, ms, start, count)
      decreases |ms| - current
    {
      count := WriteMemberOffsets(out, es, ms, start, count, current, filePtr, old(out.bytes));
      filePtr := PassMember(filePtr, ms[current], ms, start, current);
      current := current + 1;
    }
  }

  lemma {:induction false} SameParity(s: nat, n: nat)
    ensures (s + (n * 4 + 4)) % 2 == s % 2
    ensures (s + (n * 4 + 4) + s % 2) % 2 == 0
  {
    EvenTerm(s, n * 2 + 2);
    EvenTerm(s + s % 2, n * 2 + 2);
  }

  lemma EvenTerm(s: nat, k: nat)
    ensures (s + 2 * k) % 2 == s % 2
  {
  }

  /** coff_write_armap. */
  method CoffWriteArmap(out: OutFile, elength: nat, es: seq<Orl>, stridx: nat, ms: seq<Member>, meta: seq<byte>,
                        ghost start: nat)
    requires start == CoffMapLen(es) + elength + AR_HDR + SARMAG
    requires Grouped(es, |ms|) && stridx == StringsLen(es) && elength % 2 == 0 && |meta| == 32
    modifies out
    ensures out.bytes == old(out.bytes) + Header(COFF_MAP_NAME, meta, CoffMapLen(es))
                         + CoffMap(es, ms, start)
  {
    var ranlibsize, stringsize := |es| * 4 + 4, stridx;
    var mapsize := stringsize + ranlibsize;
    var padit := mapsize % 2;
    SameParity(stringsize, |es|);
    if padit != 0 {
      mapsize := mapsize + 1;
    }
    assert mapsize == CoffMapLen(es) && mapsize % 2 == 0;
    var filePtr := mapsize + elength + AR_HDR + SARMAG;
    assert filePtr % 2 == 0;
    out.Write(Header(COFF_MAP_NAME, meta, mapsize));
    ghost var head := out.bytes;
    out.Write(Put32(true, |es|));
    WriteOffsets(out, es, ms, filePtr);
    WriteStrings(out, es, padit);
    Regroup3(head, Put32(true, |es|), Offsets(es, ms, filePtr, |es|), Strings(es, |es|) + EvenPad(StringsLen(es)));
    CoffMapParts(es, ms, filePtr);
  }
}
