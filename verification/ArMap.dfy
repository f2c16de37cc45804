/** The symbol map of an archive: what it lists, where it says the members are, and what
    is read back from it. */
module ArMap {
  import opened Bytes
  import opened Wrappers
  import opened ArFormat
  import opened ArNames

  /** A 32-bit number in either byte order; larger ones lose their high part. */
  function Put32(big: bool, w: int): (b: seq<byte>)
    ensures |b| == 4
  {
    var l := Word(w);
    if big then [l[3], l[2], l[1], l[0]] else l
  }

  /** A 32-bit number in a buffer. */
  function Number(big: bool, raw: seq<byte>, at: nat): (w: nat)
    requires at + 4 <= |raw|
  {
    if big then Join(raw[at + 3], raw[at + 2], raw[at + 1], raw[at])
    else Join(raw[at], raw[at + 1], raw[at + 2], raw[at + 3])
  }

  lemma NumberRead(big: bool, raw: seq<byte>, at: nat, w: int)
    requires at + 4 <= |raw| && raw[at..at + 4] == Put32(big, w)
    ensures Number(big, raw, at) == w % WORD
    ensures 0 <= w < WORD ==> Number(big, raw, at) == w
  {
    NumberOfWord(big, raw, at, Word(w));
    WordRoundTrip(w);
    SmallWord(w);
  }

  lemma NumberOfWord(big: bool, raw: seq<byte>, at: nat, l: seq<byte>)
    requires at + 4 <= |raw| && |l| == 4
    requires raw[at..at + 4] == if big then [l[3], l[2], l[1], l[0]] else l
    ensures Number(big, raw, at) == Get32(l, 0)
  {
    var piece := raw[at..at + 4];
    assert raw[at] == piece[0] && raw[at + 1] == piece[1] && raw[at + 2] == piece[2] && raw[at + 3] == piece[3];
  }

  // ----- where the members are

  /** A header, the contents, and a newline after contents of odd length. */
  function MemberLen(m: Member): nat {
    AR_HDR + |m.contents| + |m.contents| % 2
  }

  /** The place of the i-th header when the first is at `start`. */
  function HeaderPos(ms: seq<Member>, start: nat, i: nat): nat
    requires i <= |ms|
  {
    if i == 0 then start else HeaderPos(ms, start, i - 1) + MemberLen(ms[i - 1])
  }

  lemma {:induction false} HeadersAreEven(ms: seq<Member>, start: nat, i: nat)
    requires i <= |ms| && start % 2 == 0
    ensures HeaderPos(ms, start, i) % 2 == 0
  {
    if i > 0 {
      HeadersAreEven(ms, start, i - 1);
    }
  }

  // ----- what the map lists

  /** struct orl: a symbol name, its index into the strings, the member that defines it. */
  datatype Orl = Orl(name: seq<byte>, namidx: nat, owner: nat)

  /** A definition other modules can use. */
  predicate Listed(s: Symbol) {
    (s.global || s.weak || s.indirect || s.common) && !s.undefined
  }

  /** The names of the entries, each with its terminator. */
  function Strings(es: seq<Orl>, n: nat): seq<byte>
    requires n <= |es|
  {
    if n == 0 then [] else Strings(es, n - 1) + es[n - 1].name + [NUL]
  }

  /** The listed symbols among the first n of a member, after the entries es. */
  function Collect(symbols: seq<Symbol>, n: nat, owner: nat, es: seq<Orl>): seq<Orl>
    requires n <= |symbols|
  {
    if n == 0 then es
    else
      var before := Collect(symbols, n - 1, owner, es);
      if Listed(symbols[n - 1]) then
        before + [Orl(symbols[n - 1].name, |Strings(before, |before|)|, owner)]
      else before
  }

  /** The map of the first n members. */
  function Entries(ms: seq<Member>, n: nat): seq<Orl>
    requires n <= |ms|
  {
    if n == 0 then []
    else if ms[n - 1].isObject then
      Collect(ms[n - 1].symbols, |ms[n - 1].symbols|, n - 1, Entries(ms, n - 1))
    else
      Entries(ms, n - 1)
  }

  /** Entries in member order, each pointing at its own name among the strings. */
  predicate Grouped(es: seq<Orl>, count: nat) {
    && (forall k :: 0 <= k < |es| ==> es[k].owner < count)
    && (forall j, k :: 0 <= j < k < |es| ==> es[j].owner <= es[k].owner)
  }

  predicate Indexed(es: seq<Orl>) {
    forall k :: 0 <= k < |es| ==> es[k].namidx == |Strings(es, k)|
  }

  lemma {:induction false} StringsOfPrefix(es: seq<Orl>, longer: seq<Orl>, n: nat)
    requires n <= |es| && es <= longer
    ensures Strings(longer, n) == Strings(es, n)
  {
    if n > 0 {
      StringsOfPrefix(es, longer, n - 1);
    }
  }

  lemma {:induction false} AppendIndexed(es: seq<Orl>, e: Orl, k: nat)
    requires Indexed(es) && e.namidx == |Strings(es, |es|)| && k <= |es|
    ensures (es + [e])[k].namidx == |Strings(es + [e], k)|
  {
    StringsOfPrefix(es, es + [e], k);
    assert (es + [e])[k] == if k < |es| then es[k] else e;
  }

  /** One more entry of the same member. */
  lemma {:induction false} AppendGrouped(es: seq<Orl>, e: Orl)
    requires Grouped(es, e.owner + 1) && Indexed(es) && e.namidx == |Strings(es, |es|)|
    ensures Grouped(es + [e], e.owner + 1) && Indexed(es + [e])
  {
    forall k | 0 <= k <= |es| ensures (es + [e])[k].namidx == |Strings(es + [e], k)| {
      AppendIndexed(es, e, k);
    }
  }

  lemma {:induction false} CollectGrouped(symbols: seq<Symbol>, n: nat, owner: nat, es: seq<Orl>)
    requires n <= |symbols| && Grouped(es, owner + 1) && Indexed(es)
    ensures Grouped(Collect(symbols, n, owner, es), owner + 1) && Indexed(Collect(symbols, n, owner, es))
  {
    if n > 0 {
      CollectGrouped(symbols, n - 1, owner, es);
      var before := Collect(symbols, n - 1, owner, es);
      AppendGrouped(before, Orl(symbols[n - 1].name, |Strings(before, |before|)|, owner));
    }
  }

  lemma GroupedFurther(es: seq<Orl>, count: nat)
    requires Grouped(es, count)
    ensures Grouped(es, count + 1)
  {
  }

  /** The map is grouped in member order, and its name indices are prefix sums. */
  lemma {:induction false} EntriesGrouped(ms: seq<Member>, n: nat)
    requires n <= |ms|
    ensures Grouped(Entries(ms, n), n) && Indexed(Entries(ms, n))
  {
    if n > 0 {
      EntriesGrouped(ms, n - 1);
      GroupedFurther(Entries(ms, n - 1), n - 1);
      if ms[n - 1].isObject {
        CollectGrouped(ms[n - 1].symbols, |ms[n - 1].symbols|, n - 1, Entries(ms, n - 1));
      }
    }
  }

  /** An object file has a symbol of this name that is global, weak, indirect or common, and
      not undefined. */
  predicate Defines(m: Member, name: seq<byte>) {
    m.isObject && exists s :: s in m.symbols && s.name == name && !s.undefined
                              && (s.global || s.weak || s.indirect || s.common)
  }

  predicate Lists(es: seq<Orl>, name: seq<byte>, owner: nat) {
    exists k :: 0 <= k < |es| && es[k].name == name && es[k].owner == owner
  }

  lemma {:induction false} CollectLists(symbols: seq<Symbol>, n: nat, owner: nat, es: seq<Orl>, name: seq<byte>, i: nat)
    requires n <= |symbols|
    ensures Lists(Collect(symbols, n, owner, es), name, i)
            <==> Lists(es, name, i)
                 || (i == owner && exists j :: 0 <= j < n && Listed(symbols[j]) && symbols[j].name == name)
  {
    if n > 0 {
      CollectLists(symbols, n - 1, owner, es, name, i);
      var before, after := Collect(symbols, n - 1, owner, es), Collect(symbols, n, owner, es);
      if Lists(before, name, i) {
        var k :| 0 <= k < |before| && before[k].name == name && before[k].owner == i;
        assert after[k] == before[k];
      }
      if Listed(symbols[n - 1]) {
        assert after[|before|].name == symbols[n - 1].name;
      }
    }
  }

  /** The map lists a name for a member exactly when that member defines it. */
  lemma {:induction false} MapListsDefinitions(ms: seq<Member>, n: nat, name: seq<byte>, i: nat)
    requires n <= |ms|
    ensures Lists(Entries(ms, n), name, i) <==> i < n && Defines(ms[i], name)
  {
    if n > 0 {
      MapListsDefinitions(ms, n - 1, name, i);
      if ms[n - 1].isObject {
        CollectLists(ms[n - 1].symbols, |ms[n - 1].symbols|, n - 1, Entries(ms, n - 1), name, i);
      }
    }
  }

  // ----- the two map formats

  /** struct symdef: the index of the name, the place of the member. */
  function Row(big: bool, e: Orl, ms: seq<Member>, start: nat): (r: seq<byte>)
    requires e.owner < |ms|
    ensures |r| == 8
  {
    Put32(big, e.namidx) + Put32(big, HeaderPos(ms, start, e.owner))
  }

  function Rows(big: bool, es: seq<Orl>, ms: seq<Member>, start: nat, n: nat): (r: seq<byte>)
    requires Grouped(es, |ms|) && n <= |es|
    ensures |r| == 8 * n
  {
    if n == 0 then [] else Rows(big, es, ms, start, n - 1) + Row(big, es[n - 1], ms, start)
  }

  /** The member offsets of a System V map. */
  function Offsets(es: seq<Orl>, ms: seq<Member>, start: nat, n: nat): (r: seq<byte>)
    requires Grouped(es, |ms|) && n <= |es|
    ensures |r| == 4 * n
  {
    if n == 0 then [] else Offsets(es, ms, start, n - 1) + Put32(true, HeaderPos(ms, start, es[n - 1].owner))
  }

  /** Padding that makes a length even. */
  function EvenPad(n: nat): seq<byte> {
    if n % 2 == 1 then [NUL] else []
  }

  function StringsLen(es: seq<Orl>): nat {
    |Strings(es, |es|)|
  }

  function BsdMapLen(es: seq<Orl>): nat {
    8 * |es| + StringsLen(es) + StringsLen(es) % 2 + 8
  }

  function CoffMapLen(es: seq<Orl>): nat {
    4 * |es| + 4 + StringsLen(es) + StringsLen(es) % 2
  }

  /** What bsd_write_armap writes after its header. */
  function BsdMap(big: bool, es: seq<Orl>, ms: seq<Member>, start: nat): (b: seq<byte>)
    requires Grouped(es, |ms|)
    ensures |b| == BsdMapLen(es)
  {
    var strings := Strings(es, |es|);
    Put32(big, 8 * |es|) + Rows(big, es, ms, start, |es|)
    + Put32(big, |strings| + |strings| % 2) + strings + EvenPad(|strings|)
  }

  /** What coff_write_armap writes after its header. */
  function CoffMap(es: seq<Orl>, ms: seq<Member>, start: nat): (b: seq<byte>)
    requires Grouped(es, |ms|)
    ensures |b| == CoffMapLen(es)
  {
    var strings := Strings(es, |es|);
    Put32(true, |es|) + Offsets(es, ms, start, |es|) + strings + EvenPad(|strings|)
  }

  // ----- reading them back

  /** carsym: a name and the place of the member that defines it. */
  datatype Carsym = Carsym(name: seq<byte>, offset: nat)

  /** A name by its index from the string base; one outside the map names nothing. */
  function NameIn(raw: seq<byte>, base: nat, index: nat): seq<byte> {
    if base + index <= |raw| then CString(raw, base + index) else []
  }

  /** One symdef. */
  function BsdSym(big: bool, raw: seq<byte>, count: nat, k: nat): Carsym
    requires k < count && 8 * count + 4 <= |raw|
  {
    Carsym(NameIn(raw, 8 * count + 8, Number(big, raw, 4 + 8 * k)), Number(big, raw, 8 + 8 * k))
  }

  /** do_slurp_bsd_armap on the contents of the map. */
  function ReadBsdMap(big: bool, raw: seq<byte>): Option<seq<Carsym>> {
    if |raw| < 4 then None
    else
      var count := Number(big, raw, 0) / 8;
      if 8 * count > |raw| - 4 then None
      else Some(seq(count, k requires 0 <= k < count => BsdSym(big, raw, count, k)))
  }

  /** The strings of a System V map, one after the other. */
  function NamesFrom(s: seq<byte>, i: nat, n: nat): (names: seq<seq<byte>>)
    requires i <= |s|
    ensures |names| == n
    decreases n
  {
    if n == 0 then []
    else
      var name := CString(s, i);
      var next := i + |name| + 1;
      [name] + NamesFrom(s, if next <= |s| then next else |s|, n - 1)
  }

  /** do_slurp_coff_armap on the contents of the map. */
  function ReadCoffMap(raw: seq<byte>): Option<seq<Carsym>> {
    if |raw| < 4 then None
    else
      var count := Number(true, raw, 0);
      if 4 * count + 4 > |raw| then None
      else
        var names := NamesFrom(raw[4 + 4 * count..], 0, count);
        Some(seq(count, k requires 0 <= k < count => Carsym(names[k], Number(true, raw, 4 + 4 * k))))
  }

  /** What a reader should find: each entry's name and the place of its member. */
  function Expected(es: seq<Orl>, ms: seq<Member>, start: nat): (cs: seq<Carsym>)
    requires Grouped(es, |ms|)
    ensures |cs| == |es|
    ensures forall k :: 0 <= k < |es| ==> cs[k] == Carsym(es[k].name, HeaderPos(ms, start, es[k].owner) % WORD)
  {
    seq(|es|, k requires 0 <= k < |es| => Carsym(es[k].name, HeaderPos(ms, start, es[k].owner) % WORD))
  }

  predicate CStrings(es: seq<Orl>) {
    forall k :: 0 <= k < |es| ==> NUL !in es[k].name
  }

  lemma {:induction false} StringsGrow(es: seq<Orl>, n: nat, m: nat)
    requires n <= m <= |es|
    ensures Strings(es, n) <= Strings(es, m)
    decreases m
  {
    if n < m {
      StringsGrow(es, n, m - 1);
    }
  }

  /** The k-th name stands at its index in the strings. */
  lemma {:induction false} NameAtIndex(es: seq<Orl>, k: nat, s: seq<byte>, base: nat)
    requires k < |es| && NUL !in es[k].name
    requires base + StringsLen(es) <= |s| && s[base..base + StringsLen(es)] == Strings(es, |es|)
    ensures base + |Strings(es, k)| + |es[k].name| < |s|
    ensures CString(s, base + |Strings(es, k)|) == es[k].name
    ensures NameIn(s, base, |Strings(es, k)|) == es[k].name
  {
    var at, name, all := |Strings(es, k)|, es[k].name, Strings(es, |es|);
    StringsGrow(es, k + 1, |es|);
    assert Strings(es, k + 1) == Strings(es, k) + name + [NUL];
    forall j | 0 <= j <= |name| ensures s[base + at + j] == if j < |name| then name[j] else NUL {
      assert s[base..base + StringsLen(es)][at + j] == all[at + j] == Strings(es, k + 1)[at + j];
    }
    CStringIs(s, base + at, name);
  }

  lemma {:induction false} RowAt(big: bool, es: seq<Orl>, ms: seq<Member>, start: nat, n: nat, k: nat)
    requires Grouped(es, |ms|) && k < n <= |es|
    ensures Rows(big, es, ms, start, n)[8 * k..8 * k + 8] == Row(big, es[k], ms, start)
  {
    hide Row;
    if k < n - 1 {
      RowAt(big, es, ms, start, n - 1, k);
    }
  }

  lemma {:induction false} OffsetAt(es: seq<Orl>, ms: seq<Member>, start: nat, n: nat, k: nat)
    requires Grouped(es, |ms|) && k < n <= |es|
    ensures Offsets(es, ms, start, n)[4 * k..4 * k + 4] == Put32(true, HeaderPos(ms, start, es[k].owner))
  {
    if k < n - 1 {
      OffsetAt(es, ms, start, n - 1, k);
    }
  }

  // ----- armap round trips

  /** The map's counts and name indices fit their 32-bit fields. */
  predicate Representable(es: seq<Orl>) {
    8 * |es| < WORD && StringsLen(es) < WORD
  }

  predicate BsdLaidOut(big: bool, es: seq<Orl>, ms: seq<Member>, start: nat, raw: seq<byte>)
    requires Grouped(es, |ms|)
  {
    && 8 * |es| + 8 + StringsLen(es) <= |raw|
    && raw[0..4] == Put32(big, 8 * |es|)
    && raw[4..4 + 8 * |es|] == Rows(big, es, ms, start, |es|)
    && raw[8 * |es| + 8..8 * |es| + 8 + StringsLen(es)] == Strings(es, |es|)
  }

  lemma BsdParts(big: bool, es: seq<Orl>, ms: seq<Member>, start: nat)
    requires Grouped(es, |ms|)
    ensures BsdLaidOut(big, es, ms, start, BsdMap(big, es, ms, start))
  {
  }

  lemma BsdRowPlaced(big: bool, es: seq<Orl>, ms: seq<Member>, start: nat, raw: seq<byte>, k: nat)
    requires Grouped(es, |ms|) && BsdLaidOut(big, es, ms, start, raw) && k < |es|
    ensures raw[4 + 8 * k..4 + 8 * k + 8] == Row(big, es[k], ms, start)
  {
    RowAt(big, es, ms, start, |es|, k);
    SliceOfSlice(raw, 4, 4 + 8 * |es|, 8 * k, 8 * k + 8);
  }

  lemma TwoNumbersRead(big: bool, raw: seq<byte>, at: nat, v: int, w: int)
    requires at + 8 <= |raw| && raw[at..at + 8] == Put32(big, v) + Put32(big, w)
    ensures 0 <= v < WORD ==> Number(big, raw, at) == v
    ensures Number(big, raw, at + 4) == w % WORD
  {
    var row := Put32(big, v) + Put32(big, w);
    SliceOfSlice(raw, at, at + 8, 0, 4);
    SliceOfSlice(raw, at, at + 8, 4, 8);
    assert row[0..4] == Put32(big, v) && row[4..8] == Put32(big, w);
    NumberRead(big, raw, at, v);
    NumberRead(big, raw, at + 4, w);
  }

  lemma {:induction false} BsdRowRead(big: bool, es: seq<Orl>, ms: seq<Member>, start: nat, raw: seq<byte>, k: nat)
    requires Grouped(es, |ms|) && BsdLaidOut(big, es, ms, start, raw) && k < |es|
    ensures es[k].namidx < WORD ==> Number(big, raw, 4 + 8 * k) == es[k].namidx
    ensures Number(big, raw, 4 + 8 * k + 4) == HeaderPos(ms, start, es[k].owner) % WORD
  {
    BsdRowPlaced(big, es, ms, start, raw, k);
    TwoNumbersRead(big, raw, 4 + 8 * k, es[k].namidx, HeaderPos(ms, start, es[k].owner));
  }

  lemma SliceOfSlice(s: seq<byte>, a: nat, b: nat, c: nat, d: nat)
    requires a <= b <= |s| && c <= d <= b - a
    ensures s[a..b][c..d] == s[a + c..a + d]
  {
    assert forall k :: 0 <= k < d - c ==> s[a..b][c..d][k] == s[a + c..a + d][k];
  }

  lemma {:induction false} BsdSymRead(big: bool, es: seq<Orl>, ms: seq<Member>, start: nat, raw: seq<byte>, k: nat)
    requires Grouped(es, |ms|) && k < |es| && 8 * |es| + 8 <= |raw|
    requires Number(big, raw, 4 + 8 * k) == |Strings(es, k)|
    requires Number(big, raw, 8 + 8 * k) == HeaderPos(ms, start, es[k].owner) % WORD
    requires NameIn(raw, 8 * |es| + 8, |Strings(es, k)|) == es[k].name
    ensures BsdSym(big, raw, |es|, k) == Expected(es, ms, start)[k]
  {
  }

  lemma BsdSymsRead(big: bool, es: seq<Orl>, ms: seq<Member>, start: nat, raw: seq<byte>)
    requires Grouped(es, |ms|) && Indexed(es) && CStrings(es) && Representable(es)
    requires BsdLaidOut(big, es, ms, start, raw)
    ensures forall k :: 0 <= k < |es| ==> BsdSym(big, raw, |es|, k) == Expected(es, ms, start)[k]
  {
    var base := 8 * |es| + 8;
    assert raw[base..base + StringsLen(es)] == Strings(es, |es|);
    forall k | 0 <= k < |es| ensures BsdSym(big, raw, |es|, k) == Expected(es, ms, start)[k] {
      assert Number(big, raw, 4 + 8 * k) == |Strings(es, k)|
             && Number(big, raw, 8 + 8 * k) == HeaderPos(ms, start, es[k].owner) % WORD by {
        StringsGrow(es, k, |es|);
        BsdRowRead(big, es, ms, start, raw, k);
      }
      NameAtIndex(es, k, raw, base);
      BsdSymRead(big, es, ms, start, raw, k);
    }
  }

  lemma BsdMapRead(big: bool, raw: seq<byte>, cs: seq<Carsym>)
    requires 8 * |cs| + 8 <= |raw| && Number(big, raw, 0) == 8 * |cs|
    requires forall k :: 0 <= k < |cs| ==> BsdSym(big, raw, |cs|, k) == cs[k]
    ensures ReadBsdMap(big, raw) == Some(cs)
  {
    assert ReadBsdMap(big, raw).value == cs;
  }

  /** do_slurp_bsd_armap recovers the names and member offsets bsd_write_armap wrote. */
  lemma BsdMapRoundTrip(big: bool, es: seq<Orl>, ms: seq<Member>, start: nat)
    requires Grouped(es, |ms|) && Indexed(es) && CStrings(es) && Representable(es)
    ensures ReadBsdMap(big, BsdMap(big, es, ms, start)) == Some(Expected(es, ms, start))
  {
    var raw := BsdMap(big, es, ms, start);
    BsdParts(big, es, ms, start);
    BsdSymsRead(big, es, ms, start, raw);
    NumberRead(big, raw, 0, 8 * |es|);
    BsdMapRead(big, raw, Expected(es, ms, start));
  }

  /** Reading the strings in sequence finds the k-th entry's name k-th. */
  lemma {:induction false} NamesInSequence(es: seq<Orl>, s: seq<byte>, k: nat)
    requires k <= |es| && CStrings(es) && StringsLen(es) <= |s| && s[..StringsLen(es)] == Strings(es, |es|)
    ensures |Strings(es, k)| <= |s|
    ensures NamesFrom(s, |Strings(es, k)|, |es| - k) == seq(|es| - k, j requires 0 <= j < |es| - k => es[k + j].name)
    decreases |es| - k
  {
    StringsGrow(es, k, |es|);
    if k < |es| {
      NameAtIndex(es, k, s, 0);
      StringsGrow(es, k + 1, |es|);
      NamesInSequence(es, s, k + 1);
    }
  }

  predicate CoffLaidOut(es: seq<Orl>, ms: seq<Member>, start: nat, raw: seq<byte>)
    requires Grouped(es, |ms|)
  {
    && 4 + 4 * |es| + StringsLen(es) <= |raw|
    && raw[0..4] == Put32(true, |es|)
    && raw[4..4 + 4 * |es|] == Offsets(es, ms, start, |es|)
    && raw[4 + 4 * |es|..][..StringsLen(es)] == Strings(es, |es|)
  }

  lemma FourParts(a: seq<byte>, b: seq<byte>, c: seq<byte>, d: seq<byte>)
    ensures (a + b + c + d)[0..|a|] == a
    ensures (a + b + c + d)[|a|..|a| + |b|] == b
    ensures (a + b + c + d)[|a| + |b|..][..|c|] == c
  {
  }

  lemma {:induction false} CoffParts(es: seq<Orl>, ms: seq<Member>, start: nat)
    requires Grouped(es, |ms|)
    ensures CoffLaidOut(es, ms, start, CoffMap(es, ms, start))
  {
    FourParts(Put32(true, |es|), Offsets(es, ms, start, |es|), Strings(es, |es|), EvenPad(StringsLen(es)));
  }

  lemma {:induction false} CoffOffsetRead(es: seq<Orl>, ms: seq<Member>, start: nat, raw: seq<byte>, k: nat)
    requires Grouped(es, |ms|) && CoffLaidOut(es, ms, start, raw) && k < |es|
    ensures Number(true, raw, 4 + 4 * k) == HeaderPos(ms, start, es[k].owner) % WORD
  {
    OffsetAt(es, ms, start, |es|, k);
    SliceOfSlice(raw, 4, 4 + 4 * |es|, 4 * k, 4 * k + 4);
    NumberRead(true, raw, 4 + 4 * k, HeaderPos(ms, start, es[k].owner));
  }

  lemma {:induction false} CoffMapRead(raw: seq<byte>, cs: seq<Carsym>)
    requires 4 * |cs| + 4 <= |raw| && Number(true, raw, 0) == |cs|
    requires forall k :: 0 <= k < |cs| ==> Number(true, raw, 4 + 4 * k) == cs[k].offset
    requires NamesFrom(raw[4 + 4 * |cs|..], 0, |cs|) == seq(|cs|, k requires 0 <= k < |cs| => cs[k].name)
    ensures ReadCoffMap(raw) == Some(cs)
  {
    assert ReadCoffMap(raw).value == cs;
  }

  lemma {:induction false} CoffNamesRead(es: seq<Orl>, ms: seq<Member>, start: nat, raw: seq<byte>)
    requires Grouped(es, |ms|) && CStrings(es) && CoffLaidOut(es, ms, start, raw)
    ensures var cs := Expected(es, ms, start);
            NamesFrom(raw[4 + 4 * |es|..], 0, |es|) == seq(|es|, k requires 0 <= k < |es| => cs[k].name)
  {
    NamesInSequence(es, raw[4 + 4 * |es|..], 0);
  }

  lemma CoffOffsetsRead(es: seq<Orl>, ms: seq<Member>, start: nat, raw: seq<byte>)
    requires Grouped(es, |ms|) && CoffLaidOut(es, ms, start, raw)
    ensures 4 * |es| + 4 <= |raw|
    ensures forall k :: 0 <= k < |es| ==> Number(true, raw, 4 + 4 * k) == Expected(es, ms, start)[k].offset
  {
    hide HeaderPos, Strings, Offsets, Number;
    forall k | 0 <= k < |es| ensures Number(true, raw, 4 + 4 * k) == Expected(es, ms, start)[k].offset {
      CoffOffsetRead(es, ms, start, raw, k);
    }
  }

  lemma CoffCountRead(es: seq<Orl>, ms: seq<Member>, start: nat, raw: seq<byte>)
    requires Grouped(es, |ms|) && Representable(es) && CoffLaidOut(es, ms, start, raw)
    ensures Number(true, raw, 0) == |es|
  {
    NumberRead(true, raw, 0, |es|);
  }

  /** do_slurp_coff_armap recovers what coff_write_armap wrote. */
  lemma CoffMapRoundTrip(es: seq<Orl>, ms: seq<Member>, start: nat)
    requires Grouped(es, |ms|) && CStrings(es) && Representable(es)
    ensures ReadCoffMap(CoffMap(es, ms, start)) == Some(Expected(es, ms, start))
  {
    hide *;
    var raw := CoffMap(es, ms, start);
    CoffParts(es, ms, start);
    CoffOffsetsRead(es, ms, start, raw);
    CoffCountRead(es, ms, start, raw);
    CoffNamesRead(es, ms, start, raw);
    CoffMapRead(raw, Expected(es, ms, start));
  }
}
