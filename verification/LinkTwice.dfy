/** Linking twice, from the symbols on: what the relocs of a partial link refer to is what
    a direct link would have taken. */
module LinkTwice {
  import opened Bytes
  import opened Wrappers
  import opened LinkPlaces
  import opened LinkSymbols
  import opened LinkRecords
  import opened LinkNamed
  import R = LinkRelocs

  // ----- what the relocs are looked up in

  function TargetOf(k: Kind): R.Target {
    match k
    case Definition(value, section, out, _) => R.Defined(value, section, out)
    case UndefWeak => R.WeakUndefined
    case _ => R.Undefined
  }

  function Known(table: seq<Entry>, h: Option<nat>): Option<R.Target>
    requires h.Some? ==> h.value < |table|
  {
    if h.Some? then Some(TargetOf(table[h.value].kind)) else None
  }

  /** A reloc finds the address of a definition, or 0; it complains of a symbol without a hash
      entry, and of one that is neither defined nor weak. */
  lemma KnownSays(table: seq<Entry>, h: Option<nat>)
    requires h.Some? ==> h.value < |table|
    ensures R.Complains(Known(table, h))
            <==> h.None? || !(table[h.value].kind.Definition? || table[h.value].kind.UndefWeak?)
    ensures R.AddressOf(Known(table, h))
            == if h.None? then 0
               else match table[h.value].kind
                    case Definition(value, section, _, _) => value + section.outVma + section.outOffset
                    case _ => 0
  {
  }

  /** The section that a type names. */
  function SecOf(t: bv8): Option<Sec> {
    if t & N_TYPE == N_TEXT || t == N_WEAKT then Some(Text)
    else if t & N_TYPE == N_DATA || t == N_WEAKD then Some(Data)
    else if t & N_TYPE == N_BSS || t == N_WEAKB then Some(Bss)
    else if t & N_TYPE == N_ABS || t == N_WEAKA then Some(Abs)
    else None
  }

  /** A symbol the linker writes from its hash entry is marked external.  In the type of a
      weak one that bit means something else: weak data becomes weak bss and a weak absolute
      symbol weak text, so the record names the section of the definition if and only if
      that does not happen. */
  lemma WrittenSectionIff(table: seq<Entry>, e: nat)
    requires e < |table| && table[e].kind.Definition?
    ensures var k, r := table[e].kind, GlobalRecord(table, e);
            && r.Some? && (SecOf(r.value.etype) == Some(k.out) <==> !(k.weak && k.out in {Data, Abs}))
            && (SecOf(DefinedType(N_EXT, k.out, k.weak)) == Some(k.out) <==> !(k.weak && k.out in {Data, Abs}))
  {
  }

  function AsRead(etype: bv8, value: int): R.Nlist {
    R.Nlist(SecOf(etype), value)
  }

  /** Symbol j as the relocs of a file find it, once the file's symbols have been written
      and the wanted ones have been forced out. */
  predicate PartialAt(p: R.Input, f: File, s: Pass, l: Link, wanted: seq<nat>, j: nat)
    requires PassOk(f, s) && |s.link.table| == |l.table| && p.Valid() && j < |f.syms| == |p.symbols|
  {
    && p.hashes[j] == Known(l.table, s.hashes[j]) && p.symbols[j] == AsRead(f.syms[j].etype, f.syms[j].value)
    && (j in wanted && s.map_[j] == -1 && s.hashes[j].Some? ==> p.forced[j] == l.table[s.hashes[j].value].indx)
  }

  predicate FromPartial(p: R.Input, f: File, s: Pass, l: Link, wanted: seq<nat>)
    requires PassOk(f, s) && |s.link.table| == |l.table|
  {
    && p.Valid() && |p.symbols| == |f.syms| && p.map_ == s.map_
    && p.text == f.text && p.data == f.data && p.bss == f.bss
    && forall j :: 0 <= j < |f.syms| ==> PartialAt(p, f, s, l, wanted, j)
  }

  /** In a full link of the same file a symbol stands for what its name means there. */
  predicate DirectAt(d: R.Input, f: File, table: seq<Entry>, direct: Name -> R.Target, j: nat)
    requires FileOk(f, table) && d.Valid() && j < |f.syms| == |d.symbols|
  {
    && d.hashes[j] == (if f.hashes[j].Some? then Some(direct(table[f.hashes[j].value].name)) else None)
    && d.symbols[j] == AsRead(f.syms[j].etype, f.syms[j].value)
  }

  predicate FromDirect(d: R.Input, f: File, table: seq<Entry>, direct: Name -> R.Target)
    requires FileOk(f, table)
  {
    d.Valid() && |d.symbols| == |f.syms| && forall j :: 0 <= j < |f.syms| ==> DirectAt(d, f, table, direct, j)
  }

  /** And a full link of what has been written reads the records. */
  predicate RecordAt(q: R.Input, r: Record, final: Name -> R.Target, k: nat)
    requires q.Valid() && k < |q.symbols|
  {
    && q.symbols[k] == AsRead(r.etype, r.value)
    && (Visible(r.etype) ==> q.hashes[k] == Some(final(r.name)))
    && (Hidden(r.etype) ==> q.hashes[k].None?)
  }

  predicate FromRecords(q: R.Input, records: seq<Record>, final: Name -> R.Target) {
    q.Valid() && |q.symbols| == |records| && forall k :: 0 <= k < |records| ==> RecordAt(q, records[k], final, k)
  }

  // ----- the rest of the two full links

  /** A name means the same in the two full links. */
  ghost predicate Alike(direct: Name -> R.Target, final: Name -> R.Target) {
    forall x: Name ::
      && R.Same(R.AddressOf(Some(direct(x))), R.AddressOf(Some(final(x))))
      && (direct(x).Undefined? <==> final(x).Undefined?)
  }

  /** The aliases of the partial link hold in the direct one. */
  ghost predicate Aliases(table: seq<Entry>, direct: Name -> R.Target)
    requires LinksOk(table)
  {
    forall e :: 0 <= e < |table| ==> direct(table[e].name) == direct(table[Base(table, e)].name)
  }

  /** The direct link takes a symbol from the place where the partial one has it defined,
      and the final link puts that place where the direct one does. */
  predicate SameDefinition(t: R.Target, k: Kind, q: R.Input)
    requires k.Definition?
  {
    t.Defined? && t.value == k.value && R.SamePlace(t.section, k.section, q.Of(k.out))
  }

  predicate SameDefinitions(table: seq<Entry>, direct: Name -> R.Target, q: R.Input) {
    forall e :: 0 <= e < |table| && table[e].kind.Definition? ==>
      SameDefinition(direct(table[e].name), table[e].kind, q)
  }

  /** d links file f directly.  p is the partial link of f, which starts from l and forces
      out the wanted symbols; in the end it leaves these records, which q links. */
  ghost predicate Relinked(opts: Options, f: File, l: Link, wanted: seq<nat>, records: seq<Record>,
                           direct: Name -> R.Target, final: Name -> R.Target, d: R.Input, p: R.Input, q: R.Input)
    requires FileOk(f, l.table) && Inv(l)
  {
    After(opts, f, l, wanted).records <= records && Matching(opts, f, l, wanted, records, direct, final, d, p, q)
  }

  ghost predicate Matching(opts: Options, f: File, l: Link, wanted: seq<nat>, records: seq<Record>,
                           direct: Name -> R.Target, final: Name -> R.Target, d: R.Input, p: R.Input, q: R.Input)
    requires FileOk(f, l.table) && Inv(l)
  {
    && FromPartial(p, f, WriteSymbols(opts, f, l), After(opts, f, l, wanted), wanted)
    && FromDirect(d, f, l.table, direct) && FromRecords(q, records, final)
    && Alike(direct, final) && Aliases(l.table, direct) && SameDefinitions(l.table, direct, q)
  }

  /** The link once the symbols of a file and its relocs are done. */
  function After(opts: Options, f: File, l: Link, wanted: seq<nat>): (m: Link)
    requires FileOk(f, l.table) && Inv(l)
    ensures Inv(m) && SameKinds(l.table, m.table) && |WriteSymbols(opts, f, l).link.table| == |m.table|
  {
    var s := WriteSymbols(opts, f, l);
    var m := ForceSymbols(opts, f, s, s.link, wanted);
    SameKindsTransitive(l.table, s.link.table, m.table);
    m
  }

  // ----- the symbol a reloc refers to

  /** A symbol with a hash entry is looked up under its own name, and so are the records of
      the entry and of the one it is an alias of; a symbol without one is local. */
  predicate Ordinary(opts: Options, f: File, l: Link, wanted: seq<nat>, i: nat)
    requires FileOk(f, l.table) && Inv(l) && i < |f.syms|
  {
    if f.hashes[i].None? then Hidden(f.syms[i].etype)
    else
      var e := f.hashes[i].value;
      && Visible(f.syms[i].etype) && f.syms[i].name == l.table[e].name
      && Named(After(opts, f, l, wanted), e) && Named(After(opts, f, l, wanted), Base(l.table, e))
  }

  /** The symbol has been numbered, or left out and can be written after all. */
  predicate Reaches(s: Pass, i: nat)
    requires i < |s.map_| == |s.hashes| && (s.hashes[i].Some? ==> s.hashes[i].value < |s.link.table|)
  {
    || s.map_[i] >= 0
    || (s.map_[i] == -1 && s.hashes[i].Some?
        && (s.link.table[s.hashes[i].value].indx >= 0 || Writable(s.link.table[s.hashes[i].value].kind)))
  }

  lemma Grown(opts: Options, f: File, l: Link, wanted: seq<nat>)
    requires FileOk(f, l.table) && Inv(l)
    ensures WriteSymbols(opts, f, l).link.records <= After(opts, f, l, wanted).records
  {
    ForceSymbolsGrow(opts, f, WriteSymbols(opts, f, l), WriteSymbols(opts, f, l).link, wanted);
  }

  /** The record a symbol's place in the map leads to. */
  lemma MapMeans(opts: Options, f: File, l: Link, wanted: seq<nat>, records: seq<Record>, i: nat)
    requires FileOk(f, l.table) && Inv(l) && i < |f.syms| && Ordinary(opts, f, l, wanted, i)
    requires After(opts, f, l, wanted).records <= records && WriteSymbols(opts, f, l).map_[i] >= 0
    ensures var m := WriteSymbols(opts, f, l).map_[i];
            && m < |records|
            && (f.hashes[i].Some? ==> ByName(records[m], l.table[f.hashes[i].value].name))
            && (f.hashes[i].None? ==> Hidden(records[m].etype))
  {
    var s, l' := WriteSymbols(opts, f, l), After(opts, f, l, wanted);
    var m := s.map_[i];
    Grown(opts, f, l, wanted);
    assert MapEntryOk(s.link, f, i, m);
    assert s.link.records[m] == l'.records[m] == records[m];
    if f.hashes[i].Some? && records[m].owner.Some? {
      assert l'.records[m].owner == Some(f.hashes[i].value);
    }
  }

  /** The record a symbol that was forced out leads to. */
  lemma ForcedMeans(opts: Options, f: File, l: Link, wanted: seq<nat>, records: seq<Record>, i: nat)
    requires FileOk(f, l.table) && Inv(l) && i < |f.syms| && Ordinary(opts, f, l, wanted, i) && i in wanted
    requires After(opts, f, l, wanted).records <= records
    requires WriteSymbols(opts, f, l).map_[i] == -1 && WriteSymbols(opts, f, l).hashes[i].Some?
    ensures var s, m := WriteSymbols(opts, f, l), After(opts, f, l, wanted);
            var b := s.hashes[i].value;
            && (m.table[b].indx >= 0 <==> Reaches(s, i)) && m.table[b].indx < |records|
            && (m.table[b].indx >= 0 ==> ByName(records[m.table[b].indx], l.table[b].name))
  {
    var s, m := WriteSymbols(opts, f, l), After(opts, f, l, wanted);
    var b := s.hashes[i].value;
    WantedNumber(opts, f, s, s.link, wanted, i);
    EntryAfter(opts, f, l, i);
    assert Named(m, b);
    assert EntryOk(m, b);
    if m.table[b].indx >= 0 {
      assert m.records[m.table[b].indx] == records[m.table[b].indx];
    }
  }

  /** A reloc against a symbol that the partial link has defined: the place it is defined
      in decides. */
  lemma DefinedCarried(opts: Options, f: File, l: Link, wanted: seq<nat>, records: seq<Record>,
                       direct: Name -> R.Target, final: Name -> R.Target, d: R.Input, p: R.Input, q: R.Input, i: nat)
    requires FileOk(f, l.table) && Inv(l) && i < |f.syms|
    requires Relinked(opts, f, l, wanted, records, direct, final, d, p, q) && R.IsDefined(p.hashes[i])
    ensures R.SameSymbol(d, p, q, i)
  {
    hide After, Inv, Alike, FromRecords, Named, R.SameSymbol, SameDefinition, AsRead;
    var s, l' := WriteSymbols(opts, f, l), After(opts, f, l, wanted);
    assert PartialAt(p, f, s, l', wanted, i) && DirectAt(d, f, l.table, direct, i);
    RecordsSize(records, final, q);
    EntryAfter(opts, f, l, i);
    var e, b := f.hashes[i].value, s.hashes[i].value;
    assert l'.table[b].kind == l.table[b].kind;
    assert b == Base(l.table, e);
    assert direct(l.table[e].name) == direct(l.table[b].name);
    assert SameDefinition(direct(l.table[b].name), l.table[b].kind, q);
    DefinitionCarried(d, p, q, i, direct(l.table[b].name), l.table[b].kind);
  }

  lemma DefinitionCarried(d: R.Input, p: R.Input, q: R.Input, i: nat, t: R.Target, k: Kind)
    requires d.Valid() && p.Valid() && q.Valid() && i < |d.symbols| == |p.symbols| && k.Definition?
    requires SameDefinition(t, k, q) && p.hashes[i] == Some(TargetOf(k)) && d.hashes[i] == Some(t)
    ensures R.SameSymbol(d, p, q, i)
  {
  }

  /** A symbol that is looked up by name in the final link. */
  lemma FoundByName(records: seq<Record>, direct: Name -> R.Target, final: Name -> R.Target, q: R.Input, m: int,
                    name: Name)
    requires FromRecords(q, records, final) && Alike(direct, final) && 0 <= m < |records| && ByName(records[m], name)
    ensures R.Same(R.AddressOf(Some(direct(name))), R.AddressOf(q.hashes[m]))
    ensures R.Complains(Some(direct(name))) == R.Complains(q.hashes[m])
  {
    assert RecordAt(q, records[m], final, m);
  }

  /** A symbol that the partial link does not know: exactly if it is reached. */
  lemma UndefinedCarriedIff(opts: Options, f: File, l: Link, wanted: seq<nat>, records: seq<Record>,
                            direct: Name -> R.Target, final: Name -> R.Target, d: R.Input, p: R.Input, q: R.Input,
                              i: nat)
    requires FileOk(f, l.table) && Inv(l) && i < |f.syms| && i in wanted && Ordinary(opts, f, l, wanted, i)
    requires Relinked(opts, f, l, wanted, records, direct, final, d, p, q) && !R.IsDefined(p.hashes[i])
    ensures Reaches(WriteSymbols(opts, f, l), i) ==> R.SameSymbol(d, p, q, i)
    ensures f.hashes[i].Some? && R.SameSymbol(d, p, q, i) ==> Reaches(WriteSymbols(opts, f, l), i)
  {
    var s, l' := WriteSymbols(opts, f, l), After(opts, f, l, wanted);
    assert PartialAt(p, f, s, l', wanted, i) && DirectAt(d, f, l.table, direct, i);
    EntryAfter(opts, f, l, i);
    var m := s.map_[i];
    if m >= 0 {
      MapMeans(opts, f, l, wanted, records, i);
      if f.hashes[i].Some? {
        FoundByName(records, direct, final, q, m, l.table[f.hashes[i].value].name);
      } else {
        assert RecordAt(q, records[m], final, m);
      }
    } else if m == -1 && s.hashes[i].Some? {
      ForcedMeans(opts, f, l, wanted, records, i);
      var e, b := f.hashes[i].value, s.hashes[i].value;
      var n := l'.table[b].indx;
      assert direct(l.table[e].name) == direct(l.table[b].name);
      if n >= 0 {
        FoundByName(records, direct, final, q, n, l.table[b].name);
      }
    }
  }

  // ----- base-relative relocs

  /** The record of symbol i was written in its own turn, and not passed through. */
  predicate CopiedHere(opts: Options, f: File, l: Link, i: nat)
    requires FileOk(f, l.table) && Inv(l) && i < |f.syms|
  {
    && f.syms[i].etype != N_BINCL && !Before(opts, f, l, i).pass
    && WriteSymbols(opts, f, l).map_[i] == |Before(opts, f, l, i).link.records|
  }

  /** A record that is a symbol with its value moved along with its section. */
  predicate MovedCopy(f: File, r: Record, sym: Sym) {
    r.etype == sym.etype
      && (SectionFor(f, sym.etype).Some? ==> r.value == SectionFor(f, sym.etype).value.Moved(sym.value) % WORD)
  }

  lemma CopyMoves(f: File, s: Pass, i: nat, etype: bv8, name: Name, value: int, owner: Option<nat>)
    requires PassOk(f, s) && i < |f.syms| && etype != N_BINCL
    ensures var s' := Copy(f, s, i, etype, name, value, owner);
            && |s'.link.records| == |s.link.records| + 1 && s'.link.records[|s.link.records|].etype == etype
            && s'.link.records[|s.link.records|].value == value % WORD
  {
  }

  lemma StepMoves(opts: Options, f: File, s: Pass, i: nat)
    requires PassOk(f, s) && i < |f.syms| && Inv(s.link) && !s.pass && f.syms[i].etype != N_BINCL
    requires SectionFor(f, f.syms[i].etype).Some?
    requires s.map_[i] == 0 && Step(opts, f, s, i).map_[i] == |s.link.records|
    ensures |Step(opts, f, s, i).link.records| == |s.link.records| + 1
    ensures MovedCopy(f, Step(opts, f, s, i).link.records[|s.link.records|], f.syms[i])
  {
    hide Copy;
    var sym, s1, h := f.syms[i], s.(map_ := s.map_[i := -1]), s.hashes[i];
    assert h.Some? ==> EntryOk(s.link, h.value);
    if h.None? {
      var c := Choose(f, sym, None);
      CopyMoves(f, s1.(pass := c.pass, skipNext := c.skipNext), i, c.etype, sym.name, c.value, None);
    } else if !s.link.table[h.value].written {
      var l, name := s.link, NameOf(s1, i, sym);
      var c := Choose(f, sym, Some(l.table[Base(l.table, h.value)].kind));
      var table := l.table[h.value := l.table[h.value].(written := true, indx := |l.records|)];
      LinksStay(l.table, table);
      CopyMoves(f, s1.(link := l.(table := table), pass := c.pass, skipNext := c.skipNext), i, c.etype, name, c.value,
                Some(h.value));
    }
  }

  lemma CopiedMoves(opts: Options, f: File, l: Link, i: nat)
    requires FileOk(f, l.table) && Inv(l) && i < |f.syms| && CopiedHere(opts, f, l, i)
    requires SectionFor(f, f.syms[i].etype).Some?
    ensures var s := WriteSymbols(opts, f, l);
            s.map_[i] < |s.link.records| && MovedCopy(f, s.link.records[s.map_[i]], f.syms[i])
  {
    hide Step, MovedCopy, SectionFor;
    StartOk(opts, f, l);
    var s := Before(opts, f, l, i);
    StepsJoin(opts, f, Start(opts, f, l), 0, i, |f.syms|, l);
    StepSteps(opts, f, s, i);
    var s1 := Step(opts, f, s, i);
    PassStep(f, l, s, s1, i);
    assert Steps(opts, f, s, i, |f.syms|, l) == Steps(opts, f, s1, i + 1, |f.syms|, l);
    assert s.map_[i] == 0 by {
      SkippedStays(opts, f, s, i);
    }
    StepMoves(opts, f, s, i);
  }

  lemma SkippedStays(opts: Options, f: File, s: Pass, i: nat)
    requires PassOk(f, s) && i < |f.syms|
    ensures s.map_[i] == -1 ==> Step(opts, f, s, i) == s
  {
  }

  /** A base-relative reloc that finds its symbol by name. */
  lemma BaseNamed(opts: Options, f: File, l: Link, wanted: seq<nat>, records: seq<Record>,
                  direct: Name -> R.Target, final: Name -> R.Target, d: R.Input, p: R.Input, q: R.Input, i: nat)
    requires FileOk(f, l.table) && Inv(l) && i < |f.syms|
    requires Relinked(opts, f, l, wanted, records, direct, final, d, p, q)
    requires Ordinary(opts, f, l, wanted, i) && WriteSymbols(opts, f, l).map_[i] >= 0
    ensures R.SameBase(d, p, q, i, true)
  {
    hide After, Inv, PassInv, Named, Alike, FromRecords, WriteSymbols, SecOf, ByName;
    var m := p.map_[i];
    NumberAt(opts, f, l, wanted, records, direct, final, d, p, q, i);
    MapMeans(opts, f, l, wanted, records, i);
    if f.hashes[i].Some? {
      FoundByName(records, direct, final, q, m, l.table[f.hashes[i].value].name);
    } else {
      HiddenRecord(records, final, q, m);
    }
  }

  /** One that reads the symbol's record instead. */
  lemma BaseRead(opts: Options, f: File, l: Link, wanted: seq<nat>, records: seq<Record>,
                 direct: Name -> R.Target, final: Name -> R.Target, d: R.Input, p: R.Input, q: R.Input, i: nat)
    requires FileOk(f, l.table) && Inv(l) && i < |f.syms|
    requires Relinked(opts, f, l, wanted, records, direct, final, d, p, q)
    requires CopiedHere(opts, f, l, i) && SecOf(f.syms[i].etype).Some?
    ensures R.SameBase(d, p, q, i, false)
  {
    hide After, Inv, PassInv, FromRecords, SecOf, SectionFor, MovedCopy, Before, WriteSymbols, Alike, R.Same;
    var m := p.map_[i];
    NumberAt(opts, f, l, wanted, records, direct, final, d, p, q, i);
    PlaceNamed(f, p, f.syms[i].etype);
    CopiedMoves(opts, f, l, i);
    Grown(opts, f, l, wanted);
    assert records[m] == WriteSymbols(opts, f, l).link.records[m];
    ReadCopy(f, records, final, p, q, m, f.syms[i]);
  }

  /** What the two links know about symbol i. */
  lemma NumberAt(opts: Options, f: File, l: Link, wanted: seq<nat>, records: seq<Record>,
                 direct: Name -> R.Target, final: Name -> R.Target, d: R.Input, p: R.Input, q: R.Input, i: nat)
    requires FileOk(f, l.table) && Inv(l) && i < |f.syms|
    requires Relinked(opts, f, l, wanted, records, direct, final, d, p, q)
    ensures |WriteSymbols(opts, f, l).map_| == |f.syms| == |p.map_| == |p.symbols| == |d.symbols| == |f.hashes|
    ensures p.Valid() && d.Valid() && q.Valid()
    ensures p.map_[i] == WriteSymbols(opts, f, l).map_[i] && |q.symbols| == |records|
    ensures d.symbols[i] == AsRead(f.syms[i].etype, f.syms[i].value) && DirectAt(d, f, l.table, direct, i)
  {
    hide After, Inv, FromRecords, AsRead, Alike;
    var s, l' := WriteSymbols(opts, f, l), After(opts, f, l, wanted);
    RecordsSize(records, final, q);
    assert PartialAt(p, f, s, l', wanted, i) && DirectAt(d, f, l.table, direct, i);
  }

  lemma RecordsSize(records: seq<Record>, final: Name -> R.Target, q: R.Input)
    requires FromRecords(q, records, final)
    ensures q.Valid() && |q.symbols| == |records|
  {
  }

  lemma HiddenRecord(records: seq<Record>, final: Name -> R.Target, q: R.Input, m: int)
    requires FromRecords(q, records, final) && 0 <= m < |records| && Hidden(records[m].etype)
    ensures q.hashes[m].None?
  {
    assert RecordAt(q, records[m], final, m);
  }

  lemma ReadCopy(f: File, records: seq<Record>, final: Name -> R.Target, p: R.Input, q: R.Input, m: int, sym: Sym)
    requires FromRecords(q, records, final) && 0 <= m < |records| && MovedCopy(f, records[m], sym)
    requires SecOf(sym.etype).Some?
    requires p.text == f.text && p.data == f.data && p.bss == f.bss
    ensures q.symbols[m].section == SecOf(sym.etype)
    ensures R.Same(q.symbols[m].value, p.Of(SecOf(sym.etype).value).Move() + sym.value)
  {
    hide SecOf, SectionFor, FromRecords, R.Same;
    RecordsAt(records, final, q, m);
    PlaceNamed(f, p, sym.etype);
    WrappedSame(p.Of(SecOf(sym.etype).value).Move() + sym.value);
  }

  lemma RecordsAt(records: seq<Record>, final: Name -> R.Target, q: R.Input, m: int)
    requires FromRecords(q, records, final) && 0 <= m < |records|
    ensures q.Valid() && m < |q.symbols| && RecordAt(q, records[m], final, m)
  {
  }

  /** The section that a type names is the one its value is moved with. */
  lemma PlaceNamed(f: File, p: R.Input, t: bv8)
    requires p.text == f.text && p.data == f.data && p.bss == f.bss && SecOf(t).Some?
    ensures SectionFor(f, t) == Some(p.Of(SecOf(t).value))
  {
  }

  lemma WrappedSame(x: int)
    ensures R.Same(x % WORD, x)
  {
    assert x % WORD - x == WORD * -(x / WORD);
  }

  // ----- the relocs of a section

  /** The symbol of a reloc will be looked up by name. */
  predicate NeedsName(p: R.Input, r: R.ExtReloc)
    requires p.Valid() && R.IndexOk(p, r)
  {
    r.external && (R.BaseRelative(r.rtype) || !R.IsDefined(p.hashes[r.index]))
  }

  /** The symbol of a reloc can be carried over.  If the partial link knows it, it always
      can; otherwise it must have a number, or be one that can still be written. */
  predicate Carriable(opts: Options, f: File, l: Link, wanted: seq<nat>, p: R.Input, r: R.ExtReloc)
    requires FileOk(f, l.table) && Inv(l) && p.Valid() && |p.symbols| == |f.syms|
  {
    && R.IndexOk(p, r)
    && (R.BaseRelative(r.rtype) ==>
          if r.external then WriteSymbols(opts, f, l).map_[r.index] >= 0
          else CopiedHere(opts, f, l, r.index) && SecOf(f.syms[r.index].etype).Some?)
    && (r.external && !R.BaseRelative(r.rtype) && !R.IsDefined(p.hashes[r.index]) ==>
          r.index in wanted && Reaches(WriteSymbols(opts, f, l), r.index))
  }

  predicate Fine(opts: Options, f: File, l: Link, wanted: seq<nat>, p: R.Input, r: R.ExtReloc)
    requires FileOk(f, l.table) && Inv(l) && p.Valid() && |p.symbols| == |f.syms|
  {
    Carriable(opts, f, l, wanted, p, r) && (NeedsName(p, r) ==> Ordinary(opts, f, l, wanted, r.index))
  }

  lemma FineIsCarried(opts: Options, f: File, l: Link, wanted: seq<nat>, records: seq<Record>,
                      direct: Name -> R.Target, final: Name -> R.Target, d: R.Input, p: R.Input, q: R.Input,
                        r: R.ExtReloc)
    requires FileOk(f, l.table) && Inv(l) && R.Consistent(d, p, q) && |p.symbols| == |f.syms|
    requires Relinked(opts, f, l, wanted, records, direct, final, d, p, q) && Fine(opts, f, l, wanted, p, r)
    ensures R.Carried(d, p, q, r)
  {
    hide Relinked, Ordinary, Reaches, CopiedHere, R.SameSymbol, R.SameBase, WriteSymbols, Inv, SecOf;
    if R.BaseRelative(r.rtype) {
      if r.external {
        BaseNamed(opts, f, l, wanted, records, direct, final, d, p, q, r.index);
      } else {
        BaseRead(opts, f, l, wanted, records, direct, final, d, p, q, r.index);
      }
    } else if r.external {
      if R.IsDefined(p.hashes[r.index]) {
        DefinedCarried(opts, f, l, wanted, records, direct, final, d, p, q, r.index);
      } else {
        UndefinedCarriedIff(opts, f, l, wanted, records, direct, final, d, p, q, r.index);
      }
    }
  }

  /** One file of a partial link: what is written in the end, linked again, patches the same
      bytes with the same values as a direct link if and only if every reloc survives. */
  lemma FileLinkedTwice(opts: Options, f: File, l: Link, wanted: seq<nat>, records: seq<Record>,
                        direct: Name -> R.Target, final: Name -> R.Target, d: R.Input, p: R.Input, q: R.Input,
                          rs: seq<R.ExtReloc>)
    requires FileOk(f, l.table) && Inv(l) && R.Consistent(d, p, q) && |p.symbols| == |f.syms|
    requires Relinked(opts, f, l, wanted, records, direct, final, d, p, q)
    requires forall k :: 0 <= k < |rs| ==> Fine(opts, f, l, wanted, p, rs[k])
    requires R.IndicesOk(d, rs) && R.CanResolve(d, rs)
    ensures R.IndicesOk(p, rs) && R.CanRewrite(p, rs)
    ensures R.IndicesOk(q, R.Rewritten(p, rs)) && R.CanResolve(q, R.Rewritten(p, rs))
    ensures R.SamePatches(R.Patches(d, rs), R.Patches(q, R.Rewritten(p, rs))) <==> R.AllSurvive(p, rs)
  {
    hide Fine, R.Carried, Relinked, R.Rewrite, R.Resolve, R.SamePatch, Inv;
    forall k | 0 <= k < |rs| ensures R.Carried(d, p, q, rs[k]) {
      FineIsCarried(opts, f, l, wanted, records, direct, final, d, p, q, rs[k]);
    }
    R.TwoLinksAgreeIff(d, p, q, rs);
  }

  // ----- in a link from its beginning

  /** The link when it comes to action k. */
  function Reached(opts: Options, table: seq<Entry>, actions: seq<Action>, k: nat): (l: Link)
    requires Fresh(table) && ActionsOk(table, actions) && k <= |actions|
    ensures Good(opts, l) && SameKinds(table, l.table)
    ensures k < |actions| ==> ActionOk(l.table, actions[k])
  {
    FreshInv(opts, table);
    if k < |actions| then
      ActionStays(table, Run(opts, Begin(table), actions, k).table, actions[k]);
      Run(opts, Begin(table), actions, k)
    else Run(opts, Begin(table), actions, k)
  }

  /** Symbol i has its own name, and neither sets nor warnings are involved. */
  predicate Usual(table: seq<Entry>, actions: seq<Action>, f: File, i: nat)
    requires FileOk(f, table) && i < |f.syms|
  {
    if f.hashes[i].None? then Hidden(f.syms[i].etype)
    else
      var e := f.hashes[i].value;
      && Visible(f.syms[i].etype) && f.syms[i].name == table[e].name && !table[e].kind.Warning?
      && forall k :: 0 <= k < |actions| ==> PlainAction(actions[k], e) && PlainAction(actions[k], Base(table, e))
  }

  lemma StaysNamed(opts: Options, table: seq<Entry>, actions: seq<Action>, k: nat, e: nat)
    requires Fresh(table) && ActionsOk(table, actions) && k < |actions| && actions[k].LinkFile?
    requires e < |table| && !table[e].kind.Warning? && forall j :: 0 <= j < |actions| ==> PlainAction(actions[j], e)
    ensures Named(After(opts, actions[k].f, Reached(opts, table, actions, k), actions[k].wanted), e)
  {
    hide Named, PlainAction, Inv, Act;
    FreshInv(opts, table);
    var l := Reached(opts, table, actions, k);
    NothingNamed(table, e);
    RunNamed(opts, Begin(table), actions, k, e);
    assert l.table[e].kind == table[e].kind;
    ActNamed(opts, l, actions[k], e);
    AfterActs(opts, l, actions[k]);
  }

  lemma AfterActs(opts: Options, l: Link, a: Action)
    requires a.LinkFile? && Inv(l) && ActionOk(l.table, a)
    ensures After(opts, a.f, l, a.wanted) == Act(opts, l, a)
  {
  }

  lemma NothingNamed(table: seq<Entry>, e: nat)
    requires e < |table|
    ensures Named(Begin(table), e)
  {
  }

  lemma UsualIsOrdinary(opts: Options, table: seq<Entry>, actions: seq<Action>, k: nat, i: nat)
    requires Fresh(table) && ActionsOk(table, actions) && k < |actions| && actions[k].LinkFile?
    requires i < |actions[k].f.syms| && Usual(table, actions, actions[k].f, i)
    ensures Ordinary(opts, actions[k].f, Reached(opts, table, actions, k), actions[k].wanted, i)
  {
    hide Named, PlainAction, Visible, Hidden, After;
    var f, l := actions[k].f, Reached(opts, table, actions, k);
    if f.hashes[i].Some? {
      var e := f.hashes[i].value;
      BaseStays(table, l.table, e);
      assert l.table[e].name == table[e].name;
      StaysNamed(opts, table, actions, k, e);
      StaysNamed(opts, table, actions, k, Base(table, e));
    }
  }

  lemma NextReached(opts: Options, table: seq<Entry>, actions: seq<Action>, k: nat)
    requires Fresh(table) && ActionsOk(table, actions) && k < |actions|
    ensures Reached(opts, table, actions, k + 1) == Act(opts, Reached(opts, table, actions, k), actions[k])
  {
    hide Act, Inv;
    FreshInv(opts, table);
  }

  lemma ReachedGrows(opts: Options, table: seq<Entry>, actions: seq<Action>, m: nat, n: nat)
    requires Fresh(table) && ActionsOk(table, actions) && m <= n <= |actions|
    ensures Reached(opts, table, actions, m).records <= Reached(opts, table, actions, n).records
  {
    hide Act, Inv;
    FreshInv(opts, table);
    RunGrows(opts, Begin(table), actions, m, n);
  }

  lemma InOutput(opts: Options, table: seq<Entry>, actions: seq<Action>, k: nat)
    requires Fresh(table) && ActionsOk(table, actions) && k < |actions| && actions[k].LinkFile?
    ensures After(opts, actions[k].f, Reached(opts, table, actions, k), actions[k].wanted).records
            <= End(opts, table, actions).records
  {
    hide Act, After, Inv, Settled;
    var l := Reached(opts, table, actions, k);
    FreshInv(opts, table);
    AfterActs(opts, l, actions[k]);
    NextReached(opts, table, actions, k);
    ReachedGrows(opts, table, actions, k + 1, |actions|);
    TraverseGrows(opts, Reached(opts, table, actions, |actions|), |table|);
  }

  /** Any file of any partial link that is relinked: its relocs, rewritten against the
      symbols that are left in the output, patch the same bytes with the same values as in a
      direct link if and only if every one of them survives. */
  lemma LinkedTwice(opts: Options, table: seq<Entry>, actions: seq<Action>, k: nat,
                    direct: Name -> R.Target, final: Name -> R.Target, d: R.Input, p: R.Input, q: R.Input,
                      rs: seq<R.ExtReloc>)
    requires Fresh(table) && ActionsOk(table, actions) && k < |actions| && actions[k].LinkFile?
    requires Matching(opts, actions[k].f, Reached(opts, table, actions, k), actions[k].wanted,
                      End(opts, table, actions).records,
                      direct, final, d, p, q)
    requires R.Consistent(d, p, q) && |p.symbols| == |actions[k].f.syms| && R.IndicesOk(d, rs) && R.CanResolve(d, rs)
    requires forall n :: 0 <= n < |rs| ==>
               Carriable(opts, actions[k].f, Reached(opts, table, actions, k), actions[k].wanted, p, rs[n])
    requires forall n :: 0 <= n < |rs| && NeedsName(p, rs[n]) ==> Usual(table, actions, actions[k].f, rs[n].index)
    ensures R.IndicesOk(p, rs) && R.CanRewrite(p, rs)
    ensures R.IndicesOk(q, R.Rewritten(p, rs)) && R.CanResolve(q, R.Rewritten(p, rs))
    ensures R.SamePatches(R.Patches(d, rs), R.Patches(q, R.Rewritten(p, rs))) <==> R.AllSurvive(p, rs)
  {
    hide Matching, Carriable, Usual, Ordinary, After, End, Inv, R.Rewrite, R.Resolve, R.SamePatch;
    var a, l := actions[k], Reached(opts, table, actions, k);
    InOutput(opts, table, actions, k);
    forall n | 0 <= n < |rs| ensures Fine(opts, a.f, l, a.wanted, p, rs[n]) {
      if NeedsName(p, rs[n]) {
        UsualIsOrdinary(opts, table, actions, k, rs[n].index);
      }
    }
    FileLinkedTwice(opts, a.f, l, a.wanted, End(opts, table, actions).records, direct, final, d, p, q, rs);
  }
}
