/** What the records of a link say about their symbols: values and types, told in numbers. */
module LinkValues {
  import opened Bytes
  import opened Wrappers
  import opened LinkPlaces
  import opened LinkSymbols
  import opened LinkRecords
  import opened LinkNamed

  // ----- what a record should say

  /** The value: where a definition is in the output, the size of a common symbol, or 0. */
  function Meant(k: Kind): int {
    match k
    case Definition(v, section, _, _) => v + section.outVma + section.outOffset
    case Common(size) => size
    case _ => 0
  }

  predicate SaysValue(k: Kind, value: int) {
    value == Meant(k) % 0x1_0000_0000
  }

  /** The type of a definition: N_TEXT, N_DATA, N_BSS or N_ABS, marked external.  A weak one
      may carry that mark or not, and N_WEAKD with it reads N_WEAKB, N_WEAKA reads N_WEAKT. */
  predicate SaysType(out: Sec, weak: bool, t: bv8) {
    match out
    case Text => if weak then t == 0x0f else t == 0x05
    case Data => if weak then t == 0x10 || t == 0x11 else t == 0x07
    case Bss => if weak then t == 0x11 else t == 0x09
    case Abs => if weak then t == 0x0e || t == 0x0f else t == 0x03
  }

  predicate Says(k: Kind, r: Record) {
    SaysValue(k, r.value) && (k.Definition? ==> SaysType(k.out, k.weak, r.etype))
  }

  // ----- records the linker writes on its own account

  /** The record of a hash entry: marked external, nothing else set. */
  predicate OwnSays(h: Entry, e: nat, r: Record) {
    && r.name == h.name && r.other == 0 && r.desc == 0 && r.owner == Some(e) && Says(h.kind, r)
    && (!h.kind.Definition? ==> r.etype == 0x01) && r.etype & 0x01 == 0x01
  }

  /** An entry gets its record exactly if it has not been dealt with, something is known or
      wanted of it, and it is not stripped, or is needed all the same. */
  predicate GetsRecord(opts: Options, h: Entry) {
    && !h.written && (h.kind.Undefined? || h.kind.Definition? || h.kind.Common?)
    && (h.indx == -2 || !(opts.strip.StripAll? || (opts.strip.StripSome? && h.name !in opts.keep)))
  }

  lemma WriteOtherSays(opts: Options, l: Link, e: nat)
    requires e < |l.table| && LinksOk(l.table)
    ensures var d, m := if l.table[e].kind.Warning? then l.table[e].kind.link else e, WriteOther(opts, l, e);
            && |m.table| == |l.table|
            && (GetsRecord(opts, l.table[d]) ==>
                  && |m.records| == |l.records| + 1 && l.records <= m.records && m.table[d].indx == |l.records|
                  && OwnSays(l.table[d], d, m.records[|l.records|]))
            && (!GetsRecord(opts, l.table[d]) ==> m.records == l.records && m.table[d].indx == l.table[d].indx)
  {
  }

  // ----- copies

  /** The symbol is the definition: same place, same value there, same section in the output,
      equally weak. */
  predicate Defines(k: Kind, place: Place, out: Sec, value: int, weak: bool) {
    k == Definition(value - place.vma, place, out, weak)
  }

  /** A symbol of a file agrees with what the link knows under its name.  If its type names a
      section, it is the definition; it is an alias only of something defined or common. */
  predicate Agrees(f: File, sym: Sym, k: Kind) {
    && Visible(sym.etype)
    && if sym.etype in {0x05, 0x0f} then Defines(k, f.text, Text, sym.value, sym.etype == 0x0f)
       else if sym.etype in {0x07, 0x10} then Defines(k, f.data, Data, sym.value, sym.etype == 0x10)
       else if sym.etype in {0x09, 0x11} then Defines(k, f.bss, Bss, sym.value, sym.etype == 0x11)
       else if sym.etype in {0x03, 0x0e} then Defines(k, Place(0, 0, 0), Abs, sym.value, sym.etype == 0x0e)
       else sym.etype == 0x0b ==> k.Definition? || k.Common?
  }

  predicate AllAgree(table: seq<Entry>, a: Action, e: nat)
    requires LinksOk(table) && e < |table|
  {
    a.LinkFile? ==>
      forall j :: 0 <= j < |a.f.syms| && j < |a.f.hashes| && a.f.hashes[j] == Some(e) ==>
        Agrees(a.f, a.f.syms[j], table[Base(table, e)].kind)
  }

  lemma CopySays(f: File, sym: Sym, k: Kind)
    requires Agrees(f, sym, k) && !IsLink(k)
    ensures var c := Choose(f, sym, Some(k));
            && c.etype != N_BINCL && SaysValue(k, c.value % WORD)
            && (k.Definition? ==> SaysType(k.out, k.weak, c.etype))
  {
  }

  lemma AgreeingFits(table: seq<Entry>, a: Action, e: nat, fits: Record -> bool)
    requires LinksOk(table) && e < |table| && AllAgree(table, a, e)
    requires forall r :: fits(r) == Says(table[Base(table, e)].kind, r)
    ensures ActionFits(table, a, e, fits)
  {
    hide Choose, Agrees;
    if a.LinkFile? {
      forall j | 0 <= j < |a.f.syms| && j < |a.f.hashes| && a.f.hashes[j] == Some(e)
        ensures CopyFor(a.f, table, j, e).etype != N_BINCL && fits(CopyFor(a.f, table, j, e))
      {
        CopySays(a.f, a.f.syms[j], table[Base(table, e)].kind);
      }
    }
  }

  lemma AgreeingActions(table: seq<Entry>, actions: seq<Action>, e: nat, fits: Record -> bool)
    requires LinksOk(table) && e < |table| && forall n :: 0 <= n < |actions| ==> AllAgree(table, actions[n], e)
    requires forall r :: fits(r) == Says(table[Base(table, e)].kind, r)
    ensures AllActionsFit(table, actions, e, fits)
  {
    AgreeingFits(table, Need(e), e, fits);
    hide ActionFits, AllAgree, Says;
    forall n | 0 <= n < |actions| ensures ActionFits(table, actions[n], e, fits) {
      AgreeingFits(table, actions[n], e, fits);
    }
    FileFits(table, Need(e), e, fits);
  }

  /** The number of an entry leads to a record of its own that says what it should. */
  predicate NumberRight(l: Link, e: nat, k: Kind)
    requires e < |l.table|
  {
    l.table[e].indx >= 0 ==>
      l.table[e].indx < |l.records| && l.records[l.table[e].indx].owner == Some(e)
      && Says(k, l.records[l.table[e].indx])
  }

  /** In the output of any link, at any time and in the end, the number of a symbol leads to
      a record with its value, and with its type if it is defined, as long as the files
      agree with what is known of it. */
  lemma NumberSays(opts: Options, table: seq<Entry>, actions: seq<Action>, n: nat, e: nat)
    requires Fresh(table) && ActionsOk(table, actions) && e < |table| && n <= |actions|
    requires forall k :: 0 <= k < |actions| ==> AllAgree(table, actions[k], e)
    ensures Good(opts, Begin(table))
    ensures NumberRight(Run(opts, Begin(table), actions, n), e, table[Base(table, e)].kind)
    ensures NumberRight(End(opts, table, actions), e, table[Base(table, e)].kind)
  {
    hide AllActionsFit, AllAgree, Act, Says, Stuck, RecordOk;
    var k := table[Base(table, e)].kind;
    var fits := (r: Record) => Says(k, r);
    AgreeingActions(table, actions, e, fits);
    FreshInv(opts, table);
    RunFits(opts, Begin(table), actions, n, e, fits);
    EndFits(opts, table, actions, e, fits);
    assert EntryOk(Run(opts, Begin(table), actions, n), e) && EntryOk(End(opts, table, actions), e);
  }

  // ----- one symbol of a file, by its type

  /** Where a symbol goes when its section is moved. */
  function Shifted(section: Place, value: int): int {
    value - section.vma + section.outVma + section.outOffset
  }

  /** The address in the output of a symbol whose type names a section. */
  function OwnAddress(f: File, sym: Sym): Option<int> {
    var t := sym.etype;
    if t & 0x1e == 0x04 || t == 0x0f then Some(Shifted(f.text, sym.value))
    else if t & 0x1e == 0x06 || t == 0x10 then Some(Shifted(f.data, sym.value))
    else if t & 0x1e == 0x08 || t == 0x11 then Some(Shifted(f.bss, sym.value))
    else if t & 0x1e == 0x02 || t == 0x0e then Some(sym.value)
    else None
  }

  /** The value of a local symbol in the output.  A set element is moved, debug symbols,
      aliases and warnings stay as they are, any other type means 0. */
  function LocalValue(f: File, sym: Sym): int {
    var t := sym.etype;
    if OwnAddress(f, sym).Some? then OwnAddress(f, sym).value
    else if t & 0xe0 != 0 || t & 0x1e == 0x0a || t == 0x1e then sym.value
    else if t & 0x1e == 0x16 then Shifted(f.text, sym.value)
    else if t & 0x1e == 0x18 then Shifted(f.data, sym.value)
    else if t & 0x1e == 0x1a then Shifted(f.bss, sym.value)
    else if t & 0x1e == 0x14 then sym.value
    else 0
  }

  /** A symbol of this type and name is stripped. */
  predicate Stripped(opts: Options, t: bv8, name: Name) {
    || opts.strip.StripAll?
    || (opts.strip.StripSome? && name !in opts.keep)
    || (opts.strip.StripDebugger? && t & 0xe0 != 0)
  }

  /** A local one that is not may be discarded: any, or those with the names of local labels
      unless they are for the debugger.  Elements of sets never are. */
  predicate Discarded(opts: Options, t: bv8, name: Name) {
    && !(t & 0x1e in {0x14, 0x16, 0x18, 0x1a})
    && (opts.discard.DiscardAll? || (opts.discard.DiscardL? && t & 0xe0 == 0 && name in opts.localLabels))
  }

  /** The loop looks at symbol i for itself. */
  predicate Considered(f: File, s: Pass, i: nat)
    requires PassOk(f, s) && i < |f.syms|
  {
    s.map_[i] != -1 && !s.pass && !s.skipNext
  }

  /** Symbol i gets one record, with this value and otherwise what it had; its number is in
      the map. */
  predicate CopiedAs(f: File, s: Pass, s': Pass, i: nat, value: int)
    requires PassOk(f, s) && i < |f.syms|
  {
    var sym := f.syms[i];
    && s'.link.table == s.link.table && s'.link.includes == s.link.includes
    && s'.link.records
       == s.link.records + [Record(sym.name, sym.etype, sym.other, sym.desc, value % 0x1_0000_0000, None)]
    && s'.map_ == s.map_[i := |s.link.records|]
  }

  /** A local symbol, unless it begins a header file.  The one behind an alias or a warning
      that is kept will be passed through. */
  lemma LocalSays(opts: Options, f: File, s: Pass, i: nat)
    requires PassOk(f, s) && i < |f.syms| && Considered(f, s, i) && s.hashes[i].None? && f.syms[i].etype != 0x82
    ensures var sym, s' := f.syms[i], Step(opts, f, s, i);
            var gone := Stripped(opts, sym.etype, sym.name) || Discarded(opts, sym.etype, sym.name);
            && (gone ==> s'.link == s.link && s'.map_ == s.map_[i := -1])
            && (!gone ==> CopiedAs(f, s, s', i, LocalValue(f, sym)))
            && (s'.pass <==>
                  !gone && OwnAddress(f, sym).None? && (sym.etype & 0x1e == 0x0a || sym.etype == 0x1e))
            && !s'.skipNext
  {
    ChosenLocally(f, f.syms[i]);
    hide Choose, LocalValue, OwnAddress;
  }

  lemma ChosenLocally(f: File, sym: Sym)
    ensures var c := Choose(f, sym, None);
            && c.etype == sym.etype && c.value == LocalValue(f, sym) && !c.skipNext
            && (c.pass <==> OwnAddress(f, sym).None? && (sym.etype & 0x1e == 0x0a || sym.etype == 0x1e))
  {
  }

  /** The symbol behind an alias or a warning is passed through as it is. */
  lemma PassedSays(opts: Options, f: File, s: Pass, i: nat)
    requires PassOk(f, s) && i < |f.syms| && s.map_[i] != -1 && s.pass
    ensures var s' := Step(opts, f, s, i); CopiedAs(f, s, s', i, f.syms[i].value) && !s'.pass
  {
  }

  /** A file begins with the symbol that names it, unless symbols like it are left out. */
  lemma StartSays(opts: Options, f: File, l: Link)
    requires FileOk(f, l.table)
    ensures var s := Start(opts, f, l);
            var named := !opts.strip.StripAll? && (opts.strip.StripSome? ==> f.name in opts.keep)
                         && !opts.discard.DiscardAll?;
            && s.link.table == l.table && s.hashes == f.hashes && !s.pass && !s.skipNext
            && s.link.records == l.records
               + (if named then
                    [Record(f.name, 0x04, 0, 0, (f.text.outVma + f.text.outOffset) % 0x1_0000_0000, None)]
                  else [])
  {
  }

  // ----- the first symbol of a name decides

  /** A warning, or an alias of something that is neither defined nor common: it stays an
      alias, and what comes next is its target. */
  predicate StaysAlias(f: File, sym: Sym, k: Kind) {
    OwnAddress(f, sym).None?
    && (sym.etype == 0x1e || (sym.etype & 0x1e == 0x0a && !k.Definition? && !k.Common?))
  }

  /** What a global symbol of a file is copied as, when k is known under its name.  Its own
      address goes before what is known; debug symbols and aliases that stay are left alone. */
  predicate GlobalAs(f: File, sym: Sym, k: Kind, etype: bv8, value: int) {
    if OwnAddress(f, sym).Some? then etype == sym.etype && value == OwnAddress(f, sym).value
    else if StaysAlias(f, sym, k) || sym.etype & 0xe0 != 0 then etype == sym.etype && value == sym.value
    else
      && value == Meant(k)
      && var external := if sym.etype in {0x14, 0x16, 0x18, 0x1a} then 0x01 else sym.etype & 0x01;
         match k
         case Definition(_, _, out, weak) => etype == PlaceType(out, weak) | external
         case UndefWeak => etype == 0x0d
         case _ => etype == sym.etype
  }

  /** The type of a definition, before it is marked external. */
  function PlaceType(out: Sec, weak: bool): bv8 {
    match out
    case Text => if weak then 0x0f else 0x04
    case Data => if weak then 0x10 else 0x06
    case Bss => if weak then 0x11 else 0x08
    case Abs => if weak then 0x0e else 0x02
  }

  lemma LowBit(t: bv8)
    requires t & 0xe0 == 0
    ensures t & 0xe1 == t & 0x01 && (t | 0x01) & 0xe1 == 0x01
  {
  }

  lemma DefinedAs(t: bv8, out: Sec, weak: bool)
    requires t & 0xe0 == 0
    ensures DefinedType(t, out, weak) != 0x82
    ensures DefinedType(t, out, weak)
            == PlaceType(out, weak) | (if t in {0x14, 0x16, 0x18, 0x1a} then 0x01 else t & 0x01)
  {
    LowBit(t);
    var low := if t in {0x14, 0x16, 0x18, 0x1a} then 0x01 else t & 0x01;
    assert DefinedType(t, out, weak) == low | SectionType(out, weak);
    assert SectionType(out, weak) == PlaceType(out, weak);
    OneBit(low, PlaceType(out, weak));
    assert PlaceType(out, weak) & 0x80 == 0;
  }

  lemma OneBit(low: bv8, t: bv8)
    requires low == 0x00 || low == 0x01
    ensures low | t == t | low && (t & 0x80 == 0 ==> low | t != 0x82)
  {
  }

  lemma ChosenGlobally(f: File, sym: Sym, k: Kind)
    requires !IsLink(k)
    ensures var c := Choose(f, sym, Some(k));
            && GlobalAs(f, sym, k, c.etype, c.value) && (c.pass <==> StaysAlias(f, sym, k))
            && (c.skipNext <==> sym.etype & 0xfe == 0x0a && !StaysAlias(f, sym, k))
            && (c.etype == 0x82 ==> sym.etype == 0x82)
  {
    if k.Definition? && sym.etype & 0xe0 == 0 {
      DefinedAs(sym.etype, k.out, k.weak);
    }
    hide DefinedType;
  }

  /** A global symbol that has not been written, unless it begins a header file: stripped, it
      counts as written; or else it gets a record and its number. */
  lemma GlobalSays(opts: Options, f: File, s: Pass, i: nat, h: nat)
    requires PassOk(f, s) && i < |f.syms| && Considered(f, s, i) && s.hashes[i] == Some(h)
    requires !s.link.table[h].written && f.syms[i].etype != 0x82
    ensures var sym, s' := f.syms[i], Step(opts, f, s, i);
            var k, name := s.link.table[Base(s.link.table, h)].kind, NameOf(s, i, sym);
            && |s'.link.table| == |s.link.table| && s'.link.table[h].written
            && if Stripped(opts, sym.etype, name) then
                 s'.link.records == s.link.records && !s'.pass && !s'.skipNext
                 && s'.link.table[h].indx == s.link.table[h].indx
               else
                 && |s'.link.records| == |s.link.records| + 1 && s.link.records <= s'.link.records
                 && (s'.pass <==> StaysAlias(f, sym, k))
                 && (s'.skipNext <==> sym.etype & 0xfe == 0x0a && !StaysAlias(f, sym, k))
                 && s'.link.table[h].indx == |s.link.records|
                 && var r := s'.link.records[|s.link.records|];
                    r.name == name && r.other == sym.other && r.desc == sym.desc && r.owner == Some(h)
                    && exists value :: GlobalAs(f, sym, k, r.etype, value) && r.value == value % 0x1_0000_0000
  {
    var sym := f.syms[i];
    var k := s.link.table[Base(s.link.table, h)].kind;
    ChosenGlobally(f, sym, k);
    if !Stripped(opts, sym.etype, NameOf(s, i, sym)) {
      GlobalCopy(opts, f, s, i, h);
      hide Choose, OwnAddress, Meant, Step, GlobalAs, StaysAlias;
      var c := Choose(f, sym, Some(k));
      assert GlobalAs(f, sym, k, c.etype, c.value);
    } else {
      hide Choose, GlobalAs, StaysAlias;
    }
  }

  /** The copy of a global symbol has the value of its name exactly if its type names no
      section, or it is where the name is defined. */
  lemma GlobalCopySaysIff(opts: Options, f: File, s: Pass, i: nat, h: nat)
    requires PassOk(f, s) && i < |f.syms| && Considered(f, s, i) && s.hashes[i] == Some(h)
    requires !s.link.table[h].written && !Stripped(opts, f.syms[i].etype, NameOf(s, i, f.syms[i]))
    requires Visible(f.syms[i].etype)
    ensures var sym, k, m := f.syms[i], s.link.table[Base(s.link.table, h)].kind, Step(opts, f, s, i).link;
            && |m.records| == |s.link.records| + 1 && s.link.records <= m.records
            && var r := m.records[|s.link.records|];
               && r.owner == Some(h)
               && (OwnAddress(f, sym).Some? ==> r.etype == sym.etype)
               && (OwnAddress(f, sym).Some? || sym.etype != 0x0b || k.Definition? || k.Common? ==>
                     (SaysValue(k, r.value)
                      <==> OwnAddress(f, sym).None? || (OwnAddress(f, sym).value - Meant(k)) % 0x1_0000_0000 == 0))
  {
    var sym := f.syms[i];
    var k := s.link.table[Base(s.link.table, h)].kind;
    VisibleAs(f, sym, k);
    GlobalCopy(opts, f, s, i, h);
    hide Choose, OwnAddress, Meant, Step;
    if OwnAddress(f, sym).Some? {
      SameRemainder(OwnAddress(f, sym).value, Meant(k));
    }
  }

  lemma VisibleAs(f: File, sym: Sym, k: Kind)
    requires Visible(sym.etype) && !IsLink(k)
    ensures var c := Choose(f, sym, Some(k));
            && c.etype != 0x82
            && (OwnAddress(f, sym).Some? ==> c.etype == sym.etype && c.value == OwnAddress(f, sym).value)
            && (OwnAddress(f, sym).None? && (sym.etype == 0x0b ==> k.Definition? || k.Common?) ==> c.value == Meant(k))
  {
  }

  lemma GlobalCopy(opts: Options, f: File, s: Pass, i: nat, h: nat)
    requires PassOk(f, s) && i < |f.syms| && Considered(f, s, i) && s.hashes[i] == Some(h)
    requires !s.link.table[h].written && !Stripped(opts, f.syms[i].etype, NameOf(s, i, f.syms[i]))
    requires Choose(f, f.syms[i], Some(s.link.table[Base(s.link.table, h)].kind)).etype != 0x82
    ensures var sym, s' := f.syms[i], Step(opts, f, s, i);
            var c := Choose(f, sym, Some(s.link.table[Base(s.link.table, h)].kind));
            && s'.link.records == s.link.records
               + [Record(NameOf(s, i, sym), c.etype, sym.other, sym.desc, c.value % 0x1_0000_0000, Some(h))]
            && s'.link.table[h].written && s'.link.table[h].indx == |s.link.records|
            && s'.pass == c.pass && s'.skipNext == c.skipNext
  {
    hide Choose;
  }

  lemma SameRemainder(a: int, b: int)
    ensures a % 0x1_0000_0000 == b % 0x1_0000_0000 <==> (a - b) % 0x1_0000_0000 == 0
  {
    var q, p := a / 0x1_0000_0000, b / 0x1_0000_0000;
    assert a - b == 0x1_0000_0000 * (q - p) + (a % 0x1_0000_0000 - b % 0x1_0000_0000);
  }

  /** A symbol that heads the first file and names a section decides about its name's record
      for the whole link, even if the name is defined elsewhere. */
  lemma FirstCopyDecides(opts: Options, table: seq<Entry>, actions: seq<Action>, f: File, wanted: seq<nat>, e: nat)
    requires Fresh(table) && ActionsOk(table, actions) && |actions| > 0 && actions[0] == LinkFile(f, wanted)
    requires opts.strip.StripNone? && |f.syms| > 0 && |f.hashes| > 0 && f.hashes[0] == Some(e) && e < |table|
    requires Visible(f.syms[0].etype) && OwnAddress(f, f.syms[0]).Some?
    ensures var m, k := End(opts, table, actions), table[Base(table, e)].kind;
            && |m.table| == |table| && 0 <= m.table[e].indx < |m.records|
            && var r := m.records[m.table[e].indx];
               && r.etype == f.syms[0].etype
               && (SaysValue(k, r.value) <==> (OwnAddress(f, f.syms[0]).value - Meant(k)) % 0x1_0000_0000 == 0)
  {
    hide Act, Step, SaysValue, Meant, OwnAddress, Visible, Stuck, Settled;
    FreshInv(opts, table);
    var l, end := Begin(table), End(opts, table, actions);
    StartOk(opts, f, l);
    var s := Start(opts, f, l);
    GlobalCopySaysIff(opts, f, s, 0, e);
    var n, m := |s.link.records|, Step(opts, f, s, 0).link;
    assert SameKinds(table, end.table) && s.link.table == table;
    FirstStays(opts, table, actions, f, wanted);
    assert end.records[n] == m.records[n];
    assert RecordOk(end, n) && EntryOk(end, e);
  }

  lemma FirstGrows(opts: Options, f: File, l: Link)
    requires FileOk(f, l.table) && Inv(l) && |f.syms| > 0
    ensures PassOk(f, Start(opts, f, l))
    ensures Step(opts, f, Start(opts, f, l), 0).link.records <= WriteSymbols(opts, f, l).link.records
  {
    StartOk(opts, f, l);
    StepSteps(opts, f, Start(opts, f, l), 0);
    hide Step, Inv;
  }

  lemma FirstStays(opts: Options, table: seq<Entry>, actions: seq<Action>, f: File, wanted: seq<nat>)
    requires Fresh(table) && ActionsOk(table, actions) && |actions| > 0 && actions[0] == LinkFile(f, wanted)
    requires |f.syms| > 0 && FileOk(f, table)
    ensures Step(opts, f, Start(opts, f, Begin(table)), 0).link.records <= End(opts, table, actions).records
  {
    FreshInv(opts, table);
    var l := Begin(table);
    FirstGrows(opts, f, l);
    hide Step, Inv, ForceSymbols;
    var s := WriteSymbols(opts, f, l);
    ForceSymbolsGrow(opts, f, s, s.link, wanted);
    assert Run(opts, l, actions, 1) == Act(opts, Run(opts, l, actions, 0), actions[0]);
    RunGrows(opts, l, actions, 1, |actions|);
    TraverseGrows(opts, Run(opts, l, actions, |actions|), |table|);
  }

  /** There are such links: a weak definition in the first file, the one that counts in the
      second.  The record is weak and has the address of the first. */
  lemma WeakCopyStays() returns (opts: Options, table: seq<Entry>, actions: seq<Action>)
    ensures Fresh(table) && ActionsOk(table, actions) && |table| == 1
    ensures exists g, sym :: LinkFile(g, []) in actions && sym in g.syms && Agrees(g, sym, table[0].kind)
    ensures var m := End(opts, table, actions);
            && |m.table| == 1 && 0 <= m.table[0].indx < |m.records|
            && m.records[m.table[0].indx].etype == 0x0f && !SaysValue(table[0].kind, m.records[m.table[0].indx].value)
  {
    opts := Options(StripNone, DiscardNone, {}, {});
    var here, there, zero := Place(0, 0, 0), Place(0, 0, 0x100), Place(0, 0x1000, 0);
    var weak, strong := Sym([102], 0x0f, 0, 0, 8), Sym([102], 0x05, 0, 0, 8);
    var f := File([], [weak], [Some(0)], here, zero, zero);
    var g := File([], [strong], [Some(0)], there, zero, zero);
    table := [Entry([102], Definition(8, there, Text, false), false, -1)];
    actions := [LinkFile(f, []), LinkFile(g, [])];
    assert LinkFile(g, []) == actions[1] && strong in g.syms && Agrees(g, strong, table[0].kind);
    WeakCopyDecides(opts, table, actions, f);
  }

  lemma WeakCopyDecides(opts: Options, table: seq<Entry>, actions: seq<Action>, f: File)
    requires Fresh(table) && ActionsOk(table, actions) && |actions| > 0 && actions[0] == LinkFile(f, [])
    requires opts.strip.StripNone? && f.syms == [Sym([102], 0x0f, 0, 0, 8)] && f.hashes == [Some(0)]
    requires |table| == 1 && table[0].kind == Definition(8, Place(0, 0, 0x100), Text, false) && f.text == Place(0, 0, 0)
    ensures var m := End(opts, table, actions);
            && |m.table| == 1 && 0 <= m.table[0].indx < |m.records|
            && m.records[m.table[0].indx].etype == 0x0f && !SaysValue(table[0].kind, m.records[m.table[0].indx].value)
  {
    hide End, Run, Choose, SaysValue;
    assert OwnAddress(f, f.syms[0]) == Some(8) && Meant(table[0].kind) == 0x108;
    FirstCopyDecides(opts, table, actions, f, [], 0);
  }
}
