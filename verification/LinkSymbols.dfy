/** The symbols of an a.out link: which records are written, and what numbers they get. */
module LinkSymbols {
  import opened Bytes
  import opened Wrappers
  import opened LinkPlaces

  type Name = seq<byte>

  // ----- symbol types

  const N_EXT: bv8 := 0x01
  const N_TYPE: bv8 := 0x1e
  const N_STAB: bv8 := 0xe0
  const N_ABS: bv8 := 0x02
  const N_TEXT: bv8 := 0x04
  const N_DATA: bv8 := 0x06
  const N_BSS: bv8 := 0x08
  const N_INDR: bv8 := 0x0a
  const N_WEAKU: bv8 := 0x0d
  const N_WEAKA: bv8 := 0x0e
  const N_WEAKT: bv8 := 0x0f
  const N_WEAKD: bv8 := 0x10
  const N_WEAKB: bv8 := 0x11
  const N_SETA: bv8 := 0x14
  const N_SETT: bv8 := 0x16
  const N_SETD: bv8 := 0x18
  const N_SETB: bv8 := 0x1a
  const N_WARNING: bv8 := 0x1e
  const N_MAIN: bv8 := 0x2a
  const N_BINCL: bv8 := 0x82
  const N_EINCL: bv8 := 0xa2
  const N_EXCL: bv8 := 0xc2

  predicate IsIndirect(t: bv8) {
    t & N_TYPE == N_INDR
  }

  predicate IsStab(t: bv8) {
    t & N_STAB != 0
  }

  predicate IsSet(t: bv8) {
    t & N_TYPE in {N_SETT, N_SETD, N_SETB, N_SETA}
  }

  // ----- the link

  /** What the linker knows about a global symbol.  Entries are numbered so that links lead
      to earlier ones, which is possible as long as they do not go round in circles. */
  datatype Kind =
    | New
    | Undefined
    | UndefWeak
    | Definition(value: int, section: Place, out: Sec, weak: bool)
    | Common(size: int)
    | Indirect(link: nat)
    | Warning(link: nat)

  /** aout_link_hash_entry. */
  datatype Entry = Entry(name: Name, kind: Kind, written: bool, indx: int)

  datatype Sym = Sym(name: Name, etype: bv8, other: int, desc: int, value: int)

  /** A symbol record in the output.  The owner is the hash entry it was written for; the
      file does not hold it. */
  datatype Record = Record(name: Name, etype: bv8, other: int, desc: int, value: int, owner: Option<nat>)

  datatype Strip = StripNone | StripDebugger | StripSome | StripAll

  datatype Discard = DiscardNone | DiscardSecMerge | DiscardL | DiscardAll

  datatype Options = Options(strip: Strip, discard: Discard, keep: set<Name>, localLabels: set<Name>)

  /** An input file: its symbols, the hash entry of each that has one, its sections. */
  datatype File = File(name: Name, syms: seq<Sym>, hashes: seq<Option<nat>>, text: Place, data: Place, bss: Place)

  /** The hash table, the records numbered so far, and the header files seen so far, each
      with the sum over its stabs. */
  datatype Link = Link(table: seq<Entry>, records: seq<Record>, includes: seq<(Name, int)>)

  predicate IsLink(k: Kind) {
    k.Indirect? || k.Warning?
  }

  /** Links stay in the table and go to earlier entries, and no warning is about a warning. */
  predicate LinksOk(table: seq<Entry>) {
    forall e :: 0 <= e < |table| && IsLink(table[e].kind) ==>
      table[e].kind.link < e && (table[e].kind.Warning? ==> !table[table[e].kind.link].kind.Warning?)
  }

  /** The entry at the end of a chain of links. */
  function Base(table: seq<Entry>, e: nat): (r: nat)
    requires LinksOk(table) && e < |table|
    ensures r <= e && !IsLink(table[r].kind)
  {
    if IsLink(table[e].kind) then Base(table, table[e].kind.link) else e
  }

  // ----- aout_link_write_other_symbol

  /** The type of a definition in an output section. */
  function SectionType(out: Sec, weak: bool): bv8 {
    match out
    case Text => if weak then N_WEAKT else N_TEXT
    case Data => if weak then N_WEAKD else N_DATA
    case Bss => if weak then N_WEAKB else N_BSS
    case Abs => if weak then N_WEAKA else N_ABS
  }

  /** What the record of a global symbol looks like; None for those never written. */
  function GlobalRecord(table: seq<Entry>, e: nat): Option<Record>
    requires e < |table|
  {
    var h := table[e];
    match h.kind
    case Undefined => Some(Record(h.name, N_EXT, 0, 0, 0, Some(e)))
    case Definition(value, section, out, weak) =>
      Some(Record(h.name, SectionType(out, weak) | N_EXT, 0, 0, (value + section.Out()) % WORD, Some(e)))
    case Common(size) => Some(Record(h.name, N_EXT, 0, 0, size % WORD, Some(e)))
    case UndefWeak => None                   // the case falls through to the ignored ones
    case _ => None
  }

  /** Symbols that can get a record of their own. */
  predicate Writable(k: Kind) {
    k.Undefined? || k.Definition? || k.Common?
  }

  predicate StripsGlobal(opts: Options, name: Name) {
    opts.strip == StripAll || (opts.strip == StripSome && name !in opts.keep)
  }

  /** Writes a global symbol unless that has been done or decided against. */
  function WriteGlobal(opts: Options, l: Link, e: nat): Link
    requires e < |l.table|
  {
    var h := l.table[e];
    if h.written then l
    else
      var marked := l.(table := l.table[e := h.(written := true)]);
      if (h.indx != -2 && StripsGlobal(opts, h.name)) || GlobalRecord(l.table, e).None? then marked
      else l.(table := l.table[e := h.(written := true, indx := |l.records|)],
              records := l.records + [GlobalRecord(l.table, e).value])
  }

  /** A warning stands for the symbol it is about. */
  function WriteOther(opts: Options, l: Link, e: nat): Link
    requires e < |l.table| && LinksOk(l.table)
  {
    var h := l.table[e];
    if h.kind.Warning? then
      if l.table[h.kind.link].kind.New? then l else WriteGlobal(opts, l, h.kind.link)
    else WriteGlobal(opts, l, e)
  }

  /** A reloc needs a symbol that has no record: it is written after all. */
  function Force(opts: Options, l: Link, e: nat): Link
    requires e < |l.table| && LinksOk(l.table)
  {
    if l.table[e].indx >= 0 then l
    else WriteOther(opts, l.(table := l.table[e := l.table[e].(indx := -2, written := false)]), e)
  }

  // ----- aout_link_write_symbols

  /** Where the loop over one file's symbols is: the link, the file's hash entries, the
      symbol map, and the two flags about the next symbol. */
  datatype Pass = Pass(link: Link, hashes: seq<Option<nat>>, map_: seq<int>, pass: bool, skipNext: bool)

  /** The section a symbol's type says its value is an address of. */
  function SectionFor(f: File, t: bv8): Option<Place> {
    if t & N_TYPE == N_TEXT || t == N_WEAKT then Some(f.text)
    else if t & N_TYPE == N_DATA || t == N_WEAKD then Some(f.data)
    else if t & N_TYPE == N_BSS || t == N_WEAKB then Some(f.bss)
    else if t & N_TYPE == N_ABS || t == N_WEAKA then Some(ABSOLUTE)
    else None
  }

  function SetSection(f: File, t: bv8): Option<Place> {
    if t & N_TYPE == N_SETT then Some(f.text)
    else if t & N_TYPE == N_SETD then Some(f.data)
    else if t & N_TYPE == N_SETB then Some(f.bss)
    else if t & N_TYPE == N_SETA then Some(ABSOLUTE)
    else None
  }

  /** A symbol's type after the linker has found out what it is. */
  function DefinedType(t: bv8, out: Sec, weak: bool): bv8 {
    var visible := if t in {N_SETT, N_SETD, N_SETB, N_SETA} then t | N_EXT else t;
    (visible & 0xe1) | SectionType(out, weak)
  }

  /** The type and value a symbol is copied with, and what becomes of the one after it. */
  datatype Choice = Choice(etype: bv8, value: int, pass: bool, skipNext: bool)

  function Choose(f: File, sym: Sym, known: Option<Kind>): Choice {
    var t := sym.etype;
    if SectionFor(f, t).Some? then Choice(t, SectionFor(f, t).value.Moved(sym.value), false, false)
    else if (IsIndirect(t) && (known.None? || !(known.value.Definition? || known.value.Common?))) || t == N_WARNING then
      Choice(t, sym.value, true, false)
    else if IsStab(t) then Choice(t, sym.value, false, false)
    else if known.None? then
      Choice(t, if SetSection(f, t).Some? then SetSection(f, t).value.Moved(sym.value) else 0, false, IsIndirect(t))
    else
      match known.value
      case Definition(value, section, out, weak) =>
        Choice(DefinedType(t, out, weak), value + section.Out(), false, IsIndirect(t))
      case Common(size) => Choice(t, size, false, IsIndirect(t))
      case UndefWeak => Choice(N_WEAKU, 0, false, IsIndirect(t))
      case _ => Choice(t, 0, false, IsIndirect(t))
  }

  predicate Strips(opts: Options, t: bv8, name: Name) {
    match opts.strip
    case StripNone => false
    case StripDebugger => IsStab(t)
    case StripSome => name !in opts.keep
    case StripAll => true
  }

  predicate DiscardsLocal(opts: Options, t: bv8, name: Name) {
    !IsSet(t) && (opts.discard == DiscardAll || (opts.discard == DiscardL && !IsStab(t) && name in opts.localLabels))
  }

  // ----- header files

  /** A char is signed. */
  function Signed(c: byte): int {
    if c < 128 then c else c - 256
  }

  /** Past any digits. */
  function PastDigits(s: Name, i: nat): (j: nat)
    requires i <= |s|
    ensures i <= j <= |s|
    decreases |s| - i
  {
    if i < |s| && IsDigit(s[i]) then PastDigits(s, i + 1) else i
  }

  /** The sum of the characters of a stab, without the file number after a parenthesis. */
  function StabSum(s: Name, i: nat): int
    requires i <= |s|
    decreases |s| - i
  {
    if i == |s| then 0
    else Signed(s[i]) + StabSum(s, if s[i] == 40 then PastDigits(s, i + 1) else i + 1)
  }

  /** The sum over the stabs of a header file from the i-th symbol on, leaving out header
      files that it includes. */
  function Total(syms: seq<Sym>, i: nat, nest: nat): int
    requires i <= |syms|
    decreases |syms| - i
  {
    if i == |syms| then 0
    else if syms[i].etype == N_EINCL then (if nest == 0 then 0 else Total(syms, i + 1, nest - 1))
    else if syms[i].etype == N_BINCL then Total(syms, i + 1, nest + 1)
    else (if nest == 0 then StabSum(syms[i].name, 0) else 0) + Total(syms, i + 1, nest)
  }

  /** Marks the symbols of a header file that is there already. */
  function Mark(syms: seq<Sym>, map_: seq<int>, i: nat, nest: nat): (m: seq<int>)
    requires i <= |syms| == |map_|
    ensures |m| == |map_|
    decreases |syms| - i
  {
    if i == |syms| then map_
    else if syms[i].etype == N_EINCL then (if nest == 0 then map_[i := -1] else Mark(syms, map_, i + 1, nest - 1))
    else if syms[i].etype == N_BINCL then Mark(syms, map_, i + 1, nest + 1)
    else Mark(syms, if nest == 0 then map_[i := -1] else map_, i + 1, nest)
  }

  // ----- one symbol

  predicate PassOk(f: File, s: Pass) {
    && |f.syms| == |f.hashes| == |s.hashes| == |s.map_|
    && LinksOk(s.link.table)
    && forall j :: 0 <= j < |s.hashes| && s.hashes[j].Some? ==> s.hashes[j].value < |s.link.table|
  }

  /** Copies a symbol to the output. */
  function Emit(s: Pass, i: nat, r: Record): Pass
    requires i < |s.map_|
  {
    s.(link := s.link.(records := s.link.records + [r]), map_ := s.map_[i := |s.link.records|])
  }

  /** A symbol that is to be written starts a header file: the first of its kind is
      remembered, any other becomes a reference to it. */
  function Include(f: File, s: Pass, i: nat, r: Record): Pass
    requires PassOk(f, s) && i < |f.syms|
  {
    var total := Total(f.syms, i + 1, 0);
    if (r.name, total) in s.link.includes then
      Emit(s.(map_ := Mark(f.syms, s.map_, i + 1, 0)), i, r.(etype := N_EXCL, value := total % WORD))
    else
      Emit(s.(link := s.link.(includes := s.link.includes + [(r.name, total)])), i, r.(value := total % WORD))
  }

  /** The name in the output is that of the hash entry, which may have been wrapped. */
  function NameOf(s: Pass, i: nat, sym: Sym): Name
    requires i < |s.hashes| && (s.hashes[i].Some? ==> s.hashes[i].value < |s.link.table|)
  {
    if s.hashes[i].Some? && !s.link.table[s.hashes[i].value].kind.Warning? then s.link.table[s.hashes[i].value].name
       else sym.name
  }

  function Copy(f: File, s: Pass, i: nat, etype: bv8, name: Name, value: int, owner: Option<nat>): Pass
    requires PassOk(f, s) && i < |f.syms|
  {
    var sym := f.syms[i];
    var r := Record(name, etype, sym.other, sym.desc, value % WORD, owner);
    if etype == N_BINCL then Include(f, s, i, r) else Emit(s, i, r)
  }

  /** A symbol without a hash entry. */
  function StepLocal(opts: Options, f: File, s: Pass, i: nat): Pass
    requires PassOk(f, s) && i < |f.syms|
  {
    var sym := f.syms[i];
    var c := Choose(f, sym, None);
    if Strips(opts, sym.etype, sym.name) then s
    else if DiscardsLocal(opts, c.etype, sym.name) then s.(pass := false, skipNext := c.skipNext)
    else Copy(f, s.(pass := c.pass, skipNext := c.skipNext), i, c.etype, sym.name, c.value, None)
  }

  /** A symbol with a hash entry h that has not been written. */
  function StepGlobal(opts: Options, f: File, s: Pass, i: nat, h: nat): Pass
    requires PassOk(f, s) && i < |f.syms| && h < |s.link.table|
  {
    var sym, name, e := f.syms[i], NameOf(s, i, f.syms[i]), s.link.table[h];
    if Strips(opts, sym.etype, name) then s.(link := s.link.(table := s.link.table[h := e.(written := true)]))
    else
      var c := Choose(f, sym, Some(s.link.table[Base(s.link.table, h)].kind));
      var table := s.link.table[h := e.(written := true, indx := |s.link.records|)];
      Copy(f, s.(link := s.link.(table := table), pass := c.pass, skipNext := c.skipNext), i, c.etype, name, c.value,
           Some(h))
  }

  /** One turn of the loop. */
  function Step(opts: Options, f: File, s: Pass, i: nat): Pass
    requires PassOk(f, s) && i < |f.syms|
  {
    if s.map_[i] == -1 then s
    else
      var s1, sym := s.(map_ := s.map_[i := -1]), f.syms[i];
      if s.pass then
        Emit(s1.(pass := false), i, Record(sym.name, sym.etype, sym.other, sym.desc, sym.value % WORD, None))
      else if s.skipNext then s1.(skipNext := false)
      else if s.hashes[i].None? then StepLocal(opts, f, s1, i)
      else
        var h := s.hashes[i].value;
        var s2 := s1.(hashes := s.hashes[i := Some(Base(s.link.table, h))]);
        if s.link.table[h].written then
          s2.(map_ := s2.map_[i := s.link.table[h].indx], skipNext := IsIndirect(sym.etype) || sym.etype == N_WARNING)
        else StepGlobal(opts, f, s1, i, h).(hashes := s2.hashes)
  }

  // ----- one file, and the whole link

  /** The symbol that says which file the following ones are from. */
  predicate NamesFile(opts: Options, f: File) {
    opts.strip != StripAll && (opts.strip != StripSome || f.name in opts.keep) && opts.discard != DiscardAll
  }

  function FileRecord(f: File): Record {
    Record(f.name, N_TEXT, 0, 0, (f.text.outVma + f.text.outOffset) % WORD, None)
  }

  predicate FileOk(f: File, table: seq<Entry>) {
    && |f.syms| == |f.hashes|
    && LinksOk(table)
    && forall j :: 0 <= j < |f.hashes| && f.hashes[j].Some? ==> f.hashes[j].value < |table|
  }

  function Start(opts: Options, f: File, l: Link): (s: Pass)
    requires FileOk(f, l.table)
    ensures PassOk(f, s)
  {
    var l' := if NamesFile(opts, f) then l.(records := l.records + [FileRecord(f)]) else l;
    Pass(l', f.hashes, seq(|f.syms|, _ => 0), false, false)
  }
}
