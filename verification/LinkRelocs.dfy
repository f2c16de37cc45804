/** Extended a.out relocs: rewriting them for "ld -r", resolving them in a full link, and
    when doing the one and then the other comes to the same as resolving at once. */
module LinkRelocs {
  import opened Bytes
  import opened Wrappers
  import opened LinkPlaces

  // ----- the data

  /** reloc_ext_external, its fields as GET_SWORD and the shifts extract them. */
  datatype ExtReloc = ExtReloc(address: int, index: nat, external: bool, rtype: nat, addend: int)

  /** What a link hash entry says about a global symbol while relocs are processed. */
  datatype Target = Defined(value: int, section: Place, out: Sec) | WeakUndefined | Undefined

  /** A symbol table entry: the section its type names, if it is one of the four. */
  datatype Nlist = Nlist(section: Option<Sec>, value: int)

  /** One input section being linked, with everything its relocs are looked up in.  `map`
      is the symbol map; `forced` has the numbers of the records written on demand. */
  datatype Input = Input(self: Place, text: Place, data: Place, bss: Place,
                         hashes: seq<Option<Target>>, symbols: seq<Nlist>, map_: seq<int>, forced: seq<int>)
  {
    function Of(s: Sec): Place {
      match s
      case Text => text
      case Data => data
      case Bss => bss
      case Abs => ABSOLUTE
    }

    predicate Valid() {
      |hashes| == |symbols| == |map_| == |forced|
    }
  }

  const TABLE_SIZE: nat := 27
  const INDEX_LIMIT: nat := 0x100_0000

  predicate PcRelative(t: nat) {
    3 <= t <= 7 || 17 <= t <= 19
  }

  predicate PcrelOffset(t: nat) {
    t in {17, 18, 24, 25}
  }

  predicate BaseRelative(t: nat) {
    14 <= t <= 16
  }

  /** aout_reloc_index_to_section; it aborts on anything else. */
  function SectionOf(index: nat): Option<Sec> {
    var code := index / 2 % 16;
    if code == 2 then Some(Text) else if code == 3 then Some(Data) else if code == 4 then Some(Bss)
    else if code == 1 || code == 0 then Some(Abs) else None
  }

  function IndexOf(s: Sec): nat {
    match s
    case Text => 4
    case Data => 6
    case Bss => 8
    case Abs => 2
  }

  predicate SignedWord(x: int) {
    -0x8000_0000 <= x < 0x8000_0000
  }

  /** What GET_SWORD reads after PUT_WORD has stored a number. */
  function Stored(x: int): (s: int)
    ensures SignedWord(s)
    ensures SignedWord(x) ==> s == x
  {
    (x + 0x8000_0000) % WORD - 0x8000_0000
  }

  lemma StoredWraps(x: int) returns (k: int)
    ensures Stored(x) == x + WORD * k
  {
    k := -((x + 0x8000_0000) / WORD);
  }

  /** PUT_WORD (x + y), read back. */
  function Sum(x: int, y: int): int {
    Stored(x + y)
  }

  // ----- the two ways to process a reloc

  /** Whether the symbol of an external reloc is known while linking. */
  predicate IsDefined(h: Option<Target>) {
    h.Some? && h.value.Defined?
  }

  /** The index of the symbol in the output: from the map, or of a record forced out for
      a global symbol, or 0 when the symbol is gone for good. */
  function NewIndex(inp: Input, i: nat, base: bool): int
    requires inp.Valid() && i < |inp.map_|
  {
    if inp.map_[i] != -1 then inp.map_[i] else if !base && inp.hashes[i].Some? then inp.forced[i] else 0
  }

  predicate IndexOk(inp: Input, r: ExtReloc) {
    (r.external || BaseRelative(r.rtype)) ==> r.index < |inp.symbols|
  }

  /** What is taken off an addend that counts from its place in the section. */
  function SourceMove(inp: Input, r: ExtReloc): int {
    if PcRelative(r.rtype) && !PcrelOffset(r.rtype) then inp.self.Move() else 0
  }

  /** How a relocatable link changes the addend; None for a section it cannot tell. */
  function Adjustment(inp: Input, r: ExtReloc): Option<int>
    requires inp.Valid() && IndexOk(inp, r)
  {
    if r.external && !BaseRelative(r.rtype) && IsDefined(inp.hashes[r.index]) then
      var h := inp.hashes[r.index].value;
      Some(h.value + h.section.Out() - SourceMove(inp, r))
    else if r.external || BaseRelative(r.rtype) then Some(-SourceMove(inp, r))
    else if SectionOf(r.index).None? then None
    else Some(inp.Of(SectionOf(r.index).value).Move() - SourceMove(inp, r))
  }

  /** What the reloc refers to in the output: a section for a symbol that is known. */
  function NewReferent(inp: Input, r: ExtReloc): (bool, nat)
    requires inp.Valid() && IndexOk(inp, r)
  {
    if r.external && !BaseRelative(r.rtype)
       && IsDefined(inp.hashes[r.index]) then (false, IndexOf(inp.hashes[r.index].value.out))
    else if r.external
      || BaseRelative(r.rtype) then (r.external, NewIndex(inp, r.index, BaseRelative(r.rtype)) % INDEX_LIMIT)
    else (false, r.index)
  }

  /** The reloc as a relocatable link writes it out; None for an unknown type or section. */
  function Rewrite(inp: Input, r: ExtReloc): Option<ExtReloc>
    requires inp.Valid() && IndexOk(inp, r)
  {
    if r.rtype >= TABLE_SIZE || Adjustment(inp, r).None? then None
    else Some(ExtReloc(Sum(r.address, inp.self.outOffset), NewReferent(inp, r).1, NewReferent(inp, r).0, r.rtype,
                       Sum(r.addend, Adjustment(inp, r).value)))
  }

  /** The final address of a symbol; nothing known means address 0. */
  function AddressOf(h: Option<Target>): int {
    if IsDefined(h) then h.value.value + h.value.section.Out() else 0
  }

  /** Whether the linker complains about the symbol. */
  predicate Complains(h: Option<Target>) {
    h.None? || h.value.Undefined?
  }

  /** What a full link does to the contents: at an address of the output, a value is put
      into the field that the type describes. */
  datatype Patch = Patch(address: int, value: int, rtype: nat, undefined: bool)

  /** The relocation passed to _bfd_final_link_relocate. */
  function Relocation(inp: Input, r: ExtReloc): Option<int>
    requires inp.Valid() && IndexOk(inp, r)
  {
    if r.external then Some(AddressOf(inp.hashes[r.index]))
    else if BaseRelative(r.rtype) then
      var sym := inp.symbols[r.index];
      if sym.section.None? then None
      else Some(inp.Of(sym.section.value).Out() + (sym.value - inp.Of(sym.section.value).vma))
    else if SectionOf(r.index).None? then None
    else Some(inp.Of(SectionOf(r.index).value).Move() + if PcRelative(r.rtype) then inp.self.vma else 0)
  }

  /** The value _bfd_final_link_relocate computes before it shifts and masks. */
  function PreShift(inp: Input, r: ExtReloc, relocation: int): int {
    relocation + r.addend
    - (if PcRelative(r.rtype) then inp.self.Out() + (if PcrelOffset(r.rtype) then r.address else 0) else 0)
  }

  function Resolve(inp: Input, r: ExtReloc): Option<Patch>
    requires inp.Valid() && IndexOk(inp, r)
  {
    if r.rtype >= TABLE_SIZE || Relocation(inp, r).None? then None
    else Some(Patch(inp.self.Out() + r.address, PreShift(inp, r, Relocation(inp, r).value), r.rtype,
                    r.external && !BaseRelative(r.rtype) && Complains(inp.hashes[r.index])))
  }

  // ----- one link and two links

  predicate Same(a: int, b: int) {
    (a - b) % WORD == 0
  }

  predicate SamePatch(a: Patch, b: Patch) {
    Same(a.address, b.address) && Same(a.value, b.value) && a.rtype == b.rtype && a.undefined == b.undefined
  }

  /** A section of the intermediate file ends up where the direct link puts its parts. */
  predicate SamePlace(direct: Place, partial: Place, final: Place) {
    && direct.vma == partial.vma
    && final.vma == partial.outVma
    && final.Out() + partial.outOffset == direct.Out()
  }

  /** The i-th symbol means the same to the direct link as what became of it means to the
      final one.  If the partial link knew it, relocs against it have become relocs against
      a section; otherwise it has a record in the intermediate file. */
  predicate SameSymbol(d: Input, p: Input, q: Input, i: nat)
    requires d.Valid() && p.Valid() && q.Valid() && i < |d.symbols| == |p.symbols|
  {
    if IsDefined(p.hashes[i]) then
      && IsDefined(d.hashes[i])
      && Same(AddressOf(d.hashes[i]), q.Of(p.hashes[i].value.out).Move() + AddressOf(p.hashes[i]))
    else
      && 0 <= NewIndex(p, i, false) < |q.symbols|
      && Same(AddressOf(d.hashes[i]), AddressOf(q.hashes[NewIndex(p, i, false)]))
      && Complains(d.hashes[i]) == Complains(q.hashes[NewIndex(p, i, false)])
  }

  /** The i-th symbol, which a base-relative reloc refers to, has a number.  By name it
      resolves alike; an internal reloc reads its record instead, which should be a copy
      with the value moved along with the section. */
  predicate SameBase(d: Input, p: Input, q: Input, i: nat, external: bool)
    requires d.Valid() && p.Valid() && q.Valid() && i < |d.symbols| == |p.symbols|
  {
    && 0 <= NewIndex(p, i, true) < |q.symbols|
    && var n := NewIndex(p, i, true);
       if external then Same(AddressOf(d.hashes[i]), AddressOf(q.hashes[n]))
       else
         && q.symbols[n].section == d.symbols[i].section
         && (d.symbols[i].section.Some? ==>
             Same(q.symbols[n].value, p.Of(d.symbols[i].section.value).Move() + d.symbols[i].value))
  }

  /** d links a file directly, p partially, and q links what p made of it. */
  predicate Consistent(d: Input, p: Input, q: Input) {
    && d.Valid() && p.Valid() && q.Valid()
    && |d.symbols| == |p.symbols| && |q.symbols| <= INDEX_LIMIT
    && SamePlace(d.self, p.self, q.self)
    && SamePlace(d.text, p.text, q.text) && SamePlace(d.data, p.data, q.data) && SamePlace(d.bss, p.bss, q.bss)
  }

  /** The symbol of this reloc, if it has one, is carried over. */
  predicate Carried(d: Input, p: Input, q: Input, r: ExtReloc)
    requires Consistent(d, p, q)
  {
    && IndexOk(d, r)
    && (BaseRelative(r.rtype) ==> SameBase(d, p, q, r.index, r.external))
    && (r.external && !BaseRelative(r.rtype) ==> SameSymbol(d, p, q, r.index))
  }

  /** When the second link gives the right value: always, unless the reloc is relative to
      its own address and something was computed with another one. */
  predicate Survives(p: Input, r: ExtReloc)
    requires p.Valid() && IndexOk(p, r)
  {
    if !PcRelative(r.rtype) then true
    else if !r.external then PcrelOffset(r.rtype) ==> Same(p.self.outVma, p.self.vma)
    else if IsDefined(p.hashes[r.index]) then Same(if PcrelOffset(r.rtype) then p.self.outVma else p.self.vma, 0)
    else PcrelOffset(r.rtype) || Same(p.self.outVma, p.self.vma)
  }

  lemma {:induction false} SameWrapped(a: int, b: int, diff: int, k: int)
    requires a - b == diff + WORD * k
    ensures Same(a, b) <==> diff % WORD == 0
  {
    var q := diff / WORD;
    assert a - b == WORD * (q + k) + diff % WORD;
  }

  lemma SmallIndex(i: int, n: nat)
    requires 0 <= i < n <= INDEX_LIMIT
    ensures i % INDEX_LIMIT == i
  {
  }

  lemma IndexSection(s: Sec)
    ensures SectionOf(IndexOf(s)) == Some(s)
  {
  }

  lemma PlaceOf(d: Input, p: Input, q: Input, s: Sec)
    requires Consistent(d, p, q)
    ensures SamePlace(d.Of(s), p.Of(s), q.Of(s))
  {
  }

  /** The two patches go to the same address, and their values differ by `gap`, both up
      to whole words. */
  predicate Apart(a: Patch, b: Patch, gap: int, j: int, k: int) {
    a.address - b.address == WORD * j && a.value - b.value == gap + WORD * k && a.rtype == b.rtype
      && a.undefined == b.undefined
  }

  lemma ApartCompare(a: Patch, b: Patch, gap: int, j: int, k: int)
    requires Apart(a, b, gap, j, k)
    ensures SamePatch(a, b) <==> gap % WORD == 0
  {
    SameWrapped(a.address, b.address, 0, j);
    SameWrapped(a.value, b.value, gap, k);
  }

  /** How far a twice-linked value is off. */
  function Gap(p: Input, r: ExtReloc): int
    requires p.Valid() && IndexOk(p, r)
  {
    if !PcRelative(r.rtype) then 0
    else if !r.external then (if PcrelOffset(r.rtype) then p.self.vma - p.self.outVma else 0)
    else if IsDefined(p.hashes[r.index]) then (if PcrelOffset(r.rtype) then -p.self.outVma else -p.self.vma)
    else if PcrelOffset(r.rtype) then 0 else p.self.outVma - p.self.vma
  }

  lemma NegativeMultiple(x: int)
    ensures (-x) % WORD == 0 <==> x % WORD == 0
  {
    var q, q' := x / WORD, (-x) / WORD;
  }

  lemma GapSurvives(p: Input, r: ExtReloc)
    requires p.Valid() && IndexOk(p, r)
    ensures Gap(p, r) % WORD == 0 <==> Survives(p, r)
  {
    NegativeMultiple(p.self.outVma - p.self.vma);
    NegativeMultiple(p.self.outVma);
    NegativeMultiple(p.self.vma);
  }

  /** r' is what becomes of r, if its addend is changed by adj: nothing but whole words
      is lost. */
  predicate Became(p: Input, r: ExtReloc, external: bool, index: nat, adj: int, j: int, k: int)
    requires p.Valid() && IndexOk(p, r)
  {
    && Rewrite(p, r).Some?
    && var r' := Rewrite(p, r).value;
       && r'.address == r.address + p.self.outOffset + WORD * j
       && r'.index == index && r'.external == external && r'.rtype == r.rtype
       && r'.addend == r.addend + adj + WORD * k
  }

  lemma RewriteFields(p: Input, r: ExtReloc, external: bool, index: nat, adj: int)
    requires p.Valid() && IndexOk(p, r) && r.rtype < TABLE_SIZE
    requires NewReferent(p, r) == (external, index) && Adjustment(p, r) == Some(adj)
    ensures Rewrite(p, r).Some?
    ensures Rewrite(p, r).value.address == Sum(r.address, p.self.outOffset)
    ensures Rewrite(p, r).value.addend == Sum(r.addend, adj)
    ensures Rewrite(p, r).value.external == external && Rewrite(p, r).value.index == index
    ensures Rewrite(p, r).value.rtype == r.rtype
  {
  }

  lemma SumWraps(x: int, y: int) returns (k: int)
    ensures Sum(x, y) == x + y + WORD * k
  {
    k := StoredWraps(x + y);
  }

  lemma Rewrites(p: Input, r: ExtReloc, external: bool, index: nat, adj: int) returns (j: int, k: int)
    requires p.Valid() && IndexOk(p, r) && r.rtype < TABLE_SIZE
    requires NewReferent(p, r) == (external, index) && Adjustment(p, r) == Some(adj)
    ensures Became(p, r, external, index, adj, j, k)
  {
    RewriteFields(p, r, external, index, adj);
    j := SumWraps(r.address, p.self.outOffset);
    k := SumWraps(r.addend, adj);
  }

  lemma SectionReferent(p: Input, r: ExtReloc, s: Sec)
    requires p.Valid() && !r.external && !BaseRelative(r.rtype) && SectionOf(r.index) == Some(s)
    ensures IndexOk(p, r) && NewReferent(p, r) == (false, r.index)
    ensures Adjustment(p, r) == Some(p.Of(s).Move() - SourceMove(p, r))
  {
    hide SectionOf, SourceMove;
  }

  lemma SectionRewritten(p: Input, r: ExtReloc, s: Sec) returns (j: int, k: int)
    requires p.Valid() && !r.external && !BaseRelative(r.rtype) && r.rtype < TABLE_SIZE && SectionOf(r.index) == Some(s)
    ensures Became(p, r, false, r.index, p.Of(s).Move() - SourceMove(p, r), j, k)
  {
    hide *;
    SectionReferent(p, r, s);
    j, k := Rewrites(p, r, false, r.index, p.Of(s).Move() - SourceMove(p, r));
  }

  lemma DefinedRewritten(p: Input, r: ExtReloc, h: Target) returns (j: int, k: int)
    requires p.Valid() && r.external && !BaseRelative(r.rtype) && r.rtype < TABLE_SIZE
    requires r.index < |p.hashes| && p.hashes[r.index] == Some(h) && h.Defined?
    ensures Became(p, r, false, IndexOf(h.out), h.value + h.section.Out() - SourceMove(p, r), j, k)
  {
    j, k := Rewrites(p, r, false, IndexOf(h.out), h.value + h.section.Out() - SourceMove(p, r));
  }

  lemma SymbolRewritten(p: Input, r: ExtReloc, n: nat) returns (j: int, k: int)
    requires p.Valid() && r.rtype < TABLE_SIZE && r.index < |p.hashes|
    requires 0 <= NewIndex(p, r.index, BaseRelative(r.rtype)) < n <= INDEX_LIMIT
    requires BaseRelative(r.rtype) || (r.external && !IsDefined(p.hashes[r.index]))
    ensures Became(p, r, r.external, NewIndex(p, r.index, BaseRelative(r.rtype)), -SourceMove(p, r), j, k)
  {
    SmallIndex(NewIndex(p, r.index, BaseRelative(r.rtype)), n);
    j, k := Rewrites(p, r, r.external, NewIndex(p, r.index, BaseRelative(r.rtype)), -SourceMove(p, r));
  }

  /** Two full links of one reloc and of what became of it, when the relocations passed on
      differ in a known way. */
  lemma PatchesApart(d: Input, p: Input, q: Input, r: ExtReloc, r': ExtReloc, v: int, w: int, add: int, gap: int,
                     j: int, k: int)
    requires d.Valid() && p.Valid() && q.Valid() && IndexOk(d, r) && IndexOk(q, r') && SamePlace(d.self, p.self, q.self)
    requires r.rtype == r'.rtype < TABLE_SIZE && Relocation(d, r) == Some(v) && Relocation(q, r') == Some(w)
    requires r'.address == r.address + p.self.outOffset + WORD * j
    requires r'.addend == r.addend + add - SourceMove(p, r) + WORD * k
    requires gap == v - w - add
             + (if PcRelative(r.rtype) then (if PcrelOffset(r.rtype) then 0 else p.self.outVma - p.self.vma) else 0)
    requires (r.external && !BaseRelative(r.rtype) && Complains(d.hashes[r.index]))
             == (r'.external && !BaseRelative(r.rtype) && Complains(q.hashes[r'.index]))
    ensures Resolve(d, r).Some? && Resolve(q, r').Some?
    ensures Apart(Resolve(d, r).value, Resolve(q, r').value, gap, -j,
                  (if PcRelative(r.rtype) && PcrelOffset(r.rtype) then j else 0) - k)
  {
  }

  lemma SameBy(a: int, b: int) returns (x: int)
    requires Same(a, b)
    ensures a - b == WORD * x
  {
    x := (a - b) / WORD;
  }

  /** Whole words do not matter. */
  lemma ApartWords(a: Patch, b: Patch, gap: int, x: int, j: int, k: int)
    requires Apart(a, b, gap + WORD * x, j, k)
    ensures Apart(a, b, gap, j, k + x)
  {
  }

  /** A reloc against a section. */
  lemma SectionReloc(d: Input, p: Input, q: Input, r: ExtReloc) returns (j: int, k: int)
    requires Consistent(d, p, q) && !r.external && !BaseRelative(r.rtype) && r.rtype < TABLE_SIZE
    requires SectionOf(r.index).Some?
    ensures Rewrite(p, r).Some? && IndexOk(q, Rewrite(p, r).value)
    ensures Resolve(d, r).Some? && Resolve(q, Rewrite(p, r).value).Some?
    ensures Apart(Resolve(d, r).value, Resolve(q, Rewrite(p, r).value).value, Gap(p, r), j, k)
  {
    var s := SectionOf(r.index).value;
    PlaceOf(d, p, q, s);
    j, k := SectionRewritten(p, r, s);
    var r' := Rewrite(p, r).value;
    PatchesApart(d, p, q, r, r', Relocation(d, r).value, Relocation(q, r').value, p.Of(s).Move(), Gap(p, r), j, k);
    j, k := -j, (if PcRelative(r.rtype) && PcrelOffset(r.rtype) then j else 0) - k;
  }

  /** A reloc against a symbol the partial link already knows. */
  lemma DefinedReloc(d: Input, p: Input, q: Input, r: ExtReloc) returns (j: int, k: int)
    requires Consistent(d, p, q) && r.external && !BaseRelative(r.rtype) && r.rtype < TABLE_SIZE
    requires r.index < |d.symbols| && SameSymbol(d, p, q, r.index) && IsDefined(p.hashes[r.index])
    ensures Rewrite(p, r).Some? && IndexOk(q, Rewrite(p, r).value)
    ensures Resolve(d, r).Some? && Resolve(q, Rewrite(p, r).value).Some?
    ensures Apart(Resolve(d, r).value, Resolve(q, Rewrite(p, r).value).value, Gap(p, r), j, k)
  {
    var h := p.hashes[r.index].value;
    IndexSection(h.out);
    j, k := DefinedRewritten(p, r, h);
    var r' := Rewrite(p, r).value;
    var x := SameBy(AddressOf(d.hashes[r.index]), q.Of(h.out).Move() + AddressOf(p.hashes[r.index]));
    PatchesApart(d, p, q, r, r', Relocation(d, r).value, Relocation(q, r').value, h.value + h.section.Out(),
                 Gap(p, r) + WORD * x, j, k);
    j, k := -j, (if PcRelative(r.rtype) && PcrelOffset(r.rtype) then j else 0) - k;
    ApartWords(Resolve(d, r).value, Resolve(q, r').value, Gap(p, r), x, j, k);
    k := k + x;
  }

  /** A reloc against a symbol that stays a symbol. */
  lemma SymbolReloc(d: Input, p: Input, q: Input, r: ExtReloc) returns (j: int, k: int)
    requires Consistent(d, p, q) && r.external && !BaseRelative(r.rtype) && r.rtype < TABLE_SIZE
    requires r.index < |d.symbols| && SameSymbol(d, p, q, r.index) && !IsDefined(p.hashes[r.index])
    ensures Rewrite(p, r).Some? && IndexOk(q, Rewrite(p, r).value)
    ensures Resolve(d, r).Some? && Resolve(q, Rewrite(p, r).value).Some?
    ensures Apart(Resolve(d, r).value, Resolve(q, Rewrite(p, r).value).value, Gap(p, r), j, k)
  {
    j, k := SymbolRewritten(p, r, |q.symbols|);
    var r' := Rewrite(p, r).value;
    var x := SameBy(AddressOf(d.hashes[r.index]), AddressOf(q.hashes[r'.index]));
    PatchesApart(d, p, q, r, r', Relocation(d, r).value, Relocation(q, r').value, 0, Gap(p, r) + WORD * x, j, k);
    j, k := -j, (if PcRelative(r.rtype) && PcrelOffset(r.rtype) then j else 0) - k;
    ApartWords(Resolve(d, r).value, Resolve(q, r').value, Gap(p, r), x, j, k);
    k := k + x;
  }

  /** A base-relative reloc, whose index is a symbol's even when it is not external. */
  lemma BaseReloc(d: Input, p: Input, q: Input, r: ExtReloc) returns (j: int, k: int)
    requires Consistent(d, p, q) && BaseRelative(r.rtype)
    requires r.index < |d.symbols| && SameBase(d, p, q, r.index, r.external) && Resolve(d, r).Some?
    ensures Rewrite(p, r).Some? && IndexOk(q, Rewrite(p, r).value)
    ensures Resolve(q, Rewrite(p, r).value).Some?
    ensures Apart(Resolve(d, r).value, Resolve(q, Rewrite(p, r).value).value, 0, j, k)
  {
    j, k := SymbolRewritten(p, r, |q.symbols|);
    var r' := Rewrite(p, r).value;
    if !r.external {
      PlaceOf(d, p, q, d.symbols[r.index].section.value);
    }
    var v, w := Relocation(d, r).value, Relocation(q, r').value;
    var x := BaseApart(d, p, q, r, r', v, w);
    PatchesApart(d, p, q, r, r', v, w, 0, WORD * x, j, k);
    j, k := -j, -k;
    ApartWords(Resolve(d, r).value, Resolve(q, r').value, 0, x, j, k);
    k := k + x;
  }

  lemma BaseApart(d: Input, p: Input, q: Input, r: ExtReloc, r': ExtReloc, v: int, w: int) returns (x: int)
    requires Consistent(d, p, q) && BaseRelative(r.rtype) && r.index < |d.symbols|
    requires SameBase(d, p, q, r.index, r.external)
    requires r'.external == r.external && r'.rtype == r.rtype && r'.index == NewIndex(p, r.index, true)
    requires Relocation(d, r) == Some(v) && Relocation(q, r') == Some(w)
    ensures v - w == WORD * x
  {
    if r.external {
      x := SameBy(v, w);
    } else {
      var s := d.symbols[r.index].section.value;
      PlaceOf(d, p, q, s);
      x := SameBy(q.symbols[r'.index].value, p.Of(s).Move() + d.symbols[r.index].value);
      x := -x;
    }
  }

  /** One reloc: linking twice patches the same place with the same value, up to the word
      size, exactly when the reloc survives. */
  lemma TwoLinksOneReloc(d: Input, p: Input, q: Input, r: ExtReloc)
    requires Consistent(d, p, q) && Carried(d, p, q, r) && Resolve(d, r).Some?
    ensures Rewrite(p, r).Some? && IndexOk(q, Rewrite(p, r).value)
    ensures Resolve(q, Rewrite(p, r).value).Some?
    ensures SamePatch(Resolve(d, r).value, Resolve(q, Rewrite(p, r).value).value) <==> Survives(p, r)
  {
    var j, k, gap := 0, 0, Gap(p, r);
    if BaseRelative(r.rtype) {
      j, k := BaseReloc(d, p, q, r);
    } else if !r.external {
      j, k := SectionReloc(d, p, q, r);
    } else if IsDefined(p.hashes[r.index]) {
      j, k := DefinedReloc(d, p, q, r);
    } else {
      j, k := SymbolReloc(d, p, q, r);
    }
    ApartCompare(Resolve(d, r).value, Resolve(q, Rewrite(p, r).value).value, gap, j, k);
    GapSurvives(p, r);
  }

  // ----- the relocs of a section

  predicate IndicesOk(inp: Input, rs: seq<ExtReloc>) {
    forall k :: 0 <= k < |rs| ==> IndexOk(inp, rs[k])
  }

  predicate CanRewrite(inp: Input, rs: seq<ExtReloc>)
    requires inp.Valid() && IndicesOk(inp, rs)
  {
    forall k :: 0 <= k < |rs| ==> Rewrite(inp, rs[k]).Some?
  }

  function Rewritten(inp: Input, rs: seq<ExtReloc>): (out: seq<ExtReloc>)
    requires inp.Valid() && IndicesOk(inp, rs) && CanRewrite(inp, rs)
    ensures |out| == |rs|
  {
    seq(|rs|, k requires 0 <= k < |rs| => Rewrite(inp, rs[k]).value)
  }

  predicate CanResolve(inp: Input, rs: seq<ExtReloc>)
    requires inp.Valid() && IndicesOk(inp, rs)
  {
    forall k :: 0 <= k < |rs| ==> Resolve(inp, rs[k]).Some?
  }

  function Patches(inp: Input, rs: seq<ExtReloc>): (ps: seq<Patch>)
    requires inp.Valid() && IndicesOk(inp, rs) && CanResolve(inp, rs)
    ensures |ps| == |rs|
  {
    seq(|rs|, k requires 0 <= k < |rs| => Resolve(inp, rs[k]).value)
  }

  predicate SamePatches(ps: seq<Patch>, qs: seq<Patch>) {
    |ps| == |qs| && forall k :: 0 <= k < |ps| ==> SamePatch(ps[k], qs[k])
  }

  predicate AllSurvive(p: Input, rs: seq<ExtReloc>)
    requires p.Valid() && IndicesOk(p, rs)
  {
    forall k :: 0 <= k < |rs| ==> Survives(p, rs[k])
  }

  predicate AllCarried(d: Input, p: Input, q: Input, rs: seq<ExtReloc>)
    requires Consistent(d, p, q)
  {
    forall k :: 0 <= k < |rs| ==> Carried(d, p, q, rs[k])
  }

  /** A partial link followed by a full one patches the same bytes with the same values as
      one full link exactly when every reloc survives, for any list of relocs. */
  lemma TwoLinksAgreeIff(d: Input, p: Input, q: Input, rs: seq<ExtReloc>)
    requires Consistent(d, p, q) && AllCarried(d, p, q, rs) && IndicesOk(d, rs) && CanResolve(d, rs)
    ensures IndicesOk(p, rs) && CanRewrite(p, rs)
    ensures IndicesOk(q, Rewritten(p, rs)) && CanResolve(q, Rewritten(p, rs))
    ensures SamePatches(Patches(d, rs), Patches(q, Rewritten(p, rs))) <==> AllSurvive(p, rs)
  {
    forall k | 0 <= k < |rs|
      ensures Rewrite(p, rs[k]).Some? && IndexOk(q, Rewrite(p, rs[k]).value)
      ensures Resolve(q, Rewrite(p, rs[k]).value).Some?
      ensures SamePatch(Resolve(d, rs[k]).value, Resolve(q, Rewrite(p, rs[k]).value).value) <==> Survives(p, rs[k])
    {
      assert Carried(d, p, q, rs[k]);
      TwoLinksOneReloc(d, p, q, rs[k]);
    }
    var rs' := Rewritten(p, rs);
    assert forall k :: 0 <= k < |rs| ==> rs'[k] == Rewrite(p, rs[k]).value;
    var ps, qs := Patches(d, rs), Patches(q, rs');
    assert forall k :: 0 <= k < |rs| ==> (SamePatch(ps[k], qs[k]) <==> Survives(p, rs[k]));
  }

  /** A section whose vma is 0 before and after the partial link loses nothing at all. */
  lemma ZeroBasedSectionsSurvive(p: Input, rs: seq<ExtReloc>)
    requires p.Valid() && IndicesOk(p, rs) && p.self.vma == 0 && p.self.outVma == 0
    ensures AllSurvive(p, rs)
  {
  }

  predicate Still(s: Place) {
    s.outVma == s.vma && s.outOffset == 0
  }

  /** A link that leaves everything where it is, of a section at `vma`, and a symbol that
      is defined in the text. */
  predicate StillCall(d: Input, vma: int) {
    && d.Valid() && 0 < |d.symbols| <= INDEX_LIMIT
    && Still(d.self) && Still(d.text) && Still(d.data) && Still(d.bss) && d.self.vma == vma
    && d.hashes[0].Some? && d.hashes[0].value.Defined? && d.hashes[0].value.out == Text
       && d.hashes[0].value.section == d.text
  }

  /** A call of that symbol, of a type that does not count from the place of the reloc.
      Even if all three links leave everything where it is, linking twice gives a different
      value, unless the section with the call starts at 0: for data behind any text it
      does not. */
  lemma StillLinksAgreeIff(d: Input, vma: int, r: ExtReloc)
    requires StillCall(d, vma) && r.external && r.index == 0 && r.rtype == 5
    ensures Consistent(d, d, d) && Carried(d, d, d, r) && Resolve(d, r).Some?
    ensures Rewrite(d, r).Some? && IndexOk(d, Rewrite(d, r).value) && Resolve(d, Rewrite(d, r).value).Some?
    ensures SamePatch(Resolve(d, r).value, Resolve(d, Rewrite(d, r).value).value) <==> vma % WORD == 0
  {
    hide Rewrite, SamePatch;
    TwoLinksOneReloc(d, d, d, r);
  }

  /** There are such links, with data at 0x20. */
  lemma StillCallExists() returns (d: Input)
    ensures StillCall(d, 0x20) && 0x20 % WORD != 0
  {
    var data := Place(0x20, 0x20, 0);
    d := Input(data, Place(0, 0, 0), data, Place(0x30, 0x30, 0), [Some(Defined(8, Place(0, 0, 0), Text))],
               [Nlist(Some(Text), 8)], [0], [0]);
  }

  // ----- the loop of aout_link_input_section_ext

  /** The new referent of a reloc against a symbol, and what its value adds. */
  method Retarget(inp: Input, r: ExtReloc) returns (external: bool, index: nat, relocation: int)
    requires inp.Valid() && IndexOk(inp, r) && (r.external || BaseRelative(r.rtype))
    ensures (external, index) == NewReferent(inp, r)
    ensures Adjustment(inp, r) == Some(relocation - SourceMove(inp, r))
  {
    var h := if BaseRelative(r.rtype) then None else inp.hashes[r.index];
    if h.Some? && h.value.Defined? {
      external, index := false, IndexOf(h.value.out);
      relocation := h.value.value + h.value.section.outVma + h.value.section.outOffset;
    } else {
      var newIndex := inp.map_[r.index];
      if newIndex == -1 {
        newIndex := if h.Some? then inp.forced[r.index] else 0;
      }
      external, index, relocation := r.external, newIndex % INDEX_LIMIT, 0;
    }
  }

  /** The change of the addend, before the source's own move is taken off. */
  method Retargeted(inp: Input, r: ExtReloc) returns (ok: bool, external: bool, index: nat, relocation: int)
    requires inp.Valid() && IndexOk(inp, r)
    ensures ok == Adjustment(inp, r).Some?
    ensures ok ==>
              (external, index) == NewReferent(inp, r) && relocation - SourceMove(inp, r) == Adjustment(inp, r).value
  {
    ok, external, index, relocation := true, false, r.index, 0;
    if r.external || BaseRelative(r.rtype) {
      external, index, relocation := Retarget(inp, r);
    } else {
      var s := SectionOf(r.index);
      if s.None? {
        ok := false;
      } else {
        var section := inp.Of(s.value);
        relocation := section.outVma + section.outOffset - section.vma;
      }
    }
  }

  /** One turn of the loop in a relocatable link. */
  method RewriteOne(inp: Input, r: ExtReloc) returns (ok: bool, out: ExtReloc)
    requires inp.Valid() && IndexOk(inp, r) && SignedWord(r.addend)
    ensures ok == Rewrite(inp, r).Some?
    ensures ok ==> out == Rewrite(inp, r).value
  {
    if r.rtype >= TABLE_SIZE {
      return false, r;
    }
    var known, external, index, relocation := Retargeted(inp, r);
    if !known {
      return false, r;
    }
    if PcRelative(r.rtype) && !PcrelOffset(r.rtype) {
      relocation := relocation - (inp.self.outVma + inp.self.outOffset - inp.self.vma);
    }
    var addend := PutAddend(r.addend, relocation, Adjustment(inp, r).value);
    ok, out := true, ExtReloc(Sum(r.address, inp.self.outOffset), index, external, r.rtype, addend);
  }

  /** The addend is only written if it changes. */
  method PutAddend(addend: int, relocation: int, ghost adjustment: int) returns (word: int)
    requires SignedWord(addend) && relocation == adjustment
    ensures word == Sum(addend, adjustment)
  {
    if relocation != 0 {
      word := Sum(addend, relocation);
    } else {
      word := addend;
    }
  }

  // ----- what a full link patches in, told from the table of types and the places alone

  /** It is told what the reloc refers to: its type is one of the 27, and the section of an
      internal one is known by its index or by the type of the symbol. */
  predicate Tellable(inp: Input, r: ExtReloc)
    requires inp.Valid() && IndexOk(inp, r)
  {
    r.rtype < 27 && (r.external || if 14 <= r.rtype <= 16 then inp.symbols[r.index].section.Some?
                                   else r.index / 2 % 16 <= 4)
  }

  /** How far the section with this number moves; the absolute one does not. */
  function SectionMoves(inp: Input, number: nat): int {
    if number == 2 then inp.text.outVma + inp.text.outOffset - inp.text.vma
    else if number == 3 then inp.data.outVma + inp.data.outOffset - inp.data.vma
    else if number == 4 then inp.bss.outVma + inp.bss.outOffset - inp.bss.vma
    else 0
  }

  /** The address in the output of what the reloc refers to.  A symbol that nobody defines
      is at 0; a section's number stands for how far the section moves, and if the field
      counts from its place, for where the section that holds it started as well. */
  function ReferentAt(inp: Input, r: ExtReloc): int
    requires inp.Valid() && IndexOk(inp, r) && Tellable(inp, r)
  {
    if r.external then
      match inp.hashes[r.index]
      case Some(Defined(value, section, _)) => value + section.outVma + section.outOffset
      case _ => 0
    else if 14 <= r.rtype <= 16 then
      match inp.symbols[r.index]
      case Nlist(Some(Text), value) => value + SectionMoves(inp, 2)
      case Nlist(Some(Data), value) => value + SectionMoves(inp, 3)
      case Nlist(Some(Bss), value) => value + SectionMoves(inp, 4)
      case Nlist(_, value) => value
    else
      SectionMoves(inp, r.index / 2 % 16) + if 3 <= r.rtype <= 7 || 17 <= r.rtype <= 19 then inp.self.vma else 0
  }

  /** The address in the output that a field of this type counts from. */
  function CountsFrom(inp: Input, r: ExtReloc): int {
    if 17 <= r.rtype <= 18 then inp.self.outVma + inp.self.outOffset + r.address
    else if 3 <= r.rtype <= 7 || r.rtype == 19 then inp.self.outVma + inp.self.outOffset
    else 0
  }

  /** The patch goes to where the reloc's place has gone.  Counted from where its type counts,
      the value leads to the addend behind what the reloc refers to.  The linker complains
      about a symbol it does not find, or finds neither defined nor weak; never about one
      that a base-relative reloc names. */
  predicate Lands(inp: Input, r: ExtReloc, patch: Patch)
    requires inp.Valid() && IndexOk(inp, r) && Tellable(inp, r)
  {
    && patch.rtype == r.rtype && patch.address == inp.self.outVma + inp.self.outOffset + r.address
    && CountsFrom(inp, r) + patch.value == ReferentAt(inp, r) + r.addend
    && (patch.undefined <==> r.external && !(14 <= r.rtype <= 16)
                             && (inp.hashes[r.index].None? || inp.hashes[r.index].value.Undefined?))
  }

  lemma ExternalReaches(inp: Input, r: ExtReloc)
    requires inp.Valid() && IndexOk(inp, r) && r.rtype < 27 && r.external
    ensures Relocation(inp, r).Some? <==> Tellable(inp, r)
    ensures Tellable(inp, r) ==> Relocation(inp, r).value == ReferentAt(inp, r)
  {
  }

  lemma BaseReaches(inp: Input, r: ExtReloc)
    requires inp.Valid() && IndexOk(inp, r) && r.rtype < 27 && !r.external && BaseRelative(r.rtype)
    ensures Relocation(inp, r).Some? <==> Tellable(inp, r)
    ensures Tellable(inp, r) ==> Relocation(inp, r).value == ReferentAt(inp, r)
  {
  }

  lemma SectionReaches(inp: Input, r: ExtReloc)
    requires inp.Valid() && IndexOk(inp, r) && r.rtype < 27 && !r.external && !BaseRelative(r.rtype)
    ensures Relocation(inp, r).Some? <==> Tellable(inp, r)
    ensures Tellable(inp, r) ==> Relocation(inp, r).value == ReferentAt(inp, r)
  {
    NumberMoves(inp, r.index);
    hide SectionOf, SectionMoves;
  }

  lemma NumberMoves(inp: Input, index: nat)
    ensures SectionOf(index).Some? <==> index / 2 % 16 <= 4
    ensures SectionOf(index).Some? ==> inp.Of(SectionOf(index).value).Move() == SectionMoves(inp, index / 2 % 16)
  {
  }

  lemma RelocationReaches(inp: Input, r: ExtReloc)
    requires inp.Valid() && IndexOk(inp, r) && r.rtype < 27
    ensures Relocation(inp, r).Some? <==> Tellable(inp, r)
    ensures Tellable(inp, r) ==> Relocation(inp, r).value == ReferentAt(inp, r)
  {
    hide Relocation, Tellable, ReferentAt;
    if r.external {
      ExternalReaches(inp, r);
    } else if BaseRelative(r.rtype) {
      BaseReaches(inp, r);
    } else {
      SectionReaches(inp, r);
    }
  }

  /** The functions of the two links say the same. */
  lemma ResolveLands(inp: Input, r: ExtReloc)
    requires inp.Valid() && IndexOk(inp, r)
    ensures Resolve(inp, r).Some? <==> Tellable(inp, r)
    ensures Resolve(inp, r).Some? ==> Lands(inp, r, Resolve(inp, r).value)
  {
    assert Tellable(inp, r) ==> r.rtype < 27;
    hide Relocation, ReferentAt, Tellable;
    if r.rtype < 27 {
      RelocationReaches(inp, r);
    }
  }

  /** One turn of the loop in a full link. */
  method ResolveOne(inp: Input, r: ExtReloc) returns (ok: bool, patch: Patch)
    requires inp.Valid() && IndexOk(inp, r)
    ensures ok == Resolve(inp, r).Some? == Tellable(inp, r)
    ensures ok ==> patch == Resolve(inp, r).value && Lands(inp, r, patch)
  {
    ResolveLands(inp, r);
    ok, patch := false, Patch(0, 0, 0, false);
    if r.rtype >= TABLE_SIZE {
      return;
    }
    var hundef, relocation := false, 0;
    if r.external {
      var h := inp.hashes[r.index];
      if h.Some? && h.value.Defined? {
        relocation := h.value.value + h.value.section.outVma + h.value.section.outOffset;
      } else if !(h.Some? && h.value.WeakUndefined?) {
        hundef := true;
      }
    } else if BaseRelative(r.rtype) {
      var sym := inp.symbols[r.index];
      if sym.section.None? {
        return;
      }
      var section := inp.Of(sym.section.value);
      relocation := section.outVma + section.outOffset + (sym.value - section.vma);
    } else {
      var s := SectionOf(r.index);
      if s.None? {
        return;
      }
      var section := inp.Of(s.value);
      relocation := section.outVma + section.outOffset - section.vma;
      if PcRelative(r.rtype) {
        relocation := relocation + inp.self.vma;
      }
    }
    relocation := relocation + r.addend;
    if PcRelative(r.rtype) {
      relocation := relocation - (inp.self.outVma + inp.self.outOffset);
      if PcrelOffset(r.rtype) {
        relocation := relocation - r.address;
      }
    }
    ok, patch := true, Patch(inp.self.Out() + r.address, relocation, r.rtype, hundef && !BaseRelative(r.rtype));
  }

  /** The first k relocs have been rewritten, the others not yet. */
  predicate RewrittenTo(inp: Input, was: seq<ExtReloc>, now: seq<ExtReloc>, k: nat)
    requires inp.Valid() && IndicesOk(inp, was)
  {
    && |now| == |was|
    && (forall j :: 0 <= j < k && j < |was| ==> Rewrite(inp, was[j]) == Some(now[j]))
    && forall j :: k <= j < |was| ==> now[j] == was[j]
  }

  lemma OneMoreRewritten(inp: Input, was: seq<ExtReloc>, now: seq<ExtReloc>, k: nat, r: ExtReloc)
    requires inp.Valid() && IndicesOk(inp, was) && k < |was| && RewrittenTo(inp, was, now, k)
    requires Rewrite(inp, was[k]) == Some(r)
    ensures RewrittenTo(inp, was, now[k := r], k + 1)
  {
    forall j | 0 <= j < k + 1 ensures Rewrite(inp, was[j]) == Some(now[k := r][j]) {
      assert now[k := r][j] == if j == k then r else now[j];
    }
  }

  /** The loop in a relocatable link, which changes the relocs where they are. */
  method RewriteRelocs(inp: Input, relocs: array<ExtReloc>) returns (ok: bool)
    requires inp.Valid() && IndicesOk(inp, relocs[..])
    requires forall k :: 0 <= k < relocs.Length ==> SignedWord(relocs[k].addend)
    modifies relocs
    ensures ok == CanRewrite(inp, old(relocs[..]))
    ensures ok ==> relocs[..] == Rewritten(inp, old(relocs[..]))
  {
    ghost var was := relocs[..];
    for k := 0 to relocs.Length
      invariant RewrittenTo(inp, was, relocs[..], k)
    {
      assert relocs[k] == relocs[..][k] == was[k];
      var fine, out := RewriteOne(inp, relocs[k]);
      if !fine {
        return false;
      }
      OneMoreRewritten(inp, was, relocs[..], k, out);
      relocs[k] := out;
    }
    ok := true;
  }

  predicate ResolvedTo(inp: Input, relocs: seq<ExtReloc>, patches: seq<Patch>)
    requires inp.Valid() && IndicesOk(inp, relocs)
  {
    |patches| <= |relocs| && forall j :: 0 <= j < |patches| ==> Resolve(inp, relocs[j]) == Some(patches[j])
  }

  lemma OneMore(inp: Input, relocs: seq<ExtReloc>, patches: seq<Patch>, patch: Patch)
    requires inp.Valid() && IndicesOk(inp, relocs) && |patches| < |relocs|
    requires ResolvedTo(inp, relocs, patches) && Resolve(inp, relocs[|patches|]) == Some(patch)
    ensures ResolvedTo(inp, relocs, patches + [patch])
  {
    var k, all := |patches|, patches + [patch];
    forall j | 0 <= j <= k ensures Resolve(inp, relocs[j]) == Some(all[j]) {
      assert all[j] == if j == k then patch else patches[j];
    }
  }

  /** The loop in a full link. */
  method ResolveRelocs(inp: Input, relocs: seq<ExtReloc>) returns (ok: bool, patches: seq<Patch>)
    requires inp.Valid() && IndicesOk(inp, relocs)
    ensures ok == CanResolve(inp, relocs) == (forall k :: 0 <= k < |relocs| ==> Tellable(inp, relocs[k]))
    ensures ok ==> patches == Patches(inp, relocs)
    ensures ok ==> forall k :: 0 <= k < |relocs| ==> Lands(inp, relocs[k], patches[k])
  {
    forall k | 0 <= k < |relocs|
      ensures Resolve(inp, relocs[k]).Some? <==> Tellable(inp, relocs[k])
      ensures Resolve(inp, relocs[k]).Some? ==> Lands(inp, relocs[k], Resolve(inp, relocs[k]).value)
    {
      ResolveLands(inp, relocs[k]);
    }
    hide Lands, Tellable, Resolve;
    patches := [];
    for k := 0 to |relocs|
      invariant |patches| == k && ResolvedTo(inp, relocs, patches)
    {
      var fine, patch := ResolveOne(inp, relocs[k]);
      if !fine {
        return false, [];
      }
      OneMore(inp, relocs, patches, patch);
      patches := patches + [patch];
    }
    ok := true;
  }
}
