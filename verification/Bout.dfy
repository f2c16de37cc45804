/** The relocations, symbols and alignment arithmetic of b.out call relaxation. */
module Bout {
  import opened Rounding
  import opened Wrappers

  /** An index into howto_align_table: align16, align32, align64, align128. */
  type Alignment = k: nat | k < 4

  function Size(k: Alignment): (n: nat)
    ensures n in {2, 4, 8, 16}
  {
    match k
    case 0 => 2
    case 1 => 4
    case 2 => 8
    case 3 => 16
  }

  /** (x + mask) & ~mask with mask == Size(k) - 1. */
  function Up(x: int, k: Alignment): (u: int)
    ensures x <= u < x + Size(k)
  {
    RoundUp(x, Size(k))
  }

  datatype Howto =
    | Aligner(k: Alignment)
    | AlignDone(k: Alignment)
    | Abs32Code
    | Abs32CodeShrunk
    | Abs32
    | CallJ
    | Pcrel24
    | Pcrel13

  /** An arelent; `sym` is the index of its symbol in the canonical symbol table. */
  datatype Reloc = Reloc(address: int, howto: Howto, addend: int, sym: nat)

  /** Where a symbol lives: in the section being relaxed, in another section whose
      output address is given, or nowhere in this file, with the address that the
      link hash table lookup returns for it. */
  datatype Home = Here | At(base: int) | Undefined(found: int)

  /** What the symbol's `other` and flags say a call to it is. */
  datatype Form = Plain | SectionSymbol | SystemProcedure(number: nat)

  /** A symbol; `entry` is the link hash entry its udata points to. */
  datatype Symbol = Symbol(home: Home, value: int, form: Form, entry: Option<nat>)

  /** get_value: the address a relocation refers to when the section is placed at `base`. */
  function GetValue(r: Reloc, s: Symbol, base: int): int {
    r.addend +
    match s.home
    case Here => s.value + base
    case At(other) => s.value + other
    case Undefined(found) => found
  }

  // ----- the relaxation pass, one relocation at a time

  function SlipOne(s: Symbol, slip: int, at: int): Symbol {
    if s.home.Here? && s.value > at then s.(value := s.value - slip) else s
  }

  /** perform_slip: every symbol of this section past `at` moves back. */
  function Slip(syms: seq<Symbol>, slip: int, at: int): (r: seq<Symbol>)
    ensures |r| == |syms|
    ensures forall i :: 0 <= i < |syms| ==> r[i] == SlipOne(syms[i], slip, at)
  {
    seq(|syms|, i requires 0 <= i < |syms| => SlipOne(syms[i], slip, at))
  }

  /** The state that the relaxation loop carries from one relocation to the next. */
  datatype State = State(relocs: seq<Reloc>, syms: seq<Symbol>, shrink: int)

  const REACH: int := 0x80_0000

  /** abs32code: a 32-bit call becomes a 24-bit one when its target is near enough. */
  function RelaxCall(base: int, r: Reloc, syms: seq<Symbol>, shrink: int): (Reloc, seq<Symbol>, int)
    requires r.sym < |syms|
  {
    var gap := GetValue(r, syms[r.sym], base) - (base + r.address - shrink);
    if -REACH < gap < REACH then
      var shrunk := r.(howto := Abs32CodeShrunk, address := r.address - 4);
      (shrunk, Slip(syms, 4, shrunk.address - (shrink + 4) + 4), shrink + 4)
    else
      (r, syms, shrink)
  }

  /** The bytes aligncode can drop from an alignment gap. */
  function AlignDelta(base: int, r: Reloc, k: Alignment, shrink: int): int {
    OldEnd(base, r, k) - Up(base + r.address - shrink, k) - shrink
  }

  /** The output address of the first byte after the original, oversized gap. */
  function OldEnd(base: int, r: Reloc, k: Alignment): int {
    Up(base + r.address, k) + Size(k)
  }

  /** aligncode: an alignment gap shrinks to what the new position needs. */
  function RelaxAlign(base: int, r: Reloc, k: Alignment, syms: seq<Symbol>, shrink: int): (Reloc, seq<Symbol>, int)
  {
    var delta := AlignDelta(base, r, k, shrink);
    if delta != 0 then
      (r.(howto := AlignDone(k), addend := OldEnd(base, r, k) - base),
       Slip(syms, delta, r.address - shrink),
       shrink + delta)
    else
      (r, syms, shrink)
  }

  predicate NeedsSymbol(h: Howto) {
    !h.Aligner? && !h.AlignDone?
  }

  predicate SymbolsPresent(relocs: seq<Reloc>, count: nat) {
    forall i :: 0 <= i < |relocs| && NeedsSymbol(relocs[i].howto) ==> relocs[i].sym < count
  }

  /** One turn of the loop in b_out_bfd_relax_section. */
  function RelaxOne(base: int, r: Reloc, syms: seq<Symbol>, shrink: int): (t: (Reloc, seq<Symbol>, int))
    requires NeedsSymbol(r.howto) ==> r.sym < |syms|
    ensures |t.1| == |syms|
    ensures t.0.sym == r.sym
    ensures NeedsSymbol(t.0.howto) ==> NeedsSymbol(r.howto)
  {
    match r.howto
    case Aligner(k) => RelaxAlign(base, r, k, syms, shrink)
    case Abs32Code => RelaxCall(base, r, syms, shrink)
    case Abs32CodeShrunk => (r, syms, shrink + 4)
    case _ => (r, syms, shrink)
  }

  /** The state after the first n relocations. */
  function Relax(base: int, relocs: seq<Reloc>, syms: seq<Symbol>, n: nat): (s: State)
    requires n <= |relocs| && SymbolsPresent(relocs, |syms|)
    ensures |s.relocs| == |relocs| && |s.syms| == |syms|
    ensures s.relocs[n..] == relocs[n..]
    ensures SymbolsPresent(s.relocs, |syms|)
  {
    if n == 0 then
      State(relocs, syms, 0)
    else
      var s := Relax(base, relocs, syms, n - 1);
      assert s.relocs[n - 1] == s.relocs[n - 1..][0] == relocs[n - 1];
      var (r, moved, shrink) := RelaxOne(base, s.relocs[n - 1], s.syms, s.shrink);
      State(s.relocs[n - 1 := r], moved, shrink)
  }

  /** What the whole pass leaves behind. */
  function Relaxed(base: int, relocs: seq<Reloc>, syms: seq<Symbol>): State
    requires SymbolsPresent(relocs, |syms|)
  {
    Relax(base, relocs, syms, |relocs|)
  }

  // ----- what the assembler hands over

  /** The first section offset a relocation owns: a callx owns its opcode too. */
  function Start(r: Reloc): int {
    if r.howto.Abs32Code? then r.address - 4 else r.address
  }

  /** The offset after the last one it owns: an alignment owns its whole gap. */
  function End(base: int, r: Reloc): int {
    if r.howto.Aligner? then OldEnd(base, r, r.howto.k) - base else r.address + 4
  }

  /** A table as b_out_slurp_reloc_table builds it: nothing relaxed yet. */
  predicate Fresh(relocs: seq<Reloc>) {
    forall i :: 0 <= i < |relocs| ==> !relocs[i].howto.AlignDone? && !relocs[i].howto.Abs32CodeShrunk?
  }

  /** Sorted relocations that do not overlap and lie inside the section. */
  predicate Disjoint(base: int, relocs: seq<Reloc>, size: int) {
    && (forall i :: 0 <= i < |relocs| ==> 0 <= Start(relocs[i]) && End(base, relocs[i]) <= size)
    && (forall i, j :: 0 <= i < j < |relocs| ==> End(base, relocs[i]) <= Start(relocs[j]))
  }

  predicate AlignedAt(base: int, r: Reloc) {
    r.howto.Aligner? ==> base % Size(r.howto.k) == 0
  }

  /** The section's output address is a multiple of every alignment asked for. */
  predicate AlignedBase(base: int, relocs: seq<Reloc>) {
    forall i :: 0 <= i < |relocs| ==> AlignedAt(base, relocs[i])
  }

  predicate Input(base: int, relocs: seq<Reloc>, syms: seq<Symbol>, size: int) {
    Fresh(relocs) && Disjoint(base, relocs, size) && SymbolsPresent(relocs, |syms|)
  }
}
