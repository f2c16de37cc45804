/** What b_out_bfd_get_relocated_section_contents has to produce, as a function of the
    original bytes: the specification its in-place loop is proved against. */
module BoutEmission {
  import opened Bytes
  import opened Bout

  const BAL_MASK: int := 0x100_0000     // the mask plus one: a modulus
  const PCREL13_MASK: int := 0x2000
  const CALLS: int := 0x6600_3800
  const CALL: int := 0x0900_0000

  /** Read position in the original bytes, write position in the new ones. */
  datatype Cursor = Cursor(src: int, dst: int)

  /** Where the cursors stand once the run before a relocation has been copied. */
  function Reach(c: Cursor, r: Reloc): Cursor {
    Cursor(r.address, c.dst + (r.address - c.src))
  }

  /** Where they stand after the relocation itself. */
  function Advance(c: Cursor, r: Reloc): Cursor {
    var at := Reach(c, r);
    match r.howto
    case AlignDone(k) => Cursor(r.addend, Up(at.dst, k))
    case Abs32CodeShrunk => Cursor(at.src + 8, at.dst + 4)
    case _ => Cursor(at.src + 4, at.dst + 4)
  }

  function Walk(relocs: seq<Reloc>, n: nat): Cursor
    requires n <= |relocs|
  {
    if n == 0 then Cursor(0, 0) else Advance(Walk(relocs, n - 1), relocs[n - 1])
  }

  /** The bytes the emission pass has dropped by the time it has done n relocations. */
  function Dropped(relocs: seq<Reloc>, n: nat): int
    requires n <= |relocs|
  {
    Walk(relocs, n).src - Walk(relocs, n).dst
  }

  /** The offset of the word that a relocation reads from the original bytes. */
  function Operand(r: Reloc): int {
    if r.howto.Abs32CodeShrunk? then r.address + 4 else r.address
  }

  /** callj_callback, without the leaf-procedure rewriting. */
  function CallWord(r: Reloc, s: Symbol, base: int, word: int, dst: int, shrinking: bool): int {
    match s.form
    case SystemProcedure(number) => CALLS + number
    case SectionSymbol => word
    case Plain =>
      CALL + (word % BAL_MASK + GetValue(r, s, base) + r.addend
              - (if shrinking then dst else 0) - base) % BAL_MASK
  }

  /** The word stored for a relocation that patches code or data. */
  function Patched(r: Reloc, syms: seq<Symbol>, base: int, word: int, dst: int): int
    requires NeedsSymbol(r.howto) ==> r.sym < |syms|
    requires NeedsSymbol(r.howto)
  {
    var s := syms[r.sym];
    match r.howto
    case Abs32Code => word + GetValue(r, s, base) + r.addend
    case Abs32 => word + GetValue(r, s, base)
    case CallJ => CallWord(r, s, base, word, dst, false)
    case Abs32CodeShrunk => CallWord(r, s, base, word, dst, true)
    case Pcrel24 => Field(word, GetValue(r, s, base) - base + r.addend, BAL_MASK)
    case Pcrel13 => Field(word, GetValue(r, s, base) - base + r.addend, PCREL13_MASK)
  }

  /** Adds into the low field of a word, leaving the bits above it alone. */
  function Field(word: int, amount: int, modulus: nat): int
    requires modulus > 0
  {
    word - word % modulus + (word % modulus + amount) % modulus
  }

  /** The table and buffer the emission pass can work on: relocations in address order,
      in range, none of them a kind its switch would abort on. */
  predicate Emittable(relocs: seq<Reloc>, syms: seq<Symbol>, size: int) {
    && 0 <= size
    && SymbolsPresent(relocs, |syms|)
    && forall i :: 0 <= i < |relocs| ==> Ready(relocs, i, size)
  }

  predicate Ready(relocs: seq<Reloc>, i: nat, size: int)
    requires i < |relocs|
  {
    && !relocs[i].howto.Aligner?
    && Walk(relocs, i).src <= relocs[i].address
    && relocs[i].address < Walk(relocs, i + 1).src <= size
    && Walk(relocs, i).dst <= Walk(relocs, i).src
    && Walk(relocs, i + 1).dst <= Walk(relocs, i + 1).src
  }

  lemma {:induction false} CursorsInRange(relocs: seq<Reloc>, syms: seq<Symbol>, size: int, n: nat)
    requires Emittable(relocs, syms, size) && n <= |relocs|
    ensures 0 <= Walk(relocs, n).dst <= Walk(relocs, n).src <= size
    ensures n > 0 ==> Walk(relocs, n - 1).dst <= Reach(Walk(relocs, n - 1), relocs[n - 1]).dst <= Walk(relocs, n).dst
  {
    if n > 0 {
      CursorsInRange(relocs, syms, size, n - 1);
      assert Ready(relocs, n - 1, size);
    }
  }

  /** The bytes a relocation itself contributes.  A shrunk alignment gap is skipped, so
      it keeps whatever the buffer already held at the place written to. */
  function Piece(data: seq<byte>, r: Reloc, at: Cursor, syms: seq<Symbol>, base: int): (p: seq<byte>)
    requires NeedsSymbol(r.howto) ==> r.sym < |syms|
    requires !r.howto.Aligner?
    requires r.howto.AlignDone? ==> 0 <= at.dst && Up(at.dst, r.howto.k) <= |data|
    requires NeedsSymbol(r.howto) ==> 0 <= Operand(r) && Operand(r) + 4 <= |data|
    ensures |p| == if r.howto.AlignDone? then Up(at.dst, r.howto.k) - at.dst else 4
  {
    if r.howto.AlignDone? then
      data[at.dst..Up(at.dst, r.howto.k)]
    else
      Word(Patched(r, syms, base, Get32(data, Operand(r)), at.dst))
  }

  /** The k-th output byte, when the first n relocations account for it: part of the run
      copied before the last of them, part of what that one contributes, or earlier. */
  function ByteAt(data: seq<byte>, relocs: seq<Reloc>, syms: seq<Symbol>, base: int, n: nat, k: int): byte
    requires Emittable(relocs, syms, |data|) && n <= |relocs|
    requires 0 <= k < Walk(relocs, n).dst
  {
    CursorsInRange(relocs, syms, |data|, n - 1);
    CursorsInRange(relocs, syms, |data|, n);
    assert Ready(relocs, n - 1, |data|);
    var c, r := Walk(relocs, n - 1), relocs[n - 1];
    if k < c.dst then
      ByteAt(data, relocs, syms, base, n - 1, k)
    else if k < Reach(c, r).dst then
      data[c.src + (k - c.dst)]
    else
      Piece(data, r, Reach(c, r), syms, base)[k - Reach(c, r).dst]
  }

  lemma {:induction false} ByteOfPiece(data: seq<byte>, relocs: seq<Reloc>, syms: seq<Symbol>, base: int, n: nat,
                                       at: Cursor, k: int)
    requires Emittable(relocs, syms, |data|) && n < |relocs| && at == Reach(Walk(relocs, n), relocs[n])
    requires at.dst <= k < Walk(relocs, n + 1).dst
    ensures 0 <= Walk(relocs, n).dst <= at.dst && Ready(relocs, n, |data|)
    ensures ByteAt(data, relocs, syms, base, n + 1, k) == Piece(data, relocs[n], at, syms, base)[k - at.dst]
  {
    CursorsInRange(relocs, syms, |data|, n);
    CursorsInRange(relocs, syms, |data|, n + 1);
    assert Ready(relocs, n, |data|);
  }

  /** What one more relocation makes of the output bytes before its own piece: those before
      the cursor stay, then comes the run. */
  lemma {:induction false} ByteBefore(data: seq<byte>, relocs: seq<Reloc>, syms: seq<Symbol>, base: int, n: nat,
                                      c: Cursor, k: int)
    requires Emittable(relocs, syms, |data|) && n < |relocs| && c == Walk(relocs, n) && 0 <= k < Reach(c, relocs[n]).dst
    ensures k < Walk(relocs, n + 1).dst && Ready(relocs, n, |data|)
    ensures k < c.dst ==> ByteAt(data, relocs, syms, base, n + 1, k) == ByteAt(data, relocs, syms, base, n, k)
    ensures c.dst <= k ==>
              0 <= c.src + (k - c.dst) < |data|
                && ByteAt(data, relocs, syms, base, n + 1, k) == data[c.src + (k - c.dst)]
  {
    CursorsInRange(relocs, syms, |data|, n);
    CursorsInRange(relocs, syms, |data|, n + 1);
    assert Ready(relocs, n, |data|);
  }

  /** A byte of the whole relocated section: after the last relocation the rest is copied. */
  function ImageAt(data: seq<byte>, relocs: seq<Reloc>, syms: seq<Symbol>, base: int, k: int): byte
    requires Emittable(relocs, syms, |data|)
    requires 0 <= k < |data| - Dropped(relocs, |relocs|)
  {
    var c := Walk(relocs, |relocs|);
    CursorsInRange(relocs, syms, |data|, |relocs|);
    if k < c.dst then ByteAt(data, relocs, syms, base, |relocs|, k) else data[c.src + (k - c.dst)]
  }

  /** The whole relocated section. */
  function Image(data: seq<byte>, relocs: seq<Reloc>, syms: seq<Symbol>, base: int): (out: seq<byte>)
    requires Emittable(relocs, syms, |data|)
    ensures |out| == |data| - Dropped(relocs, |relocs|)
    ensures forall k :: 0 <= k < |out| ==> out[k] == ImageAt(data, relocs, syms, base, k)
  {
    CursorsInRange(relocs, syms, |data|, |relocs|);
    var size := |data| - Dropped(relocs, |relocs|);
    seq(size, k requires 0 <= k < size => ImageAt(data, relocs, syms, base, k))
  }
}
