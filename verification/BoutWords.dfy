/** What the words of a relocated section say, relocation type by relocation type. */
module BoutWords {
  import opened Rounding
  import opened Bytes
  import opened Bout
  import opened BoutEmission
  import opened BoutAgreement
  import opened BoutMeaning

  /** Where a symbol is in the output when the section is placed at `base`. */
  function Location(s: Symbol, base: int): int {
    match s.home
    case Here => base + s.value
    case At(other) => other + s.value
    case Undefined(found) => found
  }

  predicate Congruent(a: int, b: int, modulus: nat)
    requires modulus > 0
  {
    (a - b) % modulus == 0
  }

  /** A word that was in the original bytes and the one that the relocation puts in its
      place, at an offset of the output.  The plain address is added once with the addend,
      everything else counts the addend twice.  A call keeps only its opcode and a 24-bit
      displacement, which counts from its place if the call has been shortened; a branch
      keeps the bits above its field.  System procedures are called by number. */
  predicate Emits(r: Reloc, s: Symbol, base: int, was: nat, now: nat, at: int) {
    var twice := Location(s, base) + 2 * r.addend;
    match r.howto
    case Abs32 => now < 0x1_0000_0000 && Congruent(now, was + Location(s, base) + r.addend, 0x1_0000_0000)
    case Abs32Code => now < 0x1_0000_0000 && Congruent(now, was + twice, 0x1_0000_0000)
    case Pcrel24 => now / 0x100_0000 == was / 0x100_0000 && Congruent(now, was + twice - base, 0x100_0000)
    case Pcrel13 => now / 0x2000 == was / 0x2000 && Congruent(now, was + twice - base, 0x2000)
    case Aligner(_) => true
    case AlignDone(_) => true
    case _ =>
      match s.form
      case SystemProcedure(number) => number < 0x800 ==> now == 0x6600_3800 + number
      case SectionSymbol => now == was
      case Plain =>
        && now / 0x100_0000 == 0x09
        && Congruent(now, was + twice - base - (if r.howto.Abs32CodeShrunk? then at else 0), 0x100_0000)
  }

  lemma {:induction false} Remainder(x: int, m: int)
    requires m > 0
    ensures Congruent(x % m, x, m) && Congruent(x, x % m, m)
  {
    var q := x / m;
    assert x % m - x == m * -q;
    CongruentBy(x % m, x, -q, m);
    CongruentBy(x, x % m, q, m);
  }

  lemma {:induction false} CongruentBy(a: int, b: int, q: int, m: int)
    requires m > 0 && a - b == m * q
    ensures Congruent(a, b, m)
  {
    MultipleOf(q, m);
  }

  /** Adding to a field and wrapping it around, whatever stands above it. */
  lemma {:induction false} FieldSum(word: int, amount: int, above: int, m: int)
    requires m > 0
    ensures Congruent(m * above + (word % m + amount) % m, word + amount, m)
  {
    var q, p := word / m, (word % m + amount) / m;
    assert m * above + (word % m + amount) % m - (word + amount) == m * (above - p - q);
    CongruentBy(m * above + (word % m + amount) % m, word + amount, above - p - q, m);
  }

  /** A word above a field is left alone, and the result is still a word. */
  lemma {:induction false} FieldWord(was: nat, amount: int, m: int)
    requires was < WORD && m in {BAL_MASK, PCREL13_MASK}
    ensures var now := Field(was, amount, m);
            0 <= now < WORD && now % WORD == now && now / m == was / m && Congruent(now, was + amount, m)
  {
    var q, v := was / m, (was % m + amount) % m;
    assert was - was % m == m * q;
    assert m == BAL_MASK ==> q < 0x100;
    assert m == PCREL13_MASK ==> q < 0x8_0000;
    FieldSum(was, amount, q, m);
    SmallWord(m * q + v);
  }

  lemma CallSays(r: Reloc, s: Symbol, base: int, was: nat, dst: int)
    requires was < WORD && (r.howto.CallJ? || r.howto.Abs32CodeShrunk?)
    ensures Emits(r, s, base, was, CallWord(r, s, base, was, dst, r.howto.Abs32CodeShrunk?) % WORD, dst)
  {
    SmallWord(was);
    if s.form.Plain? {
      var amount := GetValue(r, s, base) + r.addend - (if r.howto.Abs32CodeShrunk? then dst else 0) - base;
      var v := (was % BAL_MASK + amount) % BAL_MASK;
      FieldSum(was, amount, 9, BAL_MASK);
      assert CallWord(r, s, base, was, dst, r.howto.Abs32CodeShrunk?) == BAL_MASK * 9 + v;
      SmallWord(BAL_MASK * 9 + v);
    }
  }

  lemma PatchedSays(r: Reloc, syms: seq<Symbol>, base: int, was: nat, dst: int)
    requires NeedsSymbol(r.howto) && r.sym < |syms| && was < WORD
    ensures Emits(r, syms[r.sym], base, was, Patched(r, syms, base, was, dst) % WORD, dst)
  {
    var s, word := syms[r.sym], Patched(r, syms, base, was, dst);
    match r.howto
    case Abs32 => Remainder(word, WORD);
    case Abs32Code => Remainder(word, WORD);
    case Pcrel24 => FieldWord(was, GetValue(r, s, base) - base + r.addend, BAL_MASK);
    case Pcrel13 => FieldWord(was, GetValue(r, s, base) - base + r.addend, PCREL13_MASK);
    case CallJ => CallSays(r, s, base, was, dst);
    case Abs32CodeShrunk => CallSays(r, s, base, was, dst);
  }

  /** In the relocated section, at the place of any relocation less what was dropped before
      it, stands the word that its type makes of the original one.  For a shortened call
      that one is four bytes on. */
  lemma WordsSay(data: seq<byte>, relocs: seq<Reloc>, syms: seq<Symbol>, base: int, n: nat)
    requires Emittable(relocs, syms, |data|) && n < |relocs| && NeedsSymbol(relocs[n].howto)
    ensures var r, out := relocs[n], Image(data, relocs, syms, base);
            var at, from := r.address - Dropped(relocs, n), r.address + if r.howto.Abs32CodeShrunk? then 4 else 0;
            && 0 <= at && at + 4 <= |out| && 0 <= from && from + 4 <= |data| && r.sym < |syms|
            && Emits(r, syms[r.sym], base, Get32(data, from), Get32(out, at), at)
  {
    var r := relocs[n];
    PieceKept(data, relocs, syms, base, n);
    hide Image, Emits, Patched;
    PatchedSays(r, syms, base, Get32(data, Operand(r)), Reach(Walk(relocs, n), r).dst);
  }

  /** Relaxation shortens a call if and only if, in the state it is found in, its target is
      less than 2^23 from where the call will stand. */
  lemma ShortenedIff(base: int, relocs: seq<Reloc>, syms: seq<Symbol>, n: nat)
    requires SymbolsPresent(relocs, |syms|) && n < |relocs| && relocs[n].howto.Abs32Code?
    ensures var r, s := relocs[n], Relax(base, relocs, syms, n);
            var distance := Location(s.syms[r.sym], base) + r.addend - (base + r.address - s.shrink);
            Relaxed(base, relocs, syms).relocs[n].howto.Abs32CodeShrunk? <==> -0x80_0000 < distance < 0x80_0000
  {
    Turn(base, relocs, syms, n);
  }

  /** So an address that starts out as zero is, in the end, that of its symbol. */
  lemma AddressEmitted(data: seq<byte>, relocs: seq<Reloc>, syms: seq<Symbol>, base: int, n: nat)
    requires Emittable(relocs, syms, |data|) && n < |relocs| && relocs[n].howto.Abs32?
    requires 0 <= relocs[n].address && relocs[n].address + 4 <= |data| && Get32(data, relocs[n].address) == 0
    ensures var r, out := relocs[n], Image(data, relocs, syms, base);
            var at := r.address - Dropped(relocs, n);
            && 0 <= at && at + 4 <= |out| && r.sym < |syms|
            && Get32(out, at) == (Location(syms[r.sym], base) + r.addend) % 0x1_0000_0000
  {
    hide Image, Emits, Walk, Ready, Get32;
    WordsSay(data, relocs, syms, base, n);
    var r, at := relocs[n], relocs[n].address - Dropped(relocs, n);
    AddressInZero(r, syms[r.sym], base, Get32(Image(data, relocs, syms, base), at), at);
  }

  lemma AddressInZero(r: Reloc, s: Symbol, base: int, now: nat, at: int)
    requires r.howto.Abs32? && Emits(r, s, base, 0, now, at)
    ensures now == (Location(s, base) + r.addend) % 0x1_0000_0000
  {
    CongruentWord(now, Location(s, base) + r.addend);
  }

  lemma CongruentWord(now: nat, x: int)
    requires now < WORD && Congruent(now, x, 0x1_0000_0000)
    ensures now == x % 0x1_0000_0000
  {
    var q := (now - x) / WORD;
    SmallRemainder(x, -q, now, WORD);
  }
}
