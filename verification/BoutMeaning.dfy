/** What relaxation preserves: symbols keep pointing at the code they named, bytes
    outside relocated words survive, and every shortened call still reaches. */
module BoutMeaning {
  import opened Rounding
  import opened Bytes
  import opened Bout
  import opened BoutEmission
  import opened BoutAgreement

  /** How many of the bytes dropped by the first n relocations lay before offset x. */
  function Cut(relocs: seq<Reloc>, n: nat, x: int): int
    requires n <= |relocs|
  {
    if n == 0 then 0
    else Cut(relocs, n - 1, x)
         + if relocs[n - 1].address < x then Dropped(relocs, n) - Dropped(relocs, n - 1) else 0
  }

  /** No relocation reads, patches or skips the byte at x. */
  predicate Verbatim(relocs: seq<Reloc>, x: int) {
    forall i :: 0 <= i < |relocs| ==> !Touches(relocs, i, x)
  }

  predicate Touches(relocs: seq<Reloc>, i: nat, x: int)
    requires i < |relocs|
  {
    relocs[i].address <= x < Walk(relocs, i + 1).src
  }

  // ----- the emission pass alone

  lemma {:induction false} CutFacts(relocs: seq<Reloc>, syms: seq<Symbol>, size: int, n: nat, x: int)
    requires Emittable(relocs, syms, size) && n <= |relocs|
    ensures Walk(relocs, n).src <= x ==> Cut(relocs, n, x) == Dropped(relocs, n)
    ensures x < Walk(relocs, n).src ==> x - Cut(relocs, n, x) <= Walk(relocs, n).dst
  {
    if n > 0 {
      CutFacts(relocs, syms, size, n - 1, x);
      CursorsInRange(relocs, syms, size, n);
      assert Ready(relocs, n - 1, size);
    }
  }

  /** Relocations at or after x do not change where x goes. */
  lemma {:induction false} CutSettles(relocs: seq<Reloc>, syms: seq<Symbol>, size: int, n: nat, m: nat, x: int)
    requires Emittable(relocs, syms, size) && n <= m <= |relocs|
    requires x <= Walk(relocs, n).src || (n < |relocs| && x <= relocs[n].address)
    ensures Cut(relocs, m, x) == Cut(relocs, n, x)
    decreases m - n
  {
    if n < m {
      assert Ready(relocs, n, size);
      CutSettles(relocs, syms, size, n + 1, m, x);
    }
  }

  /** A byte before a relocation it does not touch lies in the run copied before it, or
      earlier. */
  lemma {:induction false} RunPosition(relocs: seq<Reloc>, syms: seq<Symbol>, size: int, n: nat, c: Cursor, x: int)
    requires Emittable(relocs, syms, size) && n < |relocs| && c == Walk(relocs, n)
    requires 0 <= x < Walk(relocs, n + 1).src && !Touches(relocs, n, x)
    ensures 0 <= c.dst <= Reach(c, relocs[n]).dst <= Walk(relocs, n + 1).dst
    ensures x < relocs[n].address && Cut(relocs, n + 1, x) == Cut(relocs, n, x)
    ensures c.src <= x ==> x - Cut(relocs, n, x) == c.dst + (x - c.src) < Reach(c, relocs[n]).dst
  {
    CursorsInRange(relocs, syms, size, n);
    CursorsInRange(relocs, syms, size, n + 1);
    assert Ready(relocs, n, size);
    CutFacts(relocs, syms, size, n, x);
  }

  lemma {:induction false} BytesEmitted(data: seq<byte>, relocs: seq<Reloc>, syms: seq<Symbol>, base: int, n: nat,
                                        x: int, k: int)
    requires Emittable(relocs, syms, |data|) && n <= |relocs| && k == x - Cut(relocs, n, x)
    requires 0 <= x < |data| && x < Walk(relocs, n).src && Verbatim(relocs, x)
    ensures 0 <= k < Walk(relocs, n).dst
    ensures ByteAt(data, relocs, syms, base, n, k) == data[x]
  {
    var c := Walk(relocs, n - 1);
    assert !Touches(relocs, n - 1, x);
    RunPosition(relocs, syms, |data|, n - 1, c, x);
    if x < c.src {
      BytesEmitted(data, relocs, syms, base, n - 1, x, k);
    }
    ByteBefore(data, relocs, syms, base, n - 1, c, k);
  }

  /** The emission pass moves every byte no relocation touches to where Cut says. */
  lemma {:induction false} BytesKept(data: seq<byte>, relocs: seq<Reloc>, syms: seq<Symbol>, base: int, x: int, v: int)
    requires Emittable(relocs, syms, |data|) && v == x - Cut(relocs, |relocs|, x)
    requires 0 <= x < |data| && Verbatim(relocs, x)
    ensures 0 <= v < |Image(data, relocs, syms, base)| && Image(data, relocs, syms, base)[v] == data[x]
  {
    var n := |relocs|;
    CursorsInRange(relocs, syms, |data|, n);
    if x < Walk(relocs, n).src {
      BytesEmitted(data, relocs, syms, base, n, x, v);
    } else {
      CutFacts(relocs, syms, |data|, n, x);
    }
  }

  /** The offset of a relocation goes to where its own output is written. */
  lemma {:induction false} RelocKept(relocs: seq<Reloc>, syms: seq<Symbol>, size: int, n: nat, x: int, v: int)
    requires Emittable(relocs, syms, size) && n < |relocs| && x == relocs[n].address
    requires v == x - Cut(relocs, |relocs|, x)
    ensures v == Reach(Walk(relocs, n), relocs[n]).dst
  {
    assert Ready(relocs, n, size);
    CutFacts(relocs, syms, size, n, relocs[n].address);
    CutSettles(relocs, syms, size, n, |relocs|, relocs[n].address);
  }

  lemma {:induction false} ByteSettles(data: seq<byte>, relocs: seq<Reloc>, syms: seq<Symbol>, base: int, n: nat,
                                       m: nat, k: int)
    requires Emittable(relocs, syms, |data|) && n <= m <= |relocs|
    requires 0 <= k < Walk(relocs, n).dst
    ensures k < Walk(relocs, m).dst
    ensures ByteAt(data, relocs, syms, base, m, k) == ByteAt(data, relocs, syms, base, n, k)
    decreases m
  {
    if n < m {
      ByteSettles(data, relocs, syms, base, n, m - 1, k);
      CursorsInRange(relocs, syms, |data|, m);
    }
  }

  lemma WordInside(out: seq<byte>, at: nat, word: int)
    requires at + 4 <= |out|
    requires forall j :: 0 <= j < 4 ==> out[at + j] == Word(word)[j]
    ensures Get32(out, at) == word % WORD
  {
    WordRoundTrip(word);
  }

  /** A relocation's own output is found at the write cursor. */
  lemma {:induction false} PieceKept(data: seq<byte>, relocs: seq<Reloc>, syms: seq<Symbol>, base: int, n: nat)
    requires Emittable(relocs, syms, |data|) && n < |relocs| && NeedsSymbol(relocs[n].howto)
    ensures var at, out := Reach(Walk(relocs, n), relocs[n]).dst, Image(data, relocs, syms, base);
            && 0 <= at && at + 4 <= |out|
            && 0 <= Operand(relocs[n]) && Operand(relocs[n]) + 4 <= |data|
            && Get32(out, at) == Patched(relocs[n], syms, base, Get32(data, Operand(relocs[n])), at) % WORD
  {
    var c, r, out := Walk(relocs, n), relocs[n], Image(data, relocs, syms, base);
    var at := Reach(c, r).dst;
    CursorsInRange(relocs, syms, |data|, n);
    CursorsInRange(relocs, syms, |data|, n + 1);
    CursorsInRange(relocs, syms, |data|, |relocs|);
    assert Ready(relocs, n, |data|);
    CursorGrows(relocs, syms, |data|, n + 1, |relocs|);
    var word := Patched(r, syms, base, Get32(data, Operand(r)), at);
    forall j | 0 <= j < 4 ensures out[at + j] == Word(word)[j] {
      PieceByteKept(data, relocs, syms, base, n, j);
    }
    WordInside(out, at, word);
  }

  lemma {:induction false} PieceByteKept(data: seq<byte>, relocs: seq<Reloc>, syms: seq<Symbol>, base: int, n: nat,
                                         j: nat)
    requires Emittable(relocs, syms, |data|) && n < |relocs| && NeedsSymbol(relocs[n].howto) && j < 4
    ensures var at := Reach(Walk(relocs, n), relocs[n]);
            && 0 <= at.dst && at.dst + j < |data| - Dropped(relocs, |relocs|)
            && 0 <= Operand(relocs[n]) && Operand(relocs[n]) + 4 <= |data|
            && ImageAt(data, relocs, syms, base, at.dst + j) == Piece(data, relocs[n], at, syms, base)[j]
  {
    CursorsInRange(relocs, syms, |data|, n);
    CursorsInRange(relocs, syms, |data|, n + 1);
    CursorsInRange(relocs, syms, |data|, |relocs|);
    CursorGrows(relocs, syms, |data|, n + 1, |relocs|);
    assert Ready(relocs, n, |data|);
    hide ByteAt, Piece;
    var at := Reach(Walk(relocs, n), relocs[n]);
    ByteOfPiece(data, relocs, syms, base, n, at, at.dst + j);
    ByteSettles(data, relocs, syms, base, n + 1, |relocs|, at.dst + j);
  }

  lemma {:induction false} CursorGrows(relocs: seq<Reloc>, syms: seq<Symbol>, size: int, n: nat, m: nat)
    requires Emittable(relocs, syms, size) && n <= m <= |relocs|
    ensures Walk(relocs, n).dst <= Walk(relocs, m).dst
    decreases m
  {
    if n < m {
      CursorGrows(relocs, syms, size, n, m - 1);
      CursorsInRange(relocs, syms, size, m);
    }
  }

  // ----- the two passes together

  /** Turn n moves a symbol that has slid to x - Cut(n, x) on to x - Cut(n + 1, x). */
  lemma {:induction false} SlipTest(base: int, r: Reloc, syms: seq<Symbol>, shrink: int, c: Cursor, x: int, cut: int,
                                    i: nat)
    requires !r.howto.AlignDone? && !r.howto.Abs32CodeShrunk?
    requires NeedsSymbol(r.howto) ==> r.sym < |syms|
    requires 0 <= c.dst && c.src <= Start(r) && c.src - c.dst == shrink >= 0
    requires c.src <= x ==> cut == shrink
    requires x < c.src ==> x - cut <= c.dst
    requires i < |syms| && syms[i].home.Here? && syms[i].value == x - cut
    ensures var t := RelaxOne(base, r, syms, shrink);
            t.1[i] == syms[i].(value := x - cut - if t.0.address < x then t.2 - shrink else 0)
  {
    OneStep(base, r, syms, shrink, c);
  }

  lemma {:induction false} SlipsOnlyHere(base: int, r: Reloc, syms: seq<Symbol>, shrink: int, i: nat)
    requires NeedsSymbol(r.howto) ==> r.sym < |syms|
    requires i < |syms| && !syms[i].home.Here?
    ensures RelaxOne(base, r, syms, shrink).1[i] == syms[i]
  {
  }

  lemma {:induction false} CutSoFar(base: int, relocs: seq<Reloc>, syms: seq<Symbol>, size: int, n: nat, x: int)
    requires Input(base, relocs, syms, size) && AlignedBase(base, relocs) && 0 <= size && n <= |relocs|
    ensures var rs := Relaxed(base, relocs, syms).relocs;
            && (Walk(rs, n).src <= x ==> Cut(rs, n, x) == Dropped(rs, n))
            && (x < Walk(rs, n).src ==> x - Cut(rs, n, x) <= Walk(rs, n).dst)
  {
    var s := Relaxed(base, relocs, syms);
    RelaxedIsEmittable(base, relocs, syms, size);
    CutFacts(s.relocs, s.syms, size, n, x);
  }

  /** Every symbol of the section moves back by exactly the bytes dropped before it. */
  lemma {:induction false} SymbolSlides(base: int, relocs: seq<Reloc>, syms: seq<Symbol>, size: int, n: nat, i: nat)
    requires Input(base, relocs, syms, size) && AlignedBase(base, relocs) && 0 <= size
    requires n <= |relocs| && i < |syms|
    ensures var now := Relax(base, relocs, syms, n).syms[i];
            now == if syms[i].home.Here?
                   then syms[i].(value := syms[i].value - Cut(Relaxed(base, relocs, syms).relocs, n, syms[i].value))
                   else syms[i]
  {
    hide Disjoint, AlignedBase, RelaxOne, Advance;
    if n > 0 {
      var s, before := Relaxed(base, relocs, syms), Relax(base, relocs, syms, n - 1);
      SymbolSlides(base, relocs, syms, size, n - 1, i);
      Turn(base, relocs, syms, n - 1);
      if syms[i].home.Here? {
        var x, c := syms[i].value, Walk(s.relocs, n - 1);
        InStep(base, relocs, syms, size, n - 1);
        InStep(base, relocs, syms, size, n);
        EmissionStep(base, relocs, syms, size, n - 1, c);
        CutSoFar(base, relocs, syms, size, n - 1, x);
        SlipTest(base, relocs[n - 1], before.syms, before.shrink, c, x, Cut(s.relocs, n - 1, x), i);
      } else {
        SlipsOnlyHere(base, relocs[n - 1], before.syms, before.shrink, i);
      }
    }
  }

  /** The offset v of the image stands for the offset x of the original section: the
      byte is the same unless a relocation rewrote it, and if a relocation starts at x
      then its output starts at v. */
  predicate StandsFor(data: seq<byte>, relocs: seq<Reloc>, syms: seq<Symbol>, base: int, v: int, x: int)
    requires Emittable(relocs, syms, |data|)
  {
    var img := Image(data, relocs, syms, base);
    && (0 <= x < |data| && Verbatim(relocs, x) ==> 0 <= v < |img| && img[v] == data[x])
    && (forall n :: 0 <= n < |relocs| && x == relocs[n].address ==> v == Reach(Walk(relocs, n), relocs[n]).dst)
  }

  lemma {:induction false} CutStandsFor(data: seq<byte>, relocs: seq<Reloc>, syms: seq<Symbol>, base: int, x: int,
                                        v: int)
    requires Emittable(relocs, syms, |data|) && v == x - Cut(relocs, |relocs|, x)
    ensures StandsFor(data, relocs, syms, base, v, x)
  {
    if 0 <= x < |data| && Verbatim(relocs, x) {
      BytesKept(data, relocs, syms, base, x, v);
    }
    forall n | 0 <= n < |relocs| && x == relocs[n].address
      ensures v == Reach(Walk(relocs, n), relocs[n]).dst
    {
      RelocKept(relocs, syms, |data|, n, x, v);
    }
  }

  /** Relaxation preserves meaning: a symbol that named offset x ends up x minus the
      bytes dropped before x, and what is emitted there stands for what was at x. */
  lemma {:induction false} RelaxationPreservesMeaning(base: int, relocs: seq<Reloc>, syms: seq<Symbol>, data: seq<byte>,
                                                      finalBase: int, i: nat)
    requires Input(base, relocs, syms, |data|) && AlignedBase(base, relocs)
    requires i < |syms| && syms[i].home.Here?
    ensures var s, x := Relaxed(base, relocs, syms), syms[i].value;
            && Emittable(s.relocs, s.syms, |data|)
            && s.syms[i] == syms[i].(value := x - Cut(s.relocs, |relocs|, x))
            && StandsFor(data, s.relocs, s.syms, finalBase, s.syms[i].value, x)
  {
    var s := Relaxed(base, relocs, syms);
    RelaxedIsEmittable(base, relocs, syms, |data|);
    SymbolSlides(base, relocs, syms, |data|, |relocs|, i);
    CutStandsFor(data, s.relocs, s.syms, finalBase, syms[i].value, s.syms[i].value);
  }

  // ----- branch reach

  /** The signed value of the 24-bit displacement field of a call instruction. */
  function Displacement(word: nat): (d: int)
    ensures -REACH <= d < REACH
  {
    var field := word % BAL_MASK;
    if field < REACH then field else field - BAL_MASK
  }

  lemma CallDecodes(d: int)
    ensures -REACH <= d < REACH ==> Displacement((CALL + d % BAL_MASK) % WORD) == d
  {
  }

  /** Relocations after the n-th leave an offset that lay past it no further back than
      one alignment gap before the place the n-th went to. */
  lemma {:induction false} StaysClose(relocs: seq<Reloc>, syms: seq<Symbol>, size: int, n: nat, m: nat, x: int)
    requires Emittable(relocs, syms, size) && SmallDrops(relocs) && n < m <= |relocs|
    requires relocs[n].address < x
    ensures Cut(relocs, n + 1, x) <= Cut(relocs, m, x)
    ensures Reach(Walk(relocs, n), relocs[n]).dst - 32 < x - Cut(relocs, m, x)
    decreases m
  {
    var before := m - 1;
    assert Ready(relocs, before, size) && SmallDrop(relocs, before);
    CutFacts(relocs, syms, size, before, x);
    if n < before {
      StaysClose(relocs, syms, size, n, before, x);
      CursorGrows(relocs, syms, size, n + 1, before);
      CursorsInRange(relocs, syms, size, n + 1);
    }
  }

  /** A call that abs32code shortened: its gap test passed in the state of turn n. */
  lemma {:induction false} ShrunkBecauseNear(base: int, relocs: seq<Reloc>, syms: seq<Symbol>, size: int, n: nat)
    requires Input(base, relocs, syms, size) && n < |relocs|
    requires Relaxed(base, relocs, syms).relocs[n].howto.Abs32CodeShrunk?
    ensures var s := Relax(base, relocs, syms, n);
            && relocs[n].howto.Abs32Code?
            && Relaxed(base, relocs, syms).relocs[n]
               == relocs[n].(howto := Abs32CodeShrunk, address := relocs[n].address - 4)
            && -REACH < GetValue(relocs[n], s.syms[relocs[n].sym], base) - (base + relocs[n].address - s.shrink) < REACH
            && Relax(base, relocs, syms, n + 1).shrink == s.shrink + 4
  {
    Turn(base, relocs, syms, n);
  }

  /** Every call relaxation shortens still reaches its target in this section, however
      far later relaxations moved either end: the final distance fits the signed 24-bit
      field, for any place the section is finally given. */
  lemma {:induction false} ShrunkCallReaches(base: int, relocs: seq<Reloc>, syms: seq<Symbol>, size: int, n: nat)
    requires Input(base, relocs, syms, size) && AlignedBase(base, relocs) && 0 <= size && n < |relocs|
    requires Relaxed(base, relocs, syms).relocs[n].howto.Abs32CodeShrunk?
    requires relocs[n].sym < |syms| && syms[relocs[n].sym].home.Here? && relocs[n].addend == 0
    ensures var s := Relaxed(base, relocs, syms);
            -REACH <= s.syms[relocs[n].sym].value - Reach(Walk(s.relocs, n), s.relocs[n]).dst < REACH
  {
    var s, x := Relaxed(base, relocs, syms), syms[relocs[n].sym].value;
    RelaxedIsEmittable(base, relocs, syms, size);
    ShrunkBecauseNear(base, relocs, syms, size, n);
    InStep(base, relocs, syms, size, n);
    InStep(base, relocs, syms, size, n + 1);
    EmissionStep(base, relocs, syms, size, n, Walk(s.relocs, n));
    SymbolSlides(base, relocs, syms, size, n, relocs[n].sym);
    SymbolSlides(base, relocs, syms, size, |relocs|, relocs[n].sym);
    CutFacts(s.relocs, s.syms, size, n, x);
    if x <= s.relocs[n].address {
      CutSettles(s.relocs, s.syms, size, n, |relocs|, x);
    } else {
      StaysClose(s.relocs, s.syms, size, n, |relocs|, x);
    }
  }

  lemma ShrunkCallWord(r: Reloc, syms: seq<Symbol>, base: int, word: int, dst: int)
    requires r.sym < |syms| && r.howto.Abs32CodeShrunk? && r.addend == 0 && word % BAL_MASK == 0
    requires syms[r.sym].home.Here? && syms[r.sym].form.Plain?
    ensures Patched(r, syms, base, word, dst) == CALL + (syms[r.sym].value - dst) % BAL_MASK
  {
  }

  lemma {:induction false} ShrunkCallDecodes(data: seq<byte>, relocs: seq<Reloc>, syms: seq<Symbol>, base: int, n: nat)
    requires Emittable(relocs, syms, |data|) && n < |relocs| && relocs[n].howto.Abs32CodeShrunk?
    requires relocs[n].addend == 0
    requires syms[relocs[n].sym].home.Here? && syms[relocs[n].sym].form.Plain?
    requires 0 <= relocs[n].address + 4 <= |data| - 4 && Get32(data, relocs[n].address + 4) % BAL_MASK == 0
    requires -REACH <= syms[relocs[n].sym].value - Reach(Walk(relocs, n), relocs[n]).dst < REACH
    ensures var at, out := Reach(Walk(relocs, n), relocs[n]).dst, Image(data, relocs, syms, base);
            && 0 <= at && at + 4 <= |out|
            && at + Displacement(Get32(out, at)) == syms[relocs[n].sym].value
  {
    hide Patched, Piece, Image, Displacement;
    var at := Reach(Walk(relocs, n), relocs[n]).dst;
    PieceKept(data, relocs, syms, base, n);
    ShrunkCallWord(relocs[n], syms, base, Get32(data, relocs[n].address + 4), at);
    WordDecodes(Patched(relocs[n], syms, base, Get32(data, relocs[n].address + 4), at), syms[relocs[n].sym].value, at);
  }

  lemma WordDecodes(word: int, value: int, at: int)
    requires word == CALL + (value - at) % BAL_MASK && -REACH <= value - at < REACH
    ensures at + Displacement(word % WORD) == value
  {
    CallDecodes(value - at);
  }

  /** And the instruction emitted for it says so: decoding the word at the call's final
      place gives the exact distance to the symbol's final place. */
  lemma {:induction false} ShrunkCallLands(base: int, relocs: seq<Reloc>, syms: seq<Symbol>, data: seq<byte>,
                                           finalBase: int, n: nat)
    requires Input(base, relocs, syms, |data|) && AlignedBase(base, relocs) && n < |relocs|
    requires Relaxed(base, relocs, syms).relocs[n].howto.Abs32CodeShrunk?
    requires relocs[n].sym < |syms| && syms[relocs[n].sym].home.Here? && relocs[n].addend == 0
    requires syms[relocs[n].sym].form.Plain?
    requires 0 <= relocs[n].address && Get32(data, relocs[n].address) % BAL_MASK == 0
    ensures var s := Relaxed(base, relocs, syms);
            var at := Reach(Walk(s.relocs, n), s.relocs[n]).dst;
            && Emittable(s.relocs, s.syms, |data|)
            && 0 <= at && at + 4 <= |Image(data, s.relocs, s.syms, finalBase)|
            && at + Displacement(Get32(Image(data, s.relocs, s.syms, finalBase), at)) == s.syms[relocs[n].sym].value
  {
    var s, t := Relaxed(base, relocs, syms), relocs[n].sym;
    assert Emittable(s.relocs, s.syms, |data|) by {
      RelaxedIsEmittable(base, relocs, syms, |data|);
    }
    assert s.relocs[n] == relocs[n].(howto := Abs32CodeShrunk, address := relocs[n].address - 4) by {
      ShrunkBecauseNear(base, relocs, syms, |data|, n);
    }
    assert s.syms[t].home.Here? && s.syms[t].form.Plain? by {
      SymbolSlides(base, relocs, syms, |data|, |relocs|, t);
    }
    ShrunkCallReaches(base, relocs, syms, |data|, n);
    ShrunkCallDecodes(data, s.relocs, s.syms, finalBase, n);
  }

  // ----- branches that are not shortened

  /** The signed value of the 13-bit displacement field of a compare-and-branch. */
  function ShortDisplacement(word: nat): int {
    var field := word % PCREL13_MASK;
    if field < 0x1000 then field else field - PCREL13_MASK
  }

  lemma {:induction false} FieldHolds(word: int, amount: int, from: int, modulus: int)
    requires modulus > 0 && word % modulus == (-from) % modulus
    ensures (word % modulus + amount) % modulus == (amount - from) % modulus
  {
    var p, q := (-from) / modulus, (word % modulus + amount) / modulus;
    assert amount - from == modulus * (p + q) + (word % modulus + amount) % modulus;
    SmallRemainder(amount - from, p + q, (word % modulus + amount) % modulus, modulus);
  }

  lemma {:induction false} SmallRemainder(x: int, q: int, r: int, m: int)
    requires m > 0 && 0 <= r < m && x == m * q + r
    ensures x % m == r
  {
    var p := x / m;
    assert m * (p - q) == r - x % m;
    AtLeastFactor(m, p - q);
  }

  lemma CallFieldDecodes(word: int, d: int)
    requires word == CALL + d % BAL_MASK && -REACH <= d < REACH
    ensures Displacement(word % WORD) == d
  {
    CallDecodes(d);
  }

  lemma {:induction false} LowBits(was: nat, v: int, m: int)
    requires m in {BAL_MASK, PCREL13_MASK} && was < WORD && 0 <= v < m
    ensures (was - was % m + v) % WORD % m == v
  {
    var q := was / m;
    assert was - was % m == m * q;
    assert m == BAL_MASK ==> q < 0x100;
    assert m == PCREL13_MASK ==> q < 0x8_0000;
    SmallWord(m * q + v);
    SmallRemainder(m * q + v, q, v, m);
  }

  lemma SignedField(d: int)
    ensures -REACH <= d < REACH ==> d % BAL_MASK == if d < 0 then d + BAL_MASK else d
    ensures -0x1000 <= d < 0x1000 ==> d % PCREL13_MASK == if d < 0 then d + PCREL13_MASK else d
  {
  }

  /** The displacement in the emitted word of a branch with 24 or 13 bits. */
  function Branched(h: Howto, word: nat): int {
    if h.Pcrel13? then ShortDisplacement(word) else Displacement(word)
  }

  predicate Near(h: Howto, d: int) {
    if h.Pcrel13? then -0x1000 <= d < 0x1000 else -REACH <= d < REACH
  }

  /** A branch within the section as the assembler leaves it: the field counts back to the
      start of the section. */
  predicate LocalBranch(r: Reloc, syms: seq<Symbol>, word: nat) {
    && (r.howto.Pcrel24? || r.howto.Pcrel13? || r.howto.CallJ?)
    && r.addend == 0 && r.sym < |syms| && syms[r.sym].home.Here? && syms[r.sym].form.Plain?
    && word < WORD
    && if r.howto.Pcrel13? then word % PCREL13_MASK == (-r.address) % PCREL13_MASK
       else word % BAL_MASK == (-r.address) % BAL_MASK
  }

  lemma BranchWord(r: Reloc, syms: seq<Symbol>, base: int, word: nat, dst: int)
    requires LocalBranch(r, syms, word) && Near(r.howto, syms[r.sym].value - r.address)
    ensures Branched(r.howto, Patched(r, syms, base, word, dst) % WORD) == syms[r.sym].value - r.address
  {
    var v, m := syms[r.sym].value, if r.howto.Pcrel13? then PCREL13_MASK else BAL_MASK;
    FieldHolds(word, v, r.address, m);
    assert GetValue(r, syms[r.sym], base) - base + r.addend == v;
    if r.howto.CallJ? {
      CallFieldDecodes(Patched(r, syms, base, word, dst), v - r.address);
    } else {
      LowBits(word, (v - r.address) % m, m);
      SignedField(v - r.address);
    }
  }

  /** Branches that are not shortened never take their own move into account: one that
      stands at its place in the image leads to its symbol exactly if nothing was dropped
      before it. */
  lemma {:induction false} PlainBranchLandsIff(data: seq<byte>, relocs: seq<Reloc>, syms: seq<Symbol>, base: int,
                                               n: nat)
    requires Emittable(relocs, syms, |data|) && n < |relocs| && 0 <= relocs[n].address
    requires relocs[n].address + 4 <= |data|
    requires LocalBranch(relocs[n], syms, Get32(data, relocs[n].address))
    requires Near(relocs[n].howto, syms[relocs[n].sym].value - relocs[n].address)
    ensures var at, out := Reach(Walk(relocs, n), relocs[n]).dst, Image(data, relocs, syms, base);
            && 0 <= at && at + 4 <= |out|
            && (at + Branched(relocs[n].howto, Get32(out, at)) == syms[relocs[n].sym].value
                <==> Dropped(relocs, n) == 0)
  {
    var at := Reach(Walk(relocs, n), relocs[n]).dst;
    PieceKept(data, relocs, syms, base, n);
    BranchWord(relocs[n], syms, base, Get32(data, relocs[n].address), at);
  }
}
