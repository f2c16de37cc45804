/** The assertions that the emission loop of bout.c makes, and where they fail. */
module BoutAssertions {
  import opened Rounding
  import opened Bout
  import opened BoutEmission
  import opened BoutAgreement

  /** The loop stops once it has written `size` bytes, so it may not come to a relocation. */
  predicate Reached(relocs: seq<Reloc>, size: int, n: nat)
    requires n <= |relocs|
  {
    Walk(relocs, n).dst < size
  }

  /** What the switch asserts of relocation r when the read position has come to it: the
      section it compares the end of an alignment with has its relaxed size. */
  predicate SwitchAsserts(r: Reloc, syms: seq<Symbol>, size: int)
    requires NeedsSymbol(r.howto) ==> r.sym < |syms|
  {
    match r.howto
    case AlignDone(_) => r.address <= r.addend <= size
    case Abs32CodeShrunk => !syms[r.sym].form.SectionSymbol?
    case CallJ => syms[r.sym].form.SectionSymbol? ==> syms[r.sym].home.Here?
    case _ => true
  }

  predicate Asserted(relocs: seq<Reloc>, syms: seq<Symbol>, size: int, n: nat)
    requires SymbolsPresent(relocs, |syms|) && n < |relocs|
  {
    Walk(relocs, n).src <= relocs[n].address && SwitchAsserts(relocs[n], syms, size)
  }

  /** Every assertion that the loop comes to. */
  predicate AllAsserted(relocs: seq<Reloc>, syms: seq<Symbol>, size: int)
    requires SymbolsPresent(relocs, |syms|)
  {
    forall n :: 0 <= n < |relocs| && Reached(relocs, size, n) ==> Asserted(relocs, syms, size, n)
  }

  /** The end of an original gap lies within what is left of the section: at least as many
      bytes follow the gap as the whole section has lost. */
  predicate GapInside(base: int, r: Reloc, size: int) {
    r.howto.Aligner? ==> End(base, r) <= size
  }

  /** A call that was shortened names no section, and a short call that does names this one. */
  predicate CallNamed(relaxed: Reloc, syms: seq<Symbol>)
    requires NeedsSymbol(relaxed.howto) ==> relaxed.sym < |syms|
  {
    && (relaxed.howto.Abs32CodeShrunk? ==> !syms[relaxed.sym].form.SectionSymbol?)
    && (relaxed.howto.CallJ? && syms[relaxed.sym].form.SectionSymbol? ==> syms[relaxed.sym].home.Here?)
  }

  lemma {:induction false} AssertedIff(base: int, relocs: seq<Reloc>, syms: seq<Symbol>, size: int, n: nat)
    requires Input(base, relocs, syms, size) && AlignedBase(base, relocs) && 0 <= size && n < |relocs|
    ensures var s := Relaxed(base, relocs, syms);
            && SymbolsPresent(s.relocs, |s.syms|)
            && (Asserted(s.relocs, s.syms, size - s.shrink, n)
                <==> GapInside(base, relocs[n], size - s.shrink) && CallNamed(s.relocs[n], s.syms))
  {
    var s := Relaxed(base, relocs, syms);
    RelaxedIsEmittable(base, relocs, syms, size);
    assert Ready(s.relocs, n, size);
    Turn(base, relocs, syms, n);
    if relocs[n].howto.Aligner? {
      AlignDeltaBounds(base, relocs[n], relocs[n].howto.k, Relax(base, relocs, syms, n).shrink);
    }
  }

  /** After relaxation the assertions of the emission loop hold exactly if every gap it comes
      to ends within the relaxed size, no call against a section symbol has been shortened,
      and no short call is against the symbol of another section. */
  lemma {:induction false} AssertionsHoldIff(base: int, relocs: seq<Reloc>, syms: seq<Symbol>, size: int)
    requires Input(base, relocs, syms, size) && AlignedBase(base, relocs) && 0 <= size
    ensures var s := Relaxed(base, relocs, syms);
            && SymbolsPresent(s.relocs, |s.syms|)
            && (AllAsserted(s.relocs, s.syms, size - s.shrink)
                <==> forall n :: 0 <= n < |relocs| && Reached(s.relocs, size - s.shrink, n) ==>
                       GapInside(base, relocs[n], size - s.shrink) && CallNamed(s.relocs[n], s.syms))
  {
    var s := Relaxed(base, relocs, syms);
    forall n | 0 <= n < |relocs|
      ensures Asserted(s.relocs, s.syms, size - s.shrink, n)
              <==> GapInside(base, relocs[n], size - s.shrink) && CallNamed(s.relocs[n], s.syms)
    {
      AssertedIff(base, relocs, syms, size, n);
    }
  }

  /** So an alignment whose gap ends the section always fails, if the loop comes to it. */
  lemma {:induction false} GapAtEndFails(base: int, relocs: seq<Reloc>, syms: seq<Symbol>, size: int, n: nat)
    requires Input(base, relocs, syms, size) && AlignedBase(base, relocs) && 0 <= size
    requires n + 1 == |relocs| && relocs[n].howto.Aligner? && End(base, relocs[n]) == size
    ensures var s := Relaxed(base, relocs, syms);
            && SymbolsPresent(s.relocs, |s.syms|)
            && (Reached(s.relocs, size - s.shrink, n) ==> !AllAsserted(s.relocs, s.syms, size - s.shrink))
  {
    Turn(base, relocs, syms, n);
    AlignDeltaBounds(base, relocs[n], relocs[n].howto.k, Relax(base, relocs, syms, n).shrink);
    InStep(base, relocs, syms, size, n);
    AssertedIff(base, relocs, syms, size, n);
  }

  lemma FourIsAligned()
    ensures Up(4, 1) == 4
  {
    RoundUpMultiple(4, Size(1));
  }

  /** Four bytes of code and a gap of four, all of which goes. */
  lemma GapAtEndExample(r: Reloc, size: int)
    requires r == Reloc(4, Aligner(1), 0, 0) && size == 8
    ensures Input(0, [r], [], size) && AlignedBase(0, [r])
    ensures var s := Relaxed(0, [r], []);
            s.shrink == 4 && SymbolsPresent(s.relocs, 0) && !AllAsserted(s.relocs, s.syms, size - s.shrink)
  {
    hide Up;
    FourIsAligned();
    assert Relax(0, [r], [], 0) == State([r], [], 0);
    GapAtEndFails(0, [r], [], size, 0);
  }

  // ----- told from the original section

  /** What relaxation has taken off the section once it has done n relocations. */
  function Lost(base: int, relocs: seq<Reloc>, syms: seq<Symbol>, n: nat): int
    requires SymbolsPresent(relocs, |syms|) && n <= |relocs|
  {
    Relax(base, relocs, syms, n).shrink
  }

  /** A gap ends within what is left of the section; a call against a section symbol is not
      shortened; a short call against one stays in this section. */
  predicate Spared(base: int, relocs: seq<Reloc>, syms: seq<Symbol>, size: int, n: nat)
    requires SymbolsPresent(relocs, |syms|) && n < |relocs|
  {
    var r := relocs[n];
    match r.howto
    case Aligner(_) => End(base, r) <= size - Lost(base, relocs, syms, |relocs|)
    case Abs32Code => syms[r.sym].form.SectionSymbol? ==> Lost(base, relocs, syms, n + 1) == Lost(base, relocs, syms, n)
    case CallJ => syms[r.sym].form.SectionSymbol? ==> syms[r.sym].home.Here?
    case _ => true
  }

  /** Relaxation changes nothing about a symbol but its value. */
  lemma {:induction false} SameSymbols(base: int, relocs: seq<Reloc>, syms: seq<Symbol>, n: nat, i: nat)
    requires SymbolsPresent(relocs, |syms|) && n <= |relocs| && i < |syms|
    ensures var s := Relax(base, relocs, syms, n).syms; s[i].form == syms[i].form && s[i].home == syms[i].home
  {
    if n > 0 {
      SameSymbols(base, relocs, syms, n - 1, i);
      Turn(base, relocs, syms, n - 1);
    }
  }

  lemma {:induction false} SparedIff(base: int, relocs: seq<Reloc>, syms: seq<Symbol>, size: int, n: nat)
    requires Input(base, relocs, syms, size) && AlignedBase(base, relocs) && 0 <= size && n < |relocs|
    ensures var s := Relaxed(base, relocs, syms);
            && SymbolsPresent(s.relocs, |s.syms|)
            && (Spared(base, relocs, syms, size, n)
                <==> GapInside(base, relocs[n], size - s.shrink) && CallNamed(s.relocs[n], s.syms))
            && (Reached(s.relocs, size - s.shrink, n)
                <==> LastEnd(base, relocs, n) - Lost(base, relocs, syms, n) < size - Lost(base, relocs, syms, |relocs|))
  {
    Turn(base, relocs, syms, n);
    InStep(base, relocs, syms, size, n);
    if NeedsSymbol(relocs[n].howto) {
      SameSymbols(base, relocs, syms, |relocs|, relocs[n].sym);
    }
    if relocs[n].howto.Aligner? {
      AlignDeltaBounds(base, relocs[n], relocs[n].howto.k, Relax(base, relocs, syms, n).shrink);
    }
  }

  /** The assertions, told from the original relocations and symbols and from how much each
      turn of the relaxation takes off. */
  lemma AssertionsHoldIffSpared(base: int, relocs: seq<Reloc>, syms: seq<Symbol>, size: int)
    requires Input(base, relocs, syms, size) && AlignedBase(base, relocs) && 0 <= size
    ensures var s := Relaxed(base, relocs, syms);
            && SymbolsPresent(s.relocs, |s.syms|)
            && (AllAsserted(s.relocs, s.syms, size - s.shrink)
                <==> forall n :: 0 <= n < |relocs|
                       && LastEnd(base, relocs, n) - Lost(base, relocs, syms, n)
                          < size - Lost(base, relocs, syms, |relocs|)
                       ==> Spared(base, relocs, syms, size, n))
  {
    AssertionsHoldIff(base, relocs, syms, size);
    forall n | 0 <= n < |relocs|
      ensures var s := Relaxed(base, relocs, syms);
              && (Spared(base, relocs, syms, size, n)
                  <==> GapInside(base, relocs[n], size - s.shrink) && CallNamed(s.relocs[n], s.syms))
              && (Reached(s.relocs, size - s.shrink, n)
                  <==> LastEnd(base, relocs, n) - Lost(base, relocs, syms, n)
                       < size - Lost(base, relocs, syms, |relocs|))
    {
      SparedIff(base, relocs, syms, size, n);
    }
    hide Spared, GapInside, CallNamed, Reached, Lost;
  }

  /** The most that can be lost: whole gaps, and four bytes for each call. */
  function Budget(base: int, relocs: seq<Reloc>, n: nat): (b: int)
    requires n <= |relocs|
    ensures b >= 0
  {
    if n == 0 then 0
    else
      var r := relocs[n - 1];
      Budget(base, relocs, n - 1)
      + match r.howto
        case Aligner(_) => End(base, r) - r.address
        case Abs32Code => 4
        case _ => 0
  }

  lemma {:induction false} LostBounds(base: int, relocs: seq<Reloc>, syms: seq<Symbol>, n: nat)
    requires SymbolsPresent(relocs, |syms|) && Fresh(relocs) && n <= |relocs|
    ensures 0 <= Lost(base, relocs, syms, n) <= Budget(base, relocs, n)
  {
    if n > 0 {
      LostBounds(base, relocs, syms, n - 1);
      Turn(base, relocs, syms, n - 1);
      if relocs[n - 1].howto.Aligner? {
        AlignDeltaBounds(base, relocs[n - 1], relocs[n - 1].howto.k, Relax(base, relocs, syms, n - 1).shrink);
      }
    }
  }

  /** What can be seen without relaxing: behind each gap there is as much as can be lost,
      and no call that can be shortened is against a section symbol. */
  predicate Roomy(base: int, relocs: seq<Reloc>, syms: seq<Symbol>, size: int, n: nat)
    requires SymbolsPresent(relocs, |syms|) && n < |relocs|
  {
    var r := relocs[n];
    match r.howto
    case Aligner(_) => End(base, r) + Budget(base, relocs, |relocs|) <= size
    case Abs32Code => !syms[r.sym].form.SectionSymbol?
    case CallJ => syms[r.sym].form.SectionSymbol? ==> syms[r.sym].home.Here?
    case _ => true
  }

  /** That is enough for all assertions. */
  lemma RoomyHolds(base: int, relocs: seq<Reloc>, syms: seq<Symbol>, size: int)
    requires Input(base, relocs, syms, size) && AlignedBase(base, relocs) && 0 <= size
    requires forall n :: 0 <= n < |relocs| ==> Roomy(base, relocs, syms, size, n)
    ensures var s := Relaxed(base, relocs, syms);
            SymbolsPresent(s.relocs, |s.syms|) && AllAsserted(s.relocs, s.syms, size - s.shrink)
  {
    AssertionsHoldIffSpared(base, relocs, syms, size);
    LostBounds(base, relocs, syms, |relocs|);
    forall n | 0 <= n < |relocs| ensures Spared(base, relocs, syms, size, n) {
      assert Roomy(base, relocs, syms, size, n);
    }
    hide Spared, AllAsserted, Roomy;
  }
}
