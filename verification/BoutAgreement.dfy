/** The two passes of b.out relaxation agree: the emission pass drops exactly the bytes
    that the relaxation pass took the symbols back by. */
module BoutAgreement {
  import opened Rounding
  import opened Bout
  import opened BoutEmission

  /** Later turns of the loop leave the relocations already done alone. */
  lemma {:induction false} RelaxKeepsDone(base: int, relocs: seq<Reloc>, syms: seq<Symbol>, n: nat, m: nat)
    requires SymbolsPresent(relocs, |syms|) && n <= m <= |relocs|
    ensures Relax(base, relocs, syms, m).relocs[..n] == Relax(base, relocs, syms, n).relocs[..n]
    decreases m
  {
    if n < m {
      RelaxKeepsDone(base, relocs, syms, n, m - 1);
    }
  }

  /** The n-th relocation of the final table is what turn n made of the original one. */
  lemma {:induction false} Turn(base: int, relocs: seq<Reloc>, syms: seq<Symbol>, n: nat)
    requires SymbolsPresent(relocs, |syms|) && n < |relocs|
    ensures var s := Relax(base, relocs, syms, n);
            var t := RelaxOne(base, relocs[n], s.syms, s.shrink);
            && Relaxed(base, relocs, syms).relocs[n] == t.0
            && Relax(base, relocs, syms, n + 1).syms == t.1
            && Relax(base, relocs, syms, n + 1).shrink == t.2
  {
    var s := Relax(base, relocs, syms, n);
    var all := |relocs|;
    assert s.relocs[n] == s.relocs[n..][0] == relocs[n];
    RelaxKeepsDone(base, relocs, syms, n + 1, all);
    assert Relax(base, relocs, syms, all).relocs[n] == Relax(base, relocs, syms, all).relocs[..n + 1][n];
    assert Relax(base, relocs, syms, n + 1).relocs[n] == Relax(base, relocs, syms, n + 1).relocs[..n + 1][n];
  }

  /** aligncode always finds something to drop, and never more than the gap. */
  lemma AlignDeltaBounds(base: int, r: Reloc, k: Alignment, shrink: int)
    ensures 1 <= AlignDelta(base, r, k, shrink) <= OldEnd(base, r, k) - base - r.address
    ensures AlignDelta(base, r, k, shrink) < 2 * Size(k)
  {
  }

  function LastEnd(base: int, relocs: seq<Reloc>, n: nat): int
    requires n <= |relocs|
  {
    if n == 0 then 0 else End(base, relocs[n - 1])
  }

  /** What one emission step does with the relocation that one relaxation step made. */
  lemma {:induction false} OneStep(base: int, r: Reloc, syms: seq<Symbol>, shrink: int, c: Cursor)
    requires !r.howto.AlignDone? && !r.howto.Abs32CodeShrunk?
    requires NeedsSymbol(r.howto) ==> r.sym < |syms|
    requires 0 <= c.dst && c.src <= Start(r) && c.src - c.dst == shrink >= 0
    ensures var t := RelaxOne(base, r, syms, shrink);
            var after := Advance(c, t.0);
            && !t.0.howto.Aligner?
            && Start(r) <= t.0.address < after.src == End(base, r)
            && c.dst <= Reach(c, t.0).dst <= after.dst <= after.src
            && shrink <= t.2 < shrink + 32
            && (shrink < t.2 ==> t.0.address == Start(r))
            && (after.src - after.dst == t.2 <==> AlignedAt(base, r))
  {
    if r.howto.Aligner? {
      AlignDeltaBounds(base, r, r.howto.k, shrink);
      RoundUpShift(base, r.address - shrink, Size(r.howto.k));
      assert base + r.address - shrink == base + (r.address - shrink);
    }
  }

  lemma {:induction false} EmissionStep(base: int, relocs: seq<Reloc>, syms: seq<Symbol>, size: int, n: nat, c: Cursor)
    requires Input(base, relocs, syms, size) && n < |relocs|
    requires c.src == LastEnd(base, relocs, n)
    requires c.src - c.dst == Relax(base, relocs, syms, n).shrink >= 0 && 0 <= c.dst
    ensures var r := Relaxed(base, relocs, syms).relocs[n];
            var after, shrunk := Advance(c, r), Relax(base, relocs, syms, n + 1).shrink;
            && !r.howto.Aligner?
            && c.src <= Start(relocs[n]) <= r.address < after.src == LastEnd(base, relocs, n + 1) <= size
            && c.dst <= Reach(c, r).dst <= after.dst <= after.src
            && c.src - c.dst <= shrunk < c.src - c.dst + 32
            && (shrunk > c.src - c.dst ==> r.address == Start(relocs[n]))
            && (after.src - after.dst == shrunk <==> AlignedAt(base, relocs[n]))
  {
    Turn(base, relocs, syms, n);
    if n > 0 {
      assert End(base, relocs[n - 1]) <= Start(relocs[n]);
    }
    var s := Relax(base, relocs, syms, n);
    OneStep(base, relocs[n], s.syms, s.shrink, c);
  }

  /** Both passes in step: after every relocation the read cursor is past everything
      that relocation owned, and has gained on the write cursor by `shrink`. */
  lemma {:induction false} InStep(base: int, relocs: seq<Reloc>, syms: seq<Symbol>, size: int, n: nat)
    requires Input(base, relocs, syms, size) && AlignedBase(base, relocs) && n <= |relocs|
    ensures var c := Walk(Relaxed(base, relocs, syms).relocs, n);
            && c.src == LastEnd(base, relocs, n)
            && c.src - c.dst == Relax(base, relocs, syms, n).shrink >= 0 && 0 <= c.dst
  {
    if n > 0 {
      InStep(base, relocs, syms, size, n - 1);
      EmissionStep(base, relocs, syms, size, n - 1, Walk(Relaxed(base, relocs, syms).relocs, n - 1));
    }
  }

  predicate AgreeAt(base: int, relocs: seq<Reloc>, syms: seq<Symbol>, n: nat)
    requires SymbolsPresent(relocs, |syms|) && n <= |relocs|
  {
    Dropped(Relaxed(base, relocs, syms).relocs, n) == Relax(base, relocs, syms, n).shrink
  }

  /** The emission pass reproduces the running `shrink` of the relaxation pass after
      every relocation exactly when the section is placed on a multiple of every
      alignment it asks for. */
  lemma {:induction false} PassesAgreeIffAligned(base: int, relocs: seq<Reloc>, syms: seq<Symbol>, size: int)
    requires Input(base, relocs, syms, size)
    ensures (forall n | 0 <= n <= |relocs| :: AgreeAt(base, relocs, syms, n)) <==> AlignedBase(base, relocs)
  {
    if AlignedBase(base, relocs) {
      forall n | 0 <= n <= |relocs| ensures AgreeAt(base, relocs, syms, n) {
        InStep(base, relocs, syms, size, n);
      }
    }
    if forall n | 0 <= n <= |relocs| :: AgreeAt(base, relocs, syms, n) {
      AgreementNeedsAlignment(base, relocs, syms, size, |relocs|);
    }
  }

  lemma {:induction false} AgreementNeedsAlignment(base: int, relocs: seq<Reloc>, syms: seq<Symbol>, size: int, n: nat)
    requires Input(base, relocs, syms, size) && n <= |relocs|
    requires forall m | 0 <= m <= n :: AgreeAt(base, relocs, syms, m)
    ensures forall i :: 0 <= i < n ==> AlignedAt(base, relocs[i])
    ensures var c := Walk(Relaxed(base, relocs, syms).relocs, n);
            c.src == LastEnd(base, relocs, n) && 0 <= c.dst <= c.src
  {
    if n > 0 {
      AgreementNeedsAlignment(base, relocs, syms, size, n - 1);
      AgreementStep(base, relocs, syms, size, n - 1);
    }
  }

  lemma AgreementStep(base: int, relocs: seq<Reloc>, syms: seq<Symbol>, size: int, n: nat)
    requires Input(base, relocs, syms, size) && n < |relocs|
    requires AgreeAt(base, relocs, syms, n) && AgreeAt(base, relocs, syms, n + 1)
    requires var c := Walk(Relaxed(base, relocs, syms).relocs, n);
             c.src == LastEnd(base, relocs, n) && 0 <= c.dst <= c.src
    ensures AlignedAt(base, relocs[n])
    ensures var c := Walk(Relaxed(base, relocs, syms).relocs, n + 1);
            c.src == LastEnd(base, relocs, n + 1) && 0 <= c.dst <= c.src
  {
    EmissionStep(base, relocs, syms, size, n, Walk(Relaxed(base, relocs, syms).relocs, n));
  }

  /** One relocation never drops more than its own gap or four bytes. */
  predicate SmallDrop(relocs: seq<Reloc>, i: nat)
    requires i < |relocs|
  {
    Dropped(relocs, i) <= Dropped(relocs, i + 1) < Dropped(relocs, i) + 32
  }

  predicate SmallDrops(relocs: seq<Reloc>) {
    forall i :: 0 <= i < |relocs| ==> SmallDrop(relocs, i)
  }

  /** Whatever the relaxation pass leaves, the emission pass can process: no relocation
      its switch aborts on, the read position never passes a relocation or the end of the
      original section, src - dst never decreases, dst never passes src, and the bytes it
      produces are exactly as many as relaxation left in the section. */
  lemma {:induction false} RelaxedIsEmittable(base: int, relocs: seq<Reloc>, syms: seq<Symbol>, size: int)
    requires Input(base, relocs, syms, size) && AlignedBase(base, relocs) && 0 <= size
    ensures var s := Relaxed(base, relocs, syms);
            && Emittable(s.relocs, s.syms, size)
            && SmallDrops(s.relocs)
            && size - Dropped(s.relocs, |relocs|) == size - s.shrink
  {
    var s := Relaxed(base, relocs, syms);
    forall i | 0 <= i < |relocs|
      ensures Ready(s.relocs, i, size) && SmallDrop(s.relocs, i)
    {
      InStep(base, relocs, syms, size, i);
      InStep(base, relocs, syms, size, i + 1);
      EmissionStep(base, relocs, syms, size, i, Walk(s.relocs, i));
    }
    InStep(base, relocs, syms, size, |relocs|);
  }

  /** Every alignment the assembler asked for is met where the code finally goes, by a
      gap smaller than the alignment itself. */
  lemma {:induction false} AlignmentHonoured(base: int, relocs: seq<Reloc>, syms: seq<Symbol>, size: int, n: nat)
    requires Input(base, relocs, syms, size) && AlignedBase(base, relocs)
    requires n < |relocs| && relocs[n].howto.Aligner?
    ensures var rs, k := Relaxed(base, relocs, syms).relocs, relocs[n].howto.k;
            && rs[n].howto == AlignDone(k)
            && (base + Walk(rs, n + 1).dst) % [2, 4, 8, 16][k] == 0
            && 0 <= Walk(rs, n + 1).dst - Reach(Walk(rs, n), rs[n]).dst < [2, 4, 8, 16][k]
  {
    var rs, k := Relaxed(base, relocs, syms).relocs, relocs[n].howto.k;
    Turn(base, relocs, syms, n);
    AlignDeltaBounds(base, relocs[n], k, Relax(base, relocs, syms, n).shrink);
    assert AlignedAt(base, relocs[n]);
    var dst := Walk(rs, n + 1).dst;
    MultiplesSubtract(0, base, Size(k));
    MultiplesSubtract(dst, -base, Size(k));
  }
}
