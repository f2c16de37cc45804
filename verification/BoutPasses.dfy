/** The loops of bout.c, working in place on the relocation table, the symbol table, the
    link hash entries and the section contents. */
module BoutPasses {
  import opened Bytes
  import opened Wrappers
  import opened Bout
  import opened BoutEmission
  import opened BoutAssertions
  import BoutMeaning

  // ----- the address-sorting loop of b_out_slurp_reloc_table

  /** r goes after every relocation that is not at a higher address. */
  function Insert(sorted: seq<Reloc>, r: Reloc): (s: seq<Reloc>)
    ensures |s| == |sorted| + 1
  {
    if sorted == [] || sorted[|sorted| - 1].address <= r.address then
      sorted + [r]
    else
      Insert(sorted[..|sorted| - 1], r) + [sorted[|sorted| - 1]]
  }

  function InAddressOrder(raw: seq<Reloc>): (s: seq<Reloc>)
    ensures |s| == |raw|
  {
    if raw == [] then [] else Insert(InAddressOrder(raw[..|raw| - 1]), raw[|raw| - 1])
  }

  predicate Ascending(s: seq<Reloc>) {
    forall i, j :: 0 <= i < j < |s| ==> s[i].address <= s[j].address
  }

  /** The relocations at one address, in table order. */
  function AtAddress(s: seq<Reloc>, a: int): seq<Reloc> {
    if s == [] then []
    else AtAddress(s[..|s| - 1], a) + if s[|s| - 1].address == a then [s[|s| - 1]] else []
  }

  lemma {:induction false} InsertKeepsOrder(sorted: seq<Reloc>, r: Reloc, top: int)
    requires Ascending(sorted) && r.address <= top
    requires forall i :: 0 <= i < |sorted| ==> sorted[i].address <= top
    ensures Ascending(Insert(sorted, r))
    ensures forall i :: 0 <= i < |sorted| + 1 ==> Insert(sorted, r)[i].address <= top
  {
    if sorted != [] && sorted[|sorted| - 1].address > r.address {
      InsertKeepsOrder(sorted[..|sorted| - 1], r, sorted[|sorted| - 1].address);
    }
  }

  lemma {:induction false} InsertAdds(sorted: seq<Reloc>, r: Reloc)
    ensures multiset(Insert(sorted, r)) == multiset(sorted) + multiset{r}
  {
    if sorted != [] {
      assert sorted == sorted[..|sorted| - 1] + [sorted[|sorted| - 1]];
      InsertAdds(sorted[..|sorted| - 1], r);
    }
  }

  lemma {:induction false} InsertIsStable(sorted: seq<Reloc>, r: Reloc, a: int)
    ensures AtAddress(Insert(sorted, r), a) == AtAddress(sorted, a) + if r.address == a then [r] else []
  {
    if sorted == [] || sorted[|sorted| - 1].address <= r.address {
      assert (sorted + [r])[..|sorted|] == sorted;
    } else {
      var front, last := sorted[..|sorted| - 1], sorted[|sorted| - 1];
      InsertIsStable(front, r, a);
      assert (Insert(front, r) + [last])[..|sorted|] == Insert(front, r);
    }
  }

  function Highest(s: seq<Reloc>): int
    requires s != []
    ensures forall i :: 0 <= i < |s| ==> s[i].address <= Highest(s)
  {
    if |s| == 1 then s[0].address
    else if s[|s| - 1].address > Highest(s[..|s| - 1]) then s[|s| - 1].address else Highest(s[..|s| - 1])
  }

  /** The table ends up in ascending address order, holding the same relocations, and
      those that share an address keep the order they had in the file. */
  lemma {:induction false} AddressOrderIsStableSort(raw: seq<Reloc>, a: int)
    ensures Ascending(InAddressOrder(raw))
    ensures multiset(InAddressOrder(raw)) == multiset(raw)
    ensures AtAddress(InAddressOrder(raw), a) == AtAddress(raw, a)
  {
    if raw != [] {
      var front, last := raw[..|raw| - 1], raw[|raw| - 1];
      assert raw == front + [last];
      AddressOrderIsStableSort(front, a);
      var sorted := InAddressOrder(front);
      InsertKeepsOrder(sorted, last, Highest(sorted + [last]));
      InsertAdds(sorted, last);
      InsertIsStable(sorted, last, a);
    }
  }

  /** Reads the table in file order, moving each relocation that is out of order back to
      its place. */
  method SortTable(raw: seq<Reloc>) returns (cache: array<Reloc>)
    requires forall i :: 0 <= i < |raw| ==> 0 <= raw[i].address
    ensures fresh(cache) && cache[..] == InAddressOrder(raw)
  {
    cache := new Reloc[|raw|];
    var prevAddr := 0;
    for counter := 0 to |raw|
      invariant cache[..counter] == InAddressOrder(raw[..counter])
      invariant prevAddr == if counter == 0 then 0 else cache[counter - 1].address
    {
      assert raw[..counter + 1][..counter] == raw[..counter];
      cache[counter] := raw[counter];
      if cache[counter].address < prevAddr {
        InsertInPlace(cache, counter);
      } else {
        prevAddr := cache[counter].address;
        assert cache[..counter + 1] == cache[..counter] + [raw[counter]];
      }
    }
    assert raw[..|raw|] == raw && cache[..] == cache[..|raw|];
  }

  /** Slides the relocations at higher addresses up by one and drops this one in. */
  method InsertInPlace(cache: array<Reloc>, at: nat)
    requires 0 < at < cache.Length && cache[at].address < cache[at - 1].address
    modifies cache
    ensures cache[..at + 1] == Insert(old(cache[..at]), old(cache[at]))
    ensures cache[at] == old(cache[at - 1])
  {
    hide Insert;
    ghost var sorted := cache[..at];
    var tmp, cursor := cache[at], at - 1;
    while cursor >= 0 && cache[cursor].address > tmp.address
      invariant -1 <= cursor < at
      invariant forall k :: 0 <= k <= cursor ==> cache[k] == sorted[k]
      invariant forall k :: cursor + 2 <= k <= at ==> cache[k] == sorted[k - 1]
      invariant cursor == at - 1 ==> cache[cursor].address > tmp.address
      invariant forall k :: cursor < k < at ==> sorted[k].address > tmp.address
    {
      cache[cursor + 1] := cache[cursor];
      cursor := cursor - 1;
    }
    cache[cursor + 1] := tmp;
    InsertAt(sorted, tmp, cursor + 1);
    assert cache[..at + 1] == sorted[..cursor + 1] + [tmp] + sorted[cursor + 1..];
  }

  lemma {:induction false} InsertAt(sorted: seq<Reloc>, r: Reloc, n: nat)
    requires n <= |sorted|
    requires forall k :: n <= k < |sorted| ==> sorted[k].address > r.address
    requires n == 0 || sorted[n - 1].address <= r.address
    ensures Insert(sorted, r) == sorted[..n] + [r] + sorted[n..]
  {
    if n < |sorted| {
      InsertAt(sorted[..|sorted| - 1], r, n);
    }
  }

  // ----- the relaxation pass

  predicate Linked(s: Symbol) {
    s.home.Here? && s.entry.Some?
  }

  /** Every symbol of the section agrees with the link hash entry defined from it, and no
      two of them share an entry. */
  predicate HashInSync(syms: seq<Symbol>, defs: seq<int>) {
    && (forall i :: 0 <= i < |syms| && Linked(syms[i]) ==>
          syms[i].entry.value < |defs| && defs[syms[i].entry.value] == syms[i].value)
    && (forall i, j :: 0 <= i < j < |syms| && Linked(syms[i]) && Linked(syms[j]) ==> syms[i].entry != syms[j].entry)
  }

  /** No symbol of this section defines entry e. */
  predicate Unrelated(syms: seq<Symbol>, e: nat) {
    forall i :: 0 <= i < |syms| && Linked(syms[i]) ==> syms[i].entry.value != e
  }

  /** perform_slip, which finds every symbol past `at` and moves its hash entry with it. */
  method PerformSlip(syms: array<Symbol>, defs: array<int>, slip: int, at: int)
    requires syms as object != defs && HashInSync(syms[..], defs[..])
    modifies syms, defs
    ensures syms[..] == Slip(old(syms[..]), slip, at)
    ensures HashInSync(syms[..], defs[..])
    ensures forall e :: 0 <= e < defs.Length && Unrelated(old(syms[..]), e) ==> defs[e] == old(defs[e])
  {
    ghost var was := syms[..];
    for k := 0 to syms.Length
      invariant forall i :: 0 <= i < k ==> syms[i] == SlipOne(was[i], slip, at)
      invariant forall i :: k <= i < syms.Length ==> syms[i] == was[i]
      invariant HashInSync(syms[..], defs[..])
      invariant forall e :: 0 <= e < defs.Length && Unrelated(was, e) ==> defs[e] == old(defs[e])
    {
      var p := syms[k];
      if p.home.Here? && p.value > at {
        SlipSymbol(syms, defs, k, slip);
        assert Linked(p) && Unrelated(was, p.entry.value) ==> Linked(was[k]);
      }
    }
  }

  /** Moves one symbol of the section, and its link hash entry when it has one. */
  method SlipSymbol(syms: array<Symbol>, defs: array<int>, k: nat, slip: int)
    requires syms as object != defs && HashInSync(syms[..], defs[..])
    requires k < syms.Length && syms[k].home.Here?
    modifies syms, defs
    ensures syms[..] == old(syms[..])[k := old(syms[k]).(value := old(syms[k]).value - slip)]
    ensures HashInSync(syms[..], defs[..])
    ensures forall e :: 0 <= e < defs.Length && old(syms[k]).entry != Some(e) ==> defs[e] == old(defs[e])
  {
    var p := syms[k];
    assert syms[..][k] == p;
    syms[k] := p.(value := p.value - slip);
    if p.entry.Some? {
      defs[p.entry.value] := defs[p.entry.value] - slip;
    }
    SyncAfterSlip(old(syms[..]), old(defs[..]), k, slip, syms[..], defs[..]);
  }

  lemma SyncAfterSlip(syms: seq<Symbol>, defs: seq<int>, k: nat, slip: int, syms': seq<Symbol>, defs': seq<int>)
    requires HashInSync(syms, defs) && k < |syms| && syms[k].home.Here?
    requires syms' == syms[k := syms[k].(value := syms[k].value - slip)]
    requires Linked(syms[k]) ==> defs' == defs[syms[k].entry.value := syms[k].value - slip]
    requires !Linked(syms[k]) ==> defs' == defs
    ensures HashInSync(syms', defs')
  {
    forall i | 0 <= i < |syms'| && Linked(syms'[i])
      ensures syms'[i].entry.value < |defs'| && defs'[syms'[i].entry.value] == syms'[i].value
    {
      assert Linked(syms[i]);
    }
    forall i, j | 0 <= i < j < |syms'| && Linked(syms'[i]) && Linked(syms'[j])
      ensures syms'[i].entry != syms'[j].entry
    {
      assert Linked(syms[i]) && Linked(syms[j]);
    }
  }

  /** abs32code. */
  method RelaxCallInPlace(base: int, relocs: array<Reloc>, n: nat, shrink: int, syms: array<Symbol>, defs: array<int>)
    returns (shrunk: int)
    requires relocs as object != syms && relocs as object != defs && syms as object != defs
    requires n < relocs.Length && relocs[n].sym < syms.Length && HashInSync(syms[..], defs[..])
    modifies relocs, syms, defs
    ensures var t := RelaxCall(base, old(relocs[n]), old(syms[..]), shrink);
            relocs[..] == old(relocs[..])[n := t.0] && syms[..] == t.1 && shrunk == t.2
    ensures HashInSync(syms[..], defs[..])
  {
    shrunk := shrink;
    var value, dot := GetValue(relocs[n], syms[relocs[n].sym], base), base + relocs[n].address;
    var gap := value - (dot - shrink);
    if -REACH < gap < REACH {
      relocs[n] := relocs[n].(howto := Abs32CodeShrunk);
      relocs[n] := relocs[n].(address := relocs[n].address - 4);
      shrunk := shrunk + 4;
      PerformSlip(syms, defs, 4, relocs[n].address - shrunk + 4);
    }
  }

  /** aligncode. */
  method RelaxAlignInPlace(base: int, relocs: array<Reloc>, n: nat, shrink: int, syms: array<Symbol>, defs: array<int>)
    returns (shrunk: int)
    requires relocs as object != syms && relocs as object != defs && syms as object != defs
    requires n < relocs.Length && relocs[n].howto.Aligner? && HashInSync(syms[..], defs[..])
    modifies relocs, syms, defs
    ensures var t := RelaxAlign(base, old(relocs[n]), old(relocs[n]).howto.k, old(syms[..]), shrink);
            relocs[..] == old(relocs[..])[n := t.0] && syms[..] == t.1 && shrunk == t.2
    ensures HashInSync(syms[..], defs[..])
  {
    shrunk := shrink;
    var k, dot := relocs[n].howto.k, base + relocs[n].address;
    var oldEnd := Up(dot, k) + Size(k);
    var newEnd := Up(dot - shrink, k);
    var delta := (oldEnd - newEnd) - shrink;
    if delta != 0 {
      relocs[n] := relocs[n].(howto := AlignDone(k));
      relocs[n] := relocs[n].(addend := oldEnd - dot + relocs[n].address);
      PerformSlip(syms, defs, delta, relocs[n].address - shrink);
      shrunk := shrunk + delta;
    }
  }

  /** b_out_bfd_relax_section: every relocation in turn; what is returned is the new
      section size. */
  method RelaxSection(base: int, relocs: array<Reloc>, syms: array<Symbol>, defs: array<int>, size: int)
    returns (newSize: int)
    requires relocs as object != syms && relocs as object != defs && syms as object != defs
    requires SymbolsPresent(relocs[..], syms.Length) && HashInSync(syms[..], defs[..])
    modifies relocs, syms, defs
    ensures relocs[..] == Relaxed(base, old(relocs[..]), old(syms[..])).relocs
    ensures syms[..] == Relaxed(base, old(relocs[..]), old(syms[..])).syms
    ensures newSize == size - Relaxed(base, old(relocs[..]), old(syms[..])).shrink
    ensures HashInSync(syms[..], defs[..])
  {
    hide Slip, AlignDelta, HashInSync;
    ghost var rs, ss := relocs[..], syms[..];
    var shrink := 0;
    for n := 0 to relocs.Length
      invariant State(relocs[..], syms[..], shrink) == Relax(base, rs, ss, n)
      invariant HashInSync(syms[..], defs[..])
    {
      assert relocs[n] == relocs[..][n..][0] == rs[n..][0];
      ghost var before := Relax(base, rs, ss, n);
      match relocs[n].howto
      case Aligner(_) =>
        shrink := RelaxAlignInPlace(base, relocs, n, shrink, syms, defs);
      case Abs32Code =>
        shrink := RelaxCallInPlace(base, relocs, n, shrink, syms, defs);
      case Abs32CodeShrunk =>
        shrink := shrink + 4;
      case _ =>
      ghost var t := RelaxOne(base, rs[n], before.syms, before.shrink);
      assert relocs[..] == before.relocs[n := t.0] && syms[..] == t.1 && shrink == t.2;
    }
    newSize := size - shrink;
  }

  // ----- the emission pass

  method PutWord(data: array<byte>, at: nat, word: int)
    requires at + 4 <= data.Length
    modifies data
    ensures data[at..at + 4] == Word(word)
    ensures forall k :: 0 <= k < data.Length && !(at <= k < at + 4) ==> data[k] == old(data[k])
  {
    data[at] := word % 0x100;
    data[at + 1] := word / 0x100 % 0x100;
    data[at + 2] := word / 0x1_0000 % 0x100;
    data[at + 3] := word / 0x100_0000 % 0x100;
  }

  /** The inner loop: bytes move down over themselves, each read before it is lost. */
  method CopyRun(data: array<byte>, src: nat, dst: nat, run: nat)
    requires dst <= src && src + run <= data.Length
    modifies data
    ensures forall k :: dst <= k < dst + run ==> data[k] == old(data[src + (k - dst)])
    ensures forall k :: 0 <= k < data.Length && !(dst <= k < dst + run) ==> data[k] == old(data[k])
  {
    for idx := 0 to run
      invariant forall k :: dst <= k < dst + idx ==> data[k] == old(data[src + (k - dst)])
      invariant forall k :: 0 <= k < data.Length && !(dst <= k < dst + idx) ==> data[k] == old(data[k])
    {
      data[dst + idx] := data[src + idx];
    }
  }

  lemma SameWord(a: seq<byte>, b: seq<byte>, i: nat)
    requires i + 4 <= |a| == |b| && forall k :: i <= k < i + 4 ==> a[k] == b[k]
    ensures Get32(a, i) == Get32(b, i)
  {
  }

  /** The switch: patches the word at the write cursor, or skips a shrunk gap.  An assertion
      that fails is reported, and the loop goes on. */
  method ApplyReloc(data: array<byte>, r: Reloc, at: Cursor, syms: seq<Symbol>, base: int, size: int,
                    ghost original: seq<byte>)
    returns (next: Cursor, fine: bool)
    requires !r.howto.Aligner? && (NeedsSymbol(r.howto) ==> r.sym < |syms|)
    requires |original| == data.Length && 0 <= at.dst <= at.src == r.address
    requires Advance(Cursor(r.address, at.dst), r).dst <= Advance(Cursor(r.address, at.dst), r).src <= data.Length
    requires forall k :: at.dst <= k < data.Length ==> data[k] == original[k]
    modifies data
    ensures next == Advance(Cursor(r.address, at.dst), r) && fine == SwitchAsserts(r, syms, size)
    ensures data[at.dst..next.dst] == Piece(original, r, at, syms, base)
    ensures forall k :: 0 <= k < data.Length && !(at.dst <= k < next.dst) ==> data[k] == old(data[k])
  {
    fine := true;
    if r.howto.AlignDone? {
      fine := r.addend >= at.src && r.addend <= size;
      next := Cursor(r.addend, Up(at.dst, r.howto.k));
    } else {
      if r.howto.Abs32CodeShrunk? || r.howto.CallJ? {
        if syms[r.sym].form.SectionSymbol? {
          fine := !r.howto.Abs32CodeShrunk? && syms[r.sym].home.Here?;
        }
      }
      var word := Get32(data[..], Operand(r));
      SameWord(data[..], original, Operand(r));
      PutWord(data, at.dst, Patched(r, syms, base, word, at.dst));
      next := if r.howto.Abs32CodeShrunk? then Cursor(at.src + 8, at.dst + 4) else Cursor(at.src + 4, at.dst + 4);
    }
  }

  /** The buffer once n relocations are done: output below the write cursor, original
      bytes from there on. */
  predicate PartlyEmitted(now: seq<byte>, original: seq<byte>, relocs: seq<Reloc>, syms: seq<Symbol>, base: int, n: nat)
    requires Emittable(relocs, syms, |original|) && n <= |relocs|
  {
    && |now| == |original|
    && forall k :: 0 <= k < |now| ==>
         now[k] == if k < Walk(relocs, n).dst then ByteAt(original, relocs, syms, base, n, k) else original[k]
  }

  /** The run before a relocation, then the relocation. */
  method CopyAndApply(data: array<byte>, r: Reloc, c: Cursor, syms: seq<Symbol>, base: int, size: int,
                      ghost original: seq<byte>)
    returns (next: Cursor, fine: bool)
    requires !r.howto.Aligner? && (NeedsSymbol(r.howto) ==> r.sym < |syms|)
    requires |original| == data.Length && 0 <= c.dst <= c.src <= r.address
    requires Advance(c, r).dst <= Advance(c, r).src <= data.Length
    requires r.address < Advance(c, r).src
    requires forall k :: c.dst <= k < data.Length ==> data[k] == original[k]
    modifies data
    ensures next == Advance(c, r) && fine == SwitchAsserts(r, syms, size)
    ensures forall k :: c.dst <= k < Reach(c, r).dst ==> data[k] == original[c.src + (k - c.dst)]
    ensures data[Reach(c, r).dst..next.dst] == Piece(original, r, Reach(c, r), syms, base)
    ensures forall k :: 0 <= k < data.Length && !(c.dst <= k < next.dst) ==> data[k] == old(data[k])
  {
    hide Piece, Up, SwitchAsserts;
    var run := r.address - c.src;
    CopyRun(data, c.src, c.dst, run);
    var at := Cursor(c.src + run, c.dst + run);
    assert at == Reach(c, r);
    next, fine := ApplyReloc(data, r, at, syms, base, size, original);
  }

  /** One turn of the loop that has a relocation to do. */
  method EmitOne(data: array<byte>, relocs: seq<Reloc>, syms: seq<Symbol>, base: int, size: int, n: nat, c: Cursor,
                 ghost original: seq<byte>)
    returns (next: Cursor, fine: bool)
    requires Emittable(relocs, syms, |original|) && n < |relocs| && c == Walk(relocs, n)
    requires PartlyEmitted(data[..], original, relocs, syms, base, n)
    modifies data
    ensures next == Walk(relocs, n + 1) && fine == Asserted(relocs, syms, size, n)
    ensures PartlyEmitted(data[..], original, relocs, syms, base, n + 1)
  {
    hide SwitchAsserts;
    CursorsInRange(relocs, syms, |original|, n);
    CursorsInRange(relocs, syms, |original|, n + 1);
    assert Ready(relocs, n, |original|);
    ghost var before := data[..];
    assert forall k :: c.dst <= k < data.Length ==> before[k] == original[k];
    next, fine := CopyAndApply(data, relocs[n], c, syms, base, size, original);
    ghost var after, at := data[..], Reach(c, relocs[n]).dst;
    assert after[at..next.dst] == data[at..next.dst];
    assert forall k :: c.dst <= k < at ==> after[k] == original[c.src + (k - c.dst)];
    assert forall k :: 0 <= k < |after| && !(c.dst <= k < next.dst) ==> after[k] == before[k];
    StepEmitted(before, after, original, relocs, syms, base, n, c, at, next);
  }

  lemma StepEmitted(before: seq<byte>, after: seq<byte>, original: seq<byte>, relocs: seq<Reloc>, syms: seq<Symbol>,
                    base: int, n: nat,
                    c: Cursor, at: int, next: Cursor)
    requires Emittable(relocs, syms, |original|) && n < |relocs|
    requires PartlyEmitted(before, original, relocs, syms, base, n) && |after| == |before|
    requires c == Walk(relocs, n) && at == Reach(c, relocs[n]).dst && next == Walk(relocs, n + 1)
    requires 0 <= c.dst <= at <= next.dst <= |original| && Ready(relocs, n, |original|)
    requires forall k :: 0 <= k < |after| && !(c.dst <= k < next.dst) ==> after[k] == before[k]
    requires forall k :: c.dst <= k < at ==> after[k] == original[c.src + (k - c.dst)]
    requires after[at..next.dst] == Piece(original, relocs[n], Reach(c, relocs[n]), syms, base)
    ensures PartlyEmitted(after, original, relocs, syms, base, n + 1)
  {
    hide ByteAt, Piece;
    forall k | 0 <= k < |after|
      ensures after[k] == if k < next.dst then ByteAt(original, relocs, syms, base, n + 1, k) else original[k]
    {
      if k < at {
        ByteBefore(original, relocs, syms, base, n, c, k);
      } else if k < next.dst {
        ByteOfPiece(original, relocs, syms, base, n, Reach(c, relocs[n]), k);
        assert after[k] == after[at..next.dst][k - at];
      }
    }
  }

  lemma {:induction false} EmissionComplete(now: seq<byte>, original: seq<byte>, relocs: seq<Reloc>, syms: seq<Symbol>,
                                            base: int, n: nat)
    requires Emittable(relocs, syms, |original|) && n <= |relocs|
    requires PartlyEmitted(now, original, relocs, syms, base, n)
    requires Walk(relocs, n).dst >= |original| - Dropped(relocs, |relocs|)
    ensures 0 <= |original| - Dropped(relocs, |relocs|) <= |now|
    ensures now[..|original| - Dropped(relocs, |relocs|)] == Image(original, relocs, syms, base)
  {
    CursorsInRange(relocs, syms, |original|, |relocs|);
    BoutMeaning.CursorGrows(relocs, syms, |original|, n, |relocs|);
    forall k | 0 <= k < |original| - Dropped(relocs, |relocs|)
      ensures now[k] == ImageAt(original, relocs, syms, base, k)
    {
      BoutMeaning.ByteSettles(original, relocs, syms, base, n, |relocs|, k);
    }
  }

  /** After the last relocation the rest of the section moves down. */
  method CopyRest(data: array<byte>, relocs: seq<Reloc>, syms: seq<Symbol>, base: int, c: Cursor, size: int,
                  ghost original: seq<byte>)
    requires Emittable(relocs, syms, |original|) && c == Walk(relocs, |relocs|) && 0 <= c.dst < size <= data.Length
    requires size == |original| - Dropped(relocs, |relocs|)
    requires PartlyEmitted(data[..], original, relocs, syms, base, |relocs|)
    modifies data
    ensures data[..size] == Image(original, relocs, syms, base)
  {
    CursorsInRange(relocs, syms, |original|, |relocs|);
    ghost var before := data[..];
    CopyRun(data, c.src, c.dst, size - c.dst);
    assert forall k :: 0 <= k < size ==> data[k] == ImageAt(original, relocs, syms, base, k);
  }

  lemma {:induction false} ReachedNoMore(relocs: seq<Reloc>, syms: seq<Symbol>, original: int, size: int, n: nat)
    requires Emittable(relocs, syms, original) && n <= |relocs| && Walk(relocs, n).dst >= size
    ensures forall m :: n <= m < |relocs| ==> !Reached(relocs, size, m)
  {
    forall m | n <= m < |relocs| ensures !Reached(relocs, size, m) {
      BoutMeaning.CursorGrows(relocs, syms, original, n, m);
    }
  }

  /** b_out_bfd_get_relocated_section_contents, on a buffer holding the whole original
      section and a link order of the relaxed size; what is returned is whether every
      assertion on the way held. */
  method GetRelocatedContents(data: array<byte>, relocs: seq<Reloc>, syms: seq<Symbol>, base: int, size: int)
      returns (fine: bool)
    requires Emittable(relocs, syms, data.Length)
    requires size == data.Length - Dropped(relocs, |relocs|)
    modifies data
    ensures 0 <= size <= data.Length
    ensures data[..size] == Image(old(data[..]), relocs, syms, base)
    ensures fine <==> AllAsserted(relocs, syms, size)
  {
    hide Asserted;
    ghost var original := data[..];
    CursorsInRange(relocs, syms, data.Length, |relocs|);
    var c, n := Cursor(0, 0), 0;
    fine := true;
    while c.dst < size
      invariant n <= |relocs|
      invariant c.dst < size ==> c == Walk(relocs, n) && PartlyEmitted(data[..], original, relocs, syms, base, n)
      invariant c.dst >= size ==> data[..size] == Image(original, relocs, syms, base)
      invariant fine <==> forall m :: 0 <= m < n ==> Asserted(relocs, syms, size, m)
      invariant forall m :: 0 <= m < n ==> Reached(relocs, size, m)
      invariant n == |relocs| || c == Walk(relocs, n)
      decreases |relocs| - n, size - c.dst
    {
      if n < |relocs| {
        var held;
        c, held := EmitOne(data, relocs, syms, base, size, n, c, original);
        fine := fine && held;
        n := n + 1;
        if c.dst >= size {
          EmissionComplete(data[..], original, relocs, syms, base, n);
        }
      } else {
        CopyRest(data, relocs, syms, base, c, size, original);
        c := Cursor(c.src + (size - c.dst), size);
      }
    }
    if n < |relocs| {
      ReachedNoMore(relocs, syms, |original|, size, n);
    }
  }
}
