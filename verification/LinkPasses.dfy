/** The loops that write symbols, and the state they share. */
module LinkPasses {
  import opened Bytes
  import opened Wrappers
  import opened LinkSymbols
  import opened LinkRecords

  const EXTERNAL_NLIST_SIZE: nat := 12

  // ----- the scans over a header file

  /** The inner loop over the characters of one stab. */
  method SumStab(name: Name) returns (val: int)
    ensures val == StabSum(name, 0)
  {
    val := 0;
    var s := 0;
    while s < |name|
      invariant s <= |name| && val + StabSum(name, s) == StabSum(name, 0)
      decreases |name| - s
    {
      val := val + Signed(name[s]);
      if name[s] == 40 {
        ghost var from := s + 1;
        s := s + 1;
        while s < |name| && IsDigit(name[s])
          invariant from <= s <= |name| && PastDigits(name, s) == PastDigits(name, from)
          decreases |name| - s
        {
          s := s + 1;
        }
      } else {
        s := s + 1;
      }
    }
  }

  /** The loop that adds up a header file's stabs. */
  method AddUp(syms: seq<Sym>, first: nat) returns (val: int)
    requires first <= |syms|
    ensures val == Total(syms, first, 0)
  {
    val := 0;
    var nest := 0;
    var i := first;
    while i < |syms|
      invariant first <= i <= |syms| && 0 <= nest && val + Total(syms, i, nest) == Total(syms, first, 0)
      decreases |syms| - i
    {
      var t := syms[i].etype;
      if t == N_EINCL {
        if nest == 0 {
          return;
        }
        nest := nest - 1;
      } else if t == N_BINCL {
        nest := nest + 1;
      } else if nest == 0 {
        var sum := SumStab(syms[i].name);
        val := val + sum;
      }
      i := i + 1;
    }
  }

  /** The loop that marks what a duplicate header file contains. */
  method MarkIncluded(syms: seq<Sym>, symbolMap: array<int>, first: nat)
    requires first <= |syms| == symbolMap.Length
    modifies symbolMap
    ensures symbolMap[..] == Mark(syms, old(symbolMap[..]), first, 0)
  {
    var nest := 0;
    var i := first;
    while i < |syms|
      invariant first <= i <= |syms| && 0 <= nest
      invariant Mark(syms, symbolMap[..], i, nest) == Mark(syms, old(symbolMap[..]), first, 0)
      decreases |syms| - i
    {
      var t := syms[i].etype;
      if t == N_EINCL {
        if nest == 0 {
          symbolMap[i] := -1;
          return;
        }
        nest := nest - 1;
      } else if t == N_BINCL {
        nest := nest + 1;
      } else if nest == 0 {
        symbolMap[i] := -1;
      }
      i := i + 1;
    }
  }

  lemma Slot(start: nat, count: nat)
    ensures (start + EXTERNAL_NLIST_SIZE * count - start) / EXTERNAL_NLIST_SIZE == count
    ensures (start + EXTERNAL_NLIST_SIZE * count - start) % EXTERNAL_NLIST_SIZE == 0
  {
  }

  /** What the final link keeps while it goes through the input files. */
  class FinalLink {
    const start: nat
    var table: seq<Entry>
    var includes: seq<(Name, int)>
    var count: nat
    var symoff: nat
    /** The symbols in the output file, from `start` on. */
    var symtab: seq<Record>

    constructor (start: nat, entries: seq<Entry>)
      ensures Between() && State() == Begin(entries) && this.start == start
    {
      this.start, table, includes, count, symoff, symtab := start, entries, [], 0, start, [];
    }

    /** Between input files the cursor stands behind the symbols counted so far. */
    ghost predicate Between()
      reads this
    {
      symoff == start + EXTERNAL_NLIST_SIZE * count && |symtab| == count
    }

    ghost function State(): Link
      reads this
    {
      Link(table, symtab, includes)
    }

    /** Writes records at the cursor; a cursor anywhere else would overwrite some or leave
        a gap. */
    method PutRecords(rs: seq<Record>)
      requires symoff >= start && (symoff - start) % EXTERNAL_NLIST_SIZE == 0
      requires (symoff - start) / EXTERNAL_NLIST_SIZE == |symtab|
      modifies this`symtab, this`symoff
      ensures symtab == old(symtab) + rs && symoff == old(symoff) + EXTERNAL_NLIST_SIZE * |rs|
    {
      var at := (symoff - start) / EXTERNAL_NLIST_SIZE;
      symtab := symtab[..at] + rs;
      symoff := symoff + EXTERNAL_NLIST_SIZE * |rs|;
    }

    /** aout_link_write_other_symbol, once a warning has been looked through. */
    method WriteGlobalSymbol(opts: Options, e: nat)
      requires Between() && e < |table|
      modifies this
      ensures Between() && State() == WriteGlobal(opts, old(State()), e)
    {
      var h := table[e];
      if h.written {
        return;
      }
      table := table[e := h.(written := true)];
      if h.indx != -2 && (opts.strip == StripAll || (opts.strip == StripSome && h.name !in opts.keep)) {
        return;
      }
      assert GlobalRecord(table, e) == GlobalRecord(old(table), e);
      var outsym := GlobalRecord(table, e);
      if outsym.None? {
        return;
      }
      Slot(start, count);
      PutRecords([outsym.value]);
      table := table[e := table[e].(indx := count)];
      count := count + 1;
    }

    method WriteOtherSymbol(opts: Options, e: nat)
      requires Between() && e < |table| && LinksOk(table)
      modifies this
      ensures Between() && State() == WriteOther(opts, old(State()), e)
    {
      if table[e].kind.Warning? {
        var link := table[e].kind.link;
        if table[link].kind.New? {
          return;
        }
        WriteGlobalSymbol(opts, link);
      } else {
        WriteGlobalSymbol(opts, e);
      }
    }

    /** A reloc needs the number of a symbol that was left out. */
    method NeedSymbol(opts: Options, e: nat) returns (index: int)
      requires Between() && e < |table| && Inv(State())
      modifies this
      ensures Between() && State() == Force(opts, old(State()), e) && Inv(State())
      ensures |table| == |old(table)| && index == table[e].indx
    {
      ForceOutcome(opts, State(), e);
      if table[e].indx < 0 {
        table := table[e := table[e].(indx := -2, written := false)];
        WriteOtherSymbol(opts, e);
      }
      index := table[e].indx;
    }

    /** The traversal of the hash table at the end of the link. */
    method WriteRemaining(opts: Options)
      requires Between() && Good(opts, State())
      modifies this
      ensures Between() && State() == Traverse(opts, old(State()), |old(table)|)
    {
      hide EntryOk, RecordOk, NoneStuckBut, WriteOther;
      ghost var was := State();
      for e := 0 to |table|
        invariant Between() && State() == Traverse(opts, was, e) && |table| == |was.table|
      {
        WriteOtherSymbol(opts, e);
      }
    }

    // ----- aout_link_write_symbols

    /** Where the loop is, given the arrays it works on and the records in its buffer. */
    ghost function Now(symbolMap: array<int>, symHash: array<Option<nat>>, pending: seq<Record>, pass: bool,
                       skipNext: bool): Pass
      reads this, symbolMap, symHash
    {
      Pass(Link(table, symtab + pending, includes), symHash[..], symbolMap[..], pass, skipNext)
    }

    /** Copies a symbol, after looking at the header file it may begin. */
    method CopySymbol(f: File, i: nat, etype: bv8, name: Name, value: int, owner: Option<nat>,
                      symbolMap: array<int>, symHash: array<Option<nat>>, ghost pending: seq<Record>, pass: bool,
                        skipNext: bool)
        returns (out: Record)
      requires PassOk(f, Now(symbolMap, symHash, pending, pass, skipNext)) && i < |f.syms|
      requires count == |symtab| + |pending|
      modifies this`includes, this`count, symbolMap
      ensures Now(symbolMap, symHash, pending + [out], pass, skipNext)
              == Copy(f, old(Now(symbolMap, symHash, pending, pass, skipNext)), i, etype, name, value, owner)
      ensures count == |symtab| + |pending + [out]|
    {
      var sym := f.syms[i];
      out := Record(name, etype, sym.other, sym.desc, value % WORD, owner);
      ghost var was := symbolMap[..];
      if etype == N_BINCL {
        var total := AddUp(f.syms, i + 1);
        if (name, total) !in includes {
          includes := includes + [(name, total)];
          out := out.(value := total % WORD);
        } else {
          out := out.(etype := N_EXCL, value := total % WORD);
          MarkIncluded(f.syms, symbolMap, i + 1);
        }
      }
      ghost var marked := symbolMap[..];
      symbolMap[i] := count;
      count := count + 1;
      assert symbolMap[..] == marked[i := |symtab + pending|];
      assert symtab + (pending + [out]) == (symtab + pending) + [out];
    }

    /** A symbol without a hash entry. */
    method LocalSymbol(opts: Options, f: File, i: nat, symbolMap: array<int>, symHash: array<Option<nat>>,
                       ghost pending: seq<Record>)
        returns (out: Option<Record>, pass: bool, skipNext: bool)
      requires PassOk(f, Now(symbolMap, symHash, pending, false, false)) && i < |f.syms|
      requires count == |symtab| + |pending|
      modifies this`includes, this`count, symbolMap
      ensures Now(symbolMap, symHash, pending + Written(out), pass, skipNext)
              == StepLocal(opts, f, old(Now(symbolMap, symHash, pending, false, false)), i)
      ensures count == |symtab| + |pending + Written(out)|
    {
      var sym := f.syms[i];
      out, pass, skipNext := None, false, false;
      assert pending + Written(None) == pending;
      if Strips(opts, sym.etype, sym.name) {
        return;
      }
      var c := Choose(f, sym, None);
      pass, skipNext := c.pass, c.skipNext;
      if DiscardsLocal(opts, c.etype, sym.name) {
        pass := false;
        return;
      }
      var r := CopySymbol(f, i, c.etype, sym.name, c.value, None, symbolMap, symHash, pending, pass, skipNext);
      out := Some(r);
    }

    /** A symbol whose hash entry h has not been written. */
    method GlobalSymbol(opts: Options, f: File, i: nat, h: nat, symbolMap: array<int>, symHash: array<Option<nat>>,
                        ghost pending: seq<Record>)
        returns (out: Option<Record>, pass: bool, skipNext: bool)
      requires PassOk(f, Now(symbolMap, symHash, pending, false, false)) && i < |f.syms|
      requires count == |symtab| + |pending|
      requires h < |table| && symHash[i] == Some(h)
      modifies this`table, this`includes, this`count, symbolMap
      ensures Now(symbolMap, symHash, pending + Written(out), pass, skipNext)
              == StepGlobal(opts, f, old(Now(symbolMap, symHash, pending, false, false)), i, h)
      ensures count == |symtab| + |pending + Written(out)|
    {
      var sym, e := f.syms[i], table[h];
      var name := if e.kind.Warning? then sym.name else e.name;
      out, pass, skipNext := None, false, false;
      assert pending + Written(None) == pending;
      if Strips(opts, sym.etype, name) {
        table := table[h := e.(written := true)];
        return;
      }
      var c := Choose(f, sym, Some(table[Base(table, h)].kind));
      pass, skipNext := c.pass, c.skipNext;
      LinksStay(table, table[h := e.(written := true, indx := count)]);
      table := table[h := e.(written := true, indx := count)];
      var r := CopySymbol(f, i, c.etype, name, c.value, Some(h), symbolMap, symHash, pending, pass, skipNext);
      out := Some(r);
    }

    /** The base symbol at the end of a chain of links. */
    method FindBase(h: nat) returns (base: nat)
      requires LinksOk(table) && h < |table|
      ensures base == Base(table, h)
    {
      base := h;
      while IsLink(table[base].kind)
        invariant base < |table| && Base(table, base) == Base(table, h)
        decreases base
      {
        base := table[base].kind.link;
      }
    }

    /** One turn of the loop. */
    method OneSymbol(opts: Options, f: File, i: nat, symbolMap: array<int>, symHash: array<Option<nat>>,
                     ghost pending: seq<Record>,
                     passIn: bool, skipIn: bool)
        returns (out: Option<Record>, pass: bool, skipNext: bool)
      requires PassOk(f, Now(symbolMap, symHash, pending, passIn, skipIn)) && i < |f.syms|
      requires count == |symtab| + |pending|
      modifies this`table, this`includes, this`count, symbolMap, symHash
      ensures Now(symbolMap, symHash, pending + Written(out), pass, skipNext)
              == Step(opts, f, old(Now(symbolMap, symHash, pending, passIn, skipIn)), i)
      ensures count == |symtab| + |pending + Written(out)|
    {
      out, pass, skipNext := None, passIn, skipIn;
      assert pending + Written(None) == pending;
      if symbolMap[i] == -1 {
        return;
      }
      ghost var map0, hash0 := symbolMap[..], symHash[..];
      symbolMap[i] := -1;
      assert symbolMap[..] == map0[i := -1];
      var sym := f.syms[i];
      if passIn {
        pass := false;
        out := Some(Record(sym.name, sym.etype, sym.other, sym.desc, sym.value % WORD, None));
        symbolMap[i] := count;
        count := count + 1;
        assert symbolMap[..] == map0[i := -1][i := |symtab + pending|];
        assert symtab + (pending + [out.value]) == (symtab + pending) + [out.value];
      } else if skipIn {
        skipNext := false;
      } else if symHash[i].None? {
        out, pass, skipNext := LocalSymbol(opts, f, i, symbolMap, symHash, pending);
      } else {
        var h := symHash[i].value;
        var base := FindBase(h);
        if table[h].written {
          symbolMap[i] := table[h].indx;
          skipNext := IsIndirect(sym.etype) || sym.etype == N_WARNING;
          assert symbolMap[..] == map0[i := -1][i := table[h].indx];
        } else {
          out, pass, skipNext := GlobalSymbol(opts, f, i, h, symbolMap, symHash, pending);
        }
        symHash[i] := Some(base);
        assert symHash[..] == hash0[i := Some(base)];
      }
    }

    /** One turn of the loop, with the buffer. */
    method OneTurn(opts: Options, f: File, i: nat, symbolMap: array<int>, symHash: array<Option<nat>>,
                   outputSyms: array<Record>, outsymIn: nat, passIn: bool, skipIn: bool)
        returns (outsym: nat, pass: bool, skipNext: bool)
      requires outsymIn < outputSyms.Length && i < |f.syms| && count == |symtab| + outsymIn
      requires PassOk(f, Now(symbolMap, symHash, outputSyms[..outsymIn], passIn, skipIn))
      modifies this`table, this`includes, this`count, symbolMap, symHash, outputSyms
      ensures outsym <= outsymIn + 1 && count == |symtab| + outsym
      ensures Now(symbolMap, symHash, outputSyms[..outsym], pass, skipNext)
              == Step(opts, f, old(Now(symbolMap, symHash, outputSyms[..outsymIn], passIn, skipIn)), i)
    {
      ghost var before := outputSyms[..outsymIn];
      var out;
      out, pass, skipNext := OneSymbol(opts, f, i, symbolMap, symHash, before, passIn, skipIn);
      outsym := outsymIn;
      if out.Some? {
        outputSyms[outsym] := out.value;
        outsym := outsym + 1;
      }
      assert outputSyms[..outsym] == before + Written(out);
    }

    /** The loop, which fills the buffer. */
    method FillBuffer(opts: Options, f: File, ghost l: Link, symbolMap: array<int>, symHash: array<Option<nat>>,
                      outputSyms: array<Record>, first: nat, ghost s0: Pass)
        returns (outsym: nat, ghost s: Pass)
      requires first <= 1 && outputSyms.Length == |f.syms| + 1 && count == |symtab| + first
      requires PassInv(f, l, s0, 0) && s0 == Now(symbolMap, symHash, outputSyms[..first], false, false)
      modifies this`table, this`includes, this`count, symbolMap, symHash, outputSyms
      ensures outsym <= outputSyms.Length && count == |symtab| + outsym
      ensures s == Steps(opts, f, s0, 0, |f.syms|, l)
      ensures s == Now(symbolMap, symHash, outputSyms[..outsym], s.pass, s.skipNext)
    {
      s, outsym := s0, first;
      var pass, skipNext := false, false;
      ghost var end := Steps(opts, f, s0, 0, |f.syms|, l);
      for i := 0 to |f.syms|
        invariant outsym <= i + 1 && count == |symtab| + outsym
        invariant PassInv(f, l, s, i) && Steps(opts, f, s, i, |f.syms|, l) == end
        invariant s == Now(symbolMap, symHash, outputSyms[..outsym], pass, skipNext)
      {
        StepInv(opts, f, l, s, i);
        outsym, pass, skipNext := OneTurn(opts, f, i, symbolMap, symHash, outputSyms, outsym, pass, skipNext);
        s := Step(opts, f, s, i);
      }
    }

    /** The buffer with the symbol that names the file, and the arrays to go with it. */
    method Prepare(opts: Options, f: File)
        returns (outputSyms: array<Record>, outsym: nat, symbolMap: array<int>, symHash: array<Option<nat>>)
      requires FileOk(f, table) && count == |symtab|
      modifies this`count
      ensures fresh(outputSyms) && fresh(symbolMap) && fresh(symHash)
      ensures outsym <= 1 && outputSyms.Length == |f.syms| + 1 && count == |symtab| + outsym
      ensures Now(symbolMap, symHash, outputSyms[..outsym], false, false) == Start(opts, f, State())
    {
      outputSyms := new Record[|f.syms| + 1](_ => FileRecord(f));
      outsym := 0;
      if NamesFile(opts, f) {
        outputSyms[0] := FileRecord(f);
        outsym := 1;
        count := count + 1;
      }
      symbolMap := new int[|f.syms|](_ => 0);
      symHash := new Option<nat>[|f.syms|](k requires 0 <= k < |f.hashes| => f.hashes[k]);
      ghost var s := Start(opts, f, State());
      assert symbolMap[..] == s.map_;
      assert symHash[..] == s.hashes;
      assert symtab + outputSyms[..outsym] == s.link.records;
    }

    /** aout_link_write_symbols: all symbols of a file go through a buffer with one place
        more than there are symbols, and then to the file at the cursor. */
    method WriteFileSymbols(opts: Options, f: File) returns (symbolMap: array<int>, symHash: array<Option<nat>>)
      requires Between() && FileOk(f, table) && Inv(State())
      modifies this
      ensures fresh(symbolMap) && fresh(symHash) && Between()
      ensures State() == WriteSymbols(opts, f, old(State())).link
      ensures symbolMap[..] == WriteSymbols(opts, f, old(State())).map_
      ensures symHash[..] == WriteSymbols(opts, f, old(State())).hashes
    {
      hide Inv, PassInv, PassOk, Start, Steps;
      ghost var l := State();
      StartOk(opts, f, l);
      ghost var s := Start(opts, f, l);
      var outputSyms, outsym;
      outputSyms, outsym, symbolMap, symHash := Prepare(opts, f);
      outsym, s := FillBuffer(opts, f, l, symbolMap, symHash, outputSyms, outsym, s);
      Slot(start, |symtab|);
      PutRecords(outputSyms[..outsym]);
    }
  }

  lemma StepInv(opts: Options, f: File, l: Link, s: Pass, i: nat)
    requires PassInv(f, l, s, i) && i < |f.syms|
    ensures PassInv(f, l, Step(opts, f, s, i), i + 1)
    ensures Steps(opts, f, s, i, |f.syms|, l) == Steps(opts, f, Step(opts, f, s, i), i + 1, |f.syms|, l)
  {
    StepSteps(opts, f, s, i);
    PassStep(f, l, s, Step(opts, f, s, i), i);
  }

  /** What has been put into the buffer. */
  function Written(out: Option<Record>): seq<Record> {
    if out.Some? then [out.value] else []
  }
}
