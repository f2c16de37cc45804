/** The loop over a file's symbols deals with nested header files as it should. */
module LinkHeaders {
  import opened Bytes
  import opened Wrappers
  import opened LinkPlaces
  import opened LinkSymbols
  import opened LinkRecords
  import opened LinkIncludes

  /** The symbol after one of these is treated in a special way. */
  predicate Special(t: bv8) {
    IsIndirect(t) || t == N_WARNING
  }

  /** Symbols are kept.  Debug symbols have no hash entries, and what stands behind a global
      special symbol is the symbol that it is about, no beginning or end of a header file. */
  predicate Plain(opts: Options, f: File) {
    && opts.strip == StripNone && opts.discard != DiscardAll && |f.syms| == |f.hashes|
    && forall j :: 0 <= j < |f.syms| ==> PlainSym(f, j)
  }

  predicate PlainSym(f: File, j: nat)
    requires j < |f.syms| == |f.hashes|
  {
    && (IsStab(f.syms[j].etype) ==> f.hashes[j].None?)
    && (IsBracket(f.syms[j].etype) && j > 0 && Special(f.syms[j - 1].etype) ==> f.hashes[j - 1].None?)
  }

  /** The loop comes to the beginning of a header file that it is to pass through. */
  predicate PassesHeader(f: File, s: Pass, i: nat)
    requires PassOk(f, s) && i < |f.syms|
  {
    s.map_[i] != -1 && s.pass && f.syms[i].etype == N_BINCL
  }

  /** The brackets among the records. */
  function BracketTypes(rs: seq<Record>): seq<bv8> {
    if rs == [] then []
    else BracketTypes(rs[..|rs| - 1]) + if IsBracket(rs[|rs| - 1].etype) then [rs[|rs| - 1].etype] else []
  }

  lemma {:induction false} OneMoreType(rs: seq<Record>, r: Record)
    ensures BracketTypes(rs + [r]) == BracketTypes(rs) + if IsBracket(r.etype) then [r.etype] else []
  {
    assert (rs + [r])[..|rs|] == rs;
  }

  /** The header files that records begin, with the sums they show. */
  function Openers(rs: seq<Record>): seq<(Name, int)> {
    if rs == [] then []
    else
      var r := rs[|rs| - 1];
      Openers(rs[..|rs| - 1]) + if r.etype == N_BINCL then [(r.name, r.value)] else []
  }

  lemma {:induction false} OneMoreOpener(rs: seq<Record>, r: Record)
    ensures Openers(rs + [r]) == Openers(rs) + if r.etype == N_BINCL then [(r.name, r.value)] else []
  {
    assert (rs + [r])[..|rs|] == rs;
  }

  // ----- single symbols

  lemma BracketBits(f: File, t: bv8)
    requires IsBracket(t)
    ensures SectionFor(f, t) == Some(ABSOLUTE) && IsStab(t) && !IsSet(t)
  {
  }

  lemma GlobalBits(t: bv8, out: Sec, weak: bool)
    requires !IsStab(t)
    ensures !IsBracket(DefinedType(t, out, weak)) && !IsBracket(N_WEAKU)
  {
    assert (t | N_EXT) & N_STAB == t & N_STAB;
  }

  lemma GlobalType(table: seq<Entry>, e: nat)
    requires e < |table| && GlobalRecord(table, e).Some?
    ensures !IsBracket(GlobalRecord(table, e).value.etype)
  {
  }

  /** The type a symbol is copied with is a bracket only if its own is, and only a special
      symbol says something about the next one. */
  lemma ChosenType(f: File, sym: Sym, known: Option<Kind>)
    ensures !Special(sym.etype) ==> !Choose(f, sym, known).pass && !Choose(f, sym, known).skipNext
    ensures !(Choose(f, sym, known).pass && Choose(f, sym, known).skipNext)
    ensures known.None? ==> !Choose(f, sym, known).skipNext
    ensures !IsBracket(sym.etype) ==> !IsBracket(Choose(f, sym, known).etype)
    ensures known.None? || IsBracket(sym.etype) ==> Choose(f, sym, known).etype == sym.etype
  {
    if IsBracket(sym.etype) {
      BracketBits(f, sym.etype);
    } else if known.Some? && known.value.Definition? && !IsStab(sym.etype) {
      GlobalBits(sym.etype, known.value.out, known.value.weak);
    }
  }

  /** The loop is not about to treat the next symbol in a special way. */
  predicate Ready(s: Pass) {
    !s.pass && !s.skipNext
  }

  /** It is so at most because of the symbol before, and skips only behind a global one. */
  predicate Alert(f: File, s: Pass, i: nat) {
    && i <= |f.syms| == |f.hashes| && !(s.pass && s.skipNext)
    && (s.pass ==> i > 0 && Special(f.syms[i - 1].etype))
    && (s.skipNext ==> i > 0 && Special(f.syms[i - 1].etype) && f.hashes[i - 1].Some?)
  }

  /** Symbol j may be left out as what an indirect or warning symbol is about. */
  predicate Target(f: File, j: nat)
    requires j < |f.syms| == |f.hashes|
  {
    j > 0 && Special(f.syms[j - 1].etype) && f.hashes[j - 1].Some?
  }

  /** A symbol that neither begins nor ends a header file changes nothing about them. */
  lemma StepLeaf(opts: Options, f: File, s: Pass, i: nat)
    requires Plain(opts, f) && PassOk(f, s) && i < |f.syms| && Alert(f, s, i) && s.map_[i] == 0
    requires !IsBracket(f.syms[i].etype)
    requires s.hashes[i] == f.hashes[i]
    ensures var s' := Step(opts, f, s, i);
            && Alert(f, s', i + 1) && s'.link.includes == s.link.includes
            && BracketTypes(s'.link.records) == BracketTypes(s.link.records)
            && s'.map_ == s.map_[i := s'.map_[i]]
            && (f.hashes[i].None? && !DiscardsLocal(opts, f.syms[i].etype, f.syms[i].name) && !Target(f, i) ==>
                  HasRecord(s', i, f.syms[i].etype))
  {
    hide StepLocal, StepGlobal, DiscardsLocal;
    var sym, h, s1 := f.syms[i], s.hashes[i], s.(map_ := s.map_[i := -1]);
    if s.pass {
      OneMoreType(s.link.records, Record(sym.name, sym.etype, sym.other, sym.desc, sym.value % WORD, None));
    } else if s.skipNext {
    } else if h.None? {
      LeafLocal(opts, f, s1, i);
    } else if !s.link.table[h.value].written {
      LeafGlobal(opts, f, s1, i, h.value);
    }
  }

  /** What a symbol that is no bracket leaves, when it is looked at for itself. */
  predicate LeafDone(f: File, s: Pass, s': Pass, i: nat)
    requires i < |s.map_|
  {
    && Alert(f, s', i + 1) && s'.link.includes == s.link.includes
    && BracketTypes(s'.link.records) == BracketTypes(s.link.records)
    && |s'.map_| == |s.map_| && s'.map_ == s.map_[i := s'.map_[i]]
  }

  lemma LeafLocal(opts: Options, f: File, s: Pass, i: nat)
    requires opts.strip == StripNone && PassOk(f, s) && i < |f.syms| && Ready(s) && !IsBracket(f.syms[i].etype)
    ensures LeafDone(f, s, StepLocal(opts, f, s, i), i)
    ensures !DiscardsLocal(opts, f.syms[i].etype, f.syms[i].name) ==>
              HasRecord(StepLocal(opts, f, s, i), i, f.syms[i].etype)
  {
    hide Choose, DiscardsLocal, Copy;
    var c := Choose(f, f.syms[i], None);
    ChosenType(f, f.syms[i], None);
    PlainCopy(f, s.(pass := c.pass, skipNext := c.skipNext), i, c.etype, f.syms[i].name, c.value, None);
  }

  lemma LeafGlobal(opts: Options, f: File, s: Pass, i: nat, h: nat)
    requires opts.strip == StripNone && PassOk(f, s) && i < |f.syms| && Ready(s) && !IsBracket(f.syms[i].etype)
    requires h < |s.link.table| && f.hashes[i].Some?
    ensures LeafDone(f, s, StepGlobal(opts, f, s, i, h), i)
  {
    hide Choose, Copy;
    var e, known := s.link.table[h], Some(s.link.table[Base(s.link.table, h)].kind);
    var c, table := Choose(f, f.syms[i], known), s.link.table[h := e.(written := true, indx := |s.link.records|)];
    ChosenType(f, f.syms[i], known);
    LinksStay(s.link.table, table);
    PlainCopy(f, s.(link := s.link.(table := table), pass := c.pass, skipNext := c.skipNext), i, c.etype,
              NameOf(s, i, f.syms[i]), c.value, Some(h));
  }

  /** Copying a symbol that does not begin a header file. */
  lemma PlainCopy(f: File, s: Pass, i: nat, etype: bv8, name: Name, value: int, owner: Option<nat>)
    requires PassOk(f, s) && i < |f.syms| && !IsBracket(etype)
    ensures var sym, s' := f.syms[i], Copy(f, s, i, etype, name, value, owner);
            && s' == Emit(s, i, Record(name, etype, sym.other, sym.desc, value % WORD, owner))
            && BracketTypes(s'.link.records) == BracketTypes(s.link.records) && HasRecord(s', i, etype)
  {
    OneMoreType(s.link.records, Record(name, etype, f.syms[i].other, f.syms[i].desc, value % WORD, owner));
  }

  /** Symbol j was copied, with this type. */
  predicate HasRecord(s: Pass, j: nat, t: bv8) {
    j < |s.map_| && 0 <= s.map_[j] < |s.link.records| && s.link.records[s.map_[j]].etype == t
  }

  /** The end of a header file is copied, unless it is marked; passing it through comes to
      the same. */
  lemma StepEnd(opts: Options, f: File, s: Pass, i: nat)
    requires Plain(opts, f) && PassOk(f, s) && i < |f.syms| && Alert(f, s, i) && s.map_[i] == 0
    requires f.syms[i].etype == N_EINCL
    requires s.hashes[i] == f.hashes[i]
    ensures var s' := Step(opts, f, s, i);
            && Ready(s') && s'.link.includes == s.link.includes
            && BracketTypes(s'.link.records) == BracketTypes(s.link.records) + [N_EINCL]
            && s'.map_ == s.map_[i := s'.map_[i]] && HasRecord(s', i, N_EINCL)
  {
    var sym := f.syms[i];
    BracketBits(f, sym.etype);
    assert PlainSym(f, i);
    ChosenType(f, sym, None);
    OneMoreType(s.link.records,
                Record(sym.name, N_EINCL, sym.other, sym.desc, Choose(f, sym, None).value % WORD, None));
    OneMoreType(s.link.records, Record(sym.name, N_EINCL, sym.other, sym.desc, sym.value % WORD, None));
  }

  /** The beginning of a header file is copied or becomes a reference; in that case the
      header file is marked. */
  lemma {:induction false} StepBegin(opts: Options, f: File, s: Pass, i: nat)
    requires Plain(opts, f) && PassOk(f, s) && i < |f.syms| && Ready(s) && s.map_[i] == 0 && f.syms[i].etype == N_BINCL
    requires s.hashes[i] == f.hashes[i]
    ensures var s', key := Step(opts, f, s, i), (f.syms[i].name, Total(f.syms, i + 1, 0));
            && Ready(s')
            && (key in s.link.includes ==>
                  && s'.link.includes == s.link.includes && HasRecord(s', i, N_EXCL)
                  && BracketTypes(s'.link.records) == BracketTypes(s.link.records)
                  && s'.map_ == Mark(f.syms, s.map_[i := -1], i + 1, 0)[i := s'.map_[i]])
            && (key !in s.link.includes ==>
                  && s'.link.includes == s.link.includes + [key] && HasRecord(s', i, N_BINCL)
                  && BracketTypes(s'.link.records) == BracketTypes(s.link.records) + [N_BINCL]
                  && s'.map_ == s.map_[i := s'.map_[i]])
  {
    var sym, total := f.syms[i], Total(f.syms, i + 1, 0);
    BracketBits(f, sym.etype);
    assert PlainSym(f, i);
    ChosenType(f, sym, None);
    OneMoreType(s.link.records, Record(sym.name, N_EXCL, sym.other, sym.desc, total % WORD, None));
    OneMoreType(s.link.records, Record(sym.name, N_BINCL, sym.other, sym.desc, total % WORD, None));
  }

  // ----- a forest of symbols

  /** What the loop has done with a symbol. */
  predicate FateOk(opts: Options, f: File, s: Pass, j: nat, fate: Fate)
    requires j < |f.syms| == |f.hashes| == |s.map_|
  {
    match fate
    case Dropped => s.map_[j] == -1
    case Opened => HasRecord(s, j, N_BINCL)
    case Excluded => HasRecord(s, j, N_EXCL)
    case Closed => HasRecord(s, j, N_EINCL)
    case Kept =>
      f.hashes[j].None? && !DiscardsLocal(opts, f.syms[j].etype, f.syms[j].name) && !Target(f, j) ==>
        HasRecord(s, j, f.syms[j].etype)
  }

  predicate FatesOk(opts: Options, f: File, s: Pass, i: nat, fates: seq<Fate>)
    requires |f.syms| == |f.hashes| == |s.map_|
    decreases |fates|
  {
    i + |fates| <= |f.syms|
      && (fates == [] || (FateOk(opts, f, s, i, fates[0]) && FatesOk(opts, f, s, i + 1, fates[1..])))
  }

  /** Later steps change nothing about it. */
  lemma FateStays(opts: Options, f: File, s: Pass, s': Pass, j: nat, fate: Fate)
    requires |f.syms| == |f.hashes| == |s.map_| == |s'.map_| && j < |s.map_| && FateOk(opts, f, s, j, fate)
    requires s.link.records <= s'.link.records && s'.map_[j] == s.map_[j]
    ensures FateOk(opts, f, s', j, fate)
  {
    var m := s.map_[j];
    assert 0 <= m < |s.link.records| ==> s'.link.records[m] == s.link.records[m];
  }

  lemma {:induction false} FatesStay(opts: Options, f: File, s: Pass, s': Pass, i: nat, fates: seq<Fate>, lo: nat,
                                     hi: nat)
    requires |f.syms| == |f.hashes| == |s.map_| && FatesOk(opts, f, s, i, fates) && (i + |fates| <= lo || hi <= i)
    requires s.link.records <= s'.link.records && SameOutside(s.map_, s'.map_, lo, hi)
    ensures FatesOk(opts, f, s', i, fates)
    decreases |fates|
  {
    if fates != [] {
      SameAt(s.map_, s'.map_, lo, hi, i);
      FateStays(opts, f, s, s', i, fates[0]);
      FatesStay(opts, f, s, s', i + 1, fates[1..], lo, hi);
    }
  }

  lemma {:induction false} FatesJoin(opts: Options, f: File, s: Pass, i: nat, a: seq<Fate>, j: nat, b: seq<Fate>)
    requires |f.syms| == |f.hashes| == |s.map_| && j == i + |a|
    requires FatesOk(opts, f, s, i, a) && FatesOk(opts, f, s, j, b)
    ensures FatesOk(opts, f, s, i, a + b)
    decreases |a|
  {
    if a == [] {
      assert a + b == b;
    } else {
      FatesJoin(opts, f, s, i + 1, a[1..], j, b);
      assert (a + b)[0] == a[0] && (a + b)[1..] == a[1..] + b;
    }
  }

  lemma {:induction false} FatesOne(opts: Options, f: File, s: Pass, i: nat, fate: Fate)
    requires |f.syms| == |f.hashes| == |s.map_| && i < |f.syms| && FateOk(opts, f, s, i, fate)
    ensures FatesOk(opts, f, s, i, [fate])
  {
    assert [fate][1..] == [];
  }

  /** The loop is at symbol i. */
  predicate Going(f: File, s: Pass, i: nat) {
    PassOk(f, s) && i <= |f.syms| && forall j :: i <= j < |f.syms| ==> s.hashes[j] == f.hashes[j]
  }

  lemma CopyRecords(f: File, s: Pass, i: nat, etype: bv8, name: Name, value: int, owner: Option<nat>)
    requires PassOk(f, s) && i < |f.syms|
    ensures s.link.records <= Copy(f, s, i, etype, name, value, owner).link.records
    ensures PassOk(f, Copy(f, s, i, etype, name, value, owner))
    ensures Copy(f, s, i, etype, name, value, owner).hashes == s.hashes
  {
  }

  lemma LocalGoes(opts: Options, f: File, s: Pass, i: nat)
    requires PassOk(f, s) && i < |f.syms|
    ensures s.link.records <= StepLocal(opts, f, s, i).link.records
    ensures PassOk(f, StepLocal(opts, f, s, i)) && StepLocal(opts, f, s, i).hashes == s.hashes
  {
    var c := Choose(f, f.syms[i], None);
    CopyRecords(f, s.(pass := c.pass, skipNext := c.skipNext), i, c.etype, f.syms[i].name, c.value, None);
  }

  lemma GlobalGoes(opts: Options, f: File, s: Pass, i: nat, h: nat)
    requires PassOk(f, s) && i < |f.syms| && h < |s.link.table|
    ensures s.link.records <= StepGlobal(opts, f, s, i, h).link.records
    ensures PassOk(f, StepGlobal(opts, f, s, i, h)) && StepGlobal(opts, f, s, i, h).hashes == s.hashes
  {
    var l, name := s.link, NameOf(s, i, f.syms[i]);
    LinksStay(l.table, l.table[h := l.table[h].(written := true)]);
    var table := l.table[h := l.table[h].(written := true, indx := |l.records|)];
    LinksStay(l.table, table);
    var c := Choose(f, f.syms[i], Some(l.table[Base(l.table, h)].kind));
    CopyRecords(f, s.(link := l.(table := table), pass := c.pass, skipNext := c.skipNext), i, c.etype, name, c.value,
                Some(h));
  }

  lemma StepGoes(opts: Options, f: File, s: Pass, i: nat)
    requires Going(f, s, i) && i < |f.syms|
    ensures Going(f, Step(opts, f, s, i), i + 1) && s.link.records <= Step(opts, f, s, i).link.records
  {
    var s1 := s.(map_ := s.map_[i := -1]);
    if s.hashes[i].Some? {
      GlobalGoes(opts, f, s1, i, s.hashes[i].value);
    } else {
      LocalGoes(opts, f, s1, i);
    }
  }

  /** The loop from symbol i up to symbol n, whatever the hash table is like. */
  function Fold(opts: Options, f: File, s: Pass, i: nat, n: nat): (s': Pass)
    requires Going(f, s, i) && i <= n <= |f.syms|
    ensures Going(f, s', n) && s.link.records <= s'.link.records
    decreases n - i
  {
    if i == n then s
    else
      StepGoes(opts, f, s, i);
      Fold(opts, f, Step(opts, f, s, i), i + 1, n)
  }

  lemma {:induction false} StepsFold(opts: Options, f: File, s: Pass, i: nat, n: nat, l: Link)
    requires PassInv(f, l, s, i) && i <= n <= |f.syms|
    ensures Going(f, s, i) && Steps(opts, f, s, i, n, l) == Fold(opts, f, s, i, n)
    decreases n - i
  {
    if i < n {
      StepSteps(opts, f, s, i);
      PassStep(f, l, s, Step(opts, f, s, i), i);
      StepsFold(opts, f, Step(opts, f, s, i), i + 1, n, l);
    }
  }

  /** Doing some steps and then more is doing them all. */
  lemma {:induction false} FoldJoin(opts: Options, f: File, s: Pass, i: nat, m: nat, n: nat)
    requires Going(f, s, i) && i <= m <= n <= |f.syms|
    ensures Fold(opts, f, s, i, n) == Fold(opts, f, Fold(opts, f, s, i, m), m, n)
    decreases m - i
  {
    if i < m {
      StepGoes(opts, f, s, i);
      FoldJoin(opts, f, Step(opts, f, s, i), i + 1, m, n);
    }
  }

  /** From symbol i up to symbol n, no beginning of a header file is passed through. */
  predicate Quiet(opts: Options, f: File, s: Pass, i: nat, n: nat)
    requires Going(f, s, i) && i <= n <= |f.syms|
    decreases n - i
  {
    i == n || (!PassesHeader(f, s, i) && (StepGoes(opts, f, s, i); Quiet(opts, f, Step(opts, f, s, i), i + 1, n)))
  }

  lemma {:induction false} QuietJoin(opts: Options, f: File, s: Pass, i: nat, m: nat, n: nat)
    requires Going(f, s, i) && i <= m <= n <= |f.syms|
    ensures Quiet(opts, f, s, i, n) <==> Quiet(opts, f, s, i, m) && Quiet(opts, f, Fold(opts, f, s, i, m), m, n)
    decreases m - i
  {
    if i < m {
      StepGoes(opts, f, s, i);
      QuietJoin(opts, f, Step(opts, f, s, i), i + 1, m, n);
    }
  }

  /** One symbol that is not in a header file of its own. */
  lemma LeafStep(opts: Options, f: File, s: Pass, i: nat, duplicate: bool)
    requires Plain(opts, f) && PassOk(f, s) && i < |f.syms| && Alert(f, s, i) && !IsBracket(f.syms[i].etype)
    requires s.hashes[i] == f.hashes[i] && s.map_[i] == (if duplicate then -1 else 0) && (duplicate ==> Ready(s))
    ensures var s1 := Step(opts, f, s, i);
            && Alert(f, s1, i + 1) && (duplicate ==> Ready(s1))
            && s1.link.includes == s.link.includes && BracketTypes(s1.link.records) == BracketTypes(s.link.records)
            && SameOutside(s.map_, s1.map_, i, i + 1) && FateOk(opts, f, s1, i, if duplicate then Dropped else Kept)
  {
    if !duplicate {
      StepLeaf(opts, f, s, i);
      UpdateOutside(s.map_, i, Step(opts, f, s, i).map_[i]);
    }
  }

  /** The beginning of a header file has been passed: its body is marked if it has been
      seen before. */
  predicate Begun(opts: Options, f: File, s: Pass, s1: Pass, i: nat, t: Forest, e: nat)
    requires t.Header? && i < e < |f.syms| == |f.hashes| == |s.map_|
  {
    var seen := Seen(s.link.includes, t.begin, t.inner);
    && Ready(s1) && |s1.map_| == |s.map_| && s.link.records <= s1.link.records
    && s1.link.includes == Now(t, s.link.includes)
    && BracketTypes(s1.link.records) == BracketTypes(s.link.records) + (if seen then [] else [N_BINCL])
    && FateOk(opts, f, s1, i, if seen then Excluded else Opened)
    && MarkedAs(s1.map_, i + 1, t.inner, seen) && s1.map_[e] == (if seen then -1 else 0)
    && SameOutside(s.map_, s1.map_, i, e + 1)
  }

  /** The header files seen once this one has begun. */
  function Now(t: Forest, includes: seq<(Name, int)>): seq<(Name, int)>
    requires t.Header?
  {
    if Seen(includes, t.begin, t.inner) then includes else includes + [(t.begin.name, Sum(t.inner))]
  }

  /** The marks a duplicate header file gets. */
  lemma {:induction false} DuplicateMarks(f: File, m: seq<int>, i: nat, t: Forest, e: nat, x: int)
    requires Nested(t) && t.Header? && StandsAt(f.syms, i, t) && e == i + 1 + |Flatten(t.inner)|
    requires i < e < |f.syms| == |m|
    requires MarkedAs(m, i + 1, t.inner, false)
    ensures var m' := Mark(f.syms, m[i := -1], i + 1, 0)[i := x];
            MarkedAs(m', i + 1, t.inner, true) && m'[e] == -1 && SameOutside(m, m', i, e + 1)
  {
    HeaderParts(f.syms, i, t, e);
    var m0 := m[i := -1];
    UpdateOutside(m, i, -1);
    HasStays(m, m0, i, i + 1, i + 1, Marks(t.inner, false));
    CoverMarks(m0, i + 1, t.inner, e);
    MarkPasses(f.syms, m0, i + 1, t.inner, e);
    var m1 := Cover(m0, i + 1, t.inner);
    MarkEnds(f.syms, m1, e, 0);
    var m2 := m1[e := -1];
    UpdateOutside(m1, e, -1);
    HasStays(m1, m2, e, e + 1, i + 1, Marks(t.inner, true));
    UpdateOutside(m2, i, x);
    HasStays(m2, m2[i := x], i, i + 1, i + 1, Marks(t.inner, true));
    SameJoin(m, m0, m1, i, i + 1, i + 1, e, i, e + 1);
    SameJoin(m, m1, m2, i, e + 1, e, e + 1, i, e + 1);
    SameJoin(m, m2, m2[i := x], i, e + 1, i, i + 1, i, e + 1);
  }

  lemma NewMarks(m: seq<int>, i: nat, t: Forest, e: nat, x: int)
    requires t.Header? && e == i + 1 + |Flatten(t.inner)| && i < e < |m|
    requires MarkedAs(m, i + 1, t.inner, false)
    ensures MarkedAs(m[i := x], i + 1, t.inner, false) && SameOutside(m, m[i := x], i, e + 1)
  {
    UpdateOutside(m, i, x);
    HasStays(m, m[i := x], i, i + 1, i + 1, Marks(t.inner, false));
    SameJoin(m, m[i := x], m[i := x], i, i + 1, e, e + 1, i, e + 1);
  }

  /** What the beginning of a header file leaves for the rest of it. */
  lemma {:induction false} BeginStep(opts: Options, f: File, s: Pass, i: nat, t: Forest, duplicate: bool, e: nat)
    requires Plain(opts, f) && Going(f, s, i) && Ready(s) && Nested(t) && t.Header? && StandsAt(f.syms, i, t)
    requires MarkedAs(s.map_, i, t, duplicate) && e == i + 1 + |Flatten(t.inner)|
    ensures i < e < |f.syms| && Begun(opts, f, s, Step(opts, f, s, i), i, t, e)
  {
    var s1, seen := Step(opts, f, s, i), Seen(s.link.includes, t.begin, t.inner);
    HeaderParts(f.syms, i, t, e);
    HeaderMarked(s.map_, i, t, duplicate, e);
    TotalPasses(f.syms, i + 1, t.inner, 0, e);
    TotalEnds(f.syms, e, 0);
    assert Total(f.syms, i + 1, 0) == Sum(t.inner);
    StepBegin(opts, f, s, i);
    StepGoes(opts, f, s, i);
    if seen {
      DuplicateMarks(f, s.map_, i, t, e, s1.map_[i]);
    } else {
      NewMarks(s.map_, i, t, e, s1.map_[i]);
    }
  }

  /** The end of a header file has been passed, marked or not. */
  predicate Ended(opts: Options, f: File, s: Pass, s': Pass, e: nat, seen: bool)
    requires e < |f.syms| == |f.hashes| == |s.map_|
  {
    && Ready(s') && s'.link.includes == s.link.includes && s.link.records <= s'.link.records
    && SameOutside(s.map_, s'.map_, e, e + 1)
    && BracketTypes(s'.link.records) == BracketTypes(s.link.records) + (if seen then [] else [N_EINCL])
    && FateOk(opts, f, s', e, if seen then Dropped else Closed)
  }

  lemma EndStep(opts: Options, f: File, s: Pass, e: nat, seen: bool)
    requires Plain(opts, f) && Going(f, s, e) && e < |f.syms| && Alert(f, s, e) && f.syms[e].etype == N_EINCL
    requires s.map_[e] == (if seen then -1 else 0) && (seen ==> Ready(s))
    ensures Ended(opts, f, s, Step(opts, f, s, e), e, seen)
  {
    StepGoes(opts, f, s, e);
    if !seen {
      StepEnd(opts, f, s, e);
      UpdateOutside(s.map_, e, Step(opts, f, s, e).map_[e]);
    }
  }

  // ----- putting the stages together

  /** What some symbols amount to: the header files seen after them, the brackets left of
      them, and their fates. */
  datatype Effect = Effect(includes: seq<(Name, int)>, brackets: seq<bv8>, fates: seq<Fate>)

  function Then(x: Effect, y: Effect): Effect {
    Effect(y.includes, x.brackets + y.brackets, x.fates + y.fates)
  }

  function Expected(t: Forest, duplicate: bool, includes: seq<(Name, int)>): Effect {
    Effect(After(t, includes), Brackets(t, includes), Fates(t, duplicate, includes))
  }

  /** The loop has come from symbol i to symbol n, with the given effect. */
  predicate Leads(opts: Options, f: File, s: Pass, s': Pass, i: nat, n: nat, x: Effect)
    requires |f.syms| == |f.hashes| == |s.map_|
  {
    && Alert(f, s', n) && |s'.map_| == |s.map_| && s.link.records <= s'.link.records
    && s'.link.includes == x.includes
    && BracketTypes(s'.link.records) == BracketTypes(s.link.records) + x.brackets
    && SameOutside(s.map_, s'.map_, i, n)
    && n == i + |x.fates| && FatesOk(opts, f, s', i, x.fates)
  }

  lemma Regroup(x: seq<bv8>, a: seq<bv8>, b: seq<bv8>)
    ensures x + a + b == x + (a + b)
  {
  }

  lemma {:induction false} LeadsOn(opts: Options, f: File, s: Pass, s1: Pass, s2: Pass, i: nat, m: nat, n: nat,
                                   x: Effect, y: Effect)
    requires |f.syms| == |f.hashes| == |s.map_| == |s1.map_|
    requires Leads(opts, f, s, s1, i, m, x) && Leads(opts, f, s1, s2, m, n, y)
    ensures Leads(opts, f, s, s2, i, n, Then(x, y))
  {
    FatesStay(opts, f, s1, s2, i, x.fates, m, n);
    FatesJoin(opts, f, s2, i, x.fates, m, y.fates);
    SameJoin(s.map_, s1.map_, s2.map_, i, m, m, n, i, n);
    Regroup(BracketTypes(s.link.records), x.brackets, y.brackets);
  }

  /** A single symbol with the effect a leaf has. */
  function LeafEffect(duplicate: bool, includes: seq<(Name, int)>): Effect {
    Effect(includes, [], [if duplicate then Dropped else Kept])
  }

  lemma LeafLeads(opts: Options, f: File, s: Pass, i: nat, duplicate: bool)
    requires Plain(opts, f) && Going(f, s, i) && i < |f.syms| && Alert(f, s, i) && !IsBracket(f.syms[i].etype)
    requires s.map_[i] == (if duplicate then -1 else 0) && (duplicate ==> Ready(s))
    ensures duplicate ==> Ready(Step(opts, f, s, i))
    ensures Leads(opts, f, s, Step(opts, f, s, i), i, i + 1, LeafEffect(duplicate, s.link.includes))
  {
    LeafStep(opts, f, s, i, duplicate);
    StepGoes(opts, f, s, i);
    FatesOne(opts, f, Step(opts, f, s, i), i, if duplicate then Dropped else Kept);
  }

  /** From before the beginning of a header file to behind its end. */
  function HeaderEffect(seen: bool, x: Effect): Effect {
    Effect(x.includes,
           (if seen then [] else [N_BINCL]) + x.brackets + (if seen then [] else [N_EINCL]),
           [if seen then Excluded else Opened] + x.fates + [if seen then Dropped else Closed])
  }

  lemma ExpectedParts(t: Forest, duplicate: bool, includes: seq<(Name, int)>)
    ensures t.Leaf? ==>
              Expected(t, duplicate, includes)
                == Then(LeafEffect(duplicate, includes), Expected(t.rest, duplicate, includes))
    ensures t.Header? ==>
              var x := Expected(t.inner, Seen(includes, t.begin, t.inner), Now(t, includes));
              Expected(t, duplicate, includes)
              == Then(HeaderEffect(Seen(includes, t.begin, t.inner), x), Expected(t.rest, duplicate, x.includes))
  {
  }

  lemma AppendThree(x: seq<bv8>, a: seq<bv8>, b: seq<bv8>, c: seq<bv8>)
    ensures x + a + b + c == x + (a + b + c)
  {
  }

  /** The fates of a header file's parts make up its own. */
  lemma {:induction false} HeaderFates(opts: Options, f: File, s1: Pass, s2: Pass, s3: Pass, i: nat, e: nat,
                                       first: Fate, inner: seq<Fate>, last: Fate)
    requires |f.syms| == |f.hashes| == |s1.map_| && e == i + 1 + |inner| && e < |f.syms|
    requires s1.link.records <= s2.link.records <= s3.link.records
    requires SameOutside(s1.map_, s2.map_, i + 1, e) && SameOutside(s2.map_, s3.map_, e, e + 1)
    requires FateOk(opts, f, s1, i, first) && FatesOk(opts, f, s2, i + 1, inner) && FateOk(opts, f, s3, e, last)
    ensures FatesOk(opts, f, s3, i, [first] + inner + [last])
  {
    var a, b, c := [first], inner, [last];
    FatesOne(opts, f, s1, i, first);
    FatesStay(opts, f, s1, s2, i, a, i + 1, e);
    FatesJoin(opts, f, s2, i, a, i + 1, b);
    FatesStay(opts, f, s2, s3, i, a + b, e, e + 1);
    FatesOne(opts, f, s3, e, last);
    FatesJoin(opts, f, s3, i, a + b, e, c);
  }

  lemma HeaderSame(m: seq<int>, m1: seq<int>, m2: seq<int>, m3: seq<int>, i: nat, e: nat)
    requires SameOutside(m, m1, i, e + 1) && SameOutside(m1, m2, i + 1, e) && SameOutside(m2, m3, e, e + 1) && i < e
    ensures SameOutside(m, m3, i, e + 1)
  {
    SameJoin(m, m1, m2, i, e + 1, i + 1, e, i, e + 1);
    SameJoin(m, m2, m3, i, e + 1, e, e + 1, i, e + 1);
  }

  lemma {:induction false} HeaderLeads(opts: Options, f: File, s: Pass, s1: Pass, s2: Pass, s3: Pass, i: nat, t: Forest,
                                       e: nat, x: Effect)
    requires |f.syms| == |f.hashes| == |s.map_| == |s1.map_| == |s2.map_| && i < e < |f.syms|
    requires t.Header? && Begun(opts, f, s, s1, i, t, e) && Leads(opts, f, s1, s2, i + 1, e, x)
    requires Ended(opts, f, s2, s3, e, Seen(s.link.includes, t.begin, t.inner))
    ensures Leads(opts, f, s, s3, i, e + 1, HeaderEffect(Seen(s.link.includes, t.begin, t.inner), x))
  {
    var seen := Seen(s.link.includes, t.begin, t.inner);
    AppendThree(BracketTypes(s.link.records), if seen then [] else [N_BINCL], x.brackets,
                if seen then [] else [N_EINCL]);
    HeaderFates(opts, f, s1, s2, s3, i, e, if seen then Excluded else Opened, x.fates,
                if seen then Dropped else Closed);
    HeaderSame(s.map_, s1.map_, s2.map_, s3.map_, i, e);
  }

  // ----- the loop

  /** The loop does with a forest of symbols what is expected. */
  lemma {:induction false} ForestLoop(opts: Options, f: File, s: Pass, i: nat, t: Forest, duplicate: bool, n: nat)
      returns (s': Pass, x: Effect)
    requires Plain(opts, f) && Going(f, s, i) && Alert(f, s, i) && (duplicate ==> Ready(s)) && Nested(t)
    requires StandsAt(f.syms, i, t) && n == i + |Flatten(t)| && MarkedAs(s.map_, i, t, duplicate)
    requires Quiet(opts, f, s, i, n)
    ensures s' == Fold(opts, f, s, i, n) && x == Expected(t, duplicate, s.link.includes)
    ensures Leads(opts, f, s, s', i, n, x)
    ensures duplicate ==> Ready(s')
    decreases t, 2
  {
    if t.Nil? {
      s', x := s, Effect(s.link.includes, [], []);
    } else {
      hide Quiet;
      var s1, m, rest, x1 := FirstLoop(opts, f, s, i, t, duplicate, n);
      var y;
      s', y := ForestLoop(opts, f, s1, m, rest, duplicate, n);
      LeadsOn(opts, f, s, s1, s', i, m, n, x1, y);
      x := Then(x1, y);
    }
  }

  /** Over the first leaf or header file of a forest. */
  lemma {:induction false} FirstLoop(opts: Options, f: File, s: Pass, i: nat, t: Forest, duplicate: bool, n: nat)
      returns (s1: Pass, m: nat, rest: Forest, x: Effect)
    requires Plain(opts, f) && Going(f, s, i) && Alert(f, s, i) && (duplicate ==> Ready(s)) && Nested(t) && !t.Nil?
    requires StandsAt(f.syms, i, t) && n == i + |Flatten(t)| && MarkedAs(s.map_, i, t, duplicate) && n <= |f.syms|
    requires Quiet(opts, f, s, i, n)
    ensures rest == t.rest && Nested(rest) && i < m <= n <= |f.syms| && StandsAt(f.syms, m, rest)
    ensures n == m + |Flatten(rest)|
    ensures Leads(opts, f, s, s1, i, m, x) && MarkedAs(s1.map_, m, rest, duplicate) && (duplicate ==> Ready(s1))
    ensures Going(f, s1, m) && Fold(opts, f, s1, m, n) == Fold(opts, f, s, i, n) && Quiet(opts, f, s1, m, n)
    ensures Expected(t, duplicate, s.link.includes) == Then(x, Expected(rest, duplicate, s1.link.includes))
    decreases t, 1
  {
    hide Expected, PassOk, FatesOk, Marks, MarkedAs, StandsAt, SameOutside, Plain, Alert, Fold, BracketTypes, Quiet;
    ExpectedParts(t, duplicate, s.link.includes);
    rest := t.rest;
    if t.Leaf? {
      m := i + 1;
      s1, x := LeafLoop(opts, f, s, i, t, duplicate, n);
    } else {
      m := i + 1 + |Flatten(t.inner)| + 1;
      s1, x := HeaderLoop(opts, f, s, i, t, duplicate, i + 1 + |Flatten(t.inner)|, n);
    }
  }

  lemma {:induction false} LeafLoop(opts: Options, f: File, s: Pass, i: nat, t: Forest, duplicate: bool, n: nat)
      returns (s1: Pass, x: Effect)
    requires Plain(opts, f) && Going(f, s, i) && Alert(f, s, i) && (duplicate ==> Ready(s)) && Nested(t) && t.Leaf?
    requires StandsAt(f.syms, i, t) && n == i + |Flatten(t)| && MarkedAs(s.map_, i, t, duplicate) && n <= |f.syms|
    requires Quiet(opts, f, s, i, n)
    ensures i < n && StandsAt(f.syms, i + 1, t.rest) && n == i + 1 + |Flatten(t.rest)|
    ensures x == LeafEffect(duplicate, s.link.includes) && Leads(opts, f, s, s1, i, i + 1, x)
    ensures MarkedAs(s1.map_, i + 1, t.rest, duplicate) && (duplicate ==> Ready(s1))
    ensures Going(f, s1, i + 1) && Fold(opts, f, s1, i + 1, n) == Fold(opts, f, s, i, n) && Quiet(opts, f, s1, i + 1, n)
  {
    hide Marks, Plain, PassOk;
    LeafParts(f.syms, i, t);
    LeafMarked(s.map_, i, t, duplicate);
    s1, x := Step(opts, f, s, i), LeafEffect(duplicate, s.link.includes);
    StepGoes(opts, f, s, i);
    LeafLeads(opts, f, s, i, duplicate);
    HasStays(s.map_, s1.map_, i, i + 1, i + 1, Marks(t.rest, duplicate));
  }

  /** From behind the beginning of a header file to behind its end. */
  lemma {:induction false} InnerLoop(opts: Options, f: File, s: Pass, i: nat, inner: Forest, seen: bool, e: nat, n: nat)
      returns (s2: Pass, s3: Pass, x: Effect)
    requires Plain(opts, f) && Going(f, s, i) && Ready(s) && Nested(inner) && StandsAt(f.syms, i, inner)
    requires e == i + |Flatten(inner)|
    requires MarkedAs(s.map_, i, inner, seen) && e < n <= |f.syms| && f.syms[e].etype == N_EINCL
    requires s.map_[e] == if seen then -1 else 0
    requires Quiet(opts, f, s, i, n)
    ensures x == Expected(inner, seen, s.link.includes)
    ensures Leads(opts, f, s, s2, i, e, x) && Ended(opts, f, s2, s3, e, seen)
    ensures Going(f, s3, e + 1) && Fold(opts, f, s3, e + 1, n) == Fold(opts, f, s, i, n) && Quiet(opts, f, s3, e + 1, n)
    decreases inner, 3
  {
    QuietJoin(opts, f, s, i, e, n);
    s2, x := ForestLoop(opts, f, s, i, inner, seen, e);
    StepGoes(opts, f, s2, e);
    EndStep(opts, f, s2, e, seen);
    s3 := Step(opts, f, s2, e);
    FoldJoin(opts, f, s, i, e, n);
  }

  lemma RestMarked(m: seq<int>, m3: seq<int>, i: nat, t: Forest, duplicate: bool, e: nat)
    requires t.Header? && e == i + 1 + |Flatten(t.inner)| && MarkedAs(m, i, t, duplicate)
    requires SameOutside(m, m3, i, e + 1)
    ensures MarkedAs(m3, e + 1, t.rest, duplicate)
  {
    HeaderMarked(m, i, t, duplicate, e);
    HasStays(m, m3, i, e + 1, e + 1, Marks(t.rest, duplicate));
  }

  /** At the beginning of a header file the loop is ready, or it passes it through. */
  lemma ReadyAtHeader(opts: Options, f: File, s: Pass, i: nat)
    requires Plain(opts, f) && PassOk(f, s) && i < |f.syms| && Alert(f, s, i) && f.syms[i].etype == N_BINCL
    requires s.map_[i] == 0
    ensures Ready(s) <==> !PassesHeader(f, s, i)
  {
    assert PlainSym(f, i);
  }

  /** A header file in three stages: its beginning, its body, its end. */
  lemma {:induction false} HeaderLoop(opts: Options, f: File, s: Pass, i: nat, t: Forest, duplicate: bool, e: nat,
                                      n: nat)
      returns (s3: Pass, x: Effect)
    requires Plain(opts, f) && Going(f, s, i) && Alert(f, s, i) && Nested(t) && t.Header?
    requires e == i + 1 + |Flatten(t.inner)|
    requires StandsAt(f.syms, i, t) && MarkedAs(s.map_, i, t, duplicate) && n == i + |Flatten(t)| && n <= |f.syms|
    requires Quiet(opts, f, s, i, n)
    ensures e < n && StandsAt(f.syms, e + 1, t.rest) && n == e + 1 + |Flatten(t.rest)|
    ensures x == HeaderEffect(Seen(s.link.includes, t.begin, t.inner),
                              Expected(t.inner, Seen(s.link.includes, t.begin, t.inner), Now(t, s.link.includes)))
    ensures Leads(opts, f, s, s3, i, e + 1, x) && MarkedAs(s3.map_, e + 1, t.rest, duplicate) && Ready(s3)
    ensures Going(f, s3, e + 1) && Fold(opts, f, s3, e + 1, n) == Fold(opts, f, s, i, n) && Quiet(opts, f, s3, e + 1, n)
    decreases t, 0
  {
    var s1, s2, y := Step(opts, f, s, i), s, LeafEffect(false, []);
    BeginLoop(opts, f, s, i, t, duplicate, e, n);
    HeaderParts(f.syms, i, t, e);
    hide Marks, Plain, PassOk, Expected, Quiet, Fold, Leads, Ended, HeaderEffect, Step, Alert, FatesOk, StandsAt,
      SameOutside;
    s2, s3, y := InnerLoop(opts, f, s1, i + 1, t.inner, Seen(s.link.includes, t.begin, t.inner), e, n);
    HeaderLeads(opts, f, s, s1, s2, s3, i, t, e, y);
    x := HeaderEffect(Seen(s.link.includes, t.begin, t.inner), y);
    RestAfter(opts, f, s, s3, i, t, duplicate, e, x);
  }

  lemma RestAfter(opts: Options, f: File, s: Pass, s3: Pass, i: nat, t: Forest, duplicate: bool, e: nat, x: Effect)
    requires |f.syms| == |f.hashes| == |s.map_| && t.Header? && e == i + 1 + |Flatten(t.inner)|
    requires MarkedAs(s.map_, i, t, duplicate) && Leads(opts, f, s, s3, i, e + 1, x)
    ensures MarkedAs(s3.map_, e + 1, t.rest, duplicate)
  {
    RestMarked(s.map_, s3.map_, i, t, duplicate, e);
  }

  /** The first of the three stages. */
  lemma BeginLoop(opts: Options, f: File, s: Pass, i: nat, t: Forest, duplicate: bool, e: nat, n: nat)
    requires Plain(opts, f) && Going(f, s, i) && Alert(f, s, i) && Nested(t) && t.Header?
    requires e == i + 1 + |Flatten(t.inner)|
    requires StandsAt(f.syms, i, t) && MarkedAs(s.map_, i, t, duplicate) && n == i + |Flatten(t)| && n <= |f.syms|
    requires Quiet(opts, f, s, i, n)
    ensures i < e < n && Begun(opts, f, s, Step(opts, f, s, i), i, t, e)
    ensures Going(f, Step(opts, f, s, i), i + 1)
    ensures Fold(opts, f, Step(opts, f, s, i), i + 1, n) == Fold(opts, f, s, i, n)
    ensures Quiet(opts, f, Step(opts, f, s, i), i + 1, n)
  {
    HeaderParts(f.syms, i, t, e);
    HeaderMarked(s.map_, i, t, duplicate, e);
    ReadyAtHeader(opts, f, s, i);
    hide Marks, Plain, PassOk, Step, Begun;
    BeginStep(opts, f, s, i, t, duplicate, e);
    StepGoes(opts, f, s, i);
  }

  // ----- whole files

  /** No beginning of a header file among the first n symbols is passed through. */
  predicate NonePassed(opts: Options, f: File, l: Link, n: nat)
    requires FileOk(f, l.table) && Inv(l) && n <= |f.syms|
  {
    forall j :: 0 <= j < n ==> !PassesHeader(f, Before(opts, f, l, j), j)
  }

  lemma {:induction false} QuietIff(opts: Options, f: File, l: Link, i: nat)
    requires FileOk(f, l.table) && Inv(l) && i <= |f.syms|
    ensures Going(f, Before(opts, f, l, i), i)
    ensures Quiet(opts, f, Before(opts, f, l, i), i, |f.syms|)
            <==> forall j :: i <= j < |f.syms| ==> !PassesHeader(f, Before(opts, f, l, j), j)
    decreases |f.syms| - i
  {
    if i < |f.syms| {
      hide Before, PassesHeader, Step;
      BeforeNext(opts, f, l, i);
      QuietIff(opts, f, l, i + 1);
    }
  }

  lemma AllSymbols(opts: Options, f: File, l: Link, t: Forest) returns (s: Pass, s': Pass, x: Effect)
    requires Plain(opts, f) && FileOk(f, l.table) && Inv(l) && Nested(t) && Flatten(t) == f.syms
    requires NonePassed(opts, f, l, |f.syms|)
    ensures s == Start(opts, f, l) && s' == WriteSymbols(opts, f, l) && x == Expected(t, false, s.link.includes)
    ensures |s.map_| == |f.syms| && Leads(opts, f, s, s', 0, |f.syms|, x)
  {
    s := Start(opts, f, l);
    StartGoes(opts, f, l, t);
    hide Plain, PassOk, Quiet, PassInv, Step, Fold, Alert, MarkedAs, StandsAt, Leads, Expected, Start, Balanced, Inv;
    s', x := ForestLoop(opts, f, s, 0, t, false, |f.syms|);
  }

  /** The loop stands before all the symbols of the file. */
  lemma StartGoes(opts: Options, f: File, l: Link, t: Forest)
    requires Plain(opts, f) && FileOk(f, l.table) && Inv(l) && Nested(t) && Flatten(t) == f.syms
    ensures var s := Start(opts, f, l);
            && |s.map_| == |f.syms| && Going(f, s, 0) && Alert(f, s, 0)
            && StandsAt(f.syms, 0, t) && MarkedAs(s.map_, 0, t, false)
            && Fold(opts, f, s, 0, |f.syms|) == WriteSymbols(opts, f, l)
            && (Quiet(opts, f, s, 0, |f.syms|) <==> NonePassed(opts, f, l, |f.syms|))
  {
    hide Step, Inv, Quiet, PassesHeader;
    var s := Start(opts, f, l);
    StartOk(opts, f, l);
    QuietIff(opts, f, l, 0);
    StepsFold(opts, f, s, 0, |f.syms|, l);
    HasAll(f.syms, 0, Flatten(t));
    StartMarks(s.map_, t);
  }

  /** Every balanced file is a forest, and if no header file is passed through the loop deals
      with it as expected: a header file that has been seen before loses exactly its own
      symbols and its end, everything else that may be kept has its record, and the symbol
      map says which. */
  lemma FileHeaders(opts: Options, f: File, l: Link) returns (t: Forest, s: Pass, s': Pass, x: Effect)
    requires Plain(opts, f) && FileOk(f, l.table) && Inv(l) && Balanced(Types(f.syms), 0)
    requires NonePassed(opts, f, l, |f.syms|)
    ensures Nested(t) && Flatten(t) == f.syms && x == Expected(t, false, l.includes)
    ensures s == Start(opts, f, l) && s' == WriteSymbols(opts, f, l)
    ensures |s.map_| == |f.syms| && Leads(opts, f, s, s', 0, |f.syms|, x)
  {
    var n;
    t, n := ForestOf(f.syms, 0);
    assert f.syms[..n] == f.syms;
    s, s', x := AllSymbols(opts, f, l, t);
  }

  lemma {:induction false} NoMarks(t: Forest, k: nat)
    requires k < |Flatten(t)|
    ensures Marks(t, false)[k] == 0
    decreases t
  {
    match t
    case Leaf(_, rest) =>
      if k > 0 {
        NoMarks(rest, k - 1);
      }
    case Header(_, inner, _, rest) =>
      if 0 < k <= |Flatten(inner)| {
        NoMarks(inner, k - 1);
      } else if k > |Flatten(inner)| + 1 {
        NoMarks(rest, k - |Flatten(inner)| - 2);
      }
  }

  lemma {:induction false} StartMarks(map_: seq<int>, t: Forest)
    requires |map_| == |Flatten(t)| && forall k :: 0 <= k < |map_| ==> map_[k] == 0
    ensures MarkedAs(map_, 0, t, false)
  {
    forall k | 0 <= k < |map_| ensures map_[0 + k] == Marks(t, false)[k] {
      NoMarks(t, k);
    }
    HasAll(map_, 0, Marks(t, false));
  }

  // ----- file numbers

  predicate Digits(d: Name) {
    forall k :: 0 <= k < |d| ==> IsDigit(d[k])
  }

  lemma {:induction false} PastAll(pre: Name, d: Name, post: Name, i: nat)
    requires Digits(d) && (post == [] || !IsDigit(post[0])) && i <= |d|
    ensures PastDigits(pre + d + post, |pre| + i) == |pre| + |d|
    decreases |d| - i
  {
    var s := pre + d + post;
    if i < |d| {
      assert s[|pre| + i] == d[i];
      PastAll(pre, d, post, i + 1);
    } else if post != [] {
      assert s[|pre| + |d|] == post[0];
    }
  }

  lemma {:induction false} SumOfTail(pre: Name, post: Name, i: nat)
    requires i <= |post|
    ensures StabSum(pre + post, |pre| + i) == StabSum(post, i)
    decreases |post| - i
  {
    if i < |post| {
      assert (pre + post)[|pre| + i] == post[i];
      PastTail(pre, post, i + 1);
      SumOfTail(pre, post, if post[i] == 40 then PastDigits(post, i + 1) else i + 1);
    }
  }

  lemma {:induction false} PastTail(pre: Name, post: Name, i: nat)
    requires i <= |post|
    ensures PastDigits(pre + post, |pre| + i) == |pre| + PastDigits(post, i)
    decreases |post| - i
  {
    if i < |post| {
      assert (pre + post)[|pre| + i] == post[i];
      PastTail(pre, post, i + 1);
    }
  }

  lemma {:induction false} PastStops(pre: Name, rest: Name, rest': Name, i: nat)
    requires i <= |pre| && rest != [] && rest' != [] && !IsDigit(rest[0]) && !IsDigit(rest'[0])
    ensures PastDigits(pre + rest, i) == PastDigits(pre + rest', i) <= |pre|
    decreases |pre| - i
  {
    assert (pre + rest)[i] == (if i < |pre| then pre[i] else rest[0]);
    assert (pre + rest')[i] == (if i < |pre| then pre[i] else rest'[0]);
    if i < |pre| {
      PastStops(pre, rest, rest', i + 1);
    }
  }

  /** The sum does not depend on the digits that follow a parenthesis, wherever it is. */
  lemma {:induction false} FileNumbersIgnored(pre: Name, d: Name, d': Name, post: Name, i: nat)
    requires Digits(d) && Digits(d') && (post == [] || !IsDigit(post[0])) && i <= |pre|
    ensures StabSum(pre + ([40] + d + post), i) == StabSum(pre + ([40] + d' + post), i)
    decreases |pre| - i
  {
    var s, s' := pre + ([40] + d + post), pre + ([40] + d' + post);
    if i < |pre| {
      assert s[i] == s'[i] == pre[i];
      PastStops(pre, [40] + d + post, [40] + d' + post, i + 1);
      FileNumbersIgnored(pre, d, d', post, if pre[i] == 40 then PastDigits(s, i + 1) else i + 1);
    } else {
      AtNumber(pre, d, post);
      AtNumber(pre, d', post);
    }
  }

  lemma {:induction false} AtNumber(pre: Name, d: Name, post: Name)
    requires Digits(d) && (post == [] || !IsDigit(post[0]))
    ensures StabSum(pre + ([40] + d + post), |pre|) == Signed(40) + StabSum(post, 0)
  {
    var s, p := pre + ([40] + d + post), pre + [40];
    assert s == p + d + post == (p + d) + post;
    assert s[|pre|] == 40;
    PastAll(p, d, post, 0);
    SumOfTail(p + d, post, 0);
  }
}
