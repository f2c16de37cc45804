/** The records of a link, read back by name: which record a symbol's number leads to. */
module LinkNamed {
  import opened Bytes
  import opened Wrappers
  import opened LinkSymbols
  import opened LinkRecords

  const N_COMM: bv8 := 0x12
  const N_SETV: bv8 := 0x1c

  /** The types of symbols that are looked up by name when a file is read.  (Set symbols
      and warnings are, too, but not simply.) */
  predicate Visible(t: bv8) {
    t in {N_EXT, N_ABS | N_EXT, N_TEXT | N_EXT, N_DATA | N_EXT, N_BSS | N_EXT, N_INDR | N_EXT, N_COMM | N_EXT,
      N_SETV | N_EXT,
          N_WEAKU, N_WEAKA, N_WEAKT, N_WEAKD, N_WEAKB}
  }

  /** The types of those that get no hash entry: debug symbols, and local ones. */
  predicate Hidden(t: bv8) {
    IsStab(t) || t in {0x00, N_ABS, N_TEXT, N_DATA, N_BSS, N_INDR, 0x0c, N_COMM, N_SETV, 0x1f}
  }

  // ----- every record of an entry has its name

  predicate ByName(r: Record, name: Name) {
    r.name == name && Visible(r.etype)
  }

  predicate Named(l: Link, e: nat)
    requires e < |l.table|
  {
    forall k :: 0 <= k < |l.records| && l.records[k].owner == Some(e) ==> ByName(l.records[k], l.table[e].name)
  }

  /** No set symbol and no warning stands for the entry. */
  predicate Plainly(f: File, e: nat) {
    forall j :: 0 <= j < |f.syms| && j < |f.hashes| && f.hashes[j] == Some(e) ==> Visible(f.syms[j].etype)
  }

  // ----- what all records of an entry are like

  /** The records of an entry are all as they should be. */
  predicate AllFit(l: Link, e: nat, fits: Record -> bool) {
    forall k :: 0 <= k < |l.records| && l.records[k].owner == Some(e) ==> fits(l.records[k])
  }

  /** So is the one that the linker writes for it. */
  predicate OwnFits(table: seq<Entry>, e: nat, fits: Record -> bool)
    requires e < |table|
  {
    GlobalRecord(table, e).Some? ==> fits(GlobalRecord(table, e).value)
  }

  /** The record that symbol j of a file gets when it is copied for a hash entry. */
  function CopyFor(f: File, table: seq<Entry>, j: nat, e: nat): Record
    requires LinksOk(table) && e < |table| && j < |f.syms|
  {
    var sym := f.syms[j];
    var c := Choose(f, sym, Some(table[Base(table, e)].kind));
    Record(if table[e].kind.Warning? then sym.name else table[e].name, c.etype, sym.other, sym.desc, c.value % WORD,
           Some(e))
  }

  /** So are the copies of the file's symbols that stand for the entry; none of them begins
      a header file. */
  predicate CopiesFit(f: File, table: seq<Entry>, e: nat, fits: Record -> bool)
    requires LinksOk(table) && e < |table|
  {
    forall j :: 0 <= j < |f.syms| && j < |f.hashes| && f.hashes[j] == Some(e) ==>
      CopyFor(f, table, j, e).etype != N_BINCL && fits(CopyFor(f, table, j, e))
  }

  predicate ActionFits(table: seq<Entry>, a: Action, e: nat, fits: Record -> bool)
    requires LinksOk(table) && e < |table|
  {
    OwnFits(table, e, fits) && (a.LinkFile? ==> CopiesFit(a.f, table, e, fits))
  }

  lemma {:induction false} BaseStays(t: seq<Entry>, u: seq<Entry>, e: nat)
    requires LinksOk(t) && LinksOk(u) && SameKinds(t, u) && e < |t|
    ensures Base(t, e) == Base(u, e)
    decreases e
  {
    assert t[e].kind == u[e].kind;
    if IsLink(t[e].kind) {
      BaseStays(t, u, t[e].kind.link);
    }
  }

  lemma FitsStay(t: seq<Entry>, u: seq<Entry>, a: Action, e: nat, fits: Record -> bool)
    requires LinksOk(t) && LinksOk(u) && SameKinds(t, u) && e < |t| && ActionFits(t, a, e, fits)
    ensures ActionFits(u, a, e, fits)
  {
    hide Choose;
    BaseStays(t, u, e);
    assert t[e].kind == u[e].kind && t[e].name == u[e].name;
    assert t[Base(t, e)].kind == u[Base(u, e)].kind;
    if a.LinkFile? {
      forall j | 0 <= j < |a.f.syms| && j < |a.f.hashes| && a.f.hashes[j] == Some(e)
        ensures CopyFor(a.f, u, j, e) == CopyFor(a.f, t, j, e)
      {
      }
    }
  }

  lemma OneMoreFits(l: Link, m: Link, e: nat, fits: Record -> bool)
    requires AllFit(l, e, fits) && |m.records| == |l.records| + 1 && l.records <= m.records
    requires m.records[|l.records|].owner == Some(e) ==> fits(m.records[|l.records|])
    ensures AllFit(m, e, fits)
  {
    forall k | 0 <= k < |m.records| && m.records[k].owner == Some(e) ensures fits(m.records[k]) {
      assert k < |l.records| ==> m.records[k] == l.records[k];
    }
  }

  lemma WriteGlobalFits(opts: Options, l: Link, d: nat, e: nat, fits: Record -> bool)
    requires d < |l.table| && e < |l.table| && AllFit(l, e, fits) && OwnFits(l.table, e, fits)
    ensures |WriteGlobal(opts, l, d).table| == |l.table| && AllFit(WriteGlobal(opts, l, d), e, fits)
  {
    var m := WriteGlobal(opts, l, d);
    if m.records != l.records {
      GlobalRecordIff(l.table, d);
      OneMoreFits(l, m, e, fits);
    }
  }

  lemma WriteOtherFits(opts: Options, l: Link, d: nat, e: nat, fits: Record -> bool)
    requires LinksOk(l.table) && d < |l.table| && e < |l.table| && AllFit(l, e, fits) && OwnFits(l.table, e, fits)
    ensures |WriteOther(opts, l, d).table| == |l.table| && AllFit(WriteOther(opts, l, d), e, fits)
  {
    WriteGlobalFits(opts, l, if l.table[d].kind.Warning? then l.table[d].kind.link else d, e, fits);
  }

  lemma ForceFits(opts: Options, l: Link, d: nat, e: nat, fits: Record -> bool)
    requires LinksOk(l.table) && d < |l.table| && e < |l.table| && AllFit(l, e, fits) && OwnFits(l.table, e, fits)
    ensures |Force(opts, l, d).table| == |l.table| && AllFit(Force(opts, l, d), e, fits)
  {
    if l.table[d].indx < 0 {
      var m := l.(table := l.table[d := l.table[d].(indx := -2, written := false)]);
      LinksStay(l.table, m.table);
      assert GlobalRecord(m.table, e) == GlobalRecord(l.table, e);
      WriteOtherFits(opts, m, d, e, fits);
    }
  }

  lemma CopyFits(f: File, s: Pass, i: nat, etype: bv8, name: Name, value: int, owner: Option<nat>, e: nat,
                 fits: Record -> bool)
    requires PassOk(f, s) && i < |f.syms| && AllFit(s.link, e, fits)
    requires owner == Some(e) ==>
               etype != N_BINCL && fits(Record(name, etype, f.syms[i].other, f.syms[i].desc, value % WORD, owner))
    ensures AllFit(Copy(f, s, i, etype, name, value, owner).link, e, fits)
  {
    CopyCopies(f, s, i, etype, name, value, owner);
    OneMoreFits(s.link, Copy(f, s, i, etype, name, value, owner).link, e, fits);
  }

  lemma LocalFits(opts: Options, f: File, s: Pass, i: nat, e: nat, fits: Record -> bool)
    requires PassOk(f, s) && i < |f.syms| && AllFit(s.link, e, fits)
    ensures AllFit(StepLocal(opts, f, s, i).link, e, fits)
  {
    hide Copy, Choose;
    var c := Choose(f, f.syms[i], None);
    CopyFits(f, s.(pass := c.pass, skipNext := c.skipNext), i, c.etype, f.syms[i].name, c.value, None, e, fits);
  }

  lemma GlobalFits(opts: Options, f: File, s: Pass, i: nat, h: nat, e: nat, fits: Record -> bool)
    requires PassOk(f, s) && i < |f.syms| && h < |s.link.table| && s.hashes[i] == Some(h)
    requires e < |s.link.table| && AllFit(s.link, e, fits)
    requires h == e ==>
               CopyFor(f, s.link.table, i, e).etype != N_BINCL && fits(CopyFor(f, s.link.table, i, e))
    ensures AllFit(StepGlobal(opts, f, s, i, h).link, e, fits)
  {
    hide Copy, Choose;
    var l, name := s.link, NameOf(s, i, f.syms[i]);
    var known := Some(l.table[Base(l.table, h)].kind);
    var c, table := Choose(f, f.syms[i], known), l.table[h := l.table[h].(written := true, indx := |l.records|)];
    LinksStay(l.table, table);
    CopyFits(f, s.(link := l.(table := table), pass := c.pass, skipNext := c.skipNext), i, c.etype, name, c.value,
             Some(h), e, fits);
  }

  lemma StepFits(opts: Options, f: File, s: Pass, i: nat, e: nat, fits: Record -> bool)
    requires PassOk(f, s) && i < |f.syms| && s.hashes[i] == f.hashes[i] && e < |s.link.table|
    requires CopiesFit(f, s.link.table, e, fits) && AllFit(s.link, e, fits)
    ensures AllFit(Step(opts, f, s, i).link, e, fits)
  {
    hide StepLocal, StepGlobal, CopyFor;
    var s1 := s.(map_ := s.map_[i := -1]);
    if s.map_[i] == -1 {
    } else if s.pass {
      OneMoreFits(s.link, Step(opts, f, s, i).link, e, fits);
    } else if s.skipNext {
    } else if s.hashes[i].None? {
      LocalFits(opts, f, s1, i, e, fits);
    } else if !s.link.table[s.hashes[i].value].written {
      GlobalFits(opts, f, s1, i, s.hashes[i].value, e, fits);
    }
  }

  lemma {:induction false} BeforeFits(opts: Options, f: File, l: Link, n: nat, e: nat, wanted: seq<nat>,
                                      fits: Record -> bool)
    requires FileOk(f, l.table) && Inv(l) && n <= |f.syms| && e < |l.table|
    requires ActionFits(l.table, LinkFile(f, wanted), e, fits) && AllFit(l, e, fits)
    ensures AllFit(Before(opts, f, l, n).link, e, fits)
  {
    hide Step, AllFit, ActionFits, CopiesFit;
    if n == 0 {
      StartFits(opts, f, l, e, fits);
    } else {
      BeforeFits(opts, f, l, n - 1, e, wanted, fits);
      BeforeNext(opts, f, l, n - 1);
      var s := Before(opts, f, l, n - 1);
      FitsStay(l.table, s.link.table, LinkFile(f, wanted), e, fits);
      FileFits(s.link.table, LinkFile(f, wanted), e, fits);
      StepFits(opts, f, s, n - 1, e, fits);
    }
  }

  lemma FileFits(table: seq<Entry>, a: Action, e: nat, fits: Record -> bool)
    requires LinksOk(table) && e < |table| && ActionFits(table, a, e, fits)
    ensures OwnFits(table, e, fits) && (a.LinkFile? ==> CopiesFit(a.f, table, e, fits))
  {
  }

  lemma StartFits(opts: Options, f: File, l: Link, e: nat, fits: Record -> bool)
    requires FileOk(f, l.table) && AllFit(l, e, fits)
    ensures AllFit(Start(opts, f, l).link, e, fits)
  {
    if NamesFile(opts, f) {
      OneMoreFits(l, Start(opts, f, l).link, e, fits);
    }
  }

  lemma OwnStays(t: seq<Entry>, u: seq<Entry>, e: nat, fits: Record -> bool)
    requires SameKinds(t, u) && e < |t| && OwnFits(t, e, fits)
    ensures OwnFits(u, e, fits)
  {
    assert t[e].kind == u[e].kind && t[e].name == u[e].name;
  }

  lemma {:induction false} ForceSymbolsFit(opts: Options, f: File, s: Pass, l: Link, wanted: seq<nat>, e: nat,
                                           fits: Record -> bool)
    requires Inv(l) && PassOk(f, s) && SameKinds(s.link.table, l.table)
    requires e < |l.table| && AllFit(l, e, fits) && OwnFits(l.table, e, fits)
    ensures AllFit(ForceSymbols(opts, f, s, l, wanted), e, fits)
    decreases |wanted|
  {
    hide AllFit, OwnFits, Force, Inv;
    if wanted != [] {
      var rest, i := wanted[..|wanted| - 1], wanted[|wanted| - 1];
      ForceSymbolsFit(opts, f, s, l, rest, e, fits);
      if i < |s.map_| && s.hashes[i].Some? {
        var before := ForceSymbols(opts, f, s, l, rest);
        InvLinks(before);
        OwnStays(l.table, before.table, e, fits);
        ForceFits(opts, before, s.hashes[i].value, e, fits);
      }
    }
  }

  lemma InvLinks(l: Link)
    requires Inv(l)
    ensures LinksOk(l.table)
  {
  }

  lemma ActFits(opts: Options, l: Link, a: Action, e: nat, fits: Record -> bool)
    requires Inv(l) && ActionOk(l.table, a) && e < |l.table| && ActionFits(l.table, a, e, fits) && AllFit(l, e, fits)
    ensures AllFit(Act(opts, l, a), e, fits)
  {
    hide AllFit, OwnFits, ActionFits, CopiesFit, ForceSymbols, Force, WriteOther;
    FileFits(l.table, a, e, fits);
    match a
    case LinkFile(f, wanted) =>
      BeforeFits(opts, f, l, |f.syms|, e, wanted, fits);
      var s := WriteSymbols(opts, f, l);
      assert s == Before(opts, f, l, |f.syms|);
      OwnStays(l.table, s.link.table, e, fits);
      ForceSymbolsFit(opts, f, s, s.link, wanted, e, fits);
    case WriteOne(d) =>
      WriteOtherFits(opts, l, d, e, fits);
    case Need(d) =>
      ForceFits(opts, l, d, e, fits);
  }

  predicate AllActionsFit(table: seq<Entry>, actions: seq<Action>, e: nat, fits: Record -> bool)
    requires LinksOk(table) && e < |table|
  {
    OwnFits(table, e, fits) && forall k :: 0 <= k < |actions| ==> ActionFits(table, actions[k], e, fits)
  }

  /** Over a whole link: if the record that the linker writes for an entry and the copies of
      all symbols that stand for it are of some kind, all its records are. */
  lemma {:induction false} RunFits(opts: Options, l: Link, actions: seq<Action>, n: nat, e: nat, fits: Record -> bool)
    requires Good(opts, l) && ActionsOk(l.table, actions) && n <= |actions| && e < |l.table|
    requires AllActionsFit(l.table, actions, e, fits) && AllFit(l, e, fits)
    ensures AllFit(Run(opts, l, actions, n), e, fits)
  {
    hide AllFit, OwnFits, Act, ActionFits;
    if n > 0 {
      RunFits(opts, l, actions, n - 1, e, fits);
      var before := Run(opts, l, actions, n - 1);
      ActionStays(l.table, before.table, actions[n - 1]);
      FitsStay(l.table, before.table, actions[n - 1], e, fits);
      ActFits(opts, before, actions[n - 1], e, fits);
    }
  }

  lemma {:induction false} TraverseFits(opts: Options, l: Link, n: nat, e: nat, fits: Record -> bool)
    requires Good(opts, l) && n <= |l.table| && e < |l.table| && AllFit(l, e, fits) && OwnFits(l.table, e, fits)
    ensures AllFit(Traverse(opts, l, n), e, fits)
  {
    hide AllFit, OwnFits, WriteOther;
    if n > 0 {
      TraverseFits(opts, l, n - 1, e, fits);
      var before := Traverse(opts, l, n - 1);
      OwnStays(l.table, before.table, e, fits);
      WriteOtherFits(opts, before, n - 1, e, fits);
    }
  }

  /** And in the end. */
  lemma EndFits(opts: Options, table: seq<Entry>, actions: seq<Action>, e: nat, fits: Record -> bool)
    requires Fresh(table) && ActionsOk(table, actions) && e < |table| && AllActionsFit(table, actions, e, fits)
    ensures AllFit(End(opts, table, actions), e, fits)
  {
    hide Inv, ActionFits, OwnFits, Act;
    FreshInv(opts, table);
    RunFits(opts, Begin(table), actions, |actions|, e, fits);
    var l := Run(opts, Begin(table), actions, |actions|);
    OwnStays(table, l.table, e, fits);
    TraverseFits(opts, l, |table|, e, fits);
  }

  // ----- names

  lemma GlobalVisible(table: seq<Entry>, d: nat)
    requires d < |table| && GlobalRecord(table, d).Some?
    ensures ByName(GlobalRecord(table, d).value, table[d].name) && GlobalRecord(table, d).value.owner == Some(d)
  {
  }

  predicate PlainAction(a: Action, e: nat) {
    a.LinkFile? ==> Plainly(a.f, e)
  }

  lemma PlainFits(table: seq<Entry>, a: Action, e: nat, fits: Record -> bool)
    requires LinksOk(table) && e < |table| && PlainAction(a, e) && !table[e].kind.Warning?
    requires forall r :: fits(r) == ByName(r, table[e].name)
    ensures ActionFits(table, a, e, fits) && OwnFits(table, e, fits)
  {
    if a.LinkFile? {
      forall j | 0 <= j < |a.f.syms| && j < |a.f.hashes| && a.f.hashes[j] == Some(e)
        ensures CopyFor(a.f, table, j, e).etype != N_BINCL && fits(CopyFor(a.f, table, j, e))
      {
        ChosenVisible(a.f, a.f.syms[j], Some(table[Base(table, e)].kind));
      }
    }
  }

  /** A symbol that is looked up by name is copied as one. */
  lemma ChosenVisible(f: File, sym: Sym, known: Option<Kind>)
    requires Visible(sym.etype) && known.Some?
    ensures Visible(Choose(f, sym, known).etype)
  {
  }

  lemma ActNamed(opts: Options, l: Link, a: Action, e: nat)
    requires Inv(l) && ActionOk(l.table, a) && PlainAction(a, e)
    requires e < |l.table| && Named(l, e) && !l.table[e].kind.Warning?
    ensures var m := Act(opts, l, a); |m.table| == |l.table| && Named(m, e)
  {
    hide Act, ActionFits, PlainAction, ByName;
    var name := l.table[e].name;
    var fits := (r: Record) => ByName(r, name);
    PlainFits(l.table, a, e, fits);
    ActFits(opts, l, a, e, fits);
  }

  lemma PlainActionsFit(table: seq<Entry>, actions: seq<Action>, e: nat, fits: Record -> bool)
    requires LinksOk(table) && e < |table| && !table[e].kind.Warning?
    requires forall k :: 0 <= k < |actions| ==> PlainAction(actions[k], e)
    requires forall r :: fits(r) == ByName(r, table[e].name)
    ensures AllActionsFit(table, actions, e, fits)
  {
    PlainFits(table, Need(e), e, fits);
    hide ActionFits, OwnFits, PlainAction, ByName;
    forall k | 0 <= k < |actions| ensures ActionFits(table, actions[k], e, fits) {
      PlainFits(table, actions[k], e, fits);
    }
  }

  /** Over a whole link: a record that belongs to an entry has its name, and a type by which
      it will be found. */
  lemma RunNamed(opts: Options, l: Link, actions: seq<Action>, n: nat, e: nat)
    requires Good(opts, l) && ActionsOk(l.table, actions) && n <= |actions|
    requires forall k :: 0 <= k < |actions| ==> PlainAction(actions[k], e)
    requires e < |l.table| && Named(l, e) && !l.table[e].kind.Warning?
    ensures Named(Run(opts, l, actions, n), e)
  {
    hide Act, AllActionsFit, PlainAction, ByName;
    var name := l.table[e].name;
    var fits := (r: Record) => ByName(r, name);
    PlainActionsFit(l.table, actions, e, fits);
    RunFits(opts, l, actions, n, e, fits);
  }

  lemma EndNamed(opts: Options, table: seq<Entry>, actions: seq<Action>, e: nat)
    requires Fresh(table) && ActionsOk(table, actions) && e < |table| && !table[e].kind.Warning?
    requires forall k :: 0 <= k < |actions| ==> PlainAction(actions[k], e)
    ensures Named(End(opts, table, actions), e)
  {
    hide Act, AllActionsFit, PlainAction, ByName;
    var name := table[e].name;
    var fits := (r: Record) => ByName(r, name);
    PlainActionsFit(table, actions, e, fits);
    EndFits(opts, table, actions, e, fits);
  }

  // ----- records stay

  lemma ActGrows(opts: Options, l: Link, a: Action)
    requires Inv(l) && ActionOk(l.table, a)
    ensures l.records <= Act(opts, l, a).records
  {
    match a
    case LinkFile(f, wanted) =>
      var s := WriteSymbols(opts, f, l);
      ForceSymbolsGrow(opts, f, s, s.link, wanted);
    case WriteOne(e) =>
      WriteOtherGrows(opts, l, e);
    case Need(e) =>
      ForceGrows(opts, l, e);
  }

  lemma WriteOtherGrows(opts: Options, l: Link, e: nat)
    requires LinksOk(l.table) && e < |l.table|
    ensures l.records <= WriteOther(opts, l, e).records
  {
  }

  lemma ForceGrows(opts: Options, l: Link, e: nat)
    requires LinksOk(l.table) && e < |l.table|
    ensures l.records <= Force(opts, l, e).records
  {
    LinksStay(l.table, l.table[e := l.table[e].(indx := -2, written := false)]);
    WriteOtherGrows(opts, l.(table := l.table[e := l.table[e].(indx := -2, written := false)]), e);
  }

  lemma {:induction false} ForceSymbolsGrow(opts: Options, f: File, s: Pass, l: Link, wanted: seq<nat>)
    requires Inv(l) && PassOk(f, s) && SameKinds(s.link.table, l.table)
    ensures l.records <= ForceSymbols(opts, f, s, l, wanted).records
    decreases |wanted|
  {
    hide Force, Inv;
    if wanted != [] {
      var rest, i := wanted[..|wanted| - 1], wanted[|wanted| - 1];
      ForceSymbolsGrow(opts, f, s, l, rest);
      if i < |s.map_| && s.hashes[i].Some? {
        InvLinks(ForceSymbols(opts, f, s, l, rest));
        ForceGrows(opts, ForceSymbols(opts, f, s, l, rest), s.hashes[i].value);
      }
    }
  }

  lemma {:induction false} RunGrows(opts: Options, l: Link, actions: seq<Action>, m: nat, n: nat)
    requires Good(opts, l) && ActionsOk(l.table, actions) && m <= n <= |actions|
    ensures Run(opts, l, actions, m).records <= Run(opts, l, actions, n).records
    decreases n - m
  {
    hide Act;
    if m < n {
      RunGrows(opts, l, actions, m, n - 1);
      var before := Run(opts, l, actions, n - 1);
      ActionStays(l.table, before.table, actions[n - 1]);
      ActGrows(opts, before, actions[n - 1]);
    }
  }

  lemma {:induction false} TraverseGrows(opts: Options, l: Link, n: nat)
    requires Good(opts, l) && n <= |l.table|
    ensures l.records <= Traverse(opts, l, n).records
  {
    hide WriteOther;
    if n > 0 {
      TraverseGrows(opts, l, n - 1);
      WriteOtherGrows(opts, Traverse(opts, l, n - 1), n - 1);
    }
  }

  // ----- the hash entry of a symbol

  /** After the loop a symbol has the hash entry it had, or the one at the end of the chain. */
  lemma {:induction false} EntryAfter(opts: Options, f: File, l: Link, j: nat)
    requires FileOk(f, l.table) && Inv(l) && j < |f.syms|
    ensures var h := WriteSymbols(opts, f, l).hashes[j];
            h == f.hashes[j] || (f.hashes[j].Some? && h == Some(Base(l.table, f.hashes[j].value)))
  {
    StartOk(opts, f, l);
    var s := Before(opts, f, l, j);
    StepsJoin(opts, f, Start(opts, f, l), 0, j, |f.syms|, l);
    StepSteps(opts, f, s, j);
    PassStep(f, l, s, Step(opts, f, s, j), j);
    StepEntry(opts, f, s, j);
    if f.hashes[j].Some? {
      BaseStays(l.table, s.link.table, f.hashes[j].value);
    }
    StepsKeep(opts, f, Step(opts, f, s, j), j + 1, |f.syms|, l);
    assert Steps(opts, f, s, j, |f.syms|, l) == Steps(opts, f, Step(opts, f, s, j), j + 1, |f.syms|, l);
  }

  lemma StepEntry(opts: Options, f: File, s: Pass, i: nat)
    requires PassOk(f, s) && i < |f.syms|
    ensures var h := Step(opts, f, s, i).hashes[i];
            h == s.hashes[i] || (s.hashes[i].Some? && h == Some(Base(s.link.table, s.hashes[i].value)))
  {
    var s1 := s.(map_ := s.map_[i := -1]);
    if s.map_[i] != -1 && !s.pass && !s.skipNext && s.hashes[i].None? {
      var c := Choose(f, f.syms[i], None);
      CopyCopies(f, s1.(pass := c.pass, skipNext := c.skipNext), i, c.etype, f.syms[i].name, c.value, None);
    }
  }

  // ----- numbers of symbols that relocs need

  /** A number other than -1 stays, whatever else is forced out. */
  lemma ForceKeepsNumber(opts: Options, l: Link, e: nat, d: nat)
    requires Inv(l) && e < |l.table| && d < |l.table|
    ensures |Force(opts, l, e).table| == |l.table|
    ensures l.table[d].indx != -1 ==> Force(opts, l, e).table[d].indx == l.table[d].indx
    ensures !Writable(l.table[d].kind) && l.table[d].indx < 0 ==> Force(opts, l, e).table[d].indx < 0
  {
    ForceOutcome(opts, l, e);
    assert EntryOk(l, d) && Stuck(l, d);
    if l.table[e].indx < 0 {
      var m := l.(table := l.table[e := l.table[e].(indx := -2, written := false)]);
      LinksStay(l.table, m.table);
      var w := if m.table[e].kind.Warning? then m.table[e].kind.link else e;
      GlobalRecordIff(m.table, w);
    }
  }

  lemma {:induction false} ForceSymbolsKeepNumber(opts: Options, f: File, s: Pass, l: Link, wanted: seq<nat>, d: nat)
    requires Inv(l) && PassOk(f, s) && SameKinds(s.link.table, l.table) && d < |l.table|
    ensures var m := ForceSymbols(opts, f, s, l, wanted);
            && |m.table| == |l.table|
            && (l.table[d].indx != -1 ==> m.table[d].indx == l.table[d].indx)
            && (!Writable(l.table[d].kind) && l.table[d].indx < 0 ==> m.table[d].indx < 0)
    decreases |wanted|
  {
    hide Force, Inv;
    if wanted != [] {
      var rest, i := wanted[..|wanted| - 1], wanted[|wanted| - 1];
      ForceSymbolsKeepNumber(opts, f, s, l, rest, d);
      if i < |s.map_| && s.hashes[i].Some? {
        ForceKeepsNumber(opts, ForceSymbols(opts, f, s, l, rest), s.hashes[i].value, d);
      }
    }
  }

  /** A symbol that is wanted and was left out has a number in the end exactly if it had one
      already or can have a record. */
  lemma {:induction false} WantedNumber(opts: Options, f: File, s: Pass, l: Link, wanted: seq<nat>, i: nat)
    requires Inv(l) && PassOk(f, s) && SameKinds(s.link.table, l.table)
    requires i in wanted && i < |s.map_| && s.map_[i] == -1 && s.hashes[i].Some?
    ensures var m, b := ForceSymbols(opts, f, s, l, wanted), s.hashes[i].value;
            && |m.table| == |l.table| && m.table[b].indx != -1
            && (m.table[b].indx >= 0 <==> l.table[b].indx >= 0 || Writable(l.table[b].kind))
    decreases |wanted|
  {
    hide Force, Inv;
    var rest, last, b := wanted[..|wanted| - 1], wanted[|wanted| - 1], s.hashes[i].value;
    var before := ForceSymbols(opts, f, s, l, rest);
    if last == i {
      ForceSymbolsKeepNumber(opts, f, s, l, rest, b);
      ForceOutcome(opts, before, b);
      ForceAgain(opts, before, b);
    } else {
      assert i in rest;
      WantedNumber(opts, f, s, l, rest, i);
      if last < |s.map_| && s.hashes[last].Some? {
        ForceKeepsNumber(opts, before, s.hashes[last].value, b);
      }
    }
  }

  lemma ForceAgain(opts: Options, l: Link, e: nat)
    requires LinksOk(l.table) && e < |l.table|
    ensures l.table[e].indx >= 0 ==> Force(opts, l, e) == l
  {
  }
}
