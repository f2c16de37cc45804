/** Each header file once in the output of a link: exactly when, for any files and options. */
module LinkOnce {
  import opened Bytes
  import opened Wrappers
  import opened LinkSymbols
  import opened LinkRecords
  import opened LinkIncludes
  import opened LinkHeaders

  /** The sums as the records show them. */
  function Shown(includes: seq<(Name, int)>): (shown: seq<(Name, int)>)
    ensures |shown| == |includes|
  {
    seq(|includes|, k requires 0 <= k < |includes| => (includes[k].0, includes[k].1 % WORD))
  }

  /** The header files begun in the output are those remembered, and no two of them have
      the same name and the same sum. */
  predicate HeadersOk(l: Link) {
    && Openers(l.records) == Shown(l.includes)
    && forall j, k :: 0 <= j < k < |l.includes| ==> l.includes[j] != l.includes[k]
  }

  /** How many more header files are begun than remembered. */
  function Excess(l: Link): int {
    |Openers(l.records)| - |l.includes|
  }

  /** From l to m, apart from the header files that are remembered, these have begun. */
  predicate Owes(l: Link, m: Link, extra: seq<(Name, int)>) {
    multiset(Openers(m.records)) + multiset(Shown(l.includes))
    == multiset(Openers(l.records)) + multiset(Shown(m.includes)) + multiset(extra)
  }

  lemma OwesTransitive(l: Link, m: Link, n: Link, a: seq<(Name, int)>, b: seq<(Name, int)>)
    requires Owes(l, m, a) && Owes(m, n, b)
    ensures Owes(l, n, a + b)
  {
    var begun0, begun1, begun2 := multiset(Openers(l.records)), multiset(Openers(m.records)),
                                  multiset(Openers(n.records));
    var shown0, shown1, shown2 := multiset(Shown(l.includes)), multiset(Shown(m.includes)), multiset(Shown(n.includes));
    hide Openers, Shown;
    forall x | true ensures (begun2 + shown0)[x] == (begun0 + shown2 + multiset(a + b))[x] {
      assert (begun1 + shown0)[x] == (begun0 + shown1 + multiset(a))[x];
      assert (begun2 + shown1)[x] == (begun1 + shown2 + multiset(b))[x];
      assert multiset(a + b) == multiset(a) + multiset(b);
    }
  }

  /** What is begun and what is remembered grow alike. */
  predicate Keeps(l: Link, m: Link) {
    Excess(m) == Excess(l) && (HeadersOk(l) ==> HeadersOk(m)) && Owes(l, m, [])
  }

  lemma KeepsTransitive(l: Link, m: Link, n: Link)
    requires Keeps(l, m) && Keeps(m, n)
    ensures Keeps(l, n)
  {
    hide HeadersOk, Excess, Owes;
    var none: seq<(Name, int)> := [];
    OwesTransitive(l, m, n, none, none);
    assert none + none == none;
  }

  /** The header file that symbol i begins without being looked at. */
  function PassedThrough(f: File, s: Pass, i: nat): seq<(Name, int)>
    requires PassOk(f, s) && i < |f.syms|
  {
    if PassesHeader(f, s, i) then [(f.syms[i].name, f.syms[i].value % WORD)] else []
  }

  // ----- one symbol

  /** What the records and the header files of a link may become by one more record. */
  predicate OneMore(l: Link, m: Link, r: Record) {
    || (r.etype != N_BINCL && m.includes == l.includes && m.records == l.records + [r])
    || (r.etype == N_BINCL && m.records == l.records + [r] && |m.includes| == |l.includes| + 1
        && var key := m.includes[|l.includes|];
           key !in l.includes && m.includes == l.includes + [key] && r.name == key.0 && r.value == key.1 % WORD)
  }

  lemma OneMoreKeeps(l: Link, m: Link, r: Record)
    requires OneMore(l, m, r)
    ensures Keeps(l, m)
  {
    OneMoreOpener(l.records, r);
    if r.etype == N_BINCL {
      var key := m.includes[|l.includes|];
      assert Shown(m.includes) == Shown(l.includes) + [(key.0, key.1 % WORD)];
    }
  }

  lemma SameKeeps(l: Link, m: Link)
    requires m.records == l.records && m.includes == l.includes
    ensures Keeps(l, m)
  {
  }

  /** Copying a symbol never begins a header file that is not remembered. */
  lemma CopyKeeps(f: File, s: Pass, i: nat, etype: bv8, name: Name, value: int, owner: Option<nat>)
    requires PassOk(f, s) && i < |f.syms|
    ensures var m := Copy(f, s, i, etype, name, value, owner).link;
            Keeps(s.link, m)
  {
    var sym, total, m := f.syms[i], Total(f.syms, i + 1, 0), Copy(f, s, i, etype, name, value, owner).link;
    var r := Record(name, etype, sym.other, sym.desc, value % WORD, owner);
    if etype != N_BINCL {
      OneMoreKeeps(s.link, m, r);
    } else if (name, total) in s.link.includes {
      OneMoreKeeps(s.link, m, r.(etype := N_EXCL, value := total % WORD));
    } else {
      var key := (name, total);
      assert key !in s.link.includes && m.includes == s.link.includes + [key];
      OneMoreKeeps(s.link, m, r.(value := total % WORD));
    }
  }

  lemma LocalKeeps(opts: Options, f: File, s: Pass, i: nat)
    requires PassOk(f, s) && i < |f.syms|
    ensures Keeps(s.link, StepLocal(opts, f, s, i).link)
  {
    var c := Choose(f, f.syms[i], None);
    CopyKeeps(f, s.(pass := c.pass, skipNext := c.skipNext), i, c.etype, f.syms[i].name, c.value, None);
  }

  lemma GlobalKeeps(opts: Options, f: File, s: Pass, i: nat, h: nat)
    requires PassOk(f, s) && i < |f.syms| && h < |s.link.table|
    ensures Keeps(s.link, StepGlobal(opts, f, s, i, h).link)
  {
    hide Copy, Choose, Keeps;
    var l, name := s.link, NameOf(s, i, f.syms[i]);
    SameKeeps(l, l.(table := l.table[h := l.table[h].(written := true)]));
    var table := l.table[h := l.table[h].(written := true, indx := |l.records|)];
    LinksStay(l.table, table);
    SameKeeps(l, l.(table := table));
    var c := Choose(f, f.syms[i], Some(l.table[Base(l.table, h)].kind));
    CopyKeeps(f, s.(link := l.(table := table), pass := c.pass, skipNext := c.skipNext), i, c.etype, name, c.value,
              Some(h));
    if !Strips(opts, f.syms[i].etype, name) {
      KeepsTransitive(l, l.(table := table), StepGlobal(opts, f, s, i, h).link);
    }
  }

  /** One turn of the loop begins a header file that is not remembered exactly if it passes
      one through. */
  lemma StepExcess(opts: Options, f: File, s: Pass, i: nat)
    requires PassOk(f, s) && i < |f.syms|
    ensures var m := Step(opts, f, s, i).link;
            && Excess(m) == Excess(s.link) + (if PassesHeader(f, s, i) then 1 else 0)
            && (HeadersOk(s.link) && !PassesHeader(f, s, i) ==> HeadersOk(m))
            && Owes(s.link, m, PassedThrough(f, s, i))
  {
    hide StepLocal, StepGlobal;
    var s1, sym := s.(map_ := s.map_[i := -1]), f.syms[i];
    if s.map_[i] == -1 {
    } else if s.pass {
      var r := Record(sym.name, sym.etype, sym.other, sym.desc, sym.value % WORD, None);
      OneMoreOpener(s.link.records, r);
      if sym.etype != N_BINCL {
        OneMoreKeeps(s.link, Step(opts, f, s, i).link, r);
      }
    } else if s.skipNext {
    } else if s.hashes[i].None? {
      LocalKeeps(opts, f, s1, i);
    } else if !s.link.table[s.hashes[i].value].written {
      GlobalKeeps(opts, f, s1, i, s.hashes[i].value);
    }
  }

  // ----- one file

  lemma StartKeeps(opts: Options, f: File, l: Link)
    requires FileOk(f, l.table)
    ensures Keeps(l, Start(opts, f, l).link)
  {
    if NamesFile(opts, f) {
      OneMoreKeeps(l, Start(opts, f, l).link, FileRecord(f));
    }
  }

  lemma NoneMore(opts: Options, f: File, l: Link, n: nat)
    requires FileOk(f, l.table) && Inv(l) && n < |f.syms|
    ensures NonePassed(opts, f, l, n + 1) <==> NonePassed(opts, f, l, n) && !PassesHeader(f, Before(opts, f, l, n), n)
  {
    hide Before, PassesHeader;
  }

  /** Header files begun and header files remembered keep step with each other as long as
      none is passed through, and never again after that. */
  predicate InStep(l: Link, m: Link, none: bool) {
    && Excess(m) >= Excess(l)
    && (Excess(m) == Excess(l) <==> none)
    && (HeadersOk(l) && none ==> HeadersOk(m))
  }

  lemma InStepNext(l: Link, m: Link, n: Link, none: bool, passes: bool)
    requires InStep(l, m, none)
    requires Excess(n) == Excess(m) + (if passes then 1 else 0) && (HeadersOk(m) && !passes ==> HeadersOk(n))
    ensures InStep(l, n, none && !passes)
  {
    hide Excess, HeadersOk;
  }

  lemma NothingYet(opts: Options, f: File, l: Link)
    requires FileOk(f, l.table) && Inv(l)
    ensures InStep(l, Before(opts, f, l, 0).link, NonePassed(opts, f, l, 0))
  {
    hide HeadersOk, Excess;
    StartKeeps(opts, f, l);
  }

  lemma {:induction false} BeforeExcess(opts: Options, f: File, l: Link, n: nat)
    requires FileOk(f, l.table) && Inv(l) && n <= |f.syms|
    ensures InStep(l, Before(opts, f, l, n).link, NonePassed(opts, f, l, n))
  {
    hide InStep, HeadersOk, Excess, PassesHeader, NonePassed, Before, Step;
    if n == 0 {
      NothingYet(opts, f, l);
    } else {
      BeforeExcess(opts, f, l, n - 1);
      BeforeNext(opts, f, l, n - 1);
      var s := Before(opts, f, l, n - 1);
      StepExcess(opts, f, s, n - 1);
      NoneMore(opts, f, l, n - 1);
      InStepNext(l, s.link, Step(opts, f, s, n - 1).link, NonePassed(opts, f, l, n - 1), PassesHeader(f, s, n - 1));
    }
  }

  lemma WantedKeeps(opts: Options, l: Link, e: nat)
    requires e < |l.table|
    ensures Keeps(l, WriteGlobal(opts, l, e))
  {
    var m := WriteGlobal(opts, l, e);
    if m.records != l.records {
      GlobalType(l.table, e);
      OneMoreKeeps(l, m, GlobalRecord(l.table, e).value);
    }
  }

  lemma WriteOtherKeepsHeaders(opts: Options, l: Link, e: nat)
    requires e < |l.table| && LinksOk(l.table)
    ensures Keeps(l, WriteOther(opts, l, e))
  {
    hide Keeps, WriteGlobal;
    SameKeeps(l, l);
    WantedKeeps(opts, l, if l.table[e].kind.Warning? then l.table[e].kind.link else e);
  }

  lemma ForceKeeps(opts: Options, l: Link, e: nat)
    requires e < |l.table| && LinksOk(l.table)
    ensures Keeps(l, Force(opts, l, e))
  {
    hide Keeps, WriteOther;
    var m := l.(table := l.table[e := l.table[e].(indx := -2, written := false)]);
    LinksStay(l.table, m.table);
    SameKeeps(l, l);
    SameKeeps(l, m);
    WriteOtherKeepsHeaders(opts, m, e);
    KeepsTransitive(l, m, WriteOther(opts, m, e));
  }

  lemma {:induction false} ForceSymbolsKeeps(opts: Options, f: File, s: Pass, l: Link, wanted: seq<nat>)
    requires Inv(l) && PassOk(f, s) && SameKinds(s.link.table, l.table)
    ensures Keeps(l, ForceSymbols(opts, f, s, l, wanted))
    decreases |wanted|
  {
    hide Keeps, Force;
    SameKeeps(l, l);
    if wanted != [] {
      var rest, i := wanted[..|wanted| - 1], wanted[|wanted| - 1];
      var before := ForceSymbols(opts, f, s, l, rest);
      ForceSymbolsKeeps(opts, f, s, l, rest);
      if i < |s.map_| && s.hashes[i].Some? {
        ForceKeeps(opts, before, s.hashes[i].value);
        KeepsTransitive(l, before, Force(opts, before, s.hashes[i].value));
      }
    }
  }

  /** An action passes no header file through. */
  predicate Clean(opts: Options, l: Link, a: Action)
    requires Inv(l) && ActionOk(l.table, a)
  {
    a.LinkFile? ==> NonePassed(opts, a.f, l, |a.f.syms|)
  }

  lemma ActExcess(opts: Options, l: Link, a: Action)
    requires Inv(l) && ActionOk(l.table, a)
    ensures var m := Act(opts, l, a);
            && Excess(m) >= Excess(l)
            && (Excess(m) == Excess(l) <==> Clean(opts, l, a))
            && (HeadersOk(l) && Clean(opts, l, a) ==> HeadersOk(m))
  {
    hide HeadersOk, Excess, NonePassed, ForceSymbols, WriteOther, Force;
    match a
    case LinkFile(f, wanted) =>
      BeforeExcess(opts, f, l, |f.syms|);
      var s := WriteSymbols(opts, f, l);
      assert s == Before(opts, f, l, |f.syms|);
      ForceSymbolsKeeps(opts, f, s, s.link, wanted);
    case WriteOne(e) =>
      WriteOtherKeepsHeaders(opts, l, e);
    case Need(e) =>
      ForceKeeps(opts, l, e);
  }

  /** Action k of a run passes no header file through. */
  predicate CleanAt(opts: Options, l: Link, actions: seq<Action>, k: nat)
    requires Good(opts, l) && ActionsOk(l.table, actions) && k < |actions|
  {
    ActionStays(l.table, Run(opts, l, actions, k).table, actions[k]);
    Clean(opts, Run(opts, l, actions, k), actions[k])
  }

  lemma {:induction false} RunExcess(opts: Options, l: Link, actions: seq<Action>, n: nat)
    requires Good(opts, l) && ActionsOk(l.table, actions) && n <= |actions|
    ensures var m := Run(opts, l, actions, n);
            && Excess(m) >= Excess(l)
            && (Excess(m) == Excess(l) <==> forall k :: 0 <= k < n ==> CleanAt(opts, l, actions, k))
            && (HeadersOk(l) && (forall k :: 0 <= k < n ==> CleanAt(opts, l, actions, k)) ==> HeadersOk(m))
  {
    hide HeadersOk, Excess, Clean, Act;
    if n > 0 {
      RunExcess(opts, l, actions, n - 1);
      var before := Run(opts, l, actions, n - 1);
      ActionStays(l.table, before.table, actions[n - 1]);
      ActExcess(opts, before, actions[n - 1]);
      assert CleanAt(opts, l, actions, n - 1) <==> Clean(opts, before, actions[n - 1]);
    }
  }

  lemma NoExcess(l: Link)
    ensures HeadersOk(l) ==> Excess(l) == 0
  {
    assert |Shown(l.includes)| == |l.includes|;
  }

  /** In the whole output, whatever is linked and with whatever options: the header files
      that are begun are exactly the ones remembered, in that order, no two with the same
      name and the same sum, if and only if in no file the loop came to the beginning of a
      header file with orders to pass it through. */
  lemma {:induction false} EachHeaderOnceIff(opts: Options, table: seq<Entry>, actions: seq<Action>)
    requires Fresh(table) && ActionsOk(table, actions)
    ensures Good(opts, Begin(table))
    ensures HeadersOk(Run(opts, Begin(table), actions, |actions|))
            <==> forall k :: 0 <= k < |actions| ==> CleanAt(opts, Begin(table), actions, k)
  {
    FreshInv(opts, table);
    assert HeadersOk(Begin(table)) by {
      assert Openers([]) == Shown([]);
    }
    RunExcess(opts, Begin(table), actions, |actions|);
    NoExcess(Begin(table));
    NoExcess(Run(opts, Begin(table), actions, |actions|));
  }

  // ----- when the loop has such orders

  /** A special symbol that is looked at gives orders about the next one, unless it is local
      and discarded. */
  predicate Arms(opts: Options, f: File, j: nat)
    requires j < |f.syms| == |f.hashes|
  {
    Special(f.syms[j].etype) && !(f.hashes[j].None? && DiscardsLocal(opts, f.syms[j].etype, f.syms[j].name))
  }

  /** An odd number of such symbols stands directly in front of symbol i: each second one is
      itself what the one before gives orders about. */
  predicate Armed(opts: Options, f: File, i: nat)
    requires i <= |f.syms| == |f.hashes|
  {
    i > 0 && Arms(opts, f, i - 1) && !Armed(opts, f, i - 1)
  }

  /** Nothing is stripped, and debug symbols have no hash entries. */
  predicate Unstripped(opts: Options, f: File) {
    && opts.strip == StripNone && |f.syms| == |f.hashes|
    && forall j :: 0 <= j < |f.syms| && IsStab(f.syms[j].etype) ==> f.hashes[j].None?
  }

  /** Two symbols of the same header file are marked together. */
  predicate Pair(f: File, m: seq<int>, j: nat)
    requires j + 1 < |f.syms| == |m|
  {
    !IsBracket(f.syms[j].etype) && f.syms[j + 1].etype != N_BINCL ==> (m[j] == -1 <==> m[j + 1] == -1)
  }

  predicate Pairs(f: File, m: seq<int>, i: nat)
    requires |f.syms| == |m|
  {
    forall j :: i <= j && j + 1 < |f.syms| ==> Pair(f, m, j)
  }

  lemma {:induction false} MarkHere(f: File, m: seq<int>, i: nat, nest: nat)
    requires i < |f.syms| == |m|
    ensures f.syms[i].etype == N_BINCL || nest > 0 ==> Mark(f.syms, m, i, nest)[i] == m[i]
    ensures f.syms[i].etype != N_BINCL && nest == 0 ==> Mark(f.syms, m, i, nest)[i] == -1
  {
    var t := f.syms[i].etype;
    if t == N_EINCL {
      if nest > 0 {
        MarkOnlyAhead(f.syms, m, i + 1, nest - 1);
      }
    } else if t == N_BINCL {
      MarkOnlyAhead(f.syms, m, i + 1, nest + 1);
    } else {
      MarkOnlyAhead(f.syms, if nest == 0 then m[i := -1] else m, i + 1, nest);
    }
  }

  lemma {:induction false} MarkPairs(f: File, m: seq<int>, i: nat, nest: nat)
    requires i <= |f.syms| == |m| && Pairs(f, m, i)
    ensures Pairs(f, Mark(f.syms, m, i, nest), i)
    decreases |f.syms| - i
  {
    if i < |f.syms| {
      var t, m' := f.syms[i].etype, Mark(f.syms, m, i, nest);
      MarkHere(f, m, i, nest);
      var next := if t == N_EINCL && nest > 0 then nest - 1 else if t == N_BINCL then nest + 1 else nest;
      var marked := if nest == 0 && t != N_BINCL then m[i := -1] else m;
      if !(t == N_EINCL && nest == 0) {
        assert m' == Mark(f.syms, marked, i + 1, next);
        assert Pairs(f, marked, i + 1) by {
          forall j | i + 1 <= j && j + 1 < |f.syms| ensures Pair(f, marked, j) {
            assert Pair(f, m, j);
          }
        }
        MarkPairs(f, marked, i + 1, next);
        if i + 1 < |f.syms| {
          MarkHere(f, marked, i + 1, next);
          assert Pair(f, m, i);
          assert Pair(f, m', i);
        }
      } else {
        forall j | i <= j && j + 1 < |f.syms| ensures Pair(f, m', j) {
          assert Pair(f, m, j);
        }
      }
    }
  }

  // ----- the flags of the loop

  lemma ArmedChoice(f: File, sym: Sym, known: Option<Kind>)
    requires Special(sym.etype) && (known.Some? ==> !IsStab(sym.etype) && !IsLink(known.value))
    ensures Choose(f, sym, known).pass || Choose(f, sym, known).skipNext
  {
    assert sym.etype == N_WARNING ==> !IsIndirect(sym.etype);
  }

  /** How one turn of the loop changes the orders about the next symbol. */
  lemma StepFlags(opts: Options, f: File, s: Pass, i: nat)
    requires Unstripped(opts, f) && PassOk(f, s) && i < |f.syms| && s.hashes[i] == f.hashes[i]
    requires !(s.pass && s.skipNext)
    ensures var s' := Step(opts, f, s, i);
            && !(s'.pass && s'.skipNext)
            && (if s.map_[i] == -1 then s' == s
                else if !Ready(s) then Ready(s')
                else (!Ready(s') <==> Arms(opts, f, i)) && (s'.skipNext ==> f.hashes[i].Some?))
  {
    hide Choose, DiscardsLocal, Copy;
    var sym, h, s1 := f.syms[i], s.hashes[i], s.(map_ := s.map_[i := -1]);
    if s.map_[i] != -1 && Ready(s) {
      var known := if h.Some? then Some(s.link.table[Base(s.link.table, h.value)].kind) else None;
      ChosenType(f, sym, known);
      if Special(sym.etype) {
        ArmedChoice(f, sym, known);
      }
      if h.None? {
        FlagsCopied(f, s1.(pass := Choose(f, sym, None).pass, skipNext := Choose(f, sym, None).skipNext), i,
                    Choose(f, sym, None).etype, sym.name, Choose(f, sym, None).value, None);
      } else if !s.link.table[h.value].written {
        GlobalFlags(opts, f, s1, i, h.value);
      }
    }
  }

  lemma FlagsCopied(f: File, s: Pass, i: nat, etype: bv8, name: Name, value: int, owner: Option<nat>)
    requires PassOk(f, s) && i < |f.syms|
    ensures Copy(f, s, i, etype, name, value, owner).pass == s.pass
    ensures Copy(f, s, i, etype, name, value, owner).skipNext == s.skipNext
  {
  }

  lemma GlobalFlags(opts: Options, f: File, s: Pass, i: nat, h: nat)
    requires opts.strip == StripNone && PassOk(f, s) && i < |f.syms| && h < |s.link.table|
    ensures var s', c := StepGlobal(opts, f, s, i, h),
            Choose(f, f.syms[i], Some(s.link.table[Base(s.link.table, h)].kind));
            s'.pass == c.pass && s'.skipNext == c.skipNext
  {
    hide Choose, Copy;
    var c := Choose(f, f.syms[i], Some(s.link.table[Base(s.link.table, h)].kind));
    var table := s.link.table[h := s.link.table[h].(written := true, indx := |s.link.records|)];
    LinksStay(s.link.table, table);
    FlagsCopied(f, s.(link := s.link.(table := table), pass := c.pass, skipNext := c.skipNext), i, c.etype,
                NameOf(s, i, f.syms[i]), c.value, Some(h));
  }

  /** What one turn does to the marks. */
  lemma StepMarks(opts: Options, f: File, s: Pass, i: nat)
    requires PassOk(f, s) && i < |f.syms|
    ensures var m, m' := s.map_, Step(opts, f, s, i).map_;
            || m' == m[i := m'[i]]
            || (f.syms[i].etype == N_BINCL && m' == Mark(f.syms, m[i := -1], i + 1, 0)[i := m'[i]])
  {
    hide Choose, Copy;
    var sym, h, s1 := f.syms[i], s.hashes[i], s.(map_ := s.map_[i := -1]);
    if s.map_[i] != -1 && Ready(s) {
      var known := if h.Some? then Some(s.link.table[Base(s.link.table, h.value)].kind) else None;
      var c := Choose(f, sym, known);
      ChosenType(f, sym, known);
      if h.None? {
        CopyMarks(f, s1.(pass := c.pass, skipNext := c.skipNext), i, c.etype, sym.name, c.value, None);
      } else if !s.link.table[h.value].written {
        var table := s.link.table[h.value := s.link.table[h.value].(written := true, indx := |s.link.records|)];
        LinksStay(s.link.table, table);
        CopyMarks(f, s1.(link := s.link.(table := table), pass := c.pass, skipNext := c.skipNext), i, c.etype,
                  NameOf(s, i, sym), c.value, h);
      }
    }
  }

  lemma CopyMarks(f: File, s: Pass, i: nat, etype: bv8, name: Name, value: int, owner: Option<nat>)
    requires PassOk(f, s) && i < |f.syms|
    ensures var m, m' := s.map_, Copy(f, s, i, etype, name, value, owner).map_;
            m' == m[i := m'[i]] || (etype == N_BINCL && m' == Mark(f.syms, m, i + 1, 0)[i := m'[i]])
  {
  }

  lemma StepPairs(opts: Options, f: File, s: Pass, i: nat)
    requires PassOk(f, s) && i < |f.syms| && Pairs(f, s.map_, i)
    ensures Pairs(f, Step(opts, f, s, i).map_, i + 1)
  {
    StepMarks(opts, f, s, i);
    var m, m', now := s.map_, Step(opts, f, s, i).map_, s.map_[i := -1];
    forall j | i + 1 <= j && j + 1 < |f.syms| ensures Pair(f, now, j) {
      assert Pair(f, m, j);
    }
    MarkPairs(f, now, i + 1, 0);
    var marked := Mark(f.syms, now, i + 1, 0);
    forall j | i + 1 <= j && j + 1 < |f.syms| ensures Pair(f, m', j) {
      assert Pair(f, now, j) && Pair(f, marked, j);
    }
  }

  /** The loop looks at symbol j: it is not marked. */
  predicate LooksAt(opts: Options, f: File, l: Link, j: nat)
    requires FileOk(f, l.table) && Inv(l) && j < |f.syms|
  {
    Before(opts, f, l, j).map_[j] != -1
  }

  /** The loop has orders about symbol i exactly if an odd number of special symbols stands
      directly in front of it and they have not been dropped with a duplicate header file. */
  predicate FlagsRight(opts: Options, f: File, l: Link, i: nat)
    requires FileOk(f, l.table) && Inv(l) && i <= |f.syms|
  {
    var s := Before(opts, f, l, i);
    && !(s.pass && s.skipNext)
    && (!Ready(s) <==> Armed(opts, f, i) && LooksAt(opts, f, l, i - 1))
    && (s.skipNext ==> f.hashes[i - 1].Some?)
  }

  /** Neighbours that are both special symbols are both looked at or both not. */
  lemma NextLooksAlike(opts: Options, f: File, l: Link, j: nat)
    requires FileOk(f, l.table) && Inv(l) && j + 1 < |f.syms| && Pairs(f, Before(opts, f, l, j).map_, j)
    requires !IsBracket(f.syms[j].etype) && f.syms[j + 1].etype != N_BINCL
    ensures LooksAt(opts, f, l, j) <==> LooksAt(opts, f, l, j + 1)
  {
    var s := Before(opts, f, l, j);
    BeforeNext(opts, f, l, j);
    StepMarks(opts, f, s, j);
    assert Pair(f, s.map_, j);
  }

  lemma {:induction false} PairsBefore(opts: Options, f: File, l: Link, i: nat)
    requires FileOk(f, l.table) && Inv(l) && i <= |f.syms|
    ensures Pairs(f, Before(opts, f, l, i).map_, i)
  {
    if i > 0 {
      hide Pairs, Before, Step, PassInv;
      PairsBefore(opts, f, l, i - 1);
      BeforeNext(opts, f, l, i - 1);
      StepPairs(opts, f, Before(opts, f, l, i - 1), i - 1);
    }
  }

  lemma {:induction false} NotMarked(opts: Options, f: File, l: Link, i: nat, j: nat)
    requires FileOk(f, l.table) && Inv(l) && i <= j < |f.syms|
    ensures f.syms[j].etype == N_BINCL ==> Before(opts, f, l, i).map_[j] != -1
  {
    if i > 0 {
      NotMarked(opts, f, l, i - 1, j);
      BeforeNext(opts, f, l, i - 1);
      StepMarks(opts, f, Before(opts, f, l, i - 1), i - 1);
      MarksNoHeader(f, Before(opts, f, l, i - 1).map_[i - 1 := -1], i, 0, j);
    }
  }

  lemma {:induction false} MarksNoHeader(f: File, m: seq<int>, i: nat, nest: nat, j: nat)
    requires i <= |f.syms| == |m| && j < |f.syms|
    ensures f.syms[j].etype == N_BINCL ==> Mark(f.syms, m, i, nest)[j] == m[j]
    decreases |f.syms| - i
  {
    if i < |f.syms| {
      var t := f.syms[i].etype;
      if t == N_EINCL {
        if nest > 0 {
          MarksNoHeader(f, m, i + 1, nest - 1, j);
        }
      } else if t == N_BINCL {
        MarksNoHeader(f, m, i + 1, nest + 1, j);
      } else {
        MarksNoHeader(f, if nest == 0 then m[i := -1] else m, i + 1, nest, j);
      }
    }
  }

  lemma {:induction false} OrdersIff(opts: Options, f: File, l: Link, i: nat)
    requires Unstripped(opts, f) && FileOk(f, l.table) && Inv(l) && i <= |f.syms|
    ensures FlagsRight(opts, f, l, i)
  {
    if i > 0 {
      OrdersIff(opts, f, l, i - 1);
      OrdersNext(opts, f, l, i - 1);
    }
  }

  lemma {:induction false} OrdersNext(opts: Options, f: File, l: Link, j: nat)
    requires Unstripped(opts, f) && FileOk(f, l.table) && Inv(l) && j < |f.syms| && FlagsRight(opts, f, l, j)
    ensures FlagsRight(opts, f, l, j + 1)
  {
    BeforeNext(opts, f, l, j);
    StepFlags(opts, f, Before(opts, f, l, j), j);
    Neighbours(opts, f, l, j);
    ArmedNext(opts, f, j);
    hide Before, Arms, Armed, Step, PassOk;
  }

  lemma ArmedNext(opts: Options, f: File, j: nat)
    requires j < |f.syms| == |f.hashes|
    ensures Armed(opts, f, j + 1) <==> Arms(opts, f, j) && !Armed(opts, f, j)
    ensures Armed(opts, f, j) ==> j > 0 && Arms(opts, f, j - 1)
  {
  }

  /** Behind an arming symbol, what is not the beginning of a header file is looked at alike;
      the beginning of a header file always is. */
  lemma {:induction false} Neighbours(opts: Options, f: File, l: Link, j: nat)
    requires FileOk(f, l.table) && Inv(l) && j < |f.syms|
    ensures f.syms[j].etype == N_BINCL ==> LooksAt(opts, f, l, j) && !Arms(opts, f, j)
    ensures f.syms[j].etype != N_BINCL && j > 0 && Arms(opts, f, j - 1) ==>
              (LooksAt(opts, f, l, j - 1) <==> LooksAt(opts, f, l, j))
  {
    NotMarked(opts, f, l, j, j);
    if j > 0 && f.syms[j].etype != N_BINCL && Arms(opts, f, j - 1) {
      PairsBefore(opts, f, l, j - 1);
      NextLooksAlike(opts, f, l, j - 1);
    }
  }

  // ----- read off the symbols

  /** An odd number of arming symbols stands in front of no beginning of a header file,
      unless they are dropped with a duplicate. */
  predicate NoneOrdered(opts: Options, f: File, l: Link)
    requires FileOk(f, l.table) && Inv(l)
  {
    forall i :: 0 <= i < |f.syms| && f.syms[i].etype == N_BINCL && Armed(opts, f, i) ==> !LooksAt(opts, f, l, i - 1)
  }

  lemma PassedIff(opts: Options, f: File, l: Link, i: nat)
    requires Plain(opts, f) && FileOk(f, l.table) && Inv(l) && i < |f.syms|
    ensures PassesHeader(f, Before(opts, f, l, i), i)
            <==> f.syms[i].etype == N_BINCL && Armed(opts, f, i) && LooksAt(opts, f, l, i - 1)
  {
    assert Unstripped(opts, f) by {
      forall j | 0 <= j < |f.syms| && IsStab(f.syms[j].etype) ensures f.hashes[j].None? {
        assert PlainSym(f, j);
      }
    }
    OrdersIff(opts, f, l, i);
    assert PlainSym(f, i);
    if f.syms[i].etype == N_BINCL {
      NotMarked(opts, f, l, i, i);
    }
    ArmedNextIsSpecial(opts, f, i);
    hide Before, Arms, Armed, Special;
  }

  lemma ArmedNextIsSpecial(opts: Options, f: File, i: nat)
    requires i <= |f.syms| == |f.hashes|
    ensures Armed(opts, f, i) ==> i > 0 && Special(f.syms[i - 1].etype)
  {
  }

  /** A file passes no header file through exactly if it orders none to be. */
  lemma NonePassedIff(opts: Options, f: File, l: Link)
    requires Plain(opts, f) && FileOk(f, l.table) && Inv(l)
    ensures NonePassed(opts, f, l, |f.syms|) <==> NoneOrdered(opts, f, l)
  {
    forall i | 0 <= i < |f.syms|
      ensures PassesHeader(f, Before(opts, f, l, i), i)
              <==> f.syms[i].etype == N_BINCL && Armed(opts, f, i) && LooksAt(opts, f, l, i - 1)
    {
      PassedIff(opts, f, l, i);
    }
    hide PassesHeader, Before, LooksAt, Armed;
  }

  /** No special symbol stands directly in front of the beginning of a header file. */
  predicate Apart(f: File) {
    forall i :: 0 < i < |f.syms| && f.syms[i].etype == N_BINCL ==> !Special(f.syms[i - 1].etype)
  }

  lemma ApartIsClean(opts: Options, f: File, l: Link)
    requires Plain(opts, f) && FileOk(f, l.table) && Inv(l) && Apart(f)
    ensures NonePassed(opts, f, l, |f.syms|)
  {
    NonePassedIff(opts, f, l);
    forall i | 0 <= i < |f.syms| && f.syms[i].etype == N_BINCL ensures !Armed(opts, f, i) {
      ArmedNextIsSpecial(opts, f, i);
    }
  }

  predicate AllApart(opts: Options, actions: seq<Action>) {
    forall k :: 0 <= k < |actions| && actions[k].LinkFile? ==> Plain(opts, actions[k].f) && Apart(actions[k].f)
  }

  /** In particular every header file is begun once if no special symbol stands directly in
      front of one. */
  lemma EachHeaderOnce(opts: Options, table: seq<Entry>, actions: seq<Action>)
    requires Fresh(table) && ActionsOk(table, actions) && AllApart(opts, actions)
    ensures Good(opts, Begin(table)) && HeadersOk(Run(opts, Begin(table), actions, |actions|))
  {
    EachHeaderOnceIff(opts, table, actions);
    forall k | 0 <= k < |actions| ensures CleanAt(opts, Begin(table), actions, k) {
      var before := Run(opts, Begin(table), actions, k);
      ActionStays(table, before.table, actions[k]);
      if actions[k].LinkFile? {
        ApartIsClean(opts, actions[k].f, before);
      }
    }
  }

  // ----- the effect on a file, exactly

  function Begins(ts: seq<bv8>): nat {
    if ts == [] then 0 else Begins(ts[..|ts| - 1]) + if ts[|ts| - 1] == N_BINCL then 1 else 0
  }

  lemma {:induction false} BeginsJoin(a: seq<bv8>, b: seq<bv8>)
    ensures Begins(a + b) == Begins(a) + Begins(b)
  {
    if b == [] {
      assert a + b == a;
    } else {
      BeginsJoin(a, b[..|b| - 1]);
      assert (a + b)[..|a + b| - 1] == a + b[..|b| - 1];
    }
  }

  lemma BeginsOne(t: bv8)
    ensures Begins([t]) == if t == N_BINCL then 1 else 0
  {
    assert [t][..0] == [];
  }

  lemma {:induction false} OpenersCount(rs: seq<Record>)
    ensures |Openers(rs)| == Begins(BracketTypes(rs))
  {
    if rs != [] {
      OpenersCount(rs[..|rs| - 1]);
      var last := rs[|rs| - 1].etype;
      BeginsOne(last);
      BeginsJoin(BracketTypes(rs[..|rs| - 1]), if IsBracket(last) then [last] else []);
    }
  }

  /** As many header files are expected to begin as are expected to be remembered. */
  lemma {:induction false} ForestCount(t: Forest, includes: seq<(Name, int)>)
    ensures |After(t, includes)| == |includes| + Begins(Brackets(t, includes))
    decreases t
  {
    match t
    case Nil =>
    case Leaf(_, rest) => ForestCount(rest, includes);
    case Header(begin, inner, _, rest) =>
      var seen, now := Seen(includes, begin, inner), Now(t, includes);
      ForestCount(inner, now);
      ForestCount(rest, After(inner, now));
      var b := Brackets(inner, now);
      BeginsOne(N_BINCL);
      BeginsOne(N_EINCL);
      BeginsJoin([N_BINCL], b);
      BeginsJoin([N_BINCL] + b, [N_EINCL]);
      BeginsJoin(if seen then b else [N_BINCL] + b + [N_EINCL], Brackets(rest, After(inner, now)));
  }

  /** A balanced file is dealt with as expected exactly if no header file is passed through. */
  lemma FileHeadersIff(opts: Options, f: File, l: Link, t: Forest)
    requires Plain(opts, f) && FileOk(f, l.table) && Inv(l) && Nested(t) && Flatten(t) == f.syms
    ensures |Start(opts, f, l).map_| == |f.syms|
    ensures Leads(opts, f, Start(opts, f, l), WriteSymbols(opts, f, l), 0, |f.syms|, Expected(t, false, l.includes))
            <==> NonePassed(opts, f, l, |f.syms|)
  {
    var s, s', x := Start(opts, f, l), WriteSymbols(opts, f, l), Expected(t, false, l.includes);
    StartGoes(opts, f, l, t);
    if NonePassed(opts, f, l, |f.syms|) {
      s, s', x := AllSymbols(opts, f, l, t);
    }
    if Leads(opts, f, s, s', 0, |f.syms|, x) {
      OpenersCount(s.link.records);
      OpenersCount(s'.link.records);
      BeginsJoin(BracketTypes(s.link.records), x.brackets);
      ForestCount(t, l.includes);
      StartKeeps(opts, f, l);
      BeforeExcess(opts, f, l, |f.syms|);
      assert s' == Before(opts, f, l, |f.syms|);
    }
  }

  // ----- a debug symbol in the wrong place

  /** The debug symbol that names the main program, whose low bits are those of an indirect
      symbol, and behind it a header file with nothing in it. */
  predicate MainThenHeader(opts: Options, f: File, h: Name, value: int) {
    && opts.strip == StripNone && opts.discard == DiscardNone && f.hashes == [None, None, None] && |f.syms| == 3
    && f.syms[0].etype == N_MAIN
    && f.syms[1].etype == N_BINCL && f.syms[1].name == h && f.syms[1].value == value
    && f.syms[2].etype == N_EINCL
  }

  lemma MainIsPlain(opts: Options, f: File, h: Name, value: int)
    requires MainThenHeader(opts, f, h, value)
    ensures Plain(opts, f) && Balanced(Types(f.syms), 0) && Arms(opts, f, 0) && Armed(opts, f, 1)
  {
    assert IsIndirect(N_MAIN) && !IsBracket(N_MAIN);
    BalancedClosed([]);
    assert [N_MAIN][1..] == [];
    BalancedJoin([N_MAIN], [N_BINCL] + [] + [N_EINCL], 0, 0);
    assert Types(f.syms) == [N_MAIN] + ([N_BINCL] + [] + [N_EINCL]);
  }

  lemma MainOrders(opts: Options, f: File, l: Link, h: Name, value: int)
    requires MainThenHeader(opts, f, h, value) && FileOk(f, l.table) && Inv(l)
    ensures PassesHeader(f, Before(opts, f, l, 1), 1)
  {
    MainIsPlain(opts, f, h, value);
    NothingOpened(opts, f, l);
    PassedIff(opts, f, l, 1);
    hide Plain, Before, PassesHeader, LooksAt, Armed;
  }

  /** The header file is passed through: it is begun in the output, and not remembered. */
  lemma MainHidesHeader(opts: Options, f: File, l: Link, h: Name, value: int)
    requires MainThenHeader(opts, f, h, value) && FileOk(f, l.table) && Inv(l)
    ensures WriteSymbols(opts, f, l).link.includes == l.includes
    ensures Openers(WriteSymbols(opts, f, l).link.records) == Openers(l.records) + [(h, value % WORD)]
  {
    MainOrders(opts, f, l, h, value);
    OneHeaderOpened(opts, f, l);
  }

  lemma OneHeaderOpened(opts: Options, f: File, l: Link)
    requires FileOk(f, l.table) && Inv(l) && |f.syms| == 3 && PassesHeader(f, Before(opts, f, l, 1), 1)
    requires f.hashes[0].None? && f.hashes[2].None? && f.syms[0].etype != N_BINCL && f.syms[2].etype != N_BINCL
    ensures WriteSymbols(opts, f, l).link.includes == l.includes
    ensures Openers(WriteSymbols(opts, f, l).link.records)
            == Openers(l.records) + [(f.syms[1].name, f.syms[1].value % WORD)]
  {
    hide Before, WriteSymbols, Openers, PassesHeader, Inv, PassInv, PassOk, LooksAt;
    NothingOpened(opts, f, l);
    UnopenedBy(opts, f, l, 0);
    OpenedBy(opts, f, l, 1);
    UnopenedBy(opts, f, l, 2);
    AllBefore(opts, f, l);
  }

  lemma OpenedBy(opts: Options, f: File, l: Link, i: nat)
    requires FileOk(f, l.table) && Inv(l) && i < |f.syms| && PassesHeader(f, Before(opts, f, l, i), i)
    ensures Before(opts, f, l, i + 1).link.includes == Before(opts, f, l, i).link.includes
    ensures Openers(Before(opts, f, l, i + 1).link.records)
            == Openers(Before(opts, f, l, i).link.records) + [(f.syms[i].name, f.syms[i].value % WORD)]
  {
    BeforeNext(opts, f, l, i);
    PassedOpener(opts, f, Before(opts, f, l, i), i);
  }

  lemma NothingOpened(opts: Options, f: File, l: Link)
    requires FileOk(f, l.table) && Inv(l) && f.syms != []
    ensures Before(opts, f, l, 0).link.includes == l.includes
    ensures Openers(Before(opts, f, l, 0).link.records) == Openers(l.records)
    ensures LooksAt(opts, f, l, 0)
  {
    OneMoreOpener(l.records, FileRecord(f));
  }

  lemma AllBefore(opts: Options, f: File, l: Link)
    requires FileOk(f, l.table) && Inv(l)
    ensures WriteSymbols(opts, f, l) == Before(opts, f, l, |f.syms|)
  {
  }

  lemma UnopenedBy(opts: Options, f: File, l: Link, i: nat)
    requires FileOk(f, l.table) && Inv(l) && i < |f.syms| && f.hashes[i].None? && f.syms[i].etype != N_BINCL
    ensures Before(opts, f, l, i + 1).link.includes == Before(opts, f, l, i).link.includes
    ensures Openers(Before(opts, f, l, i + 1).link.records) == Openers(Before(opts, f, l, i).link.records)
  {
    BeforeNext(opts, f, l, i);
    Unopened(opts, f, Before(opts, f, l, i), i);
  }

  /** A symbol that begins no header file. */
  lemma Unopened(opts: Options, f: File, s: Pass, i: nat)
    requires PassOk(f, s) && i < |f.syms| && s.hashes[i].None? && f.syms[i].etype != N_BINCL
    ensures Step(opts, f, s, i).link.includes == s.link.includes
    ensures Openers(Step(opts, f, s, i).link.records) == Openers(s.link.records)
  {
    var sym := f.syms[i];
    var c := Choose(f, sym, None);
    ChosenType(f, sym, None);
    OneMoreOpener(s.link.records, Record(sym.name, sym.etype, sym.other, sym.desc, sym.value % WORD, None));
    OneMoreOpener(s.link.records, Record(sym.name, c.etype, sym.other, sym.desc, c.value % WORD, None));
  }

  lemma PassedOpener(opts: Options, f: File, s: Pass, i: nat)
    requires PassOk(f, s) && i < |f.syms| && PassesHeader(f, s, i)
    ensures Step(opts, f, s, i).link.includes == s.link.includes
    ensures Openers(Step(opts, f, s, i).link.records)
            == Openers(s.link.records) + [(f.syms[i].name, f.syms[i].value % WORD)]
  {
    var sym := f.syms[i];
    OneMoreOpener(s.link.records, Record(sym.name, sym.etype, sym.other, sym.desc, sym.value % WORD, None));
  }

  /** So two files like that begin the same header file twice. */
  lemma {:induction false} HeaderTwice(opts: Options, table: seq<Entry>, f: File, h: Name, value: int)
    requires MainThenHeader(opts, f, h, value) && Fresh(table) && FileOk(f, table)
    ensures var actions := [LinkFile(f, []), LinkFile(f, [])];
            && Good(opts, Begin(table)) && ActionsOk(table, actions)
            && Openers(Run(opts, Begin(table), actions, 2).records) == [(h, value % WORD), (h, value % WORD)]
            && !HeadersOk(Run(opts, Begin(table), actions, 2))
  {
    var actions := [LinkFile(f, []), LinkFile(f, [])];
    FreshInv(opts, table);
    var l0, l1, l2 := Begin(table), Run(opts, Begin(table), actions, 1), Run(opts, Begin(table), actions, 2);
    assert Run(opts, Begin(table), actions, 0) == l0;
    MainHidesHeader(opts, f, l0, h, value);
    assert l1 == WriteSymbols(opts, f, l0).link;
    ActionStays(table, l1.table, actions[1]);
    MainHidesHeader(opts, f, l1, h, value);
    assert l2 == WriteSymbols(opts, f, l1).link;
    assert l2.includes == [] && |Shown([])| == 0;
  }
}
