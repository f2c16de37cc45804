/** One record for each name: exactly when, over any link. */
module LinkByName {
  import opened Wrappers
  import opened LinkSymbols
  import opened LinkRecords
  import opened LinkNamed

  /** A record that is found under this name and belongs to no hash entry. */
  predicate Loose(r: Record, x: Name) {
    r.owner.None? && ByName(r, x)
  }

  predicate HasLoose(rs: seq<Record>, x: Name) {
    exists k :: 0 <= k < |rs| && Loose(rs[k], x)
  }

  lemma OneMoreLoose(rs: seq<Record>, all: seq<Record>, x: Name)
    requires |all| == |rs| + 1 && rs <= all
    ensures HasLoose(all, x) <==> HasLoose(rs, x) || Loose(all[|rs|], x)
  {
    assert forall k :: 0 <= k < |rs| ==> all[k] == rs[k];
    if HasLoose(rs, x) {
      var k :| 0 <= k < |rs| && Loose(rs[k], x);
      assert Loose(all[k], x);
    }
    if HasLoose(all, x) {
      var k :| 0 <= k < |all| && Loose(all[k], x);
      assert k < |rs| ==> Loose(rs[k], x);
    }
  }

  // ----- one symbol

  /** The loop copies symbol i, which will be found by its name, on nobody's account: it is
      passed through, or it has no hash entry. */
  predicate Strays(opts: Options, f: File, s: Pass, i: nat, x: Name)
    requires PassOk(f, s) && i < |f.syms|
  {
    var sym := f.syms[i];
    && sym.name == x && Visible(sym.etype) && s.map_[i] != -1
    && (s.pass || (!s.skipNext && s.hashes[i].None? && !Strips(opts, sym.etype, x)
                   && !DiscardsLocal(opts, sym.etype, x)))
  }

  lemma CopyLoose(f: File, s: Pass, i: nat, etype: bv8, name: Name, value: int, owner: Option<nat>, x: Name)
    requires PassOk(f, s) && i < |f.syms|
    ensures HasLoose(Copy(f, s, i, etype, name, value, owner).link.records, x)
            <==> HasLoose(s.link.records, x) || (owner.None? && name == x && Visible(etype))
  {
    var s' := Copy(f, s, i, etype, name, value, owner);
    CopyCopies(f, s, i, etype, name, value, owner);
    OneMoreLoose(s.link.records, s'.link.records, x);
  }

  lemma LocalLoose(opts: Options, f: File, s: Pass, i: nat, x: Name)
    requires PassOk(f, s) && i < |f.syms|
    ensures var sym := f.syms[i];
            HasLoose(StepLocal(opts, f, s, i).link.records, x)
            <==> HasLoose(s.link.records, x)
                 || (sym.name == x && Visible(sym.etype) && !Strips(opts, sym.etype, x)
                     && !DiscardsLocal(opts, sym.etype, x))
  {
    hide Copy, Choose, HasLoose, Visible, DiscardsLocal, Strips;
    var c := Choose(f, f.syms[i], None);
    LocalType(f, f.syms[i]);
    CopyLoose(f, s.(pass := c.pass, skipNext := c.skipNext), i, c.etype, f.syms[i].name, c.value, None, x);
  }

  lemma GlobalLoose(opts: Options, f: File, s: Pass, i: nat, h: nat, x: Name)
    requires PassOk(f, s) && i < |f.syms| && h < |s.link.table|
    ensures HasLoose(StepGlobal(opts, f, s, i, h).link.records, x) <==> HasLoose(s.link.records, x)
  {
    hide Copy, Choose, HasLoose, Visible;
    var l, name := s.link, NameOf(s, i, f.syms[i]);
    var c := Choose(f, f.syms[i], Some(l.table[Base(l.table, h)].kind));
    var table := l.table[h := l.table[h].(written := true, indx := |l.records|)];
    LinksStay(l.table, table);
    CopyLoose(f, s.(link := l.(table := table), pass := c.pass, skipNext := c.skipNext), i, c.etype, name, c.value,
              Some(h), x);
  }

  lemma StepLoose(opts: Options, f: File, s: Pass, i: nat, x: Name)
    requires PassOk(f, s) && i < |f.syms|
    ensures HasLoose(Step(opts, f, s, i).link.records, x) <==> HasLoose(s.link.records, x) || Strays(opts, f, s, i, x)
  {
    hide StepLocal, StepGlobal, HasLoose, Visible, DiscardsLocal, Strips;
    var s1 := s.(map_ := s.map_[i := -1]);
    if s.map_[i] == -1 {
    } else if s.pass {
      OneMoreLoose(s.link.records, Step(opts, f, s, i).link.records, x);
    } else if s.skipNext {
    } else if s.hashes[i].None? {
      LocalLoose(opts, f, s1, i, x);
    } else if !s.link.table[s.hashes[i].value].written {
      GlobalLoose(opts, f, s1, i, s.hashes[i].value, x);
    }
  }

  // ----- one file

  /** Among the first n symbols of a file, one strays. */
  predicate FileStrays(opts: Options, f: File, l: Link, n: nat, x: Name)
    requires FileOk(f, l.table) && Inv(l) && n <= |f.syms|
  {
    exists i :: 0 <= i < n && Strays(opts, f, Before(opts, f, l, i), i, x)
  }

  lemma OneMoreStrays(opts: Options, f: File, l: Link, n: nat, x: Name)
    requires FileOk(f, l.table) && Inv(l) && n < |f.syms|
    ensures FileStrays(opts, f, l, n + 1, x)
            <==> FileStrays(opts, f, l, n, x) || Strays(opts, f, Before(opts, f, l, n), n, x)
  {
    hide Before, Strays;
  }

  lemma {:induction false} BeforeLoose(opts: Options, f: File, l: Link, n: nat, x: Name)
    requires FileOk(f, l.table) && Inv(l) && n <= |f.syms|
    ensures HasLoose(Before(opts, f, l, n).link.records, x) <==> HasLoose(l.records, x) || FileStrays(opts, f, l, n, x)
  {
    hide Step, Strays, HasLoose, FileStrays;
    if n == 0 {
      StartLoose(opts, f, l, x);
    } else {
      BeforeLoose(opts, f, l, n - 1, x);
      BeforeNext(opts, f, l, n - 1);
      StepLoose(opts, f, Before(opts, f, l, n - 1), n - 1, x);
      OneMoreStrays(opts, f, l, n - 1, x);
    }
  }

  lemma StartLoose(opts: Options, f: File, l: Link, x: Name)
    requires FileOk(f, l.table) && Inv(l)
    ensures HasLoose(Before(opts, f, l, 0).link.records, x) <==> HasLoose(l.records, x)
    ensures !FileStrays(opts, f, l, 0, x)
  {
    if NamesFile(opts, f) {
      OneMoreLoose(l.records, Start(opts, f, l).link.records, x);
    }
  }

  // ----- the whole link

  lemma WriteOtherLoose(opts: Options, l: Link, e: nat, x: Name)
    requires LinksOk(l.table) && e < |l.table|
    ensures HasLoose(WriteOther(opts, l, e).records, x) <==> HasLoose(l.records, x)
  {
    var d, m := if l.table[e].kind.Warning? then l.table[e].kind.link else e, WriteOther(opts, l, e);
    if m.records != l.records {
      GlobalVisible(l.table, d);
      OneMoreLoose(l.records, m.records, x);
    }
  }

  lemma ForceLoose(opts: Options, l: Link, e: nat, x: Name)
    requires LinksOk(l.table) && e < |l.table|
    ensures HasLoose(Force(opts, l, e).records, x) <==> HasLoose(l.records, x)
  {
    hide HasLoose, WriteOther;
    var table := l.table[e := l.table[e].(indx := -2, written := false)];
    LinksStay(l.table, table);
    WriteOtherLoose(opts, l.(table := table), e, x);
  }

  lemma {:induction false} ForceSymbolsLoose(opts: Options, f: File, s: Pass, l: Link, wanted: seq<nat>, x: Name)
    requires Inv(l) && PassOk(f, s) && SameKinds(s.link.table, l.table)
    ensures HasLoose(ForceSymbols(opts, f, s, l, wanted).records, x) <==> HasLoose(l.records, x)
    decreases |wanted|
  {
    hide HasLoose, Force, Inv;
    if wanted != [] {
      var rest, i := wanted[..|wanted| - 1], wanted[|wanted| - 1];
      ForceSymbolsLoose(opts, f, s, l, rest, x);
      if i < |s.map_| && s.hashes[i].Some? {
        InvLinks(ForceSymbols(opts, f, s, l, rest));
        ForceLoose(opts, ForceSymbols(opts, f, s, l, rest), s.hashes[i].value, x);
      }
    }
  }

  predicate ActStrays(opts: Options, l: Link, a: Action, x: Name)
    requires Inv(l) && ActionOk(l.table, a)
  {
    a.LinkFile? && FileStrays(opts, a.f, l, |a.f.syms|, x)
  }

  lemma ActLoose(opts: Options, l: Link, a: Action, x: Name)
    requires Inv(l) && ActionOk(l.table, a)
    ensures HasLoose(Act(opts, l, a).records, x) <==> HasLoose(l.records, x) || ActStrays(opts, l, a, x)
  {
    hide HasLoose, FileStrays, ForceSymbols, WriteOther, Force;
    match a
    case LinkFile(f, wanted) =>
      BeforeLoose(opts, f, l, |f.syms|, x);
      var s := WriteSymbols(opts, f, l);
      assert s == Before(opts, f, l, |f.syms|);
      ForceSymbolsLoose(opts, f, s, s.link, wanted, x);
    case WriteOne(e) =>
      WriteOtherLoose(opts, l, e, x);
    case Need(e) =>
      ForceLoose(opts, l, e, x);
  }

  predicate StraysAt(opts: Options, l: Link, actions: seq<Action>, k: nat, x: Name)
    requires Good(opts, l) && ActionsOk(l.table, actions) && k < |actions|
  {
    ActionStays(l.table, Run(opts, l, actions, k).table, actions[k]);
    ActStrays(opts, Run(opts, l, actions, k), actions[k], x)
  }

  predicate RunStrays(opts: Options, l: Link, actions: seq<Action>, n: nat, x: Name)
    requires Good(opts, l) && ActionsOk(l.table, actions) && n <= |actions|
  {
    exists k :: 0 <= k < n && StraysAt(opts, l, actions, k, x)
  }

  lemma OneMoreStraysAt(opts: Options, l: Link, actions: seq<Action>, n: nat, x: Name)
    requires Good(opts, l) && ActionsOk(l.table, actions) && n < |actions|
    ensures RunStrays(opts, l, actions, n + 1, x)
            <==> RunStrays(opts, l, actions, n, x) || StraysAt(opts, l, actions, n, x)
  {
    hide StraysAt;
  }

  lemma {:induction false} RunLoose(opts: Options, l: Link, actions: seq<Action>, n: nat, x: Name)
    requires Good(opts, l) && ActionsOk(l.table, actions) && n <= |actions|
    ensures HasLoose(Run(opts, l, actions, n).records, x)
            <==> HasLoose(l.records, x) || RunStrays(opts, l, actions, n, x)
  {
    hide HasLoose, Act, ActStrays, RunStrays;
    if n > 0 {
      RunLoose(opts, l, actions, n - 1, x);
      var before := Run(opts, l, actions, n - 1);
      ActionStays(l.table, before.table, actions[n - 1]);
      ActLoose(opts, before, actions[n - 1], x);
      OneMoreStraysAt(opts, l, actions, n - 1, x);
    } else {
      assert !RunStrays(opts, l, actions, 0, x) by {
        NoneYet(opts, l, actions, x);
      }
    }
  }

  lemma NoneYet(opts: Options, l: Link, actions: seq<Action>, x: Name)
    requires Good(opts, l) && ActionsOk(l.table, actions)
    ensures !RunStrays(opts, l, actions, 0, x)
  {
  }

  lemma {:induction false} TraverseLoose(opts: Options, l: Link, n: nat, x: Name)
    requires Good(opts, l) && n <= |l.table|
    ensures HasLoose(Traverse(opts, l, n).records, x) <==> HasLoose(l.records, x)
  {
    hide HasLoose, WriteOther;
    if n > 0 {
      TraverseLoose(opts, l, n - 1, x);
      WriteOtherLoose(opts, Traverse(opts, l, n - 1), n - 1, x);
    }
  }

  // ----- one record for each name

  /** Entries have different names, and no set symbols or warnings are about. */
  predicate PlainLink(table: seq<Entry>, actions: seq<Action>) {
    && (forall d, e :: 0 <= d < |table| && 0 <= e < |table| && table[d].name == table[e].name ==> d == e)
    && (forall e :: 0 <= e < |table| ==> PlainEntry(table, actions, e))
  }

  predicate PlainEntry(table: seq<Entry>, actions: seq<Action>, e: nat)
    requires e < |table|
  {
    !table[e].kind.Warning? && forall k :: 0 <= k < |actions| ==> PlainAction(actions[k], e)
  }

  lemma PlainEndNamed(opts: Options, table: seq<Entry>, actions: seq<Action>, e: nat)
    requires Fresh(table) && ActionsOk(table, actions) && e < |table| && PlainEntry(table, actions, e)
    ensures Named(End(opts, table, actions), e)
  {
    hide PlainAction, End;
    EndNamed(opts, table, actions, e);
  }

  lemma EndLoose(opts: Options, table: seq<Entry>, actions: seq<Action>, x: Name)
    requires Fresh(table) && ActionsOk(table, actions)
    ensures Good(opts, Begin(table))
    ensures HasLoose(End(opts, table, actions).records, x) <==> RunStrays(opts, Begin(table), actions, |actions|, x)
  {
    hide Inv, RunStrays;
    FreshInv(opts, table);
    RunLoose(opts, Begin(table), actions, |actions|, x);
    TraverseLoose(opts, Run(opts, Begin(table), actions, |actions|), |table|, x);
  }

  /** A record found under the name of an entry is the entry's, or loose. */
  lemma ByNameOwner(opts: Options, table: seq<Entry>, actions: seq<Action>, e: nat, k: nat)
    requires Fresh(table) && ActionsOk(table, actions) && PlainLink(table, actions) && e < |table|
    requires k < |End(opts, table, actions).records| && ByName(End(opts, table, actions).records[k], table[e].name)
    ensures var end := End(opts, table, actions);
            Loose(end.records[k], table[e].name) || (end.records[k].owner == Some(e) && end.table[e].indx == k)
  {
    hide PlainEntry, End;
    var end := End(opts, table, actions);
    assert RecordOk(end, k);
    if end.records[k].owner.Some? {
      var d := end.records[k].owner.value;
      PlainEndNamed(opts, table, actions, d);
      assert ByName(end.records[k], end.table[d].name);
      assert end.table[d].name == table[d].name;
    }
  }

  /** By name: every record that will be found under the name of a global symbol is that
      symbol's own, and there is at most one, if and only if no symbol of that name was
      passed through or copied without a hash entry.  If one was, and the symbol has a
      record of its own, there are two. */
  lemma OneRecordPerName(opts: Options, table: seq<Entry>, actions: seq<Action>, e: nat)
    requires Fresh(table) && ActionsOk(table, actions) && PlainLink(table, actions) && e < |table|
    ensures Good(opts, Begin(table))
    ensures var end, x := End(opts, table, actions), table[e].name;
            (forall k :: 0 <= k < |end.records| && ByName(end.records[k], x) ==>
             end.records[k].owner == Some(e) && end.table[e].indx == k)
            <==> !RunStrays(opts, Begin(table), actions, |actions|, x)
    ensures var end, x := End(opts, table, actions), table[e].name;
            RunStrays(opts, Begin(table), actions, |actions|, x) && end.table[e].indx >= 0 ==>
              exists k :: 0 <= k < |end.records| && k != end.table[e].indx < |end.records|
                && ByName(end.records[k], x) && ByName(end.records[end.table[e].indx], x)
  {
    hide PlainEntry, RunStrays, End, ByName;
    FreshInv(opts, table);
    var end, x := End(opts, table, actions), table[e].name;
    EndLoose(opts, table, actions, x);
    forall k | 0 <= k < |end.records| && ByName(end.records[k], x)
      ensures Loose(end.records[k], x) || (end.records[k].owner == Some(e) && end.table[e].indx == k)
    {
      ByNameOwner(opts, table, actions, e, k);
    }
    if HasLoose(end.records, x) && end.table[e].indx >= 0 {
      var k :| 0 <= k < |end.records| && Loose(end.records[k], x);
      assert EntryOk(end, e);
      PlainEndNamed(opts, table, actions, e);
    }
  }

  /** A symbol right behind the debug symbol that names the main program is an example:
      that debug symbol looks like an indirect one. */
  lemma BehindMain(opts: Options, f: File, l: Link, x: Name)
    requires FileOk(f, l.table) && Inv(l) && |f.syms| >= 2 && opts.strip == StripNone && opts.discard == DiscardNone
    requires f.syms[0].etype == N_MAIN && f.hashes[0].None? && f.syms[1].name == x && Visible(f.syms[1].etype)
    ensures FileStrays(opts, f, l, |f.syms|, x)
  {
    hide Visible;
    BeforeNext(opts, f, l, 0);
    assert Strays(opts, f, Before(opts, f, l, 1), 1, x);
  }
}
