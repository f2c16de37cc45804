/** Balanced input files leave balanced output, passed through or not. */
module LinkBalance {
  import opened Bytes
  import opened Wrappers
  import opened LinkSymbols
  import opened LinkRecords
  import opened LinkIncludes
  import opened LinkHeaders

  /** The loop has come from symbol i to symbol n and added these brackets. */
  predicate Adds(f: File, s: Pass, s': Pass, i: nat, n: nat, added: seq<bv8>)
    requires |f.syms| == |f.hashes| == |s.map_|
  {
    && Alert(f, s', n) && |s'.map_| == |s.map_|
    && BracketTypes(s'.link.records) == BracketTypes(s.link.records) + added && Balanced(added, 0)
    && SameOutside(s.map_, s'.map_, i, n)
  }

  lemma AddsOn(f: File, s: Pass, s1: Pass, s2: Pass, i: nat, m: nat, n: nat, a: seq<bv8>, b: seq<bv8>)
    requires |f.syms| == |f.hashes| == |s.map_| == |s1.map_| && i <= m <= n
    requires Adds(f, s, s1, i, m, a) && Adds(f, s1, s2, m, n, b)
    ensures Adds(f, s, s2, i, n, a + b)
  {
    BalancedJoin(a, b, 0, 0);
    SameJoin(s.map_, s1.map_, s2.map_, i, m, m, n, i, n);
    Regroup(BracketTypes(s.link.records), a, b);
  }

  /** The beginning of a header file has been passed; its body and its end are marked exactly
      if it was not copied. */
  predicate Opened(f: File, s: Pass, s1: Pass, i: nat, t: Forest, e: nat, open: bool)
    requires t.Header? && i < e < |f.syms| == |f.hashes| == |s.map_|
  {
    && Ready(s1) && |s1.map_| == |s.map_|
    && BracketTypes(s1.link.records) == BracketTypes(s.link.records) + (if open then [N_BINCL] else [])
    && MarkedAs(s1.map_, i + 1, t.inner, !open) && s1.map_[e] == (if open then 0 else -1)
    && SameOutside(s.map_, s1.map_, i, e + 1)
  }

  /** One that is passed through is copied. */
  lemma PassedOpens(opts: Options, f: File, s: Pass, i: nat, t: Forest, duplicate: bool, e: nat)
    requires Plain(opts, f) && Going(f, s, i) && Alert(f, s, i) && t.Header? && StandsAt(f.syms, i, t)
    requires MarkedAs(s.map_, i, t, duplicate) && e == i + 1 + |Flatten(t.inner)| && i < e < |f.syms|
    requires PassesHeader(f, s, i)
    ensures Opened(f, s, Step(opts, f, s, i), i, t, e, true)
  {
    var sym, s1 := f.syms[i], Step(opts, f, s, i);
    HeaderMarked(s.map_, i, t, duplicate, e);
    OneMoreType(s.link.records, Record(sym.name, sym.etype, sym.other, sym.desc, sym.value % WORD, None));
    NewMarks(s.map_, i, t, e, |s.link.records|);
    assert s1.map_ == s.map_[i := |s.link.records|];
  }

  lemma Begins(opts: Options, f: File, s: Pass, i: nat, t: Forest, duplicate: bool, e: nat) returns (open: bool)
    requires Plain(opts, f) && Going(f, s, i) && Alert(f, s, i) && Nested(t) && t.Header? && StandsAt(f.syms, i, t)
    requires MarkedAs(s.map_, i, t, duplicate) && e == i + 1 + |Flatten(t.inner)|
    ensures i < e < |f.syms| && Opened(f, s, Step(opts, f, s, i), i, t, e, open)
  {
    HeaderParts(f.syms, i, t, e);
    HeaderMarked(s.map_, i, t, duplicate, e);
    ReadyAtHeader(opts, f, s, i);
    hide Plain, PassOk, Step, MarkedAs, StandsAt, FateOk;
    if PassesHeader(f, s, i) {
      PassedOpens(opts, f, s, i, t, duplicate, e);
      open := true;
    } else {
      BeginStep(opts, f, s, i, t, duplicate, e);
      open := !Seen(s.link.includes, t.begin, t.inner);
    }
  }

  lemma Closes(f: File, s: Pass, s1: Pass, s2: Pass, s3: Pass, opts: Options, i: nat, t: Forest, e: nat, open: bool,
               inner: seq<bv8>)
      returns (added: seq<bv8>)
    requires |f.syms| == |f.hashes| == |s.map_| == |s1.map_| == |s2.map_| && t.Header? && i < e < |f.syms|
    requires Opened(f, s, s1, i, t, e, open) && Adds(f, s1, s2, i + 1, e, inner) && Ended(opts, f, s2, s3, e, !open)
    ensures Adds(f, s, s3, i, e + 1, added)
  {
    var first, last: seq<bv8> := if open then [N_BINCL] else [], if open then [N_EINCL] else [];
    added := first + inner + last;
    AppendThree(BracketTypes(s.link.records), first, inner, last);
    HeaderSame(s.map_, s1.map_, s2.map_, s3.map_, i, e);
    if open {
      BalancedClosed(inner);
    } else {
      assert added == inner;
    }
  }

  /** Over a forest of symbols, whatever is passed through. */
  lemma {:induction false} BalanceForest(opts: Options, f: File, s: Pass, i: nat, t: Forest, duplicate: bool, n: nat)
      returns (s': Pass, added: seq<bv8>)
    requires Plain(opts, f) && Going(f, s, i) && Alert(f, s, i) && (duplicate ==> Ready(s)) && Nested(t)
    requires StandsAt(f.syms, i, t) && n == i + |Flatten(t)| && n <= |f.syms| && MarkedAs(s.map_, i, t, duplicate)
    ensures s' == Fold(opts, f, s, i, n) && Adds(f, s, s', i, n, added) && (duplicate ==> Ready(s'))
    decreases t, 2
  {
    if t.Nil? {
      s', added := s, [];
    } else {
      hide Plain, PassOk, Step, Fold, Alert, Adds, MarkedAs, StandsAt;
      var s1, m, a := BalanceFirst(opts, f, s, i, t, duplicate, n);
      var b;
      s', b := BalanceForest(opts, f, s1, m, t.rest, duplicate, n);
      AddsOn(f, s, s1, s', i, m, n, a, b);
      added := a + b;
    }
  }

  lemma {:induction false} BalanceFirst(opts: Options, f: File, s: Pass, i: nat, t: Forest, duplicate: bool, n: nat)
      returns (s1: Pass, m: nat, added: seq<bv8>)
    requires Plain(opts, f) && Going(f, s, i) && Alert(f, s, i) && (duplicate ==> Ready(s)) && Nested(t) && !t.Nil?
    requires StandsAt(f.syms, i, t) && n == i + |Flatten(t)| && n <= |f.syms| && MarkedAs(s.map_, i, t, duplicate)
    ensures i < m <= n && StandsAt(f.syms, m, t.rest) && n == m + |Flatten(t.rest)| && Nested(t.rest)
    ensures |s1.map_| == |s.map_| && Adds(f, s, s1, i, m, added) && Alert(f, s1, m)
    ensures MarkedAs(s1.map_, m, t.rest, duplicate)
    ensures (duplicate ==> Ready(s1)) && Going(f, s1, m) && Fold(opts, f, s1, m, n) == Fold(opts, f, s, i, n)
    decreases t, 1
  {
    hide Plain, PassOk, Step, Fold, Alert, MarkedAs, StandsAt, SameOutside, BracketTypes, Balanced;
    if t.Leaf? {
      m, added := i + 1, [];
      s1 := BalanceLeaf(opts, f, s, i, t, duplicate, n);
    } else {
      m := i + 1 + |Flatten(t.inner)| + 1;
      s1, added := BalanceHeader(opts, f, s, i, t, duplicate, i + 1 + |Flatten(t.inner)|, n);
    }
  }

  lemma {:induction false} BalanceLeaf(opts: Options, f: File, s: Pass, i: nat, t: Forest, duplicate: bool, n: nat)
      returns (s1: Pass)
    requires Plain(opts, f) && Going(f, s, i) && Alert(f, s, i) && (duplicate ==> Ready(s)) && Nested(t) && t.Leaf?
    requires StandsAt(f.syms, i, t) && n == i + |Flatten(t)| && n <= |f.syms| && MarkedAs(s.map_, i, t, duplicate)
    ensures i < n && StandsAt(f.syms, i + 1, t.rest) && n == i + 1 + |Flatten(t.rest)|
    ensures |s1.map_| == |s.map_| && Adds(f, s, s1, i, i + 1, []) && MarkedAs(s1.map_, i + 1, t.rest, duplicate)
    ensures (duplicate ==> Ready(s1))
    ensures Going(f, s1, i + 1) && Fold(opts, f, s1, i + 1, n) == Fold(opts, f, s, i, n)
  {
    hide Marks, Plain, PassOk;
    LeafParts(f.syms, i, t);
    LeafMarked(s.map_, i, t, duplicate);
    s1 := Step(opts, f, s, i);
    StepGoes(opts, f, s, i);
    LeafStep(opts, f, s, i, duplicate);
    HasStays(s.map_, s1.map_, i, i + 1, i + 1, Marks(t.rest, duplicate));
  }

  lemma {:induction false} BalanceHeader(opts: Options, f: File, s: Pass, i: nat, t: Forest, duplicate: bool, e: nat,
                                         n: nat)
      returns (s3: Pass, added: seq<bv8>)
    requires Plain(opts, f) && Going(f, s, i) && Alert(f, s, i) && Nested(t) && t.Header?
    requires e == i + 1 + |Flatten(t.inner)|
    requires StandsAt(f.syms, i, t) && MarkedAs(s.map_, i, t, duplicate) && n == i + |Flatten(t)| && n <= |f.syms|
    ensures e < n && StandsAt(f.syms, e + 1, t.rest) && n == e + 1 + |Flatten(t.rest)|
    ensures |s3.map_| == |s.map_| && Adds(f, s, s3, i, e + 1, added) && MarkedAs(s3.map_, e + 1, t.rest, duplicate)
    ensures Ready(s3)
    ensures Going(f, s3, e + 1) && Fold(opts, f, s3, e + 1, n) == Fold(opts, f, s, i, n)
    decreases t, 0
  {
    HeaderParts(f.syms, i, t, e);
    var s1, open := Step(opts, f, s, i), true;
    open := Begins(opts, f, s, i, t, duplicate, e);
    StepGoes(opts, f, s, i);
    hide Marks, Plain, PassOk, Step, Alert, StandsAt, MarkedAs;
    var s2, inner;
    s2, s3, inner := BalanceInner(opts, f, s1, i + 1, t.inner, open, e, n);
    added := Closes(f, s, s1, s2, s3, opts, i, t, e, open, inner);
    RestMarked(s.map_, s3.map_, i, t, duplicate, e);
  }

  lemma {:induction false} BalanceInner(opts: Options, f: File, s: Pass, i: nat, inner: Forest, open: bool, e: nat,
                                        n: nat)
      returns (s2: Pass, s3: Pass, added: seq<bv8>)
    requires Plain(opts, f) && Going(f, s, i) && Ready(s) && Nested(inner) && StandsAt(f.syms, i, inner)
    requires e == i + |Flatten(inner)|
    requires MarkedAs(s.map_, i, inner, !open) && e < n <= |f.syms| && f.syms[e].etype == N_EINCL
    requires s.map_[e] == if open then 0 else -1
    ensures |s2.map_| == |s.map_| && Adds(f, s, s2, i, e, added) && Ended(opts, f, s2, s3, e, !open)
    ensures Going(f, s3, e + 1) && Fold(opts, f, s3, e + 1, n) == Fold(opts, f, s, i, n)
    decreases inner, 3
  {
    s2, added := BalanceForest(opts, f, s, i, inner, !open, e);
    SameAt(s.map_, s2.map_, i, e, e);
    StepGoes(opts, f, s2, e);
    EndStep(opts, f, s2, e, !open);
    s3 := Step(opts, f, s2, e);
    FoldJoin(opts, f, s, i, e, n);
  }

  // ----- files and links

  lemma {:induction false} FileBalanced(opts: Options, f: File, l: Link)
    requires Plain(opts, f) && FileOk(f, l.table) && Inv(l) && Balanced(Types(f.syms), 0)
    requires Balanced(BracketTypes(l.records), 0)
    ensures Balanced(BracketTypes(WriteSymbols(opts, f, l).link.records), 0)
  {
    var t, n := ForestOf(f.syms, 0);
    assert f.syms[..n] == f.syms;
    var s := Start(opts, f, l);
    StartGoes(opts, f, l, t);
    StartBrackets(opts, f, l);
    hide Plain, PassOk, Step, Start, Alert, StandsAt, MarkedAs, Inv;
    var s', added := BalanceForest(opts, f, s, 0, t, false, |f.syms|);
    BalancedSum(BracketTypes(l.records), added, BracketTypes(s'.link.records));
  }

  lemma StartBrackets(opts: Options, f: File, l: Link)
    requires FileOk(f, l.table)
    ensures BracketTypes(Start(opts, f, l).link.records) == BracketTypes(l.records)
  {
    OneMoreType(l.records, FileRecord(f));
  }

  lemma {:induction false} BalancedSum(a: seq<bv8>, b: seq<bv8>, c: seq<bv8>)
    requires Balanced(a, 0) && Balanced(b, 0) && c == a + b
    ensures Balanced(c, 0)
  {
    BalancedJoin(a, b, 0, 0);
  }

  lemma WriteGlobalBrackets(opts: Options, l: Link, e: nat)
    requires e < |l.table|
    ensures BracketTypes(WriteGlobal(opts, l, e).records) == BracketTypes(l.records)
  {
    if GlobalRecord(l.table, e).Some? {
      GlobalType(l.table, e);
      OneMoreType(l.records, GlobalRecord(l.table, e).value);
    }
  }

  lemma ForceBrackets(opts: Options, l: Link, e: nat)
    requires e < |l.table| && LinksOk(l.table)
    ensures BracketTypes(Force(opts, l, e).records) == BracketTypes(l.records)
  {
    hide WriteGlobal;
    var m := l.(table := l.table[e := l.table[e].(indx := -2, written := false)]);
    LinksStay(l.table, m.table);
    WriteGlobalBrackets(opts, m, if m.table[e].kind.Warning? then m.table[e].kind.link else e);
  }

  lemma {:induction false} ForceSymbolsBrackets(opts: Options, f: File, s: Pass, l: Link, wanted: seq<nat>)
    requires Inv(l) && PassOk(f, s) && SameKinds(s.link.table, l.table)
    ensures BracketTypes(ForceSymbols(opts, f, s, l, wanted).records) == BracketTypes(l.records)
    decreases |wanted|
  {
    hide Force;
    if wanted != [] {
      var rest, i := wanted[..|wanted| - 1], wanted[|wanted| - 1];
      ForceSymbolsBrackets(opts, f, s, l, rest);
      if i < |s.map_| && s.hashes[i].Some? {
        ForceBrackets(opts, ForceSymbols(opts, f, s, l, rest), s.hashes[i].value);
      }
    }
  }

  predicate BalancedFiles(opts: Options, actions: seq<Action>) {
    forall k :: 0 <= k < |actions| && actions[k].LinkFile? ==>
      Plain(opts, actions[k].f) && Balanced(Types(actions[k].f.syms), 0)
  }

  lemma ActBalanced(opts: Options, l: Link, a: Action)
    requires Inv(l) && ActionOk(l.table, a) && Balanced(BracketTypes(l.records), 0)
    requires a.LinkFile? ==> Plain(opts, a.f) && Balanced(Types(a.f.syms), 0)
    ensures Balanced(BracketTypes(Act(opts, l, a).records), 0)
  {
    hide Plain, Balanced, WriteGlobal, Force, ForceSymbols;
    match a
    case LinkFile(f, wanted) =>
      FileBalanced(opts, f, l);
      var s := WriteSymbols(opts, f, l);
      ForceSymbolsBrackets(opts, f, s, s.link, wanted);
    case WriteOne(e) =>
      WriteGlobalBrackets(opts, l, if l.table[e].kind.Warning? then l.table[e].kind.link else e);
    case Need(e) =>
      ForceBrackets(opts, l, e);
  }

  /** Balanced files leave the output of the whole link balanced. */
  lemma {:induction false} OutputBalanced(opts: Options, table: seq<Entry>, actions: seq<Action>, n: nat)
    requires Fresh(table) && ActionsOk(table, actions) && BalancedFiles(opts, actions) && n <= |actions|
    ensures Good(opts, Begin(table)) && Balanced(BracketTypes(Run(opts, Begin(table), actions, n).records), 0)
  {
    FreshInv(opts, table);
    if n > 0 {
      OutputBalanced(opts, table, actions, n - 1);
      hide Act, Plain, Balanced;
      var before := Run(opts, Begin(table), actions, n - 1);
      ActionStays(table, before.table, actions[n - 1]);
      ActBalanced(opts, before, actions[n - 1]);
    }
  }
}
