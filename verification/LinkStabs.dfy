/** What the number that tells header files of one name apart is made of, and when two of
    them are taken for the same. */
module LinkStabs {
  import opened Bytes
  import opened LinkSymbols
  import opened LinkRecords
  import opened LinkIncludes
  import opened LinkHeaders
  import opened LinkOnce

  // ----- one stab

  /** Its characters, those from 128 on counted as negative. */
  function CharSum(s: Name): int {
    if s == [] then 0 else CharSum(s[1..]) + s[0] - if s[0] < 128 then 0 else 256
  }

  /** A stab without the digits that follow an opening parenthesis; `numbered` says that the
      stab so far ends in one, with digits at most behind it. */
  function WithoutNumbers(s: Name, numbered: bool): Name {
    if s == [] then []
    else if numbered && 48 <= s[0] <= 57 then WithoutNumbers(s[1..], true)
    else [s[0]] + WithoutNumbers(s[1..], s[0] == 40)
  }

  lemma {:induction false} PastNumber(s: Name, i: nat)
    requires i <= |s|
    ensures WithoutNumbers(s[i..], true) == WithoutNumbers(s[PastDigits(s, i)..], false)
    decreases |s| - i
  {
    if i < |s| {
      assert s[i..][0] == s[i] && s[i..][1..] == s[i + 1..];
      if 48 <= s[i] <= 57 {
        PastNumber(s, i + 1);
      }
    }
  }

  /** The sum of a stab is that of its characters, but for the numbers of files. */
  lemma {:induction false} StabSumIs(s: Name, i: nat)
    requires i <= |s|
    ensures StabSum(s, i) == CharSum(WithoutNumbers(s[i..], false))
    decreases |s| - i
  {
    if i < |s| {
      assert s[i..][0] == s[i] && s[i..][1..] == s[i + 1..];
      var rest := WithoutNumbers(s[i + 1..], s[i] == 40);
      assert ([s[i]] + rest)[0] == s[i] && ([s[i]] + rest)[1..] == rest;
      if s[i] == 40 {
        PastNumber(s, i + 1);
        StabSumIs(s, PastDigits(s, i + 1));
      } else {
        StabSumIs(s, i + 1);
      }
    }
  }

  /** Without a parenthesis nothing is left out. */
  lemma {:induction false} NothingLeftOut(s: Name)
    requires 40 !in s
    ensures WithoutNumbers(s, false) == s
  {
    if s != [] {
      NothingLeftOut(s[1..]);
      assert s == [s[0]] + s[1..];
    }
  }

  /** One character more or less makes a difference. */
  lemma {:induction false} CharSumUpdate(s: Name, k: nat, c: byte)
    requires k < |s| && c != s[k]
    ensures CharSum(s[k := c]) != CharSum(s)
  {
    assert s[k := c][1..] == if k == 0 then s[1..] else s[1..][k - 1 := c];
    if k > 0 {
      CharSumUpdate(s[1..], k - 1, c);
    }
  }

  // ----- a header file

  /** The sum over all these stabs. */
  function StabTotal(syms: seq<Sym>): int {
    if syms == [] then 0 else CharSum(WithoutNumbers(syms[0].name, false)) + StabTotal(syms[1..])
  }

  /** The symbols that are not in a nested header file. */
  function Own(t: Forest): seq<Sym> {
    match t
    case Nil => []
    case Leaf(sym, rest) => [sym] + Own(rest)
    case Header(_, _, _, rest) => Own(rest)
  }

  lemma {:induction false} SumIs(t: Forest)
    ensures Sum(t) == StabTotal(Own(t))
  {
    match t
    case Nil =>
    case Leaf(sym, rest) =>
      StabSumIs(sym.name, 0);
      assert sym.name[0..] == sym.name && ([sym] + Own(rest))[1..] == Own(rest);
      SumIs(rest);
    case Header(_, _, _, rest) =>
      SumIs(rest);
  }

  /** The scan for the sum of a header file adds up what stands directly in it. */
  lemma TotalIs(syms: seq<Sym>, i: nat, t: Forest)
    requires Nested(t) && StandsAt(syms, i, t) && i + |Flatten(t)| < |syms|
    requires syms[i + |Flatten(t)|].etype == 0xa2
    ensures Total(syms, i, 0) == StabTotal(Own(t))
  {
    TotalPasses(syms, i, t, 0, i + |Flatten(t)|);
    TotalEnds(syms, i + |Flatten(t)|, 0);
    SumIs(t);
  }

  // ----- two files that begin the same header file

  /** A file with this header file, in which nothing is nested. */
  predicate OneHeader(opts: Options, f: File, h: Name) {
    && Plain(opts, f) && |f.syms| >= 2
    && f.syms[0].etype == 0x82 && f.syms[0].name == h && f.syms[|f.syms| - 1].etype == 0xa2
    && (forall j :: 0 < j < |f.syms| - 1 ==> f.syms[j].etype != 0x82 && f.syms[j].etype != 0xa2)
    && (forall j :: 0 <= j < |f.hashes| ==> f.hashes[j].None?)
  }

  function Stabs(f: File): seq<Sym>
    requires |f.syms| >= 2
  {
    f.syms[1..|f.syms| - 1]
  }

  function Leaves(syms: seq<Sym>): Forest {
    if syms == [] then Nil else Leaf(syms[0], Leaves(syms[1..]))
  }

  lemma {:induction false} LeavesAre(syms: seq<Sym>, duplicate: bool, includes: seq<(Name, int)>)
    requires forall j :: 0 <= j < |syms| ==> !IsBracket(syms[j].etype)
    ensures var t := Leaves(syms);
            && Nested(t) && Flatten(t) == syms && Own(t) == syms && After(t, includes) == includes
            && |Fates(t, duplicate, includes)| == |syms|
            && forall j :: 0 <= j < |syms| ==> Fates(t, duplicate, includes)[j] == if duplicate then Dropped else Kept
  {
    if syms != [] {
      LeavesAre(syms[1..], duplicate, includes);
      assert syms == [syms[0]] + syms[1..];
    }
  }

  function OneForest(f: File): Forest
    requires |f.syms| >= 2
  {
    Header(f.syms[0], Leaves(Stabs(f)), f.syms[|f.syms| - 1], Nil)
  }

  lemma OneForestIs(opts: Options, f: File, h: Name, includes: seq<(Name, int)>)
    requires OneHeader(opts, f, h)
    ensures var t, key := OneForest(f), (h, StabTotal(Stabs(f)));
            && Nested(t) && Flatten(t) == f.syms && Apart(f)
            && After(t, includes) == (if key in includes then includes else includes + [key])
            && |Fates(t, false, includes)| == |f.syms|
            && forall j :: 0 <= j < |f.syms| ==>
                 Fates(t, false, includes)[j]
                 == if j == 0 then (if key in includes then Excluded else Opened)
                    else if j == |f.syms| - 1 then (if key in includes then Dropped else Closed)
                    else (if key in includes then Dropped else Kept)
  {
    var inner, key := Stabs(f), (h, StabTotal(Stabs(f)));
    var seen := key in includes;
    var now := if seen then includes else includes + [key];
    LeavesAre(inner, seen, now);
    SumIs(Leaves(inner));
    assert f.syms == [f.syms[0]] + inner + [f.syms[|f.syms| - 1]];
    assert Seen(includes, f.syms[0], Leaves(inner)) == seen;
  }

  lemma {:induction false} FatesAt(opts: Options, f: File, s: Pass, i: nat, fates: seq<Fate>, k: nat)
    requires |f.syms| == |f.hashes| == |s.map_| && FatesOk(opts, f, s, i, fates) && k < |fates|
    ensures i + k < |f.syms| && FateOk(opts, f, s, i + k, fates[k])
    decreases k
  {
    if k > 0 {
      FatesAt(opts, f, s, i + 1, fates[1..], k - 1);
    }
  }

  /** What becomes of the header file depends on whether one of its name and its sum has been
      seen: then it becomes a reference and everything else is dropped; if not, it is kept. */
  predicate HeaderFate(opts: Options, f: File, s: Pass, seen: bool)
    requires |f.syms| == |f.hashes| == |s.map_| && |f.syms| >= 2
  {
    && HasRecord(s, 0, if seen then 0xc2 else 0x82)
    && forall j :: 0 < j < |f.syms| ==>
         if seen then s.map_[j] == -1
         else j == |f.syms| - 1 || !DiscardsLocal(opts, f.syms[j].etype, f.syms[j].name) ==>
                HasRecord(s, j, f.syms[j].etype)
  }

  lemma HeaderDone(opts: Options, f: File, s: Pass, h: Name, includes: seq<(Name, int)>)
    requires OneHeader(opts, f, h) && |f.syms| == |f.hashes| == |s.map_|
    requires FatesOk(opts, f, s, 0, Fates(OneForest(f), false, includes))
    ensures HeaderFate(opts, f, s, (h, StabTotal(Stabs(f))) in includes)
  {
    var fates := Fates(OneForest(f), false, includes);
    OneForestIs(opts, f, h, includes);
    hide FatesOk, Fates, DiscardsLocal, OneForest, Stabs;
    var seen := (h, StabTotal(Stabs(f))) in includes;
    FatesAt(opts, f, s, 0, fates, 0);
    forall j | 0 < j < |f.syms|
      ensures if seen then s.map_[j] == -1
              else j == |f.syms| - 1 || !DiscardsLocal(opts, f.syms[j].etype, f.syms[j].name) ==>
                     HasRecord(s, j, f.syms[j].etype)
    {
      FatesAt(opts, f, s, 0, fates, j);
      assert f.hashes[j].None? && f.hashes[j - 1].None?;
    }
  }

  lemma OneHeaderDone(opts: Options, f: File, l: Link, h: Name)
    requires OneHeader(opts, f, h) && FileOk(f, l.table) && Inv(l)
    ensures var s, key := WriteSymbols(opts, f, l), (h, StabTotal(Stabs(f)));
            && s.link.includes == (if key in l.includes then l.includes else l.includes + [key])
            && |s.map_| == |f.syms| && HeaderFate(opts, f, s, key in l.includes)
  {
    hide NonePassed, Start, Inv, WriteSymbols, PassInv, PassOk, After, Fates, Alert, FatesOk, BracketTypes, Apart;
    OneForestIs(opts, f, h, l.includes);
    ApartIsClean(opts, f, l);
    StartKeepsIncludes(opts, f, l);
    var s, s', x := AllSymbols(opts, f, l, OneForest(f));
    HeaderDone(opts, f, s', h, l.includes);
  }

  lemma StartKeepsIncludes(opts: Options, f: File, l: Link)
    requires FileOk(f, l.table)
    ensures Start(opts, f, l).link.includes == l.includes
  {
  }

  /** Two files with a header file of the same name: the second is taken for the first if and
      only if their sums are equal.  If they are not, both begin in the output. */
  lemma SameHeaderIff(opts: Options, table: seq<Entry>, f: File, g: File, h: Name)
    requires Fresh(table) && FileOk(f, table) && FileOk(g, table) && OneHeader(opts, f, h) && OneHeader(opts, g, h)
    ensures var actions, x, y := [LinkFile(f, []), LinkFile(g, [])], StabTotal(Stabs(f)), StabTotal(Stabs(g));
            && Good(opts, Begin(table)) && ActionsOk(table, actions)
            && ActionOk(Run(opts, Begin(table), actions, 1).table, actions[1])
            && Openers(Run(opts, Begin(table), actions, 2).records)
               == [(h, x % 0x1_0000_0000)] + (if x == y then [] else [(h, y % 0x1_0000_0000)])
            && var s := WriteSymbols(opts, g, Run(opts, Begin(table), actions, 1));
               |s.map_| == |g.syms| && HeaderFate(opts, g, s, x == y)
  {
    hide Inv, WriteSymbols, OneHeader, HeaderFate, Openers, Plain, Stabs, StabTotal, Settled;
    var actions := [LinkFile(f, []), LinkFile(g, [])];
    FreshInv(opts, table);
    var l := Begin(table);
    OneAction(opts, l, f, h);
    var l1 := Run(opts, l, actions, 1);
    assert Run(opts, l, actions, 0) == l;
    assert l1 == Act(opts, l, actions[0]);
    ActionStays(table, l1.table, actions[1]);
    OneAction(opts, l1, g, h);
    var l2 := Run(opts, l, actions, 2);
    assert l2 == Act(opts, l1, actions[1]);
    OnlyHeaders(opts, f, h);
    OnlyHeaders(opts, g, h);
    EachHeaderOnce(opts, table, actions);
    assert Openers(l2.records) == Shown(l2.includes);
  }

  lemma OnlyHeaders(opts: Options, f: File, h: Name)
    requires OneHeader(opts, f, h)
    ensures Plain(opts, f) && Apart(f)
  {
  }

  lemma OneAction(opts: Options, l: Link, f: File, h: Name)
    requires OneHeader(opts, f, h) && FileOk(f, l.table) && Inv(l)
    ensures var m, s, key := Act(opts, l, LinkFile(f, [])), WriteSymbols(opts, f, l), (h, StabTotal(Stabs(f)));
            && m == s.link && m.includes == (if key in l.includes then l.includes else l.includes + [key])
            && |s.map_| == |f.syms| && HeaderFate(opts, f, s, key in l.includes)
  {
    hide OneHeader, Inv, WriteSymbols, HeaderFate, Stabs, StabTotal;
    OneHeaderDone(opts, f, l, h);
  }

  /** So a header file with one stab that differs in one character, in neither a parenthesis
      nor a file's number, is kept beside the first. */
  lemma OtherCharacterKept(opts: Options, table: seq<Entry>, f: File, g: File, h: Name, stab: Name, k: nat, c: byte)
    requires Fresh(table) && FileOk(f, table) && FileOk(g, table) && OneHeader(opts, f, h) && OneHeader(opts, g, h)
    requires |f.syms| == |g.syms| == 3 && f.syms[1].name == stab && k < |stab| && g.syms[1].name == stab[k := c]
    requires 40 !in stab && c != 40 && c != stab[k]
    ensures var actions := [LinkFile(f, []), LinkFile(g, [])];
            && Good(opts, Begin(table)) && ActionsOk(table, actions)
            && Openers(Run(opts, Begin(table), actions, 2).records)
               == [(h, CharSum(stab) % 0x1_0000_0000), (h, CharSum(stab[k := c]) % 0x1_0000_0000)]
  {
    hide Openers, FileOk, OneHeader, HeaderFate, Run, CharSum;
    SameHeaderIff(opts, table, f, g, h);
    NothingLeftOut(stab);
    NothingLeftOut(stab[k := c]);
    CharSumUpdate(stab, k, c);
    OneStab(f);
    OneStab(g);
  }

  lemma OneStab(f: File)
    requires |f.syms| == 3
    ensures StabTotal(Stabs(f)) == CharSum(WithoutNumbers(f.syms[1].name, false))
  {
    assert Stabs(f) == [f.syms[1]] && [f.syms[1]][1..] == [];
  }
}
