/** Header files that begin twice in the output of a link: exactly when. */
module LinkDuplicates {
  import opened Bytes
  import opened LinkSymbols
  import opened LinkRecords
  import opened LinkHeaders
  import opened LinkOnce

  /** The name of a header file, and a sum. */
  type Key = (Name, int)

  predicate NoTwice(s: seq<Key>) {
    forall j, k :: 0 <= j < k < |s| ==> s[j] != s[k]
  }

  lemma {:induction false} TwiceCounts(s: seq<Key>, j: nat, k: nat)
    requires j < k < |s| && s[j] == s[k]
    ensures multiset(s)[s[j]] >= 2
  {
    assert s == s[..k] + s[k..];
    assert s[..k][j] == s[j] && s[k..][0] == s[k];
    assert s[j] in s[..k] && s[j] in s[k..];
  }

  lemma {:induction false} CountsTwice(s: seq<Key>, x: Key)
    requires NoTwice(s)
    ensures multiset(s)[x] <= 1
  {
    if s != [] {
      var rest, last := s[..|s| - 1], s[|s| - 1];
      assert s == rest + [last];
      CountsTwice(rest, x);
      forall j | 0 <= j < |rest| ensures rest[j] != last {
        assert s[j] != s[|s| - 1];
      }
      assert last !in rest;
    }
  }

  /** It depends only on how often each occurs. */
  lemma SameMultiset(s: seq<Key>, t: seq<Key>)
    requires multiset(s) == multiset(t)
    ensures NoTwice(s) <==> NoTwice(t)
  {
    if NoTwice(s) {
      forall j, k | 0 <= j < k < |t| ensures t[j] != t[k] {
        CountsTwice(s, t[j]);
        if t[j] == t[k] {
          TwiceCounts(t, j, k);
        }
      }
    }
    if NoTwice(t) {
      forall j, k | 0 <= j < k < |s| ensures s[j] != s[k] {
        CountsTwice(t, s[j]);
        if s[j] == s[k] {
          TwiceCounts(s, j, k);
        }
      }
    }
  }

  predicate Apart(s: seq<Key>, t: seq<Key>) {
    forall j, k :: 0 <= j < |s| && 0 <= k < |t| ==> s[j] != t[k]
  }

  lemma TwiceInSum(s: seq<Key>, t: seq<Key>)
    ensures NoTwice(s + t) <==> NoTwice(s) && NoTwice(t) && Apart(s, t)
  {
    var u := s + t;
    assert forall j :: 0 <= j < |s| ==> u[j] == s[j];
    assert forall k :: 0 <= k < |t| ==> u[|s| + k] == t[k];
    if NoTwice(u) {
      forall j, k | 0 <= j < |s| && 0 <= k < |t| ensures s[j] != t[k] {
        assert u[j] != u[|s| + k];
      }
      forall j, k | 0 <= j < k < |t| ensures t[j] != t[k] {
        assert u[|s| + j] != u[|s| + k];
      }
    }
    if NoTwice(s) && NoTwice(t) && Apart(s, t) {
      forall j, k | 0 <= j < k < |u| ensures u[j] != u[k] {
        assert k >= |s| ==> u[k] == t[k - |s|];
        assert j >= |s| ==> u[j] == t[j - |s|];
      }
    }
  }

  // ----- what was passed through

  /** The header files that the first n symbols of a file begin without being looked at. */
  function FilePassed(opts: Options, f: File, l: Link, n: nat): seq<Key>
    requires FileOk(f, l.table) && Inv(l) && n <= |f.syms|
  {
    if n == 0 then [] else FilePassed(opts, f, l, n - 1) + PassedThrough(f, Before(opts, f, l, n - 1), n - 1)
  }

  lemma {:induction false} BeforeOwes(opts: Options, f: File, l: Link, n: nat)
    requires FileOk(f, l.table) && Inv(l) && n <= |f.syms|
    ensures Owes(l, Before(opts, f, l, n).link, FilePassed(opts, f, l, n))
  {
    hide Owes, Before, Step, PassedThrough;
    if n == 0 {
      StartOwes(opts, f, l);
    } else {
      var s := Before(opts, f, l, n - 1);
      BeforeOwes(opts, f, l, n - 1);
      BeforeNext(opts, f, l, n - 1);
      StepExcess(opts, f, s, n - 1);
      OwesTransitive(l, s.link, Step(opts, f, s, n - 1).link, FilePassed(opts, f, l, n - 1),
                     PassedThrough(f, s, n - 1));
    }
  }

  lemma StartOwes(opts: Options, f: File, l: Link)
    requires FileOk(f, l.table) && Inv(l)
    ensures Owes(l, Before(opts, f, l, 0).link, [])
  {
    hide Owes;
    StartKeeps(opts, f, l);
  }

  function ActPassed(opts: Options, l: Link, a: Action): seq<Key>
    requires Inv(l) && ActionOk(l.table, a)
  {
    if a.LinkFile? then FilePassed(opts, a.f, l, |a.f.syms|) else []
  }

  lemma ActOwes(opts: Options, l: Link, a: Action)
    requires Inv(l) && ActionOk(l.table, a)
    ensures Owes(l, Act(opts, l, a), ActPassed(opts, l, a))
  {
    hide Owes, FilePassed, ForceSymbols, WriteOther, Force;
    match a
    case LinkFile(f, wanted) =>
      BeforeOwes(opts, f, l, |f.syms|);
      var s, passed := WriteSymbols(opts, f, l), FilePassed(opts, f, l, |f.syms|);
      assert s == Before(opts, f, l, |f.syms|);
      ForceSymbolsKeeps(opts, f, s, s.link, wanted);
      OwesTransitive(l, s.link, Act(opts, l, a), passed, []);
      assert passed + [] == passed;
    case WriteOne(e) =>
      WriteOtherKeepsHeaders(opts, l, e);
    case Need(e) =>
      ForceKeeps(opts, l, e);
  }

  /** The header files that a link has passed through, with the values their symbols have. */
  function RunPassed(opts: Options, l: Link, actions: seq<Action>, n: nat): seq<Key>
    requires Good(opts, l) && ActionsOk(l.table, actions) && n <= |actions|
  {
    if n == 0 then []
    else
      var before := Run(opts, l, actions, n - 1);
      ActionStays(l.table, before.table, actions[n - 1]);
      RunPassed(opts, l, actions, n - 1) + ActPassed(opts, before, actions[n - 1])
  }

  lemma {:induction false} RunOwes(opts: Options, l: Link, actions: seq<Action>, n: nat)
    requires Good(opts, l) && ActionsOk(l.table, actions) && n <= |actions|
    ensures Owes(l, Run(opts, l, actions, n), RunPassed(opts, l, actions, n))
  {
    hide Act, ActPassed, Openers, Shown;
    if n > 0 {
      var before := Run(opts, l, actions, n - 1);
      RunOwes(opts, l, actions, n - 1);
      ActionStays(l.table, before.table, actions[n - 1]);
      ActOwes(opts, before, actions[n - 1]);
      OwesTransitive(l, before, Run(opts, l, actions, n), RunPassed(opts, l, actions, n - 1),
                     ActPassed(opts, before, actions[n - 1]));
    }
  }

  // ----- begun twice

  /** Two header files that are remembered look the same in the output: the records have
      only 32 bits for a sum. */
  predicate LookAlike(includes: seq<Key>) {
    exists j, k :: 0 <= j < k < |includes|
      && includes[j].0 == includes[k].0 && includes[j].1 % WORD == includes[k].1 % WORD
  }

  lemma ShownTwiceIff(includes: seq<Key>)
    ensures NoTwice(Shown(includes)) <==> !LookAlike(includes)
  {
    var shown := Shown(includes);
    assert forall k :: 0 <= k < |includes| ==> shown[k] == (includes[k].0, includes[k].1 % WORD);
  }

  /** In the whole output, whatever is linked and with whatever options: what is begun is
      what is remembered and what was passed through. */
  lemma BegunIs(opts: Options, table: seq<Entry>, actions: seq<Action>)
    requires Fresh(table) && ActionsOk(table, actions)
    ensures Good(opts, Begin(table))
    ensures var out := Run(opts, Begin(table), actions, |actions|);
            multiset(Openers(out.records))
            == multiset(Shown(out.includes) + RunPassed(opts, Begin(table), actions, |actions|))
  {
    FreshInv(opts, table);
    RunOwes(opts, Begin(table), actions, |actions|);
    hide *;
    OwesFromNothing(table, Run(opts, Begin(table), actions, |actions|),
                    RunPassed(opts, Begin(table), actions, |actions|));
  }

  lemma OwesFromNothing(table: seq<Entry>, m: Link, extra: seq<Key>)
    requires Owes(Begin(table), m, extra)
    ensures multiset(Openers(m.records)) == multiset(Shown(m.includes) + extra)
  {
    var none := Begin(table);
    assert Openers(none.records) == [] && Shown(none.includes) == [];
    var begun, shown := multiset(Openers(m.records)), multiset(Shown(m.includes));
    assert multiset(Shown(m.includes) + extra) == shown + multiset(extra);
    forall x | true ensures begun[x] == (shown + multiset(extra))[x] {
      assert (begun + multiset(Shown(none.includes)))[x]
             == (multiset(Openers(none.records)) + shown + multiset(extra))[x];
    }
  }

  /** So no header file is begun twice, with the same name and the same sum, if and only if
      no two that are remembered look alike, and those passed through differ from each other
      and from the remembered ones. */
  lemma NoHeaderTwiceIff(opts: Options, table: seq<Entry>, actions: seq<Action>)
    requires Fresh(table) && ActionsOk(table, actions)
    ensures Good(opts, Begin(table))
    ensures var out, passed := Run(opts, Begin(table), actions, |actions|),
                               RunPassed(opts, Begin(table), actions, |actions|);
            NoTwice(Openers(out.records))
            <==> !LookAlike(out.includes) && NoTwice(passed) && Apart(Shown(out.includes), passed)
  {
    BegunIs(opts, table, actions);
    var out, passed := Run(opts, Begin(table), actions, |actions|), RunPassed(opts, Begin(table), actions, |actions|);
    hide *;
    SameMultiset(Openers(out.records), Shown(out.includes) + passed);
    TwiceInSum(Shown(out.includes), passed);
    ShownTwiceIff(out.includes);
  }
}
