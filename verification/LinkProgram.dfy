/** A relocatable link as a program: a file's symbols, its relocs with the symbols they
    force out, and a whole list of files. */
module LinkProgram {
  import opened Wrappers
  import opened LinkPlaces
  import opened LinkSymbols
  import opened LinkRecords
  import opened LinkNamed
  import opened LinkPasses
  import opened LinkTwice
  import R = LinkRelocs

  /** A reloc that asks for the number of its symbol, and may have it written. */
  predicate Wants(p: R.Input, r: R.ExtReloc)
    requires p.Valid() && R.IndexOk(p, r)
  {
    r.external && !R.BaseRelative(r.rtype) && !R.IsDefined(p.hashes[r.index])
  }

  /** The symbols that relocs ask for, in turn. */
  function Wanted(p: R.Input, rs: seq<R.ExtReloc>): seq<nat>
    requires p.Valid() && R.IndicesOk(p, rs)
  {
    if rs == [] then []
    else Wanted(p, rs[..|rs| - 1]) + if Wants(p, rs[|rs| - 1]) then [rs[|rs| - 1].index] else []
  }

  lemma {:induction false} WantedHas(p: R.Input, rs: seq<R.ExtReloc>, k: nat)
    requires p.Valid() && R.IndicesOk(p, rs) && k < |rs| && Wants(p, rs[k])
    ensures rs[k].index in Wanted(p, rs)
  {
    if k < |rs| - 1 {
      WantedHas(p, rs[..|rs| - 1], k);
    }
  }

  /** Inputs of one file differ in the numbers of symbols that were forced out, and in the
      section that the relocs are in. */
  predicate SameBut(p: R.Input, p': R.Input) {
    p' == p.(self := p'.self, forced := p'.forced) && |p'.forced| == |p.forced|
  }

  lemma {:induction false} WantedSame(p: R.Input, p': R.Input, rs: seq<R.ExtReloc>)
    requires p.Valid() && R.IndicesOk(p, rs) && SameBut(p, p')
    ensures p'.Valid() && R.IndicesOk(p', rs) && Wanted(p', rs) == Wanted(p, rs)
  {
    if rs != [] {
      WantedSame(p, p', rs[..|rs| - 1]);
    }
  }

  /** The state of the reloc loop: these symbols have been asked for. */
  predicate Asked(opts: Options, f: File, s: Pass, l: Link, p: R.Input, asked: seq<nat>) {
    && PassOk(f, s) && Inv(s.link)
    && l == ForceSymbols(opts, f, s, s.link, asked)
    && |l.table| == |s.link.table| && FromPartial(p, f, s, l, asked)
  }

  /** The input once symbol i has been asked for. */
  function AskedFor(s: Pass, l: Link, p: R.Input, i: nat): R.Input
    requires p.Valid() && |p.map_| == |s.map_| == |s.hashes|
    requires forall j :: 0 <= j < |s.hashes| && s.hashes[j].Some? ==> s.hashes[j].value < |l.table|
  {
    if i < |s.map_| && s.map_[i] == -1
       && s.hashes[i].Some? then p.(forced := p.forced[i := l.table[s.hashes[i].value].indx]) else p
  }

  lemma ForceOneMore(opts: Options, f: File, s: Pass, l: Link, asked: seq<nat>, i: nat)
    requires PassOk(f, s) && Inv(s.link) && l == ForceSymbols(opts, f, s, s.link, asked)
    ensures Inv(l) && |l.table| == |s.link.table|
    ensures ForceSymbols(opts, f, s, s.link, asked + [i])
            == if i < |s.map_| && s.map_[i] == -1 && s.hashes[i].Some? then Force(opts, l, s.hashes[i].value) else l
  {
    assert (asked + [i])[..|asked + [i]| - 1] == asked;
    hide Force, Inv;
  }

  /** A number that has been asked for stays. */
  lemma AskedStays(opts: Options, f: File, s: Pass, l: Link, asked: seq<nat>, i: nat, j: nat)
    requires PassOk(f, s) && Inv(s.link) && l == ForceSymbols(opts, f, s, s.link, asked)
    requires j in asked && j < |s.map_| && s.map_[j] == -1 && s.hashes[j].Some?
    ensures var m := ForceSymbols(opts, f, s, s.link, asked + [i]);
            |m.table| == |l.table| == |s.link.table|
              && m.table[s.hashes[j].value].indx == l.table[s.hashes[j].value].indx
  {
    hide Force, Inv;
    WantedNumber(opts, f, s, s.link, asked, j);
    ForceOneMore(opts, f, s, l, asked, i);
    if i < |s.map_| && s.map_[i] == -1 && s.hashes[i].Some? {
      ForceKeepsNumber(opts, l, s.hashes[i].value, s.hashes[j].value);
    }
  }

  lemma OneAsked(opts: Options, f: File, s: Pass, l: Link, p: R.Input, asked: seq<nat>, i: nat)
    requires Asked(opts, f, s, l, p, asked)
    ensures var m := ForceSymbols(opts, f, s, s.link, asked + [i]);
            |m.table| == |s.link.table| && Asked(opts, f, s, m, AskedFor(s, m, p, i), asked + [i])
  {
    var m := ForceSymbols(opts, f, s, s.link, asked + [i]);
    var p' := AskedFor(s, m, p, i);
    hide Inv, ForceSymbols;
    forall j | 0 <= j < |f.syms| ensures PartialAt(p', f, s, m, asked + [i], j) {
      assert PartialAt(p, f, s, l, asked, j);
      if j in asked && s.map_[j] == -1 && s.hashes[j].Some? {
        AskedStays(opts, f, s, l, asked, i, j);
      }
      if s.hashes[j].Some? {
        assert m.table[s.hashes[j].value].kind == s.link.table[s.hashes[j].value].kind
               == l.table[s.hashes[j].value].kind;
      }
    }
  }

  /** Nor does it change what became of a reloc that had asked before. */
  lemma RewritesAlike(opts: Options, f: File, s: Pass, l: Link, p: R.Input, asked: seq<nat>, i: nat, r: R.ExtReloc)
    requires Asked(opts, f, s, l, p, asked) && R.IndexOk(p, r) && (Wants(p, r) ==> r.index in asked)
    ensures var m := ForceSymbols(opts, f, s, s.link, asked + [i]);
            && |m.table| == |s.link.table| && AskedFor(s, m, p, i).Valid() && R.IndexOk(AskedFor(s, m, p, i), r)
            && R.Rewrite(AskedFor(s, m, p, i), r) == R.Rewrite(p, r)
  {
    hide Inv, ForceSymbols, R.Sum;
    var m := ForceSymbols(opts, f, s, s.link, asked + [i]);
    OneAsked(opts, f, s, l, p, asked, i);
    if Wants(p, r) && r.index == i && s.map_[i] == -1 && s.hashes[i].Some? {
      AskedStays(opts, f, s, l, asked, i, i);
      assert PartialAt(p, f, s, l, asked, i);
    }
  }

  lemma AllRewriteAlike(opts: Options, f: File, s: Pass, l: Link, p: R.Input, asked: seq<nat>, i: nat,
                        was: seq<R.ExtReloc>, now: seq<R.ExtReloc>, k: nat)
    requires p.Valid() && Asked(opts, f, s, l, p, asked) && R.IndicesOk(p, was) && k <= |was|
    requires R.RewrittenTo(p, was, now, k)
    requires forall j :: 0 <= j < k && Wants(p, was[j]) ==> was[j].index in asked
    ensures var m := ForceSymbols(opts, f, s, s.link, asked + [i]);
            && |m.table| == |s.link.table| && AskedFor(s, m, p, i).Valid() && R.IndicesOk(AskedFor(s, m, p, i), was)
            && R.RewrittenTo(AskedFor(s, m, p, i), was, now, k)
  {
    hide FromPartial, Inv, R.Rewrite, ForceSymbols;
    Matches(opts, f, s, l, p, asked);
    OneAsked(opts, f, s, l, p, asked, i);
    var p' := AskedFor(s, ForceSymbols(opts, f, s, s.link, asked + [i]), p, i);
    assert R.IndicesOk(p', was) by {
      assert |p'.symbols| == |p.symbols|;
    }
    forall j | 0 <= j < k ensures R.Rewrite(p', was[j]) == Some(now[j]) {
      RewritesAlike(opts, f, s, l, p, asked, i, was[j]);
    }
  }

  /** What has been asked for after one more reloc. */
  function Next(p: R.Input, r: R.ExtReloc): seq<nat>
    requires p.Valid() && R.IndexOk(p, r)
  {
    if Wants(p, r) then [r.index] else []
  }

  /** Before a reloc is rewritten, the number of its symbol is asked for if need be. */
  method AskFor(link: FinalLink, opts: Options, ghost f: File, ghost s: Pass, symbolMap: array<int>,
                symHash: array<Option<nat>>,
                start: R.Input, r: R.ExtReloc, ghost asked: seq<nat>)
      returns (inp: R.Input)
    requires link.Between() && symbolMap[..] == s.map_ && symHash[..] == s.hashes
    requires Asked(opts, f, s, link.State(), start, asked) && R.IndexOk(start, r)
    modifies link
    ensures link.Between() && SameBut(start, inp) && inp.self == start.self && R.IndexOk(inp, r)
    ensures Asked(opts, f, s, link.State(), inp, asked + Next(start, r))
    ensures if Wants(start, r) then link.State() == ForceSymbols(opts, f, s, s.link, asked + [r.index])
            && inp == AskedFor(s, link.State(), start, r.index)
            else link.State() == old(link.State()) && inp == start
  {
    hide Inv, ForceSymbols, Force, FromPartial;
    ghost var was := link.State();
    inp := start;
    assert asked + [] == asked;
    Matches(opts, f, s, was, start, asked);
    if r.external && !R.BaseRelative(r.rtype)
       && !(start.hashes[r.index].Some? && start.hashes[r.index].value.Defined?) {
      ForceOneMore(opts, f, s, was, asked, r.index);
      OneAsked(opts, f, s, was, start, asked, r.index);
      assert symbolMap[r.index] == s.map_[r.index] && symHash[r.index] == s.hashes[r.index];
      if symbolMap[r.index] == -1 && symHash[r.index].Some? {
        var number := link.NeedSymbol(opts, symHash[r.index].value);
        inp := inp.(forced := inp.forced[r.index := number]);
      }
    }
  }

  lemma Matches(opts: Options, f: File, s: Pass, l: Link, p: R.Input, asked: seq<nat>)
    requires Asked(opts, f, s, l, p, asked)
    ensures p.Valid() && |p.symbols| == |f.syms| == |s.map_| == |s.hashes| == |p.forced|
    ensures forall j :: 0 <= j < |s.hashes| && s.hashes[j].Some? ==> s.hashes[j].value < |l.table|
  {
    hide ForceSymbols, Inv;
  }

  /** The loop of aout_link_input_section_ext in a relocatable link, on the real state: it
      rewrites the relocs where they are, and the symbols they ask for are written. */
  method RewriteSection(link: FinalLink, opts: Options, ghost f: File, ghost s: Pass, symbolMap: array<int>,
                        symHash: array<Option<nat>>,
                        start: R.Input, relocs: array<R.ExtReloc>, ghost asked: seq<nat>)
      returns (ok: bool, inp: R.Input)
    requires link.Between() && symbolMap[..] == s.map_ && symHash[..] == s.hashes
    requires start.Valid() && PassOk(f, s) && Inv(s.link) && Asked(opts, f, s, link.State(), start, asked)
    requires R.IndicesOk(start, relocs[..]) && forall k :: 0 <= k < relocs.Length ==> R.SignedWord(relocs[k].addend)
    modifies link, relocs
    ensures link.Between() && SameBut(start, inp) && inp.self == start.self && R.IndicesOk(inp, old(relocs[..]))
    ensures ok == R.CanRewrite(inp, old(relocs[..]))
    ensures ok ==> Asked(opts, f, s, link.State(), inp, asked + Wanted(start, old(relocs[..])))
    ensures ok ==> relocs[..] == R.Rewritten(inp, old(relocs[..]))
  {
    hide Asked, R.Rewrite, ForceSymbols;
    ghost var was := relocs[..];
    inp := start;
    assert asked + Wanted(start, was[..0]) == asked;
    for k := 0 to relocs.Length
      invariant link.Between() && SameBut(start, inp) && inp.self == start.self && R.IndicesOk(inp, was)
      invariant Asked(opts, f, s, link.State(), inp, asked + Wanted(start, was[..k]))
      invariant R.RewrittenTo(inp, was, relocs[..], k)
    {
      ghost var before, now := inp, asked + Wanted(start, was[..k]);
      ghost var l := link.State();
      assert relocs[k] == relocs[..][k] == was[k];
      HasAsked(start, inp, was, k, asked);
      MoreAsked(start, inp, was, k, asked);
      inp := AskFor(link, opts, f, s, symbolMap, symHash, inp, relocs[k], now);
      if Wants(before, was[k]) {
        AllRewriteAlike(opts, f, s, l, before, now, was[k].index, was, relocs[..], k);
      }
      var fine, out := R.RewriteOne(inp, relocs[k]);
      if !fine {
        return false, inp;
      }
      R.OneMoreRewritten(inp, was, relocs[..], k, out);
      relocs[k] := out;
    }
    assert was[..relocs.Length] == was;
    ok := true;
  }

  lemma HasAsked(start: R.Input, p: R.Input, was: seq<R.ExtReloc>, k: nat, asked: seq<nat>)
    requires start.Valid() && SameBut(start, p) && R.IndicesOk(start, was) && k <= |was|
    ensures p.Valid() && R.IndicesOk(p, was)
    ensures forall j :: 0 <= j < k && Wants(p, was[j]) ==> was[j].index in asked + Wanted(start, was[..k])
  {
    WantedSame(start, p, was);
    forall j | 0 <= j < k && Wants(p, was[j]) ensures was[j].index in asked + Wanted(start, was[..k]) {
      WantedHas(start, was[..k], j);
    }
  }

  lemma MoreAsked(start: R.Input, p: R.Input, was: seq<R.ExtReloc>, k: nat, asked: seq<nat>)
    requires start.Valid() && SameBut(start, p) && R.IndicesOk(start, was) && k < |was|
    ensures p.Valid() && R.IndexOk(p, was[k])
    ensures asked + Wanted(start, was[..k]) + Next(p, was[k]) == asked + Wanted(start, was[..k + 1])
  {
    assert R.IndexOk(start, was[k]);
    assert was[..k + 1][..k] == was[..k];
  }

  // ----- a file

  /** What a file's relocs are looked up in, before any symbol has been asked for. */
  function Lookups(f: File, self: Place, table: seq<Entry>, hashes: seq<Option<nat>>, numbers: seq<int>): R.Input
    requires |hashes| == |numbers| == |f.syms|
    requires forall j :: 0 <= j < |hashes| && hashes[j].Some? ==> hashes[j].value < |table|
  {
    R.Input(self, f.text, f.data, f.bss,
            seq(|f.syms|, j requires 0 <= j < |f.syms| => Known(table, hashes[j])),
            seq(|f.syms|, j requires 0 <= j < |f.syms| => AsRead(f.syms[j].etype, f.syms[j].value)),
            numbers, seq(|f.syms|, _ => 0))
  }

  lemma NothingAsked(opts: Options, f: File, s: Pass, self: Place)
    requires PassOk(f, s) && Inv(s.link)
    ensures var p := Lookups(f, self, s.link.table, s.hashes, s.map_);
            p.Valid() && |p.symbols| == |f.syms| && Asked(opts, f, s, s.link, p, [])
  {
    var p := Lookups(f, self, s.link.table, s.hashes, s.map_);
    forall j | 0 <= j < |f.syms| ensures PartialAt(p, f, s, s.link, [], j) {
    }
  }

  /** The section that the relocs are in plays no part in it. */
  lemma AskedElsewhere(opts: Options, f: File, s: Pass, l: Link, p: R.Input, asked: seq<nat>, self: Place)
    requires Asked(opts, f, s, l, p, asked)
    ensures Asked(opts, f, s, l, p.(self := self), asked)
  {
    hide ForceSymbols, Inv;
    forall j | 0 <= j < |f.syms| ensures PartialAt(p.(self := self), f, s, l, asked, j) {
      assert PartialAt(p, f, s, l, asked, j);
    }
  }

  lemma {:induction false} AskedStaysLong(opts: Options, f: File, s: Pass, asked: seq<nat>, more: seq<nat>, j: nat)
    requires PassOk(f, s) && Inv(s.link) && j in asked && j < |s.map_| && s.map_[j] == -1 && s.hashes[j].Some?
    ensures var l, m, b := ForceSymbols(opts, f, s, s.link, asked), ForceSymbols(opts, f, s, s.link, asked + more),
            s.hashes[j].value;
            |m.table| == |l.table| == |s.link.table| && m.table[b].indx == l.table[b].indx
  {
    hide Inv, Force, ForceSymbols;
    if more == [] {
      assert asked + more == asked;
    } else {
      var most, i := more[..|more| - 1], more[|more| - 1];
      AskedStaysLong(opts, f, s, asked, most, j);
      AskedStays(opts, f, s, ForceSymbols(opts, f, s, s.link, asked + most), asked + most, i, j);
      assert asked + most + [i] == asked + more;
    }
  }

  /** What became of a reloc is still right when more symbols have been asked for. */
  lemma RewrittenStays(opts: Options, f: File, s: Pass, l: Link, m: Link, p: R.Input, p': R.Input, asked: seq<nat>,
                       more: seq<nat>, r: R.ExtReloc)
    requires Asked(opts, f, s, l, p, asked) && Asked(opts, f, s, m, p', asked + more) && SameBut(p, p')
    requires R.IndexOk(p, r)
    requires Wants(p, r) ==> r.index in asked
    ensures R.Rewrite(p'.(self := p.self), r) == R.Rewrite(p, r)
  {
    hide Inv, ForceSymbols, R.Sum;
    var i := r.index;
    if Wants(p, r) && s.map_[i] == -1 && s.hashes[i].Some? {
      AskedStaysLong(opts, f, s, asked, more, i);
      assert PartialAt(p, f, s, l, asked, i) && PartialAt(p', f, s, m, asked + more, i);
    }
  }

  lemma AllRewrittenStay(opts: Options, f: File, s: Pass, l: Link, m: Link, p: R.Input, p': R.Input, asked: seq<nat>,
                         more: seq<nat>, rs: seq<R.ExtReloc>)
    requires Asked(opts, f, s, l, p, asked) && Asked(opts, f, s, m, p', asked + more) && SameBut(p, p')
    requires p.Valid() && R.IndicesOk(p, rs) && asked == Wanted(p, rs) && R.CanRewrite(p, rs)
    ensures R.IndicesOk(p'.(self := p.self), rs) && R.CanRewrite(p'.(self := p.self), rs)
    ensures R.Rewritten(p'.(self := p.self), rs) == R.Rewritten(p, rs)
  {
    hide Asked, R.Rewrite;
    forall k | 0 <= k < |rs| ensures R.Rewrite(p'.(self := p.self), rs[k]) == R.Rewrite(p, rs[k]) {
      if Wants(p, rs[k]) {
        WantedHas(p, rs, k);
      }
      RewrittenStays(opts, f, s, l, m, p, p', asked, more, rs[k]);
    }
  }

  /** The relocs have become what they should, with all symbols as they are in the end. */
  predicate Done(p: R.Input, was: seq<R.ExtReloc>, now: seq<R.ExtReloc>)
    requires p.Valid() && R.IndicesOk(p, was)
  {
    R.CanRewrite(p, was) && now == R.Rewritten(p, was)
  }

  /** aout_link_input_bfd in a relocatable link: the symbols are written, and the relocs of
      the text and then of the data are rewritten where they are, with the symbols they ask
      for written on the way.  That is what the file's action does to the link. */
  method LinkInput(link: FinalLink, opts: Options, f: File, textRelocs: array<R.ExtReloc>,
                   dataRelocs: array<R.ExtReloc>)
      returns (ok: bool, inp: R.Input)
    requires link.Between() && FileOk(f, link.table) && Inv(link.State()) && textRelocs != dataRelocs
    requires forall k :: 0 <= k < textRelocs.Length ==> R.SignedWord(textRelocs[k].addend) && Indexed(f, textRelocs[k])
    requires forall k :: 0 <= k < dataRelocs.Length ==> R.SignedWord(dataRelocs[k].addend) && Indexed(f, dataRelocs[k])
    modifies link, textRelocs, dataRelocs
    ensures link.Between() && inp.Valid() && R.IndicesOk(inp, old(textRelocs[..]))
    ensures R.IndicesOk(inp, old(dataRelocs[..]))
    ensures ok ==> Done(inp.(self := f.text), old(textRelocs[..]), textRelocs[..])
    ensures ok ==> Done(inp.(self := f.data), old(dataRelocs[..]), dataRelocs[..])
    ensures var wanted := Wanted(inp, old(textRelocs[..])) + Wanted(inp, old(dataRelocs[..]));
            ok ==> && link.State() == After(opts, f, old(link.State()), wanted)
                   && FromPartial(inp, f, WriteSymbols(opts, f, old(link.State())), link.State(), wanted)
  {
    hide Inv, ForceSymbols, FromPartial, R.Rewrite;
    ghost var was := link.State();
    ghost var wasText, wasData := textRelocs[..], dataRelocs[..];
    ghost var s := WriteSymbols(opts, f, was);
    var symbolMap, symHash := link.WriteFileSymbols(opts, f);
    NothingAsked(opts, f, s, f.text);
    inp := Lookups(f, f.text, link.table, symHash[..], symbolMap[..]);
    AllIndexed(f, inp, wasText);
    AllIndexed(f, inp, wasData);
    ghost var start := inp;
    ok, inp := RewriteSection(link, opts, f, s, symbolMap, symHash, inp, textRelocs, []);
    if !ok {
      return;
    }
    WantedSame(start, inp, wasText);
    assert [] + Wanted(start, wasText) == Wanted(inp, wasText);
    ghost var text, asked, l := inp, Wanted(inp, wasText), link.State();
    AskedElsewhere(opts, f, s, l, inp, asked, f.data);
    inp := inp.(self := f.data);
    AllIndexed(f, inp, wasData);
    start := inp;
    ok, inp := RewriteSection(link, opts, f, s, symbolMap, symHash, inp, dataRelocs, asked);
    if ok {
      WantedSame(start, inp, wasData);
      WantedSame(text, inp, wasText);
      AllRewrittenStay(opts, f, s, l, link.State(), text, inp, asked, Wanted(start, wasData), wasText);
    }
  }

  /** A reloc refers to a symbol of the file, or to none. */
  predicate Indexed(f: File, r: R.ExtReloc) {
    r.external || R.BaseRelative(r.rtype) ==> r.index < |f.syms|
  }

  lemma AllIndexed(f: File, p: R.Input, rs: seq<R.ExtReloc>)
    requires |p.symbols| == |f.syms| && forall k :: 0 <= k < |rs| ==> Indexed(f, rs[k])
    ensures R.IndicesOk(p, rs)
  {
  }

  // ----- the whole link

  /** The symbols of a list, forced out one after the other. */
  method ForceAll(link: FinalLink, opts: Options, ghost f: File, ghost s: Pass, symbolMap: array<int>,
                  symHash: array<Option<nat>>, wanted: seq<nat>)
    requires link.Between() && PassOk(f, s) && Inv(s.link) && symbolMap[..] == s.map_ && symHash[..] == s.hashes
    requires link.State() == s.link
    modifies link
    ensures link.Between() && link.State() == ForceSymbols(opts, f, s, s.link, wanted)
  {
    hide Inv, ForceSymbols, Force;
    NoneForced(opts, f, s);
    assert wanted[..0] == [];
    for k := 0 to |wanted|
      invariant link.Between() && link.State() == ForceSymbols(opts, f, s, s.link, wanted[..k])
    {
      var i := wanted[k];
      ForceOneMore(opts, f, s, link.State(), wanted[..k], i);
      assert wanted[..k] + [i] == wanted[..k + 1];
      if i < symbolMap.Length {
        assert symbolMap[i] == s.map_[i] && symHash[i] == s.hashes[i];
        if symbolMap[i] == -1 && symHash[i].Some? {
          var _ := link.NeedSymbol(opts, symHash[i].value);
        }
      }
    }
    assert wanted[..|wanted|] == wanted;
  }

  lemma NoneForced(opts: Options, f: File, s: Pass)
    requires PassOk(f, s) && Inv(s.link)
    ensures ForceSymbols(opts, f, s, s.link, []) == s.link
  {
  }

  /** One action of a link. */
  method DoAction(link: FinalLink, opts: Options, a: Action)
    requires link.Between() && Inv(link.State()) && ActionOk(link.table, a)
    modifies link
    ensures link.Between() && link.State() == Act(opts, old(link.State()), a)
  {
    hide Inv, ForceSymbols, Force;
    match a
    case LinkFile(f, wanted) =>
      ghost var s := WriteSymbols(opts, f, link.State());
      var symbolMap, symHash := link.WriteFileSymbols(opts, f);
      ForceAll(link, opts, f, s, symbolMap, symHash, wanted);
    case WriteOne(e) =>
      InvLinks(link.State());
      link.WriteOtherSymbol(opts, e);
    case Need(e) =>
      var _ := link.NeedSymbol(opts, e);
  }

  /** A whole link, and the traversal of the hash table at its end. */
  method LinkAll(opts: Options, start: nat, table: seq<Entry>, actions: seq<Action>) returns (link: FinalLink)
    requires Fresh(table) && ActionsOk(table, actions)
    ensures fresh(link) && link.Between() && link.State() == End(opts, table, actions)
  {
    hide Inv, Act, Settled;
    FreshInv(opts, table);
    link := new FinalLink(start, table);
    for k := 0 to |actions|
      invariant fresh(link) && link.Between() && link.State() == Reached(opts, table, actions, k)
    {
      NextReached(opts, table, actions, k);
      DoAction(link, opts, actions[k]);
    }
    link.WriteRemaining(opts);
  }
}
