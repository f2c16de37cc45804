/** Every global symbol has at most one record, and its number is right, over any link. */
module LinkRecords {
  import opened Wrappers
  import opened LinkSymbols

  // ----- the invariant

  /** The number an entry has is that of its record. */
  predicate EntryOk(l: Link, e: nat)
    requires e < |l.table|
  {
    var h := l.table[e];
    && h.indx >= -2
    && (h.indx >= 0 ==> h.written && h.indx < |l.records| && l.records[h.indx].owner == Some(e))
  }

  /** A record that belongs to an entry has the number the entry says. */
  predicate RecordOk(l: Link, k: nat)
    requires k < |l.records|
  {
    var o := l.records[k].owner;
    o.Some? ==> o.value < |l.table| && l.table[o.value].indx == k
  }

  /** A symbol that was forced out without success can never have a record. */
  predicate Stuck(l: Link, e: nat)
    requires e < |l.table|
  {
    l.table[e].indx == -2 ==> !Writable(l.table[e].kind)
  }

  predicate Numbered(l: Link) {
    && LinksOk(l.table)
    && (forall e :: 0 <= e < |l.table| ==> EntryOk(l, e))
    && (forall k :: 0 <= k < |l.records| ==> RecordOk(l, k))
  }

  predicate NoneStuckBut(l: Link, but: int) {
    forall e :: 0 <= e < |l.table| && e != but ==> Stuck(l, e)
  }

  predicate Inv(l: Link) {
    Numbered(l) && NoneStuckBut(l, -1)
  }

  // ----- what the steps do to it

  predicate SameKinds(t: seq<Entry>, u: seq<Entry>) {
    |t| == |u| && forall e :: 0 <= e < |t| ==> t[e].kind == u[e].kind && t[e].name == u[e].name
  }

  lemma LinksStay(t: seq<Entry>, u: seq<Entry>)
    requires LinksOk(t) && SameKinds(t, u)
    ensures LinksOk(u)
  {
    forall e | 0 <= e < |u| && IsLink(u[e].kind)
      ensures u[e].kind.link < e && (u[e].kind.Warning? ==> !u[u[e].kind.link].kind.Warning?)
    {
      assert t[e].kind == u[e].kind;
    }
  }

  lemma SameKindsTransitive(t: seq<Entry>, u: seq<Entry>, v: seq<Entry>)
    requires SameKinds(t, u) && SameKinds(u, v)
    ensures SameKinds(t, v)
  {
    forall e | 0 <= e < |t| ensures t[e].kind == v[e].kind && t[e].name == v[e].name {
      assert u[e].kind == t[e].kind && u[e].name == t[e].name;
    }
  }

  /** A record of nobody's. */
  lemma AppendUnowned(l: Link, r: Record)
    requires Numbered(l) && r.owner.None?
    ensures Numbered(l.(records := l.records + [r]))
  {
    var m := l.(records := l.records + [r]);
    assert forall k :: 0 <= k < |l.records| ==> m.records[k] == l.records[k];
    forall e | 0 <= e < |m.table| ensures EntryOk(m, e) {
      assert EntryOk(l, e);
    }
    forall k | 0 <= k < |m.records| ensures RecordOk(m, k) {
      assert k < |l.records| ==> RecordOk(l, k);
    }
  }

  /** The record of an entry that had none. */
  lemma AppendOwned(l: Link, e: nat, r: Record)
    requires Numbered(l) && e < |l.table| && l.table[e].indx < 0 && r.owner == Some(e)
    ensures Numbered(l.(table := l.table[e := l.table[e].(written := true, indx := |l.records|)],
                        records := l.records + [r]))
  {
    var m := l.(table := l.table[e := l.table[e].(written := true, indx := |l.records|)], records := l.records + [r]);
    LinksStay(l.table, m.table);
    assert forall k :: 0 <= k < |l.records| ==> m.records[k] == l.records[k];
    forall d | 0 <= d < |m.table| ensures EntryOk(m, d) {
      assert EntryOk(l, d);
    }
    forall k | 0 <= k < |m.records| ensures RecordOk(m, k) {
      assert k < |l.records| ==> RecordOk(l, k);
    }
  }

  /** An entry without a record may be marked either way. */
  lemma Remark(l: Link, e: nat, written: bool, indx: int)
    requires Numbered(l) && e < |l.table|
    requires (l.table[e].indx < 0 && indx in {-1, -2}) || (indx == l.table[e].indx && written)
    ensures Numbered(l.(table := l.table[e := l.table[e].(written := written, indx := indx)]))
  {
    var m := l.(table := l.table[e := l.table[e].(written := written, indx := indx)]);
    LinksStay(l.table, m.table);
    forall d | 0 <= d < |m.table| ensures EntryOk(m, d) {
      assert EntryOk(l, d);
    }
    forall k | 0 <= k < |m.records| ensures RecordOk(m, k) {
      assert RecordOk(l, k);
    }
  }

  lemma StuckElsewhere(l: Link, m: Link, e: nat, but: int)
    requires e < |l.table| && NoneStuckBut(l, but) && |m.table| == |l.table| && (but == e || but == -1)
    requires forall d :: 0 <= d < |l.table| && d != e ==> m.table[d] == l.table[d]
    requires Stuck(m, e)
    ensures NoneStuckBut(m, -1)
  {
    forall d | 0 <= d < |m.table| ensures Stuck(m, d) {
      assert d != e ==> Stuck(l, d);
    }
  }

  lemma GlobalRecordIff(table: seq<Entry>, e: nat)
    requires e < |table|
    ensures GlobalRecord(table, e).Some? <==> Writable(table[e].kind)
    ensures GlobalRecord(table, e).Some? ==> GlobalRecord(table, e).value.owner == Some(e)
  {
  }

  /** Writing a global symbol keeps the invariant, and settles an entry that was forced. */
  lemma WriteGlobalKeeps(opts: Options, l: Link, e: nat)
    requires Numbered(l) && e < |l.table| && NoneStuckBut(l, if l.table[e].written then -1 else e)
    ensures Inv(WriteGlobal(opts, l, e))
    ensures SameKinds(l.table, WriteGlobal(opts, l, e).table)
  {
    var h, m := l.table[e], WriteGlobal(opts, l, e);
    GlobalRecordIff(l.table, e);
    if !h.written {
      assert EntryOk(l, e);
      if (h.indx != -2 && StripsGlobal(opts, h.name)) || GlobalRecord(l.table, e).None? {
        Remark(l, e, true, h.indx);
      } else {
        AppendOwned(l, e, GlobalRecord(l.table, e).value);
      }
      StuckElsewhere(l, m, e, e);
    }
  }

  lemma WriteOtherKeeps(opts: Options, l: Link, e: nat)
    requires Inv(l) && e < |l.table|
    ensures Inv(WriteOther(opts, l, e))
    ensures SameKinds(l.table, WriteOther(opts, l, e).table)
  {
    var h := l.table[e];
    if h.kind.Warning? {
      WriteGlobalKeeps(opts, l, h.kind.link);
    } else {
      WriteGlobalKeeps(opts, l, e);
    }
  }

  /** Forcing a symbol out gives it a record exactly if it is undefined, defined or common:
      a weak undefined symbol, an indirect one, a warning or an unused one stays at -2. */
  lemma ForceOutcome(opts: Options, l: Link, e: nat)
    requires Inv(l) && e < |l.table|
    ensures Inv(Force(opts, l, e)) && SameKinds(l.table, Force(opts, l, e).table)
    ensures l.table[e].indx < 0 ==> (Force(opts, l, e).table[e].indx >= 0 <==> Writable(l.table[e].kind))
    ensures l.table[e].indx < 0 ==> (Force(opts, l, e).table[e].indx == -2 <==> !Writable(l.table[e].kind))
  {
    var h := l.table[e];
    if h.indx < 0 {
      var m := l.(table := l.table[e := h.(indx := -2, written := false)]);
      Remark(l, e, false, -2);
      assert NoneStuckBut(m, e) by {
        forall d | 0 <= d < |m.table| && d != e ensures Stuck(m, d) {
          assert Stuck(l, d);
        }
      }
      if h.kind.Warning? {
        StuckElsewhere(l, m, e, -1);
        WriteOtherKeeps(opts, m, e);
      } else {
        WriteGlobalKeeps(opts, m, e);
        GlobalRecordIff(m.table, e);
      }
    }
  }

  // ----- the symbols of one file

  /** The record of a symbol that has no hash entry, or was passed through. */
  predicate CopyOf(r: Record, sym: Sym) {
    && r.name == sym.name && r.other == sym.other && r.desc == sym.desc
    && (r.etype == sym.etype || (sym.etype == N_BINCL && r.etype == N_EXCL))
  }

  /** What a symbol's place in the map may hold: -1, the number of its own record, or -2
      when its hash entry can never have one. */
  predicate MapEntryOk(l: Link, f: File, j: nat, m: int)
    requires j < |f.syms| == |f.hashes|
  {
    || m == -1
    || (0 <= m < |l.records|
        && if l.records[m].owner.Some? then l.records[m].owner == f.hashes[j]
           else CopyOf(l.records[m], f.syms[j]))
    || (m == -2 && f.hashes[j].Some? && f.hashes[j].value < |l.table| && l.table[f.hashes[j].value].indx == -2
        && l.table[f.hashes[j].value].written)
  }

  predicate NoNewStuck(t: seq<Entry>, u: seq<Entry>) {
    |t| == |u| && forall e :: 0 <= e < |t| && u[e].indx == -2 ==> t[e].indx == -2
  }

  /** What one step may do: settle symbol i, mark later ones, add a record. */
  predicate Stepped(f: File, s: Pass, s': Pass, i: nat)
    requires PassOk(f, s) && i < |f.syms|
  {
    && PassOk(f, s') && Inv(s'.link) && SameKinds(s.link.table, s'.link.table)
    && (forall d :: 0 <= d < |s.link.table| && s.link.table[d].written ==> s'.link.table[d] == s.link.table[d])
    && NoNewStuck(s.link.table, s'.link.table)
    && s.link.records <= s'.link.records && |s'.link.records| <= |s.link.records| + 1
    && MapEntryOk(s'.link, f, i, s'.map_[i])
    && (forall j :: 0 <= j < |s.map_| && j != i ==> s'.map_[j] == s.map_[j] || (j > i && s'.map_[j] == -1))
    && (forall j :: 0 <= j < |s.hashes| && j != i ==> s'.hashes[j] == s.hashes[j])
  }

  lemma {:induction false} MarkOnlyAhead(syms: seq<Sym>, map_: seq<int>, i: nat, nest: nat)
    requires i <= |syms| == |map_|
    ensures forall j :: 0 <= j < |map_| ==>
              Mark(syms, map_, i, nest)[j] == map_[j] || (j >= i && Mark(syms, map_, i, nest)[j] == -1)
    decreases |syms| - i
  {
    if i < |syms| {
      if syms[i].etype == N_EINCL {
        if nest > 0 {
          MarkOnlyAhead(syms, map_, i + 1, nest - 1);
        }
      } else if syms[i].etype == N_BINCL {
        MarkOnlyAhead(syms, map_, i + 1, nest + 1);
      } else {
        MarkOnlyAhead(syms, if nest == 0 then map_[i := -1] else map_, i + 1, nest);
      }
    }
  }

  /** The list of header files has nothing to do with it. */
  lemma OtherIncludes(l: Link, m: Link)
    requires Inv(l) && m.table == l.table && m.records == l.records
    ensures Inv(m)
  {
    forall e | 0 <= e < |m.table| ensures EntryOk(m, e) && Stuck(m, e) {
      assert EntryOk(l, e) && Stuck(l, e);
    }
    forall k | 0 <= k < |m.records| ensures RecordOk(m, k) {
      assert RecordOk(l, k);
    }
  }

  /** Copying a symbol adds one record with its name, puts its number in the map, and marks
      nothing but later symbols. */
  predicate Copied(s: Pass, s': Pass, i: nat, name: Name, etype: bv8, sym: Sym, owner: Option<nat>)
    requires i < |s.map_|
  {
    && s'.link.table == s.link.table
    && |s'.link.records| == |s.link.records| + 1 && s.link.records <= s'.link.records
    && (var r := s'.link.records[|s.link.records|];
        r.name == name && r.owner == owner && r.other == sym.other && r.desc == sym.desc
        && (r.etype == etype || (etype == N_BINCL && r.etype == N_EXCL)))
    && |s'.map_| == |s.map_| && s'.map_[i] == |s.link.records|
    && (forall j :: 0 <= j < |s.map_| && j != i ==> s'.map_[j] == s.map_[j] || (j > i && s'.map_[j] == -1))
    && s'.hashes == s.hashes
  }

  lemma CopyCopies(f: File, s: Pass, i: nat, etype: bv8, name: Name, value: int, owner: Option<nat>)
    requires PassOk(f, s) && i < |f.syms|
    ensures Copied(s, Copy(f, s, i, etype, name, value, owner), i, name, etype, f.syms[i], owner)
  {
    MarkOnlyAhead(f.syms, s.map_, i + 1, 0);
  }

  lemma LocalType(f: File, sym: Sym)
    ensures Choose(f, sym, None).etype == sym.etype
  {
  }

  lemma LocalSteps(opts: Options, f: File, s: Pass, i: nat)
    requires PassOk(f, s) && i < |f.syms| && Inv(s.link) && s.map_[i] == -1
    ensures Stepped(f, s, StepLocal(opts, f, s, i), i)
  {
    hide Copy, Choose, EntryOk, RecordOk, NoneStuckBut;
    LocalType(f, f.syms[i]);
    var sym, s' := f.syms[i], StepLocal(opts, f, s, i);
    var c := Choose(f, sym, None);
    if !Strips(opts, sym.etype, sym.name) && !DiscardsLocal(opts, c.etype, sym.name) {
      CopyCopies(f, s.(pass := c.pass, skipNext := c.skipNext), i, c.etype, sym.name, c.value, None);
      UnownedInv(s.link, s'.link);
    }
  }

  /** Inv survives one more record that is nobody's. */
  lemma UnownedInv(l: Link, m: Link)
    requires Inv(l) && m.table == l.table && |m.records| == |l.records| + 1 && l.records <= m.records
    requires m.records[|l.records|].owner.None?
    ensures Inv(m)
  {
    var n := l.(records := l.records + [m.records[|l.records|]]);
    AppendUnowned(l, m.records[|l.records|]);
    assert NoneStuckBut(n, -1) by {
      forall e | 0 <= e < |n.table| ensures Stuck(n, e) {
        assert Stuck(l, e);
      }
    }
    assert n.records == m.records;
    OtherIncludes(n, m);
  }

  /** Inv survives the first record of an entry. */
  lemma OwnedInv(l: Link, m: Link, h: nat)
    requires Inv(l) && h < |l.table| && l.table[h].indx < 0
    requires m.table == l.table[h := l.table[h].(written := true, indx := |l.records|)]
    requires |m.records| == |l.records| + 1 && l.records <= m.records && m.records[|l.records|].owner == Some(h)
    ensures Inv(m) && SameKinds(l.table, m.table)
  {
    var n := l.(table := m.table, records := l.records + [m.records[|l.records|]]);
    AppendOwned(l, h, m.records[|l.records|]);
    StuckElsewhere(l, n, h, -1);
    assert n.records == m.records;
    OtherIncludes(n, m);
  }

  lemma GlobalSteps(opts: Options, f: File, s: Pass, i: nat, h: nat)
    requires PassOk(f, s) && i < |f.syms| && Inv(s.link) && s.map_[i] == -1
    requires h < |s.link.table| && s.hashes[i] == f.hashes[i] == Some(h) && !s.link.table[h].written
    ensures Stepped(f, s, StepGlobal(opts, f, s, i, h), i)
  {
    var sym, name, l, s' := f.syms[i], NameOf(s, i, f.syms[i]), s.link, StepGlobal(opts, f, s, i, h);
    assert EntryOk(l, h);
    hide Copy, Choose;
    if Strips(opts, sym.etype, name) {
      Remark(l, h, true, l.table[h].indx);
      assert Stuck(l, h);
      StuckElsewhere(l, s'.link, h, -1);
    } else {
      var c := Choose(f, sym, Some(l.table[Base(l.table, h)].kind));
      var table := l.table[h := l.table[h].(written := true, indx := |l.records|)];
      LinksStay(l.table, table);
      CopyCopies(f, s.(link := l.(table := table), pass := c.pass, skipNext := c.skipNext), i, c.etype, name, c.value,
                 Some(h));
      OwnedInv(l, s'.link, h);
    }
  }

  /** One turn of the loop keeps the invariant and settles its own symbol. */
  lemma StepSteps(opts: Options, f: File, s: Pass, i: nat)
    requires PassOk(f, s) && i < |f.syms| && Inv(s.link) && s.hashes[i] == f.hashes[i]
    ensures Stepped(f, s, Step(opts, f, s, i), i)
  {
    var s1, sym, s' := s.(map_ := s.map_[i := -1]), f.syms[i], Step(opts, f, s, i);
    if s.map_[i] == -1 {
    } else if s.pass {
      UnownedInv(s.link, s'.link);
    } else if s.skipNext {
    } else if s.hashes[i].None? {
      LocalSteps(opts, f, s1, i);
    } else {
      var h := s.hashes[i].value;
      if s.link.table[h].written {
        WrittenEntry(s.link, f, i, h);
      } else {
        GlobalSteps(opts, f, s1, i, h);
      }
    }
  }

  /** The number of an entry that is done with is one the map may hold. */
  lemma WrittenEntry(l: Link, f: File, i: nat, h: nat)
    requires Inv(l) && i < |f.syms| == |f.hashes| && f.hashes[i] == Some(h) && h < |l.table| && l.table[h].written
    ensures MapEntryOk(l, f, i, l.table[h].indx)
  {
    assert EntryOk(l, h);
  }

  // ----- the whole file

  /** The loop over a file's symbols has settled the first i. */
  predicate PassInv(f: File, l: Link, s: Pass, i: nat) {
    && PassOk(f, s) && i <= |f.syms| && Inv(s.link) && SameKinds(l.table, s.link.table)
    && l.records <= s.link.records && |s.link.records| <= |l.records| + 1 + i
    && NoNewStuck(l.table, s.link.table)
    && (forall j :: 0 <= j < i ==> MapEntryOk(s.link, f, j, s.map_[j]))
    && (forall j :: i <= j < |s.map_| ==> s.map_[j] in {0, -1})
    && (forall j :: i <= j < |s.hashes| ==> s.hashes[j] == f.hashes[j])
  }

  /** Later steps leave the map entries right. */
  lemma MapEntryStays(f: File, s: Pass, s': Pass, i: nat, j: nat)
    requires PassOk(f, s) && j < i < |f.syms| && Stepped(f, s, s', i) && MapEntryOk(s.link, f, j, s.map_[j])
    ensures MapEntryOk(s'.link, f, j, s'.map_[j])
  {
    var m := s.map_[j];
    assert s'.map_[j] == m;
    if 0 <= m < |s.link.records| {
      assert s'.link.records[m] == s.link.records[m];
    }
  }

  lemma PassStep(f: File, l: Link, s: Pass, s': Pass, i: nat)
    requires PassInv(f, l, s, i) && i < |f.syms| && Stepped(f, s, s', i)
    ensures PassInv(f, l, s', i + 1)
  {
    forall j | 0 <= j < i + 1 ensures MapEntryOk(s'.link, f, j, s'.map_[j]) {
      if j < i {
        MapEntryStays(f, s, s', i, j);
      }
    }
  }

  lemma SteppedKeepsEntries(f: File, s: Pass, s': Pass, i: nat)
    requires PassOk(f, s) && i < |f.syms| && Stepped(f, s, s', i)
    ensures forall j :: 0 <= j < i ==> s'.map_[j] == s.map_[j]
  {
  }

  /** The loop of aout_link_write_symbols, from symbol i up to symbol n. */
  function Steps(opts: Options, f: File, s: Pass, i: nat, n: nat, l: Link): (s': Pass)
    requires PassInv(f, l, s, i) && i <= n <= |f.syms|
    ensures PassInv(f, l, s', n)
    ensures s.link.records <= s'.link.records && forall j :: 0 <= j < i ==> s'.map_[j] == s.map_[j]
    decreases n - i
  {
    if i == n then s
    else
      StepSteps(opts, f, s, i);
      PassStep(f, l, s, Step(opts, f, s, i), i);
      SteppedKeepsEntries(f, s, Step(opts, f, s, i), i);
      Steps(opts, f, Step(opts, f, s, i), i + 1, n, l)
  }

  lemma StartOk(opts: Options, f: File, l: Link)
    requires FileOk(f, l.table) && Inv(l)
    ensures PassInv(f, l, Start(opts, f, l), 0)
  {
    if NamesFile(opts, f) {
      UnownedInv(l, Start(opts, f, l).link);
    }
  }

  /** aout_link_write_symbols: the invariant is kept, every entry of the map is right, and
      there is room for the records in a buffer of one more than the symbols. */
  function WriteSymbols(opts: Options, f: File, l: Link): (s: Pass)
    requires FileOk(f, l.table) && Inv(l)
    ensures PassInv(f, l, s, |f.syms|)
  {
    StartOk(opts, f, l);
    Steps(opts, f, Start(opts, f, l), 0, |f.syms|, l)
  }

  // ----- the relocs of a file, and the rest of the link

  /** A reloc against symbol i of the file, in a relocatable link: a global symbol that was
      left out must be written after all. */
  function ForceSymbol(opts: Options, s: Pass, l: Link, i: nat): Link
    requires |s.hashes| == |s.map_| && LinksOk(l.table)
    requires forall j :: 0 <= j < |s.hashes| && s.hashes[j].Some? ==> s.hashes[j].value < |l.table|
  {
    if i < |s.map_| && s.map_[i] == -1 && s.hashes[i].Some? then Force(opts, l, s.hashes[i].value) else l
  }

  function ForceSymbols(opts: Options, f: File, s: Pass, l: Link, wanted: seq<nat>): (l': Link)
    requires Inv(l) && PassOk(f, s) && SameKinds(s.link.table, l.table)
    ensures Inv(l') && SameKinds(l.table, l'.table)
  {
    if wanted == [] then l
    else
      var rest, i := wanted[..|wanted| - 1], wanted[|wanted| - 1];
      var before := ForceSymbols(opts, f, s, l, rest);
      if i < |s.map_| && s.hashes[i].Some? then
        ForceOutcome(opts, before, s.hashes[i].value);
        ForceSymbol(opts, s, before, i)
      else before
  }

  /** What the linker does with the symbols: it links a file, whose relocs want certain
      symbols; it writes a global symbol on its own account; or it needs one for a reloc of
      its own. */
  datatype Action = LinkFile(f: File, wanted: seq<nat>) | WriteOne(e: nat) | Need(e: nat)

  predicate ActionOk(table: seq<Entry>, a: Action) {
    match a
    case LinkFile(f, _) => FileOk(f, table)
    case WriteOne(e) => e < |table|
    case Need(e) => e < |table|
  }

  function Act(opts: Options, l: Link, a: Action): (l': Link)
    requires Inv(l) && ActionOk(l.table, a)
    ensures Inv(l') && SameKinds(l.table, l'.table)
  {
    match a
    case LinkFile(f, wanted) =>
      var s := WriteSymbols(opts, f, l);
      ForceSymbols(opts, f, s, s.link, wanted)
    case WriteOne(e) =>
      WriteOtherKeeps(opts, l, e);
      WriteOther(opts, l, e)
    case Need(e) =>
      ForceOutcome(opts, l, e);
      Force(opts, l, e)
  }

  // ----- nothing is lost, if nothing is stripped

  /** Symbols that are done with and can have a record have one. */
  predicate Settled(l: Link) {
    forall e :: 0 <= e < |l.table| && l.table[e].written && Writable(l.table[e].kind) ==> l.table[e].indx >= 0
  }

  lemma WriteGlobalSettles(opts: Options, l: Link, e: nat)
    requires Inv(l) && Settled(l) && e < |l.table| && opts.strip == StripNone
    ensures Settled(WriteGlobal(opts, l, e))
  {
    GlobalRecordIff(l.table, e);
  }

  lemma WriteOtherSettles(opts: Options, l: Link, e: nat)
    requires Inv(l) && Settled(l) && e < |l.table| && opts.strip == StripNone
    ensures Settled(WriteOther(opts, l, e))
  {
    WriteGlobalSettles(opts, l, if l.table[e].kind.Warning? then l.table[e].kind.link else e);
  }

  lemma ForceSettles(opts: Options, l: Link, e: nat)
    requires Inv(l) && Settled(l) && e < |l.table| && opts.strip == StripNone
    ensures Settled(Force(opts, l, e))
  {
    GlobalRecordIff(l.table, e);
    ForceOutcome(opts, l, e);
    if l.table[e].indx < 0 {
      var m := l.(table := l.table[e := l.table[e].(indx := -2, written := false)]);
      GlobalRecordIff(m.table, if m.table[e].kind.Warning? then m.table[e].kind.link else e);
    }
  }

  lemma StepSettles(opts: Options, f: File, s: Pass, i: nat)
    requires PassOk(f, s) && i < |f.syms| && Settled(s.link) && opts.strip == StripNone
    ensures Settled(Step(opts, f, s, i).link)
  {
    hide Choose, DiscardsLocal, Total, Mark, Base;
  }

  lemma {:induction false} StepsSettle(opts: Options, f: File, s: Pass, i: nat, n: nat, l: Link)
    requires PassInv(f, l, s, i) && i <= n <= |f.syms| && Settled(s.link) && opts.strip == StripNone
    ensures Settled(Steps(opts, f, s, i, n, l).link)
    decreases n - i
  {
    if i < n {
      StepSteps(opts, f, s, i);
      PassStep(f, l, s, Step(opts, f, s, i), i);
      StepSettles(opts, f, s, i);
      StepsSettle(opts, f, Step(opts, f, s, i), i + 1, n, l);
    }
  }

  lemma {:induction false} ForceSymbolsSettle(opts: Options, f: File, s: Pass, l: Link, wanted: seq<nat>)
    requires Inv(l) && PassOk(f, s) && SameKinds(s.link.table, l.table) && Settled(l) && opts.strip == StripNone
    ensures Settled(ForceSymbols(opts, f, s, l, wanted))
    decreases |wanted|
  {
    if wanted != [] {
      var rest, i := wanted[..|wanted| - 1], wanted[|wanted| - 1];
      ForceSymbolsSettle(opts, f, s, l, rest);
      if i < |s.map_| && s.hashes[i].Some? {
        ForceSettles(opts, ForceSymbols(opts, f, s, l, rest), s.hashes[i].value);
      }
    }
  }

  lemma ActSettles(opts: Options, l: Link, a: Action)
    requires Inv(l) && ActionOk(l.table, a) && Settled(l) && opts.strip == StripNone
    ensures Settled(Act(opts, l, a))
  {
    match a
    case LinkFile(f, wanted) =>
      StartOk(opts, f, l);
      StepsSettle(opts, f, Start(opts, f, l), 0, |f.syms|, l);
      var s := WriteSymbols(opts, f, l);
      ForceSymbolsSettle(opts, f, s, s.link, wanted);
    case WriteOne(e) =>
      WriteOtherSettles(opts, l, e);
    case Need(e) =>
      ForceSettles(opts, l, e);
  }

  /** The invariant, and that nothing is lost. */
  predicate Good(opts: Options, l: Link) {
    Inv(l) && (opts.strip == StripNone ==> Settled(l))
  }

  lemma ActGood(opts: Options, l: Link, a: Action)
    requires Good(opts, l) && ActionOk(l.table, a)
    ensures Good(opts, Act(opts, l, a))
  {
    if opts.strip == StripNone {
      ActSettles(opts, l, a);
    }
  }

  lemma WriteOtherGood(opts: Options, l: Link, e: nat)
    requires Good(opts, l) && e < |l.table|
    ensures Good(opts, WriteOther(opts, l, e)) && SameKinds(l.table, WriteOther(opts, l, e).table)
  {
    WriteOtherKeeps(opts, l, e);
    if opts.strip == StripNone {
      WriteOtherSettles(opts, l, e);
    }
  }

  // ----- over any link

  predicate Fresh(table: seq<Entry>) {
    LinksOk(table) && forall e :: 0 <= e < |table| ==> !table[e].written && table[e].indx == -1
  }

  predicate ActionsOk(table: seq<Entry>, actions: seq<Action>) {
    forall k :: 0 <= k < |actions| ==> ActionOk(table, actions[k])
  }

  lemma ActionStays(t: seq<Entry>, u: seq<Entry>, a: Action)
    requires SameKinds(t, u) && ActionOk(t, a)
    ensures ActionOk(u, a)
  {
    if a.LinkFile? {
      LinksStay(t, u);
    }
  }

  /** The link after the first n actions. */
  function Run(opts: Options, l: Link, actions: seq<Action>, n: nat): (l': Link)
    requires Good(opts, l) && ActionsOk(l.table, actions) && n <= |actions|
    ensures Good(opts, l') && SameKinds(l.table, l'.table)
  {
    if n == 0 then l
    else
      var before := Run(opts, l, actions, n - 1);
      ActionStays(l.table, before.table, actions[n - 1]);
      ActGood(opts, before, actions[n - 1]);
      SameKindsTransitive(l.table, before.table, Act(opts, before, actions[n - 1]).table);
      Act(opts, before, actions[n - 1])
  }

  function Begin(table: seq<Entry>): Link {
    Link(table, [], [])
  }

  lemma FreshInv(opts: Options, table: seq<Entry>)
    requires Fresh(table)
    ensures Good(opts, Begin(table))
  {
  }

  /** Whatever is linked in whatever order, with stripping and with symbols forced out: a
      record belongs to a global symbol exactly if its number is the symbol's.  So every
      global symbol has at most one record, and a number that is not negative if and only
      if it has one. */
  lemma {:induction false} OneRecordPerGlobal(opts: Options, table: seq<Entry>, actions: seq<Action>)
    requires Fresh(table) && ActionsOk(table, actions)
    ensures Good(opts, Begin(table))
    ensures var l := Run(opts, Begin(table), actions, |actions|);
            && |l.table| == |table|
            && (forall e, k ::
                0 <= e < |table| && 0 <= k < |l.records| ==> (l.records[k].owner == Some(e) <==> l.table[e].indx == k))
            && (forall e :: 0 <= e < |table| ==> -2 <= l.table[e].indx < |l.records|)
  {
    FreshInv(opts, table);
    var l := Run(opts, Begin(table), actions, |actions|);
    forall e | 0 <= e < |table| ensures -2 <= l.table[e].indx < |l.records| {
      assert EntryOk(l, e);
    }
    forall e, k | 0 <= e < |table| && 0 <= k < |l.records|
      ensures l.records[k].owner == Some(e) <==> l.table[e].indx == k
    {
      assert EntryOk(l, e) && RecordOk(l, k);
    }
  }

  // ----- the map of a file, exactly

  /** Doing some steps and then more is doing them all. */
  lemma {:induction false} StepsJoin(opts: Options, f: File, s: Pass, i: nat, m: nat, n: nat, l: Link)
    requires PassInv(f, l, s, i) && i <= m <= n <= |f.syms|
    ensures Steps(opts, f, s, i, n, l) == Steps(opts, f, Steps(opts, f, s, i, m, l), m, n, l)
    decreases m - i
  {
    if i < m {
      StepSteps(opts, f, s, i);
      PassStep(f, l, s, Step(opts, f, s, i), i);
      StepsJoin(opts, f, Step(opts, f, s, i), i + 1, m, n, l);
    }
  }

  /** Entries that are done with, and the hash entries of symbols already looked at, stay. */
  lemma {:induction false} StepsKeep(opts: Options, f: File, s: Pass, i: nat, n: nat, l: Link)
    requires PassInv(f, l, s, i) && i <= n <= |f.syms|
    ensures forall e :: 0 <= e < |s.link.table| && s.link.table[e].written ==>
              Steps(opts, f, s, i, n, l).link.table[e] == s.link.table[e]
    ensures forall j :: 0 <= j < i ==> Steps(opts, f, s, i, n, l).hashes[j] == s.hashes[j]
    decreases n - i
  {
    if i < n {
      StepSteps(opts, f, s, i);
      PassStep(f, l, s, Step(opts, f, s, i), i);
      StepsKeep(opts, f, Step(opts, f, s, i), i + 1, n, l);
    }
  }

  /** The state in which the loop comes to symbol j. */
  function Before(opts: Options, f: File, l: Link, j: nat): (s: Pass)
    requires FileOk(f, l.table) && Inv(l) && j <= |f.syms|
    ensures PassInv(f, l, s, j)
  {
    StartOk(opts, f, l);
    Steps(opts, f, Start(opts, f, l), 0, j, l)
  }

  lemma BeforeNext(opts: Options, f: File, l: Link, j: nat)
    requires FileOk(f, l.table) && Inv(l) && j < |f.syms|
    ensures Before(opts, f, l, j + 1) == Step(opts, f, Before(opts, f, l, j), j)
  {
    StartOk(opts, f, l);
    var s := Before(opts, f, l, j);
    StepsJoin(opts, f, Start(opts, f, l), 0, j, j + 1, l);
    StepSteps(opts, f, s, j);
    PassStep(f, l, s, Step(opts, f, s, j), j);
  }

  /** The loop looks at symbol j for itself, and its hash entry has been forced out in vain. */
  predicate Leaks(f: File, s: Pass, j: nat)
    requires PassOk(f, s) && j < |f.syms|
  {
    && s.map_[j] != -1 && !s.pass && !s.skipNext
    && s.hashes[j].Some? && s.link.table[s.hashes[j].value].written && s.link.table[s.hashes[j].value].indx == -2
  }

  lemma StepLeaksIff(opts: Options, f: File, s: Pass, i: nat)
    requires PassOk(f, s) && i < |f.syms| && s.map_[i] in {0, -1}
    ensures Step(opts, f, s, i).map_[i] == -2 <==> Leaks(f, s, i)
  {
    var s1 := s.(map_ := s.map_[i := -1]);
    if s.map_[i] == 0 && !s.pass && !s.skipNext {
      if s.hashes[i].None? {
        SettledNow(opts, f, s1, i);
      } else if !s.link.table[s.hashes[i].value].written {
        SettledNowGlobal(opts, f, s1, i, s.hashes[i].value);
      }
    }
  }

  lemma SettledNow(opts: Options, f: File, s: Pass, i: nat)
    requires PassOk(f, s) && i < |f.syms| && s.map_[i] == -1
    ensures StepLocal(opts, f, s, i).map_[i] >= -1
  {
    var c := Choose(f, f.syms[i], None);
    CopyCopies(f, s.(pass := c.pass, skipNext := c.skipNext), i, c.etype, f.syms[i].name, c.value, None);
  }

  lemma SettledNowGlobal(opts: Options, f: File, s: Pass, i: nat, h: nat)
    requires PassOk(f, s) && i < |f.syms| && s.map_[i] == -1 && h < |s.link.table|
    ensures StepGlobal(opts, f, s, i, h).map_[i] >= -1
  {
    var name, l := NameOf(s, i, f.syms[i]), s.link;
    var c := Choose(f, f.syms[i], Some(l.table[Base(l.table, h)].kind));
    var table := l.table[h := l.table[h].(written := true, indx := |l.records|)];
    LinksStay(l.table, table);
    CopyCopies(f, s.(link := l.(table := table), pass := c.pass, skipNext := c.skipNext), i, c.etype, name, c.value,
               Some(h));
  }

  /** A symbol's place in the map holds -2 exactly if it leaks. */
  lemma {:induction false} MapEntryIff(opts: Options, f: File, l: Link, j: nat)
    requires FileOk(f, l.table) && Inv(l) && j < |f.syms|
    ensures WriteSymbols(opts, f, l).map_[j] == -2 <==> Leaks(f, Before(opts, f, l, j), j)
  {
    StartOk(opts, f, l);
    var s := Before(opts, f, l, j);
    StepsJoin(opts, f, Start(opts, f, l), 0, j, |f.syms|, l);
    StepLeaksIff(opts, f, s, j);
    StepSteps(opts, f, s, j);
    PassStep(f, l, s, Step(opts, f, s, j), j);
  }

  /** What the map should hold: -1, or the number of the symbol's own record. */
  predicate Sound(l: Link, f: File, j: nat, m: int)
    requires j < |f.syms| == |f.hashes|
  {
    m == -1 || (0 <= m < |l.records| && l.records[m].owner in {None, f.hashes[j]}
                && (l.records[m].owner.None? ==> l.records[m].name == f.syms[j].name))
  }

  /** The whole map is sound exactly if no symbol leaks. */
  lemma MapIsSoundIff(opts: Options, f: File, l: Link)
    requires FileOk(f, l.table) && Inv(l)
    ensures var s := WriteSymbols(opts, f, l);
            (forall j :: 0 <= j < |f.syms| ==> Sound(s.link, f, j, s.map_[j]))
            <==> (forall j :: 0 <= j < |f.syms| ==> !Leaks(f, Before(opts, f, l, j), j))
  {
    var s := WriteSymbols(opts, f, l);
    forall j | 0 <= j < |f.syms|
      ensures Sound(s.link, f, j, s.map_[j]) <==> !Leaks(f, Before(opts, f, l, j), j)
    {
      MapEntryIff(opts, f, l, j);
      assert MapEntryOk(s.link, f, j, s.map_[j]);
    }
  }

  /** Only entries that were at -2 before the file can leak. */
  lemma LeaksWereStuck(opts: Options, f: File, l: Link, j: nat)
    requires FileOk(f, l.table) && Inv(l) && j < |f.syms|
    ensures Leaks(f, Before(opts, f, l, j), j) ==> f.hashes[j].Some? && l.table[f.hashes[j].value].indx == -2
  {
    var s := Before(opts, f, l, j);
    assert s.hashes[j] == f.hashes[j];
  }

  /** In particular the map is sound as long as no symbol has been forced out in vain. */
  lemma MapIsSound(opts: Options, f: File, l: Link)
    requires FileOk(f, l.table) && Inv(l) && forall e :: 0 <= e < |l.table| ==> l.table[e].indx != -2
    ensures var s := WriteSymbols(opts, f, l);
            forall j :: 0 <= j < |f.syms| ==> Sound(s.link, f, j, s.map_[j])
  {
    MapIsSoundIff(opts, f, l);
    forall j | 0 <= j < |f.syms| ensures !Leaks(f, Before(opts, f, l, j), j) {
      LeaksWereStuck(opts, f, l, j);
    }
  }

  /** A file whose first symbol has been forced out in vain gets -2 for its number, and the
      relocs against it will not notice, because they look for -1. */
  lemma StuckSymbolLeaks(opts: Options, f: File, l: Link, e: nat)
    requires FileOk(f, l.table) && Inv(l) && e < |l.table| && l.table[e].indx == -2 && l.table[e].written
    requires f.syms != [] && f.hashes[0] == Some(e)
    ensures WriteSymbols(opts, f, l).map_[0] == -2
  {
    MapEntryIff(opts, f, l, 0);
  }

  /** That happens to a weak undefined symbol that was stripped and that a reloc needs. */
  lemma WeakUndefinedLeaks(opts: Options, f: File, l: Link, e: nat)
    requires Inv(l) && e < |l.table| && l.table[e].kind.UndefWeak? && l.table[e].indx < 0
    requires FileOk(f, Force(opts, l, e).table) && f.syms != [] && f.hashes[0] == Some(e)
    ensures Inv(Force(opts, l, e)) && WriteSymbols(opts, f, Force(opts, l, e)).map_[0] == -2
  {
    ForceOutcome(opts, l, e);
    StuckSymbolLeaks(opts, f, Force(opts, l, e), e);
  }

  lemma StrippedStep(opts: Options, f: File, s: Pass, i: nat, e: nat)
    requires PassOk(f, s) && i < |f.syms| && s.map_[i] == 0 && !s.pass && !s.skipNext
    requires s.hashes[i] == Some(e) && !s.link.table[e].written && !IsLink(s.link.table[e].kind)
    requires Strips(opts, f.syms[i].etype, s.link.table[e].name)
    ensures var s' := Step(opts, f, s, i);
            && |s'.map_| == |s.map_| && s'.map_[i] == -1 && |s'.hashes| == |s.hashes| && s'.hashes[i] == Some(e)
            && |s'.link.table| == |s.link.table| && s'.link.table[e] == s.link.table[e].(written := true)
  {
    hide Choose, Copy, Strips;
  }

  /** A stripped symbol: it is done with, but has no record. */
  lemma {:induction false} FirstStripped(opts: Options, table: seq<Entry>, e: nat, f: File)
    requires Fresh(table) && FileOk(f, table) && e < |table| && table[e].kind.UndefWeak?
    requires f.syms != [] && f.hashes[0] == Some(e) && Strips(opts, f.syms[0].etype, table[e].name)
    ensures Inv(Begin(table))
    ensures var s := WriteSymbols(opts, f, Begin(table));
            s.map_[0] == -1 && s.hashes[0] == Some(e) && s.link.table[e] == table[e].(written := true)
  {
    hide Step, Stepped, EntryOk, RecordOk, NoneStuckBut;
    FreshInv(opts, table);
    var l := Begin(table);
    StartOk(opts, f, l);
    var s := Start(opts, f, l);
    StepSteps(opts, f, s, 0);
    StrippedStep(opts, f, s, 0, e);
    PassStep(f, l, s, Step(opts, f, s, 0), 0);
    StepsKeep(opts, f, Step(opts, f, s, 0), 1, |f.syms|, l);
  }

  /** And so it does in a link from its beginning: the first file's weak undefined symbol is
      stripped, a reloc of that file needs it, and the next file that uses it is linked. */
  lemma {:induction false} StrippedWeakLeaks(opts: Options, table: seq<Entry>, e: nat, f: File, g: File)
    requires Fresh(table) && FileOk(f, table) && FileOk(g, table) && e < |table| && table[e].kind.UndefWeak?
    requires f.syms != [] && f.hashes[0] == Some(e) && Strips(opts, f.syms[0].etype, table[e].name)
    requires g.syms != [] && g.hashes[0] == Some(e)
    ensures Good(opts, Begin(table)) && ActionsOk(table, [LinkFile(f, [0])])
    ensures var l := Run(opts, Begin(table), [LinkFile(f, [0])], 1);
            FileOk(g, l.table) && WriteSymbols(opts, g, l).map_[0] == -2
  {
    FreshInv(opts, table);
    FirstStripped(opts, table, e, f);
    var actions := [LinkFile(f, [0])];
    assert Run(opts, Begin(table), actions, 0) == Begin(table);
    var s := WriteSymbols(opts, f, Begin(table));
    var l := Run(opts, Begin(table), actions, 1);
    assert ForceSymbols(opts, f, s, s.link, [0]) == Force(opts, s.link, e) by {
      assert [0][..0] == [];
    }
    assert l == Force(opts, s.link, e);
    ActionStays(table, l.table, LinkFile(g, []));
    SameKindsTransitive(table, s.link.table, l.table);
    WeakUndefinedLeaks(opts, g, s.link, e);
  }

  /** The traversal of the hash table at the end, as far as the first n entries. */
  function Traverse(opts: Options, l: Link, n: nat): (l': Link)
    requires Good(opts, l) && n <= |l.table|
    ensures Good(opts, l') && SameKinds(l.table, l'.table) && WrittenTo(l', n)
  {
    if n == 0 then l
    else
      var before := Traverse(opts, l, n - 1);
      WriteOtherGood(opts, before, n - 1);
      WriteOtherMarks(opts, before, n - 1);
      SameKindsTransitive(l.table, before.table, WriteOther(opts, before, n - 1).table);
      WriteOther(opts, before, n - 1)
  }

  predicate WrittenTo(l: Link, n: nat) {
    n <= |l.table| && forall e :: 0 <= e < n && !l.table[e].kind.Warning? ==> l.table[e].written
  }

  lemma WriteOtherMarks(opts: Options, l: Link, n: nat)
    requires LinksOk(l.table) && n < |l.table| && WrittenTo(l, n)
    ensures WrittenTo(WriteOther(opts, l, n), n + 1)
  {
  }

  /** The link after the last action and the traversal of its hash table. */
  function End(opts: Options, table: seq<Entry>, actions: seq<Action>): (end: Link)
    requires Fresh(table) && ActionsOk(table, actions)
    ensures Good(opts, end) && SameKinds(table, end.table)
  {
    FreshInv(opts, table);
    var l := Run(opts, Begin(table), actions, |actions|);
    SameKindsTransitive(table, l.table, Traverse(opts, l, |table|).table);
    Traverse(opts, l, |table|)
  }

  /** When nothing is stripped, nothing is lost: at the end every undefined, defined or
      common symbol of the hash table has its record, and by OneRecordPerGlobal only one. */
  lemma {:induction false} NothingIsLost(opts: Options, table: seq<Entry>, actions: seq<Action>)
    requires Fresh(table) && ActionsOk(table, actions) && opts.strip == StripNone
    ensures Good(opts, Begin(table))
    ensures var l := Run(opts, Begin(table), actions, |actions|);
            var end := Traverse(opts, l, |l.table|);
            && |end.table| == |table|
            && forall e :: 0 <= e < |table| && Writable(table[e].kind) ==>
                 0 <= end.table[e].indx < |end.records| && end.records[end.table[e].indx].owner == Some(e)
  {
    FreshInv(opts, table);
    var l := Run(opts, Begin(table), actions, |actions|);
    var end := Traverse(opts, l, |l.table|);
    SameKindsTransitive(table, l.table, end.table);
    forall e | 0 <= e < |table| && Writable(table[e].kind)
      ensures 0 <= end.table[e].indx < |end.records| && end.records[end.table[e].indx].owner == Some(e)
    {
      assert EntryOk(end, e);
    }
  }
}
