/** The file positions at which a relocatable link writes relocs: they never run into each
    other or into the symbols. */
module LinkCursors {

  /** The sections relocs are for; nothing else has any. */
  datatype Part = TextPart | DataPart | OtherPart

  /** What the header of an input file says about its relocs. */
  datatype InputFile = InputFile(trsize: nat, drsize: nat)

  /** A link order: a section of an input file, a reloc of the linker's own, or data. */
  datatype Order = Indirect(owner: nat, part: Part) | NewReloc | Fill

  /** A link order of an output section. */
  datatype Placed = Placed(out: Part, order: Order)

  function Size(f: InputFile, k: Part): nat {
    match k
    case TextPart => f.trsize
    case DataPart => f.drsize
    case OtherPart => 0
  }

  /** The sums that final_link computes beforehand. */
  function SumSizes(fs: seq<InputFile>, k: Part, n: nat): nat
    requires n <= |fs|
  {
    if n == 0 then 0 else SumSizes(fs, k, n - 1) + Size(fs[n - 1], k)
  }

  function CountRelocs(orders: seq<Placed>, k: Part, n: nat): nat
    requires n <= |orders|
  {
    if n == 0 then 0
    else CountRelocs(orders, k, n - 1) + if orders[n - 1] == Placed(k, NewReloc) then 1 else 0
  }

  /** How much room is left for the relocs of a section. */
  function Area(fs: seq<InputFile>, orders: seq<Placed>, entry: nat, k: Part): nat {
    SumSizes(fs, k, |fs|) + CountRelocs(orders, k, |orders|) * entry
  }

  lemma {:induction false} SumOfPrefix(fs: seq<InputFile>, f: InputFile, k: Part, n: nat)
    requires n <= |fs|
    ensures SumSizes(fs + [f], k, n) == SumSizes(fs, k, n)
  {
    if n > 0 {
      SumOfPrefix(fs, f, k, n - 1);
    }
  }

  lemma {:induction false} CountOfPrefix(orders: seq<Placed>, p: Placed, k: Part, n: nat)
    requires n <= |orders|
    ensures CountRelocs(orders + [p], k, n) == CountRelocs(orders, k, n)
  {
    if n > 0 {
      CountOfPrefix(orders, p, k, n - 1);
    }
  }

  /** The room for the relocs of the text grows by what a file has for its text, that for
      the data by what it has for its data; either by one entry for a reloc of the linker's
      own there; and by nothing else. */
  lemma AreaGrows(fs: seq<InputFile>, orders: seq<Placed>, entry: nat, f: InputFile, p: Placed)
    ensures Area(fs + [f], orders, entry, TextPart) == Area(fs, orders, entry, TextPart) + f.trsize
    ensures Area(fs + [f], orders, entry, DataPart) == Area(fs, orders, entry, DataPart) + f.drsize
    ensures forall k :: Area(fs, orders + [p], entry, k)
                        == Area(fs, orders, entry, k) + if p.out == k && p.order.NewReloc? then entry else 0
    ensures forall k :: Area([], [], entry, k) == 0
  {
    SumOfPrefix(fs, f, TextPart, |fs|);
    SumOfPrefix(fs, f, DataPart, |fs|);
    forall k: Part
      ensures Area(fs, orders + [p], entry, k)
              == Area(fs, orders, entry, k) + if p.out == k && p.order.NewReloc? then entry else 0
    {
      CountOfPrefix(orders, p, k, |orders|);
      assert (CountRelocs(orders, k, |orders|) + 1) * entry == CountRelocs(orders, k, |orders|) * entry + entry;
    }
  }

  /** The linker has not left out this section of this file. */
  predicate Marked(orders: seq<Placed>, i: nat, k: Part) {
    exists j :: 0 <= j < |orders| && orders[j].order == Indirect(i, k)
  }

  /** The relocs of the files dealt with so far. */
  function Done(fs: seq<InputFile>, orders: seq<Placed>, begun: seq<bool>, k: Part, n: nat): nat
    requires n <= |fs| == |begun|
  {
    if n == 0 then 0
    else Done(fs, orders, begun, k, n - 1) + if begun[n - 1] && Marked(orders, n - 1, k) then Size(fs[n - 1], k) else 0
  }

  /** The relocs dealt with never exceed the sums made beforehand, and reach them exactly
      when no file with relocs was left out. */
  lemma {:induction false} DoneBound(fs: seq<InputFile>, orders: seq<Placed>, begun: seq<bool>, k: Part, n: nat)
    requires n <= |fs| == |begun|
    ensures Done(fs, orders, begun, k, n) <= SumSizes(fs, k, n)
    ensures Done(fs, orders, begun, k, n) == SumSizes(fs, k, n)
            <==> forall i :: 0 <= i < n ==> (begun[i] && Marked(orders, i, k)) || Size(fs[i], k) == 0
  {
    if n > 0 {
      DoneBound(fs, orders, begun, k, n - 1);
    }
  }

  /** Dealing with one more file adds its relocs, if its section is marked. */
  lemma {:induction false} DoneMore(fs: seq<InputFile>, orders: seq<Placed>, begun: seq<bool>, k: Part, n: nat, i: nat)
    requires n <= |fs| == |begun| && i < |fs| && !begun[i]
    ensures Done(fs, orders, begun[i := true], k, n)
            == Done(fs, orders, begun, k, n) + if i < n && Marked(orders, i, k) then Size(fs[i], k) else 0
  {
    if n > 0 {
      DoneMore(fs, orders, begun, k, n - 1, i);
    }
  }

  lemma {:induction false} DoneNone(fs: seq<InputFile>, orders: seq<Placed>, begun: seq<bool>, k: Part, n: nat)
    requires n <= |fs| == |begun| && forall i :: 0 <= i < n ==> !begun[i]
    ensures Done(fs, orders, begun, k, n) == 0
  {
    if n > 0 {
      DoneNone(fs, orders, begun, k, n - 1);
    }
  }

  lemma {:induction false} CountGrows(orders: seq<Placed>, k: Part, n: nat, m: nat)
    requires n <= m <= |orders|
    ensures CountRelocs(orders, k, n) <= CountRelocs(orders, k, m)
    decreases m
  {
    if n < m {
      CountGrows(orders, k, n, m - 1);
    }
  }

  lemma Times(a: nat, b: nat, entry: nat)
    requires a <= b
    ensures a * entry <= b * entry
    ensures (a + 1) * entry == a * entry + entry
  {
  }

  /** The orders name files that there are, and only text and data get relocs. */
  predicate OrdersOk(fs: seq<InputFile>, orders: seq<Placed>) {
    forall j :: 0 <= j < |orders| ==>
      (orders[j].order.Indirect? ==> orders[j].order.owner < |fs|)
        && (orders[j].order.NewReloc? ==> orders[j].out != OtherPart)
  }

  /** The cursors of aout_final_link_info, with the places the callback has chosen. */
  class Cursors {
    const textRel: nat
    const dataRel: nat
    const symPos: nat
    var treloff: nat
    var dreloff: nat

    /** The relocs of the data follow those of the text, and the symbols follow them. */
    constructor (start: nat, trsize: nat, drsize: nat)
      ensures textRel == treloff == start && dataRel == dreloff == start + trsize && symPos == start + trsize + drsize
    {
      textRel, treloff, dataRel, dreloff, symPos := start, start, start + trsize, start + trsize,
                                                    start + trsize + drsize;
    }

    function Cursor(k: Part): nat
      reads this
      requires k != OtherPart
    {
      if k == TextPart then treloff else dreloff
    }

    function From(k: Part): nat
      requires k != OtherPart
    {
      if k == TextPart then textRel else dataRel
    }

    function Limit(k: Part): nat
      requires k != OtherPart
    {
      if k == TextPart then dataRel else symPos
    }

    ghost predicate InBounds()
      reads this
    {
      textRel <= treloff <= dataRel <= dreloff <= symPos
    }

    /** Writes relocs and checks that they have not run into anything. */
    method Advance(k: Part, amount: nat)
      requires k != OtherPart && InBounds() && Cursor(k) + amount <= Limit(k)
      modifies this
      ensures InBounds()
      ensures Cursor(k) == old(Cursor(k)) + amount
      ensures forall j: Part :: j != OtherPart && j != k ==> Cursor(j) == old(Cursor(j))
    {
      if k == TextPart {
        treloff := treloff + amount;
        assert treloff <= symPos && treloff <= dataRel;
      } else {
        dreloff := dreloff + amount;
        assert dreloff <= symPos;
      }
    }

    /** How far the first pass has come. */
    ghost predicate PassOne(fs: seq<InputFile>, orders: seq<Placed>, entry: nat, begun: seq<bool>)
      reads this
    {
      && |begun| == |fs| && InBounds()
      && (forall k: Part :: k != OtherPart ==> Cursor(k) == From(k) + Done(fs, orders, begun, k, |fs|))
      && (forall k: Part :: k != OtherPart ==> Limit(k) == From(k) + Area(fs, orders, entry, k))
    }

    /** One section of an input file, with all its relocs if it is marked. */
    method LinkSection(fs: seq<InputFile>, orders: seq<Placed>, i: nat, k: Part)
      requires i < |fs| && k != OtherPart && InBounds()
      requires Cursor(k) + (if Marked(orders, i, k) then Size(fs[i], k) else 0) <= Limit(k)
      modifies this
      ensures InBounds() && Cursor(k) == old(Cursor(k)) + (if Marked(orders, i, k) then Size(fs[i], k) else 0)
      ensures forall j: Part :: j != OtherPart && j != k ==> Cursor(j) == old(Cursor(j))
    {
      var marked := IsMarked(orders, i, k);
      if marked && Size(fs[i], k) > 0 {
        Advance(k, Size(fs[i], k));
      }
    }

    /** One input file. */
    method LinkInput(fs: seq<InputFile>, orders: seq<Placed>, entry: nat, ghost begun: seq<bool>, i: nat)
      requires PassOne(fs, orders, entry, begun) && i < |fs| && !begun[i]
      modifies this
      ensures PassOne(fs, orders, entry, begun[i := true])
    {
      hide Done, SumSizes, CountRelocs, Marked;
      ghost var after := begun[i := true];
      DoneMore(fs, orders, begun, TextPart, |fs|, i);
      DoneMore(fs, orders, begun, DataPart, |fs|, i);
      DoneBound(fs, orders, after, TextPart, |fs|);
      DoneBound(fs, orders, after, DataPart, |fs|);
      LinkSection(fs, orders, i, TextPart);
      LinkSection(fs, orders, i, DataPart);
    }

    /** How far the second pass has come. */
    ghost predicate PassTwo(fs: seq<InputFile>, orders: seq<Placed>, entry: nat, begun: seq<bool>, n: nat)
      reads this
    {
      && |begun| == |fs| && n <= |orders| && InBounds()
      && (forall k: Part :: k != OtherPart ==>
            Cursor(k) == From(k) + Done(fs, orders, begun, k, |fs|) + CountRelocs(orders, k, n) * entry)
      && (forall k: Part :: k != OtherPart ==> Limit(k) == From(k) + Area(fs, orders, entry, k))
    }

    /** A reloc of the linker's own. */
    method WriteNewReloc(fs: seq<InputFile>, orders: seq<Placed>, entry: nat, ghost begun: seq<bool>, n: nat)
      requires n < |orders| && orders[n].order.NewReloc? && orders[n].out != OtherPart
      requires PassTwo(fs, orders, entry, begun, n)
      modifies this
      ensures PassTwo(fs, orders, entry, begun, n + 1)
    {
      var k := orders[n].out;
      ghost var c := CountRelocs(orders, k, n);
      CountGrows(orders, k, n + 1, |orders|);
      Times(c, c, entry);
      Times(c + 1, CountRelocs(orders, k, |orders|), entry);
      DoneBound(fs, orders, begun, k, |fs|);
      Advance(k, entry);
    }
  }

  method IsMarked(orders: seq<Placed>, i: nat, k: Part) returns (marked: bool)
    ensures marked == Marked(orders, i, k)
  {
    for j := 0 to |orders|
      invariant forall m :: 0 <= m < j ==> orders[m].order != Indirect(i, k)
    {
      if orders[j].order == Indirect(i, k) {
        return true;
      }
    }
    marked := false;
  }

  /** The files that some order has come across. */
  predicate Visited(orders: seq<Placed>, i: nat, n: nat) {
    exists j :: 0 <= j < n && j < |orders| && orders[j].order.Indirect? && orders[j].order.owner == i
  }

  predicate BegunOk(orders: seq<Placed>, begun: seq<bool>, n: nat) {
    forall i :: 0 <= i < |begun| ==> (begun[i] <==> Visited(orders, i, n))
  }

  lemma VisitMore(orders: seq<Placed>, begun: seq<bool>, n: nat)
    requires n < |orders| && BegunOk(orders, begun, n)
    requires orders[n].order.Indirect? ==> orders[n].order.owner < |begun|
    ensures BegunOk(orders, if orders[n].order.Indirect? then begun[orders[n].order.owner := true] else begun, n + 1)
  {
    var after := if orders[n].order.Indirect? then begun[orders[n].order.owner := true] else begun;
    forall i | 0 <= i < |after| ensures after[i] <==> Visited(orders, i, n + 1) {
      assert begun[i] <==> Visited(orders, i, n);
    }
  }

  /** The pass over the input files: each is dealt with when its first order comes up. */
  method LinkInputs(c: Cursors, fs: seq<InputFile>, orders: seq<Placed>, entry: nat, begun: array<bool>)
    requires OrdersOk(fs, orders) && c.PassOne(fs, orders, entry, begun[..]) && BegunOk(orders, begun[..], 0)
    modifies c, begun
    ensures c.PassOne(fs, orders, entry, begun[..]) && BegunOk(orders, begun[..], |orders|)
  {
    for j := 0 to |orders|
      invariant c.PassOne(fs, orders, entry, begun[..]) && BegunOk(orders, begun[..], j)
    {
      VisitMore(orders, begun[..], j);
      if orders[j].order.Indirect? {
        var i := orders[j].order.owner;
        ghost var was := begun[..];
        if !begun[i] {
          c.LinkInput(fs, orders, entry, was, i);
          begun[i] := true;
        }
        assert begun[..] == was[i := true];
      }
    }
  }

  /** The pass over the relocs of the linker's own. */
  method WriteNewRelocs(c: Cursors, fs: seq<InputFile>, orders: seq<Placed>, entry: nat, ghost begun: seq<bool>)
    requires OrdersOk(fs, orders) && c.PassTwo(fs, orders, entry, begun, 0)
    modifies c
    ensures c.PassTwo(fs, orders, entry, begun, |orders|)
  {
    for j := 0 to |orders|
      invariant c.PassTwo(fs, orders, entry, begun, j)
    {
      if orders[j].order.NewReloc? {
        c.WriteNewReloc(fs, orders, entry, begun, j);
      }
    }
  }

  /** The two passes of final_link over the link orders, for a relocatable link.  Every write
      stays in its area, and in the end a cursor has reached the end of its area exactly if
      no file had relocs for a section that was left out. */
  method WriteAllRelocs(fs: seq<InputFile>, orders: seq<Placed>, entry: nat, start: nat) returns (c: Cursors)
    requires OrdersOk(fs, orders)
    ensures c.InBounds() && c.textRel == start
    ensures c.dataRel == start + Area(fs, orders, entry, TextPart)
    ensures c.symPos == c.dataRel + Area(fs, orders, entry, DataPart)
    ensures forall k: Part :: k != OtherPart ==>
              (c.Cursor(k) == c.Limit(k) <==> forall i :: 0 <= i < |fs| ==> Marked(orders, i, k) || Size(fs[i], k) == 0)
  {
    hide Done, SumSizes, Marked;
    c := new Cursors(start, Area(fs, orders, entry, TextPart), Area(fs, orders, entry, DataPart));
    var begun := new bool[|fs|](_ => false);
    DoneNone(fs, orders, begun[..], TextPart, |fs|);
    DoneNone(fs, orders, begun[..], DataPart, |fs|);
    LinkInputs(c, fs, orders, entry, begun);
    WriteNewRelocs(c, fs, orders, entry, begun[..]);
    Full(fs, orders, begun[..], TextPart);
    Full(fs, orders, begun[..], DataPart);
  }

  lemma {:induction false} Full(fs: seq<InputFile>, orders: seq<Placed>, begun: seq<bool>, k: Part)
    requires |begun| == |fs| && BegunOk(orders, begun, |orders|)
    ensures Done(fs, orders, begun, k, |fs|) == SumSizes(fs, k, |fs|)
            <==> forall i :: 0 <= i < |fs| ==> Marked(orders, i, k) || Size(fs[i], k) == 0
  {
    DoneBound(fs, orders, begun, k, |fs|);
    forall i | 0 <= i < |fs| && Marked(orders, i, k) ensures begun[i] {
      var j :| 0 <= j < |orders| && orders[j].order == Indirect(i, k);
      assert Visited(orders, i, |orders|);
    }
  }
}
