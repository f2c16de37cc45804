/** Where the sections of an a.out file go: object files (OMAGIC) and files that are paged
    in (ZMAGIC, QMAGIC). */
module AoutLayout {
  import opened Rounding

  const ADDRESSES: int := 0x1_0000_0000_0000_0000

  /** A section's place in the file and in memory. */
  datatype Sect = Sect(filepos: int, vma: int, size: int, userSetVma: bool)

  datatype Layout = Layout(text: Sect, data: Sect, bss: Sect, aText: int, aData: int, aBss: int)

  /** What the target says about paged files; sizes of pages and segments and the alignment
      of the bss are powers of two. */
  datatype Target = Target(execBytes: nat, diskBlock: nat, pageSize: int, segmentSize: int, bssAlign: int,
                           defaultVma: int, headerInText: bool, contiguous: bool, headerNotCounted: bool,
                             hasReloc: bool)
  {
    predicate Valid() {
      pageSize > 0 && segmentSize > 0 && bssAlign > 0
    }
  }

  class Section {
    var filepos: int
    var vma: int
    var size: int
    var userSetVma: bool

    constructor (s: Sect)
      ensures Value() == s
    {
      filepos, vma, size, userSetVma := s.filepos, s.vma, s.size, s.userSetVma;
    }

    ghost function Value(): Sect
      reads this
    {
      Sect(filepos, vma, size, userSetVma)
    }
  }

  // ----- adjust_o_magic

  function OText(t: Sect, header: nat): Sect {
    t.(filepos := header, vma := if t.userSetVma then t.vma else 0)
  }

  /** The data as it is placed, before a gap in front of the bss is filled. */
  function OData(t: Sect, d: Sect, header: nat): Sect {
    d.(filepos := header + t.size, vma := if d.userSetVma then d.vma else OText(t, header).vma + t.size)
  }

  /** The zeros between the data and a bss that was put further up. */
  function OGap(d: Sect, b: Sect): int {
    if b.userSetVma && b.vma > d.vma + d.size then b.vma - (d.vma + d.size) else 0
  }

  function OLayout(t: Sect, d: Sect, b: Sect, header: nat): Layout {
    var text, data := OText(t, header), OData(t, d, header);
    var gap := OGap(data, b);
    var bss := b.(filepos := data.filepos + d.size + gap, vma := if b.userSetVma then b.vma else data.vma + d.size);
    Layout(text, data.(size := d.size + gap), bss, t.size, d.size + gap, b.size)
  }

  /** In an object file the three follow each other without a hole, and the header says so;
      in memory the bss follows the data unless it was put below the data's end. */
  lemma OMagicContiguous(t: Sect, d: Sect, b: Sect, header: nat)
    ensures var l := OLayout(t, d, b, header);
            && l.text.filepos == header
            && l.data.filepos == l.text.filepos + l.text.size && l.bss.filepos == l.data.filepos + l.data.size
            && l.data.filepos == header + l.aText && l.bss.filepos == header + l.aText + l.aData
            && (l.bss.vma == l.data.vma + l.data.size <==> !b.userSetVma || b.vma >= OData(t, d, header).vma + d.size)
  {
  }

  /** In memory the text starts at its user's address or at 0, the data at its own or behind
      the text, the bss likewise behind the data as they were; data is made longer only to
      reach up to a bss that its user put above its end. */
  lemma OMagicPlaces(t: Sect, d: Sect, b: Sect, header: nat)
    ensures var l := OLayout(t, d, b, header);
            && l.text.vma == (if t.userSetVma then t.vma else 0)
            && l.data.vma == (if d.userSetVma then d.vma else l.text.vma + t.size)
            && l.bss.vma == (if b.userSetVma then b.vma else l.data.vma + d.size)
            && l.text.size == l.aText == t.size && l.bss.size == l.aBss == b.size && l.aData == l.data.size >= d.size
            && (l.data.size > d.size ==> b.userSetVma && l.data.vma + l.data.size == b.vma)
            && (b.userSetVma && b.vma > l.data.vma + d.size ==> l.data.size > d.size)
  {
  }

  method AdjustOMagic(text: Section, data: Section, bss: Section, header: nat)
      returns (aText: int, aData: int, aBss: int)
    requires text != data && data != bss && text != bss
    modifies text, data, bss
    ensures Layout(text.Value(), data.Value(), bss.Value(), aText, aData, aBss)
            == OLayout(old(text.Value()), old(data.Value()), old(bss.Value()), header)
  {
    var pos, vma, pad: int := header, 0, 0;
    text.filepos := pos;
    if !text.userSetVma {
      text.vma := vma;
    } else {
      vma := text.vma;
    }
    pos := pos + text.size;
    vma := vma + text.size;
    if !data.userSetVma {
      text.size := text.size + pad;
      pos := pos + pad;
      vma := vma + pad;
      data.vma := vma;
    } else {
      vma := data.vma;
    }
    data.filepos := pos;
    pos := pos + data.size;
    vma := vma + data.size;
    if !bss.userSetVma {
      data.size := data.size + pad;
      pos := pos + pad;
      vma := vma + pad;
      bss.vma := vma;
    } else {
      pad := bss.vma - vma;
      if pad > 0 {
        data.size := data.size + pad;
        pos := pos + pad;
      }
    }
    bss.filepos := pos;
    aText, aData, aBss := text.size, data.size, bss.size;
  }

  // ----- adjust_z_magic

  /** A size with the padding for an odd address and the padding to the end of a page. */
  function PaddedSize(size: int, odd: int, end: int, page: int): int
    requires page > 0
  {
    size + odd + (RoundUp(end, page) - end)
  }

  /** What an odd address of the text takes, if its place in a page should be `start`. */
  function OddPad(start: int, vma: int, page: int): int
    requires page > 0
  {
    (start - vma) % page
  }

  /** The text: where it starts, and how it is padded to the end of a page. */
  function ZText(t: Sect, g: Target): Sect
    requires g.Valid()
  {
    var start := if g.headerInText then g.execBytes else 0;
    var vma :=
      if t.userSetVma then t.vma
      else if g.hasReloc then 0
      else if g.headerInText then g.defaultVma + g.execBytes
      else g.defaultVma;
    t.(filepos := if g.headerInText then g.execBytes else g.diskBlock, vma := vma,
       size := PaddedSize(t.size, if t.userSetVma then OddPad(start, t.vma, g.pageSize) else 0, start + t.size,
                          g.pageSize))
  }

  /** Where the data goes in memory. */
  function ZDataVma(text: Sect, d: Sect, g: Target): int
    requires g.Valid()
  {
    if d.userSetVma then d.vma else RoundUp(text.vma + text.size, g.segmentSize)
  }

  /** A size made longer so that it reaches up to an address, in the arithmetic of
      addresses. */
  function Stretched(vma: int, size: int, dataVma: int): int {
    (size + (dataVma - (vma + size)) % ADDRESSES) % ADDRESSES
  }

  /** A text that has to reach up to the data is made longer. */
  function ZStretch(text: Sect, dataVma: int, g: Target): Sect {
    if g.contiguous then text.(size := Stretched(text.vma, text.size, dataVma)) else text
  }

  function ZLayout(t: Sect, d: Sect, b: Sect, g: Target): Layout
    requires g.Valid()
  {
    var padded := ZText(t, g);
    var dataVma := ZDataVma(padded, d, g);
    var text := ZStretch(padded, dataVma, g);
    var size := RoundUp(d.size, g.bssAlign);
    var data := d.(filepos := text.filepos + text.size, vma := dataVma, size := size);
    var aData := RoundUp(size, g.pageSize);
    var bss := b.(vma := if b.userSetVma then b.vma else dataVma + size);
    var aBss :=
      if RoundUp(bss.vma, g.bssAlign) != dataVma + size then b.size
      else if aData - size > b.size then 0
      else b.size - (aData - size);
    Layout(text, data, bss, text.size + if g.headerInText && !g.headerNotCounted then g.execBytes else 0, aData, aBss)
  }

  lemma {:induction false} Residue(x: int, n: int) returns (q: int)
    requires n > 0
    ensures x % n == x - n * q
  {
    q := x / n;
  }

  lemma {:induction false} MultipleShift(x: int, y: int, q: int, n: int)
    requires n > 0 && x == y + n * q
    ensures x % n == 0 <==> y % n == 0
  {
    MultipleOf(q, n);
    if x % n == 0 {
      MultiplesSubtract(x, n * q, n);
    }
    if y % n == 0 {
      MultipleOf(-q, n);
      MultiplesSubtract(y, n * -q, n);
      NegativeProduct(n, q);
    }
  }

  lemma NegativeProduct(n: int, q: int)
    ensures n * -q == -(n * q)
  {
  }

  /** Where the address behind the padded text comes from, when nobody chose the text's. */
  function Origin(g: Target): int {
    if g.hasReloc then (if g.headerInText then 0 - (g.execBytes as int) else 0) else g.defaultVma
  }

  /** The address behind this many bytes is the start of a page. */
  predicate EndsPage(vma: int, size: int, page: int)
    requires page > 0
  {
    (vma + size) % page == 0
  }

  /** One padding makes up for the address, the other for the size. */
  lemma {:induction false} TwoPads(v: int, size: int, start: int, end: int, n: int)
    requires n > 0 && end == start + size
    ensures EndsPage(v, PaddedSize(size, OddPad(start, v, n), end, n), n)
  {
    var q := Residue(RoundUp(end, n), n);
    var r := Residue(start - v, n);
    SumOfMultiples(n, q, r);
    MultipleOf(q - r, n);
  }

  lemma {:induction false} OnePad(v: int, size: int, start: int, end: int, n: int, origin: int)
    requires n > 0 && end == start + size && origin == v - start
    ensures EndsPage(v, PaddedSize(size, 0, end, n), n) <==> origin % n == 0
  {
    var q := Residue(RoundUp(end, n), n);
    MultipleShift(v + PaddedSize(size, 0, end, n), origin, q, n);
  }

  /** The address behind the padded text is the start of a page whenever the text's own
      address was chosen by the user, and otherwise exactly if its origin is. */
  lemma {:induction false} PaddedTextEndsPage(t: Sect, g: Target)
    requires g.Valid()
    ensures EndsPage(ZText(t, g).vma, ZText(t, g).size, g.pageSize) <==> t.userSetVma || Origin(g) % g.pageSize == 0
  {
    var start := if g.headerInText then g.execBytes else 0;
    if t.userSetVma {
      TwoPads(t.vma, t.size, start, start + t.size, g.pageSize);
    } else {
      OnePad(ZText(t, g).vma, t.size, start, start + t.size, g.pageSize, Origin(g));
    }
  }

  lemma SumOfMultiples(n: int, q: int, r: int)
    ensures n * q - n * r == n * (q - r)
  {
  }

  /** Two addresses are the same. */
  predicate SameAddress(a: int, b: int) {
    (a - b) % ADDRESSES == 0
  }

  lemma {:induction false} StretchReaches(v: int, size: int, d: int)
    ensures SameAddress(v + Stretched(v, size, d), d)
  {
    var gap := d - (v + size);
    var q := Residue(gap, ADDRESSES);
    var r := Residue(size + gap % ADDRESSES, ADDRESSES);
    NegativeProduct(ADDRESSES, q);
    SumOfMultiples(ADDRESSES, -q, r);
    MultipleOf(-q - r, ADDRESSES);
  }

  /** Where data must follow text without a gap, the stretched text ends where the data
      starts, in the arithmetic of addresses. */
  lemma {:induction false} ContiguousMeets(t: Sect, d: Sect, b: Sect, g: Target)
    requires g.Valid() && g.contiguous
    ensures var l := ZLayout(t, d, b, g); SameAddress(l.text.vma + l.text.size, l.data.vma)
  {
    var text := ZText(t, g);
    StretchReaches(text.vma, text.size, ZDataVma(text, d, g));
  }

  /** The data starts in the file where the text ends, and when the bss follows it directly,
      the header gives the bss only what does not fit into the last page of the data.  In
      any other place that is so only if there is nothing to share. */
  lemma BssSharesLastPage(t: Sect, d: Sect, b: Sect, g: Target)
    requires g.Valid() && b.size >= 0
    ensures var l := ZLayout(t, d, b, g);
            && l.data.filepos == l.text.filepos + l.text.size && l.aData % g.pageSize == 0 && l.aBss >= 0
            && (l.aData + l.aBss == Max(l.aData, l.data.size + b.size)
                <==> RoundUp(l.bss.vma, g.bssAlign) == l.data.vma + l.data.size || l.aData == l.data.size
                     || b.size == 0)
  {
  }

  function Max(x: int, y: int): int {
    if x < y then y else x
  }

  /** The least multiple of n that is not below x. */
  predicate NextMultiple(x: int, n: int, u: int)
    requires n > 0
  {
    x <= u < x + n && u % n == 0
  }

  /** Where everything goes in a paged file.  An address of the user's own is kept; data
      without one starts with the first segment behind the padded text.  The text is padded
      by less than two pages, and by less than one if its address is not the user's.  Data
      takes up room to the alignment of the bss and, in the header, to the end of a page. */
  lemma ZMagicPlaces(t: Sect, d: Sect, b: Sect, g: Target)
    requires g.Valid()
    ensures var padded, l := ZText(t, g), ZLayout(t, d, b, g);
            && padded.filepos == l.text.filepos == (if g.headerInText then g.execBytes else g.diskBlock)
            && padded.vma == l.text.vma
               == (if t.userSetVma then t.vma
                   else if g.hasReloc then 0
                   else g.defaultVma + if g.headerInText then g.execBytes else 0)
            && 0 <= padded.size - t.size < (if t.userSetVma then 2 else 1) * g.pageSize
            && (!g.contiguous ==> l.text.size == padded.size)
            && l.aText == l.text.size + (if g.headerInText && !g.headerNotCounted then g.execBytes else 0)
            && (if d.userSetVma then l.data.vma == d.vma
                else NextMultiple(padded.vma + padded.size, g.segmentSize, l.data.vma))
            && NextMultiple(d.size, g.bssAlign, l.data.size) && NextMultiple(l.data.size, g.pageSize, l.aData)
            && l.bss.vma == (if b.userSetVma then b.vma else l.data.vma + l.data.size)
            && l.bss.size == b.size && l.bss.filepos == b.filepos
  {
  }

  /** The text and its padding. */
  method PadText(text: Section, g: Target)
    requires g.Valid()
    modifies text
    ensures text.Value() == ZText(old(text.Value()), g)
  {
    var textPad := 0;
    text.filepos := if g.headerInText then g.execBytes else g.diskBlock;
    if !text.userSetVma {
      text.vma := if g.hasReloc then 0 else if g.headerInText then g.defaultVma + g.execBytes else g.defaultVma;
    } else if g.headerInText {
      textPad := OddPad(text.filepos, text.vma, g.pageSize);
    } else {
      textPad := OddPad(0, text.vma, g.pageSize);
    }
    var textEnd := if g.headerInText then text.filepos + text.size else text.size;
    textPad := textPad + (RoundUp(textEnd, g.pageSize) - textEnd);
    text.size := text.size + textPad;
  }

  /** Where the data goes, and the text that may have to reach up to it. */
  method PlaceData(text: Section, data: Section, g: Target)
    requires g.Valid() && text != data
    modifies text, data
    ensures var was := old(text.Value());
            var vma := ZDataVma(was, old(data.Value()), g);
            && text.Value() == ZStretch(was, vma, g)
            && data.Value() == old(data.Value()).(filepos := text.filepos + text.size, vma := vma)
  {
    if !data.userSetVma {
      data.vma := RoundUp(text.vma + text.size, g.segmentSize);
    }
    if g.contiguous {
      text.size := Stretched(text.vma, text.size, data.vma);
    }
    data.filepos := text.filepos + text.size;
  }

  method AdjustZMagic(text: Section, data: Section, bss: Section, g: Target) returns (aText: int, aData: int, aBss: int)
    requires g.Valid() && text != data && data != bss && text != bss
    modifies text, data, bss
    ensures Layout(text.Value(), data.Value(), bss.Value(), aText, aData, aBss)
            == ZLayout(old(text.Value()), old(data.Value()), old(bss.Value()), g)
  {
    hide ZText, ZStretch, ZDataVma;
    PadText(text, g);
    PlaceData(text, data, g);
    aText := text.size;
    if g.headerInText && !g.headerNotCounted {
      aText := aText + g.execBytes;
    }
    data.size := RoundUp(data.size, g.bssAlign);
    aData := RoundUp(data.size, g.pageSize);
    var dataPad := aData - data.size;
    if !bss.userSetVma {
      bss.vma := data.vma + data.size;
    }
    if RoundUp(bss.vma, g.bssAlign) == data.vma + data.size {
      aBss := if dataPad > bss.size then 0 else bss.size - dataPad;
    } else {
      aBss := bss.size;
    }
  }
}
