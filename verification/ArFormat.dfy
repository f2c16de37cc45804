/** The printed numbers and 60-byte headers of ar archives. */
module ArFormat {
  import opened Bytes

  const SPACE: byte := 32
  const SLASH: byte := 47
  const NEWLINE: byte := 10
  const BACKSLASH: byte := 92
  const NUL: byte := 0
  const ZERO: byte := 48

  const AR_HDR: nat := 60
  const SARMAG: nat := 8
  const ARMAG: seq<byte> := [33, 60, 97, 114, 99, 104, 62, 10]          // !<arch>\n
  const ARFMAG: seq<byte> := [96, 10]                                    // `\n

  /** What a target vector says about the archives it writes. */
  datatype Format = Format(pad: byte, maxName: nat, slash: bool, coff: bool)

  const SVR4 := Format(SLASH, 15, true, true)

  /** The two families: System V, and BSD with 15 (a.out) or 16 (b.out) bytes of name. */
  predicate Known(f: Format) {
    f == SVR4 || (f.pad == SPACE && f.maxName in {15, 16} && !f.slash && !f.coff)
  }

  // ----- numbers

  /** The %ld of a number that is not negative. */
  function Decimal(n: nat): (d: seq<byte>)
    ensures |d| > 0 && forall i :: 0 <= i < |d| ==> IsDigit(d[i])
  {
    if n < 10 then [ZERO + n] else Decimal(n / 10) + [ZERO + n % 10]
  }

  /** The digits strtol consumes, from the i-th on. */
  function Digits(s: seq<byte>, i: nat, value: nat): nat
    requires i <= |s|
    decreases |s| - i
  {
    if i < |s| && IsDigit(s[i]) then Digits(s, i + 1, 10 * value + (s[i] - ZERO)) else value
  }

  /** strtol (s, NULL, 10) on text that starts with blanks or a digit. */
  function Strtol(s: seq<byte>): nat {
    if s != [] && s[0] == SPACE then Strtol(s[1..]) else Digits(s, 0, 0)
  }

  /** value followed by the digits of n. */
  function Shifted(value: nat, n: nat): nat {
    if n < 10 then 10 * value + n else 10 * Shifted(value, n / 10) + n % 10
  }

  lemma {:induction false} DigitsRead(n: nat, pre: seq<byte>, post: seq<byte>, value: nat)
    ensures Digits(pre + Decimal(n) + post, |pre|, value)
            == Digits(pre + Decimal(n) + post, |pre| + |Decimal(n)|, Shifted(value, n))
  {
    if n >= 10 {
      assert pre + Decimal(n) + post == pre + Decimal(n / 10) + ([ZERO + n % 10] + post);
      DigitsRead(n / 10, pre, [ZERO + n % 10] + post, value);
    }
  }

  lemma {:induction false} ShiftedZero(n: nat)
    ensures Shifted(0, n) == n
  {
    if n >= 10 {
      ShiftedZero(n / 10);
    }
  }

  /** What is printed is what is read back, whatever stops the digits. */
  lemma {:induction false} StrtolReadsDecimal(n: nat, post: seq<byte>)
    requires post == [] || !IsDigit(post[0])
    ensures Strtol(Decimal(n) + post) == n
  {
    DigitsRead(n, [], post, 0);
    ShiftedZero(n);
    assert [] + Decimal(n) + post == Decimal(n) + post;
  }

  /** How many digits a number takes. */
  lemma {:induction false} DecimalFits(n: nat, width: nat)
    requires 0 < width && n < Pow10(width)
    ensures |Decimal(n)| <= width
  {
    if n >= 10 {
      assert width > 1;
      DecimalFits(n / 10, width - 1);
    }
  }

  function Pow10(width: nat): nat {
    if width == 0 then 1 else 10 * Pow10(width - 1)
  }

  function Spaces(n: nat): (s: seq<byte>)
    ensures |s| == n && forall i :: 0 <= i < n ==> s[i] == SPACE
  {
    seq(n, _ => SPACE)
  }

  /** _bfd_ar_spacepad. */
  function SpacePad(width: nat, text: seq<byte>): (field: seq<byte>)
    ensures |field| == width
  {
    if |text| < width then text + Spaces(width - |text|) else text[..width]
  }

  lemma PaddedAt(width: nat, text: seq<byte>, i: nat)
    requires i < width
    ensures SpacePad(width, text)[i] == if i < |text| then text[i] else 32
  {
  }

  // ----- headers

  /** struct ar_hdr: the name field, the 32 bytes of date, uid, gid and mode, the size. */
  function Header(name: seq<byte>, meta: seq<byte>, size: nat): (h: seq<byte>)
    requires |name| == 16 && |meta| == 32
    ensures |h| == AR_HDR
    ensures h[..16] == name && h[58..] == ARFMAG
  {
    name + meta + SpacePad(10, Decimal(size)) + ARFMAG
  }

  /** The size strtol finds in a header, starting at its size field. */
  function SizeOf(h: seq<byte>): nat
    requires |h| == AR_HDR
  {
    Strtol(h[48..])
  }

  const SIZE_LIMIT: nat := 10_000_000_000

  lemma HeaderKeepsSize(name: seq<byte>, meta: seq<byte>, size: nat)
    requires |name| == 16 && |meta| == 32 && size < SIZE_LIMIT
    ensures SizeOf(Header(name, meta, size)) == size
  {
    assert Pow10(10) == SIZE_LIMIT;
    DecimalFits(size, 10);
    var d := Decimal(size);
    var rest := Spaces(10 - |d|) + ARFMAG;
    assert Header(name, meta, size)[48..] == d + rest;
    StrtolReadsDecimal(size, rest);
  }
}
