/** Member names: the 16-byte field of a header, and the table of names too long for it. */
module ArNames {
  import opened Bytes
  import opened Wrappers
  import opened ArFormat

  /** A file to be archived: its path, the date/uid/gid/mode text of its fresh header,
      its contents, whether it is an object file, and the symbols it defines. */
  datatype Member = Member(path: seq<byte>, meta: seq<byte>, contents: seq<byte>, isObject: bool, symbols: seq<Symbol>)

  /** A symbol, reduced to what decides whether it is listed in the archive map. */
  datatype Symbol = Symbol(name: seq<byte>, global: bool, weak: bool, indirect: bool, common: bool, undefined: bool)

  /** normalize: what follows the last slash. */
  function Basename(path: seq<byte>): (name: seq<byte>)
    ensures SLASH !in name
  {
    if path == [] then []
    else if path[|path| - 1] == SLASH then []
    else Basename(path[..|path| - 1]) + [path[|path| - 1]]
  }

  /** It is what follows the last slash, or all of a path without one. */
  lemma {:induction false} BasenameIs(before: seq<byte>, name: seq<byte>)
    requires 47 !in name && (before == [] || before[|before| - 1] == 47)
    ensures Basename(before + name) == name
  {
    if name == [] {
      assert before + name == before;
    } else {
      var last := |name| - 1;
      assert (before + name)[..|before + name| - 1] == before + name[..last];
      BasenameIs(before, name[..last]);
      assert name[..last] + [name[last]] == name;
    }
  }

  predicate IsLong(f: Format, name: seq<byte>) {
    |name| > f.maxName
  }

  // ----- writing

  /** What a long name contributes to the table. */
  function Entry(f: Format, name: seq<byte>): (e: seq<byte>)
    ensures |e| == |name| + if f.slash then 2 else 1
  {
    name + if f.slash then [SLASH, NEWLINE] else [NEWLINE]
  }

  /** The table for the first n members. */
  function NameTable(f: Format, ms: seq<Member>, n: nat): seq<byte>
    requires n <= |ms|
  {
    if n == 0 then []
    else
      var name := Basename(ms[n - 1].path);
      NameTable(f, ms, n - 1) + if IsLong(f, name) then Entry(f, name) else []
  }

  function Padded(f: Format, name: seq<byte>): (field: seq<byte>)
    requires |name| <= 16
    ensures |field| == 16
  {
    if |name| == 16 then name else name + [f.pad] + Spaces(15 - |name|)
  }

  /** The name field of the header that is written for a member: its basename, or the
      decimal offset of its entry in the table. */
  function NameField(f: Format, name: seq<byte>, offset: nat): (field: seq<byte>)
    requires Known(f)
    ensures |field| == 16
  {
    if IsLong(f, name) then
      [f.pad] + SpacePad(f.maxName - 1, Decimal(offset)) + Spaces(16 - f.maxName)
    else
      Padded(f, name)
  }

  /** The field as _bfd_truncate_arname leaves it before there is a table. */
  function Truncated(f: Format, name: seq<byte>): (field: seq<byte>)
    requires Known(f)
    ensures |field| == 16
  {
    if !IsLong(f, name) then Padded(f, name)
    else if f.slash then Spaces(16)
    else name[..f.maxName] + Spaces(16 - f.maxName)
  }

  /** Byte k of that field: the name, then what pads it, then blanks.  A name too long is cut
      off, or where names end in slashes left out altogether. */
  lemma TruncatedAt(f: Format, name: seq<byte>, k: nat)
    requires Known(f) && k < 16
    ensures Truncated(f, name)[k]
            == if |name| > f.maxName then (if f.slash || k >= f.maxName then 32 else name[k])
               else if k < |name| then name[k] else if k == |name| then f.pad else 32
  {
  }

  // ----- reading

  /** A C string inside a buffer. */
  function CString(s: seq<byte>, i: nat): seq<byte>
    requires i <= |s|
    decreases |s| - i
  {
    if i == |s| || s[i] == NUL then [] else [s[i]] + CString(s, i + 1)
  }

  function Forward(c: byte): byte {
    if c == BACKSLASH then SLASH else c
  }

  /** What the loop of _bfd_slurp_extended_name_table makes of the k-th byte. */
  function Terminated(raw: seq<byte>, k: nat): byte
    requires k < |raw|
  {
    if raw[k] == NEWLINE then
      if k > 0 && Forward(raw[k - 1]) == SLASH then NEWLINE else NUL
    else if Forward(raw[k]) == SLASH && k + 1 < |raw| && raw[k + 1] == NEWLINE then NUL
    else Forward(raw[k])
  }

  function Terminate(raw: seq<byte>): (t: seq<byte>)
    ensures |t| == |raw|
  {
    seq(|raw|, k requires 0 <= k < |raw| => Terminated(raw, k))
  }

  /** memchr: the first place of c, or the length. */
  function IndexOf(s: seq<byte>, c: byte): (k: nat)
    ensures k <= |s|
    ensures forall i :: 0 <= i < k ==> s[i] != c
    ensures k < |s| ==> s[k] == c
  {
    if s == [] then 0 else if s[0] == c then 0 else 1 + IndexOf(s[1..], c)
  }

  /** Where the name in a header field ends. */
  function NameEnd(field: seq<byte>): (k: nat)
    ensures k <= |field|
  {
    if NUL in field then IndexOf(field, NUL)
    else if SLASH in field then IndexOf(field, SLASH)
    else IndexOf(field, SPACE)
  }

  /** The header's name field points into the table of long names. */
  predicate RefersToTable(f: Format, h: seq<byte>)
    requires Known(f) && |h| == AR_HDR
  {
    h[0] == SLASH || (h[0] == SPACE && SLASH !in h[..f.maxName])
  }

  const HASH: byte := 35
  const ONE: byte := 49

  /** The name stands behind the header, as in archives of 4.4BSD. */
  predicate NameFollows(h: seq<byte>)
    requires |h| == AR_HDR
  {
    h[0] == HASH && h[1] == ONE && h[2] == SLASH && IsDigit(h[3])
  }

  /** A name, and how many bytes behind the header it took. */
  datatype Found = Found(name: seq<byte>, taken: nat)

  /** The name _bfd_generic_read_ar_hdr finds, given the terminated table if there is one
      and the bytes behind the header. */
  function ReadName(f: Format, h: seq<byte>, table: Option<seq<byte>>, behind: seq<byte>): (found: Option<Found>)
    requires Known(f) && |h| == AR_HDR
    ensures found.Some? ==> found.value.taken <= |behind|
  {
    if RefersToTable(f, h) && table.Some? then
      var index := Strtol(h[1..]);
      if index >= |table.value| then None else Some(Found(CString(table.value, index), 0))
    else if NameFollows(h) then
      var length := Strtol(h[3..]);
      if length > |behind| then None else Some(Found(CString(behind[..length], 0), length))
    else
      Some(Found(h[..NameEnd(h[..f.maxName])], 0))
  }

  // ----- the round trip

  /** Text a C string and a table line can hold. */
  predicate Printable(name: seq<byte>) {
    NUL !in name && NEWLINE !in name && BACKSLASH !in name && SLASH !in name
  }

  lemma {:induction false} TableGrows(f: Format, ms: seq<Member>, n: nat, m: nat)
    requires n <= m <= |ms|
    ensures NameTable(f, ms, n) <= NameTable(f, ms, m)
    decreases m
  {
    if n < m {
      TableGrows(f, ms, n, m - 1);
    }
  }

  lemma {:induction false} CStringIs(s: seq<byte>, i: nat, name: seq<byte>)
    requires i + |name| <= |s| && NUL !in name
    requires forall k :: 0 <= k < |name| ==> s[i + k] == name[k]
    requires i + |name| == |s| || s[i + |name|] == NUL
    ensures CString(s, i) == name
    decreases |name|
  {
    if name != [] {
      assert s[i + 0] == name[0];
      forall k | 0 <= k < |name| - 1 ensures s[i + 1 + k] == name[1..][k] {
        assert s[i + (k + 1)] == name[k + 1];
      }
      CStringIs(s, i + 1, name[1..]);
    }
  }

  lemma {:induction false} EntryTerminates(f: Format, name: seq<byte>, raw: seq<byte>, off: nat)
    requires name != [] && Printable(name) && off + |Entry(f, name)| <= |raw|
    requires forall k :: 0 <= k < |Entry(f, name)| ==> raw[off + k] == Entry(f, name)[k]
    ensures CString(Terminate(raw), off) == name
  {
    var n := |name|;
    forall k | 0 <= k < n ensures Terminate(raw)[off + k] == name[k] {
      assert raw[off + k] == Entry(f, name)[k] == name[k];
    }
    assert raw[off + n] == Entry(f, name)[n];
    assert raw[off + (n - 1)] == Entry(f, name)[n - 1] == name[n - 1];
    if f.slash {
      assert raw[off + (n + 1)] == Entry(f, name)[n + 1] == NEWLINE;
    }
    assert Terminate(raw)[off + n] == NUL;
    CStringIs(Terminate(raw), off, name);
  }

  lemma PieceOf(before: seq<byte>, piece: seq<byte>, raw: seq<byte>)
    requires before + piece <= raw
    ensures forall k :: 0 <= k < |piece| ==> raw[|before| + k] == piece[k]
  {
    forall k | 0 <= k < |piece| ensures raw[|before| + k] == piece[k] {
      assert (before + piece)[|before| + k] == piece[k];
    }
  }

  /** The characters of a C string. */
  lemma {:induction false} CStringAt(s: seq<byte>, i: nat, k: nat)
    requires i <= |s| && k < |CString(s, i)|
    ensures i + k < |s| && CString(s, i)[k] == s[i + k] != NUL
    decreases k
  {
    if k > 0 {
      CStringAt(s, i + 1, k - 1);
    }
  }

  /** Each entry of the table ends in a newline. */
  lemma {:induction false} TableEnds(f: Format, ms: seq<Member>, n: nat)
    requires n <= |ms|
    ensures NameTable(f, ms, n) != [] ==> NameTable(f, ms, n)[|NameTable(f, ms, n)| - 1] == NEWLINE
  {
    if n > 0 {
      TableEnds(f, ms, n - 1);
    }
  }

  /** A string that is read back has no character the rewriting changes. */
  lemma {:induction false} FoundIsPrintable(raw: seq<byte>, off: nat, name: seq<byte>)
    requires off + |name| <= |raw| && SLASH !in name && CString(Terminate(raw), off) == name
    requires forall k :: 0 <= k < |name| ==> raw[off + k] == name[k]
    requires off == 0 || raw[off - 1] == NEWLINE
    ensures Printable(name)
  {
    forall k | 0 <= k < |name| ensures name[k] !in {NUL, BACKSLASH, NEWLINE} {
      CStringAt(Terminate(raw), off, k);
      assert name[k] == Terminated(raw, off + k) && raw[off + k] == name[k];
      if name[k] == NEWLINE && k > 0 {
        CStringAt(Terminate(raw), off, k - 1);
      }
    }
  }

  lemma EntryFoundIff(f: Format, name: seq<byte>, raw: seq<byte>, off: nat)
    requires name != [] && SLASH !in name && off + |Entry(f, name)| <= |raw| && (off == 0 || raw[off - 1] == NEWLINE)
    requires forall k :: 0 <= k < |Entry(f, name)| ==> raw[off + k] == Entry(f, name)[k]
    ensures CString(Terminate(raw), off) == name <==> Printable(name)
  {
    hide Printable, Terminate, CString;
    if Printable(name) {
      EntryTerminates(f, name, raw, off);
    } else if CString(Terminate(raw), off) == name {
      forall k | 0 <= k < |name| ensures raw[off + k] == name[k] {
        assert raw[off + k] == Entry(f, name)[k];
      }
      FoundIsPrintable(raw, off, name);
    }
  }

  /** After the newlines have been rewritten, the string at the offset written in a long
      name's header is that name, with or without a byte of padding behind the table, if
      and only if the name has no zero byte, newline or backslash. */
  lemma {:induction false} LongNameFound(f: Format, ms: seq<Member>, i: nat, raw: seq<byte>)
    requires i < |ms| && IsLong(f, Basename(ms[i].path)) && NameTable(f, ms, |ms|) <= raw
    ensures |NameTable(f, ms, i)| < |raw|
    ensures CString(Terminate(raw), |NameTable(f, ms, i)|) == Basename(ms[i].path) <==> Printable(Basename(ms[i].path))
  {
    var name, before, upto := Basename(ms[i].path), NameTable(f, ms, i), NameTable(f, ms, i + 1);
    TableGrows(f, ms, i + 1, |ms|);
    assert upto == before + Entry(f, name);
    PieceOf(before, Entry(f, name), raw);
    TableEnds(f, ms, i);
    assert before != [] ==> raw[|before| - 1] == before[|before| - 1];
    EntryFoundIff(f, name, raw, |before|);
  }

  lemma {:induction false} IndexIs(s: seq<byte>, c: byte, k: nat)
    requires k <= |s| && (forall i :: 0 <= i < k ==> s[i] != c) && (k < |s| ==> s[k] == c)
    ensures IndexOf(s, c) == k
    decreases k
  {
    if k > 0 {
      IndexIs(s[1..], c, k - 1);
    }
  }

  lemma SlashEndsName(field: seq<byte>, name: seq<byte>)
    requires |name| < |field| && NUL !in field && SLASH !in name
    requires field[..|name|] == name && field[|name|] == SLASH
    ensures NameEnd(field) == |name|
  {
    assert SLASH in field;
    forall i | 0 <= i < |name| ensures field[i] != SLASH {
      assert field[i] == field[..|name|][i];
    }
    IndexIs(field, SLASH, |name|);
  }

  lemma {:induction false} BlankEndsName(field: seq<byte>, name: seq<byte>)
    requires |name| <= |field| && NUL !in field && SLASH !in field
    requires field[..|name|] == name && (|name| < |field| ==> field[|name|] == SPACE)
    ensures NameEnd(field) == IndexOf(name, SPACE)
  {
    var k := IndexOf(name, SPACE);
    assert forall i :: 0 <= i < |name| ==> field[i] == name[i];
    IndexIs(field, SPACE, k);
  }

  lemma {:induction false} FieldEnd(f: Format, name: seq<byte>, field: seq<byte>)
    requires Known(f) && !IsLong(f, name) && NUL !in name && SLASH !in name
    requires field == Padded(f, name)[..f.maxName]
    ensures field[..|name|] == name
    ensures NameEnd(field) == if f.slash && |name| < f.maxName then |name| else IndexOf(name, SPACE)
  {
    PaddedField(f, name, field);
    if f.slash && |name| < f.maxName {
      SlashEndsName(field, name);
    } else {
      BlankEndsName(field, name);
    }
  }

  /** What the reader takes for the name in the field of a short name. */
  lemma {:induction false} ShortNameRead(f: Format, name: seq<byte>, h: seq<byte>)
    requires Known(f) && !IsLong(f, name) && NUL !in name && SLASH !in name
    requires |h| == AR_HDR && h[..16] == Padded(f, name)
    ensures h[..NameEnd(h[..f.maxName])]
            == if f.slash && |name| < f.maxName then name else name[..IndexOf(name, SPACE)]
  {
    var field := h[..f.maxName];
    assert field == h[..16][..f.maxName];
    FieldEnd(f, name, field);
    SamePrefix(h, field, name, NameEnd(field));
  }

  lemma SamePrefix(h: seq<byte>, field: seq<byte>, name: seq<byte>, k: nat)
    requires k <= |name| && name <= field && field <= h
    ensures h[..k] == name[..k]
  {
  }

  lemma PaddedField(f: Format, name: seq<byte>, field: seq<byte>)
    requires Known(f) && !IsLong(f, name) && NUL !in name && SLASH !in name
    requires field == Padded(f, name)[..f.maxName]
    ensures field[..|name|] == name
    ensures |name| < |field| ==> field[|name|] == f.pad
    ensures NUL !in field
    ensures SLASH in field ==> f.slash && |name| < f.maxName
  {
    forall k | 0 <= k < |field|
      ensures field[k] == if k < |name| then name[k] else if k == |name| then f.pad else SPACE
    {
    }
    forall k | 0 <= k < |field| ensures field[k] != NUL && (field[k] == SLASH ==> f.slash && |name| < f.maxName) {
      assert k < |name| ==> name[k] in name;
    }
  }

  /** No short name in a field of its own looks as if it stood behind the header. */
  lemma ShortNameIsThere(f: Format, name: seq<byte>, h: seq<byte>)
    requires Known(f) && !IsLong(f, name) && SLASH !in name && |h| == AR_HDR && h[..16] == Padded(f, name)
    ensures !NameFollows(h)
  {
    assert h[0] == h[..16][0] && h[1] == h[..16][1] && h[2] == h[..16][2] && h[3] == h[..16][3];
    assert |name| > 2 ==> name[2] in name;
  }

  /** A short name survives its header field exactly when the reader cannot take a blank
      inside it for the end: never where fields are filled up with blanks, and in the
      slash format only when the name leaves no room for its slash. */
  lemma ShortNameSurvivesIff(f: Format, name: seq<byte>, h: seq<byte>, behind: seq<byte>)
    requires Known(f) && !IsLong(f, name) && NUL !in name && SLASH !in name
    requires |h| == AR_HDR && h[..16] == Padded(f, name)
    ensures ReadName(f, h, None, behind) == Some(Found(name, 0)) <==> ShortNameSurvives(f, name)
  {
    ShortNameIsThere(f, name, h);
    ShortNameRead(f, name, h);
    var k := IndexOf(name, SPACE);
    assert k < |name| <==> SPACE in name;
    assert name[..k] == name <==> k == |name|;
  }

  predicate ShortNameSurvives(f: Format, name: seq<byte>) {
    SPACE !in name || (f.slash && |name| < f.maxName)
  }

  /** With a table of long names about, a name must also not be empty, or its header
      would look like a reference to the table. */
  lemma ShortNameBesideTable(f: Format, name: seq<byte>, h: seq<byte>, table: Option<seq<byte>>, behind: seq<byte>)
    requires Known(f) && !IsLong(f, name) && NUL !in name && SLASH !in name && name != []
    requires |h| == AR_HDR && h[..16] == Padded(f, name)
    requires ShortNameSurvives(f, name)
    ensures ReadName(f, h, table, behind) == Some(Found(name, 0))
  {
    ShortNameSurvivesIff(f, name, h, behind);
    assert h[0] == h[..16][0] == name[0];
    assert name[0] in name;
    if name[0] == SPACE {
      assert h[..f.maxName][|name|] == h[..16][|name|] == SLASH;
    }
    assert !RefersToTable(f, h);
  }
}
