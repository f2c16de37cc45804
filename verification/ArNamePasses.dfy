/** The two passes that build the table of long names, and the loop that reads it back. */
module ArNamePasses {
  import opened Bytes
  import opened Wrappers
  import opened ArFormat
  import opened ArNames

  predicate FreshFields(f: Format, ms: seq<Member>, fields: seq<seq<byte>>)
    requires Known(f)
  {
    |fields| == |ms| && forall i :: 0 <= i < |ms| ==> fields[i] == Truncated(f, Basename(ms[i].path))
  }

  predicate FieldsWritten(f: Format, ms: seq<Member>, fields: seq<seq<byte>>)
    requires Known(f)
  {
    |fields| == |ms|
    && forall i :: 0 <= i < |ms| ==> Written(f, ms, i, fields[i])
  }

  predicate Written(f: Format, ms: seq<Member>, i: nat, field: seq<byte>)
    requires Known(f) && i < |ms|
  {
    field == NameField(f, Basename(ms[i].path), |NameTable(f, ms, i)|)
  }

  /** The field of a header that is put right: bytes behind the name, or behind the number
      of its entry, stay as they were. */
  function FieldFor(f: Format, name: seq<byte>, offset: nat, was: seq<byte>): (field: seq<byte>)
    requires Known(f) && |was| == 16
    ensures |field| == 16
  {
    if IsLong(f, name) then [f.pad] + SpacePad(f.maxName - 1, Decimal(offset)) + was[f.maxName..]
    else if |name| < 16 then name + [f.pad] + was[|name| + 1..]
    else name
  }

  predicate PutRight(f: Format, ms: seq<Member>, i: nat, was: seq<byte>, field: seq<byte>)
    requires Known(f) && i < |ms|
  {
    |was| == 16 && field == FieldFor(f, Basename(ms[i].path), |NameTable(f, ms, i)|, was)
  }

  predicate AnyFields(ms: seq<Member>, fields: seq<seq<byte>>) {
    |fields| == |ms| && forall i :: 0 <= i < |ms| ==> |fields[i]| == 16
  }

  /** The field after the first pass, which puts right only short names. */
  predicate ShortPutRight(f: Format, ms: seq<Member>, i: nat, was: seq<byte>, field: seq<byte>)
    requires Known(f) && i < |ms|
  {
    if IsLong(f, Basename(ms[i].path)) then field == was else PutRight(f, ms, i, was, field)
  }

  /** A header that was made for its file gets the field that it should have. */
  lemma {:induction false} FreshPutRight(f: Format, ms: seq<Member>, i: nat, field: seq<byte>)
    requires Known(f) && i < |ms| && PutRight(f, ms, i, Truncated(f, Basename(ms[i].path)), field)
    ensures Written(f, ms, i, field)
  {
    var name := Basename(ms[i].path);
    if IsLong(f, name) {
      assert Truncated(f, name)[f.maxName..] == Spaces(16 - f.maxName);
    } else if |name| < 16 {
      assert Truncated(f, name)[|name| + 1..] == Spaces(15 - |name|);
    }
  }

  /** What an old name leaves behind a short one is taken for part of it: where fields are
      filled up with blanks, a slash, which would be the end; behind "#1" and its slash, a
      digit, which would be the length of a name behind the header. */
  predicate Misleads(f: Format, name: seq<byte>, was: seq<byte>)
    requires !IsLong(f, name) && |was| == 16 && f.maxName <= 16
  {
    if f.slash then name == [HASH, ONE] && IsDigit(was[3])
    else |name| < f.maxName && SLASH in was[|name| + 1..f.maxName]
  }

  lemma FollowsIff(f: Format, name: seq<byte>, was: seq<byte>, h: seq<byte>)
    requires Known(f) && !IsLong(f, name) && SLASH !in name && |was| == 16
    requires |h| == AR_HDR && h[..16] == FieldFor(f, name, 0, was)
    ensures NameFollows(h) <==> f.slash && name == [HASH, ONE] && IsDigit(was[3])
  {
    var field := FieldFor(f, name, 0, was);
    assert h[0] == field[0] && h[1] == field[1] && h[2] == field[2] && h[3] == field[3] by {
      assert h[0] == h[..16][0] && h[1] == h[..16][1] && h[2] == h[..16][2] && h[3] == h[..16][3];
    }
    assert |name| > 2 ==> name[2] in name;
    if |name| == 2 {
      assert name == [name[0], name[1]];
    }
  }

  /** A short name put over an old one is read back if and only if it could be anyway and
      the old one leaves nothing behind that misleads. */
  lemma ShortPutRightIff(f: Format, name: seq<byte>, was: seq<byte>, h: seq<byte>, behind: seq<byte>)
    requires Known(f) && !IsLong(f, name) && NUL !in name && SLASH !in name
    requires |was| == 16 && NUL !in was && |h| == AR_HDR && h[..16] == FieldFor(f, name, 0, was)
    ensures ReadName(f, h, None, behind) == Some(Found(name, 0))
            <==> ShortNameSurvives(f, name) && !Misleads(f, name, was)
  {
    FollowsIff(f, name, was, h);
    if NameFollows(h) {
      assert CString(behind[..0], 0) == [];
    } else {
      NotFollowing(f, name, was, h);
    }
  }

  lemma NotFollowing(f: Format, name: seq<byte>, was: seq<byte>, h: seq<byte>)
    requires Known(f) && !IsLong(f, name) && NUL !in name && SLASH !in name
    requires |was| == 16 && NUL !in was && |h| == AR_HDR && h[..16] == FieldFor(f, name, 0, was)
    ensures h[..NameEnd(h[..f.maxName])] == name <==>
              ShortNameSurvives(f, name) && (f.slash || !Misleads(f, name, was))
  {
    var field, n := h[..f.maxName], |name|;
    RightedField(f, name, was, h);
    if f.slash && n < f.maxName {
      SlashEndsName(field, name);
      assert h[..n] == name;
    } else if SLASH in field {
      SlashBehind(f, name, was, field);
      var k := IndexOf(field, SLASH);
      assert field[n] == SPACE && k != n;
      assert |h[..k]| == k;
    } else {
      SlashBehind(f, name, was, field);
      BlankEndsName(field, name);
      var k := IndexOf(name, SPACE);
      SamePrefix(h, field, name, k);
      assert name[..k] == name <==> k == n;
      assert k < n <==> SPACE in name;
    }
  }

  /** The name "#1" over a reference to entry 1234 of an earlier table: the reader takes 34
      bytes of the contents for the name. */
  lemma HashOneOverReference(h: seq<byte>, behind: seq<byte>)
    requires |h| == AR_HDR && |behind| >= 34
    requires h[..16] == FieldFor(SVR4, [HASH, ONE], 0, [SLASH, 49, 50, 51, 52] + Spaces(11))
    ensures ReadName(SVR4, h, None, behind) == Some(Found(CString(behind[..34], 0), 34))
  {
    var field := [HASH, ONE, SLASH, 51, 52] + Spaces(11);
    assert h[..16] == field;
    assert h[0] == h[..16][0] && h[1] == h[..16][1] && h[2] == h[..16][2];
    assert h[3] == h[..16][3] && h[4] == h[..16][4] && h[5] == h[..16][5];
    assert Decimal(34) == [51, 52];
    assert h[3..] == Decimal(34) + h[5..];
    StrtolReadsDecimal(34, h[5..]);
  }

  lemma RightedField(f: Format, name: seq<byte>, was: seq<byte>, h: seq<byte>)
    requires Known(f) && !IsLong(f, name) && NUL !in name && SLASH !in name
    requires |was| == 16 && NUL !in was && |h| == AR_HDR && h[..16] == FieldFor(f, name, 0, was)
    ensures h[..f.maxName][..|name|] == name && NUL !in h[..f.maxName]
    ensures |name| < f.maxName ==> h[..f.maxName][|name|] == f.pad
    ensures forall k :: |name| < k < f.maxName ==> h[..f.maxName][k] == was[k]
    ensures forall k :: 0 <= k < |name| ==> h[..f.maxName][k] == name[k] != SLASH
  {
    var field := FieldFor(f, name, 0, was);
    forall k | 0 <= k < f.maxName
      ensures h[..f.maxName][k] == if k < |name| then name[k] else if k == |name| then f.pad else was[k]
    {
      assert h[..f.maxName][k] == h[..16][k] == field[k];
    }
    forall k | 0 <= k < f.maxName ensures h[..f.maxName][k] != NUL {
      assert k < |name| ==> name[k] in name;
      assert was[k] in was;
    }
    forall k | 0 <= k < |name| ensures h[..f.maxName][k] == name[k] != SLASH {
      assert name[k] in name;
    }
  }

  lemma SlashBehind(f: Format, name: seq<byte>, was: seq<byte>, field: seq<byte>)
    requires Known(f) && !IsLong(f, name) && |was| == 16 && |field| == f.maxName
    requires (|name| < f.maxName ==> f.pad == SPACE)
    requires |name| < f.maxName ==> field[|name|] == f.pad
    requires forall k :: |name| < k < f.maxName ==> field[k] == was[k]
    requires forall k :: 0 <= k < |name| ==> field[k] != SLASH
    ensures SLASH in field <==> |name| < f.maxName && SLASH in was[|name| + 1..f.maxName]
  {
    if SLASH in field {
      var k :| 0 <= k < |field| && field[k] == SLASH;
      assert was[|name| + 1..f.maxName][k - |name| - 1] == was[k];
    }
    if |name| < f.maxName && SLASH in was[|name| + 1..f.maxName] {
      var j :| 0 <= j < f.maxName - |name| - 1 && was[|name| + 1..f.maxName][j] == SLASH;
      assert field[|name| + 1 + j] == was[|name| + 1 + j];
    }
  }

  /** The first pass: how long the table has to be, putting right any short name whose
      field does not hold it. */
  method MeasureNames(f: Format, ms: seq<Member>, fields: array<seq<byte>>) returns (total: nat)
    requires Known(f) && AnyFields(ms, fields[..])
    modifies fields
    ensures total == |NameTable(f, ms, |ms|)|
    ensures forall i :: 0 <= i < |ms| ==> ShortPutRight(f, ms, i, old(fields[i]), fields[i])
  {
    ghost var was := fields[..];
    total := 0;
    for i := 0 to |ms|
      invariant total == |NameTable(f, ms, i)|
      invariant forall j :: 0 <= j < i ==> ShortPutRight(f, ms, j, was[j], fields[j])
      invariant forall j :: i <= j < |ms| ==> fields[j] == was[j]
    {
      var name := Basename(ms[i].path);
      var thisLen := |name|;
      if thisLen > f.maxName {
        total := total + thisLen + 1;
        if f.slash {
          total := total + 1;
        }
      } else {
        assert |was[i]| == 16;
        fields[i] := RightShort(f, name, fields[i], |NameTable(f, ms, i)|);
      }
    }
  }

  /** A header that must have been using the extended form although it did not need to. */
  method RightShort(f: Format, name: seq<byte>, was: seq<byte>, ghost offset: nat) returns (field: seq<byte>)
    requires Known(f) && !IsLong(f, name) && |was| == 16
    ensures field == FieldFor(f, name, offset, was)
  {
    var thisLen := |name|;
    field := was;
    if field[..thisLen] != name || (thisLen < 16 && field[thisLen] != f.pad) {
      field := name + field[thisLen..];
      if thisLen < f.maxName || (thisLen == f.maxName && thisLen < 16) {
        field := field[thisLen := f.pad];
      }
    }
    assert field[..thisLen] == name;
    assert thisLen < 16 ==> field == name + [f.pad] + was[thisLen + 1..];
  }

  /** Copies one name and its terminator behind the names already in the table. */
  method AppendEntry(f: Format, name: seq<byte>, table: array<byte>, at: nat, ghost before: seq<byte>)
      returns (next: nat)
    requires at + |Entry(f, name)| <= table.Length && table[..at] == before
    modifies table
    ensures next == at + |Entry(f, name)| && table[..next] == before + Entry(f, name)
  {
    for k := 0 to |name|
      invariant forall j :: 0 <= j < k ==> table[at + j] == name[j]
      invariant table[..at] == before
    {
      table[at + k] := name[k];
    }
    table[at + |name|] := NUL;       // strcpy ends the string before the terminator is put
    if !f.slash {
      table[at + |name|] := NEWLINE;
    } else {
      table[at + |name|] := SLASH;
      table[at + |name| + 1] := NEWLINE;
    }
    next := at + |name| + 1;
    if f.slash {
      next := next + 1;
    }
    assert table[at..next] == Entry(f, name);
    assert table[..next] == table[..at] + table[at..next];
  }

  /** One turn of the second pass. */
  method FillOne(f: Format, ms: seq<Member>, i: nat, fields: array<seq<byte>>, table: array<byte>, strptr: nat,
                 ghost was: seq<byte>)
      returns (next: nat)
    requires Known(f) && i < |ms| && fields.Length == |ms| && |was| == 16 && ShortPutRight(f, ms, i, was, fields[i])
    requires |NameTable(f, ms, i + 1)| <= table.Length
    requires strptr == |NameTable(f, ms, i)| <= table.Length && table[..strptr] == NameTable(f, ms, i)
    modifies fields, table
    ensures next == |NameTable(f, ms, i + 1)| && table[..next] == NameTable(f, ms, i + 1)
    ensures PutRight(f, ms, i, was, fields[i])
    ensures forall j :: 0 <= j < |ms| && j != i ==> fields[j] == old(fields[j])
  {
    var name := Basename(ms[i].path);
    next := strptr;
    if |name| > f.maxName {
      fields[i] := [f.pad] + SpacePad(f.maxName - 1, Decimal(strptr)) + fields[i][f.maxName..];
      next := AppendEntry(f, name, table, strptr, NameTable(f, ms, i));
    }
  }

  /** _bfd_construct_extended_name_table: the second pass fills exactly what the first
      one measured, and every header is put right, whatever it had for a name. */
  method ConstructNameTable(f: Format, ms: seq<Member>, fields: array<seq<byte>>) returns (table: array<byte>)
    requires Known(f) && AnyFields(ms, fields[..])
    modifies fields
    ensures fresh(table) && table[..] == NameTable(f, ms, |ms|)
    ensures forall i :: 0 <= i < |ms| ==> PutRight(f, ms, i, old(fields[i]), fields[i])
  {
    hide PutRight, ShortPutRight, Basename;
    ghost var was := fields[..];
    var total := MeasureNames(f, ms, fields);
    table := new byte[total];
    var strptr := 0;
    for i := 0 to |ms|
      invariant strptr == |NameTable(f, ms, i)| <= table.Length && table[..strptr] == NameTable(f, ms, i)
      invariant forall j :: 0 <= j < i ==> PutRight(f, ms, j, was[j], fields[j])
      invariant forall j :: i <= j < |ms| ==> ShortPutRight(f, ms, j, was[j], fields[j])
    {
      TableGrows(f, ms, i + 1, |ms|);
      strptr := FillOne(f, ms, i, fields, table, strptr, was[i]);
    }
    assert table[..] == table[..strptr];
  }

  /** Headers that were made for their files end up as they should. */
  lemma AllFreshPutRight(f: Format, ms: seq<Member>, was: seq<seq<byte>>, fields: seq<seq<byte>>)
    requires Known(f) && FreshFields(f, ms, was) && |fields| == |ms|
    requires forall i :: 0 <= i < |ms| ==> PutRight(f, ms, i, was[i], fields[i])
    ensures FieldsWritten(f, ms, fields)
  {
    hide PutRight, Written, Truncated, Basename;
    forall i | 0 <= i < |ms| ensures Written(f, ms, i, fields[i]) {
      FreshPutRight(f, ms, i, fields[i]);
    }
  }

  /** The loop of _bfd_slurp_extended_name_table, which turns the lines of the table into
      C strings where they stand. */
  method TerminateNames(names: array<byte>)
    modifies names
    ensures names[..] == Terminate(old(names[..]))
  {
    ghost var raw := names[..];
    for temp := 0 to names.Length
      invariant forall k :: temp <= k < names.Length ==> names[k] == raw[k]
      invariant forall k :: 0 <= k < temp - 1 ==> names[k] == Terminated(raw, k)
      invariant temp > 0 ==>
                  names[temp - 1] == if raw[temp - 1] == NEWLINE then Terminated(raw, temp - 1)
                    else Forward(raw[temp - 1])
    {
      if names[temp] == NEWLINE {
        names[if temp > 0 && names[temp - 1] == SLASH then temp - 1 else temp] := NUL;
      }
      if names[temp] == BACKSLASH {
        names[temp] := SLASH;
      }
    }
  }
}
