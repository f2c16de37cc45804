# BFD models

Dafny models of five components of BFD, the object-file library in binutils 2.18, and proofs of
what other code silently relies on in them.

- **b.out call relaxation and emission** (`Bout`, `BoutEmission`, `BoutAgreement`,
  `BoutAssertions`, `BoutMeaning`, `BoutWords`, `BoutPasses`). One pass shortens calls and alignment
  gaps and slides symbols; a later one copies the section down over itself and must drop exactly
  the same bytes. The two are proved to agree exactly when the output address is a multiple of every
  alignment, and then symbols keep naming the code they named and every shortened call still
  reaches its target.
- **The descriptor cache** (`Cache`, `CacheIO`, `CacheRuns`, `CachePrograms`). A ring of heap
  nodes with eviction and reopening. The ring is always the open files in order of use, at most
  ten of them unless at most one could be closed, and a file is open exactly if fewer than ten
  others have been used since. Programs of reads, seeks and tells cannot tell the cache from a
  system that never closes a file, with one exception that is stated exactly.
- **Archives** (`ArFormat`, `ArNames`, `ArNamePasses`, `ArMap`, `ArMapPasses`, `Archive`,
  `ArRoundTrip`, `ArExact`, `ArWriter`). The writer predicts member positions in the symbol map before the
  members are written, and builds a table of long names in two passes. What it writes is proved
  to be read back: every member, every name, every map entry, in System V and BSD format, and
  exactly when.
- **The a.out final link** (`LinkPlaces`, `LinkSymbols`, `LinkRecords`, `LinkNamed`, `LinkValues`,
  `LinkByName`, `LinkPasses`, `LinkIncludes`, `LinkHeaders`, `LinkBalance`, `LinkOnce`, `LinkStabs`,
  `LinkDuplicates`, `LinkRelocs`, `LinkTwice`, `LinkProgram`, `LinkCursors`, `AoutLayout`). One record
  per global symbol over any link, by owner and by name, and what it says; what relocs patch in;
  duplicate header files and the sums that tell them apart; linking in two steps against linking
  at once, from the symbols on; file cursors that never meet; section layout.
- **Relocated fields** (`RelocFields`) and **files in memory** (`MemoryFile`).

`Bytes`, `Rounding` and `Wrappers` hold what they share. Loops that change things in the program
are methods on arrays and classes here, proved against specification functions; the lemmas are
about those functions.

Where the code does not do what its documentation or its neighbours expect, the model follows the
code, and the exact condition and an input are proved:

- An assertion of the b.out emission loop compares an addend with the relaxed size, which a gap
  at the end of the section exceeds (`BoutAssertions.AssertionsHoldIff`, `GapAtEndExample`).
- Branches of a relaxed section that are not shortened miss by what was dropped before them
  (`BoutMeaning.PlainBranchLandsIff`).
- A failing absolute seek on a file that has been evicted loses the position
  (`CacheRuns.TransparentIffUsedLately`, `CacheRuns.EvictedSeekIsVisible`).
- A weak undefined symbol that is forced out gets no record and leaks -2 into the next file's
  symbol map, because a `break` is missing (`LinkRecords.MapIsSoundIff`, `StrippedWeakLeaks`).
- The debug symbol N_MAIN is taken for an indirect symbol: a header file behind it is copied
  without being remembered (`LinkOnce.EachHeaderOnceIff`, `LinkOnce.HeaderTwice`), and a global
  symbol behind it is written twice (`LinkByName.OneRecordPerName`, `LinkByName.BehindMain`).
- A relocatable link loses PC-relative relocs of sections whose address is not 0
  (`LinkTwice.LinkedTwice`, `LinkRelocs.StillLinksAgreeIff`).
- The record of a global symbol is that of the first symbol copied for it, even if the name is
  defined elsewhere, as with a weak definition that another file overrides
  (`LinkValues.GlobalCopySaysIff`, `LinkValues.FirstCopyDecides`, `LinkValues.WeakCopyStays`).
- Weak data symbols written from the hash table come out as weak bss symbols
  (`LinkTwice.WrittenSectionIff`).
- A member whose header was in use under another name may be read back under a wrong one: in BSD
  archives if that leaves a slash behind, and in System V archives if the new name is `#1` and it
  leaves a digit, which also costs the member the front of its contents
  (`ArNamePasses.ShortPutRightIff`, `ArNamePasses.HashOneOverReference`).
- First members with two reserved names are taken for something else
  (`ArRoundTrip.OpensAsWrittenIff`), and short names with blanks survive only where names end with
  a slash (`ArNames.ShortNameSurvivesIff`).
- A seek to just before the start of a writable file in memory makes its size larger than its
  buffer (`MemoryFile.InMemory.MoveTo`, `MemoryFile.WrappedSeekOverruns`).
- The 24-bit overflow check of the TMS320C30 rejects sums that fit
  (`RelocFields.NeedlessOverflow`).

## Model

| member | source | states |
|---|---|---|
| BoutPasses.AddressOrderIsStableSort | binutils-2.18/bfd/bout.c:855-872 | The table the insertion loop leaves is in ascending address order, is a permutation of the table in the file, and relocations that share an address keep their order. |
| BoutPasses.SortTable | binutils-2.18/bfd/bout.c:855-872 | The loop itself, in place on an array, with `prev_addr` as it is kept: it leaves exactly that sorted table. |
| BoutPasses.PerformSlip | binutils-2.18/bfd/bout.c:1015-1047 | Every symbol of the section past the place slides, no other moves, every linked hash entry stays equal to its symbol, and hash entries no symbol defines are untouched. |
| BoutPasses.RelaxCallInPlace | binutils-2.18/bfd/bout.c:1058-1087 | `abs32code` on the real table: shortens a call exactly when the gap is strictly inside the reach, moves the relocation to its opcode and slides symbols, keeping hash entries in step. |
| BoutPasses.RelaxAlignInPlace | binutils-2.18/bfd/bout.c:1090-1133 | `aligncode` on the real table: drops the difference between the old and the new gap, remembers the old end in the addend and slides symbols, keeping hash entries in step. |
| BoutPasses.RelaxSection | binutils-2.18/bfd/bout.c:1135-1204 | The relaxation loop leaves the table, the symbols and the section size that the specification `Relaxed` gives, with every hash entry equal to its symbol. |
| BoutAgreement.AlignDeltaBounds | binutils-2.18/bfd/bout.c:1090-1133 | An alignment always gives up at least one byte and never more than its own gap. |
| BoutAgreement.InStep | binutils-2.18/bfd/bout.c:1257-1365 | After every relocation, the read position minus the write position of the emission pass is the running `shrink` of the relaxation pass. |
| BoutAgreement.PassesAgreeIffAligned | binutils-2.18/bfd/bout.c:1135-1365 | The two passes agree after every relocation if and only if the section is placed on a multiple of every alignment it asks for. |
| BoutAgreement.RelaxedIsEmittable | binutils-2.18/bfd/bout.c:1257-1365 | Whatever relaxation leaves can be emitted: no abort, the bytes dropped never decrease, the write position never passes the read position, and exactly the relaxed size comes out. |
| BoutAssertions.AssertionsHoldIff | binutils-2.18/bfd/bout.c:623-1307 | The assertions of the emission loop, which compare with the relaxed size, hold exactly if every gap the loop comes to ends within the relaxed section, no call against a section symbol was shortened, and no short call is against the symbol of another section. |
| BoutAssertions.AssertionsHoldIffSpared | binutils-2.18/bfd/bout.c:623-1307 | The same condition on the original relocations and symbols, with how much each turn of the relaxation takes off. |
| BoutAssertions.RoomyHolds | binutils-2.18/bfd/bout.c:1058-1307 | A condition that needs no relaxation and is enough: behind each gap there is as much as all gaps and calls can lose, no call that can be shortened is against a section symbol, and no short one is against that of another section. |
| BoutAssertions.GapAtEndFails | binutils-2.18/bfd/bout.c:1305-1307 | So the assertion on the addend fails for every alignment whose gap ends the section, if the loop comes to it. |
| BoutAssertions.GapAtEndExample | binutils-2.18/bfd/bout.c:1305-1307 | An input: four bytes of code and a gap of four. |
| BoutAgreement.AlignmentHonoured | binutils-2.18/bfd/bout.c:1090-1133 | Each relaxed gap ends on its alignment, 2, 4, 8 or 16, in the final image and is smaller than the alignment. |
| Rounding.RoundUpShift | binutils-2.18/bfd/bout.c:1107-1116 | Rounding up commutes with shifting by a base exactly when the base is a multiple: the reason for the condition on the output address. |
| BoutMeaning.SymbolSlides | binutils-2.18/bfd/bout.c:1015-1204 | After any number of turns a symbol of the section is its original value minus the bytes dropped before it, and all other symbols are unchanged. |
| BoutMeaning.BytesKept | binutils-2.18/bfd/bout.c:1257-1365 | A byte that no relocation touches appears in the image at its offset minus the bytes dropped before it. |
| BoutMeaning.RelocKept | binutils-2.18/bfd/bout.c:1257-1365 | The offset where a relocation starts goes to exactly the place where its own output is written. |
| BoutMeaning.PieceKept | binutils-2.18/bfd/bout.c:1273-1360 | The word found in the final image for a relocation is the patched original word, although later copies move over the buffer. |
| BoutMeaning.RelaxationPreservesMeaning | binutils-2.18/bfd/bout.c:1015-1365 | A symbol of value X ends at X minus the bytes removed before X, and what the emission pass puts there stands for what was at X. |
| BoutMeaning.ShrunkCallReaches | binutils-2.18/bfd/bout.c:1058-1087 | A call that was shortened is within [-2^23, 2^23) of its target in the final layout, although later relaxations moved both ends after the test. |
| BoutMeaning.ShrunkCallLands | binutils-2.18/bfd/bout.c:626-632 | Decoding the emitted call instruction at its final place leads exactly to the final value of the symbol it called. |
| BoutMeaning.PlainBranchLandsIff | binutils-2.18/bfd/bout.c:1321-1354 | A branch that is not shortened decodes to its symbol exactly if nothing was dropped before it: its own move is never taken into account. |
| BoutWords.PatchedSays | binutils-2.18/bfd/bout.c:491-660 | For each relocation type the word it stores, from the original word, where the symbol is in the output, the addend and the place alone. |
| BoutWords.WordsSay | binutils-2.18/bfd/bout.c:1206-1365 | In the final image, at the place of any relocation less the bytes dropped before it, stands that word: a plain address adds the symbol's output address and the addend, call words and branches count the addend twice and keep their upper bits, system procedures are called by number. |
| BoutWords.AddressEmitted | binutils-2.18/bfd/bout.c:1289-1293 | A 32-bit address over a zero word is, in the image, the output address of its symbol plus the addend, modulo 2^32, for a symbol here, in another section or found in the hash table. |
| BoutWords.ShortenedIff | binutils-2.18/bfd/bout.c:1058-1087 | Relaxation shortens a call if and only if, in the state it is found in, its target lies less than 2^23 from where the call will stand. |
| BoutPasses.CopyRun | binutils-2.18/bfd/bout.c:1273-1275 | The overlapping copy loop moves every byte of the run as it was before the loop, and touches nothing else. |
| Bytes.LowestFirst | binutils-2.18/bfd/libbfd.c:579-588 | The four bytes of a little-endian word, lowest first. |
| BoutPasses.ApplyReloc | binutils-2.18/bfd/bout.c:1277-1360 | One case of the switch reads the original word, although the bytes below the write position are already overwritten, stores what BoutWords.PatchedSays tells, and advances both positions. |
| BoutPasses.EmitOne | binutils-2.18/bfd/bout.c:1257-1365 | One turn keeps the buffer half emitted: output below the write position, original bytes above it. |
| BoutPasses.GetRelocatedContents | binutils-2.18/bfd/bout.c:1206-1365 | The in-place emission loop terminates, leaves the whole image whose bytes and words BytesKept and WordsSay tell, and says whether every assertion on the way held. |
| Cache.RingIsDetermined | binutils-2.18/bfd/cache.c:79-97 | The set of open files and the history of lookups leave one possible ring: most recently used first. |
| Cache.RoomMade | binutils-2.18/bfd/cache.c:141-186 | Under the bound, closing one file always makes room for another, or leaves nothing that could be closed. |
| Cache.FileCache.Insert | binutils-2.18/bfd/cache.c:82-97 | Relinks the heap nodes so that the file is first of the ring and the rest keep their order. |
| Cache.FileCache.Snip | binutils-2.18/bfd/cache.c:102-112 | Takes exactly one file out of the ring, also when it is the last one or the most recent one. |
| Cache.FileCache.Delete | binutils-2.18/bfd/cache.c:117-135 | Whether or not fclose succeeds, the file leaves the ring, its stream is gone and the count is one less. |
| Cache.FindVictim | binutils-2.18/bfd/cache.c:145-159 | The backward search finds the least recently used file that may be closed, or none if there is none. |
| Cache.FileCache.CloseOne | binutils-2.18/bfd/cache.c:141-186 | Evicts exactly that file, saves its position, and reports a failing close; every other stream stays. |
| Cache.FileCache.GetMtime | binutils-2.18/bfd/bfdio.c:390-405 | Looking at the time of a file about to be closed may bring it to the front, but leaves the order of the others. |
| Cache.FileCache.CacheInit | binutils-2.18/bfd/cache.c:380-392 | A new stream enters the ring first, after room has been made, unless closing a file failed; the bound holds. |
| Cache.FileCache.MakeRoom | binutils-2.18/bfd/cache.c:383-387 | At the limit one file is closed, after which there is room or no closable file is left. |
| Cache.FileCache.OpenFile | binutils-2.18/bfd/cache.c:466-533 | Opening marks the file closable and makes it first of the ring at offset 0, or fails without leaving a stream; the ring stays valid and bounded in both cases. |
| Cache.FileCache.Lookup | binutils-2.18/bfd/cache.c:206-241 | A lookup finds the open stream, or reopens the file at its saved position unless told not to seek, and records the use; with no reopening it succeeds exactly for open files. |
| Cache.FileCache.MoveToFront | binutils-2.18/bfd/cache.c:215-224 | A use of an open file brings it to the front and keeps the others in order. |
| Cache.FileCache.Reopen | binutils-2.18/bfd/cache.c:229-241 | A closed file comes back first in the ring, at its saved position or, under CACHE_NO_SEEK, at its start. |
| Cache.FileCache.Close | binutils-2.18/bfd/cache.c:411-421 | Closing removes exactly that file from the ring; closing a closed one changes nothing. |
| Cache.FileCache.CloseAll | binutils-2.18/bfd/cache.c:440-448 | Terminates with an empty ring and no open file even if some closes fail, and reports success exactly if all succeeded. |
| Cache.FileCache.FOpen | binutils-2.18/bfd/opncls.c:182-238 | A file opened by name may be closed later and one opened on a descriptor may not; the invariant with the bound on descriptors holds. |
| Cache.FileCache.SetCacheable | binutils-2.18/bfd/bfd-in.h:572 | Sets the flag, whatever it was; the bound on descriptors is kept exactly unless that makes a second file of an overfull ring closable. |
| CacheIO.Bread | binutils-2.18/bfd/bfdio.c:114-155 | A read returns the bytes at the position the BFD believes in, as many as asked for or as there are, and moves it by their number, whether or not the file had been evicted. |
| CacheIO.Btell | binutils-2.18/bfd/bfdio.c:208-227 | Tell returns the position and makes `where` agree with the stream, without reopening a file. |
| CacheIO.CacheSeek | binutils-2.18/bfd/cache.c:253-259 | Seeking reopens a file without its saved position for an absolute seek and with it for a relative one, and if it succeeds leaves the stream at the absolute target, or at the old position plus the distance. |
| CacheIO.Bseek | binutils-2.18/bfd/bfdio.c:264-374 | A relative seek succeeds exactly if the old position plus the distance is not negative, and then the file is there, and otherwise where it was; an absolute one to a place that is not negative succeeds and leads there; a failing one loses the position exactly if the file was closed. |
| CacheIO.SeekTransparentIff | binutils-2.18/bfd/bfdio.c:320-372 | A seek is as good as one without a cache exactly unless the file is closed and not at its start and the target is absolute and negative. |
| CacheIO.RepliesDo | binutils-2.18/bfd/bfdio.c:114-374 | Over any run, with or without the cache, every operation reads, seeks or tells as it should from the position it finds, told byte by byte and without the functions that compute it, and moves no other file. |
| CacheIO.CacheIsTransparent | binutils-2.18/bfd/cache.c:206-313 | Over any run without negative absolute seeks all replies and positions equal those of a system that never closes a file, whatever was evicted. |
| CacheIO.CacheIsTransparentIff | binutils-2.18/bfd/cache.c:206-313 | The exact condition, for any run and any pattern of evictions: replies and positions stay those of the ideal system if and only if no operation makes a negative absolute seek on a file that is closed and away from its start. |
| CacheRuns.OpenIffUsedLately | binutils-2.18/bfd/cache.c:141-241 | After any history of uses a file is open exactly if it has been used and fewer than ten others have been used since. |
| CacheRuns.FindsOpenIff | binutils-2.18/bfd/cache.c:206-241 | So an operation of a program finds its file open exactly under that condition, which can be read off the operations before it. |
| CacheRuns.RunIsTransparentIff | binutils-2.18/bfd/cache.c:206-313 | A program cannot tell the cache from a system that never closes a file, at any point of its run, exactly if every operation keeps its place; what is open comes from the run itself. |
| CacheRuns.TransparentIffUsedLately | binutils-2.18/bfd/cache.c:206-313 | The same with the condition read off the operations: every negative absolute seek away from the start finds its file used, with fewer than ten others since. |
| CacheRuns.EvictedSeekIsVisible | binutils-2.18/bfd/cache.c:253-259 | A run over eleven files that does see a difference: read a byte, use ten other files, fail a seek, and the next read starts over. |
| CachePrograms.Do | binutils-2.18/bfd/bfdio.c:114-374 | One operation on the heap ring, with evictions, leaves ring, streams and positions as the step by file numbers says; whether the file was open is whether it has a stream. |
| CacheRuns.RunDoes | binutils-2.18/bfd/bfdio.c:114-374 | In a run with evictions computed operation by operation, each reply and each new position follows from the old position and whether the file is open; a failing absolute seek on a closed file leaves it at 0. |
| CachePrograms.Run | binutils-2.18/bfd/bfdio.c:114-374 | Any program of reads, seeks and tells on any number of files gets the replies computed by file numbers, every operation does what it should from the position it finds, and the replies are those of the ideal system if every operation keeps its place. |
| CachePrograms.LosePlace | binutils-2.18/bfd/cache.c:253-259 | That run of thirteen operations on a real ring: the first byte of the first file is read twice. |
| ArFormat.StrtolReadsDecimal | binutils-2.18/bfd/archive.c:332-349 | The number printed in a header field is what strtol reads back. |
| ArFormat.PaddedAt | binutils-2.18/bfd/archive.c:163-181 | Byte by byte, a header field that a number is printed into: the digits that fit, then blanks. |
| ArFormat.HeaderKeepsSize | binutils-2.18/bfd/archive.c:369-492 | The size read from a header is the one written in it, for every size its ten digits can hold. |
| ArNames.LongNameFound | binutils-2.18/bfd/archive.c:1054-1130 | After the newlines are rewritten, the C string at the offset stored in a header is that member's basename if and only if that has no zero byte, newline or backslash, with and without slashes. |
| ArNames.ShortNameSurvivesIff | binutils-2.18/bfd/archive.c:369-492 | A short name is read back as written exactly when it has no blank, or the format ends names with a slash and there is room for it. |
| ArNames.ShortNameBesideTable | binutils-2.18/bfd/archive.c:369-492 | With a table of long names present, a short name is still not taken for a reference to it. |
| ArNames.BasenameIs | binutils-2.18/bfd/archive.c:1171-1196 | The name a member gets is what follows the last slash of its path, or the whole path. |
| ArNames.TruncatedAt | binutils-2.18/bfd/archive.c:1500-1577 | Byte by byte, what the field of a name holds before there is a table. |
| ArNamePasses.MeasureNames | binutils-2.18/bfd/archive.c:1238-1281 | The first pass measures the table exactly and puts right the field of every short name, whatever it held. |
| ArNamePasses.ShortPutRightIff | binutils-2.18/bfd/archive.c:1267-1280 | A short name put over another is read back exactly if it could be anyway and the other leaves nothing behind that misleads: a slash where fields are filled up with blanks, a digit behind `#1/` where names end in a slash. |
| ArNamePasses.HashOneOverReference | binutils-2.18/bfd/archive.c:436-458 | An input: the name `#1` over a reference to entry 1234 of an earlier table is read as a name of 34 bytes behind the header. |
| Archive.ContentsLost | binutils-2.18/bfd/archive.c:436-458 | A name that is taken for one behind the header is cut off the front of the contents. |
| ArNamePasses.AppendEntry | binutils-2.18/bfd/archive.c:1311-1324 | A name and its terminator are appended behind what the table holds already. |
| ArNamePasses.FillOne | binutils-2.18/bfd/archive.c:1297-1325 | One turn of the second pass puts one name into the table and its offset into the header field, whatever that held. |
| ArNamePasses.ConstructNameTable | binutils-2.18/bfd/archive.c:1226-1329 | The second pass fills exactly the bytes the first one counted, and every header field, whatever it held, names its member or the offset of its entry. |
| ArNamePasses.TerminateNames | binutils-2.18/bfd/archive.c:1107-1119 | The loop that rewrites the table in place leaves what the pointwise specification says, although it looks back at bytes it has changed. |
| ArMap.EntriesGrouped | binutils-2.18/bfd/archive.c:1816-1898 | The map is grouped in member order and its name indices are prefix sums of name length plus one. |
| ArMap.MapListsDefinitions | binutils-2.18/bfd/archive.c:1849-1890 | The map lists a name for a member exactly when the member is an object file with a symbol of that name that is global, weak, indirect or common, and not undefined. |
| ArMapPasses.ComputeMap | binutils-2.18/bfd/archive.c:1816-1898 | The nested loop over members and symbols collects exactly that map and the length of its strings. |
| ArMapPasses.WriteRows | binutils-2.18/bfd/archive.c:1966-1987 | The walk of bsd_write_armap from entry to entry gives each the place of its own member and terminates. |
| ArMapPasses.BsdWriteArmap | binutils-2.18/bfd/archive.c:1925-2010 | The header and the map are written as laid out, with the first member's place computed beforehand. |
| ArMapPasses.WriteMemberOffsets | binutils-2.18/bfd/archive.c:2136-2141 | The inner walk writes the offsets of all entries of one member and of no other. |
| ArMapPasses.WriteOffsets | binutils-2.18/bfd/archive.c:2129-2147 | Exactly as many offsets come out as there are symbols, each that of its member, because the map is grouped. |
| ArMapPasses.CoffWriteArmap | binutils-2.18/bfd/archive.c:2077-2167 | The same for the System V map, whose padding makes the member offsets even. |
| ArMap.BsdMapRoundTrip | binutils-2.18/bfd/archive.c:705-770 | do_slurp_bsd_armap recovers every name and member offset that bsd_write_armap wrote, in either byte order. |
| ArMap.CoffMapRoundTrip | binutils-2.18/bfd/archive.c:776-898 | do_slurp_coff_armap recovers every name and member offset that coff_write_armap wrote. |
| Archive.IndexAgreesWithLayout | binutils-2.18/bfd/archive.c:1630-2167 | The four offset bytes of every map entry, in either format, hold (modulo 2^32) the exact position of the header later written for a member that defines the symbol, with or without a name table. |
| Archive.MemberRead | binutils-2.18/bfd/archive.c:499-602 | Opening the place of a member's header gives its name and contents, and the next header is where the next member was put. |
| Archive.ElementIff | binutils-2.18/bfd/archive.c:369-595 | Any bytes at a place are opened as a member if and only if the whole header is there with its magic, a reference leads into the table, and a name behind the header is there; then the contents are as many bytes as the header says or as there are, without a name in front, and the name is the one referred to, behind the header, or in its field up to its end. |
| Archive.WalkEnds | binutils-2.18/bfd/archive.c:369-603 | A walk ends well where no header fits any more, or where the file is cut off in a name behind a header; anything else that cannot be opened is an error. |
| Archive.WalkGoesOn | binutils-2.18/bfd/archive.c:499-603 | After any member that can be opened the walk goes on at the next even place behind its contents, whose length counts modulo 2^32. |
| Archive.MemberBytesAre | binutils-2.18/bfd/archive.c:1714-1751 | A member takes its 60 bytes of header, with the text for date and owner and the magic at the end, its contents, and a newline if they are of odd length. |
| Archive.WalkFindsMembers | binutils-2.18/bfd/archive.c:583-602 | Walking on from any header finds exactly the members from there on, and then the end. |
| ArRoundTrip.MapReadBack | binutils-2.18/bfd/archive.c:904-936 | The map is recognised and read back, and the reader stands at the first byte after the padded map. |
| ArRoundTrip.MapFoundIff | binutils-2.18/bfd/archive.c:703-936 | In any bytes a map is found exactly by one of its three names, and is read if and only if it is all there with room for the number of symbols it gives; a 64-bit map and a rest too short for a name are errors. |
| ArRoundTrip.MapPassedOver | binutils-2.18/bfd/archive.c:703-902 | Behind a BSD map the archive goes on at the next even place; behind a System V map what SecondPassed tells is passed over first. |
| ArRoundTrip.SecondPassed | binutils-2.18/bfd/archive.c:869-889 | A second map is passed over exactly if a whole header is there whose name begins with a slash and a blank. |
| ArRoundTrip.TableFoundIff | binutils-2.18/bfd/archive.c:1052-1128 | In any bytes a table of long names is found exactly by one of its two names, and must be all there. |
| ArRoundTrip.NamesReadBack | binutils-2.18/bfd/archive.c:1054-1130 | The name table is found when there is one, a first member is never taken for it, and the reader stands at the first member. |
| ArRoundTrip.OpensAsWritten | binutils-2.18/bfd/archive.c:605-682 | Opening a written archive finds its symbols, its name table and the position of its first member. |
| ArRoundTrip.OpensAsWrittenIff | binutils-2.18/bfd/archive.c:605-682 | It does if and only if the first member, with no name table before it, is not named `__.SYMDEF` in an archive without a map or `ARFILENAMES` in the format with slashes. |
| ArRoundTrip.ArchiveRoundTrip | binutils-2.18/bfd/archive.c:1630-1776 | Walking the bytes that were written yields exactly the original members, in order, with the same names and contents. |
| ArExact.RoundTripsIff | binutils-2.18/bfd/archive.c:369-1776 | Both directions: an archive of files with non-empty names is walked back exactly as written if and only if every long name is printable, every short one survives its field, and the first one, with no name table before it, is not reserved. |
| ArRoundTrip.MapOpensMembers | binutils-2.18/bfd/archive.c:499-538 | Every map entry that is read opens the member that defines its symbol. |
| ArRoundTrip.BeginsWithMagic | binutils-2.18/bfd/archive.c:1683-1688 | The bytes written begin with the magic of an archive. |
| ArRoundTrip.SymbolsComeBackIff | binutils-2.18/bfd/archive.c:1849-1890 | The symbols that come back from the map with the place of a member are exactly the names the member defines, told by the flags. |
| ArRoundTrip.MapNamed | binutils-2.18/bfd/archive.c:1925-2130 | The map is called "/" or "__.SYMDEF", with blanks behind. |
| ArRoundTrip.TableNamed | binutils-2.18/bfd/archive.c:1695-1712 | The table of long names is called "//" or "ARFILENAMES/", with blanks behind. |
| ArWriter.DroppingKeepsNames | binutils-2.18/bfd/archive.c:1811-1814 | Dropping old maps after the name table was built leaves every remaining header's offset into it right. |
| ArWriter.CopyContents | binutils-2.18/bfd/archive.c:1729-1744 | Contents copied through the fixed buffer arrive complete and in order. |
| ArWriter.WriteMember | binutils-2.18/bfd/archive.c:1723-1749 | One member is written as its header, its contents and a newline after contents of odd length. |
| ArWriter.WriteMembers | binutils-2.18/bfd/archive.c:1715-1750 | All members follow each other at the positions the map has promised. |
| ArWriter.WriteNames | binutils-2.18/bfd/archive.c:1694-1713 | The name table is written as an element of even size. |
| ArWriter.WriteMap | binutils-2.18/bfd/archive.c:1781-1922 | The map is written as laid out for the members that follow it. |
| ArWriter.WriteArchive | binutils-2.18/bfd/archive.c:1630-1776 | The writer as a whole produces exactly the bytes whose reading back is proved. |
| LinkRelocs.SectionReloc | binutils-2.18/bfd/aoutx.h:4440-4454 | For a reloc against a section, both ways of linking exist and differ by a known gap. |
| LinkRelocs.DefinedReloc | binutils-2.18/bfd/aoutx.h:4342-4378 | The same for a reloc against a symbol the relocatable link already knows and turns into a section. |
| LinkRelocs.SymbolReloc | binutils-2.18/bfd/aoutx.h:4379-4424 | The same for a reloc against a symbol that stays a symbol, found again by its number in the intermediate file. |
| LinkRelocs.BaseReloc | binutils-2.18/bfd/aoutx.h:4506-4535 | The same for a base-relative reloc, whose index is a symbol's even when it is not external; here there is no gap. |
| LinkRelocs.TwoLinksOneReloc | binutils-2.18/bfd/aoutx.h:4282-4571 | One reloc linked twice patches the same place with the same value modulo the word size exactly when it survives. |
| LinkRelocs.TwoLinksAgreeIff | binutils-2.18/bfd/aoutx.h:4282-4571 | For any list of relocs whose symbols are carried over, "ld -r" and then a full link patch the same bytes with the same pre-shift values as one full link if and only if every reloc survives, a condition on howto, symbol and section addresses. |
| LinkRelocs.StillLinksAgreeIff | binutils-2.18/bfd/aoutx.h:4342-4475 | Even when no link moves anything, a PC-relative reloc without pcrel_offset against a symbol defined in the text agrees exactly if its own section starts at 0. |
| LinkRelocs.StillCallExists | binutils-2.18/bfd/aoutx.h:4342-4475 | There is such a link in which it does not, with data at 0x20. |
| LinkRelocs.ZeroBasedSectionsSurvive | binutils-2.18/bfd/aoutx.h:4282-4475 | With the section's input and intermediate address 0, every reloc survives. |
| LinkNamed.RunNamed | binutils-2.18/bfd/aoutx.h:5075-5205 | Over every link, each record that belongs to a global symbol has the symbol's name and a type by which a later link looks it up. |
| LinkNamed.EndFits | binutils-2.18/bfd/aoutx.h:4740-5215 | Over every link and the traversal at its end: if the record that the linker writes for a global symbol and the copies of all symbols that stand for it have some property, all its records have it. |
| LinkValues.WriteOtherSays | binutils-2.18/bfd/aoutx.h:3531-3646 | A global symbol gets a record on the linker's own account exactly if it is undefined, defined or common, not dealt with yet, and not stripped or needed all the same; the record has its name, its type with the external bit, and as value the place of the definition in the output, the size, or 0, modulo 2^32. |
| LinkValues.NumberSays | binutils-2.18/bfd/aoutx.h:3531-3646 | Over every link, at any time and in the end, the number of a global symbol leads to a record with the value and type of what is known of the symbol, if the symbols of the files that name a section are its definition. |
| LinkValues.LocalSays | binutils-2.18/bfd/aoutx.h:4887-5073 | A local symbol is stripped or discarded exactly under the stated options, and otherwise copied with its value moved along with its section, as it is for debug symbols and aliases, or 0; only an alias or a warning has the next symbol passed through. |
| LinkValues.PassedSays | binutils-2.18/bfd/aoutx.h:4836-4842 | A symbol behind an alias or a warning is copied as it is. |
| LinkValues.StartSays | binutils-2.18/bfd/aoutx.h:4764-4800 | A file begins with a text symbol of its name at the start of its text, unless such symbols are left out. |
| LinkValues.GlobalSays | binutils-2.18/bfd/aoutx.h:4887-5073 | A global symbol not yet written is stripped and counts as written, or gets a record with its type and value by what is known of it: its own address if its type names a section, and otherwise the definition, the size or 0. |
| LinkValues.GlobalCopySaysIff | binutils-2.18/bfd/aoutx.h:4908-5026 | The copy of a global symbol has the value of its name if and only if its type names no section or it is where the name is defined, modulo 2^32. |
| LinkValues.FirstCopyDecides | binutils-2.18/bfd/aoutx.h:4822-5049 | A symbol that heads the first file and names a section decides about the record of its name for the whole link: its type stays, and its value is right exactly if it is at the address of the definition. |
| LinkValues.WeakCopyStays | binutils-2.18/bfd/aoutx.h:4822-5049 | There is such a link: a weak definition in the first file and the one that counts in the second leave a weak record with the address of the first. |
| LinkNamed.WantedNumber | binutils-2.18/bfd/aoutx.h:4385-4412 | A symbol that was left out and that relocs ask for has a number in the end exactly if it had one already or is undefined, defined or common. |
| LinkTwice.WrittenSectionIff | binutils-2.18/bfd/aoutx.h:3588-3606 | The record of a defined symbol names the section of its definition exactly unless it is a weak data or weak absolute symbol: marking those external turns their types into weak bss and weak text. |
| LinkTwice.KnownSays | binutils-2.18/bfd/aoutx.h:4491-4509 | What the relocs of a link find out about a symbol from the hash table: the address of a definition or 0, and a complaint exactly if there is no entry, or one neither defined nor weak undefined. |
| LinkTwice.DefinedCarried | binutils-2.18/bfd/aoutx.h:4342-4378 | A symbol the relocatable link has defined is carried over, because its definition comes from a section that both ways of linking put in the same place. |
| LinkTwice.UndefinedCarriedIff | binutils-2.18/bfd/aoutx.h:4379-4424 | A global symbol it does not know is carried over if and only if it has a number in the map or can still be written; the record behind the number is found by name. |
| LinkTwice.BaseRead | binutils-2.18/bfd/aoutx.h:4506-4535 | A base-relative reloc that reads its symbol's record finds the value moved along with its section, if the record was copied in the symbol's own turn. |
| LinkTwice.FileLinkedTwice | binutils-2.18/bfd/aoutx.h:4282-4571 | So, from the symbol loop and the forced symbols on: the relocs of a file, linked twice, agree with a direct link if and only if every one survives. |
| LinkTwice.LinkedTwice | binutils-2.18/bfd/aoutx.h:4282-4571 | The same for any file of any relocatable link from its beginning, with the records that are left in the output after the final traversal. |
| LinkProgram.RewriteSection | binutils-2.18/bfd/aoutx.h:4230-4475 | The relocatable loop on the shared state: relocs are rewritten where they are, and the symbols they ask for are written on the way and numbered as specified. |
| LinkProgram.LinkInput | binutils-2.18/bfd/aoutx.h:5229-5284 | A whole input file: its symbols, then the relocs of text and data; the link changes as specified, and the relocs are right with respect to the symbols as they are in the end. |
| LinkProgram.LinkAll | binutils-2.18/bfd/aoutx.h:5474-5526 | A whole list of files, forced symbols and single writes, and the traversal at the end, leave the state whose properties are proved. |
| LinkRelocs.RewriteOne | binutils-2.18/bfd/aoutx.h:4282-4475 | One turn of the relocatable loop, given the numbers of symbols forced out, with the store left out when nothing changes: writes the specified reloc or fails exactly when there is none. |
| LinkRelocs.RewriteRelocs | binutils-2.18/bfd/aoutx.h:4282-4475 | The loop, given those numbers, rewrites every reloc in place, or fails exactly when one cannot be rewritten; LinkProgram.RewriteSection obtains them. |
| LinkRelocs.ResolveOne | binutils-2.18/bfd/aoutx.h:4476-4610 | One turn of the full-link loop: the patch goes where the place of the reloc has gone; counted from where its type counts (0, the section, or the place itself), its value leads to the addend behind the symbol or section in the output, with 0 for symbols nobody defines; the linker complains exactly of symbols not found or undefined, and fails exactly for unknown types and sections. |
| LinkRelocs.ResolveRelocs | binutils-2.18/bfd/aoutx.h:4476-4610 | The loop yields such a patch for every reloc, or fails exactly when one cannot be told. |
| LinkRecords.ForceOutcome | binutils-2.18/bfd/aoutx.h:3686-3701 | Forcing out a symbol that was stripped gives it a record exactly if it is undefined, defined or common; otherwise its number stays -2. |
| LinkRecords.WriteOtherKeeps | binutils-2.18/bfd/aoutx.h:3531-3646 | Writing a global symbol on its own keeps the invariant between hash entries and records. |
| LinkRecords.StepSteps | binutils-2.18/bfd/aoutx.h:4801-5206 | One turn of the symbol loop keeps the invariant, adds at most one record, settles its own map entry and otherwise only marks later ones. |
| LinkRecords.WriteSymbols | binutils-2.18/bfd/aoutx.h:4746-5224 | A whole file: every map entry is -1, the number of the symbol's own record, or -2 for an entry that can have none; at most one record more than there are symbols. |
| LinkRecords.OneRecordPerGlobal | binutils-2.18/bfd/aoutx.h:3531-3646 | Over every run of files, forced symbols and single writes, a record belongs to an entry exactly if its number is the entry's: at most one record each, and `indx >= 0` if and only if it exists. |
| LinkByName.OneRecordPerName | binutils-2.18/bfd/aoutx.h:4801-5206 | By name: every record that will be found under a global symbol's name is that symbol's own, and the only one, if and only if no symbol of that name was passed through or copied without a hash entry; if one was, and the symbol has a record, there are two. |
| LinkByName.BehindMain | binutils-2.18/bfd/aoutx.h:4926-4940 | A symbol right behind the debug symbol N_MAIN is an example. |
| LinkRecords.MapEntryIff | binutils-2.18/bfd/aoutx.h:4876-4885 | A symbol's map entry is -2 exactly if the loop looks at the symbol and its hash entry is written and stands at -2. |
| LinkRecords.MapIsSoundIff | binutils-2.18/bfd/aoutx.h:4801-5206 | Every entry of a file's map is -1 or the number of the symbol's own record if and only if no symbol does that. |
| LinkRecords.MapIsSound | binutils-2.18/bfd/aoutx.h:5042-5221 | In particular the map of a file is sound as long as no symbol has been forced out in vain. |
| LinkRecords.StuckSymbolLeaks | binutils-2.18/bfd/aoutx.h:4876-4885 | A symbol left at -2 puts -2 into the map of the next file, which its relocs do not recognise as missing. |
| LinkRecords.WeakUndefinedLeaks | binutils-2.18/bfd/aoutx.h:3614-3620 | That happens to a weak undefined symbol, because the case that sets its record has no break and falls into the ignored ones. |
| LinkRecords.StrippedWeakLeaks | binutils-2.18/bfd/aoutx.h:4385-4412 | It happens in a link from its beginning: a weak undefined symbol is stripped from the first file, a reloc there needs it, and the next file uses it. |
| LinkRecords.NothingIsLost | binutils-2.18/bfd/aoutx.h:5523-5526 | When nothing is stripped, after the final traversal every undefined, defined or common symbol has its record. |
| LinkPasses.SumStab | binutils-2.18/bfd/aoutx.h:5107-5119 | The inner loop over a stab computes the sum of its characters but for the digits behind a parenthesis, as StabSumIs tells. |
| LinkPasses.AddUp | binutils-2.18/bfd/aoutx.h:5088-5121 | The loop over a header file adds up its own stabs, as TotalIs tells, and stops at its own end. |
| LinkPasses.MarkIncluded | binutils-2.18/bfd/aoutx.h:5155-5176 | The loop over a duplicate header file marks its own symbols and its own end, and skips nested header files. |
| LinkPasses.FinalLink.PutRecords | binutils-2.18/bfd/aoutx.h:5208-5221 | Records written at the cursor neither overwrite any nor leave a gap. |
| LinkPasses.FinalLink.WriteGlobalSymbol | binutils-2.18/bfd/aoutx.h:3560-3645 | The method on the shared state: hash entry, count, cursor and file change as specified and as LinkValues.WriteOtherSays tells, and the cursor stays 12 times the count from its start. |
| LinkPasses.FinalLink.WriteOtherSymbol | binutils-2.18/bfd/aoutx.h:3531-3646 | The same for a warning, which stands for the symbol it is about. |
| LinkPasses.FinalLink.NeedSymbol | binutils-2.18/bfd/aoutx.h:3686-3701 | Returns the number of a symbol a reloc needs, writing it first if it was left out. |
| LinkPasses.FinalLink.WriteRemaining | binutils-2.18/bfd/aoutx.h:5523-5526 | The traversal at the end of the link. |
| LinkPasses.FinalLink.CopySymbol | binutils-2.18/bfd/aoutx.h:5075-5205 | Copying a symbol, which may begin a header file, puts the record into the buffer, its number into the map and marks a duplicate header file. |
| LinkPasses.FinalLink.LocalSymbol | binutils-2.18/bfd/aoutx.h:4887-5073 | A symbol without a hash entry is stripped, discarded or copied as specified. |
| LinkPasses.FinalLink.GlobalSymbol | binutils-2.18/bfd/aoutx.h:4887-5073 | A symbol whose hash entry is not yet written is stripped or copied under that entry's name, and takes the entry's number. |
| LinkPasses.FinalLink.FindBase | binutils-2.18/bfd/aoutx.h:4863-4874 | Chains of links and warnings end, at the entry that is none. |
| LinkPasses.FinalLink.OneSymbol | binutils-2.18/bfd/aoutx.h:4801-5206 | One turn of the loop on the real arrays does what the specified step does. |
| LinkPasses.FinalLink.FillBuffer | binutils-2.18/bfd/aoutx.h:4801-5206 | The loop never overruns its buffer and carries out all the steps. |
| LinkPasses.FinalLink.Prepare | binutils-2.18/bfd/aoutx.h:4764-4800 | The buffer starts with the symbol naming the file when that is wanted. |
| LinkPasses.FinalLink.WriteFileSymbols | binutils-2.18/bfd/aoutx.h:4746-5224 | The whole of aout_link_write_symbols leaves map, hash entries, header list and file as specified, with `symoff` again 12 times the count past its start. |
| LinkIncludes.ForestOf | binutils-2.18/bfd/aoutx.h:5075-5178 | Every balanced list of symbols is a forest of nested header files. |
| LinkIncludes.TotalPasses | binutils-2.18/bfd/aoutx.h:5088-5121 | The scan of a header file counts exactly its own stabs, at any depth of nesting. |
| LinkIncludes.MarkPasses | binutils-2.18/bfd/aoutx.h:5155-5176 | The scan of a duplicate header file marks exactly the symbols at depth 0. |
| LinkIncludes.BracketsBalanced | binutils-2.18/bfd/aoutx.h:5075-5178 | The brackets that are kept are balanced. |
| LinkHeaders.StepLeaf | binutils-2.18/bfd/aoutx.h:4801-5206 | A symbol that begins or ends no header file leaves the header files as they are, and is kept if it may be. |
| LinkHeaders.ForestLoop | binutils-2.18/bfd/aoutx.h:4801-5206 | The loop over nested symbols has exactly the expected effect on header list, brackets, map and records, if no beginning of a header file is passed through. |
| LinkHeaders.FileHeaders | binutils-2.18/bfd/aoutx.h:5075-5178 | For any balanced file of which no header file is passed through, exactly the depth-0 symbols and the end of a duplicate are dropped, and nested header files are judged for themselves. |
| LinkOnce.FileHeadersIff | binutils-2.18/bfd/aoutx.h:5075-5178 | A balanced file is dealt with as expected if and only if no header file is passed through. |
| LinkOnce.NonePassedIff | binutils-2.18/bfd/aoutx.h:4801-5073 | None is exactly if no beginning of a header file that is looked at stands behind an odd run of indirect-looking symbols or warnings: a condition on the file's symbols. |
| LinkOnce.EachHeaderOnceIff | binutils-2.18/bfd/aoutx.h:5123-5154 | In the whole link, whatever the files and options, the header files begun in the output are those remembered, and no two share name and total, if and only if no beginning of a header file was passed through. |
| LinkOnce.EachHeaderOnce | binutils-2.18/bfd/aoutx.h:5123-5154 | In particular if no special symbol stands directly in front of one. |
| LinkDuplicates.BegunIs | binutils-2.18/bfd/aoutx.h:4801-5206 | In the whole link, whatever the files and options, the header files begun are those remembered and those passed through, each as often. |
| LinkDuplicates.NoHeaderTwiceIff | binutils-2.18/bfd/aoutx.h:5123-5154 | So no header file is begun twice with the same name and the same 32-bit total if and only if no two remembered ones have totals that differ by a multiple of 2^32, and those passed through differ from each other and from the remembered ones. |
| LinkOnce.HeaderTwice | binutils-2.18/bfd/aoutx.h:4926-4940 | A link that fails: N_MAIN in front of a header file hides it, and two files like that begin the same header file twice. |
| LinkBalance.OutputBalanced | binutils-2.18/bfd/aoutx.h:5075-5178 | Balanced files leave the output of the whole link balanced, whether or not header files are passed through. |
| LinkHeaders.FileNumbersIgnored | binutils-2.18/bfd/aoutx.h:5107-5119 | The total does not depend on the digits after any opening parenthesis. |
| LinkStabs.StabSumIs | binutils-2.18/bfd/aoutx.h:5107-5119 | The sum of a stab is the sum of its characters, from 128 on counted as negative, once each run of digits behind an opening parenthesis is removed. |
| LinkStabs.TotalIs | binutils-2.18/bfd/aoutx.h:5088-5121 | The number of a header file is the sum over the stabs that stand directly in it. |
| LinkStabs.SameHeaderIff | binutils-2.18/bfd/aoutx.h:5075-5205 | Of two files with a header file of the same name the second becomes a reference and loses its symbols if and only if their numbers are equal; otherwise both begin in the output, with their own numbers, and all symbols are kept. |
| LinkStabs.OtherCharacterKept | binutils-2.18/bfd/aoutx.h:5075-5205 | In particular a header file with one stab that differs in one character is kept beside the first. |
| LinkCursors.DoneBound | binutils-2.18/bfd/aoutx.h:5335-5396 | The relocs dealt with never exceed the sums made beforehand and reach them exactly when no file with relocs was left out. |
| LinkCursors.AreaGrows | binutils-2.18/bfd/aoutx.h:5335-5396 | The room for relocs of text and data grows by what each file has for that section, by one entry for each reloc of the linker's own there, and by nothing else. |
| LinkCursors.Cursors.Advance | binutils-2.18/bfd/aoutx.h:4720-4737 | Writing within the area keeps the text cursor out of the data area and both out of the symbols: both assertions hold. |
| LinkCursors.Cursors.LinkInput | binutils-2.18/bfd/aoutx.h:5229-5284 | An input file's relocs fit, because it has not been counted before. |
| LinkCursors.Cursors.WriteNewReloc | binutils-2.18/bfd/aoutx.h:3854-3866 | A reloc of the linker's own fits as well. |
| LinkCursors.LinkInputs | binutils-2.18/bfd/aoutx.h:5474-5521 | Each input file is linked once, when its first order comes up. |
| LinkCursors.WriteNewRelocs | binutils-2.18/bfd/aoutx.h:5528-5548 | All relocs of the linker's own are written within their areas. |
| LinkCursors.WriteAllRelocs | binutils-2.18/bfd/aoutx.h:5335-5550 | On every run the cursors stay in bounds, and an area is filled completely exactly when no file had relocs for a section that was left out. |
| AoutLayout.OMagicContiguous | binutils-2.18/bfd/aoutx.h:892-950 | In an object file text, data and bss follow each other in the file after padding; in memory the bss follows the data exactly unless it was put below its end. |
| AoutLayout.OMagicPlaces | binutils-2.18/bfd/aoutx.h:892-950 | In memory each section of an object file is at its user's address or behind the one before; data is made longer only to reach up to a bss its user put above its end. |
| AoutLayout.AdjustOMagic | binutils-2.18/bfd/aoutx.h:892-950 | The assignments to the section fields, one after the other, leave that layout. |
| AoutLayout.PaddedTextEndsPage | binutils-2.18/bfd/aoutx.h:952-1067 | The address after padded text is a page multiple if and only if the text's address was chosen by the user or the address the text starts from is one. |
| AoutLayout.ZMagicPlaces | binutils-2.18/bfd/aoutx.h:952-1067 | In a paged file addresses of the user's are kept, data without one starts with the first segment behind the padded text, the padding is less than one page (two with an address of the user's), data takes up room to the alignment of the bss and in the header to the end of a page, and the header's text counts its own bytes where it should. |
| AoutLayout.ContiguousMeets | binutils-2.18/bfd/aoutx.h:1019-1029 | Where data must follow text, stretched text ends where the data starts, modulo the size of an address. |
| AoutLayout.BssSharesLastPage | binutils-2.18/bfd/aoutx.h:1042-1066 | Data starts in the file where text ends; a_data + a_bss is the larger of a_data and data size plus bss size if and only if bss directly follows data or there is nothing to share. |
| AoutLayout.PadText | binutils-2.18/bfd/aoutx.h:963-1010 | The text is padded by its odd address and up to the end of a page. |
| AoutLayout.PlaceData | binutils-2.18/bfd/aoutx.h:1012-1031 | The data is placed on a segment boundary or where the user wants it, and in the file behind the text. |
| AoutLayout.AdjustZMagic | binutils-2.18/bfd/aoutx.h:952-1067 | The assignments to the section fields and the header, one after the other, leave the specified layout. |
| RelocFields.ShiftIsFloor | binutils-2.18/bfd/aout-tic30.c:443-447 | The shift with its sign extension is division rounding down. |
| RelocFields.PatchedParts | binutils-2.18/bfd/aout-tic30.c:499-501 | Bits outside the field never change. |
| RelocFields.FieldIsSum | binutils-2.18/bfd/aout-tic30.c:499-501 | The new field is the exact sum modulo its size, whatever the check says. |
| RelocFields.Pcrel16Exact | binutils-2.18/bfd/aout-tic30.c:395-522 | The signed 16-bit check accepts exactly the sums that fit, and then the sign-extended field is the sum. |
| RelocFields.Bitfield24Exact | binutils-2.18/bfd/aout-tic30.c:395-522 | The exact set of sums the 24-bit check accepts; all are in [-2^24, 2^24) and the field is the sum modulo 2^24. |
| RelocFields.NeedlessOverflow | binutils-2.18/bfd/aout-tic30.c:485-493 | The 24-bit check also rejects sums that fit: a field of 5 going back by 1. |
| RelocFields.CheckOverflow | binutils-2.18/bfd/aout-tic30.c:427-498 | The branches of the check compute that predicate. |
| RelocFields.RelocateContents | binutils-2.18/bfd/aout-tic30.c:395-522 | Reads, checks and writes back the field's bytes; no other byte changes. |
| RelocFields.BranchExact | binutils-2.18/bfd/aout-arm.c:260-289 | The ARM branch is accepted exactly if the displacement is a multiple of four and fits 26 bits, and then its field decodes to that displacement. |
| RelocFields.BranchLands | binutils-2.18/bfd/aout-arm.c:260-289 | Counted from its place the patched branch leads to the addend behind the symbol and as far on as the instruction said before, whenever that distance is a whole number of words within 32 megabytes; when it is accepted, so modulo 2^64. |
| RelocFields.FixPcrel26 | binutils-2.18/bfd/aout-arm.c:235-290 | All outcomes of fix_pcrel_26: undefined symbol, partial link across sections, misaligned, overflow, patched. |
| MemoryFile.LastWriteWins | binutils-2.18/bfd/bfdio.c:127-188 | Over any run the position stays within the file and a byte is what the last operation that wrote it put there. |
| MemoryFile.InMemory.Grow | binutils-2.18/bfd/bfdio.c:167-184 | The buffer grows to cover the size rounded up to 128, keeping its bytes, or everything is given up when there is no memory; the invariant is kept exactly unless rounding up wraps around. |
| MemoryFile.InMemory.Put | binutils-2.18/bfd/bfdio.c:158-205 | A write refines writing into the plain byte sequence. |
| MemoryFile.InMemory.Get | binutils-2.18/bfd/bfdio.c:114-145 | A read returns what was written last, and is short exactly at the end of the file. |
| MemoryFile.InMemory.MoveTo | binutils-2.18/bfd/bfdio.c:277-317 | A seek past the end lengthens a writable file and stops any other at its end; the buffer covers the size afterwards if and only if the target, modulo 2^64, is not one of the last 127 positions. |
| MemoryFile.WrappedSeekOverruns | binutils-2.18/bfd/bfdio.c:284-304 | Those are the targets -127 to -1 and their equals: on a writable file the size grows, the buffer does not, and the seek succeeds. |
| MemoryFile.Exec | binutils-2.18/bfd/bfdio.c:114-317 | A program of writes, reads and seeks on a buffer gets the answers of the plain byte sequence up to the first overrun, and the buffer covers its size in the end if and only if nothing has overrun. |

## Left out

Deliberate limits of single members:

- BoutAgreement.PassesAgreeIffAligned: relocations do not overlap and lie inside the section, as the assembler guarantees; nothing is said about tables where they do. The same holds for the other members of BoutAgreement and BoutMeaning.
- BoutMeaning.RelaxationPreservesMeaning: a symbol strictly inside a shortened call or a dropped gap still gets the value stated, but no byte of the image stands for it.
- BoutMeaning.ShrunkCallReaches: for targets in the same section and relocations without an addend; an addend counts twice in the code, once in `get_value` and once in the callback, so a call with one may miss.
- BoutPasses.SortTable: the code looks at the element before it compares its bound; the model tests the bound first. Addresses are not negative.
- BoutPasses.GetRelocatedContents: the buffer holds the whole original section, and the link order has the relaxed size.
- CacheIO.CacheIsTransparent: one-way, because the condition is on the operations alone; CacheIO.CacheIsTransparentIff and CacheRuns.RunIsTransparentIff give both directions.
- CachePrograms.Run: reopening and closing succeed and no other files are open; what single operations do when they fail is in the members of Cache.FileCache and in CacheIO.Bread.
- CacheRuns.FindsOpenIff: for files opened by name, so that each can be closed.
- ArRoundTrip.ArchiveRoundTrip: one-way, for fresh headers; ArExact.RoundTripsIff gives both directions.
- ArExact.RoundTripsIff: for files with non-empty names without null and contents shorter than 2^32 bytes, symbol names without null, and, beside a table of long names, no short name that begins with a blank and is not ended by a slash: the reader looks such a name up in the table, where it may be found by chance.
- ArNames.ReadName: the length of a name behind the header is an unbounded number, where atoi has an int.
- ArRoundTrip.MapOpensMembers: for archives shorter than 2^32 bytes, beyond which the 32-bit offsets lose their high part.
- LinkRecords.MapIsSound: one-way; LinkRecords.MapIsSoundIff gives both directions.
- LinkValues.NumberSays: if the symbols of the files that name a section are the definition of their name; LinkValues.GlobalCopySaysIff has the exact condition for one symbol, LinkValues.FirstCopyDecides an effect on a whole link.
- LinkValues.LocalSays: not for the beginning of a header file, whose record LinkHeaders.StepBegin and LinkStabs.SameHeaderIff tell; the same holds for LinkValues.GlobalSays.
- LinkStabs.SameHeaderIff: for files that consist of one header file with nothing nested in it; LinkHeaders.FileHeaders and LinkStabs.TotalIs hold for any nesting.
- LinkHeaders.FileHeaders: nothing is stripped and not everything discarded, debug symbols have no hash entries, and a global indirect symbol or warning is followed by the symbol it is about rather than by a bracket; likewise LinkOnce.NonePassedIff and LinkBalance.OutputBalanced. LinkOnce.EachHeaderOnceIff has none of these conditions. The totals are unbounded integers.
- LinkRelocs.TwoLinksAgreeIff: for relocs that the direct link can resolve and whose symbol is carried over; the value is compared before the field's shift and mask are applied.
- LinkTwice.LinkedTwice: a name means the same in the direct and the final link, a definition in the relocatable link is the one the direct link takes, and sections end up in the same place. Relocs that look their symbol up by name are against symbols without warnings, sets or wrapped names. A base-relative reloc that is not external is against a symbol whose record was copied in its own turn.
- LinkRelocs.NewIndex: for a symbol that is gone and has no hash entry the code complains under a name that it looks up with the number -1; the model has only the 0 that becomes its number.
- LinkTwice.FromRecords: every record of a visible type is looked up by its name; a reading link passes over the one behind an external indirect symbol, whose name that symbol has taken.
- LinkByName.OneRecordPerName: for links without set symbols and warnings.
- AoutLayout.ContiguousMeets: in the arithmetic of 64-bit addresses, where data below the end of text wraps around as in the code.
- RelocFields.Bitfield24Exact: the 16- and 24-bit howtos of the TMS320C30; its 32-bit howto, whose check shifts an int by 31, and the LDP howto are not modelled. Fields start at bit 0, as they all do.
- MemoryFile.InMemory.Put: the data is in memory as well as the file, so the position after it is not one of the last 128 of 2^64; MemoryFile.Exec stops before a write that would be.
- MemoryFile.InMemory.Get: the contents of bytes never written are unspecified.

What the library does and the model does not:

- b.out: wrap-around of addresses, the rewriting of leaf-procedure calls into `bal`, in-place addends of local symbols, the packing of alignment relocations in big-endian headers (written with shift 1, read with shift 5), relaxing a section a second time.
- Cache: writing, archive members (which share their parent's stream), stat, flush and mmap; failures of fseek and ferror. The operating system is reduced to whether opening and closing succeed.
- Archives: truncation of long names in the traditional formats, the guess of a map's byte order, the second BSD map format, 64-bit maps, updating the map's timestamp, the cache of opened members, nested archives, file dates and owners (32 opaque bytes of each header), Windows paths.
- Link: standard relocs, dynamic objects and `check_dynamic_reloc`, callbacks that fail, the string table (records carry their names), the order of the hash table (any order is covered by the runs), wrapped names, relocs against names that cannot be found, symbol numbers beyond 24 bits in the two-link comparison, input files of other formats, discovery of symbol definitions (kinds are fixed while symbols are written).
- Layout: NMAGIC files; object files' padding as an int.
- Relocated fields: the mask arithmetic appears as remainders and quotients of powers of two.
- Core files, target vectors, architecture tables, windows, binary files and the swapping of headers.
