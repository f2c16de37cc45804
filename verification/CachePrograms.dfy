/** Programs on the real ring of heap nodes do what is computed by file numbers. */
module CachePrograms {
  import opened Bytes
  import opened Wrappers
  import opened Cache
  import opened CacheIO
  import opened CacheRuns

  function Contents(bs: seq<Bfd>): (files: seq<seq<byte>>)
    ensures |files| == |bs|
    ensures forall i :: 0 <= i < |bs| ==> files[i] == bs[i].contents
  {
    seq(|bs|, i requires 0 <= i < |bs| => bs[i].contents)
  }

  /** The heap's ring is that of the numbers. */
  ghost predicate Images(nodes: seq<Bfd>, bs: seq<Bfd>, ring: seq<nat>) {
    |nodes| == |ring| && forall i :: 0 <= i < |ring| ==> ring[i] < |bs| && nodes[i] == bs[ring[i]]
  }

  ghost predicate Mirrors(c: FileCache, bs: seq<Bfd>, s: Sys)
    reads c, bs
  {
    && SysOk(s, |bs|) && Distinct(bs) && Images(c.ring, bs, s.ring)
    && forall i :: 0 <= i < |bs| ==> bs[i].where == s.at[i] && bs[i].cacheable == s.flags[i]
  }

  ghost predicate Managed(c: FileCache, bs: seq<Bfd>)
    reads c, c.known
  {
    c.Valid() && forall i :: 0 <= i < |bs| ==> bs[i] in c.known
  }

  lemma {:induction false} FirstPlace(nodes: seq<Bfd>, b: Bfd, k: nat)
    requires k < |nodes| && nodes[k] == b && forall i :: 0 <= i < k ==> nodes[i] != b
    ensures Find(nodes, b) == k
  {
  }

  lemma SamePlace(nodes: seq<Bfd>, bs: seq<Bfd>, ring: seq<nat>, f: nat)
    requires Images(nodes, bs, ring) && Distinct(bs) && f < |bs|
    ensures Find(nodes, bs[f]) == Find(ring, f)
  {
    var k := Find(ring, f);
    if k >= 0 {
      FirstPlace(nodes, bs[f], k);
    } else {
      assert forall i :: 0 <= i < |nodes| ==> nodes[i] == bs[ring[i]] && ring[i] != f;
    }
  }

  lemma {:induction false} SameVictim(nodes: seq<Bfd>, bs: seq<Bfd>, ring: seq<nat>, flags: seq<bool>)
    requires Images(nodes, bs, ring) && |flags| == |bs|
    requires forall i :: 0 <= i < |bs| ==> bs[i].cacheable == flags[i]
    ensures Victim(nodes) == LastClosable(ring, flags)
  {
    if ring != [] {
      var last := |ring| - 1;
      assert nodes[last] == bs[ring[last]];
      SameVictim(nodes[..last], bs, ring[..last], flags);
    }
  }

  lemma ImageWithout(nodes: seq<Bfd>, bs: seq<Bfd>, ring: seq<nat>, k: nat, f: nat)
    requires Images(nodes, bs, ring) && k < |ring| && f < |bs|
    ensures Images([bs[f]] + Without(nodes, k), bs, [f] + Without(ring, k))
  {
  }

  lemma ImageWith(nodes: seq<Bfd>, bs: seq<Bfd>, ring: seq<nat>, f: nat)
    requires Images(nodes, bs, ring) && f < |bs|
    ensures Images([bs[f]] + nodes, bs, [f] + ring)
  {
  }

  /** Looking a file up changes both rings alike. */
  lemma SameUse(c: FileCache, bs: seq<Bfd>, s: Sys, f: nat)
    requires Mirrors(c, bs, s) && f < |bs|
    ensures Images(c.UsedRing(bs[f]), bs, Used(s.ring, s.flags, f))
  {
    hide Images;
    SamePlace(c.ring, bs, s.ring, f);
    SameVictim(c.ring, bs, s.ring, s.flags);
    var k, v := Find(s.ring, f), LastClosable(s.ring, s.flags);
    assert |c.ring| == |s.ring| by {
      SameLength(c.ring, bs, s.ring);
    }
    ImageWith(c.ring, bs, s.ring, f);
    if k >= 0 {
      ImageWithout(c.ring, bs, s.ring, k, f);
    } else if v >= 0 {
      ImageWithout(c.ring, bs, s.ring, v, f);
    }
  }

  lemma SameLength(nodes: seq<Bfd>, bs: seq<Bfd>, ring: seq<nat>)
    requires Images(nodes, bs, ring)
    ensures |nodes| == |ring|
  {
  }

  /** A file is open exactly if its number is in the ring. */
  lemma OpenMeansInRing(c: FileCache, bs: seq<Bfd>, s: Sys, f: nat)
    requires Managed(c, bs) && Mirrors(c, bs, s) && f < |bs|
    ensures bs[f].iostream.Some? <==> f in s.ring
    ensures bs[f] in c.ring <==> f in s.ring
  {
    SamePlace(c.ring, bs, s.ring, f);
  }

  /** What a file's own operation does to the picture, and to nothing else of it. */
  ghost predicate Moved(c: FileCache, bs: seq<Bfd>, s: Sys, f: nat, ring: seq<nat>, pos: nat, flag: bool)
    requires SysOk(s, |bs|) && f < |bs|
    reads c, bs
  {
    && Images(c.ring, bs, ring) && bs[f].where == pos && bs[f].cacheable == flag
    && forall i :: 0 <= i < |bs| && i != f ==> bs[i].where == s.at[i] && bs[i].cacheable == s.flags[i]
  }

  lemma MirrorsAfter(c: FileCache, bs: seq<Bfd>, s: Sys, op: Op, pos: nat, flag: bool, s': Sys)
    requires op.file < |bs| && Distinct(bs) && SysOk(s, |bs|) && SysOk(s', |bs|)
    requires Moved(c, bs, s, op.file, s'.ring, pos, flag)
    requires s'.at == s.at[op.file := pos] && s'.flags == s.flags[op.file := flag]
    ensures Mirrors(c, bs, s')
  {
  }

  method DoRead(c: FileCache, bs: seq<Bfd>, b: Bfd, f: nat, n: nat, ghost s: Sys) returns (got: seq<byte>)
    requires Managed(c, bs) && Mirrors(c, bs, s) && f < |bs| && bs[f] == b
    modifies c`last, c`ring, c`open, c`uses, c`openFiles
    modifies c.known`lruNext, c.known`lruPrev, c.known`iostream, c.known`where, c.known`mtimeSet, b`cacheable
    ensures Managed(c, bs)
    ensures got == ReadAt(bs[f].contents, s.at[f], n)
    ensures Moved(c, bs, s, f, if n > 0 then Used(s.ring, s.flags, f) else s.ring, s.at[f] + |got|,
                  s.flags[f] || (n > 0 && f !in s.ring))
  {
    hide Linked, ByUse, Used, Images;
    OpenMeansInRing(c, bs, s, f);
    SameUse(c, bs, s, f);
    got := Bread(c, Env(true, true), b, n);
  }

  method DoSeek(c: FileCache, bs: seq<Bfd>, b: Bfd, f: nat, position: int, direction: Whence, ghost s: Sys)
      returns (result: int)
    requires Managed(c, bs) && Mirrors(c, bs, s) && f < |bs| && bs[f] == b
    modifies c`last, c`ring, c`open, c`uses, c`openFiles
    modifies c.known`lruNext, c.known`lruPrev, c.known`iostream, c.known`where, c.known`mtimeSet, b`cacheable
    ensures Managed(c, bs)
    ensures result == if Target(s.at[f], position, direction) < 0 then -1 else 0
    ensures var stays := Stays(s.at[f], position, direction);
            Moved(c, bs, s, f, if stays then s.ring else Used(s.ring, s.flags, f),
                  CachedSeekTo(s.at[f], f in s.ring, position, direction), s.flags[f] || (!stays && f !in s.ring))
  {
    hide Linked, ByUse, Used, Images;
    OpenMeansInRing(c, bs, s, f);
    SameUse(c, bs, s, f);
    result := Bseek(c, Env(true, true), b, position, direction);
  }

  method DoTell(c: FileCache, bs: seq<Bfd>, b: Bfd, f: nat, ghost s: Sys) returns (ptr: int)
    requires Managed(c, bs) && Mirrors(c, bs, s) && f < |bs| && bs[f] == b
    modifies c`last, c`ring, c`open, c`uses, c`openFiles
    modifies c.known`lruNext, c.known`lruPrev, c.known`iostream, c.known`where, c.known`mtimeSet, b`cacheable
    ensures Managed(c, bs)
    ensures ptr == s.at[f]
    ensures Moved(c, bs, s, f, if f in s.ring then Used(s.ring, s.flags, f) else s.ring, s.at[f], s.flags[f])
  {
    hide Linked, ByUse, Used, Images;
    OpenMeansInRing(c, bs, s, f);
    SameUse(c, bs, s, f);
    ptr := Btell(c, Env(true, true), b);
  }

  /** One operation of a program, on the file it names. */
  method Do(c: FileCache, bs: seq<Bfd>, op: Op, ghost s: Sys) returns (reply: Reply)
    requires Managed(c, bs) && Mirrors(c, bs, s) && op.file < |bs|
    modifies c`last, c`ring, c`open, c`uses, c`openFiles
    modifies c.known`lruNext, c.known`lruPrev, c.known`iostream, c.known`where, c.known`mtimeSet, c.known`cacheable
    ensures Managed(c, bs)
    ensures Mirrors(c, bs, SysStep(Contents(bs), s, op).1)
    ensures reply == SysStep(Contents(bs), s, op).0
  {
    hide Linked, ByUse, Used, Images;
    ghost var s' := SysStep(Contents(bs), s, op).1;
    match op
    case Read(f, n) =>
      var got := DoRead(c, bs, bs[f], f, n, s);
      reply := Bytes(got);
      MirrorsAfter(c, bs, s, op, s.at[f] + |got|, s.flags[f] || (n > 0 && f !in s.ring), s');
    case Seek(f, position, direction) =>
      var result := DoSeek(c, bs, bs[f], f, position, direction, s);
      reply := Status(result);
      MirrorsAfter(c, bs, s, op, CachedSeekTo(s.at[f], f in s.ring, position, direction),
                   s.flags[f] || (!Stays(s.at[f], position, direction) && f !in s.ring), s');
    case Tell(f) =>
      var ptr := DoTell(c, bs, bs[f], f, s);
      reply := Position(ptr);
      MirrorsAfter(c, bs, s, op, s.at[f], s.flags[f], s');
  }

  /** The operations of a program, one after the other. */
  method DoAll(c: FileCache, bs: seq<Bfd>, ops: seq<Op>, ghost s: Sys) returns (replies: seq<Reply>)
    requires Managed(c, bs) && Mirrors(c, bs, s) && OnFiles(ops, |bs|)
    modifies c`last, c`ring, c`open, c`uses, c`openFiles
    modifies c.known`lruNext, c.known`lruPrev, c.known`iostream, c.known`where, c.known`mtimeSet, c.known`cacheable
    ensures Managed(c, bs)
    ensures replies == SysRun(Contents(bs), s, ops, |ops|).0
    ensures Mirrors(c, bs, SysRun(Contents(bs), s, ops, |ops|).1)
  {
    assert SysOk(s, |Contents(bs)|);
    NoSteps(Contents(bs), s, ops);
    hide Mirrors, Managed, SysStep, SysRun, SysOk, Contents;
    replies := [];
    for n := 0 to |ops|
      invariant Managed(c, bs)
      invariant replies == SysRun(Contents(bs), s, ops, n).0
      invariant Mirrors(c, bs, SysRun(Contents(bs), s, ops, n).1)
    {
      OneStep(Contents(bs), s, ops, n);
      var reply := Do(c, bs, ops[n], SysRun(Contents(bs), s, ops, n).1);
      replies := replies + [reply];
    }
  }

  /** Any program of reads, seeks and tells on any number of files, when reopening succeeds
      and no other files are open: the replies are those computed by file numbers, and every
      operation does what it should from the position it finds.  So, by RunIsTransparentIff,
      the replies are those of a system that never closes a file, unless there is an
      operation that loses its place. */
  method Run(c: FileCache, bs: seq<Bfd>, ops: seq<Op>, ghost s: Sys) returns (replies: seq<Reply>)
    requires Managed(c, bs) && Mirrors(c, bs, s) && OnFiles(ops, |bs|)
    modifies c`last, c`ring, c`open, c`uses, c`openFiles
    modifies c.known`lruNext, c.known`lruPrev, c.known`iostream, c.known`where, c.known`mtimeSet, c.known`cacheable
    ensures Managed(c, bs)
    ensures replies == SysRun(Contents(bs), s, ops, |ops|).0
    ensures Mirrors(c, bs, SysRun(Contents(bs), s, ops, |ops|).1)
    ensures |replies| == |ops| && AllDo(Contents(bs), s, ops, replies)
    ensures (forall k :: 0 <= k < |ops| ==> KeepsPlace(Contents(bs), s, ops, k)) ==>
              replies == Replies(Contents(bs), s.at, ops, |ops|).0
  {
    assert SysOk(s, |Contents(bs)|);
    AsTold(Contents(bs), s, ops);
    hide Mirrors, Managed, SysStep, SysRun, SysOk, Contents, AllDo, KeepsPlace, Replies;
    replies := DoAll(c, bs, ops, s);
  }

  lemma NoSteps(files: seq<seq<byte>>, s: Sys, ops: seq<Op>)
    requires SysOk(s, |files|) && OnFiles(ops, |files|)
    ensures SysRun(files, s, ops, 0) == ([], s)
  {
  }

  lemma AsTold(files: seq<seq<byte>>, s: Sys, ops: seq<Op>)
    requires SysOk(s, |files|) && OnFiles(ops, |files|)
    ensures AllDo(files, s, ops, SysRun(files, s, ops, |ops|).0)
    ensures (forall k :: 0 <= k < |ops| ==> KeepsPlace(files, s, ops, k)) ==>
              SysRun(files, s, ops, |ops|).0 == Replies(files, s.at, ops, |ops|).0
  {
    hide SysRun, Replies, KeepsPlace, DoesOnly, FindsOpen;
    RunDoes(files, s, ops, |ops|);
    RunIsTransparentIff(files, s, ops);
    if forall k :: 0 <= k < |ops| ==> KeepsPlace(files, s, ops, k) {
      assert Unnoticed(files, s, ops, |ops|);
    }
  }

  // ----- a program that notices

  /** Files that have been opened by name, and closed again. */
  predicate AllClosed(s: Sys) {
    s.ring == [] && forall i :: 0 <= i < |s.at| && i < |s.flags| ==> s.at[i] == 0 && s.flags[i]
  }

  lemma NoElements(s: seq<Bfd>)
    ensures Elements(s) == {} <==> s == []
  {
    if s != [] {
      assert s[0] in Elements(s);
    }
  }

  /** Opens and closes one more file. */
  method OneMore(c: FileCache, ghost bs: seq<Bfd>, contents: seq<byte>, ghost s: Sys) returns (b: Bfd)
    requires Managed(c, bs) && Mirrors(c, bs, s) && c.open == {}
    modifies c`last, c`ring, c`open, c`uses, c`openFiles, c`known
    modifies c.known`lruNext, c.known`lruPrev, c.known`iostream, c.known`where, c.known`mtimeSet
    ensures fresh(b) && b.contents == contents && c.open == {} && fresh(c.known - old(c.known))
    ensures Managed(c, bs + [b]) && Mirrors(c, bs + [b], Sys(s.at + [0], [], s.flags + [true]))
  {
    hide Linked, ByUse;
    var n := c.FOpen(Env(true, true), contents, true);
    b := n;
    var _ := c.Close(Env(true, true), b);
    NoElements(c.ring);
  }

  method ClosedFiles(contents: seq<seq<byte>>) returns (c: FileCache, bs: seq<Bfd>, ghost s: Sys)
    ensures Managed(c, bs) && Mirrors(c, bs, s) && AllClosed(s) && Contents(bs) == contents
    ensures fresh(c) && fresh(c.known)
  {
    c := new FileCache();
    bs, s := [], Sys([], [], []);
    for n := 0 to |contents|
      invariant Managed(c, bs) && Mirrors(c, bs, s) && c.open == {} && AllClosed(s) && |bs| == n
      invariant forall i :: 0 <= i < n ==> bs[i].contents == contents[i]
      invariant fresh(c) && fresh(c.known)
    {
      hide Managed, Mirrors;
      var b := OneMore(c, bs, contents[n], s);
      bs, s := bs + [b], Sys(s.at + [0], [], s.flags + [true]);
    }
  }

  /** Eleven files in a real cache: the first byte of the first is read twice. */
  method LosePlace(contents: seq<seq<byte>>, a: byte, b: byte) returns (replies: seq<Reply>)
    requires |contents| == 11 && NoneEmpty(contents) && contents[0] == [a, b] && a != b
    ensures |replies| == 13 && replies[12] == Bytes([a])
    ensures Replies(contents, Eleven().at, NoticingRun(), 13).0[12] == Bytes([b])
  {
    var c, bs;
    ghost var s;
    c, bs, s := ClosedFiles(contents);
    assert s == Eleven();
    EvictedSeekIsVisible(contents, a, b);
    hide NoticingRun, SysRun, Replies, KeepsPlace;
    replies := Run(c, bs, NoticingRun(), s);
  }
}
