/** bfdio.c above the descriptor cache, and the system without a cache that it must be
    indistinguishable from. */
module CacheIO {
  import opened Bytes
  import opened Wrappers
  import opened Cache

  datatype Whence = Set | Cur

  /** What fread returns for n bytes at a position that may lie past the end. */
  function ReadAt(contents: seq<byte>, pos: nat, n: nat): (got: seq<byte>) {
    if pos >= |contents| then []
    else if pos + n <= |contents| then contents[pos..pos + n]
    else contents[pos..]
  }

  /** The bytes from a position on, as many as asked for, or as there are. */
  predicate IsRead(contents: seq<byte>, pos: nat, n: nat, got: seq<byte>) {
    && |got| <= n && (|got| < n ==> |contents| <= pos + |got|)
    && forall k :: 0 <= k < |got| ==> pos + k < |contents| && got[k] == contents[pos + k]
  }

  lemma ReadIs(contents: seq<byte>, pos: nat, n: nat)
    ensures IsRead(contents, pos, n, ReadAt(contents, pos, n))
  {
  }

  function Target(pos: nat, position: int, direction: Whence): int {
    if direction.Set? then position else pos + position
  }

  /** A seek moves to a position that is not negative, and otherwise fails in place. */
  function SeekTo(pos: nat, position: int, direction: Whence): nat {
    var t := Target(pos, position, direction);
    if t < 0 then pos else t
  }

  // ----- the system that never closes a file

  datatype Op = Read(file: nat, n: nat) | Seek(file: nat, position: int, direction: Whence) | Tell(file: nat)

  datatype Reply = Bytes(got: seq<byte>) | Status(result: int) | Position(where: int)

  function Step(files: seq<seq<byte>>, at: seq<nat>, op: Op): (r: (Reply, seq<nat>))
    requires |at| == |files| && op.file < |files|
    ensures |r.1| == |at|
  {
    var pos := at[op.file];
    match op
    case Read(f, n) =>
      var got := ReadAt(files[f], pos, n);
      (Bytes(got), at[f := pos + |got|])
    case Seek(f, position, direction) =>
      (Status(if Target(pos, position, direction) < 0 then -1 else 0), at[f := SeekTo(pos, position, direction)])
    case Tell(f) =>
      (Position(pos), at)
  }

  predicate OnFiles(ops: seq<Op>, count: nat) {
    forall k :: 0 <= k < |ops| ==> ops[k].file < count
  }

  /** The replies to the first n operations, and the positions after them. */
  function Replies(files: seq<seq<byte>>, at: seq<nat>, ops: seq<Op>, n: nat): (r: (seq<Reply>, seq<nat>))
    requires |at| == |files| && OnFiles(ops, |files|) && n <= |ops|
    ensures |r.0| == n && |r.1| == |at|
  {
    if n == 0 then ([], at)
    else
      var before := Replies(files, at, ops, n - 1);
      var (reply, after) := Step(files, before.1, ops[n - 1]);
      (before.0 + [reply], after)
  }

  // ----- the same with files that may have been closed

  /** Where bfd_seek leaves a file.  Reopening one for an absolute seek starts it at its
      beginning, so when that seek fails the position is lost. */
  function CachedSeekTo(pos: nat, isOpen: bool, position: int, direction: Whence): nat {
    var t := Target(pos, position, direction);
    if t >= 0 then t
    else if isOpen || direction.Cur? then pos
    else 0
  }

  /** A caller can tell beforehand when a seek is as good as one without the cache: it
      is unless the file is closed, away from its start, and the target is absolute and
      negative. */
  lemma SeekTransparentIff(pos: nat, isOpen: bool, position: int, direction: Whence)
    ensures CachedSeekTo(pos, isOpen, position, direction) == SeekTo(pos, position, direction)
            <==> (isOpen || pos == 0 || direction.Cur? || position >= 0)
  {
  }

  function CachedStep(files: seq<seq<byte>>, at: seq<nat>, isOpen: bool, op: Op): (r: (Reply, seq<nat>))
    requires |at| == |files| && op.file < |files|
    ensures |r.1| == |at|
  {
    match op
    case Seek(f, position, direction) =>
      (Status(if Target(at[f], position, direction) < 0 then -1 else 0),
       at[f := CachedSeekTo(at[f], isOpen, position, direction)])
    case _ => Step(files, at, op)
  }

  /** The replies when `opens` says of each operation whether it found its file open. */
  function CachedReplies(files: seq<seq<byte>>, at: seq<nat>, ops: seq<Op>, opens: seq<bool>,
                         n: nat): (r: (seq<Reply>, seq<nat>))
    requires |at| == |files| && OnFiles(ops, |files|) && n <= |ops| && n <= |opens|
    ensures |r.0| == n && |r.1| == |at|
  {
    if n == 0 then ([], at)
    else
      var before := CachedReplies(files, at, ops, opens, n - 1);
      var (reply, after) := CachedStep(files, before.1, opens[n - 1], ops[n - 1]);
      (before.0 + [reply], after)
  }

  predicate NoNegativeSeek(op: Op) {
    op.Seek? && op.direction.Set? ==> op.position >= 0
  }

  /** The cache is transparent: whatever it closed in between, the program sees what it
      would have seen had no file ever been closed. */
  lemma {:induction false} CacheIsTransparent(files: seq<seq<byte>>, at: seq<nat>, ops: seq<Op>, opens: seq<bool>,
                                              n: nat)
    requires |at| == |files| && OnFiles(ops, |files|) && n <= |ops| && n <= |opens|
    requires forall k :: 0 <= k < n ==> NoNegativeSeek(ops[k])
    ensures CachedReplies(files, at, ops, opens, n) == Replies(files, at, ops, n)
  {
    if n > 0 {
      CacheIsTransparent(files, at, ops, opens, n - 1);
      assert NoNegativeSeek(ops[n - 1]);
    }
  }

  /** The k-th operation does not lose the position, as SeekTransparentIff tells: what it
      takes to see that is known before the call. */
  predicate Harmless(files: seq<seq<byte>>, at: seq<nat>, ops: seq<Op>, opens: seq<bool>, k: nat)
    requires |at| == |files| && OnFiles(ops, |files|) && k < |ops| && k < |opens|
  {
    ops[k].Seek? ==>
      opens[k] || Replies(files, at, ops, k).1[ops[k].file] == 0 || ops[k].direction.Cur? || ops[k].position >= 0
  }

  predicate SameSoFar(files: seq<seq<byte>>, at: seq<nat>, ops: seq<Op>, opens: seq<bool>, k: nat)
    requires |at| == |files| && OnFiles(ops, |files|) && k <= |ops| && k <= |opens|
  {
    CachedReplies(files, at, ops, opens, k) == Replies(files, at, ops, k)
  }

  /** Exactly when: replies and positions stay those of the system without a cache for the
      whole of a run if and only if no operation of it makes an absolute seek to a negative
      place on a file that is closed and not at its start. */
  lemma {:induction false} CacheIsTransparentIff(files: seq<seq<byte>>, at: seq<nat>, ops: seq<Op>, opens: seq<bool>,
                                                 n: nat)
    requires |at| == |files| && OnFiles(ops, |files|) && n <= |ops| && n <= |opens|
    ensures (forall k :: 0 <= k <= n ==> SameSoFar(files, at, ops, opens, k))
            <==> (forall k :: 0 <= k < n ==> Harmless(files, at, ops, opens, k))
  {
    if n > 0 {
      CacheIsTransparentIff(files, at, ops, opens, n - 1);
      if SameSoFar(files, at, ops, opens, n - 1) {
        OneOperation(files, at, ops, opens, n - 1);
      }
    }
  }

  lemma OneOperation(files: seq<seq<byte>>, at: seq<nat>, ops: seq<Op>, opens: seq<bool>, k: nat)
    requires |at| == |files| && OnFiles(ops, |files|) && k < |ops| && k < |opens| && SameSoFar(files, at, ops, opens, k)
    ensures SameSoFar(files, at, ops, opens, k + 1) <==> Harmless(files, at, ops, opens, k)
  {
    var here, op := Replies(files, at, ops, k).1, ops[k];
    if op.Seek? {
      SeekTransparentIff(here[op.file], opens[k], op.position, op.direction);
      var cached, plain := CachedStep(files, here, opens[k], op).1, Step(files, here, op).1;
      assert cached[op.file] == CachedSeekTo(here[op.file], opens[k], op.position, op.direction);
      assert plain[op.file] == SeekTo(here[op.file], op.position, op.direction);
    }
  }

  /** What an operation does, in terms of the position it finds the file at and the one it
      leaves it at.  A seek succeeds exactly if it leads to no negative place, and then leads
      there; if not, it stays, except that a closed file is reopened at its start for an
      absolute one. */
  predicate Does(contents: seq<byte>, isOpen: bool, op: Op, from: nat, reply: Reply, to: nat) {
    match op
    case Read(_, n) => reply.Bytes? && IsRead(contents, from, n, reply.got) && to == from + |reply.got|
    case Seek(_, position, Cur) =>
      if from + position >= 0 then reply == Status(0) && to == from + position
      else reply == Status(-1) && to == from
    case Seek(_, position, Set) =>
      if position >= 0 then reply == Status(0) && to == position
      else reply == Status(-1) && to == if isOpen then from else 0
    case Tell(_) => reply == Position(from) && to == from
  }

  predicate DoesOnly(files: seq<seq<byte>>, isOpen: bool, op: Op, at: seq<nat>, reply: Reply, after: seq<nat>)
    requires |at| == |files| && op.file < |files|
  {
    && |after| == |at| && Does(files[op.file], isOpen, op, at[op.file], reply, after[op.file])
    && forall i :: 0 <= i < |at| && i != op.file ==> after[i] == at[i]
  }

  lemma StepDoes(files: seq<seq<byte>>, at: seq<nat>, isOpen: bool, op: Op)
    requires |at| == |files| && op.file < |files|
    ensures var r := CachedStep(files, at, isOpen, op); DoesOnly(files, isOpen, op, at, r.0, r.1)
    ensures var r := Step(files, at, op); DoesOnly(files, true, op, at, r.0, r.1)
  {
    if op.Read? {
      ReadIs(files[op.file], at[op.file], op.n);
    }
  }

  /** So do all operations of a run, without the cache and with it. */
  lemma {:induction false} RepliesDo(files: seq<seq<byte>>, at: seq<nat>, ops: seq<Op>, opens: seq<bool>, n: nat)
    requires |at| == |files| && OnFiles(ops, |files|) && n <= |ops| && n <= |opens|
    ensures forall k :: 0 <= k < n ==>
              DoesOnly(files, true, ops[k], Replies(files, at, ops, k).1, Replies(files, at, ops, n).0[k],
                       Replies(files, at, ops, k + 1).1)
    ensures forall k :: 0 <= k < n ==>
              DoesOnly(files, opens[k], ops[k], CachedReplies(files, at, ops, opens, k).1,
                       CachedReplies(files, at, ops, opens, n).0[k], CachedReplies(files, at, ops, opens, k + 1).1)
  {
    hide DoesOnly, Step, CachedStep;
    if n > 0 {
      RepliesDo(files, at, ops, opens, n - 1);
      StepDoes(files, Replies(files, at, ops, n - 1).1, opens[n - 1], ops[n - 1]);
      StepDoes(files, CachedReplies(files, at, ops, opens, n - 1).1, opens[n - 1], ops[n - 1]);
    }
  }

  // ----- the operations on the cache

  /** The stream has moved and bfdio has followed. */
  method MoveStream(c: FileCache, b: Bfd, pos: nat)
    requires c.ValidBut(b) && b in c.known && b.iostream.Some?
    modifies b`iostream, b`where
    ensures c.Valid() && b.where == pos && b.iostream == Some(pos)
  {
    b.iostream := Some(pos);
    b.where := pos;
  }

  /** cache_bread under bfd_bread. */
  method Bread(c: FileCache, env: Env, b: Bfd, size: nat) returns (got: seq<byte>)
    requires c.Valid() && b in c.known
    modifies c`last, c`ring, c`open, c`uses, c`openFiles
    modifies c.known`lruNext, c.known`lruPrev, c.known`iostream, c.known`where, c.known`mtimeSet, b`cacheable
    ensures c.Valid()
    ensures env.openOk && env.closeOk ==>
      got == ReadAt(b.contents, old(b.where), size) && IsRead(b.contents, old(b.where), size, got)
    ensures got == ReadAt(b.contents, old(b.where), size) || got == []
    ensures b.where == old(b.where) + |got|
    ensures size > 0 && env.openOk && env.closeOk ==> c.ring == old(c.UsedRing(b))
    ensures size == 0 ==> c.ring == old(c.ring)
    ensures b.cacheable == (old(b.cacheable) || (size > 0 && old(b.iostream).None?))
    ensures forall o :: o in c.known && o != b ==> o.where == old(o.where)
  {
    ReadIs(b.contents, b.where, size);
    got := [];
    if size == 0 {
      return;
    }
    var f := c.Lookup(env, b, false, false);
    if f {
      got := ReadAt(b.contents, b.iostream.value, size);
      MoveStream(c, b, b.iostream.value + |got|);
    }
  }

  /** cache_btell under bfd_tell, which makes `where` agree with the stream. */
  method Btell(c: FileCache, env: Env, b: Bfd) returns (ptr: int)
    requires c.ValidBut(b) && b in c.known
    modifies c`last, c`ring, c`open, c`uses, c`openFiles
    modifies c.known`lruNext, c.known`lruPrev, c.known`iostream, c.known`where, c.known`mtimeSet, b`cacheable
    ensures c.Valid()
    ensures c.ring == (if old(b.iostream).Some? then old(c.UsedRing(b)) else old(c.ring))
    ensures b.cacheable == old(b.cacheable)
    ensures ptr == b.where == if old(b.iostream).Some? then old(b.iostream).value else old(b.where)
    ensures forall o :: o in c.known && o != b ==> o.where == old(o.where)
  {
    var f := c.Lookup(env, b, true, false);
    if f {
      MoveStream(c, b, b.iostream.value);
    }
    ptr := b.where;
  }

  /** cache_bseek: true means that the stream was there to be moved. */
  method CacheSeek(c: FileCache, env: Env, b: Bfd, position: int, direction: Whence) returns (result: int)
    requires c.Valid() && b in c.known
    modifies c`last, c`ring, c`open, c`uses, c`openFiles
    modifies c.known`lruNext, c.known`lruPrev, c.known`iostream, c.known`where, c.known`mtimeSet, b`cacheable
    ensures c.ValidBut(b)
    ensures result == 0 ==> b.iostream == Some(Target(old(b.where), position, direction))
    ensures result == 0 ==> 0 <= Target(old(b.where), position, direction)
    ensures result == 0 ==> b.iostream == Some(if direction.Cur? then old(b.where) + position else position)
    ensures result != 0 ==> result == -1
    ensures result != 0 && b.iostream.Some? ==>
      Target(old(b.where), position, direction) < 0
      && b.iostream.value == if old(b.iostream).None? && direction.Set? then 0 else b.where
    ensures result != 0 && b.iostream.None? ==> !(env.openOk && env.closeOk)
    ensures b.iostream.Some? ==> c.ring == old(c.UsedRing(b))
    ensures b.cacheable == (old(b.cacheable) || old(b.iostream).None?)
    ensures forall o :: o in c.known ==> o.where == old(o.where)
  {
    hide Linked, ByUse;
    var f := c.Lookup(env, b, false, direction.Set?);
    if !f {
      return -1;
    }
    var t := if direction.Set? then position else b.iostream.value + position;
    if t < 0 {
      return -1;
    }
    c.MoveStream(b, t);
    result := 0;
  }

  lemma UsedFirst(s: seq<Bfd>, b: Bfd)
    requires s != [] && s[0] == b
    ensures Find(s, b) == 0 && [b] + Without(s, 0) == s
  {
  }

  /** The file is believed to be at its target, and is not looked up. */
  predicate Stays(pos: nat, position: int, direction: Whence) {
    if direction.Cur? then position == 0 else position == pos
  }

  /** bfd_seek. */
  method Bseek(c: FileCache, env: Env, b: Bfd, position: int, direction: Whence) returns (result: int)
    requires c.Valid() && b in c.known
    modifies c`last, c`ring, c`open, c`uses, c`openFiles
    modifies c.known`lruNext, c.known`lruPrev, c.known`iostream, c.known`where, c.known`mtimeSet, b`cacheable
    ensures c.Valid()
    ensures env.openOk && env.closeOk ==>
      && result == (if Target(old(b.where), position, direction) < 0 then -1 else 0)
      && b.where == CachedSeekTo(old(b.where), old(b.iostream).Some?, position, direction)
      && c.ring == if Stays(old(b.where), position, direction) then old(c.ring) else old(c.UsedRing(b))
    ensures env.openOk && env.closeOk && direction.Cur? ==>
      && result == (if old(b.where) + position >= 0 then 0 else -1)
      && b.where == if result == 0 then old(b.where) + position else old(b.where)
    ensures env.openOk && env.closeOk && direction.Set? && position >= 0 ==> result == 0 && b.where == position
    ensures env.openOk && env.closeOk && direction.Set? && position < 0 ==>
      result == -1 && b.where == if old(b.iostream).Some? then old(b.where) else 0
    ensures b.cacheable == (old(b.cacheable) || (!Stays(old(b.where), position, direction) && old(b.iostream).None?))
    ensures forall o :: o in c.known && o != b ==> o.where == old(o.where)
  {
    if direction.Cur? && position == 0 {
      return 0;
    }
    if direction.Set? && position == b.where {
      return 0;                  // the file is believed to be there already
    }
    result := CacheSeek(c, env, b, position, direction);
    if result != 0 {
      if b.iostream.Some? {
        UsedFirst(c.ring, b);
      }
      var _ := Btell(c, env, b);
    } else {
      MoveStream(c, b, if direction.Set? then position else b.where + position);
    }
  }
}
