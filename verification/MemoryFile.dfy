/** A file that is kept in memory: a buffer that grows in steps of 128 bytes, behaving like
    a plain sequence of bytes with a position. */
module MemoryFile {
  import opened Bytes
  import opened Rounding
  import opened Wrappers

  const CHUNK: int := 128
  const W64: int := 0x1_0000_0000_0000_0000

  // ----- the plain file

  /** The bytes of a file, as far as anyone has written them, and the position. */
  datatype Plain = Plain(contents: seq<Option<byte>>, where: nat)

  /** Contents with some bytes written over them or behind them. */
  function Overlay(c: seq<Option<byte>>, at: nat, data: seq<byte>): (c': seq<Option<byte>>)
    ensures |c'| == if at + |data| > |c| then at + |data| else |c|
  {
    seq(if at + |data| > |c| then at + |data| else |c|,
        k => if at <= k < at + |data| then Some(data[k - at]) else if 0 <= k < |c| then c[k] else None)
  }

  /** Longer contents; nobody knows what is in the new part. */
  function Extended(c: seq<Option<byte>>, size: nat): (c': seq<Option<byte>>)
    ensures |c'| == if size > |c| then size else |c|
  {
    Overlay(c, size, [])
  }

  /** How much of n bytes can be read. */
  function Readable(p: Plain, n: nat): (get: nat)
    ensures get <= n && (p.where <= |p.contents| ==> p.where + get <= |p.contents|)
    ensures get < n ==> p.where + get >= |p.contents|
  {
    if p.where + n <= |p.contents| then n else if |p.contents| < p.where then 0 else |p.contents| - p.where
  }

  /** These bytes can have been read. */
  predicate Reads(p: Plain, n: nat, data: seq<byte>) {
    && |data| == Readable(p, n)
    && forall k :: 0 <= k < |data| && p.where + k < |p.contents| && p.contents[p.where + k].Some? ==>
       data[k] == p.contents[p.where + k].value
  }

  datatype Op = Write(data: seq<byte>) | Read(n: nat) | Seek(target: int) | SeekBy(distance: int)

  /** Positions are unsigned numbers of 64 bits: one before the start lies very far out. */
  function Position(target: int): (where: nat)
    ensures where < W64
    ensures 0 <= target < W64 ==> where == target
  {
    target % W64
  }

  /** A seek past the end makes a writable file longer and stops at the end of any other. */
  function SeekTo(p: Plain, writable: bool, target: int): (q: Plain)
    ensures q.where <= |q.contents| && |p.contents| <= |q.contents|
    ensures forall k :: 0 <= k < |p.contents| ==> q.contents[k] == p.contents[k]
  {
    if Position(target) <= |p.contents| then p.(where := Position(target))
    else if writable then Plain(Extended(p.contents, Position(target)), Position(target))
    else p.(where := |p.contents|)
  }

  /** What an operation makes of the plain file when memory does not run out. */
  function Step(p: Plain, writable: bool, op: Op): Plain
  {
    match op
    case Write(data) => Plain(Overlay(p.contents, p.where, data), p.where + |data|)
    case Read(n) => p.(where := p.where + Readable(p, n))
    case Seek(target) => SeekTo(p, writable, target)
    case SeekBy(distance) => SeekTo(p, writable, p.where + distance)
  }

  function Run(p: Plain, writable: bool, ops: seq<Op>, n: nat): Plain
    requires n <= |ops|
  {
    if n == 0 then p else Step(Run(p, writable, ops, n - 1), writable, ops[n - 1])
  }

  /** Whether the j-th operation writes byte k. */
  predicate Covers(p: Plain, writable: bool, ops: seq<Op>, j: nat, k: nat)
    requires j < |ops|
  {
    ops[j].Write? && Run(p, writable, ops, j).where <= k < Run(p, writable, ops, j).where + |ops[j].data|
  }

  /** Over any run the position stays within the file, the file never shrinks, and a byte
      is what the last operation that wrote it has put there. */
  lemma {:induction false} LastWriteWins(p: Plain, writable: bool, ops: seq<Op>, n: nat, k: nat, j: nat)
    requires p.where <= |p.contents| && n <= |ops|
    ensures Run(p, writable, ops, n).where <= |Run(p, writable, ops, n).contents|
    ensures |p.contents| <= |Run(p, writable, ops, n).contents|
    ensures j < n && Covers(p, writable, ops, j, k) && (forall i :: j < i < n ==> !Covers(p, writable, ops, i, k)) ==>
              k < |Run(p, writable, ops, n).contents|
              && Run(p, writable, ops, n).contents[k] == Some(ops[j].data[k - Run(p, writable, ops, j).where])
  {
    hide Position, Overlay, SeekTo;
    if n > 0 {
      LastWriteWins(p, writable, ops, n - 1, k, j);
      var before := Run(p, writable, ops, n - 1);
      if j < n && Covers(p, writable, ops, j, k) && forall i :: j < i < n ==> !Covers(p, writable, ops, i, k) {
        assert j < n - 1 ==> !Covers(p, writable, ops, n - 1, k);
        StepAt(before, writable, ops[n - 1], k);
      }
    }
  }

  lemma StepAt(p: Plain, writable: bool, op: Op, k: nat)
    requires k < |p.contents| || (op.Write? && p.where <= k < p.where + |op.data|)
    ensures k < |Step(p, writable, op).contents|
    ensures Step(p, writable, op).contents[k]
            == if op.Write? && p.where <= k < p.where + |op.data| then Some(op.data[k - p.where]) else p.contents[k]
  {
  }

  // ----- the buffer

  class InMemory {
    var size: nat
    var buffer: array?<byte>
    var where: nat
    const writable: bool
    ghost var contents: seq<Option<byte>>

    constructor (writable: bool)
      ensures Valid() && Now() == Plain([], 0) && this.writable == writable
    {
      size, buffer, where, contents := 0, null, 0, [];
      this.writable := writable;
    }

    /** The capacity covers the size rounded up, and the buffer, which is in memory, holds
        what was written. */
    ghost predicate Valid()
      reads this, buffer
    {
      && |contents| == size
      && (if buffer == null then size == 0 else RoundUp(size, CHUNK) <= buffer.Length < W64)
      && forall k :: 0 <= k < size && contents[k].Some? ==> buffer[k] == contents[k].value
    }

    ghost function Now(): Plain
      reads this
    {
      Plain(contents, where)
    }

    /** Makes the file longer; without memory everything is gone. */
    method Grow(newSize: nat, memory: bool) returns (ok: bool)
      requires Valid() && size < newSize < W64
      modifies this`size, this`buffer, this`contents
      ensures buffer == old(buffer) || buffer == null || fresh(buffer)
      ensures memory ==> ok
      ensures ok ==> contents == Extended(old(contents), newSize) && size == newSize
      ensures !ok ==> size == 0 && buffer == null
      ensures Valid() <==> !Overruns(newSize)
      ensures Overruns(newSize) ==> ok && buffer == old(buffer)
    {
      hide Position, RoundUp;
      var oldCapacity := Position(RoundUp(size, CHUNK));
      var capacity := Position(RoundUp(newSize, CHUNK));
      Capacities(size);
      Capacities(newSize);
      if capacity > oldCapacity {
        if !memory {
          size, buffer, contents := 0, null, [];
          return false;
        }
        var bigger := new byte[capacity];
        if buffer != null {
          CopyInto(bigger, buffer, size);
        }
        buffer := bigger;
      }
      size := newSize;
      contents := Extended(contents, newSize);
      ok := true;
    }

    /** bfd_bwrite.  The file and what is written to it are both in memory, and so short of
        the last positions there are. */
    method Put(data: seq<byte>, memory: bool) returns (written: nat)
      requires Valid() && where + |data| <= W64 - CHUNK
      modifies this, buffer
      ensures Valid() && (buffer == old(buffer) || buffer == null || fresh(buffer))
      ensures written == |data| || (!memory && written == 0)
      ensures memory ==> written == |data|
      ensures written == |data| && (memory || |data| > 0) ==> Now() == Step(old(Now()), writable, Write(data))
      ensures written == 0 && !memory && |data| > 0 ==> size == 0 && where == old(where)
    {
      hide RoundUp, SeekTo, Readable;
      ghost var was := contents;
      if where + |data| > size {
        var ok := Grow(where + |data|, memory);
        if !ok {
          return 0;
        }
      }
      contents := Overlay(was, where, data);
      if data != [] {
        CopySeq(buffer, where, data);
      }
      where := where + |data|;
      written := |data|;
    }

    /** bfd_bread: less than what was asked for only at the end of the file. */
    method Get(n: nat) returns (data: seq<byte>, truncated: bool)
      requires Valid()
      modifies this`where
      ensures Valid() && Reads(old(Now()), n, data)
      ensures truncated <==> old(where) + n > size
      ensures Now() == Step(old(Now()), writable, Read(n))
    {
      var get := n;
      truncated := where + n > size;
      if truncated {
        get := if size < where then 0 else size - where;
      }
      data := if get == 0 then [] else buffer[where..where + get];
      where := where + get;
    }

    /** bfd_seek: past the end, a writable file gets longer and any other stays where it
        ends.  The capacity wraps around to 0 in the last 127 positions there are; then the
        size grows and the buffer does not, and that is reported as a success. */
    method MoveTo(position: int, relative: bool, memory: bool) returns (ok: bool)
      requires Valid()
      modifies this
      ensures buffer == old(buffer) || buffer == null || fresh(buffer)
      ensures var target := if relative then old(where) + position else position;
              && (ok && !(relative && position == 0) ==> Now() == Step(old(Now()), writable, Seek(target)))
              && (relative && position == 0 ==> ok && Now() == old(Now()))
              && (memory && !(relative && position == 0) ==> (ok <==> Position(target) <= old(size) || writable))
              && (!ok && !writable ==> Now() == Step(old(Now()), writable, Seek(target)))
              && (!ok && writable ==> size == 0 && buffer == null)
              && (Valid() <==> !(writable && !(relative && position == 0) && Overruns(target)))
              && (writable && !(relative && position == 0) && Overruns(target) ==>
                    ok && buffer == old(buffer) && size == Position(target))
    {
      if relative && position == 0 {
        return true;
      }
      if relative {
        where := Position(where + position);
      } else {
        where := Position(position);
      }
      if where > size {
        if writable {
          ok := Grow(where, memory);
          return;
        }
        where := size;
        return false;
      }
      ok := true;
    }
  }

  /** The new size is one of the last there are. */
  predicate Overruns(target: int) {
    Position(target) > W64 - CHUNK
  }

  method CopySeq(target: array<byte>, at: nat, data: seq<byte>)
    requires at + |data| <= target.Length
    modifies target
    ensures forall k :: 0 <= k < target.Length ==>
              target[k] == if at <= k < at + |data| then data[k - at] else old(target[k])
  {
    for i := 0 to |data|
      invariant forall k :: 0 <= k < target.Length ==>
                  target[k] == if at <= k < at + i then data[k - at] else old(target[k])
    {
      target[at + i] := data[i];
    }
  }

  /** The capacity for a size of 64 bits, rounded up and wrapped around. */
  lemma {:induction false} Capacities(size: nat)
    requires size < W64
    ensures size <= W64 - CHUNK ==> Position(RoundUp(size, CHUNK)) == RoundUp(size, CHUNK) <= W64 - CHUNK
    ensures size > W64 - CHUNK ==> Position(RoundUp(size, CHUNK)) == 0 && RoundUp(size, CHUNK) == W64
    ensures size > 0 ==> RoundUp(size, CHUNK) > 0
    ensures size == 0 ==> RoundUp(size, CHUNK) == 0
  {
    assert W64 % CHUNK == 0 && (W64 - CHUNK) % CHUNK == 0;
    MultiplesSubtract(RoundUp(size, CHUNK), W64, CHUNK);
    MultiplesSubtract(RoundUp(size, CHUNK), W64 - CHUNK, CHUNK);
    MultiplesSubtract(RoundUp(size, CHUNK), 0, CHUNK);
  }

  /** The failing input, on any writable file: a seek to one of the 127 places before its
      start, or to one of the last 127 places. */
  lemma WrappedSeekOverruns(target: int)
    requires -W64 <= target < W64
    ensures Overruns(target) <==> -CHUNK < target < 0 || W64 - CHUNK < target
  {
    assert Position(target) == if target < 0 then target + W64 else target;
  }

  method CopyInto(target: array<byte>, source: array<byte>, n: nat)
    requires target != source && n <= source.Length && n <= target.Length
    modifies target
    ensures forall k :: 0 <= k < n ==> target[k] == source[k]
  {
    for i := 0 to n
      invariant forall k :: 0 <= k < i ==> target[k] == source[k]
    {
      target[i] := source[i];
    }
  }

  // ----- whole programs

  /** The answers to a write, a read and a seek. */
  datatype Reply = Wrote(n: nat) | Got(data: seq<byte>) | Moved(ok: bool)

  predicate Moves(p: Plain, writable: bool, target: int) {
    Position(target) <= |p.contents| || writable
  }

  /** What the plain file may answer: only bytes that nobody has written are open. */
  predicate Answers(p: Plain, writable: bool, op: Op, reply: Reply) {
    match op
    case Write(data) => reply == Wrote(|data|)
    case Read(n) => reply.Got? && Reads(p, n, reply.data)
    case Seek(target) => reply == Moved(Moves(p, writable, target))
    case SeekBy(distance) => reply == Moved(Moves(p, writable, p.where + distance))
  }

  /** The operation makes the file longer than a buffer can be. */
  predicate OpOverruns(where: nat, writable: bool, op: Op) {
    match op
    case Write(data) => where + |data| > W64 - CHUNK
    case Read(_) => false
    case Seek(target) => writable && Overruns(target)
    case SeekBy(distance) => writable && Overruns(where + distance)
  }

  predicate OverrunsAt(p: Plain, writable: bool, ops: seq<Op>, k: nat)
    requires k < |ops|
  {
    OpOverruns(Run(p, writable, ops, k).where, writable, ops[k])
  }

  lemma {:induction false} StaysInside(p: Plain, writable: bool, ops: seq<Op>, n: nat)
    requires p.where <= |p.contents| && n <= |ops|
    ensures Run(p, writable, ops, n).where <= |Run(p, writable, ops, n).contents|
  {
    LastWriteWins(p, writable, ops, n, 0, n);
  }

  /** Not moving at all is no seek, and comes to the same. */
  lemma NoMove(p: Plain, writable: bool)
    requires p.where <= |p.contents| <= W64 - CHUNK
    ensures SeekTo(p, writable, p.where) == p && Moves(p, writable, p.where) && !Overruns(p.where)
  {
  }

  /** One operation that is no overrunning write, with memory to spare. */
  method Do(m: InMemory, op: Op) returns (reply: Reply)
    requires m.Valid() && m.where <= m.size && !(op.Write? && OpOverruns(m.where, m.writable, op))
    modifies m, m.buffer
    ensures m.buffer == old(m.buffer) || m.buffer == null || fresh(m.buffer)
    ensures Answers(old(m.Now()), m.writable, op, reply) && m.Now() == Step(old(m.Now()), m.writable, op)
    ensures m.Valid() <==> !OpOverruns(old(m.where), m.writable, op)
  {
    hide Overlay, Extended, Reads, RoundUp, Position, Overruns, SeekTo;
    InBounds(m);
    match op
    case Write(data) =>
      var n := m.Put(data, true);
      reply := Wrote(n);
    case Read(n) =>
      var data, _ := m.Get(n);
      reply := Got(data);
    case Seek(target) =>
      var ok := m.MoveTo(target, false, true);
      reply := Moved(ok);
    case SeekBy(distance) =>
      NoMove(m.Now(), m.writable);
      var ok := m.MoveTo(distance, true, true);
      reply := Moved(ok);
  }

  lemma InBounds(m: InMemory)
    requires m.Valid()
    ensures m.size <= W64 - CHUNK
  {
    if m.buffer != null {
      Capacities(m.size);
    }
  }

  predicate AllAnswered(p: Plain, writable: bool, ops: seq<Op>, replies: seq<Reply>) {
    |replies| <= |ops| && forall k :: 0 <= k < |replies| ==>
      Answers(Run(p, writable, ops, k), writable, ops[k], replies[k])
  }

  /** None of the first n operations overruns. */
  predicate Sound(p: Plain, writable: bool, ops: seq<Op>, n: nat)
    requires n <= |ops|
  {
    forall k :: 0 <= k < n ==> !OverrunsAt(p, writable, ops, k)
  }

  lemma SoundNext(p: Plain, writable: bool, ops: seq<Op>, n: nat)
    requires n < |ops|
    ensures Sound(p, writable, ops, n + 1)
            <==> Sound(p, writable, ops, n) && !OpOverruns(Run(p, writable, ops, n).where, writable, ops[n])
  {
    hide OpOverruns, Run;
    assert OverrunsAt(p, writable, ops, n) <==> OpOverruns(Run(p, writable, ops, n).where, writable, ops[n]);
  }

  lemma OneMore(p: Plain, writable: bool, ops: seq<Op>, replies: seq<Reply>, reply: Reply)
    requires AllAnswered(p, writable, ops, replies) && |replies| < |ops|
    requires Answers(Run(p, writable, ops, |replies|), writable, ops[|replies|], reply)
    ensures AllAnswered(p, writable, ops, replies + [reply])
    ensures Sound(p, writable, ops, |replies| + 1)
            <==> Sound(p, writable, ops, |replies|)
                 && !OpOverruns(Run(p, writable, ops, |replies|).where, writable, ops[|replies|])
  {
    hide Answers, OpOverruns, Run, Step;
    var all := replies + [reply];
    forall k | 0 <= k < |all| ensures Answers(Run(p, writable, ops, k), writable, ops[k], all[k]) {
      assert all[k] == if k < |replies| then replies[k] else reply;
    }
    SoundNext(p, writable, ops, |replies|);
  }

  lemma SoundSoFar(p: Plain, writable: bool, ops: seq<Op>, n: nat)
    requires n <= |ops|
    ensures Sound(p, writable, ops, |ops|) ==> Sound(p, writable, ops, n)
    ensures n < |ops| && OpOverruns(Run(p, writable, ops, n).where, writable, ops[n]) ==>
              !Sound(p, writable, ops, |ops|)
  {
    hide OpOverruns;
    assert n < |ops| ==>
           (OverrunsAt(p, writable, ops, n) <==> OpOverruns(Run(p, writable, ops, n).where, writable, ops[n]));
  }

  /** A program on a file in memory, as far as it can be followed: up to the first seek that
      overruns, or to just before the first such write.  What it answers is what the plain
      file would, and the file is sound in the end exactly if nothing has overrun. */
  method Exec(m: InMemory, ops: seq<Op>) returns (replies: seq<Reply>)
    requires m.Valid() && m.where <= m.size
    modifies m, m.buffer
    ensures AllAnswered(old(m.Now()), m.writable, ops, replies)
    ensures m.Now() == Run(old(m.Now()), m.writable, ops, |replies|)
    ensures m.Valid() <==> Sound(old(m.Now()), m.writable, ops, |replies|)
    ensures |replies| == |ops| && m.Valid() <==> Sound(old(m.Now()), m.writable, ops, |ops|)
  {
    hide Answers, AllAnswered, Sound, Step, OpOverruns, Position, RoundUp;
    ghost var was := m.Now();
    NothingYet(was, m.writable, ops);
    replies := [];
    while |replies| < |ops|
      invariant |replies| <= |ops| && m.Valid() && m.where <= m.size && m.Now() == Run(was, m.writable, ops, |replies|)
      invariant m.buffer == old(m.buffer) || m.buffer == null || fresh(m.buffer)
      invariant AllAnswered(was, m.writable, ops, replies) && Sound(was, m.writable, ops, |replies|)
      decreases |ops| - |replies|
    {
      var op := ops[|replies|];
      var overruns := OpOverruns(m.where, m.writable, op);
      SoundSoFar(was, m.writable, ops, |replies|);
      if overruns && op.Write? {
        return;
      }
      StaysInside(was, m.writable, ops, |replies| + 1);
      var reply := Do(m, op);
      OneMore(was, m.writable, ops, replies, reply);
      replies := replies + [reply];
      if overruns {
        return;
      }
    }
  }

  lemma NothingYet(p: Plain, writable: bool, ops: seq<Op>)
    ensures AllAnswered(p, writable, ops, []) && Sound(p, writable, ops, 0)
  {
  }
}
