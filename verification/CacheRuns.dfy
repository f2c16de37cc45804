/** Whole programs of reads, seeks and tells on the cached files, with the ring computed
    operation by operation, and what a program can notice of the cache. */
module CacheRuns {
  import opened Bytes
  import opened Cache
  import opened CacheIO

  // ----- the cache by file numbers

  /** The positions of the files, the ring of those that are open, and which may be closed. */
  datatype Sys = Sys(at: seq<nat>, ring: seq<nat>, flags: seq<bool>)

  predicate SysOk(s: Sys, count: nat) {
    |s.at| == |s.flags| == count && forall i :: 0 <= i < |s.ring| ==> s.ring[i] < count
  }

  /** The last closable file of the ring, or -1. */
  function LastClosable(ring: seq<nat>, flags: seq<bool>): (k: int)
    requires forall i :: 0 <= i < |ring| ==> ring[i] < |flags|
    ensures -1 <= k < |ring|
  {
    if ring == [] then -1
    else if flags[ring[|ring| - 1]] then |ring| - 1
    else LastClosable(ring[..|ring| - 1], flags)
  }

  /** The ring after file f has been looked up. */
  function Used(ring: seq<nat>, flags: seq<bool>, f: nat): (r: seq<nat>)
    requires forall i :: 0 <= i < |ring| ==> ring[i] < |flags|
    requires f < |flags|
    ensures forall i :: 0 <= i < |r| ==> r[i] < |flags|
  {
    var victim := LastClosable(ring, flags);
    if f in ring then [f] + Without(ring, Find(ring, f))
    else if |ring| < BFD_CACHE_MAX_OPEN || victim < 0 then [f] + ring
    else [f] + Without(ring, victim)
  }

  /** Whether an operation looks its file up and finds a stream. */
  predicate Looks(op: Op, pos: nat, isOpen: bool) {
    match op
    case Read(_, n) => n > 0
    case Seek(_, position, direction) => !Stays(pos, position, direction)
    case Tell(_) => isOpen
  }

  function SysStep(files: seq<seq<byte>>, s: Sys, op: Op): (r: (Reply, Sys))
    requires SysOk(s, |files|) && op.file < |files|
    ensures SysOk(r.1, |files|)
  {
    var f := op.file;
    var isOpen := f in s.ring;
    var (reply, at) := CachedStep(files, s.at, isOpen, op);
    if Looks(op, s.at[f], isOpen) then
      (reply, Sys(at, Used(s.ring, s.flags, f), if isOpen then s.flags else s.flags[f := true]))
    else
      (reply, s.(at := at))
  }

  /** The replies to the first n operations, and the state after them. */
  function SysRun(files: seq<seq<byte>>, s: Sys, ops: seq<Op>, n: nat): (r: (seq<Reply>, Sys))
    requires SysOk(s, |files|) && OnFiles(ops, |files|) && n <= |ops|
    ensures |r.0| == n && SysOk(r.1, |files|)
  {
    if n == 0 then ([], s)
    else
      var before := SysRun(files, s, ops, n - 1);
      var (reply, after) := SysStep(files, before.1, ops[n - 1]);
      (before.0 + [reply], after)
  }

  /** Whether operation k finds its file open. */
  predicate FindsOpen(files: seq<seq<byte>>, s: Sys, ops: seq<Op>, k: nat)
    requires SysOk(s, |files|) && OnFiles(ops, |files|) && k < |ops|
  {
    ops[k].file in SysRun(files, s, ops, k).1.ring
  }

  function Opens(files: seq<seq<byte>>, s: Sys, ops: seq<Op>): (opens: seq<bool>)
    requires SysOk(s, |files|) && OnFiles(ops, |files|)
    ensures |opens| == |ops|
    ensures forall k :: 0 <= k < |ops| ==> opens[k] == FindsOpen(files, s, ops, k)
  {
    seq(|ops|, k requires 0 <= k < |ops| => FindsOpen(files, s, ops, k))
  }

  lemma {:induction false} RunIsCached(files: seq<seq<byte>>, s: Sys, ops: seq<Op>, n: nat)
    requires SysOk(s, |files|) && OnFiles(ops, |files|) && n <= |ops|
    ensures (SysRun(files, s, ops, n).0, SysRun(files, s, ops, n).1.at)
            == CachedReplies(files, s.at, ops, Opens(files, s, ops), n)
  {
    if n > 0 {
      RunIsCached(files, s, ops, n - 1);
    }
  }

  /** Every operation of a program does what it should, to its own file alone. */
  predicate AllDo(files: seq<seq<byte>>, s: Sys, ops: seq<Op>, replies: seq<Reply>)
    requires SysOk(s, |files|) && OnFiles(ops, |files|) && |replies| == |ops|
  {
    forall k :: 0 <= k < |ops| ==>
      DoesOnly(files, FindsOpen(files, s, ops, k), ops[k], SysRun(files, s, ops, k).1.at, replies[k],
               SysRun(files, s, ops, k + 1).1.at)
  }

  lemma OneStep(files: seq<seq<byte>>, s: Sys, ops: seq<Op>, n: nat)
    requires SysOk(s, |files|) && OnFiles(ops, |files|) && n < |ops|
    ensures var before := SysRun(files, s, ops, n);
            var step := SysStep(files, before.1, ops[n]);
            SysRun(files, s, ops, n + 1) == (before.0 + [step.0], step.1)
  {
  }

  lemma SysStepDoes(files: seq<seq<byte>>, s: Sys, op: Op)
    requires SysOk(s, |files|) && op.file < |files|
    ensures var r := SysStep(files, s, op); DoesOnly(files, op.file in s.ring, op, s.at, r.0, r.1.at)
  {
    hide DoesOnly, CachedStep;
    StepDoes(files, s.at, op.file in s.ring, op);
  }

  lemma {:induction false} RunDoes(files: seq<seq<byte>>, s: Sys, ops: seq<Op>, n: nat)
    requires SysOk(s, |files|) && OnFiles(ops, |files|) && n <= |ops|
    ensures forall k :: 0 <= k < n ==>
              DoesOnly(files, FindsOpen(files, s, ops, k), ops[k], SysRun(files, s, ops, k).1.at,
                       SysRun(files, s, ops, n).0[k], SysRun(files, s, ops, k + 1).1.at)
  {
    if n > 0 {
      hide DoesOnly, SysStep, SysRun;
      RunDoes(files, s, ops, n - 1);
      OneStep(files, s, ops, n - 1);
      SysStepDoes(files, SysRun(files, s, ops, n - 1).1, ops[n - 1]);
    }
  }

  // ----- transparency

  /** The k-th operation makes no absolute seek to a negative place on a file that has been
      closed away from its start. */
  predicate KeepsPlace(files: seq<seq<byte>>, s: Sys, ops: seq<Op>, k: nat)
    requires SysOk(s, |files|) && OnFiles(ops, |files|) && k < |ops|
  {
    NoNegativeSeek(ops[k]) || FindsOpen(files, s, ops, k) || SysRun(files, s, ops, k).1.at[ops[k].file] == 0
  }

  predicate Unnoticed(files: seq<seq<byte>>, s: Sys, ops: seq<Op>, k: nat)
    requires SysOk(s, |files|) && OnFiles(ops, |files|) && k <= |ops|
  {
    (SysRun(files, s, ops, k).0, SysRun(files, s, ops, k).1.at) == Replies(files, s.at, ops, k)
  }

  /** A program cannot tell the cache from a system that never closes a file, at any point
      of its run, exactly if every operation of it keeps its place. */
  lemma {:induction false} RunIsTransparentIff(files: seq<seq<byte>>, s: Sys, ops: seq<Op>)
    requires SysOk(s, |files|) && OnFiles(ops, |files|)
    ensures (forall k :: 0 <= k <= |ops| ==> Unnoticed(files, s, ops, k))
            <==> (forall k :: 0 <= k < |ops| ==> KeepsPlace(files, s, ops, k))
  {
    var opens := Opens(files, s, ops);
    forall k | 0 <= k <= |ops| ensures Unnoticed(files, s, ops, k) <==> SameSoFar(files, s.at, ops, opens, k) {
      RunIsCached(files, s, ops, k);
    }
    FirstLoss(files, s, ops, |ops|);
    CacheIsTransparentIff(files, s.at, ops, opens, |ops|);
  }

  lemma SameGuard(files: seq<seq<byte>>, s: Sys, ops: seq<Op>, k: nat)
    requires SysOk(s, |files|) && OnFiles(ops, |files|) && k < |ops|
    requires SysRun(files, s, ops, k).1.at == Replies(files, s.at, ops, k).1
    ensures KeepsPlace(files, s, ops, k) <==> Harmless(files, s.at, ops, Opens(files, s, ops), k)
  {
    hide SysRun, Replies;
  }

  /** Up to the first operation that does not, both conditions speak of the same positions. */
  lemma {:induction false} FirstLoss(files: seq<seq<byte>>, s: Sys, ops: seq<Op>, n: nat)
    requires SysOk(s, |files|) && OnFiles(ops, |files|) && n <= |ops|
    ensures (forall k :: 0 <= k < n ==> KeepsPlace(files, s, ops, k))
            <==> (forall k :: 0 <= k < n ==> Harmless(files, s.at, ops, Opens(files, s, ops), k))
  {
    hide KeepsPlace, Harmless, SysRun, CachedReplies, Replies;
    if n > 0 {
      var opens := Opens(files, s, ops);
      FirstLoss(files, s, ops, n - 1);
      RunIsCached(files, s, ops, n - 1);
      CacheIsTransparentIff(files, s.at, ops, opens, n - 1);
      if forall k :: 0 <= k < n - 1 ==> Harmless(files, s.at, ops, opens, k) {
        assert SameSoFar(files, s.at, ops, opens, n - 1);
        SameGuard(files, s, ops, n - 1);
      }
    }
  }

  // ----- which files are open

  /** The ring after a history of uses, when all files may be closed and none is open at
      first. */
  function RingAfter(uses: seq<nat>, count: nat): (r: seq<nat>)
    requires forall i :: 0 <= i < |uses| ==> uses[i] < count
    ensures forall i :: 0 <= i < |r| ==> r[i] < count
  {
    if uses == [] then []
    else Used(RingAfter(uses[..|uses| - 1], count), seq(count, _ => true), uses[|uses| - 1])
  }

  /** The files used after the last use of f. */
  function Since(uses: seq<nat>, f: nat): set<nat> {
    if uses == [] || uses[|uses| - 1] == f then {}
    else Since(uses[..|uses| - 1], f) + {uses[|uses| - 1]}
  }

  function Members(s: seq<nat>): set<nat> {
    set x | x in s
  }

  lemma LastOfAll(ring: seq<nat>, count: nat)
    requires forall i :: 0 <= i < |ring| ==> ring[i] < count
    ensures LastClosable(ring, seq(count, _ => true)) == |ring| - 1
  {
  }

  /** Where f stands in the ring says how many others were used since. */
  predicate StandsRight(ring: seq<nat>, uses: seq<nat>, f: nat) {
    var p := Find(ring, f);
    if p >= 0 then f in uses && Since(uses, f) == Members(ring[..p])
    else f in uses ==> Members(ring) <= Since(uses, f) && |ring| == BFD_CACHE_MAX_OPEN
  }

  lemma MembersSplit(a: seq<nat>, b: seq<nat>)
    ensures Members(a + b) == Members(a) + Members(b)
  {
  }

  lemma {:induction false} MemberCount(s: seq<nat>)
    requires Distinct(s)
    ensures |Members(s)| == |s|
  {
    if s != [] {
      var front, last := s[..|s| - 1], s[|s| - 1];
      MemberCount(front);
      assert s == front + [last];
      MembersSplit(front, [last]);
      assert Members([last]) == {last};
    }
  }

  lemma {:induction false} FindIs(s: seq<nat>, x: nat, k: nat)
    requires k < |s| && s[k] == x && forall i :: 0 <= i < k ==> s[i] != x
    ensures Find(s, x) == k
  {
  }

  lemma SinceMore(uses: seq<nat>, g: nat, f: nat)
    ensures Since(uses + [g], f) == if f == g then {} else Since(uses, f) + {g}
  {
    assert (uses + [g])[..|uses|] == uses;
  }

  /** What stands in front of the file at place p, once the one at place q has moved up. */
  lemma {:induction false} InFront(ring: seq<nat>, q: nat, p: nat)
    requires q < |ring| && p < |ring| && p != q
    ensures var after, p' := [ring[q]] + Without(ring, q), if p < q then p + 1 else p;
            after[p'] == ring[p] && Members(after[..p']) == Members(ring[..p]) + {ring[q]}
  {
    var g, after := ring[q], [ring[q]] + Without(ring, q);
    if p < q {
      assert after[..p + 1] == [g] + ring[..p];
      MembersSplit([g], ring[..p]);
    } else {
      assert after[..p] == [g] + (ring[..q] + ring[q + 1..p]);
      assert ring[..p] == ring[..q] + ([g] + ring[q + 1..p]);
      MembersSplit([g], ring[..q] + ring[q + 1..p]);
      MembersSplit(ring[..q], ring[q + 1..p]);
      MembersSplit(ring[..q], [g] + ring[q + 1..p]);
      MembersSplit([g], ring[q + 1..p]);
    }
  }

  lemma {:induction false} SameMembers(ring: seq<nat>, q: nat)
    requires q < |ring|
    ensures Members([ring[q]] + Without(ring, q)) == Members(ring)
  {
    var g := ring[q];
    assert ring == ring[..q] + ([g] + ring[q + 1..]);
    MembersSplit([g], Without(ring, q));
    MembersSplit(ring[..q], ring[q + 1..]);
    MembersSplit(ring[..q], [g] + ring[q + 1..]);
    MembersSplit([g], ring[q + 1..]);
  }

  lemma {:induction false} DistinctAgain(ring: seq<nat>, q: nat)
    requires Distinct(ring) && q < |ring|
    ensures Distinct([ring[q]] + Without(ring, q))
  {
  }

  lemma {:induction false} FindInDistinct(s: seq<nat>, x: nat, k: nat)
    requires Distinct(s) && k < |s| && s[k] == x
    ensures Find(s, x) == k
  {
    FindIs(s, x, k);
  }

  /** Using g when it is in the ring at place q. */
  lemma {:induction false} AgainStands(ring: seq<nat>, uses: seq<nat>, g: nat, q: nat, f: nat)
    requires Distinct(ring) && q < |ring| && ring[q] == g && StandsRight(ring, uses, f)
    ensures StandsRight([g] + Without(ring, q), uses + [g], f)
  {
    hide Without, Since, Members;
    var after, p := [g] + Without(ring, q), Find(ring, f);
    SinceMore(uses, g, f);
    DistinctAgain(ring, q);
    SameMembers(ring, q);
    Lengths(ring, q);
    if f == g {
      FindInDistinct(after, f, 0);
      NoMembers(after[..0]);
    } else if p < 0 {
      NotMember(ring, f);
      NotMember(after, f);
    } else {
      InFront(ring, q, p);
      FindInDistinct(after, f, if p < q then p + 1 else p);
    }
  }

  lemma NoMembers(s: seq<nat>)
    requires s == []
    ensures Members(s) == {}
  {
  }

  lemma NotMember(s: seq<nat>, x: nat)
    ensures x in Members(s) <==> x in s
  {
  }

  lemma Lengths(s: seq<nat>, k: nat)
    requires k < |s|
    ensures |[s[k]] + Without(s, k)| == |s|
  {
  }

  /** Using g when it is not: all move on, and the last of ten leaves. */
  lemma {:induction false} NewStands(ring: seq<nat>, uses: seq<nat>, g: nat, keep: nat, f: nat)
    requires Distinct(ring) && g !in ring && keep <= |ring| <= BFD_CACHE_MAX_OPEN && StandsRight(ring, uses, f)
    requires keep == if |ring| < BFD_CACHE_MAX_OPEN then |ring| else |ring| - 1
    ensures StandsRight([g] + ring[..keep], uses + [g], f)
  {
    hide Since, Members;
    var after, p := [g] + ring[..keep], Find(ring, f);
    SinceMore(uses, g, f);
    assert Distinct(after);
    if f == g {
      FindInDistinct(after, f, 0);
      NoMembers(after[..0]);
    } else if 0 <= p < keep {
      FindInDistinct(after, f, p + 1);
      FrontMembers(g, ring, keep, p);
    } else {
      AllMembers(g, ring, keep);
      assert f !in after;
    }
  }

  lemma FrontMembers(g: nat, ring: seq<nat>, keep: nat, p: nat)
    requires p < keep <= |ring|
    ensures Members(([g] + ring[..keep])[..p + 1]) == Members(ring[..p]) + {g}
  {
    assert ([g] + ring[..keep])[..p + 1] == [g] + ring[..p];
    MembersSplit([g], ring[..p]);
  }

  lemma AllMembers(g: nat, ring: seq<nat>, keep: nat)
    requires keep <= |ring|
    ensures Members([g] + ring[..keep]) == Members(ring[..keep]) + {g}
    ensures Members(ring[..keep]) <= Members(ring)
  {
    MembersSplit([g], ring[..keep]);
    MembersSplit(ring[..keep], ring[keep..]);
    assert ring == ring[..keep] + ring[keep..];
  }

  /** The three things a use can do to a ring of files that may all be closed. */
  lemma UsedCases(ring: seq<nat>, count: nat, g: nat)
    requires g < count && forall i :: 0 <= i < |ring| ==> ring[i] < count
    ensures var after := Used(ring, seq(count, _ => true), g);
            && (g in ring ==> after == [g] + Without(ring, Find(ring, g)))
            && (g !in ring && |ring| < BFD_CACHE_MAX_OPEN ==> after == [g] + ring[..|ring|])
            && (g !in ring && |ring| >= BFD_CACHE_MAX_OPEN ==> after == [g] + ring[..|ring| - 1])
  {
    LastOfAll(ring, count);
    assert ring[..|ring|] == ring;
  }

  lemma {:induction false} UseStands(ring: seq<nat>, uses: seq<nat>, count: nat, g: nat, f: nat)
    requires g < count && forall i :: 0 <= i < |ring| ==> ring[i] < count
    requires Distinct(ring) && |ring| <= BFD_CACHE_MAX_OPEN && StandsRight(ring, uses, f)
    ensures var after := Used(ring, seq(count, _ => true), g);
            Distinct(after) && |after| <= BFD_CACHE_MAX_OPEN && StandsRight(after, uses + [g], f)
  {
    hide Used, StandsRight, Without;
    UsedCases(ring, count, g);
    if g in ring {
      AgainStands(ring, uses, g, Find(ring, g), f);
      DistinctAgain(ring, Find(ring, g));
      Lengths(ring, Find(ring, g));
    } else {
      NewStands(ring, uses, g, if |ring| < BFD_CACHE_MAX_OPEN then |ring| else |ring| - 1, f);
    }
  }

  lemma {:induction false} RingStands(uses: seq<nat>, count: nat, f: nat)
    requires forall i :: 0 <= i < |uses| ==> uses[i] < count
    ensures Distinct(RingAfter(uses, count)) && |RingAfter(uses, count)| <= BFD_CACHE_MAX_OPEN
    ensures StandsRight(RingAfter(uses, count), uses, f)
  {
    if uses != [] {
      hide Used, StandsRight;
      var before, g := uses[..|uses| - 1], uses[|uses| - 1];
      RingStands(before, count, f);
      UseStands(RingAfter(before, count), before, count, g, f);
      assert uses == before + [g];
    }
  }

  /** After any history of uses a file is open exactly if it has been used and fewer than ten
      others have been used since. */
  lemma {:induction false} OpenIffUsedLately(uses: seq<nat>, count: nat, f: nat)
    requires forall i :: 0 <= i < |uses| ==> uses[i] < count
    ensures f in RingAfter(uses, count) <==> f in uses && |Since(uses, f)| < BFD_CACHE_MAX_OPEN
  {
    var ring := RingAfter(uses, count);
    RingStands(uses, count, f);
    var p := Find(ring, f);
    if p >= 0 {
      assert Distinct(ring[..p]);
      MemberCount(ring[..p]);
    } else if f in uses {
      MemberCount(ring);
      SubsetSize(Members(ring), Since(uses, f));
    }
  }

  lemma {:induction false} SubsetSize(a: set<nat>, b: set<nat>)
    requires a <= b
    ensures |a| <= |b|
  {
    assert b == a + (b - a);
  }

  // ----- the uses a program makes

  /** The files that the first n operations have looked up and found. */
  function Uses(files: seq<seq<byte>>, s: Sys, ops: seq<Op>, n: nat): (uses: seq<nat>)
    requires SysOk(s, |files|) && OnFiles(ops, |files|) && n <= |ops|
    ensures forall i :: 0 <= i < |uses| ==> uses[i] < |files|
  {
    if n == 0 then []
    else
      var before, op := SysRun(files, s, ops, n - 1).1, ops[n - 1];
      Uses(files, s, ops, n - 1) + if Looks(op, before.at[op.file], op.file in before.ring) then [op.file] else []
  }

  /** All files may be closed, and the ring is what the uses up to now have made of it. */
  predicate AllClosable(s: Sys, past: seq<nat>) {
    && s.flags == seq(|s.flags|, _ => true)
    && (forall i :: 0 <= i < |past| ==> past[i] < |s.flags|)
    && s.ring == RingAfter(past, |s.flags|)
  }

  lemma RingMore(uses: seq<nat>, count: nat, f: nat)
    requires f < count && forall i :: 0 <= i < |uses| ==> uses[i] < count
    ensures RingAfter(uses + [f], count) == Used(RingAfter(uses, count), seq(count, _ => true), f)
  {
    assert (uses + [f])[..|uses|] == uses;
  }

  lemma AllSet(flags: seq<bool>, f: nat)
    requires f < |flags| && flags == seq(|flags|, _ => true)
    ensures flags[f := true] == flags
  {
  }

  lemma {:induction false} StepUses(files: seq<seq<byte>>, s: Sys, past: seq<nat>, op: Op)
    requires SysOk(s, |files|) && op.file < |files| && AllClosable(s, past)
    ensures AllClosable(SysStep(files, s, op).1,
                        past + if Looks(op, s.at[op.file], op.file in s.ring) then [op.file] else [])
  {
    hide Used, Looks, RingAfter, CachedStep;
    RingMore(past, |files|, op.file);
    AllSet(s.flags, op.file);
    assert past + [] == past;
  }

  lemma Append(a: seq<nat>, b: seq<nat>, c: seq<nat>)
    ensures a + (b + c) == a + b + c
  {
  }

  lemma {:induction false} RunUses(files: seq<seq<byte>>, s: Sys, past: seq<nat>, ops: seq<Op>, n: nat)
    requires SysOk(s, |files|) && OnFiles(ops, |files|) && n <= |ops| && AllClosable(s, past)
    ensures AllClosable(SysRun(files, s, ops, n).1, past + Uses(files, s, ops, n))
  {
    hide AllClosable, SysStep, Looks;
    if n == 0 {
      assert past + [] == past;
    } else {
      RunUses(files, s, past, ops, n - 1);
      var before, op, sofar := SysRun(files, s, ops, n - 1).1, ops[n - 1], Uses(files, s, ops, n - 1);
      StepUses(files, before, past + sofar, op);
      Append(past, sofar, if Looks(op, before.at[op.file], op.file in before.ring) then [op.file] else []);
    }
  }

  /** So an operation finds its file open exactly if the file has been used before and fewer
      than ten others since. */
  lemma FindsOpenIff(files: seq<seq<byte>>, s: Sys, past: seq<nat>, ops: seq<Op>, k: nat)
    requires SysOk(s, |files|) && OnFiles(ops, |files|) && k < |ops| && AllClosable(s, past)
    ensures var uses := past + Uses(files, s, ops, k);
            FindsOpen(files, s, ops, k) <==> ops[k].file in uses && |Since(uses, ops[k].file)| < BFD_CACHE_MAX_OPEN
  {
    RunUses(files, s, past, ops, k);
    OpenIffUsedLately(past + Uses(files, s, ops, k), |files|, ops[k].file);
  }

  /** The same condition read off the uses: a seek to a negative place finds its file at the
      start, or used fewer than ten other files ago. */
  predicate UsedLately(files: seq<seq<byte>>, s: Sys, past: seq<nat>, ops: seq<Op>, k: nat)
    requires SysOk(s, |files|) && OnFiles(ops, |files|) && k < |ops|
  {
    var f, uses := ops[k].file, past + Uses(files, s, ops, k);
    NoNegativeSeek(ops[k]) || (f in uses && |Since(uses, f)| < BFD_CACHE_MAX_OPEN)
      || SysRun(files, s, ops, k).1.at[f] == 0
  }

  lemma {:induction false} TransparentIffUsedLately(files: seq<seq<byte>>, s: Sys, past: seq<nat>, ops: seq<Op>)
    requires SysOk(s, |files|) && OnFiles(ops, |files|) && AllClosable(s, past)
    ensures (forall k :: 0 <= k <= |ops| ==> Unnoticed(files, s, ops, k))
            <==> (forall k :: 0 <= k < |ops| ==> UsedLately(files, s, past, ops, k))
  {
    hide Unnoticed, FindsOpen, AllClosable;
    RunIsTransparentIff(files, s, ops);
    forall k | 0 <= k < |ops| ensures KeepsPlace(files, s, ops, k) <==> UsedLately(files, s, past, ops, k) {
      FindsOpenIff(files, s, past, ops, k);
    }
  }

  // ----- a run that notices

  /** One byte is read from each of eleven files, the last ten of which push out the first;
      then a seek on that one fails, and the next byte is read. */
  function NoticingRun(): (ops: seq<Op>)
    ensures |ops| == 13 && OnFiles(ops, 11)
  {
    seq(11, i requires 0 <= i => Read(i, 1)) + [Seek(0, -1, Set), Read(0, 1)]
  }

  /** Eleven files that are all closed at first, at their beginnings. */
  function Eleven(): (s: Sys)
    ensures SysOk(s, 11) && AllClosable(s, []) && s.at == ReadPositions(0)
  {
    Sys(ReadPositions(0), [], seq(11, _ => true))
  }

  function Counted(n: nat): (s: seq<nat>)
    ensures |s| == n && forall i :: 0 <= i < n ==> s[i] == i
  {
    seq(n, i => i)
  }

  predicate NoneEmpty(files: seq<seq<byte>>) {
    forall i :: 0 <= i < |files| ==> files[i] != []
  }

  /** The positions after the first n reads. */
  function ReadPositions(n: nat): (at: seq<nat>)
    ensures |at| == 11
  {
    seq(11, j => if j < n then 1 else 0)
  }

  lemma LastReply(files: seq<seq<byte>>, s: Sys, ops: seq<Op>, n: nat)
    requires SysOk(s, |files|) && OnFiles(ops, |files|) && n < |ops|
    ensures SysRun(files, s, ops, n + 1).0[n] == SysStep(files, SysRun(files, s, ops, n).1, ops[n]).0
    ensures SysRun(files, s, ops, n + 1).1 == SysStep(files, SysRun(files, s, ops, n).1, ops[n]).1
    ensures Replies(files, s.at, ops, n + 1).0[n] == Step(files, Replies(files, s.at, ops, n).1, ops[n]).0
    ensures Replies(files, s.at, ops, n + 1).1 == Step(files, Replies(files, s.at, ops, n).1, ops[n]).1
  {
    hide SysStep, Step;
  }

  lemma FirstByte(files: seq<seq<byte>>, s: Sys, n: nat)
    requires |files| == 11 && NoneEmpty(files) && n < 11 && SysOk(s, 11) && s.at == ReadPositions(n)
    ensures Step(files, s.at, Read(n, 1)).1 == ReadPositions(n + 1)
    ensures SysStep(files, s, Read(n, 1)).1.at == ReadPositions(n + 1)
  {
    hide Used;
    assert files[n] != [];
    assert |ReadAt(files[n], 0, 1)| == 1;
  }

  lemma NoticingReads(n: nat)
    requires n < 11
    ensures NoticingRun()[n] == Read(n, 1)
  {
  }

  lemma {:induction false} AfterReads(files: seq<seq<byte>>, s: Sys, n: nat)
    requires |files| == 11 && NoneEmpty(files) && n <= 11 && SysOk(s, 11) && s.at == ReadPositions(0)
    ensures SysRun(files, s, NoticingRun(), n).1.at == ReadPositions(n)
    ensures Replies(files, s.at, NoticingRun(), n).1 == ReadPositions(n)
  {
    if n > 0 {
      hide SysStep, Step, SysRun, Replies, ReadPositions, NoticingRun;
      AfterReads(files, s, n - 1);
      NoticingReads(n - 1);
      LastReply(files, s, NoticingRun(), n - 1);
      FirstByte(files, SysRun(files, s, NoticingRun(), n - 1).1, n - 1);
    }
  }

  lemma {:induction false} ReadsUse(files: seq<seq<byte>>, s: Sys, n: nat)
    requires |files| == 11 && n <= 11 && SysOk(s, 11)
    ensures Uses(files, s, NoticingRun(), n) == Counted(n)
  {
    if n > 0 {
      hide SysRun, NoticingRun, Counted;
      ReadsUse(files, s, n - 1);
      NoticingReads(n - 1);
      assert Counted(n - 1) + [n - 1] == Counted(n);
    }
  }

  lemma {:induction false} SinceIsUsed(uses: seq<nat>, f: nat)
    ensures Since(uses, f) <= Members(uses)
  {
    if uses != [] {
      SinceIsUsed(uses[..|uses| - 1], f);
      assert forall x :: x in uses[..|uses| - 1] ==> x in uses;
    }
  }

  lemma {:induction false} OthersSince(n: nat)
    ensures |Since(Counted(n + 1), 0)| == n
  {
    assert Counted(n + 1)[..n] == Counted(n);
    if n > 0 {
      OthersSince(n - 1);
      SinceIsUsed(Counted(n), 0);
      assert n !in Members(Counted(n));
    }
  }

  lemma FirstIsClosed(files: seq<seq<byte>>)
    requires |files| == 11 && NoneEmpty(files)
    ensures !FindsOpen(files, Eleven(), NoticingRun(), 11)
  {
    ReadsUse(files, Eleven(), 11);
    OthersSince(10);
    FindsOpenIff(files, Eleven(), [], NoticingRun(), 11);
    assert [] + Counted(11) == Counted(11);
  }

  /** An absolute seek that fails: on an open file nothing happens, and a closed one loses
      its place. */
  lemma FailedSeek(files: seq<seq<byte>>, s: Sys)
    requires SysOk(s, |files|) && |files| > 0 && s.at[0] > 0
    ensures Step(files, s.at, Seek(0, -1, Set)).1[0] == s.at[0]
    ensures SysStep(files, s, Seek(0, -1, Set)).1.at[0] == if 0 in s.ring then s.at[0] else 0
  {
    hide Used;
  }

  lemma OneByteRead(files: seq<seq<byte>>, s: Sys, a: byte, b: byte)
    requires SysOk(s, |files|) && |files| > 0 && files[0] == [a, b]
    ensures s.at[0] == 0 ==> SysStep(files, s, Read(0, 1)).0 == Bytes([a])
    ensures s.at[0] == 1 ==> Step(files, s.at, Read(0, 1)).0 == Bytes([b])
  {
    hide Used;
    assert files[0][1..2] == [b] && files[0][0..1] == [a];
  }

  /** The ideal system reads on; with the cache the file starts over. */
  lemma EvictedSeekIsVisible(files: seq<seq<byte>>, a: byte, b: byte)
    requires |files| == 11 && NoneEmpty(files) && files[0] == [a, b] && a != b
    ensures Replies(files, Eleven().at, NoticingRun(), 13).0[12] == Bytes([b])
    ensures SysRun(files, Eleven(), NoticingRun(), 13).0[12] == Bytes([a])
  {
    hide SysStep, Step, SysRun, Replies, Eleven;
    var ops, s := NoticingRun(), Eleven();
    AfterReads(files, s, 11);
    FirstIsClosed(files);
    assert ops[11] == Seek(0, -1, Set) && ops[12] == Read(0, 1);
    LastReply(files, s, ops, 11);
    LastReply(files, s, ops, 12);
    FailedSeek(files, SysRun(files, s, ops, 11).1);
    OneByteRead(files, SysRun(files, s, ops, 12).1, a, b);
    OneByteRead(files, s.(at := Replies(files, s.at, ops, 12).1), a, b);
  }
}
