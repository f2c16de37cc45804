/** The ring of open files in cache.c: heap nodes, and the sequence they stand for. */
module Cache {
  import opened Bytes
  import opened Wrappers

  /** What the operating system answers during one call. */
  datatype Env = Env(openOk: bool, closeOk: bool)

  const BFD_CACHE_MAX_OPEN: int := 10

  /** A BFD for a file that does not change while it is read.  An open stream is the
      offset it stands at. */
  class Bfd {
    const contents: seq<byte>
    var iostream: Option<nat>
    var where: nat
    var cacheable: bool
    var mtimeSet: bool
    var lruNext: Bfd?
    var lruPrev: Bfd?

    constructor (contents: seq<byte>)
      ensures this.contents == contents && iostream.None? && where == 0 && !cacheable && !mtimeSet
    {
      this.contents, iostream, where := contents, None, 0;
      cacheable, mtimeSet, lruNext, lruPrev := false, false, null, null;
    }
  }

  predicate Distinct<T(==)>(s: seq<T>) {
    forall i, j :: 0 <= i < j < |s| ==> s[i] != s[j]
  }

  function Without<T>(s: seq<T>, k: nat): (r: seq<T>)
    requires k < |s|
  {
    s[..k] + s[k + 1..]
  }

  ghost function Elements(s: seq<Bfd>): set<Bfd> {
    set o | o in s
  }

  /** The first place of x, or -1. */
  function Find<T(==)>(s: seq<T>, x: T): (k: int)
    ensures -1 <= k < |s|
    ensures k >= 0 ==> s[k] == x
    ensures k < 0 <==> x !in s
    ensures forall i :: 0 <= i < k ==> s[i] != x
  {
    if s == [] then -1
    else if s[0] == x then 0
    else var k := Find(s[1..], x); if k < 0 then -1 else k + 1
  }

  function After(i: nat, n: nat): nat {
    if i + 1 == n then 0 else i + 1
  }

  function Before(i: nat, n: nat): nat
    requires n > 0
  {
    if i == 0 then n - 1 else i - 1
  }

  /** The circular double linking of the files in s. */
  ghost predicate Linked(s: seq<Bfd>)
    reads s
  {
    && (forall i {:trigger s[i].lruNext} :: 0 <= i < |s| ==> s[i].lruNext == s[After(i, |s|)])
    && (forall i {:trigger s[i].lruPrev} :: 0 <= i < |s| ==> s[i].lruPrev == s[Before(i, |s|)])
  }

  /** When b was last looked up, in the history of all lookups; -1 if never. */
  ghost function LastUse(uses: seq<Bfd>, b: Bfd): (k: int)
    ensures -1 <= k < |uses|
  {
    if uses == [] then -1
    else if uses[|uses| - 1] == b then |uses| - 1
    else LastUse(uses[..|uses| - 1], b)
  }

  /** Most recently used first; in particular no file occurs twice. */
  ghost predicate ByUse(s: seq<Bfd>, uses: seq<Bfd>) {
    && (forall i :: 0 <= i < |s| ==> 0 <= LastUse(uses, s[i]))
    && (forall i, j :: 0 <= i < j < |s| ==> LastUse(uses, s[i]) > LastUse(uses, s[j]))
  }

  lemma {:induction false} UseRecorded(uses: seq<Bfd>, b: Bfd, o: Bfd)
    ensures LastUse(uses + [b], o) == if o == b then |uses| else LastUse(uses, o)
  {
    assert (uses + [b])[..|uses|] == uses;
  }

  /** Using a file again brings it to the front and leaves the others in order. */
  lemma UsedNow(s: seq<Bfd>, uses: seq<Bfd>, b: Bfd)
    requires ByUse(s, uses) && b !in s
    ensures ByUse([b] + s, uses + [b])
  {
    UseRecorded(uses, b, b);
    forall i | 0 <= i < |s| ensures LastUse(uses + [b], s[i]) == LastUse(uses, s[i]) {
      UseRecorded(uses, b, s[i]);
    }
  }

  lemma UsedAgain(s: seq<Bfd>, uses: seq<Bfd>)
    requires ByUse(s, uses) && s != []
    ensures ByUse(s, uses + [s[0]])
  {
    forall i | 0 <= i < |s| ensures LastUse(uses + [s[0]], s[i]) == if i == 0 then |uses| else LastUse(uses, s[i]) {
      UseRecorded(uses, s[0], s[i]);
    }
  }

  lemma SomeElement(s: seq<Bfd>)
    requires s != []
    ensures Elements(s) != {}
  {
    assert s[0] in Elements(s);
  }

  /** The history and the set of open files leave no choice for the ring. */
  lemma {:induction false} RingIsDetermined(s: seq<Bfd>, t: seq<Bfd>, uses: seq<Bfd>)
    requires ByUse(s, uses) && ByUse(t, uses) && Elements(s) == Elements(t)
    ensures s == t
  {
    if s != [] {
      SomeElement(s);
    }
    if t != [] {
      SomeElement(t);
    }
    if s != [] {
      assert s[0] in Elements(s) && t[0] in Elements(t);
      assert s[0] == t[0];
      assert Elements(s[1..]) == Elements(s) - {s[0]} by { WithoutFacts(s, 0, uses); assert Without(s, 0) == s[1..]; }
      assert Elements(t[1..]) == Elements(t) - {t[0]} by { WithoutFacts(t, 0, uses); assert Without(t, 0) == t[1..]; }
      RingIsDetermined(s[1..], t[1..], uses);
    }
  }

  /** The one close_one would take: the last cacheable file of the ring, or -1. */
  ghost function Victim(s: seq<Bfd>): (k: int)
    reads s
    ensures -1 <= k < |s|
    ensures k >= 0 ==> s[k].cacheable
    ensures forall j :: k < j < |s| ==> !s[j].cacheable
  {
    if s == [] then -1
    else if s[|s| - 1].cacheable then |s| - 1
    else Victim(s[..|s| - 1])
  }

  ghost predicate AtMostOneCacheable(s: set<Bfd>)
    reads s
  {
    forall o, p :: o in s && p in s && o != p ==> !(o.cacheable && p.cacheable)
  }

  /** There is room for one more file, or nothing that could make room. */
  ghost predicate Roomy(s: seq<Bfd>)
    reads s
  {
    |s| < BFD_CACHE_MAX_OPEN || forall i :: 0 <= i < |s| ==> !s[i].cacheable
  }

  /** The ring close_one leaves. */
  ghost function Closed(s: seq<Bfd>): (t: seq<Bfd>)
    reads s
  {
    if Victim(s) < 0 then s else Without(s, Victim(s))
  }

  /** The ring after the test at the limit. */
  ghost function RoomFor(s: seq<Bfd>): (t: seq<Bfd>)
    reads s
  {
    if |s| < BFD_CACHE_MAX_OPEN then s else Closed(s)
  }

  /** Under the bound, closing one file always makes room. */
  lemma {:induction false} RoomMade(s: seq<Bfd>, uses: seq<Bfd>)
    requires ByUse(s, uses)
    requires |s| <= BFD_CACHE_MAX_OPEN || AtMostOneCacheable(Elements(s))
    ensures Roomy(Closed(s)) && Elements(Closed(s)) <= Elements(s) && |Closed(s)| <= |s|
    ensures Roomy(s) ==> RoomFor(s) == s && (|s| >= BFD_CACHE_MAX_OPEN ==> Victim(s) < 0)
  {
    if Victim(s) >= 0 {
      var k, t := Victim(s), Closed(s);
      WithoutFacts(s, k, uses);
      if |s| > BFD_CACHE_MAX_OPEN {
        forall i | 0 <= i < |t| ensures !t[i].cacheable {
          assert t[i] in Elements(t) && s[k] in Elements(s);
        }
      }
    }
  }

  class FileCache {
    var openFiles: int
    var last: Bfd?              // bfd_last_cache
    ghost var ring: seq<Bfd>    // the files from `last` along lruNext
    ghost var open: set<Bfd>    // the same, unordered
    ghost var known: set<Bfd>   // every BFD under management
    ghost var uses: seq<Bfd>    // every lookup that found a stream, oldest first

    ghost predicate RingOk()
      reads this, known
    {
      && (forall i :: 0 <= i < |ring| ==> ring[i] in known)
      && open == Elements(ring)
      && last == (if ring == [] then null else ring[0])
      && Linked(ring)
      && ByUse(ring, uses)
    }

    /** The ring holds exactly the files whose stream is open, except perhaps b. */
    ghost predicate HoldsOpen(b: Bfd?)
      reads this, known
    {
      forall o :: o in known && o != b ==> (o in open <==> o.iostream.Some?)
    }

    /** An open stream stands where its BFD believes it does, except perhaps b's. */
    ghost predicate InSync(b: Bfd?)
      reads known, this
    {
      forall o :: o in known && o != b && o.iostream.Some? ==> o.iostream.value == o.where
    }

    /** The bound on descriptors with b the only open file that may be closable. */
    ghost predicate BoundedBut(b: Bfd)
      reads this, open
    {
      |ring| <= BFD_CACHE_MAX_OPEN || forall o :: o in open && o != b ==> !o.cacheable
    }

    /** The bound on descriptors: more than ten only when at most one could be closed. */
    ghost predicate Bounded()
      reads this, open
    {
      |ring| <= BFD_CACHE_MAX_OPEN || AtMostOneCacheable(open)
    }

    ghost predicate Valid()
      reads this, known
    {
      ValidBut(null)
    }

    /** The same while b's stream has moved on from b.where. */
    ghost predicate ValidBut(b: Bfd?)
      reads this, known
    {
      RingOk() && openFiles == |ring| && HoldsOpen(null) && InSync(b) && Bounded()
    }

    constructor ()
      ensures Valid() && known == {}
    {
      openFiles, last, ring, open, known, uses := 0, null, [], {}, {}, [];
    }

    /** The ring after b has been looked up and found. */
    ghost function UsedRing(b: Bfd): seq<Bfd>
      reads this, ring
    {
      if b in ring then [b] + Without(ring, Find(ring, b)) else [b] + RoomFor(ring)
    }

    /** insert. */
    method Insert(b: Bfd)
      requires RingOk() && b in known && b !in open
      modifies this`last, this`ring, this`open, this`uses, known`lruNext, known`lruPrev
      ensures RingOk() && ring == [b] + old(ring) && open == old(open) + {b} && uses == old(uses) + [b]
    {
      UsedNow(ring, uses, b);
      LinkIn(b, last, ring);
      last := b;
      ring := [b] + ring;
      uses, open := uses + [b], open + {b};
    }

    /** snip. */
    method Snip(b: Bfd, ghost k: nat)
      requires RingOk() && k < |ring| && ring[k] == b
      modifies this`last, this`ring, this`open, known`lruNext, known`lruPrev
      ensures RingOk() && ring == Without(old(ring), k) && open == old(open) - {b}
    {
      WithoutFacts(ring, k, uses);
      FrontWithout(ring, k, uses);
      LinkOut(b, ring, k);
      LeaveRing(b, k);
    }

    /** The part of snip after the neighbours have been linked to each other. */
    method LeaveRing(b: Bfd, ghost k: nat)
      requires k < |ring| && ring[k] == b && last == ring[0] && open == Elements(ring)
      requires forall i :: 0 <= i < |ring| ==> ring[i] in known
      requires Linked(Without(ring, k)) && b.lruNext == if |ring| == 1 then b else ring[After(k, |ring|)]
      requires ByUse(ring, uses)
      modifies this`last, this`ring, this`open
      ensures RingOk() && ring == Without(old(ring), k) && open == old(open) - {b}
    {
      hide Linked, ByUse;
      WithoutFacts(ring, k, uses);
      FrontWithout(ring, k, uses);
      if b == last {
        last := b.lruNext;
        if b == last {
          last := null;
        }
      }
      ring, open := Without(ring, k), open - {b};
    }

    /** bfd_cache_delete: whether or not fclose succeeds, the file leaves the ring. */
    method Delete(env: Env, b: Bfd, ghost k: nat, ghost busy: Bfd?, ghost history: seq<Bfd>) returns (ok: bool)
      requires RingOk() && openFiles == |ring| && HoldsOpen(busy) && InSync(busy) && b != busy
      requires k < |ring| && ring[k] == b
      requires ByUse(Without(ring, k), history)
      modifies this`last, this`ring, this`open, this`uses, this`openFiles, known`lruNext, known`lruPrev, b`iostream
      ensures RingOk() && uses == history && openFiles == |ring| && HoldsOpen(busy) && InSync(busy)
      ensures ring == Without(old(ring), k) && b.iostream.None? && ok == env.closeOk
    {
      hide Linked, ByUse;
      ok := env.closeOk;
      Snip(b, k);
      b.iostream := None;
      openFiles, uses := openFiles - 1, history;
    }

    /** bfd_cache_lookup when the stream is already open; only a file that is not the
        last one looked up moves. */
    method MoveToFront(b: Bfd, ghost k: nat)
      requires RingOk() && k < |ring| && ring[k] == b
      modifies this`last, this`ring, this`open, this`uses, known`lruNext, known`lruPrev
      ensures RingOk() && ring == [b] + Without(old(ring), k) && open == old(open) && uses == old(uses) + [b]
    {
      if b != last {
        Snip(b, k);
        Insert(b);
      } else {
        UsedAgain(ring, uses);
        uses := uses + [b];
      }
    }

    /** bfd_get_mtime on an open file, which looks its stream up like any other use. */
    method GetMtime(b: Bfd, ghost k: nat) returns (ghost at: nat)
      requires RingOk() && k < |ring| && ring[k] == b
      modifies this`last, this`ring, this`open, this`uses, known`lruNext, known`lruPrev
      ensures RingOk() && open == old(open)
      ensures at < |ring| && ring[at] == b && Without(ring, at) == Without(old(ring), k)
    {
      at := k;
      if !b.mtimeSet {
        ghost var rest := Without(ring, k);
        MoveToFront(b, k);
        at := 0;
        assert Without([b] + rest, 0) == rest;
      }
    }

    method SaveMtime(b: Bfd, ghost busy: Bfd?)
      requires RingOk() && HoldsOpen(busy) && InSync(busy)
      modifies b`mtimeSet
      ensures RingOk() && HoldsOpen(busy) && InSync(busy) && b.mtimeSet
    {
      b.mtimeSet := true;
    }

    /** What close_one does with the file it has chosen. */
    method CloseVictim(env: Env, kill: Bfd, ghost k: nat, ghost busy: Bfd?) returns (ok: bool)
      requires RingOk() && openFiles == |ring| && HoldsOpen(busy) && InSync(busy) && kill != busy
      requires k < |ring| && ring[k] == kill
      modifies this`last, this`ring, this`open, this`uses, this`openFiles
      modifies known`lruNext, known`lruPrev, kill`iostream, kill`where, kill`mtimeSet
      ensures RingOk() && openFiles == |ring| && HoldsOpen(busy) && InSync(busy)
      ensures kill.where == old(kill.where) && kill.iostream.None?
      ensures ok == env.closeOk && ring == Without(old(ring), k) && uses == old(uses)
    {
      hide Linked, ByUse;
      ghost var history := uses;
      WithoutFacts(ring, k, uses);
      assert kill.iostream == Some(kill.where);
      kill.where := kill.iostream.value;
      ghost var at := GetMtime(kill, k);
      SaveMtime(kill, busy);
      ok := Delete(env, kill, at, busy, history);    // looking at the mtime was no use of the file
    }

    /** close_one: the least recently used file that may be closed, if there is one. */
    method CloseOne(env: Env, ghost busy: Bfd?) returns (ok: bool)
      requires RingOk() && openFiles == |ring| && HoldsOpen(busy) && InSync(busy) && (busy != null ==> busy !in open)
      modifies this`last, this`ring, this`open, this`uses, this`openFiles
      modifies known`lruNext, known`lruPrev, known`iostream, known`where, known`mtimeSet
      ensures RingOk() && openFiles == |ring| && HoldsOpen(busy) && InSync(busy)
      ensures forall o :: o in known ==> o.where == old(o.where)
      ensures forall o :: o in known && (o.iostream.Some? || o !in old(open)) ==> o.iostream == old(o.iostream)
      ensures uses == old(uses)
      ensures ring == old(Closed(ring))
      ensures ok == (old(Victim(ring)) < 0 || env.closeOk)
    {
      hide Linked, ByUse;
      hide Without;
      ghost var chosen := Victim(ring);
      var kill := ChooseVictim();
      if kill == null {
        return true;
      }
      ok := CloseVictim(env, kill, chosen, busy);
    }

    /** The file close_one takes, if there is one. */
    method ChooseVictim() returns (kill: Bfd?)
      requires RingOk()
      ensures kill == if Victim(ring) < 0 then null else ring[Victim(ring)]
    {
      kill := null;
      if last != null {
        kill := FindVictim(last, ring);
      }
    }

    /** The test that bfd_open_file and bfd_cache_init share: at the limit, close a file. */
    method MakeRoom(env: Env, ghost busy: Bfd?) returns (ok: bool)
      requires RingOk() && openFiles == |ring| && HoldsOpen(busy) && InSync(busy) && Bounded()
      requires busy != null ==> busy !in open
      modifies this`last, this`ring, this`open, this`uses, this`openFiles
      modifies known`lruNext, known`lruPrev, known`iostream, known`where, known`mtimeSet
      ensures RingOk() && openFiles == |ring| && HoldsOpen(busy) && InSync(busy) && Bounded()
      ensures open <= old(open) && uses == old(uses) && ring == old(RoomFor(ring))
      ensures ok ==> Roomy(ring)
      ensures old(Roomy(ring)) || env.closeOk ==> ok
      ensures forall o :: o in known ==> o.where == old(o.where)
      ensures forall o :: o in known && (o.iostream.Some? || o !in old(open)) ==> o.iostream == old(o.iostream)
    {
      ok := true;
      if openFiles >= BFD_CACHE_MAX_OPEN {
        ok := CloseForRoom(env, busy);
      }
    }

    /** Evicts a file at the limit; a close that fails is reported but makes room as well. */
    method CloseForRoom(env: Env, ghost busy: Bfd?) returns (ok: bool)
      requires RingOk() && openFiles == |ring| >= BFD_CACHE_MAX_OPEN && HoldsOpen(busy) && InSync(busy) && Bounded()
      requires busy != null ==> busy !in open
      modifies this`last, this`ring, this`open, this`uses, this`openFiles
      modifies known`lruNext, known`lruPrev, known`iostream, known`where, known`mtimeSet
      ensures RingOk() && openFiles == |ring| && HoldsOpen(busy) && InSync(busy) && Roomy(ring)
      ensures open <= old(open) && |ring| <= |old(ring)| && uses == old(uses) && ring == old(Closed(ring))
      ensures old(Roomy(ring)) || env.closeOk ==> ok
      ensures forall o :: o in known ==> o.where == old(o.where)
      ensures forall o :: o in known && (o.iostream.Some? || o !in old(open)) ==> o.iostream == old(o.iostream)
    {
      hide Linked, ByUse, Victim;
      RoomMade(ring, uses);
      ghost var rest, none := Closed(ring), Victim(ring) < 0;
      assert Roomy(ring) ==> none;
      ok := CloseOne(env, busy);
      assert ring == rest && Roomy(rest);
    }

    /** bfd_cache_init for a stream just opened; it is left out of the ring when room
        had to be made and closing a file failed. */
    method CacheInit(env: Env, b: Bfd) returns (ok: bool)
      requires RingOk() && openFiles == |ring| && HoldsOpen(b) && InSync(b) && Bounded()
      requires b in known && b !in open && b.iostream.Some?
      modifies this`last, this`ring, this`open, this`uses, this`openFiles
      modifies known`lruNext, known`lruPrev, known`iostream, known`where, known`mtimeSet
      ensures RingOk() && openFiles == |ring| && HoldsOpen(b) && InSync(b) && Bounded()
      ensures open <= old(open) + {b}
      ensures ok <==> b in open
      ensures uses == if ok then old(uses) + [b] else old(uses)
      ensures ok ==> ring == [b] + old(RoomFor(ring)) && BoundedBut(b)
      ensures old(Roomy(ring)) || env.closeOk ==> ok
      ensures b.iostream == old(b.iostream)
      ensures forall o :: o in known ==> o.where == old(o.where)
      ensures forall o :: o in known && o.iostream.Some? ==> o.iostream == old(o.iostream)
    {
      ok := MakeRoom(env, b);
      if ok {
        Enter(b);
      }
    }

    method Enter(b: Bfd)
      requires RingOk() && openFiles == |ring| && Roomy(ring) && b in known && b !in open
      modifies this`last, this`ring, this`open, this`uses, this`openFiles, known`lruNext, known`lruPrev
      ensures RingOk() && openFiles == |ring| && BoundedBut(b)
      ensures ring == [b] + old(ring) && open == old(open) + {b} && uses == old(uses) + [b]
    {
      Insert(b);
      openFiles := openFiles + 1;
    }

    /** bfd_open_file, for a file read through the cache. */
    method OpenFile(env: Env, b: Bfd) returns (ok: bool)
      requires ValidBut(b) && b in known && b.iostream.None?
      modifies this`last, this`ring, this`open, this`uses, this`openFiles
      modifies known`lruNext, known`lruPrev, known`iostream, known`where, known`mtimeSet, b`cacheable
      ensures ValidBut(b)
      ensures open <= old(open) + {b} && b.cacheable
      ensures uses == if ok then old(uses) + [b] else old(uses)
      ensures if ok then b.iostream == Some(0) && ring == [b] + old(RoomFor(ring)) else b.iostream.None?
      ensures env.openOk && env.closeOk ==> ok
      ensures forall o :: o in known ==> o.where == old(o.where)
      ensures forall o :: o in known && o != b && o.iostream.Some? ==> o.iostream == old(o.iostream)
    {
      hide Linked, ByUse, Closed, Roomy, RoomFor;
      ghost var room := RoomFor(ring);
      b.cacheable := true;
      assert RoomFor(ring) == room;
      ok := MakeRoom(env, null);
      if ok {
        if env.openOk {
          ok := OpenStream(env, b);
        } else {
          ok := false;
        }
      }
    }

    /** The stream itself, once there is room for it. */
    method OpenStream(env: Env, b: Bfd) returns (ok: bool)
      requires RingOk() && openFiles == |ring| && HoldsOpen(null) && InSync(b) && Bounded() && Roomy(ring)
      requires b in known && b.iostream.None?
      modifies this`last, this`ring, this`open, this`uses, this`openFiles
      modifies known`lruNext, known`lruPrev, known`iostream, known`where, known`mtimeSet
      ensures ok && RingOk() && openFiles == |ring| && HoldsOpen(null) && InSync(b) && BoundedBut(b)
      ensures open <= old(open) + {b} && uses == old(uses) + [b]
      ensures b.iostream == Some(0) && ring == [b] + old(ring)
      ensures forall o :: o in known ==> o.where == old(o.where)
      ensures forall o :: o in known && o != b && o.iostream.Some? ==> o.iostream == old(o.iostream)
    {
      hide Linked, ByUse, Closed, RoomFor;
      RoomMade(ring, uses);
      b.iostream := Some(0);
      ok := CacheInit(env, b);
    }

    /** bfd_cache_lookup with its worker.  The stream found is the first of the ring; a
        file reopened under CACHE_NO_SEEK is left at its beginning. */
    method Lookup(env: Env, b: Bfd, noOpen: bool, noSeek: bool) returns (found: bool)
      requires ValidBut(b) && b in known
      modifies this`last, this`ring, this`open, this`uses, this`openFiles
      modifies known`lruNext, known`lruPrev, known`iostream, known`where, known`mtimeSet, b`cacheable
      ensures ValidBut(b)
      ensures open <= old(open) + {b}
      ensures uses == if found then old(uses) + [b] else old(uses)
      ensures found ==> ring == old(UsedRing(b)) && b.iostream.Some?
      ensures !found && noOpen ==> ring == old(ring)
      ensures b.cacheable == (old(b.cacheable) || (!noOpen && old(b.iostream).None?))
      ensures found ==>
                b.iostream == if old(b.iostream).Some? then old(b.iostream) else Some(if noSeek then 0 else b.where)
      ensures !found ==> b.iostream.None? && old(b.iostream).None?
      ensures !noOpen && env.openOk && env.closeOk ==> found
      ensures noOpen ==> found == old(b.iostream).Some?
      ensures forall o :: o in known ==> o.where == old(o.where)
    {
      hide Linked, ByUse, Closed, Roomy, RoomFor;
      if b == last || b.iostream.Some? {
        Touch(b);
        return true;
      }
      if noOpen {
        return false;
      }
      found := Reopen(env, b, noSeek);
    }

    method Touch(b: Bfd)
      requires ValidBut(b) && b in known && b.iostream.Some?
      modifies this`last, this`ring, this`open, this`uses, known`lruNext, known`lruPrev
      ensures ValidBut(b) && ring == old(UsedRing(b))
      ensures open == old(open) && uses == old(uses) + [b]
    {
      MoveToFront(b, Find(ring, b));
    }

    /** The part of bfd_cache_lookup_worker that opens the file again. */
    method Reopen(env: Env, b: Bfd, noSeek: bool) returns (found: bool)
      requires ValidBut(b) && b in known && b.iostream.None?
      modifies this`last, this`ring, this`open, this`uses, this`openFiles
      modifies known`lruNext, known`lruPrev, known`iostream, known`where, known`mtimeSet, b`cacheable
      ensures ValidBut(b)
      ensures open <= old(open) + {b}
      ensures uses == if found then old(uses) + [b] else old(uses)
      ensures found ==> ring == [b] + old(RoomFor(ring)) && b.iostream == Some(if noSeek then 0 else b.where)
      ensures b.cacheable
      ensures !found ==> b.iostream.None?
      ensures env.openOk && env.closeOk ==> found
      ensures forall o :: o in known ==> o.where == old(o.where)
    {
      found := OpenFile(env, b);
      if found && !noSeek {
        MoveStream(b, b.where);
      }
    }

    /** fseek on an open stream, which the BFD's own `where` does not follow yet. */
    method MoveStream(b: Bfd, pos: nat)
      requires ValidBut(b) && b in known && b.iostream.Some?
      modifies b`iostream
      ensures ValidBut(b) && b.iostream == Some(pos)
    {
      b.iostream := Some(pos);
    }

    /** bfd_cache_close. */
    method Close(env: Env, b: Bfd) returns (ok: bool)
      requires Valid() && b in known
      modifies this`last, this`ring, this`open, this`uses, this`openFiles, known`lruNext, known`lruPrev, b`iostream
      ensures Valid() && b.iostream.None? && uses == old(uses)
      ensures open == old(open) - {b} && |ring| <= |old(ring)|
      ensures old(b.iostream).Some? ==> |ring| == |old(ring)| - 1
      ensures old(b.iostream).Some? ==> ok == env.closeOk
    {
      if b.iostream.None? {
        return true;
      }
      ghost var k :| 0 <= k < |ring| && ring[k] == b;
      WithoutFacts(ring, k, uses);
      ok := Delete(env, b, k, null, uses);
    }

    /** bfd_cache_close_all: the ring is emptied even when some closes fail. */
    method CloseAll(envs: seq<Env>) returns (ok: bool)
      requires Valid() && |envs| >= |ring|
      modifies this`last, this`ring, this`open, this`uses, this`openFiles, known`lruNext, known`lruPrev, known`iostream
      ensures Valid() && ring == [] && openFiles == 0
      ensures forall o :: o in known ==> o.iostream.None?
      ensures ok <==> forall i :: 0 <= i < |old(ring)| ==> envs[i].closeOk
    {
      hide Linked, ByUse;
      ok := true;
      var n := 0;
      ghost var total := |ring|;
      while last != null
        invariant Valid() && |ring| == total - n && 0 <= n <= total
        invariant ok <==> forall i :: 0 <= i < n ==> envs[i].closeOk
        decreases |ring|
      {
        var closed := Close(envs[n], last);
        ok := ok && closed;
        n := n + 1;
      }
    }

    /** bfd_set_cacheable keeps everything but, it may be, the bound; that it keeps exactly
        unless it makes a second file of an overfull ring closable. */
    method SetCacheable(b: Bfd, value: bool)
      requires Valid() && b in known
      modifies b`cacheable
      ensures b.cacheable == value && RingOk() && openFiles == |ring| && HoldsOpen(null) && InSync(null)
      ensures Valid() <==> !(value && b in open) || old(BoundedBut(b))
    {
      b.cacheable := value;
      assert b in open && value ==> (AtMostOneCacheable(open) <==> forall o :: o in open && o != b ==> !o.cacheable);
    }

    /** Puts a BFD that has just been opened under management, or deletes it again. */
    method Admit(env: Env, n: Bfd) returns (ok: bool)
      requires Valid() && n !in known && n.iostream == Some(0) && n.where == 0
      modifies this`last, this`ring, this`open, this`uses, this`openFiles, this`known
      modifies (known + {n})`lruNext, (known + {n})`lruPrev, (known + {n})`iostream, (known + {n})`where,
        (known + {n})`mtimeSet
      ensures Valid()
      ensures known == if ok then old(known) + {n} else old(known)
      ensures ok ==> n in open && BoundedBut(n)
      ensures n.iostream == Some(0)
      ensures env.closeOk ==> ok
      ensures open <= old(open) + {n}
      ensures forall o :: o in known ==> o.where == old(o.where)
    {
      Manage(n);
      ok := Settle(env, n);
    }

    /** bfd_cache_init for a BFD that is already managed, which is deleted if that fails. */
    method Settle(env: Env, n: Bfd) returns (ok: bool)
      requires RingOk() && openFiles == |ring| && HoldsOpen(n) && InSync(n) && Bounded()
      requires n in known && n !in open && n.iostream == Some(0) && n.where == 0
      modifies this`last, this`ring, this`open, this`uses, this`openFiles, this`known
      modifies known`lruNext, known`lruPrev, known`iostream, known`where, known`mtimeSet
      ensures Valid()
      ensures known == if ok then old(known) else old(known) - {n}
      ensures ok ==> n in open && BoundedBut(n)
      ensures n.iostream == Some(0)
      ensures env.closeOk ==> ok
      ensures open <= old(open) + {n}
      ensures forall o :: o in known ==> o.where == old(o.where)
    {
      ok := CacheInit(env, n);
      if !ok {
        Forget(n);
      }
    }

    /** _bfd_delete_bfd. */
    method Forget(n: Bfd)
      requires RingOk() && openFiles == |ring| && HoldsOpen(n) && InSync(n) && Bounded() && n !in open
      modifies this`known
      ensures Valid() && known == old(known) - {n}
    {
      assert forall i :: 0 <= i < |ring| ==> ring[i] in open;
      known := known - {n};
    }

    method Manage(n: Bfd)
      requires Valid() && n !in known
      modifies this`known
      ensures known == old(known) + {n} && n !in open
      ensures RingOk() && openFiles == |ring| && HoldsOpen(n) && InSync(n) && Bounded()
    {
      assert n in open ==> n in ring;
      known := known + {n};
    }

    /** bfd_fopen: a file opened by name may be closed later, one opened on a descriptor
        handed in may not. */
    method FOpen(env: Env, contents: seq<byte>, byName: bool) returns (b: Bfd?)
      requires Valid()
      modifies this`last, this`ring, this`open, this`uses, this`openFiles, this`known
      modifies known`lruNext, known`lruPrev, known`iostream, known`where, known`mtimeSet
      ensures Valid()
      ensures if b == null then known == old(known) else known == old(known) + {b}
      ensures b != null ==>
                fresh(b) && b.contents == contents && b.where == 0 && b.cacheable == byName && b.iostream.Some?
      ensures env.openOk && env.closeOk ==> b != null
      ensures b != null ==> open <= old(open) + {b}
      ensures forall o :: o in old(known) ==> o.where == old(o.where)
    {
      if !env.openOk {
        return null;
      }
      var n := new Bfd(contents);
      n.iostream := Some(0);
      var ok := Admit(env, n);
      if !ok {
        return null;
      }
      if byName {
        SetCacheable(n, true);
      }
      b := n;
    }
  }

  /** The backward search of close_one. */
  method FindVictim(last: Bfd, ghost s: seq<Bfd>) returns (kill: Bfd?)
    requires s != [] && s[0] == last && Distinct(s) && Linked(s)
    ensures kill == if Victim(s) < 0 then null else s[Victim(s)]
  {
    kill := last.lruPrev;
    ghost var k := |s| - 1;
    while !kill.cacheable
      invariant 0 <= k < |s| && kill == s[k]
      invariant Victim(s[..k + 1]) == Victim(s)
      decreases k
    {
      assert s[..k + 1][..k] == s[..k];
      if kill == last {
        return null;
      }
      kill, k := kill.lruPrev, k - 1;
    }
  }

  method LinkIn(b: Bfd, last: Bfd?, ghost s: seq<Bfd>)
    requires Distinct(s) && Linked(s) && b !in s
    requires last == if s == [] then null else s[0]
    modifies b`lruNext, b`lruPrev, s`lruNext, s`lruPrev
    ensures Linked([b] + s)
  {
    if last == null {
      b.lruNext, b.lruPrev := b, b;
    } else {
      b.lruNext := last;
      b.lruPrev := last.lruPrev;
      assert b.lruPrev == s[|s| - 1] && b.lruNext == s[0];
      b.lruPrev.lruNext := b;
      b.lruNext.lruPrev := b;
      forall i | 0 <= i < |s| + 1
        ensures ([b] + s)[i].lruNext == ([b] + s)[After(i, |s| + 1)]
        ensures ([b] + s)[i].lruPrev == ([b] + s)[Before(i, |s| + 1)]
      {
        NeighboursWith(b, s, i);
      }
    }
  }

  lemma NeighboursWith<T>(b: T, s: seq<T>, i: nat)
    requires s != [] && i <= |s|
    ensures var n, t := |s|, [b] + s;
            && t[i] == (if i == 0 then b else s[i - 1])
            && t[After(i, n + 1)] == (if i == n then b else if i == 0 then s[0] else s[After(i - 1, n)])
            && t[Before(i, n + 1)] == (if i == 0 then s[n - 1] else if i == 1 then b else s[Before(i - 1, n)])
  {
  }

  method LinkOut(b: Bfd, ghost s: seq<Bfd>, ghost k: nat)
    requires Distinct(s) && Linked(s) && k < |s| && s[k] == b
    modifies s`lruNext, s`lruPrev
    ensures Linked(Without(s, k))
    ensures b.lruNext == if |s| == 1 then b else s[After(k, |s|)]
  {
    ghost var t, before, after := Without(s, k), Before(k, |s|), After(k, |s|);
    assert b.lruPrev == s[before] && b.lruNext == s[after];
    b.lruPrev.lruNext := b.lruNext;
    b.lruNext.lruPrev := b.lruPrev;
    assert forall o {:trigger s[o].lruNext} :: 0 <= o < |s| ==> s[o].lruNext == if o == before then s[after]
           else s[After(o, |s|)];
    assert forall o {:trigger s[o].lruPrev} :: 0 <= o < |s| ==> s[o].lruPrev == if o == after then s[before]
           else s[Before(o, |s|)];
    forall i | 0 <= i < |t|
      ensures t[i].lruNext == t[After(i, |t|)] && t[i].lruPrev == t[Before(i, |t|)]
    {
      NeighboursWithout(s, k, i);
    }
  }

  lemma WithoutFacts(s: seq<Bfd>, k: nat, uses: seq<Bfd>)
    requires k < |s| && ByUse(s, uses)
    ensures ByUse(Without(s, k), uses)
    ensures Elements(Without(s, k)) == Elements(s) - {s[k]}
  {
    var t := Without(s, k);
    forall o | o in s && o != s[k] ensures o in t {
      var i :| 0 <= i < |s| && s[i] == o;
      assert t[if i < k then i else i - 1] == o;
    }
  }

  lemma FrontWithout(s: seq<Bfd>, k: nat, uses: seq<Bfd>)
    requires k < |s| && ByUse(s, uses)
    ensures Distinct(s) && (s[k] == s[0] <==> k == 0)
    ensures Without(s, k) == [] <==> |s| == 1
    ensures |s| > 1 ==>
              Without(s, k)[0] == (if k == 0 then s[After(0, |s|)] else s[0]) && (k == 0 ==> s[After(0, |s|)] != s[0])
    ensures forall i :: 0 <= i < |s| - 1 ==> Without(s, k)[i] in s
  {
  }

  /** Leaving out the k-th file makes its two neighbours each other's. */
  lemma NeighboursWithout<T>(s: seq<T>, k: nat, i: nat)
    requires k < |s| && i < |s| - 1
    ensures var n, t, o := |s|, Without(s, k), if i < k then i else i + 1;
            && t[i] == s[o]
            && t[After(i, n - 1)] == (if o == Before(k, n) then s[After(k, n)] else s[After(o, n)])
            && t[Before(i, n - 1)] == (if o == After(k, n) then s[Before(k, n)] else s[Before(o, n)])
  {
  }
}
