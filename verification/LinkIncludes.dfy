/** Duplicate header files in a link: which debug symbols are dropped, and that what is
    left nests properly and mentions every header file once. */
module LinkIncludes {
  import opened LinkSymbols

  // ----- nesting

  /** Debug symbols, nested by the header files they come from. */
  datatype Forest =
    | Nil
    | Leaf(sym: Sym, rest: Forest)
    | Header(begin: Sym, inner: Forest, end: Sym, rest: Forest)

  function Flatten(t: Forest): seq<Sym> {
    match t
    case Nil => []
    case Leaf(sym, rest) => [sym] + Flatten(rest)
    case Header(begin, inner, end, rest) => [begin] + Flatten(inner) + [end] + Flatten(rest)
  }

  predicate IsBracket(t: bv8) {
    t == N_BINCL || t == N_EINCL
  }

  predicate Nested(t: Forest) {
    match t
    case Nil => true
    case Leaf(sym, rest) => !IsBracket(sym.etype) && Nested(rest)
    case Header(begin, inner, end, rest) =>
      begin.etype == N_BINCL && end.etype == N_EINCL && Nested(inner) && Nested(rest)
  }

  /** Types whose brackets match up, starting inside `depth` open ones. */
  predicate Balanced(ts: seq<bv8>, depth: nat) {
    if ts == [] then depth == 0
    else if ts[0] == N_BINCL then Balanced(ts[1..], depth + 1)
    else if ts[0] == N_EINCL then depth > 0 && Balanced(ts[1..], depth - 1)
    else Balanced(ts[1..], depth)
  }

  function Types(syms: seq<Sym>): (ts: seq<bv8>)
    ensures |ts| == |syms|
  {
    seq(|syms|, k requires 0 <= k < |syms| => syms[k].etype)
  }

  lemma TypesTail(syms: seq<Sym>)
    requires syms != []
    ensures Types(syms)[0] == syms[0].etype && Types(syms)[1..] == Types(syms[1..])
  {
  }

  /** A header file, its end and what follows, cut out of a list. */
  lemma CutHeader(syms: seq<Sym>, m: nat, k: nat, inner: seq<Sym>, rest: seq<Sym>)
    requires syms != [] && m < |syms| - 1 && k <= |syms| - m - 2
    requires syms[1..][..m] == inner && syms[1..][m + 1..][..k] == rest
    ensures syms[..m + 2 + k] == [syms[0]] + inner + [syms[1..][m]] + rest
    ensures syms[1..][m + 1..][k..] == syms[m + 2 + k..]
  {
    assert syms[1..][m + 1..] == syms[m + 2..];
  }

  lemma CutLeaf(syms: seq<Sym>, m: nat, rest: seq<Sym>)
    requires syms != [] && m < |syms| && syms[1..][..m] == rest
    ensures syms[..m + 1] == [syms[0]] + rest
    ensures syms[1..][m..] == syms[m + 1..]
  {
  }

  /** These symbols start with the given forest, and then the brackets that are open at the
      beginning go on to close. */
  predicate Starts(syms: seq<Sym>, depth: nat, t: Forest, n: nat) {
    && n <= |syms| && Nested(t) && syms[..n] == Flatten(t)
    && if depth == 0 then n == |syms|
       else syms[n..] != [] && syms[n..][0].etype == N_EINCL && Balanced(Types(syms[n..][1..]), depth - 1)
  }

  /** Reads a forest off the front of balanced symbols, up to an unmatched end. */
  lemma {:induction false} ForestOf(syms: seq<Sym>, depth: nat) returns (t: Forest, n: nat)
    requires Balanced(Types(syms), depth)
    ensures Starts(syms, depth, t, n)
    decreases |syms|
  {
    t, n := Nil, 0;
    if syms != [] {
      TypesTail(syms);
      assert syms[0..] == syms;
      if syms[0].etype == N_BINCL {
        var inner, m := ForestOf(syms[1..], depth + 1);
        var rest, k := ForestAfter(syms, depth, inner, m);
        t, n := Header(syms[0], inner, syms[1..][m], rest), m + 2 + k;
      } else if syms[0].etype != N_EINCL {
        var rest, m := ForestOf(syms[1..], depth);
        CutLeaf(syms, m, Flatten(rest));
        t, n := Leaf(syms[0], rest), m + 1;
      }
    }
  }

  lemma {:induction false} ForestAfter(syms: seq<Sym>, depth: nat, inner: Forest, m: nat) returns (rest: Forest, k: nat)
    requires syms != [] && syms[0].etype == N_BINCL && Starts(syms[1..], depth + 1, inner, m)
    ensures m < |syms| - 1 && Starts(syms, depth, Header(syms[0], inner, syms[1..][m], rest), m + 2 + k)
    decreases |syms|, 0
  {
    var after := syms[1..][m..][1..];
    assert after == syms[1..][m + 1..];
    rest, k := ForestOf(after, depth);
    CutHeader(syms, m, k, Flatten(inner), Flatten(rest));
  }

  // ----- what is expected

  /** The sum over the stabs of a header file itself. */
  function Sum(t: Forest): int {
    match t
    case Nil => 0
    case Leaf(sym, rest) => StabSum(sym.name, 0) + Sum(rest)
    case Header(_, _, _, rest) => Sum(rest)
  }

  predicate Seen(includes: seq<(Name, int)>, begin: Sym, inner: Forest) {
    (begin.name, Sum(inner)) in includes
  }

  /** The header files seen after these symbols. */
  function After(t: Forest, includes: seq<(Name, int)>): seq<(Name, int)> {
    match t
    case Nil => includes
    case Leaf(_, rest) => After(rest, includes)
    case Header(begin, inner, _, rest) =>
      After(rest, After(inner,
                        if Seen(includes, begin, inner) then includes else includes + [(begin.name, Sum(inner))]))
  }

  /** What becomes of a symbol. */
  datatype Fate = Dropped | Kept | Opened | Excluded | Closed

  /** Of a header file seen before, exactly its own symbols and its end are dropped; the
      header files it includes are looked at for themselves. */
  function Fates(t: Forest, duplicate: bool, includes: seq<(Name, int)>): (fates: seq<Fate>)
    ensures |fates| == |Flatten(t)|
  {
    match t
    case Nil => []
    case Leaf(_, rest) => [if duplicate then Dropped else Kept] + Fates(rest, duplicate, includes)
    case Header(begin, inner, _, rest) =>
      var seen := Seen(includes, begin, inner);
      var now := if seen then includes else includes + [(begin.name, Sum(inner))];
      [if seen then Excluded else Opened] + Fates(inner, seen, now) + [if seen then Dropped else Closed]
      + Fates(rest, duplicate, After(inner, now))
  }

  /** The brackets that are left. */
  function Brackets(t: Forest, includes: seq<(Name, int)>): seq<bv8> {
    match t
    case Nil => []
    case Leaf(_, rest) => Brackets(rest, includes)
    case Header(begin, inner, _, rest) =>
      var seen := Seen(includes, begin, inner);
      var now := if seen then includes else includes + [(begin.name, Sum(inner))];
      (if seen then Brackets(inner, now) else [N_BINCL] + Brackets(inner, now) + [N_EINCL])
      + Brackets(rest, After(inner, now))
  }

  lemma {:induction false} BalancedJoin(a: seq<bv8>, b: seq<bv8>, d: nat, e: nat)
    requires Balanced(a, d) && Balanced(b, e)
    ensures Balanced(a + b, d + e)
    decreases |a|
  {
    if a == [] {
      assert a + b == b;
    } else {
      assert (a + b)[0] == a[0] && (a + b)[1..] == a[1..] + b;
      if a[0] == N_BINCL {
        BalancedJoin(a[1..], b, d + 1, e);
      } else if a[0] == N_EINCL {
        BalancedJoin(a[1..], b, d - 1, e);
      } else {
        BalancedJoin(a[1..], b, d, e);
      }
    }
  }

  lemma {:induction false} BalancedClosed(a: seq<bv8>)
    requires Balanced(a, 0)
    ensures Balanced([N_BINCL] + a + [N_EINCL], 0)
  {
    assert Balanced([N_EINCL], 1) by {
      assert [N_EINCL][1..] == [];
    }
    BalancedJoin(a, [N_EINCL], 0, 1);
    assert ([N_BINCL] + a + [N_EINCL])[1..] == a + [N_EINCL];
  }

  /** Balanced in, balanced out. */
  lemma {:induction false} BracketsBalanced(t: Forest, includes: seq<(Name, int)>)
    ensures Balanced(Brackets(t, includes), 0)
    decreases t
  {
    match t
    case Nil =>
    case Leaf(_, rest) => BracketsBalanced(rest, includes);
    case Header(begin, inner, _, rest) =>
      var seen := Seen(includes, begin, inner);
      var now := if seen then includes else includes + [(begin.name, Sum(inner))];
      BracketsBalanced(inner, now);
      BracketsBalanced(rest, After(inner, now));
      BalancedClosed(Brackets(inner, now));
      BalancedJoin(if seen then Brackets(inner, now) else [N_BINCL] + Brackets(inner, now) + [N_EINCL],
                   Brackets(rest, After(inner, now)), 0, 0);
  }

  // ----- the two scans ahead

  /** What stands in a list at a place. */
  predicate Has<T(==)>(s: seq<T>, i: nat, piece: seq<T>) {
    i + |piece| <= |s| && s[i..i + |piece|] == piece
  }

  lemma HasAll<T>(s: seq<T>, i: nat, piece: seq<T>)
    requires i + |piece| <= |s| && forall k :: 0 <= k < |piece| ==> s[i + k] == piece[k]
    ensures Has(s, i, piece)
  {
  }

  lemma HasEach<T>(s: seq<T>, i: nat, piece: seq<T>, k: nat)
    requires Has(s, i, piece) && k < |piece|
    ensures s[i + k] == piece[k]
  {
    assert s[i..i + |piece|][k] == s[i + k];
  }

  /** A list of the form [x] + b. */
  lemma HasCons<T>(s: seq<T>, i: nat, x: T, b: seq<T>)
    ensures Has(s, i, [x] + b) <==> i < |s| && s[i] == x && Has(s, i + 1, b)
  {
    var piece := [x] + b;
    if Has(s, i, piece) {
      HasEach(s, i, piece, 0);
      forall k | 0 <= k < |b| ensures s[i + 1 + k] == b[k] {
        HasEach(s, i, piece, 1 + k);
      }
    } else if i < |s| && s[i] == x && Has(s, i + 1, b) {
      forall k | 0 <= k < |piece| ensures s[i + k] == piece[k] {
        if k > 0 {
          HasEach(s, i + 1, b, k - 1);
        }
      }
    }
  }

  lemma HasSum<T>(s: seq<T>, i: nat, a: seq<T>, e: nat, b: seq<T>)
    requires e == i + |a|
    ensures Has(s, i, a + b) <==> Has(s, i, a) && Has(s, e, b)
  {
    if Has(s, i, a + b) {
      forall k | 0 <= k < |a| ensures s[i + k] == a[k] {
        HasEach(s, i, a + b, k);
      }
      forall k | 0 <= k < |b| ensures s[e + k] == b[k] {
        HasEach(s, i, a + b, |a| + k);
      }
    } else if Has(s, i, a) && Has(s, e, b) {
      forall k | 0 <= k < |a + b| ensures s[i + k] == (a + b)[k] {
        if k < |a| {
          HasEach(s, i, a, k);
        } else {
          HasEach(s, e, b, k - |a|);
        }
      }
    }
  }

  /** A list of the form [x] + a + [y] + b, as a header file is. */
  lemma HasParts<T>(s: seq<T>, i: nat, x: T, a: seq<T>, e: nat, y: T, b: seq<T>)
    requires e == i + 1 + |a|
    ensures Has(s, i, [x] + a + [y] + b)
            <==> i < |s| && s[i] == x && Has(s, i + 1, a) && e < |s| && s[e] == y && Has(s, e + 1, b)
  {
    assert [x] + a + [y] + b == [x] + (a + ([y] + b));
    HasCons(s, i, x, a + ([y] + b));
    HasSum(s, i + 1, a, e, [y] + b);
    HasCons(s, e, y, b);
  }

  /** The symbols of a forest stand at a place. */
  predicate StandsAt(syms: seq<Sym>, i: nat, t: Forest) {
    Has(syms, i, Flatten(t))
  }

  /** Where the parts of a header file stand. */
  lemma HeaderParts(syms: seq<Sym>, i: nat, t: Forest, e: nat)
    requires t.Header? && StandsAt(syms, i, t) && e == i + 1 + |Flatten(t.inner)|
    ensures i < e < |syms| && syms[i] == t.begin && StandsAt(syms, i + 1, t.inner)
    ensures syms[e] == t.end && StandsAt(syms, e + 1, t.rest)
  {
    HasParts(syms, i, t.begin, Flatten(t.inner), e, t.end, Flatten(t.rest));
  }

  lemma LeafParts(syms: seq<Sym>, i: nat, t: Forest)
    requires t.Leaf? && StandsAt(syms, i, t)
    ensures i < |syms| && syms[i] == t.sym && StandsAt(syms, i + 1, t.rest)
  {
    HasCons(syms, i, t.sym, Flatten(t.rest));
  }

  lemma TotalEnds(syms: seq<Sym>, e: nat, nest: nat)
    requires e < |syms| && syms[e].etype == N_EINCL
    ensures Total(syms, e, nest + 1) == Total(syms, e + 1, nest) && Total(syms, e, 0) == 0
  {
  }

  /** The scan that adds up a header file counts a forest's own stabs at depth 0 and
      nothing of the header files nested in it. */
  lemma {:induction false} TotalPasses(syms: seq<Sym>, i: nat, t: Forest, nest: nat, n: nat)
    requires Nested(t) && StandsAt(syms, i, t) && n == i + |Flatten(t)|
    ensures Total(syms, i, nest) == (if nest == 0 then Sum(t) else 0) + Total(syms, n, nest)
    decreases t
  {
    match t
    case Nil =>
    case Leaf(_, rest) =>
      LeafParts(syms, i, t);
      TotalPasses(syms, i + 1, rest, nest, n);
    case Header(_, inner, _, rest) =>
      var e := i + 1 + |Flatten(inner)|;
      HeaderParts(syms, i, t, e);
      TotalPasses(syms, i + 1, inner, nest + 1, e);
      TotalEnds(syms, e, nest);
      TotalPasses(syms, e + 1, rest, nest, n);
  }

  /** The map with a forest's own symbols marked. */
  function Cover(map_: seq<int>, i: nat, t: Forest): (m: seq<int>)
    requires i + |Flatten(t)| <= |map_|
    ensures |m| == |map_|
    decreases t
  {
    match t
    case Nil => map_
    case Leaf(_, rest) => Cover(map_[i := -1], i + 1, rest)
    case Header(_, inner, _, rest) => Cover(map_, i + 1 + |Flatten(inner)| + 1, rest)
  }

  lemma MarkEnds(syms: seq<Sym>, map_: seq<int>, e: nat, nest: nat)
    requires e < |syms| == |map_| && syms[e].etype == N_EINCL
    ensures Mark(syms, map_, e, nest + 1) == Mark(syms, map_, e + 1, nest)
    ensures Mark(syms, map_, e, 0) == map_[e := -1]
  {
  }

  /** A scan that starts inside a nested header file goes over a forest without marking it. */
  lemma {:induction false} MarkSkips(syms: seq<Sym>, map_: seq<int>, i: nat, t: Forest, nest: nat, n: nat)
    requires Nested(t) && StandsAt(syms, i, t) && |map_| == |syms| && n == i + |Flatten(t)| && nest > 0
    ensures Mark(syms, map_, i, nest) == Mark(syms, map_, n, nest)
    decreases t
  {
    match t
    case Nil =>
    case Leaf(_, rest) =>
      LeafParts(syms, i, t);
      MarkSkips(syms, map_, i + 1, rest, nest, n);
    case Header(_, inner, _, rest) =>
      var e := i + 1 + |Flatten(inner)|;
      HeaderParts(syms, i, t, e);
      MarkSkips(syms, map_, i + 1, inner, nest + 1, e);
      MarkEnds(syms, map_, e, nest);
      MarkSkips(syms, map_, e + 1, rest, nest, n);
  }

  /** A scan that starts at the top marks what Cover marks. */
  lemma {:induction false} MarkPasses(syms: seq<Sym>, map_: seq<int>, i: nat, t: Forest, n: nat)
    requires Nested(t) && StandsAt(syms, i, t) && |map_| == |syms| && n == i + |Flatten(t)|
    ensures Mark(syms, map_, i, 0) == Mark(syms, Cover(map_, i, t), n, 0)
    decreases t
  {
    match t
    case Nil =>
    case Leaf(_, rest) =>
      LeafParts(syms, i, t);
      MarkPasses(syms, map_[i := -1], i + 1, rest, n);
    case Header(_, inner, _, rest) =>
      var e := i + 1 + |Flatten(inner)|;
      HeaderParts(syms, i, t, e);
      MarkSkips(syms, map_, i + 1, inner, 1, e);
      MarkEnds(syms, map_, e, 0);
      MarkPasses(syms, map_, e + 1, rest, n);
  }

  /** The marks a forest carries while the loop has not come to it: on its own symbols if
      it is what a duplicate header file contains. */
  function Marks(t: Forest, duplicate: bool): (m: seq<int>)
    ensures |m| == |Flatten(t)|
  {
    match t
    case Nil => []
    case Leaf(_, rest) => [if duplicate then -1 else 0] + Marks(rest, duplicate)
    case Header(_, inner, _, rest) => [0] + Marks(inner, false) + [0] + Marks(rest, duplicate)
  }

  predicate MarkedAs(map_: seq<int>, i: nat, t: Forest, duplicate: bool) {
    Has(map_, i, Marks(t, duplicate))
  }

  lemma LeafMarked(map_: seq<int>, i: nat, t: Forest, duplicate: bool)
    requires t.Leaf?
    ensures MarkedAs(map_, i, t, duplicate)
            <==> i < |map_| && map_[i] == (if duplicate then -1 else 0) && MarkedAs(map_, i + 1, t.rest, duplicate)
  {
    HasCons(map_, i, if duplicate then -1 else 0, Marks(t.rest, duplicate));
  }

  lemma HeaderMarked(map_: seq<int>, i: nat, t: Forest, duplicate: bool, e: nat)
    requires t.Header? && e == i + 1 + |Flatten(t.inner)|
    ensures MarkedAs(map_, i, t, duplicate)
            <==> i < e < |map_| && map_[i] == 0 && MarkedAs(map_, i + 1, t.inner, false)
                 && map_[e] == 0 && MarkedAs(map_, e + 1, t.rest, duplicate)
  {
    HasParts(map_, i, 0, Marks(t.inner, false), e, 0, Marks(t.rest, duplicate));
  }

  /** The same outside the given bounds. */
  predicate SameOutside(m: seq<int>, m': seq<int>, i: nat, n: nat) {
    |m'| == |m| && i <= n <= |m| && m'[..i] == m[..i] && m'[n..] == m[n..]
  }

  lemma SameAt(m: seq<int>, m': seq<int>, i: nat, n: nat, k: nat)
    requires SameOutside(m, m', i, n) && k < |m| && !(i <= k < n)
    ensures m'[k] == m[k]
  {
    if k < i {
      assert m'[..i][k] == m[..i][k];
    } else {
      assert m'[n..][k - n] == m[n..][k - n];
    }
  }

  lemma SameOutsideAll(m: seq<int>, m': seq<int>, i: nat, n: nat)
    requires |m'| == |m| && i <= n <= |m| && forall k :: 0 <= k < |m| && !(i <= k < n) ==> m'[k] == m[k]
    ensures SameOutside(m, m', i, n)
  {
  }

  lemma SameJoin(a: seq<int>, b: seq<int>, c: seq<int>, i: nat, j: nat, m: nat, n: nat, lo: nat, hi: nat)
    requires SameOutside(a, b, i, j) && SameOutside(b, c, m, n) && lo <= i && lo <= m && j <= hi && n <= hi <= |a|
    ensures SameOutside(a, c, lo, hi)
  {
    forall k | 0 <= k < |a| && !(lo <= k < hi) ensures c[k] == a[k] {
      SameAt(a, b, i, j, k);
      SameAt(b, c, m, n, k);
    }
    SameOutsideAll(a, c, lo, hi);
  }

  /** What stands outside the bounds stays. */
  lemma HasStays(m: seq<int>, m': seq<int>, i: nat, n: nat, at: nat, piece: seq<int>)
    requires SameOutside(m, m', i, n) && Has(m, at, piece) && (at + |piece| <= i || n <= at)
    ensures Has(m', at, piece)
  {
    forall k | 0 <= k < |piece| ensures m'[at + k] == piece[k] {
      SameAt(m, m', i, n, at + k);
      HasEach(m, at, piece, k);
    }
    HasAll(m', at, piece);
  }

  lemma UpdateOutside(m: seq<int>, i: nat, x: int)
    requires i < |m|
    ensures SameOutside(m, m[i := x], i, i + 1)
  {
  }

  /** Marking a forest's own symbols changes its marks as it should, and nothing else. */
  lemma {:induction false} CoverMarks(map_: seq<int>, i: nat, t: Forest, n: nat)
    requires MarkedAs(map_, i, t, false) && n == i + |Flatten(t)|
    ensures MarkedAs(Cover(map_, i, t), i, t, true)
    ensures SameOutside(map_, Cover(map_, i, t), i, n)
    decreases t
  {
    match t
    case Nil =>
    case Leaf(_, rest) =>
      var m := map_[i := -1];
      LeafMarked(map_, i, t, false);
      UpdateOutside(map_, i, -1);
      HasStays(map_, m, i, i + 1, i + 1, Marks(rest, false));
      CoverMarks(m, i + 1, rest, n);
      SameAt(m, Cover(m, i + 1, rest), i + 1, n, i);
      LeafMarked(Cover(map_, i, t), i, t, true);
      SameJoin(map_, m, Cover(map_, i, t), i, i + 1, i + 1, n, i, n);
    case Header(_, inner, _, rest) =>
      CoverHeader(map_, i, t, n);
  }

  lemma {:induction false} CoverHeader(map_: seq<int>, i: nat, t: Forest, n: nat)
    requires t.Header? && MarkedAs(map_, i, t, false) && n == i + |Flatten(t)|
    ensures MarkedAs(Cover(map_, i, t), i, t, true)
    ensures SameOutside(map_, Cover(map_, i, t), i, n)
    decreases t, 0
  {
    var e := i + 1 + |Flatten(t.inner)|;
    HeaderMarked(map_, i, t, false, e);
    CoverMarks(map_, e + 1, t.rest, n);
    RestCovered(map_, Cover(map_, e + 1, t.rest), i, t, e, n);
  }

  lemma RestCovered(map_: seq<int>, m: seq<int>, i: nat, t: Forest, e: nat, n: nat)
    requires t.Header? && e == i + 1 + |Flatten(t.inner)| && e < n && SameOutside(map_, m, e + 1, n)
    requires map_[i] == 0 && map_[e] == 0 && MarkedAs(map_, i + 1, t.inner, false) && MarkedAs(m, e + 1, t.rest, true)
    ensures MarkedAs(m, i, t, true) && SameOutside(map_, m, i, n)
  {
    SameAt(map_, m, e + 1, n, i);
    SameAt(map_, m, e + 1, n, e);
    HasStays(map_, m, e + 1, n, i + 1, Marks(t.inner, false));
    HeaderMarked(m, i, t, true, e);
    SameJoin(map_, map_, m, e + 1, n, e + 1, n, i, n);
  }
}
