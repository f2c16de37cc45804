/** Relocated fields: the TMS320C30 checks for overflow, and the ARM branch.  Words are
    64-bit numbers from 0 up; all masks are masks of low bits, so that taking bits is taking
    a remainder and dropping them is dividing. */
module RelocFields {
  import opened Bytes

  const W64: int := 0x1_0000_0000_0000_0000

  type vma = x: int | 0 <= x < 0x1_0000_0000_0000_0000

  /** A word as a signed number. */
  function Signed(r: vma): int {
    if r < W64 / 2 then r else r - W64
  }

  /** A signed number as a word. */
  function Wrap(n: int): vma {
    n % W64
  }

  datatype Complain = Never | Bitfield | AsSigned

  /** What a howto of this target says: the shift to the right, as a divisor; the bytes of
      the place; the size of the field, as one more than its mask. */
  datatype Howto = Howto(divisor: int, bytes: nat, modulus: int, complain: Complain)

  const HOWTO_16 := Howto(4, 2, 0x1_0000, Never)
  const HOWTO_24 := Howto(4, 3, 0x100_0000, Bitfield)
  const HOWTO_PCREL := Howto(4, 2, 0x1_0000, AsSigned)

  predicate Known(h: Howto) {
    h == HOWTO_16 || h == HOWTO_24 || h == HOWTO_PCREL
  }

  // ----- tic30_aout_relocate_contents

  /** The field with its sign. */
  function SignedField(x: nat, m: int): int
    requires m > 0
  {
    var add := x % m;
    if add >= m / 2 then add - m else add
  }

  /** A word shifted right with its sign: the vacated bits are set if it is negative. */
  function ShiftSigned(r: vma, divisor: int): int
    requires divisor > 0
  {
    if r < W64 / 2 then r / divisor else r / divisor - W64 / divisor
  }

  function Overflows(h: Howto, r: vma, x: nat): bool
    requires Known(h)
  {
    var m := h.modulus;
    var check := Wrap(r / h.divisor + x % m);
    var signedCheck := ShiftSigned(r, h.divisor) + SignedField(x, m);
    match h.complain
    case Never => false
    case AsSigned => signedCheck > m / 2 - 1 || signedCheck < -(m / 2)
    case Bitfield => check / m != 0 && Wrap(signedCheck) / m != W64 / m - 1
  }

  /** The place with the field replaced. */
  function Patched(h: Howto, r: vma, x: nat): (x': nat)
    requires Known(h)
  {
    x - x % h.modulus + (x % h.modulus + r / h.divisor) % h.modulus
  }

  // ----- what the checks mean

  /** The sum that the field should hold. */
  function TrueSum(h: Howto, r: vma, x: nat): int
    requires Known(h)
  {
    Signed(r) / h.divisor + SignedField(x, h.modulus)
  }

  /** Shifting with the sign is dividing and rounding down. */
  lemma ShiftIsFloor(r: vma)
    ensures ShiftSigned(r, 4) == Signed(r) / 4
  {
  }

  lemma {:induction false} SameRemainder(a: int, b: int, q: int, m: int)
    requires m > 0 && a == b + m * q
    ensures a % m == b % m
  {
    var p, p' := a / m, b / m;
    assert a % m - b % m == m * (q - p + p');
    SmallMultiple(a % m - b % m, q - p + p', m);
  }

  lemma SmallMultiple(d: int, k: int, m: int)
    requires m > 0 && d == m * k && -m < d < m
    ensures d == 0
  {
  }

  /** Below and above the field. */
  lemma {:induction false} PatchedParts(h: Howto, r: vma, x: nat)
    requires Known(h)
    ensures Patched(h, r, x) / h.modulus == x / h.modulus
    ensures Patched(h, r, x) % h.modulus == (x % h.modulus + r / h.divisor) % h.modulus
  {
    var m, v := h.modulus, (x % h.modulus + r / h.divisor) % h.modulus;
    assert Patched(h, r, x) == m * (x / m) + v;
    SameRemainder(Patched(h, r, x), v, x / m, m);
  }

  /** The new field is the true sum, up to its modulus. */
  lemma {:induction false} FieldIsSum(h: Howto, r: vma, x: nat)
    requires Known(h)
    ensures Patched(h, r, x) % h.modulus == TrueSum(h, r, x) % h.modulus
  {
    var m := h.modulus;
    PatchedParts(h, r, x);
    ShiftIsFloor(r);
    var a := if r < W64 / 2 then 0 else 1;
    var b := if x % m >= m / 2 then 1 else 0;
    assert W64 / 4 == m * (W64 / 4 / m);
    assert x % m + r / 4 == TrueSum(h, r, x) + m * (W64 / 4 / m * a + b);
    SameRemainder(x % m + r / 4, TrueSum(h, r, x), W64 / 4 / m * a + b, m);
  }

  /** A number that fits is its own field. */
  lemma InRange(v: int, x: nat)
    requires x % 0x1_0000 == v % 0x1_0000 && -0x8000 <= v < 0x8000
    ensures SignedField(x, 0x1_0000) == v
  {
  }

  /** A 16-bit PC-relative reloc overflows exactly when the sum of the field and the shifted
      relocation does not fit, and otherwise leaves that sum in the field. */
  lemma Pcrel16Exact(r: vma, x: nat)
    ensures !Overflows(HOWTO_PCREL, r, x) <==> -0x8000 <= TrueSum(HOWTO_PCREL, r, x) < 0x8000
    ensures !Overflows(HOWTO_PCREL, r, x) ==>
              SignedField(Patched(HOWTO_PCREL, r, x), 0x1_0000) == TrueSum(HOWTO_PCREL, r, x)
  {
    ShiftIsFloor(r);
    FieldIsSum(HOWTO_PCREL, r, x);
    if !Overflows(HOWTO_PCREL, r, x) {
      InRange(TrueSum(HOWTO_PCREL, r, x), Patched(HOWTO_PCREL, r, x));
    }
  }

  /** A 24-bit reloc is accepted exactly if the sum is negative and at least -2^24, or if
      neither part of it is negative and it is below 2^24; the field then holds the sum
      modulo 2^24. */
  lemma Bitfield24Exact(r: vma, x: nat)
    ensures !Overflows(HOWTO_24, r, x)
            <==> -0x100_0000 <= TrueSum(HOWTO_24, r, x) < 0
                 || (Signed(r) >= 0 && SignedField(x, 0x100_0000) >= 0 && TrueSum(HOWTO_24, r, x) < 0x100_0000)
    ensures !Overflows(HOWTO_24, r, x) ==> -0x100_0000 <= TrueSum(HOWTO_24, r, x) < 0x100_0000
    ensures Patched(HOWTO_24, r, x) % 0x100_0000 == TrueSum(HOWTO_24, r, x) % 0x100_0000
  {
    ShiftIsFloor(r);
    FieldIsSum(HOWTO_24, r, x);
    HighBits(ShiftSigned(r, 4) + SignedField(x, 0x100_0000));
  }

  lemma HighBits(n: int)
    requires -0x4000_0000_0000_0000 <= n < 0x4000_0000_0000_0000
    ensures Wrap(n) / 0x100_0000 == W64 / 0x100_0000 - 1 <==> -0x100_0000 <= n < 0
  {
  }

  /** So the check complains about sums that fit: a field of 5 that should go back by 1. */
  lemma NeedlessOverflow()
    ensures TrueSum(HOWTO_24, Wrap(-4), 5) == 4 && Overflows(HOWTO_24, Wrap(-4), 5)
  {
  }

  // ----- the bytes

  function Two(b0: int, b1: int): int {
    0x100 * b0 + b1
  }

  function Three(b0: int, b1: int, b2: int): int {
    0x1_0000 * b0 + 0x100 * b1 + b2
  }

  /** A number of two or three bytes, the high one first. */
  function Read(data: seq<byte>, at: nat, bytes: nat): (x: nat)
    requires 2 <= bytes <= 3 && at + bytes <= |data|
  {
    if bytes == 2 then Two(data[at], data[at + 1]) else Three(data[at], data[at + 1], data[at + 2])
  }

  /** A field as large as its place stays within it. */
  lemma PatchFits(h: Howto, r: vma, x: nat)
    requires Known(h)
    ensures x < h.modulus ==> Patched(h, r, x) < h.modulus
  {
  }

  lemma Digits(x: nat)
    ensures x < 0x1_0000 ==> x / 0x100 < 0x100 && Two(x / 0x100, x % 0x100) == x
    ensures x < 0x100_0000 ==> x / 0x1_0000 < 0x100 && Three(x / 0x1_0000, x / 0x100 % 0x100, x % 0x100) == x
  {
  }

  /** The checks, step by step. */
  method CheckOverflow(h: Howto, r: vma, x: nat) returns (overflow: bool)
    requires Known(h)
    ensures overflow == Overflows(h, r, x)
  {
    overflow := false;
    if h.complain != Never {
      var check := r / h.divisor;
      var signedCheck := if r < W64 / 2 then check else check - W64 / h.divisor;
      var add := x % h.modulus;
      var signedAdd := add;
      if add >= h.modulus / 2 {
        signedAdd := signedAdd - h.modulus;
      }
      check := Wrap(check + add);
      signedCheck := signedCheck + signedAdd;
      if h.complain == AsSigned {
        var max := h.modulus / 2 - 1;
        if signedCheck > max || signedCheck < -max - 1 {
          overflow := true;
        }
      } else if check / h.modulus != 0 && Wrap(signedCheck) / h.modulus != W64 / h.modulus - 1 {
        overflow := true;
      }
    }
  }

  method Write(data: array<byte>, at: nat, bytes: nat, x: nat)
    requires 2 <= bytes <= 3 && at + bytes <= data.Length && x < if bytes == 2 then 0x1_0000 else 0x100_0000
    modifies data
    ensures Read(data[..], at, bytes) == x
    ensures forall i :: 0 <= i < data.Length && !(at <= i < at + bytes) ==> data[i] == old(data[i])
  {
    Digits(x);
    if bytes == 2 {
      data[at], data[at + 1] := x / 0x100, x % 0x100;
    } else {
      data[at], data[at + 1], data[at + 2] := x / 0x1_0000, x / 0x100 % 0x100, x % 0x100;
    }
  }

  lemma ReadFits(data: seq<byte>, at: nat, h: Howto)
    requires Known(h) && at + h.bytes <= |data|
    ensures Read(data, at, h.bytes) < h.modulus
  {
  }

  /** tic30_aout_relocate_contents: the place is patched in any case, and the answer says
      whether the field could hold the sum. */
  method RelocateContents(h: Howto, r: vma, data: array<byte>, at: nat) returns (ok: bool)
    requires Known(h) && at + h.bytes <= data.Length
    modifies data
    ensures ok == !Overflows(h, r, Read(old(data[..]), at, h.bytes))
    ensures Read(data[..], at, h.bytes) == Patched(h, r, Read(old(data[..]), at, h.bytes))
    ensures forall i :: 0 <= i < data.Length && !(at <= i < at + h.bytes) ==> data[i] == old(data[i])
  {
    var x := Read(data[..], at, h.bytes);
    var overflow := CheckOverflow(h, r, x);
    ReadFits(data[..], at, h);
    PatchFits(h, r, x);
    Write(data, at, h.bytes, Patched(h, r, x));
    ok := !overflow;
  }

  // ----- the ARM branch

  /** A branch instruction holds a number of words in its low 24 bits. */
  function Displacement(target: nat): int {
    var bytes := target % 0x100_0000 * 4;
    if bytes >= 0x200_0000 then bytes - 0x400_0000 else bytes
  }

  /** What the instruction should branch by. */
  function BranchTo(target: nat, symbol: int, addend: int, place: int): int {
    Displacement(target) + symbol + addend - place
  }

  datatype Status = Ok | Overflow | UndefinedSymbol

  /** The last part of fix_pcrel_26: the answer, and the instruction afterwards. */
  function FixBranch(target: nat, r: vma): (Status, nat) {
    if r % 4 != 0 then (Overflow, target)
    else
      var fits := if r / 0x200_0000 % 2 == 1 then r / 0x400_0000 == W64 / 0x400_0000 - 1 else r / 0x400_0000 == 0;
      (if fits then Ok else Overflow, target - target % 0x100_0000 + r / 4 % 0x100_0000)
  }

  lemma FitsBranch(r: vma)
    ensures (if r / 0x200_0000 % 2 == 1 then r / 0x400_0000 == W64 / 0x400_0000 - 1 else r / 0x400_0000 == 0)
            <==> -0x200_0000 <= Signed(r) < 0x200_0000
  {
  }

  lemma {:induction false} NewField(target: nat, r: vma)
    ensures (target - target % 0x100_0000 + r / 4 % 0x100_0000) % 0x100_0000 == r / 4 % 0x100_0000
    ensures (target - target % 0x100_0000 + r / 4 % 0x100_0000) / 0x100_0000 == target / 0x100_0000
  {
  }

  lemma DecodesTo(r: vma)
    requires r % 4 == 0 && -0x200_0000 <= Signed(r) < 0x200_0000
    ensures Displacement(r / 4 % 0x100_0000) == Signed(r)
  {
    var n := Signed(r) / 4;
    assert Signed(r) == 4 * n;
    if r < W64 / 2 {
      assert r / 4 == n;
    } else {
      assert r / 4 == n + 0x100_0000 * (W64 / 4 / 0x100_0000);
      SameRemainder(r / 4, n, W64 / 4 / 0x100_0000, 0x100_0000);
    }
    assert n % 0x100_0000 == if n < 0 then n + 0x100_0000 else n;
  }

  lemma SameDisplacement(a: nat, b: nat)
    requires a % 0x100_0000 == b % 0x100_0000
    ensures Displacement(a) == Displacement(b)
  {
  }

  /** The branch is accepted exactly if the displacement is a whole number of words and fits
      26 bits; then the instruction branches by exactly that much and is otherwise the same. */
  lemma BranchExact(target: nat, symbol: int, addend: int, place: int)
    ensures var d := Wrap(BranchTo(target, symbol, addend, place));
            var (status, target') := FixBranch(target, d);
            && (status == Ok <==> d % 4 == 0 && -0x200_0000 <= Signed(d) < 0x200_0000)
            && (status == Ok ==> Displacement(target') == Signed(d))
            && target' / 0x100_0000 == target / 0x100_0000
  {
    var d := Wrap(BranchTo(target, symbol, addend, place));
    FitsBranch(d);
    NewField(target, d);
    if d % 4 == 0 && -0x200_0000 <= Signed(d) < 0x200_0000 {
      DecodesTo(d);
      SameDisplacement(FixBranch(target, d).1, d / 4 % 0x100_0000);
    }
  }

  /** Counted from its place, the patched instruction leads to the addend behind the symbol,
      and as far on as the instruction said before.  It is patched so if that distance is a
      whole number of words within 32 megabytes. */
  lemma BranchLands(target: nat, symbol: int, addend: int, place: int)
    ensures var was := if target % 0x100_0000 < 0x80_0000 then target % 0x100_0000 * 4
                       else (target % 0x100_0000 - 0x100_0000) * 4;
            var distance := symbol + addend + was - place;
            var (status, target') := FixBranch(target, Wrap(BranchTo(target, symbol, addend, place)));
            && (distance % 4 == 0 && -0x200_0000 <= distance < 0x200_0000 ==>
                  status == Ok && place + Displacement(target') == symbol + addend + was)
            && (status == Ok ==> (place + Displacement(target') - (symbol + addend + was)) % W64 == 0)
  {
    var was := if target % 0x100_0000 < 0x80_0000 then target % 0x100_0000 * 4
               else (target % 0x100_0000 - 0x100_0000) * 4;
    var distance := symbol + addend + was - place;
    BranchExact(target, symbol, addend, place);
    WrapSigned(distance);
    hide FixBranch, Wrap, Signed;
  }

  lemma WrapSigned(n: int)
    ensures (Signed(Wrap(n)) - n) % W64 == 0 && (n % 4 == 0 ==> Wrap(n) % 4 == 0)
    ensures -W64 / 2 <= n < W64 / 2 ==> Signed(Wrap(n)) == n
  {
    var q := n / W64;
    assert n == W64 * q + n % W64;
    assert W64 == 4 * (W64 / 4);
    var k := if Wrap(n) < W64 / 2 then -q else -q - 1;
    assert Signed(Wrap(n)) - n == 0 + W64 * k;
    SameRemainder(Signed(Wrap(n)) - n, 0, k, W64);
  }

  lemma WordKept(target: nat, r: vma)
    requires target < WORD
    ensures FixBranch(target, r).1 < WORD
  {
    NewField(target, r);
  }

  method WriteWord(data: array<byte>, at: nat, w: nat)
    requires at + 4 <= data.Length && w < WORD
    modifies data
    ensures Get32(data[..], at) == w
    ensures forall i :: 0 <= i < data.Length && !(at <= i < at + 4) ==> data[i] == old(data[i])
  {
    var b := Word(w);
    data[at], data[at + 1], data[at + 2], data[at + 3] := b[0], b[1], b[2], b[3];
    WordRoundTrip(w);
    assert Get32(data[..], at) == Get32(b, 0);
    SmallWord(w);
  }

  /** What is added to the displacement, step by step, in words. */
  method Relocation(target: nat, symbol: int, addend: int, inputVma: int, inputOffset: int, addr: nat) returns (r: vma)
    ensures r == Wrap(BranchTo(target, symbol, addend, inputVma + inputOffset + addr))
  {
    var bytes := target % 0x100_0000 * 4;
    var relocation := if bytes >= 0x200_0000 then bytes - 0x400_0000 else bytes;
    relocation := relocation + symbol;
    relocation := relocation + addend;
    relocation := relocation - inputVma;
    relocation := relocation - inputOffset;
    relocation := relocation - addr;
    r := Wrap(relocation);
  }

  /** fix_pcrel_26: the reloc is done exactly if the instruction has been patched. */
  method FixPcrel26(data: array<byte>, addr: nat, undefined: bool, weak: bool, sameSection: bool, partial: bool,
                    symbol: int, addend: int, inputVma: int, inputOffset: int)
      returns (status: Status, done: bool)
    requires addr + 4 <= data.Length
    modifies data
    ensures forall i :: 0 <= i < data.Length && !(addr <= i < addr + 4) ==> data[i] == old(data[i])
    ensures undefined && !weak ==>
              status == (if partial then Ok else UndefinedSymbol) && !done && data[..] == old(data[..])
    ensures !(undefined && !weak) && !sameSection && partial ==> status == Ok && !done && data[..] == old(data[..])
    ensures !(undefined && !weak) && !(!sameSection && partial) ==>
              var was := Get32(old(data[..]), addr);
              var d := Wrap(BranchTo(was, symbol, addend, inputVma + inputOffset + addr));
              (status, Get32(data[..], addr)) == FixBranch(was, d) && (done <==> d % 4 == 0)
  {
    var target := Get32(data[..], addr);
    if undefined && !weak {
      return if partial then Ok else UndefinedSymbol, false;
    }
    if !sameSection && partial {
      return Ok, false;
    }
    var relocation := Relocation(target, symbol, addend, inputVma, inputOffset, addr);
    if relocation % 4 != 0 {
      return Overflow, false;
    }
    var fixed := FixBranch(target, relocation);
    WordKept(target, relocation);
    WriteWord(data, addr, fixed.1);
    status, done := fixed.0, true;
  }
}
