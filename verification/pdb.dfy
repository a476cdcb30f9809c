/** The Teensy PDB status-and-control register helpers of
    arduino_helpers/hardware/teensy/pdb.py: single-bit flag constants and
    four mask-and-shift field encoders.

    Python integers are unbounded and `n & (2^k - 1)` is `n` modulo `2^k`
    rounded toward minus infinity, which is Dafny's `%` on `int`; `x << s`
    is `x * 2^s`. Python's `|` on non-negative integers is `Or` below.
 */
module Pdb {

  // ---------------------------------------------------------------------
  // Powers of two and bits
  // ---------------------------------------------------------------------

  function Pow2(k: nat): (r: nat)
    ensures r >= 1
  {
    if k == 0 then 1 else 2 * Pow2(k - 1)
  }

  lemma {:induction false} Pow2Add(a: nat, b: nat)
    ensures Pow2(a + b) == Pow2(a) * Pow2(b)
    decreases a
  {
    if a > 0 {
      Pow2Add(a - 1, b);
      assert Pow2(a + b) == 2 * Pow2(a - 1 + b);
    }
  }

  /** Bit `i` of `x`. */
  predicate Bit(x: nat, i: nat)
    decreases i
  {
    if i == 0 then x % 2 == 1 else Bit(x / 2, i - 1)
  }

  /** Python's `a | b` on non-negative integers, one bit at a time from the
      least significant. */
  function Or(a: nat, b: nat): nat
    decreases a + b
  {
    if a == 0 && b == 0 then 0
    else 2 * Or(a / 2, b / 2) + (if a % 2 == 1 || b % 2 == 1 then 1 else 0)
  }

  /** `Or` sets exactly the bits set in either operand. */
  lemma {:induction false} OrBits(a: nat, b: nat, i: nat)
    ensures Bit(Or(a, b), i) <==> Bit(a, i) || Bit(b, i)
    decreases i
  {
    if a == 0 && b == 0 {
      ZeroBits(i);
    } else if i > 0 {
      OrBits(a / 2, b / 2, i - 1);
    }
  }

  lemma {:induction false} ZeroBits(i: nat)
    ensures !Bit(0, i)
  {
    if i > 0 { ZeroBits(i - 1); }
  }

  lemma {:induction false} OrZero(b: nat)
    ensures Or(0, b) == b
    decreases b
  {
    if b > 0 { OrZero(b / 2); }
  }

  /** A value below `2^k` and a multiple of `2^k` share no bit, so their
      `|` is their sum. */
  lemma {:induction false} OrDisjoint(a: nat, q: nat, k: nat)
    requires a < Pow2(k)
    ensures Or(a, q * Pow2(k)) == a + q * Pow2(k)
    decreases k
  {
    var b := q * Pow2(k);
    if k == 0 {
      OrZero(b);
    } else {
      assert b == 2 * (q * Pow2(k - 1));
      OrDisjoint(a / 2, q, k - 1);
      assert b / 2 == q * Pow2(k - 1) && b % 2 == 0;
    }
  }

  // ---------------------------------------------------------------------
  // Register fields
  // ---------------------------------------------------------------------

  /** `v` is a value `q << lo` with `q` fitting in the bits `lo..hi - 1`. */
  predicate InBits(v: nat, lo: nat, hi: nat) {
    lo <= hi && exists q: nat :: q < Pow2(hi - lo) && v == q * Pow2(lo)
  }

  /** `(w >> lo) & (2^width - 1)`. */
  function Decode(w: nat, lo: nat, width: nat): nat {
    (w / Pow2(lo)) % Pow2(width)
  }

  const PdbScLdok: nat := 0x00000001
  const PdbScCont: nat := 0x00000002
  const PdbScPdbie: nat := 0x00000020
  const PdbScPdbif: nat := 0x00000040
  const PdbScPdben: nat := 0x00000080
  const PdbScDmaen: nat := 0x00008000
  const PdbScSwtrig: nat := 0x00010000
  const PdbScPdbeie: nat := 0x00020000

  /** Memory-mapped addresses of the PDB0 registers. */
  const Pdb0Idly: nat := 0x4003600C
  const Pdb0Mod: nat := 0x40036004
  const Pdb0Sc: nat := 0x40036000

  /** `PDB_SC_TRGSEL(n)`: trigger input source select. */
  function Trgsel(n: int): nat {
    (n % 16) * 256
  }

  /** `PDB_SC_PRESCALER(n)`: prescaler divider select. */
  function Prescaler(n: int): nat {
    (n % 8) * 4096
  }

  /** `PDB_SC_MULT(n)`: multiplication factor. */
  function Mult(n: int): nat {
    (n % 4) * 4
  }

  /** `PDB_SC_LDMOD(n)`: load mode select. */
  function Ldmod(n: int): nat {
    (n % 4) * 262144
  }

  /** Each encoder sets only its own bits: 8-11, 12-14, 2-3 and 18-19. */
  lemma FieldRanges(n: int)
    ensures InBits(Trgsel(n), 8, 12) && InBits(Prescaler(n), 12, 15)
    ensures InBits(Mult(n), 2, 4) && InBits(Ldmod(n), 18, 20)
    ensures Mult(n) in {0, 4, 8, 12}
  {
    assert Pow2(2) == 4 && Pow2(3) == 8 && Pow2(4) == 16;
    assert Pow2(8) == 256 && Pow2(12) == 4096 && Pow2(18) == 262144;
    assert Trgsel(n) == (n % 16) * Pow2(8);
    assert Prescaler(n) == (n % 8) * Pow2(12);
    assert Mult(n) == (n % 4) * Pow2(2);
    assert Ldmod(n) == (n % 4) * Pow2(18);
  }

  /** Each field reads back as its argument's low bits, e.g.
      `(PDB_SC_TRGSEL(n) >> 8) & 15 == n & 15`. */
  lemma FieldsDecode(n: int)
    ensures Decode(Trgsel(n), 8, 4) == n % 16
    ensures Decode(Prescaler(n), 12, 3) == n % 8
    ensures Decode(Mult(n), 2, 2) == n % 4
    ensures Decode(Ldmod(n), 18, 2) == n % 4
  {
    assert Pow2(2) == 4 && Pow2(3) == 8 && Pow2(4) == 16;
    assert Pow2(8) == 256 && Pow2(12) == 4096 && Pow2(18) == 262144;
  }

  // ---------------------------------------------------------------------
  // Composing a register value
  // ---------------------------------------------------------------------

  /** The single-bit flags. */
  datatype Flag = Ldok | Cont | Pdbie | Pdbif | Pdben | Dmaen | Swtrig | Pdbeie

  function FlagValue(f: Flag): nat {
    match f
    case Ldok => PdbScLdok
    case Cont => PdbScCont
    case Pdbie => PdbScPdbie
    case Pdbif => PdbScPdbif
    case Pdben => PdbScPdben
    case Dmaen => PdbScDmaen
    case Swtrig => PdbScSwtrig
    case Pdbeie => PdbScPdbeie
  }

  /** A flag's value if it is on, else nothing. */
  function FlagIf(on: set<Flag>, f: Flag): nat {
    if f in on then FlagValue(f) else 0
  }

  /** The parts of a status-and-control value, from the least significant:
      the enabled flags and the four fields. */
  function Parts(trgsel: int, prescaler: int, mult: int, ldmod: int, on: set<Flag>): seq<nat> {
    [FlagIf(on, Ldok), FlagIf(on, Cont), Mult(mult), FlagIf(on, Pdbie), FlagIf(on, Pdbif),
     FlagIf(on, Pdben), Trgsel(trgsel), Prescaler(prescaler), FlagIf(on, Dmaen),
     FlagIf(on, Swtrig), FlagIf(on, Pdbeie), Ldmod(ldmod)]
  }

  /** The bits each part may occupy, as `[lo, hi)`. */
  const PartBits: seq<(nat, nat)> :=
    [(0, 1), (1, 2), (2, 4), (5, 6), (6, 7), (7, 8), (8, 12), (12, 15), (15, 16), (16, 17), (17, 18), (18, 20)]

  /** `x0 | x1 | ... | xn`, left to right. */
  function OrAll(xs: seq<nat>): nat {
    if |xs| == 0 then 0 else Or(OrAll(xs[..|xs| - 1]), xs[|xs| - 1])
  }

  function Sum(xs: seq<nat>): nat {
    if |xs| == 0 then 0 else Sum(xs[..|xs| - 1]) + xs[|xs| - 1]
  }

  /** Parts in ascending, non-overlapping bit ranges. */
  predicate Ordered(xs: seq<nat>, bits: seq<(nat, nat)>) {
    && |xs| == |bits|
    && (forall i :: 0 <= i < |xs| ==> InBits(xs[i], bits[i].0, bits[i].1))
    && (forall i :: 0 < i < |xs| ==> bits[i - 1].1 <= bits[i].0)
  }

  /** Parts in disjoint ascending ranges: their `|` is their sum, which
      stays below the top of the last range. */
  lemma {:induction false} OrAllIsSum(xs: seq<nat>, bits: seq<(nat, nat)>)
    requires Ordered(xs, bits)
    ensures OrAll(xs) == Sum(xs)
    ensures |xs| > 0 ==> Sum(xs) < Pow2(bits[|xs| - 1].1)
    decreases |xs|
  {
    if |xs| > 0 {
      var n := |xs| - 1;
      var init, lo, hi := xs[..n], bits[n].0, bits[n].1;
      assert Ordered(init, bits[..n]);
      OrAllIsSum(init, bits[..n]);
      assert InBits(xs[n], lo, hi);
      var q: nat :| q < Pow2(hi - lo) && xs[n] == q * Pow2(lo);
      if n > 0 {
        Pow2Mono(bits[n - 1].1, lo);
      }
      OrDisjoint(Sum(init), q, lo);
      BelowNext(Sum(init), q, lo, hi);
    }
  }

  /** Bits below `lo` plus a field in `lo..hi - 1` stay below `2^hi`. */
  lemma BelowNext(s: nat, q: nat, lo: nat, hi: nat)
    requires lo <= hi && s < Pow2(lo) && q < Pow2(hi - lo)
    ensures s + q * Pow2(lo) < Pow2(hi)
  {
    Pow2Add(lo, hi - lo);
    MulMono(q + 1, Pow2(hi - lo), Pow2(lo));
  }

  lemma MulMono(a: nat, b: nat, c: nat)
    requires a <= b
    ensures a * c <= b * c
  {
  }

  lemma {:induction false} Pow2Mono(a: nat, b: nat)
    requires a <= b
    ensures Pow2(a) <= Pow2(b)
    decreases b
  {
    if a < b { Pow2Mono(a, b - 1); }
  }

  /** Every flag is a single bit, placed as the ranges say. */
  lemma FlagBits()
    ensures PdbScLdok == Pow2(0) && PdbScCont == Pow2(1) && PdbScPdbie == Pow2(5)
    ensures PdbScPdbif == Pow2(6) && PdbScPdben == Pow2(7) && PdbScDmaen == Pow2(15)
    ensures PdbScSwtrig == Pow2(16) && PdbScPdbeie == Pow2(17)
  {
  }

  /** An enabled or disabled flag occupies at most its own bit. */
  lemma FlagIfInBits(on: set<Flag>, f: Flag, lo: nat)
    requires FlagValue(f) == Pow2(lo)
    ensures InBits(FlagIf(on, f), lo, lo + 1)
  {
    assert Pow2(1) == 2;
    if f in on {
      assert FlagIf(on, f) == 1 * Pow2(lo);
    } else {
      assert FlagIf(on, f) == 0 * Pow2(lo);
    }
  }

  /** The fields and flags of a status-and-control value never overlap, so
      OR-ing them together is adding them, and the result fits in 20 bits. */
  lemma RegisterOrIsSum(trgsel: int, prescaler: int, mult: int, ldmod: int, on: set<Flag>)
    ensures var xs := Parts(trgsel, prescaler, mult, ldmod, on);
      OrAll(xs) == Sum(xs) && Sum(xs) < Pow2(20)
  {
    var xs := Parts(trgsel, prescaler, mult, ldmod, on);
    FieldRanges(mult);
    FieldRanges(trgsel);
    FieldRanges(prescaler);
    FieldRanges(ldmod);
    FlagBits();
    FlagIfInBits(on, Ldok, 0);
    FlagIfInBits(on, Cont, 1);
    FlagIfInBits(on, Pdbie, 5);
    FlagIfInBits(on, Pdbif, 6);
    FlagIfInBits(on, Pdben, 7);
    FlagIfInBits(on, Dmaen, 15);
    FlagIfInBits(on, Swtrig, 16);
    FlagIfInBits(on, Pdbeie, 17);
    assert Ordered(xs, PartBits);
    OrAllIsSum(xs, PartBits);
  }
}
