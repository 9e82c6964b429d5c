/** Bits of a 64-bit word: the masks, boolean operations and first-bit search of bitmap.h and bitops.h. */
module WordBits {
  import opened Sealing

  const BITS := 64
  const ONES: bv64 := 0xffff_ffff_ffff_ffff

  // ----- bit numbers inside a word -----

  /** A bit number as a shift count. */
  function Idx(i: nat): bv7
    requires i <= BITS
  {
    if i == 0 then 0 else Idx(i - 1) + 1
  }

  lemma Plus1(b: bv7)
    requires b <= 64
    ensures (b + 1) as int == b as int + 1
  {
  }

  lemma Small(b: bv7)
    ensures b as int <= 64 <==> b <= 64
  {
  }

  lemma {:induction false} IdxIs(i: nat)
    requires i <= BITS
    ensures Idx(i) as int == i && Idx(i) <= 64
  {
    if i > 0 {
      IdxIs(i - 1);
      Plus1(Idx(i - 1));
    }
    Small(Idx(i));
  }

  lemma IdxAtMost(i: nat)
    requires i <= BITS
    ensures Idx(i) <= 64
  {
    IdxIs(i);
  }

  lemma IdxNext(i: nat)
    requires i < BITS
    ensures Idx(i) < 64 && Idx(i + 1) == Idx(i) + 1
  {
    IdxIs(i);
    Below(Idx(i));
  }

  lemma Below(b: bv7)
    requires b as int < 64
    ensures b < 64
  {
  }

  lemma {:induction false} IdxLess(i: nat, j: nat)
    requires i < j <= BITS
    ensures Idx(i) < Idx(j)
    decreases j
  {
    IdxNext(j - 1);
    if i < j - 1 {
      IdxLess(i, j - 1);
      LessStep(Idx(i), Idx(j - 1));
    }
  }

  lemma LessStep(a: bv7, b: bv7)
    requires a < b < 64
    ensures a < b + 1
  {
  }

  /** A shift count of at most 64 is the index of its value. */
  lemma {:induction false} IdxOf(b: bv7)
    requires b <= 64
    ensures b as int <= 64 && Idx(b as int) == b
    decreases b
  {
    Small(b);
    if b != 0 {
      IdxOf(b - 1);
      Plus1(b - 1);
    }
  }

  predicate Test(w: bv64, i: nat)
    requires i < BITS
  {
    IdxNext(i);
    (w >> Idx(i)) & 1 == 1
  }

  // ----- masks -----

  /** BITMAP_FIRST_WORD_MASK, for the bit k = start % 64. */
  function First(k: nat): bv64
    requires k < BITS
  {
    IdxNext(k);
    ONES << Idx(k)
  }

  /** BITMAP_LAST_WORD_MASK, for k = nbits % 64. */
  function Last(k: nat): bv64
    requires k < BITS
  {
    IdxAtMost(if k == 0 then 0 else BITS - k);
    ONES >> Idx(if k == 0 then 0 else BITS - k)
  }

  // ----- what the word operations do to each bit (the shift count is a parameter) -----

  lemma BitOr(w: bv64, v: bv64, i: bv7)
    requires i < 64
    ensures ((w | v) >> i) & 1 == ((w >> i) & 1) | ((v >> i) & 1)
  {
  }

  lemma BitXor(w: bv64, i: bv7)
    requires i < 64
    ensures ((w ^ ONES) >> i) & 1 == 1 - ((w >> i) & 1)
    ensures w ^ 0 == w
  {
  }

  lemma BitOfShl(w: bv64, i: bv7)
    requires i < 63
    ensures ((w << 1) >> (i + 1)) & 1 == (w >> i) & 1
  {
  }

  lemma BitOfShr(w: bv64, i: bv7)
    requires i < 63
    ensures ((w >> 1) >> i) & 1 == (w >> (i + 1)) & 1
  {
  }

  lemma EdgeBits(w: bv64)
    ensures ((w << 1) >> 0) & 1 == 0 && ((w >> 1) >> 63) & 1 == 0
  {
  }

  lemma ShiftMore(k: bv7)
    requires k < 64
    ensures ONES << (k + 1) == (ONES << k) << 1 && ONES >> (k + 1) == (ONES >> k) >> 1
  {
  }

  lemma BitOnes(i: bv7)
    requires i < 64
    ensures (ONES >> i) & 1 == 1 && ONES << 0 == ONES && ONES >> 0 == ONES
  {
  }

  lemma Binary(b: bv64)
    ensures b & 1 == 0 || b & 1 == 1
    ensures 1 | (b & 1) == 1 && 0 | (b & 1) == b & 1 && 1 & (b & 1) == b & 1 && 0 & (b & 1) == 0
    ensures (b & 1) | 0 == b & 1 && (b & 1) | 1 == 1 && (b & 1) & 1 == b & 1 && (b & 1) & 0 == 0
  {
  }

  lemma TestOr(w: bv64, v: bv64, i: nat)
    requires i < BITS
    ensures Test(w | v, i) <==> Test(w, i) || Test(v, i)
  {
    IdxNext(i);
    BitOr(w, v, Idx(i));
    Binary(w >> Idx(i)); Binary(v >> Idx(i));
  }

  /** XOR with `invert` keeps or turns over every bit. */
  lemma TestXor(w: bv64, invert: bv64, i: nat)
    requires i < BITS && (invert == 0 || invert == ONES)
    ensures Test(w ^ invert, i) <==> (Test(w, i) <==> invert == 0)
  {
    IdxNext(i);
    BitXor(w, Idx(i));
    Binary(w >> Idx(i));
  }

  lemma TestNot(w: bv64, i: nat)
    requires i < BITS
    ensures Test(!w, i) <==> !Test(w, i)
  {
    TestXor(w, ONES, i);
    NotXor(w);
  }

  lemma NotXor(w: bv64)
    ensures !w == w ^ ONES
  {
  }

  lemma DeMorgan(w: bv64, v: bv64)
    ensures w & v == !(!w | !v)
  {
  }

  lemma TestAnd(w: bv64, v: bv64, i: nat)
    requires i < BITS
    ensures Test(w & v, i) <==> Test(w, i) && Test(v, i)
  {
    DeMorgan(w, v);
    TestNot(!w | !v, i);
    TestOr(!w, !v, i);
    TestNot(w, i); TestNot(v, i);
  }

  lemma TestShl(w: bv64, i: nat)
    requires i < BITS
    ensures Test(w << 1, i) <==> i > 0 && Test(w, i - 1)
  {
    if i == 0 {
      EdgeBits(w);
    } else {
      IdxNext(i); IdxNext(i - 1);
      StepBelow(Idx(i - 1));
      BitOfShl(w, Idx(i - 1));
    }
  }

  lemma TestShr(w: bv64, i: nat)
    requires i < BITS
    ensures Test(w >> 1, i) <==> i < BITS - 1 && Test(w, i + 1)
  {
    IdxNext(i);
    if i == BITS - 1 {
      IdxOf(63);
      SixtyThree();
      EdgeBits(w);
    } else {
      IdxNext(i + 1);
      StepBelow(Idx(i));
      BitOfShr(w, Idx(i));
    }
  }

  lemma SixtyThree()
    ensures (63 as bv7) as int == 63
  {
  }

  lemma StepBelow(b: bv7)
    requires b < 64 && b + 1 < 64
    ensures b < 63
  {
  }

  lemma {:induction false} FirstBits(k: nat, i: nat)
    requires k < BITS && i < BITS
    ensures Test(First(k), i) <==> k <= i
    decreases k
  {
    if k == 0 {
      OnesHas(i);
    } else {
      IdxNext(k - 1);
      ShiftMore(Idx(k - 1));
      TestShl(First(k - 1), i);
      if i > 0 { FirstBits(k - 1, i - 1); }
    }
  }

  /** ONES shifted right by m. */
  function Shifted(m: nat): bv64
    requires m < BITS
  {
    IdxAtMost(m);
    ONES >> Idx(m)
  }

  lemma {:induction false} ShiftedBits(m: nat, i: nat)
    requires m < BITS && i < BITS
    ensures Test(Shifted(m), i) <==> m + i < BITS
    decreases m
  {
    if m == 0 {
      OnesHas(i);
    } else {
      IdxNext(m - 1);
      ShiftMore(Idx(m - 1));
      TestShr(Shifted(m - 1), i);
      if i < BITS - 1 { ShiftedBits(m - 1, i + 1); }
    }
  }

  lemma LastBits(k: nat, i: nat)
    requires k < BITS && i < BITS
    ensures Test(Last(k), i) <==> k == 0 || i < k
  {
    ShiftedBits(if k == 0 then 0 else BITS - k, i);
  }

  lemma OnesHas(i: nat)
    requires i < BITS
    ensures Test(ONES, i) && First(0) == ONES && Last(0) == ONES
  {
    IdxNext(i);
    BitOnes(Idx(i));
  }

  // ----- first set bit of a word, by halving -----

  function HalveDown(p: (bv64, bv7), low: bv64, s: bv7): (bv64, bv7)
    requires s <= 64
  {
    if p.0 & low == 0 then (p.0 >> s, p.1 + s) else p
  }

  /** __ffs, as a shift count */
  function FfsShift(w: bv64): bv7
  {
    HalveDown(HalveDown(HalveDown(HalveDown(HalveDown(HalveDown((w, 0),
      0xffff_ffff, 32), 0xffff, 16), 0xff, 8), 0xf, 4), 0x3, 2), 0x1, 1).1
  }

  lemma FfsWord(w: bv64, n: bv7)
    requires w != 0 && n == FfsShift(w)
    ensures n < 64 && (w >> n) & 1 == 1 && w & ((1 << n) - 1) == 0
  {
  }

  /** The bits below n. */
  function Under(n: nat): bv64
    requires n < BITS
  {
    IdxAtMost(n);
    (1 << Idx(n)) - 1
  }

  lemma UnderMore(n: bv7)
    requires n < 63
    ensures (1 as bv64 << (n + 1)) - 1 == (((1 << n) - 1) << 1) | 1
  {
  }

  lemma {:induction false} UnderBits(n: nat, i: nat)
    requires n < BITS && i < BITS
    ensures Test(Under(n), i) <==> i < n
    decreases n
  {
    if n == 0 {
      ZeroLacks(i);
    } else {
      IdxNext(n - 1); IdxNext(n);
      StepBelow(Idx(n - 1));
      UnderMore(Idx(n - 1));
      TestOr(Under(n - 1) << 1, 1, i);
      TestShl(Under(n - 1), i);
      OneHas(i);
      if i > 0 { UnderBits(n - 1, i - 1); }
    }
  }

  lemma OneHas(i: nat)
    requires i < BITS
    ensures Test(1, i) <==> i == 0
  {
    IdxNext(i);
    if i > 0 {
      IdxLess(0, i);
      BitOfOne(Idx(i));
    }
  }

  lemma BitOfOne(i: bv7)
    requires 0 < i < 64
    ensures ((1 as bv64) >> i) & 1 == 0
  {
  }

  /** From shift counts to bit numbers. */
  lemma AsBit(w: bv64, n: bv7)
    requires n < 64 && (w >> n) & 1 == 1
    ensures n as int < BITS && Test(w, n as int)
  {
    IdxOf(n);
    Below64(n);
  }

  lemma AsUnder(w: bv64, n: bv7)
    requires n < 64 && w & ((1 << n) - 1) == 0
    ensures n as int < BITS && w & Under(n as int) == 0
  {
    IdxOf(n);
    Below64(n);
  }

  lemma Below64(n: bv7)
    requires n < 64
    ensures n as int < BITS
  {
  }

  lemma NoBitUnder(w: bv64, n: nat, i: nat)
    requires i < n < BITS && w & Under(n) == 0
    ensures !Test(w, i)
  {
    UnderBits(n, i);
    TestAnd(w, Under(n), i);
    ZeroLacks(i);
  }

  lemma ZeroLacks(i: nat)
    requires i < BITS
    ensures !Test(0, i)
  {
    IdxNext(i);
    BitZero(Idx(i));
  }

  lemma BitZero(i: bv7)
    requires i < 64
    ensures ((0 as bv64) >> i) & 1 == 0
  {
  }

  // ----- words as sets of bits -----

  /** Bit i of w is set. */
  ghost predicate Has(w: bv64, i: int)
  {
    forall n: int :: Unseal(n) ==> 0 <= i < BITS && Test(w, i)
  }

  lemma HasOr(w: bv64, v: bv64, i: nat)
    requires i < BITS
    ensures Has(w | v, i) <==> Has(w, i) || Has(v, i)
  {
    assert Unseal(0);
    TestOr(w, v, i);
  }

  lemma HasAnd(w: bv64, v: bv64, i: nat)
    requires i < BITS
    ensures Has(w & v, i) <==> Has(w, i) && Has(v, i)
  {
    assert Unseal(0);
    TestAnd(w, v, i);
  }

  lemma HasNot(w: bv64, i: nat)
    requires i < BITS
    ensures Has(!w, i) <==> !Has(w, i)
  {
    assert Unseal(0);
    TestNot(w, i);
  }

  lemma HasXor(w: bv64, invert: bv64, i: nat)
    requires i < BITS && (invert == 0 || invert == ONES)
    ensures Has(w ^ invert, i) <==> (Has(w, i) <==> invert == 0)
  {
    assert Unseal(0);
    TestXor(w, invert, i);
  }

  lemma HasFirst(k: nat, i: nat)
    requires k < BITS && i < BITS
    ensures Has(First(k), i) <==> k <= i
  {
    assert Unseal(0);
    FirstBits(k, i);
  }

  lemma HasLast(k: nat, i: nat)
    requires k < BITS && i < BITS
    ensures Has(Last(k), i) <==> k == 0 || i < k
  {
    assert Unseal(0);
    LastBits(k, i);
  }

  lemma FirstBitSet()
    ensures Has(1, 0)
  {
    assert Unseal(0);
    OneHas(0);
  }

  lemma ZeroHas(w: bv64)
    requires w == 0
    ensures forall i :: !Has(w, i)
  {
    assert Unseal(0);
    forall i ensures !Has(w, i) { if 0 <= i < BITS { ZeroLacks(i); } }
  }

  /** A set bit with nothing under it is the least one. */
  lemma LeastBit(w: bv64, n: nat)
    requires n < BITS && Test(w, n) && w & Under(n) == 0
    ensures Has(w, n) && forall i: int :: i < n ==> !Has(w, i)
  {
    assert Unseal(0);
    forall i: int | i < n ensures !Has(w, i) { if 0 <= i { NoBitUnder(w, n, i); } }
  }

  // ----- the word operations; callers see words only through Has -----

  /** Set under a mask: *p |= mask */
  method OrWord(w: bv64, mask: bv64) returns (r: bv64)
    ensures forall i :: 0 <= i < BITS ==> (Has(r, i) <==> Has(w, i) || Has(mask, i))
  {
    r := w | mask;
    forall i | 0 <= i < BITS ensures Has(r, i) <==> Has(w, i) || Has(mask, i) { HasOr(w, mask, i); }
  }

  method AndWord(w: bv64, mask: bv64) returns (r: bv64)
    ensures forall i :: 0 <= i < BITS ==> (Has(r, i) <==> Has(w, i) && Has(mask, i))
  {
    r := w & mask;
    forall i | 0 <= i < BITS ensures Has(r, i) <==> Has(w, i) && Has(mask, i) { HasAnd(w, mask, i); }
  }

  /** Clear under a mask: *p &= ~mask */
  method AndNotWord(w: bv64, mask: bv64) returns (r: bv64)
    ensures forall i :: 0 <= i < BITS ==> (Has(r, i) <==> Has(w, i) && !Has(mask, i))
  {
    var off := !mask;
    r := AndWord(w, off);
    forall i | 0 <= i < BITS ensures Has(off, i) <==> !Has(mask, i) { HasNot(mask, i); }
  }

  /** A word read by a search for set bits (invert = 0) or clear bits (invert = ~0). */
  method XorWord(w: bv64, invert: bv64) returns (r: bv64)
    requires invert == 0 || invert == ONES
    ensures forall i :: 0 <= i < BITS ==> (Has(r, i) <==> (Has(w, i) <==> invert == 0))
  {
    r := w ^ invert;
    forall i | 0 <= i < BITS ensures Has(r, i) <==> (Has(w, i) <==> invert == 0) { HasXor(w, invert, i); }
  }

  /** BITMAP_FIRST_WORD_MASK */
  method FirstWordMask(start: nat) returns (r: bv64)
    ensures forall i :: 0 <= i < BITS ==> (Has(r, i) <==> start % BITS <= i)
  {
    var k := start % BITS;
    r := First(k);
    forall i | 0 <= i < BITS ensures Has(r, i) <==> k <= i { HasFirst(k, i); }
  }

  /** BITMAP_LAST_WORD_MASK */
  method LastWordMask(nbits: nat) returns (r: bv64)
    ensures forall i :: 0 <= i < BITS ==> (Has(r, i) <==> nbits % BITS == 0 || i < nbits % BITS)
  {
    var k := nbits % BITS;
    r := Last(k);
    forall i | 0 <= i < BITS ensures Has(r, i) <==> k == 0 || i < k { HasLast(k, i); }
  }

  /** ~0UL */
  method AllOnes() returns (r: bv64)
    ensures forall i :: 0 <= i < BITS ==> Has(r, i)
  {
    r := ONES;
    forall i | 0 <= i < BITS ensures Has(r, i) { assert Unseal(0); OnesHas(i); }
  }

  method FindShift(w: bv64) returns (n: bv7)
    requires w != 0
    ensures n < 64 && (w >> n) & 1 == 1 && w & ((1 << n) - 1) == 0
  {
    n := FfsShift(w);
    FfsWord(w, n);
  }

  /** __ffs: the least set bit of a word that has one. */
  method FindFirstSet(w: bv64) returns (r: nat)
    requires w != 0
    ensures r < BITS && Has(w, r) && forall i: int :: i < r ==> !Has(w, i)
  {
    var n := FindShift(w);
    AsBit(w, n);
    AsUnder(w, n);
    r := n as int;
    LeastBit(w, r);
  }
}
