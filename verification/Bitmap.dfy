/** Bitmaps in 64-bit words (bitmap.c, find_bit.c) refine sequences of bits. */
module Bitmap {
  import opened WordBits
  import opened Bitwise

  /** Bit j of the map. */
  ghost predicate At(words: seq<bv64>, j: int)
  {
    0 <= j < BITS * |words| && Has(words[j / BITS], j % BITS)
  }

  lemma Place(q: nat, i: nat)
    requires i < BITS
    ensures (BITS * q + i) / BITS == q && (BITS * q + i) % BITS == i
  {
  }

  lemma Split(j: nat)
    ensures j == BITS * (j / BITS) + j % BITS && j % BITS < BITS
  {
  }

  // ----- bitmap_set and bitmap_clear -----

  /** Word q after the bits lo..hi-1 of the map took the value `on`. */
  ghost predicate Written(now: bv64, was: bv64, q: nat, lo: nat, hi: nat, on: bool)
  {
    forall i :: 0 <= i < BITS ==> (Has(now, i) <==> if lo <= BITS * q + i < hi then on else Has(was, i))
  }

  /** The words of map, with the bits lo..hi-1 written. */
  ghost predicate AllWritten(now: seq<bv64>, was: seq<bv64>, lo: nat, hi: nat, on: bool)
  {
    |now| == |was| && forall q :: 0 <= q < |now| ==> Written(now[q], was[q], q, lo, hi, on)
  }

  lemma WrittenBits(now: seq<bv64>, was: seq<bv64>, lo: nat, hi: nat, on: bool)
    requires AllWritten(now, was, lo, hi, on) && hi <= BITS * |was|
    ensures forall j :: 0 <= j < BITS * |was| ==> (At(now, j) <==> if lo <= j < hi then on else At(was, j))
  {
    forall j | 0 <= j < BITS * |was|
      ensures At(now, j) <==> if lo <= j < hi then on else At(was, j)
    {
      Split(j);
      assert Written(now[j / BITS], was[j / BITS], j / BITS, lo, hi, on);
    }
  }

  /** Writing word p under a mask that covers the bits at..to-1 of the map. */
  lemma WriteWord(now: seq<bv64>, was: seq<bv64>, p: nat, w: bv64, lo: nat, at: nat, to: nat, on: bool)
    requires AllWritten(now, was, lo, at, on) && p < |now| && lo <= at
    requires BITS * p <= at <= to <= BITS * p + BITS
    requires forall i :: 0 <= i < BITS ==> (Has(w, i) <==> if at <= BITS * p + i < to then on else Has(now[p], i))
    ensures AllWritten(now[p := w], was, lo, to, on)
  {
    forall q | 0 <= q < |now| ensures Written(now[p := w][q], was[q], q, lo, to, on) {
      assert Written(now[q], was[q], q, lo, at, on);
    }
  }

  /** Where a write of len bits that stays inside one word ends. */
  lemma TailEnd(p: nat, k: nat, len: nat)
    requires 0 < len < BITS - k
    ensures (BITS * p + k + len) % BITS == k + len
  {
    Place(p, k + len);
  }

  /** bitmap_set */
  method BitmapSet(bitmap: array<bv64>, start: nat, length: nat)
    requires start + length <= BITS * bitmap.Length
    modifies bitmap
    ensures forall j :: 0 <= j < BITS * bitmap.Length ==>
      (At(bitmap[..], j) <==> start <= j < start + length || At(old(bitmap[..]), j))
  {
    ghost var was := bitmap[..];
    var p, len, bits := start / BITS, length, BITS - start % BITS;
    var mask := FirstWordMask(start);
    Split(start);
    while len - bits >= 0
      invariant 0 <= len <= length && 0 < bits <= BITS
      invariant forall i :: 0 <= i < BITS ==> (Has(mask, i) <==> BITS - bits <= i)
      invariant BITS * p + (BITS - bits) == start + length - len
      invariant AllWritten(bitmap[..], was, start, start + length - len, true)
    {
      var w := OrWord(bitmap[p], mask);
      WriteWord(bitmap[..], was, p, w, start, start + length - len, BITS * p + BITS, true);
      bitmap[p] := w;
      len := len - bits;
      bits := BITS;
      mask := AllOnes();
      p := p + 1;
    }
    if len != 0 {
      TailEnd(p, BITS - bits, len);
      var last := LastWordMask(start + length);
      mask := AndWord(mask, last);
      assert forall i :: 0 <= i < BITS ==>
        (Has(mask, i) <==> start + length - len <= BITS * p + i < start + length);
      var w := OrWord(bitmap[p], mask);
      WriteWord(bitmap[..], was, p, w, start, start + length - len, start + length, true);
      bitmap[p] := w;
    }
    WrittenBits(bitmap[..], was, start, start + length, true);
  }

  /** bitmap_clear */
  method BitmapClear(bitmap: array<bv64>, start: nat, length: nat)
    requires start + length <= BITS * bitmap.Length
    modifies bitmap
    ensures forall j :: 0 <= j < BITS * bitmap.Length ==>
      (At(bitmap[..], j) <==> !(start <= j < start + length) && At(old(bitmap[..]), j))
  {
    ghost var was := bitmap[..];
    var p, len, bits := start / BITS, length, BITS - start % BITS;
    var mask := FirstWordMask(start);
    Split(start);
    while len - bits >= 0
      invariant 0 <= len <= length && 0 < bits <= BITS
      invariant forall i :: 0 <= i < BITS ==> (Has(mask, i) <==> BITS - bits <= i)
      invariant BITS * p + (BITS - bits) == start + length - len
      invariant AllWritten(bitmap[..], was, start, start + length - len, false)
    {
      var w := AndNotWord(bitmap[p], mask);
      WriteWord(bitmap[..], was, p, w, start, start + length - len, BITS * p + BITS, false);
      bitmap[p] := w;
      len := len - bits;
      bits := BITS;
      mask := AllOnes();
      p := p + 1;
    }
    if len != 0 {
      TailEnd(p, BITS - bits, len);
      var last := LastWordMask(start + length);
      mask := AndWord(mask, last);
      assert forall i :: 0 <= i < BITS ==>
        (Has(mask, i) <==> start + length - len <= BITS * p + i < start + length);
      var w := AndNotWord(bitmap[p], mask);
      WriteWord(bitmap[..], was, p, w, start, start + length - len, start + length, false);
      bitmap[p] := w;
    }
    WrittenBits(bitmap[..], was, start, start + length, false);
  }

  // ----- searches -----

  /** Bit j is of the kind a search with this `invert` looks for. */
  ghost predicate Wanted(words: seq<bv64>, invert: bv64, j: int)
  {
    0 <= j < BITS * |words| && (At(words, j) <==> invert == 0)
  }

  /** r is the least position in start..nbits-1 of the wanted kind, or nbits when there is none. */
  ghost predicate Least(words: seq<bv64>, invert: bv64, nbits: nat, start: nat, r: nat)
  {
    && r <= nbits
    && (r < nbits ==> start <= r && Wanted(words, invert, r))
    && forall j :: start <= j < r ==> !Wanted(words, invert, j)
  }

  /** The word under the cursor holds exactly the wanted bits at or after start; none was passed. */
  ghost predicate Cursor(words: seq<bv64>, invert: bv64, start: nat, q: nat, tmp: bv64)
  {
    && q < |words|
    && (forall i :: 0 <= i < BITS ==> (Has(tmp, i) <==> start <= BITS * q + i && Wanted(words, invert, BITS * q + i)))
    && (forall j :: start <= j < BITS * q ==> !Wanted(words, invert, j))
  }

  lemma CursorAt(words: seq<bv64>, invert: bv64, start: nat, q: nat, w: bv64, tmp: bv64)
    requires q < |words| && start < BITS * q + BITS
    requires forall i :: 0 <= i < BITS ==> (Has(w, i) <==> (Has(words[q], i) <==> invert == 0))
    requires forall i :: 0 <= i < BITS ==> (Has(tmp, i) <==> Has(w, i) && start <= BITS * q + i)
    requires forall j :: start <= j < BITS * q ==> !Wanted(words, invert, j)
    ensures Cursor(words, invert, start, q, tmp)
  {
    forall i | 0 <= i < BITS
      ensures Has(tmp, i) <==> start <= BITS * q + i && Wanted(words, invert, BITS * q + i)
    {
      Place(q, i);
    }
  }

  lemma CursorEmpty(words: seq<bv64>, invert: bv64, start: nat, q: nat, tmp: bv64)
    requires Cursor(words, invert, start, q, tmp) && forall i :: !Has(tmp, i)
    ensures forall j :: start <= j < BITS * q + BITS ==> !Wanted(words, invert, j)
  {
    forall j | start <= j < BITS * q + BITS ensures !Wanted(words, invert, j) {
      if j >= BITS * q { assert !Has(tmp, j - BITS * q); }
    }
  }

  lemma CursorHit(words: seq<bv64>, invert: bv64, start: nat, q: nat, tmp: bv64, f: nat)
    requires Cursor(words, invert, start, q, tmp)
    requires f < BITS && Has(tmp, f) && forall i: int :: i < f ==> !Has(tmp, i)
    ensures start <= BITS * q + f && Wanted(words, invert, BITS * q + f)
    ensures forall j :: start <= j < BITS * q + f ==> !Wanted(words, invert, j)
  {
    forall j | start <= j < BITS * q + f ensures !Wanted(words, invert, j) {
      if j >= BITS * q { assert !Has(tmp, j - BITS * q); }
    }
  }

  /** _find_next_bit */
  method FindNextBit(words: seq<bv64>, nbits: nat, from: nat, invert: bv64) returns (r: nat)
    requires nbits <= BITS * |words| && (invert == 0 || invert == ONES)
    ensures Least(words, invert, nbits, from, r)
  {
    if nbits == 0 || from >= nbits { return nbits; }
    Split(from);
    var start := BITS * (from / BITS);
    ghost var q := from / BITS;
    var w := XorWord(words[from / BITS], invert);
    var mask := FirstWordMask(from);
    var tmp := AndWord(w, mask);
    CursorAt(words, invert, from, from / BITS, w, tmp);
    while tmp == 0
      invariant start < nbits && start == BITS * q && Cursor(words, invert, from, q, tmp)
      invariant from < start + BITS
      decreases nbits - start
    {
      ZeroHas(tmp);
      CursorEmpty(words, invert, from, q, tmp);
      start, q := start + BITS, q + 1;
      if start >= nbits { return nbits; }
      Place(q, 0);
      tmp := XorWord(words[start / BITS], invert);
      CursorAt(words, invert, from, q, tmp, tmp);
    }
    var f := FindFirstSet(tmp);
    CursorHit(words, invert, from, q, tmp, f);
    r := if start + f < nbits then start + f else nbits;
  }

  /** _find_next_bit_loop: the search goes on from bit 0 when nothing was found. */
  method FindNextBitLoop(words: seq<bv64>, size: nat, from: nat, invert: bv64) returns (r: nat)
    requires size <= BITS * |words| && (invert == 0 || invert == ONES)
    ensures (exists j :: from <= j < size && Wanted(words, invert, j)) ==> r < size && Least(words, invert, size, from, r)
    ensures !(exists j :: from <= j < size && Wanted(words, invert, j)) ==> Least(words, invert, size, 0, r)
  {
    var offset := from;
    r := FindNextBit(words, size, offset, invert);
    while r >= size && offset != 0
      invariant Least(words, invert, size, offset, r)
      invariant offset == from || (offset == 0 && forall j :: from <= j < size ==> !Wanted(words, invert, j))
      decreases offset
    {
      offset := 0;
      r := FindNextBit(words, size, offset, invert);
    }
  }

  // ----- searches for a run of clear bits -----

  const WORD := 0x1_0000_0000_0000_0000

  /** 64-bit arithmetic. */
  function U64(x: int): (r: nat)
    ensures r < WORD
  {
    if 0 <= x < WORD then x else x % WORD
  }

  /** The nr bits from c on are clear and inside the map. */
  ghost predicate Clear(words: seq<bv64>, size: nat, nr: nat, c: int)
  {
    0 <= c && c + nr <= size && forall j :: c <= j < c + nr ==> !At(words, j)
  }

  /** c has no bit of the mask once `off` is added. */
  ghost predicate Aligned(c: int, mask: nat, off: nat)
  {
    0 <= c && And(c + off, mask) == 0
  }

  /** None of the places lo..hi-1 can be returned: each is not aligned or not clear. */
  ghost predicate NoArea(words: seq<bv64>, size: nat, nr: nat, mask: nat, off: nat, lo: int, hi: int)
  {
    forall c {:trigger Clear(words, size, nr, c)} {:trigger Aligned(c, mask, off)} ::
      lo <= c < hi ==> !(Aligned(c, mask, off) && Clear(words, size, nr, c))
  }

  /** r is the least aligned clear area at or after `from`, or above size when there is none. */
  ghost predicate LeastArea(words: seq<bv64>, size: nat, nr: nat, mask: nat, off: nat, from: nat, r: nat)
  {
    if r <= size then
      from <= r && Aligned(r, mask, off) && Clear(words, size, nr, r) && NoArea(words, size, nr, mask, off, from, r)
    else
      NoArea(words, size, nr, mask, off, from, size + 1)
  }

  /** __ALIGN_MASK: (x + mask) & ~mask, where clearing the bits of the mask subtracts them. */
  function AlignMask(x: nat, mask: nat): nat
  {
    var y := U64(x + mask);
    y - And(y, mask)
  }

  /** Rounding up to a multiple of unit. */
  lemma RoundUp(x: nat, unit: nat, up: nat)
    requires unit > 0 && up == x + (unit - 1) - (x + (unit - 1)) % unit
    ensures up % unit == 0 && x <= up < x + unit
    ensures forall y: nat :: x <= y < up ==> y % unit != 0
  {
    var top := x + (unit - 1);
    var q := top / unit;
    Quotient(top, unit);
    Remainder(up, unit, q, 0);
    forall y: nat | x <= y < unit * q ensures y % unit != 0 {
      Quotient(y, unit);
      if y % unit == 0 {
        if y / unit < q { Scale(y / unit, q, unit); } else if q < y / unit { Scale(q, y / unit, unit); }
      }
    }
  }

  /** For a mask of the form 2^k - 1, rounding z + off up gives the first aligned place from z on. */
  lemma AlignedPlace(z: nat, mask: nat, off: nat, index: int)
    requires PowerOfTwo(mask + 1) && z + off + mask < WORD && index + off == AlignMask(z + off, mask)
    ensures z <= index <= z + mask && Aligned(index, mask, off)
    ensures forall c {:trigger Aligned(c, mask, off)} :: z <= c < index ==> !Aligned(c, mask, off)
  {
    AndIsMod(z + off + mask, mask + 1);
    RoundUp(z + off, mask + 1, index + off);
    AndIsMod(index + off, mask + 1);
    forall c | z <= c < index ensures !Aligned(c, mask, off) { AndIsMod(c + off, mask + 1); }
  }

  method AlignIndex(z: nat, mask: nat, off: nat) returns (index: nat)
    requires PowerOfTwo(mask + 1) && z + off + mask < WORD
    ensures index + off == AlignMask(z + off, mask)
    ensures z <= index <= z + mask && Aligned(index, mask, off)
    ensures forall c {:trigger Aligned(c, mask, off)} :: z <= c < index ==> !Aligned(c, mask, off)
  {
    var up := AlignMask(U64(z + off), mask);
    AlignedPlace(z, mask, off, up - off);
    index := U64(up - off);
  }

  // the places a search passes over: before the next clear bit, before the next aligned place,
  // up to a set bit inside the run just tried, and where the run would leave the map

  lemma SkipSet(words: seq<bv64>, size: nat, nr: nat, mask: nat, off: nat, start: nat, z: nat)
    requires size <= BITS * |words| && nr >= 1 && Least(words, ONES, size, start, z)
    ensures NoArea(words, size, nr, mask, off, start, z)
  {
    forall c | start <= c < z ensures !Clear(words, size, nr, c) { assert !Wanted(words, ONES, c); }
  }

  lemma SkipRun(words: seq<bv64>, size: nat, nr: nat, mask: nat, off: nat, index: nat, i: nat)
    requires i < index + nr && At(words, i)
    ensures NoArea(words, size, nr, mask, off, index, i + 1)
  {
    forall c | index <= c < i + 1 ensures !Clear(words, size, nr, c) {}
  }

  lemma SkipEnd(words: seq<bv64>, size: nat, nr: nat, mask: nat, off: nat, index: nat)
    requires index + nr > size
    ensures NoArea(words, size, nr, mask, off, index, size + 1)
  {
  }

  lemma Skipped(words: seq<bv64>, size: nat, nr: nat, mask: nat, off: nat, a: nat, b: nat, c: nat)
    requires NoArea(words, size, nr, mask, off, a, b) && NoArea(words, size, nr, mask, off, b, c)
    ensures NoArea(words, size, nr, mask, off, a, c)
  {
  }

  lemma RunClear(words: seq<bv64>, size: nat, nr: nat, index: nat, i: nat)
    requires index + nr <= size <= BITS * |words| && Least(words, 0, index + nr, index, i) && i >= index + nr
    ensures Clear(words, size, nr, index)
  {
    forall j | index <= j < index + nr ensures !At(words, j) { assert !Wanted(words, 0, j); }
  }

  /** bitmap_find_next_zero_area_off */
  method FindZeroAreaOff(words: seq<bv64>, size: nat, from: nat, nr: nat, mask: nat, off: nat) returns (r: nat)
    requires size <= BITS * |words| && size + off + mask + nr < WORD && PowerOfTwo(mask + 1)
    ensures nr >= 1 ==> LeastArea(words, size, nr, mask, off, from, r)
    ensures nr == 0 ==> exists z: nat :: Least(words, ONES, size, from, z) && r + off == AlignMask(z + off, mask)
  {
    var start := from;
    while true
      invariant from <= start && (start == from || (nr >= 1 && start <= size))
      invariant NoArea(words, size, nr, mask, off, from, start)
      decreases size - start
    {
      var z := FindNextBit(words, size, start, ONES);
      var index := AlignIndex(z, mask, off);
      if nr >= 1 {
        SkipSet(words, size, nr, mask, off, start, z);
        Skipped(words, size, nr, mask, off, from, start, z);
        Skipped(words, size, nr, mask, off, from, z, index);
      }
      var end := U64(index + nr);
      if end > size {
        SkipEnd(words, size, nr, mask, off, index);
        if nr >= 1 { Skipped(words, size, nr, mask, off, from, index, size + 1); }
        return end;
      }
      var i := FindNextBit(words, end, index, 0);
      if i >= end {
        RunClear(words, size, nr, index, i);
        return index;
      }
      SkipRun(words, size, nr, mask, off, index, i);
      Skipped(words, size, nr, mask, off, from, index, i + 1);
      start := U64(i + 1);
    }
  }

  /** What makes bitmap_find_next_zero_area_align return: an area of at least one bit was asked
      for, or the search for an empty area can stop at an aligned clear bit or at an aligned end. */
  ghost predicate Returns(words: seq<bv64>, size: nat, nr: nat, mask: nat, start: nat)
  {
    nr >= 1 || Aligned(size, mask, 0) || exists j :: start <= j < size && Aligned(j, mask, 0) && !At(words, j)
  }

  /** A pass from `start` that finds the clear bit z goes back to the search with `next`. */
  ghost predicate GoesBack(words: seq<bv64>, size: nat, nr: nat, mask: nat, start: nat, z: nat, next: nat)
  {
    && Least(words, ONES, size, start, z) && z + nr <= size
    && (if Aligned(z, mask, 0) then
          0 < next && Least(words, 0, z + nr, z, next - 1) && next - 1 < z + nr
        else next == z + 1)
  }

  /** bitmap_find_next_zero_area_align, for any alignment: the places it accepts are those without
      a bit of align - 1 (with align = 0 that is every bit, so only place 0). */
  method FindZeroAreaAlign(words: seq<bv64>, size: nat, from: nat, nr: nat, align: nat) returns (r: nat)
    requires size <= BITS * |words| && size + nr < WORD && align < WORD
    requires Returns(words, size, nr, U64(align - 1), from)
    ensures nr >= 1 ==> LeastArea(words, size, nr, U64(align - 1), 0, from, r)
    ensures nr == 0 ==> r == size || LeastArea(words, size, 1, U64(align - 1), 0, from, r)
    ensures nr == 0 && r == size ==> NoArea(words, size, 1, U64(align - 1), 0, from, size)
  {
    var mask := U64(align - 1);
    var start := from;
    ghost var run := if nr == 0 then 1 else nr;
    while true
      invariant from <= start && (start == from || start <= size)
      invariant Returns(words, size, nr, mask, start)
      invariant NoArea(words, size, run, mask, 0, from, start)
      decreases size - start
    {
      var index := FindNextBit(words, size, start, ONES);
      SkipSet(words, size, run, mask, 0, start, index);
      Skipped(words, size, run, mask, 0, from, start, index);
      var end := U64(index + nr);
      if end > size {
        SkipEnd(words, size, nr, mask, 0, index);
        Skipped(words, size, run, mask, 0, from, index, size + 1);
        return end;
      }
      if And(index, mask) != 0 {
        assert GoesBack(words, size, nr, mask, start, index, index + 1);
        StillReturns(words, size, nr, mask, start, index);
        Skipped(words, size, run, mask, 0, from, index, index + 1);
        start := U64(index + 1);
        continue;
      }
      var i := FindNextBit(words, end, index, 0);
      if i >= end {
        RunClear(words, size, nr, index, i);
        return index;
      }
      assert GoesBack(words, size, nr, mask, start, index, i + 1);
      SkipRun(words, size, nr, mask, 0, index, i);
      Skipped(words, size, run, mask, 0, from, index, i + 1);
      start := U64(i + 1);
    }
  }

  lemma StillReturns(words: seq<bv64>, size: nat, nr: nat, mask: nat, start: nat, z: nat)
    requires size <= BITS * |words| && Returns(words, size, nr, mask, start)
    requires GoesBack(words, size, nr, mask, start, z, z + 1)
    ensures nr == 0 && !Aligned(z, mask, 0) ==> z < size
    ensures !Aligned(z, mask, 0) ==> Returns(words, size, nr, mask, z + 1)
  {
    if nr == 0 && !Aligned(size, mask, 0) && !Aligned(z, mask, 0) {
      var j :| start <= j < size && Aligned(j, mask, 0) && !At(words, j);
      assert Wanted(words, ONES, j);
      assert z <= j && j != z;
    }
  }

  /** The condition is exact: from any other start, every pass goes back to a start of the same
      kind, so the search never ends. */
  lemma NeverReturns(words: seq<bv64>, size: nat, nr: nat, mask: nat, start: nat, z: nat)
    requires size <= BITS * |words| && !Returns(words, size, nr, mask, start)
    requires Least(words, ONES, size, start, z)
    ensures GoesBack(words, size, nr, mask, start, z, z + 1)
    ensures !Returns(words, size, nr, mask, z + 1)
    ensures forall next :: 0 <= next && GoesBack(words, size, nr, mask, start, z, next) ==> next == z + 1
  {
    assert z < size ==> Wanted(words, ONES, z);
    if start > size { assert z == size; }
  }

  /** For a power of two the accepted places are its multiples. */
  lemma AlignIsMod(c: nat, align: nat, off: nat)
    requires PowerOfTwo(align) && align < WORD
    ensures align > 0 && (Aligned(c, U64(align - 1), off) <==> (c + off) % align == 0)
  {
    AndIsMod(c + off, align);
  }

  lemma {:induction false} LeastExists(words: seq<bv64>, invert: bv64, nbits: nat, start: nat) returns (z: nat)
    ensures Least(words, invert, nbits, start, z)
    decreases nbits - start
  {
    if start >= nbits {
      z := nbits;
    } else if Wanted(words, invert, start) {
      z := start;
    } else {
      z := LeastExists(words, invert, nbits, start + 1);
    }
  }

  /** Any number of passes, each going back with the start of the next. */
  ghost predicate Passes(words: seq<bv64>, size: nat, nr: nat, mask: nat, starts: seq<nat>, zs: seq<nat>) {
    && |starts| == |zs| + 1
    && forall i :: 0 <= i < |zs| ==> GoesBack(words, size, nr, mask, starts[i], zs[i], starts[i + 1])
  }

  lemma {:induction false} PassesForever(words: seq<bv64>, size: nat, nr: nat, mask: nat, start: nat, n: nat)
    returns (starts: seq<nat>, zs: seq<nat>)
    requires size <= BITS * |words| && !Returns(words, size, nr, mask, start)
    ensures |zs| == n && Passes(words, size, nr, mask, starts, zs) && starts[0] == start
    decreases n
  {
    if n == 0 {
      starts, zs := [start], [];
    } else {
      var z := LeastExists(words, ONES, size, start);
      NeverReturns(words, size, nr, mask, start, z);
      var ss, zz := PassesForever(words, size, nr, mask, z + 1, n - 1);
      starts, zs := [start] + ss, [z] + zz;
      forall i | 0 <= i < |zs| ensures GoesBack(words, size, nr, mask, starts[i], zs[i], starts[i + 1]) {
        if i > 0 { assert starts[i] == ss[i - 1] && starts[i + 1] == ss[i] && zs[i] == zz[i - 1]; }
      }
    }
  }

  /** A search that never ends: an empty area with alignment 2 in a map of one bit that is set. */
  lemma EndlessSearch(n: nat) returns (starts: seq<nat>, zs: seq<nat>)
    ensures |zs| == n && Passes([1], 1, 0, U64(2 - 1), starts, zs) && starts[0] == 0
  {
    FirstBitSet();
    assert And(1, 1) == 1 && And(0, 1) == 0;
    starts, zs := PassesForever([1], 1, 0, 1, 0, n);
  }
}
