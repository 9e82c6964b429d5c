/** The two-level bitmap of 64 priorities: one byte per group of eight, and a byte that says
    which groups are not empty.  The ready set (sched.c) and the waiters of an event (event.c)
    are kept in it. */
module PrioBitmap {

  const PRIOS := 64

  /** 1 << i in a byte. */
  function Mask(i: nat): bv8
    requires i < 8
  {
    if i == 0 then 1 else if i == 1 then 2 else if i == 2 then 4 else if i == 3 then 8
    else if i == 4 then 16 else if i == 5 then 32 else if i == 6 then 64 else 128
  }

  predicate Has(b: bv8, i: nat)
    requires i < 8
  {
    b & Mask(i) != 0
  }

  lemma HasSet(b: bv8, i: nat, k: nat)
    requires i < 8 && k < 8
    ensures Has(b | Mask(i), k) <==> Has(b, k) || k == i
  {
  }

  lemma HasCleared(b: bv8, i: nat, k: nat)
    requires i < 8 && k < 8
    ensures Has(b & !Mask(i), k) <==> Has(b, k) && k != i
  {
  }

  lemma NonZero(b: bv8)
    ensures b != 0 <==> exists i :: 0 <= i < 8 && Has(b, i)
  {
    if b != 0 {
      assert Has(b, 0) || Has(b, 1) || Has(b, 2) || Has(b, 3) || Has(b, 4) || Has(b, 5) || Has(b, 6) || Has(b, 7);
    }
  }

  /** One row of ffs_table without its first column: the lowest set bit of a nibble. */
  function FfsRow(n: bv8): nat {
    if n == 1 then 0 else if n == 2 then 1 else if n == 3 then 0 else if n == 4 then 2
    else if n == 5 then 0 else if n == 6 then 1 else if n == 7 then 0 else if n == 8 then 3
    else if n == 9 then 0 else if n == 10 then 1 else if n == 11 then 0 else if n == 12 then 2
    else if n == 13 then 0 else if n == 14 then 1 else 0
  }

  /** ffs_table: sixteen rows that differ only in their first column. */
  function Ffs(b: bv8): nat {
    if b & 0x0f != 0 then FfsRow(b & 0x0f)
    else if b == 0 then 0
    else 4 + FfsRow(b >> 4)
  }

  lemma RowLowest(n: bv8)
    requires n != 0 && n & 0x0f == n
    ensures FfsRow(n) < 4 && Has(n, FfsRow(n)) && forall k :: 0 <= k < FfsRow(n) ==> !Has(n, k)
  {
  }

  /** The table gives the lowest set bit of every byte that has one. */
  lemma FfsLowest(b: bv8)
    requires b != 0
    ensures Ffs(b) < 8 && Has(b, Ffs(b)) && forall k :: 0 <= k < Ffs(b) ==> !Has(b, k)
  {
    var n, m := b & 0x0f, b >> 4;
    if n != 0 {
      RowLowest(n);
      forall k | 0 <= k < 4
        ensures Has(b, k) <==> Has(n, k)
      {
      }
    } else {
      RowLowest(m);
      forall k | 0 <= k < 8
        ensures Has(b, k) <==> (k >= 4 && Has(m, k - 4))
      {
      }
    }
  }

  datatype Bitmap = Bitmap(grp: bv8, table: seq<bv8>) {

    /** The group byte says exactly which bytes of the table are not zero. */
    ghost predicate Valid() {
      |table| == 8 && forall y :: 0 <= y < 8 ==> (Has(grp, y) <==> table[y] != 0)
    }

    ghost predicate Contains(p: nat)
      requires |table| == 8
    {
      p < PRIOS && Has(table[p / 8], p % 8)
    }

    ghost function Members(): set<nat>
      requires |table| == 8
    {
      set p | 0 <= p < PRIOS && Contains(p)
    }

    /** task->by, bx, bity and bitx: the bit of priority p is set. */
    function Set(p: nat): Bitmap
      requires |table| == 8 && p < PRIOS
    {
      Bitmap(grp | Mask(p / 8), table[p / 8 := table[p / 8] | Mask(p % 8)])
    }

    /** ... and cleared, with the group bit when its byte becomes zero. */
    function Clear(p: nat): Bitmap
      requires |table| == 8 && p < PRIOS
    {
      var t := table[p / 8 := table[p / 8] & !Mask(p % 8)];
      Bitmap(if t[p / 8] == 0 then grp & !Mask(p / 8) else grp, t)
    }

    /** (y << 3) + x with y and x looked up in ffs_table. */
    function Lowest(): nat
      requires |table| == 8
    {
      var y := Ffs(grp);
      if y >= 8 then 0 else y * 8 + Ffs(table[y])
    }

    predicate Empty() { grp == 0 }
  }

  lemma SplitPrio(p: nat, y: nat, x: nat)
    requires x < 8 && p == y * 8 + x
    ensures p / 8 == y && p % 8 == x
  {
  }

  lemma SetAdds(m: Bitmap, p: nat)
    requires m.Valid() && p < PRIOS
    ensures m.Set(p).Valid() && m.Set(p).Members() == m.Members() + {p}
  {
    var m' := m.Set(p);
    forall y | 0 <= y < 8
      ensures Has(m'.grp, y) <==> m'.table[y] != 0
    {
      HasSet(m.grp, p / 8, y);
      if y == p / 8 {
        HasSet(m.table[y], p % 8, p % 8);
        NonZero(m'.table[y]);
      }
    }
    forall q: nat | q < PRIOS
      ensures m'.Contains(q) <==> m.Contains(q) || q == p
    {
      if q / 8 == p / 8 { HasSet(m.table[p / 8], p % 8, q % 8); }
    }
  }

  lemma ClearValid(m: Bitmap, p: nat)
    requires m.Valid() && p < PRIOS
    ensures m.Clear(p).Valid()
  {
    var m' := m.Clear(p);
    forall y | 0 <= y < 8
      ensures Has(m'.grp, y) <==> m'.table[y] != 0
    {
      HasCleared(m.grp, p / 8, y);
      if y == p / 8 && m'.table[y] != 0 {
        NonZero(m'.table[y]);
        var i :| 0 <= i < 8 && Has(m'.table[y], i);
        HasCleared(m.table[y], p % 8, i);
        NonZero(m.table[y]);
      }
    }
  }

  lemma ClearRemoves(m: Bitmap, p: nat)
    requires m.Valid() && p < PRIOS
    ensures m.Clear(p).Valid() && m.Clear(p).Members() == m.Members() - {p}
  {
    ClearValid(m, p);
    var m' := m.Clear(p);
    forall q: nat | q < PRIOS
      ensures m'.Contains(q) <==> m.Contains(q) && q != p
    {
      if q / 8 == p / 8 { HasCleared(m.table[p / 8], p % 8, q % 8); }
    }
  }

  /** The two table look-ups give the smallest member, which is the highest priority. */
  lemma LowestIsMinimum(m: Bitmap)
    requires m.Valid() && !m.Empty()
    ensures m.Lowest() in m.Members() && forall q :: q in m.Members() ==> m.Lowest() <= q
  {
    FfsLowest(m.grp);
    var y := Ffs(m.grp);
    FfsLowest(m.table[y]);
    var x := Ffs(m.table[y]);
    SplitPrio(m.Lowest(), y, x);
    assert m.Contains(m.Lowest());
    forall q | q in m.Members()
      ensures m.Lowest() <= q
    {
      NonZero(m.table[q / 8]);
      assert Has(m.grp, q / 8);
      if q / 8 == y { assert x <= q % 8; }
    }
  }

  lemma EmptyHasNoMembers(m: Bitmap)
    requires m.Valid()
    ensures m.Empty() <==> m.Members() == {}
    ensures m.Empty() <==> forall y :: 0 <= y < 8 ==> m.table[y] == 0
  {
    NonZero(m.grp);
    if !m.Empty() { LowestIsMinimum(m); }
    if m.Empty() {
      forall p: nat | p < PRIOS
        ensures !m.Contains(p)
      {
        assert !Has(m.grp, p / 8);
      }
    }
  }
}
