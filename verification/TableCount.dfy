/** How many page tables an address space lacks, which is how many pages its operations need besides the user pages. */
module TableCount {
  import opened Blocks
  import opened PageTables
  import opened FlatMap

  // Entry x of directory d has a page table.
  predicate Has(m: Store, d: nat, x: int) {
    d in m && 0 <= x < 1024 && Present(m[d][x])
  }

  // 1 if the page table of virtual page v is missing.
  function Lacks(m: Store, d: nat, v: int): nat {
    if Has(m, d, v / 1024) then 0 else 1
  }

  // The number of entries in lo..hi without a page table.
  function Missing(m: Store, d: nat, lo: int, hi: int): nat
    decreases hi - lo, d
  {
    if hi <= lo then 0 else Missing(m, d, lo, hi - 1) + if Has(m, d, hi - 1) then 0 else 1
  }

  lemma {:induction false} MissingSplit(m: Store, d: nat, lo: int, mid: int, hi: int)
    requires lo <= mid <= hi
    ensures Missing(m, d, lo, hi) == Missing(m, d, lo, mid) + Missing(m, d, mid, hi)
    decreases hi - mid
  {
    if mid < hi {
      MissingSplit(m, d, lo, mid, hi - 1);
    }
  }

  lemma {:induction false} MissingSame(m0: Store, m1: Store, d: nat, lo: int, hi: int)
    requires forall x | lo <= x < hi :: Has(m1, d, x) == Has(m0, d, x)
    ensures Missing(m1, d, lo, hi) == Missing(m0, d, lo, hi)
    decreases hi - lo
  {
    if lo < hi {
      MissingSame(m0, m1, d, lo, hi - 1);
    }
  }

  lemma {:induction false} MissingNone(m: Store, d: nat, lo: int, hi: int)
    requires forall x | lo <= x < hi :: Has(m, d, x)
    ensures Missing(m, d, lo, hi) == 0
    decreases hi - lo
  {
    if lo < hi {
      MissingNone(m, d, lo, hi - 1);
    }
  }

  lemma {:induction false} MissingAll(m: Store, d: nat, lo: int, hi: int)
    requires lo <= hi && forall x | lo <= x < hi :: !Has(m, d, x)
    ensures Missing(m, d, lo, hi) == hi - lo
    decreases hi - lo
  {
    if lo < hi {
      MissingAll(m, d, lo, hi - 1);
    }
  }

  // A part of a range.
  lemma MissingPart(m: Store, d: nat, lo: int, hi: int, a: int, b: int)
    requires lo <= a <= b <= hi
    ensures Missing(m, d, lo, hi) == Missing(m, d, lo, a) + Missing(m, d, a, b) + Missing(m, d, b, hi)
  {
    MissingSplit(m, d, lo, a, hi);
    MissingSplit(m, d, a, b, hi);
  }

  lemma MissingOne(m: Store, d: nat, x: int)
    ensures Missing(m, d, x, x + 1) == if Has(m, d, x) then 0 else 1
  {
    assert Missing(m, d, x, x) == 0;
  }

  /*** What page tables cost ***/

  // Page tables are only added, only in lo..hi, and each for one of the n0 - n1 pages spent.
  ghost predicate Took(m0: Store, n0: int, m1: Store, n1: int, d: nat, lo: int, hi: int) {
    && (forall x {:trigger Has(m1, d, x)} | Has(m0, d, x) :: Has(m1, d, x))
    && (forall x {:trigger Has(m1, d, x)} | x < lo || hi <= x :: Has(m1, d, x) == Has(m0, d, x))
    && n0 - n1 == Missing(m0, d, lo, hi) - Missing(m1, d, lo, hi)
  }

  lemma TookWiden(m0: Store, n0: int, m1: Store, n1: int, d: nat, a: int, b: int, lo: int, hi: int)
    requires Took(m0, n0, m1, n1, d, a, b) && lo <= a <= b <= hi
    ensures Took(m0, n0, m1, n1, d, lo, hi)
  {
    MissingPart(m0, d, lo, hi, a, b);
    MissingPart(m1, d, lo, hi, a, b);
    MissingSame(m0, m1, d, lo, a);
    MissingSame(m0, m1, d, b, hi);
  }

  lemma TookTrans(m0: Store, n0: int, m1: Store, n1: int, m2: Store, n2: int, d: nat, lo: int, hi: int)
    requires Took(m0, n0, m1, n1, d, lo, hi) && Took(m1, n1, m2, n2, d, lo, hi)
    ensures Took(m0, n0, m2, n2, d, lo, hi)
  {
    forall x | Has(m0, d, x)
      ensures Has(m2, d, x)
    {
      assert Has(m1, d, x);
    }
    forall x | x < lo || hi <= x
      ensures Has(m2, d, x) == Has(m0, d, x)
    {
      assert Has(m1, d, x) == Has(m0, d, x);
    }
  }

  // Writing elsewhere adds no page table.
  lemma TookNothing(m0: Store, m1: Store, n: int, d: nat, lo: int, hi: int)
    requires d in m0 && d in m1 && m1[d] == m0[d]
    ensures Took(m0, n, m1, n, d, lo, hi)
  {
    MissingSame(m0, m1, d, lo, hi);
  }

  lemma TookOne(m0: Store, n: int, m1: Store, d: nat, x: nat, e: Word)
    requires d in m0 && d in m1 && x < 1024 && !Present(m0[d][x]) && Present(e) && m1[d] == m0[d][x := e]
    ensures Took(m0, n, m1, n - 1, d, x, x + 1) && Has(m1, d, x)
  {
    MissingOne(m0, d, x);
    MissingOne(m1, d, x);
    forall y: int
      ensures Has(m0, d, y) ==> Has(m1, d, y)
      ensures y < x || x + 1 <= y ==> Has(m1, d, y) == Has(m0, d, y)
    {
    }
  }

  // When the next page table is missing and no page is left, the whole range needed more than there was.
  lemma TookTooMuch(m0: Store, n0: int, m1: Store, n1: int, d: nat, lo: int, hi: int, x: int, more: nat)
    requires Took(m0, n0, m1, n1, d, lo, hi) && lo <= x < hi && n1 < more + if Has(m1, d, x) then 0 else 1
    ensures n0 < more + Missing(m0, d, lo, hi)
  {
    MissingPart(m1, d, lo, hi, x, x + 1);
    MissingOne(m1, d, x);
  }

  /*** The pages that user pages lo..hi cost ***/

  function Need(m: Store, d: nat, lo: nat, hi: nat): nat {
    if hi <= lo then 0 else hi - lo + Missing(m, d, lo / 1024, (hi - 1) / 1024 + 1)
  }

  lemma MappedHas(m: Store, d: nat, v: int)
    requires Pte(m, d, v).To?
    ensures Has(m, d, v / 1024)
  {
  }

  // Mapped throughout: no page table is missing.
  lemma MappedNone(m: Store, d: nat, lo: nat, hi: nat)
    requires lo < hi && forall v: int | lo <= v < hi :: Pte(m, d, v).To?
    ensures Missing(m, d, lo / 1024, (hi - 1) / 1024 + 1) == 0
  {
    forall x | lo / 1024 <= x < (hi - 1) / 1024 + 1
      ensures Has(m, d, x)
    {
      var v := if x * 1024 < lo then lo else x * 1024;
      assert Pte(m, d, v).To? && v / 1024 == x;
    }
    MissingNone(m, d, lo / 1024, (hi - 1) / 1024 + 1);
  }

  /*** The kernel's part: 56 page tables from KERNBASE to PHYSTOP and 8 for the devices ***/

  predicate KernelTable(x: int) {
    512 <= x < 568 || 1016 <= x < 1024
  }

  lemma KernelMissing(m: Store, d: nat)
    requires forall x {:trigger Has(m, d, x)} | Has(m, d, x) :: KernelTable(x)
    ensures Missing(m, d, 512, 1024) == Missing(m, d, 512, 568) + 448 + Missing(m, d, 1016, 1024)
  {
    MissingPart(m, d, 512, 1024, 568, 1016);
    MissingAll(m, d, 568, 1016);
  }
}
