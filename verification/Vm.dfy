/**
  kalloc.c and vm.c over physical memory.  Pages are named by their physical page
  number; page 0 is not managed, so 0 stands for the null pointer.
 */
module Vm {
  import opened Blocks
  import opened PageTables
  import opened FlatMap
  import opened TableCount

  // P2V of a page.
  function Va(p: nat): nat {
    p * 4096 + 0x8000_0000
  }

  // The link word of the free page above position i of the list: the pages below it, newest first.
  function LinkTo(free: seq<nat>, i: nat): nat
    requires i <= |free|
  {
    if i == 0 then 0 else Va(free[i - 1])
  }

  ghost predicate FreeAt(m: Store, own: Uses, free: seq<nat>, i: nat) {
    i < |free| && free[i] in m && free[i] in own && own[free[i]] == Free(i) && m[free[i]][0] == LinkTo(free, i)
  }

  // A free page is in the list, and a managed page lies above page 0 and below PHYSTOP.
  ghost predicate InList(own: Uses, free: seq<nat>, p: nat) {
    && 0 < p < 0xE000
    && (p in own && own[p].Free? ==> own[p].at < |free| && free[own[p].at] == p)
  }

  ghost predicate FreeOk(m: Store, own: Uses, free: seq<nat>, head: Word) {
    && m.Keys == own.Keys && head == LinkTo(free, |free|)
    && (forall i: nat {:trigger FreeAt(m, own, free, i)} | i < |free| :: FreeAt(m, own, free, i))
    && (forall p {:trigger InList(own, free, p)} | p in own :: InList(own, free, p))
  }

  // The list stays as it is when no free page changes and none appears.
  lemma FreeFrame(m: Store, own: Uses, m1: Store, own1: Uses, free: seq<nat>, head: Word)
    requires FreeOk(m, own, free, head) && m1.Keys == m.Keys && own1.Keys == own.Keys
    requires forall p | p in own :: own[p].Free? == own1[p].Free?
    requires forall p | p in own && own[p].Free? :: own1[p] == own[p] && m1[p] == m[p]
    ensures FreeOk(m1, own1, free, head)
  {
    forall i: nat | i < |free|
      ensures FreeAt(m1, own1, free, i)
    {
      assert FreeAt(m, own, free, i);
    }
    forall p | p in own1
      ensures InList(own1, free, p)
    {
      assert InList(own, free, p);
    }
  }

  lemma FreePush(m: Store, own: Uses, free: seq<nat>, head: Word, p: nat, s: Page)
    requires FreeOk(m, own, free, head) && p in own && own[p].Held? && s[0] == head
    ensures 0 < Va(p) < 0x1_0000_0000
    ensures FreeOk(m[p := s], own[p := Free(|free|)], free + [p], Va(p))
  {
    assert InList(own, free, p);
    var m1, own1, free1 := m[p := s], own[p := Free(|free|)], free + [p];
    forall i: nat | i < |free1|
      ensures FreeAt(m1, own1, free1, i)
    {
      assert i < |free| ==> FreeAt(m, own, free, i);
    }
    forall q | q in own1
      ensures InList(own1, free1, q)
    {
      assert InList(own, free, q);
    }
  }

  lemma FreePop(m: Store, own: Uses, free: seq<nat>, head: Word)
    requires FreeOk(m, own, free, head) && head != 0
    ensures |free| > 0
    ensures var p := free[|free| - 1];
            && p > 0 && head == Va(p) && p in own && own[p].Free? && p in m
            && FreeOk(m, own[p := Held], free[..|free| - 1], m[p][0])
  {
    var n := |free| - 1;
    var p := free[n];
    assert FreeAt(m, own, free, n) && InList(own, free, p);
    var own1, free1 := own[p := Held], free[..n];
    forall i: nat | i < |free1|
      ensures FreeAt(m, own1, free1, i)
    {
      assert FreeAt(m, own, free, i);
    }
    forall q | q in own1
      ensures InList(own1, free1, q)
    {
      assert InList(own, free, q);
    }
  }

  lemma NothingFree(m: Store, own: Uses, free: seq<nat>, head: Word)
    requires FreeOk(m, own, free, head) && head == 0
    ensures forall p | p in own :: !own[p].Free?
  {
    forall p | p in own
      ensures !own[p].Free?
    {
      assert InList(own, free, p);
    }
  }

  // kalloc, then memset and an entry for the new page table.
  lemma AddTable(m: Store, own0: Uses, d: nat, x: nat, t: nat)
    requires ForestOk(m, own0) && d in own0 && own0[d] == Dir(0) && x < 1024 && !Present(m[d][x])
    requires t in own0 && own0[t].Free? && t < 0xE000
    ensures Present(Entry(t, 7))
    ensures var m1, own1 := m[t := ZERO_PAGE][d := m[d][x := Entry(t, 7)]], own0[t := Held][t := Table(d, x)];
            && ForestOk(m1, own1) && SamePtes(m, m1, d) && Grown(m, own0, m1, own1, d, 0, 0)
  {
    var own := own0[t := Held];
    EntryIs(t, 7);
    OpenEntry(t);
    Reuse(m, own0, t, Held);
    Contents(m, own, t, ZERO_PAGE);
    SetContents(m, own, d, t, ZERO_PAGE);
    var mz := m[t := ZERO_PAGE];
    NewTable(mz, own, d, x, t, Entry(t, 7));
    Attach(mz, own, d, x, t, Entry(t, 7));
    var m1, own1 := mz[d := m[d][x := Entry(t, 7)]], own[t := Table(d, x)];
    forall p | p in m
      ensures GrownAt(m, own0, m1, own1, d, 0, 0, p)
    {
    }
  }

  lemma GrownSame(m: Store, own: Uses, d: nat, u0: nat, u1: nat)
    requires m.Keys == own.Keys
    ensures Grown(m, own, m, own, d, u0, u1)
  {
    forall p | p in m
      ensures GrownAt(m, own, m, own, d, u0, u1, p)
    {
    }
  }

  // A larger hand allows as much.
  lemma GrownHand(m: Store, own: Uses, m1: Store, own1: Uses, d: nat, u0: nat, u1: nat, w0: nat, w1: nat)
    requires Grown(m, own, m1, own1, d, u0, u1) && (u0 >= u1 || w0 <= u0 <= u1 <= w1)
    ensures Grown(m, own, m1, own1, d, w0, w1)
  {
    forall p | p in m
      ensures GrownAt(m, own, m1, own1, d, w0, w1, p)
    {
      assert GrownAt(m, own, m1, own1, d, u0, u1, p);
    }
  }

  // The hand for mapping n pages from ppn on: user pages join the address space, a kernel mapping takes none.
  function HandEnd(v: nat, ppn: nat, n: nat): nat {
    if v < 0x8_0000 then ppn + n else ppn
  }

  ghost function Mapped(own: Uses, v: nat, t: nat, ppn: nat): Uses {
    if v < 0x8_0000 then own[ppn := User(t, v % 1024)] else own
  }

  // From virtual page v0 on, n pages are mapped to the physical pages from p0 on; the rest is as before.
  ghost predicate Laid(m0: Store, m1: Store, d: nat, v0: nat, n: nat, p0: nat, perm: nat) {
    && perm < 4096
    && forall v: int {:trigger Pte(m1, d, v)} ::
         Pte(m1, d, v) == if v0 <= v < v0 + n then To(p0 + v - v0, WithPresent(perm)) else Pte(m0, d, v)
  }

  // The number of pages that the bytes va..va+size touch.
  function PageSpan(va: nat, size: nat): (n: nat)
    requires size > 0
    ensures n > 0
  {
    (va + size - 1) / 4096 - va / 4096 + 1
  }

  // The pages in hand above p are still in hand.
  lemma StillHeld(m0: Store, own0: Uses, m1: Store, own1: Uses, d: nat, p: nat, v: nat, end: nat)
    requires Grown(m0, own0, m1, own1, d, p, HandEnd(v, p, 1)) && m0.Keys == own0.Keys
    ensures forall q | p < q < end && q in own0 && own0[q].Held? :: q in own1 && own1[q].Held?
  {
    forall q | p < q < end && q in own0 && own0[q].Held?
      ensures q in own1 && own1[q].Held?
    {
      assert GrownAt(m0, own0, m1, own1, d, p, HandEnd(v, p, 1), q);
    }
  }

  // The first i of n pages are laid.
  ghost predicate Laying(m0: Store, own0: Uses, n0: int, m: Store, own: Uses, n: int, d: nat,
                         v0: nat, i: nat, p0: nat, perm: nat, u1: nat, x0: int, x1: int)
  {
    Grown(m0, own0, m, own, d, p0, u1) && Laid(m0, m, d, v0, i, p0, perm) && Took(m0, n0, m, n, d, x0, x1)
  }

  lemma LayNext(m0: Store, own0: Uses, n0: int, m: Store, own: Uses, n: int, m1: Store, own1: Uses, n1: int, d: nat,
                v0: nat, i: nat, p0: nat, perm: nat, u1: nat, x0: int, x1: int)
    requires Laying(m0, own0, n0, m, own, n, d, v0, i, p0, perm, u1, x0, x1) && ForestOk(m, own)
    requires x0 <= (v0 + i) / 1024 < x1 && p0 + i < 0x10_0000 && perm < 4096
    requires HandEnd(v0 + i, p0 + i, 1) <= p0 + i || p0 + i + 1 <= u1
    requires Grown(m, own, m1, own1, d, p0 + i, HandEnd(v0 + i, p0 + i, 1))
    requires forall w: int {:trigger Pte(m1, d, w)} ::
               Pte(m1, d, w) == if w == v0 + i then To(p0 + i, WithPresent(perm)) else Pte(m, d, w)
    requires Took(m, n, m1, n1, d, (v0 + i) / 1024, (v0 + i) / 1024 + 1)
    ensures Laying(m0, own0, n0, m1, own1, n1, d, v0, i + 1, p0, perm, u1, x0, x1)
  {
    GrownHand(m, own, m1, own1, d, p0 + i, HandEnd(v0 + i, p0 + i, 1), p0, u1);
    GrownTrans(m0, own0, m, own, m1, own1, d, p0, u1);
    TookWiden(m, n, m1, n1, d, (v0 + i) / 1024, (v0 + i) / 1024 + 1, x0, x1);
    TookTrans(m0, n0, m, n, m1, n1, d, x0, x1);
  }

  // All pages of the range are laid, so the free list had the page tables for them.
  lemma LaidAll(m0: Store, n0: int, m1: Store, n1: nat, d: nat, v0: nat, n: nat, p0: nat, perm: nat)
    requires n > 0 && Laid(m0, m1, d, v0, n, p0, perm) && Took(m0, n0, m1, n1, d, v0 / 1024, (v0 + n - 1) / 1024 + 1)
    ensures Missing(m0, d, v0 / 1024, (v0 + n - 1) / 1024 + 1) <= n0
  {
    MappedNone(m1, d, v0, v0 + n);
  }

  // Filling the entry of virtual page v.
  lemma MapEntry(m: Store, own: Uses, d: nat, v: nat, t: nat, e: Word)
    requires ForestOk(m, own) && d in own && own[d] == Dir(0) && v < 0x10_0000
    requires Points(m, d, v / 1024, t) && Pte(m, d, v).Unmapped? && Present(e)
    requires v < 0x8_0000 ==> Ppn(e) in own && own[Ppn(e)].Held?
    ensures t in m && t in own && own[t] == Table(d, v / 1024)
    ensures var m1, own1 := m[t := m[t][v % 1024 := e]], Mapped(own, v, t, Ppn(e));
            && ForestOk(m1, own1) && Grown(m, own, m1, own1, d, Ppn(e), HandEnd(v, Ppn(e), 1))
            && forall w: int {:trigger Pte(m1, d, w)} :: Pte(m1, d, w) == if w == v then Decode(e) else Pte(m, d, w)
  {
    TableOf(m, own, d, v / 1024);
    SetEntry(m, own, d, v / 1024, v % 1024, e);
    if v < 0x8_0000 {
      Attach(m, own, t, v % 1024, Ppn(e), e);
    } else {
      KernelEntry(m, own, t, v % 1024, e);
    }
    var m1, own1 := m[t := m[t][v % 1024 := e]], Mapped(own, v, t, Ppn(e));
    forall p | p in m
      ensures GrownAt(m, own, m1, own1, d, Ppn(e), HandEnd(v, Ppn(e), 1), p)
    {
    }
  }

  // Nothing mapped, nothing to free.
  lemma ShrunkNone(m: Store, own: Uses, d: nat, lo: int, hi: int)
    requires ForestOk(m, own) && d in own && own[d] == Dir(0)
    requires forall v | lo <= v < hi :: Pte(m, d, v).Unmapped?
    ensures Shrunk(m, own, m, own, d, lo, hi)
  {
    forall p | p in m
      ensures ShrunkAt(m, own, m, own, d, lo, hi, p)
    {
      if own[p].User? && Mine(own, p, d) {
        UserMapped(m, own, p, d);
      }
    }
  }

  // A user page is freed, its contents s whatever kfree left, and its entry cleared.
  lemma FreeOne(m: Store, own: Uses, d: nat, v: nat, s: Page, k: nat)
    requires ForestOk(m, own) && d in own && own[d] == Dir(0) && v < 0x8_0000 && Pte(m, d, v).To?
    ensures Present(m[d][v / 1024]) && Ppn(m[d][v / 1024]) in m && Ppn(m[d][v / 1024]) in own
    ensures Pte(m, d, v).ppn in m && own[Ppn(m[d][v / 1024])] == Table(d, v / 1024) && own[Pte(m, d, v).ppn].User?
    ensures var t, u := Ppn(m[d][v / 1024]), Pte(m, d, v).ppn;
            var m1, own1 := m[u := s][t := m[t][v % 1024 := 0]], own[u := Free(k)];
            && ForestOk(m1, own1) && Shrunk(m, own, m1, own1, d, v, v + 1)
            && forall w: int {:trigger Pte(m1, d, w)} :: Pte(m1, d, w) == if w == v then Unmapped else Pte(m, d, w)
  {
    var t, u := Ppn(m[d][v / 1024]), Pte(m, d, v).ppn;
    UserPage(m, own, d, v);
    TableOf(m, own, d, v / 1024);
    SetEntry(m, own, d, v / 1024, v % 1024, 0);
    Detach(m, own, u);
    var ma, owna := m[t := m[t][v % 1024 := 0]], own[u := Held];
    Contents(ma, owna, u, s);
    SetContents(ma, owna, d, u, s);
    Reuse(ma[u := s], owna, u, Free(k));
    var m1, own1 := m[u := s][t := m[t][v % 1024 := 0]], own[u := Free(k)];
    assert m1 == ma[u := s] && own1 == owna[u := Free(k)];
    forall p | p in m
      ensures ShrunkAt(m, own, m1, own1, d, v, v + 1, p)
    {
      if own[p].User? && Mine(own, p, d) {
        UserMapped(m, own, p, d);
      }
    }
  }

  // PGROUNDUP in pages.
  function PagesUp(sz: nat): nat {
    (sz + 4095) / 4096
  }

  function Min(a: int, b: int): int {
    if a < b then a else b
  }

  lemma KfreeForest(m: Store, own: Uses, p: nat, s: Page, k: nat)
    requires ForestOk(m, own) && p in own && own[p].Held?
    ensures ForestOk(m[p := s], own[p := Free(k)])
  {
    Contents(m, own, p, s);
    Reuse(m[p := s], own, p, Free(k));
  }

  // The page tables of d below entry i are free; nothing else has changed.
  ghost predicate GoneAt(m0: Store, own0: Uses, m1: Store, own1: Uses, d: nat, i: nat, p: nat) {
    && p in m0 && p in own0 && p in m1 && p in own1
    && if own0[p].Table? && own0[p].up == d && own0[p].at < i then own1[p].Free?
       else m1[p] == m0[p] && own1[p] == if p == d then Dir(i) else own0[p]
  }

  ghost predicate Gone(m0: Store, own0: Uses, m1: Store, own1: Uses, d: nat, i: nat) {
    && m0.Keys == m1.Keys && own0.Keys == own1.Keys
    && forall p {:trigger GoneAt(m0, own0, m1, own1, d, i, p)} | p in m0 :: GoneAt(m0, own0, m1, own1, d, i, p)
  }

  // The ownership part of one round of freevm's loop.
  ghost function GivenUp(m: Store, own: Uses, d: nat): Uses
    requires d in m && d in own && own[d].Dir? && own[d].from < 1024
  {
    var own1 := own[d := Dir(own[d].from + 1)];
    if Present(m[d][own[d].from]) then own1[Ppn(m[d][own[d].from]) := Held] else own1
  }

  lemma GoneStep(m0: Store, own0: Uses, m: Store, own: Uses, d: nat, i: nat)
    requires ForestOk(m0, own0) && d in own0 && own0[d] == Dir(0)
    requires forall v | 0 <= v < 0x8_0000 :: Pte(m0, d, v).Unmapped?
    requires ForestOk(m, own) && i < 1024 && Gone(m0, own0, m, own, d, i)
    ensures d in own && own[d] == Dir(i) && d in m && m[d] == m0[d]
    ensures ForestOk(m, GivenUp(m, own, d))
    ensures Present(m[d][i]) ==> Ppn(m[d][i]) in own && own[Ppn(m[d][i])] == Table(d, i)
  {
    assert GoneAt(m0, own0, m, own, d, i, d);
    assert Down(m, own, d, i);
    if Present(m[d][i]) && i < 512 {
      var t := Ppn(m[d][i]);
      TableOf(m0, own0, d, i);
      assert GoneAt(m0, own0, m, own, d, i, t);
      forall j | 0 <= j < 1024
        ensures !Present(m[t][j])
      {
        assert Pte(m0, d, i * 1024 + j).Unmapped?;
      }
    }
    GiveUp(m, own, d);
  }

  // s and k: what kfree leaves in the page of the page table, if there is one.
  lemma GoneNext(m0: Store, own0: Uses, m: Store, own: Uses, d: nat, i: nat, s: Page, k: nat)
    requires ForestOk(m0, own0) && d in own0 && own0[d] == Dir(0)
    requires i < 1024 && Gone(m0, own0, m, own, d, i) && d in own && own[d] == Dir(i) && d in m && m[d] == m0[d]
    ensures !Present(m[d][i]) ==> Gone(m0, own0, m, GivenUp(m, own, d), d, i + 1)
    ensures Present(m[d][i]) ==>
              Gone(m0, own0, m[Ppn(m[d][i]) := s], GivenUp(m, own, d)[Ppn(m[d][i]) := Free(k)], d, i + 1)
  {
    var t := Ppn(m[d][i]);
    if Present(m[d][i]) {
      TableOf(m0, own0, d, i);
      assert GoneAt(m0, own0, m, own, d, i, t);
    }
    var own1 := GivenUp(m, own, d);
    forall p | p in m0
      ensures !Present(m[d][i]) ==> GoneAt(m0, own0, m, own1, d, i + 1, p)
      ensures Present(m[d][i]) ==> GoneAt(m0, own0, m[t := s], own1[t := Free(k)], d, i + 1, p)
    {
      assert GoneAt(m0, own0, m, own, d, i, p) && Up(m0, own0, p);
    }
  }

  // Freeing the user pages, then the page tables, then the directory wipes the address space.
  lemma WipedAll(m0: Store, own0: Uses, m1: Store, own1: Uses, m2: Store, own2: Uses, d: nat, s: Page, k: nat)
    requires ForestOk(m0, own0) && d in own0 && own0[d] == Dir(0)
    requires Shrunk(m0, own0, m1, own1, d, 0, 0x8_0000) && ForestOk(m1, own1) && Gone(m1, own1, m2, own2, d, 1024)
    ensures d in m2 && Wiped(m0, own0, m2[d := s], own2[d := Free(k)], d)
  {
    assert ShrunkAt(m0, own0, m1, own1, d, 0, 0x8_0000, d);
    forall p | p in m0
      ensures WipedAt(m0, own0, m2[d := s], own2[d := Free(k)], d, p)
    {
      assert ShrunkAt(m0, own0, m1, own1, d, 0, 0x8_0000, p)
             && GoneAt(m1, own1, m2, own2, d, 1024, p) && Up(m0, own0, p);
      if own0[p].User? && Mine(own0, p, d) {
        UserMapped(m0, own0, p, d);
      }
    }
  }

  // The page taken in hand has joined the address space.
  lemma GrownDone(m0: Store, own0: Uses, m1: Store, own1: Uses, d: nat, u: nat)
    requires Grown(m0, own0, m1, own1, d, u, u + 1) && u in own0 && own0[u].Free? && u in own1 && !own1[u].Held?
    ensures Grown(m0, own0, m1, own1, d, 0, 0)
  {
    forall p | p in m0
      ensures GrownAt(m0, own0, m1, own1, d, 0, 0, p)
    {
      assert GrownAt(m0, own0, m1, own1, d, u, u + 1, p);
    }
  }

  // A free page is taken in hand and filled.
  lemma TakeInHand(m: Store, own: Uses, d: nat, u: nat, s: Page)
    requires ForestOk(m, own) && u in own && own[u].Free? && d in own && own[d] == Dir(0)
    ensures ForestOk(m[u := s], own[u := Held]) && SamePtes(m, m[u := s], d)
    ensures Grown(m, own, m[u := s], own[u := Held], d, u, u + 1)
  {
    Reuse(m, own, u, Held);
    Contents(m, own[u := Held], u, s);
    SetContents(m, own, d, u, s);
    forall p | p in m
      ensures GrownAt(m, own, m[u := s], own[u := Held], d, u, u + 1, p)
    {
    }
  }

  // The page in hand is put back.
  lemma PutBack(m0: Store, own0: Uses, m1: Store, own1: Uses, d: nat, u: nat, s: Page, k: nat)
    requires Grown(m0, own0, m1, own1, d, u, u + 1) && u in own0 && own0[u].Free? && u in own1 && own1[u].Held?
    requires ForestOk(m1, own1)
    ensures Grown(m0, own0, m1[u := s], own1[u := Free(k)], d, 0, 0)
  {
    forall p | p in m0
      ensures GrownAt(m0, own0, m1[u := s], own1[u := Free(k)], d, 0, 0, p)
    {
      assert GrownAt(m0, own0, m1, own1, d, u, u + 1, p) && Up(m1, own1, p);
    }
  }

  // The page in hand has been mapped at virtual page v.
  lemma AddedPage(m: Store, own: Uses, m1: Store, own1: Uses, d: nat, v: nat, u: nat)
    requires Pte(m1, d, v).To? && Pte(m1, d, v).ppn == u && v < 0x8_0000
    requires u in m && u in own && own[u].Held? && Grown(m, own, m1, own1, d, u, u + 1)
    requires ForestOk(m1, own1) && d in own1 && own1[d] == Dir(0)
    ensures u in own1 && u in m1 && own1[u].User? && m1[u] == m[u]
  {
    assert GrownAt(m, own, m1, own1, d, u, u + 1, u);
    UserPage(m1, own1, d, v);
  }

  lemma AddedTook(m0: Store, m: Store, n: int, m1: Store, n1: int, d: nat, v: nat)
    requires d in m0 && d in m && m[d] == m0[d] && Took(m, n, m1, n1, d, v / 1024, v / 1024 + 1)
    ensures Took(m0, n, m1, n1, d, v / 1024, v / 1024 + 1)
  {
    TookNothing(m0, m, n, d, v / 1024, v / 1024 + 1);
    TookTrans(m0, n, m, n, m1, n1, d, v / 1024, v / 1024 + 1);
  }

  // Freeing user pages that were not there at the start.
  lemma GrowShrink(m0: Store, own0: Uses, m1: Store, own1: Uses, m2: Store, own2: Uses, d: nat, u0: nat, u1: nat,
                   lo: int, hi: int)
    requires ForestOk(m0, own0) && d in own0 && own0[d] == Dir(0)
    requires forall v | lo <= v < hi :: Pte(m0, d, v).Unmapped?
    requires Grown(m0, own0, m1, own1, d, u0, u1) && ForestOk(m1, own1) && Shrunk(m1, own1, m2, own2, d, lo, hi)
    requires forall p | p in own0 && u0 <= p < u1 :: own0[p].Free?
    ensures Grown(m0, own0, m2, own2, d, u0, u1)
  {
    forall p | p in m0
      ensures GrownAt(m0, own0, m2, own2, d, u0, u1, p)
    {
      assert GrownAt(m0, own0, m1, own1, d, u0, u1, p)
             && ShrunkAt(m1, own1, m2, own2, d, lo, hi, p) && Up(m0, own0, p) && Up(m1, own1, p);
      if own1[p].User? {
        assert ShrunkAt(m1, own1, m2, own2, d, lo, hi, own1[p].up);
      }
      if own0[p].User? && Mine(own0, p, d) {
        UserMapped(m0, own0, p, d);
        assert GrownAt(m0, own0, m1, own1, d, u0, u1, own0[p].up);
      } else if own0[p].User? {
        assert GrownAt(m0, own0, m1, own1, d, u0, u1, own0[p].up) && Up(m0, own0, own0[p].up);
      }
    }
  }

  // With the mappings as before, the pages taken are page tables.
  lemma OnlyTables(m0: Store, own0: Uses, m1: Store, own1: Uses, d: nat)
    requires ForestOk(m0, own0) && d in own0 && own0[d] == Dir(0)
    requires ForestOk(m1, own1) && d in own1 && own1[d] == Dir(0)
    requires Grown(m0, own0, m1, own1, d, 0, 0) && SamePtes(m0, m1, d)
    ensures forall p | p in own0 && own0[p].Free? :: own1[p].Free? || (own1[p].Table? && own1[p].up == d)
  {
    forall p | p in own0 && own0[p].Free?
      ensures own1[p].Free? || (own1[p].Table? && own1[p].up == d)
    {
      assert GrownAt(m0, own0, m1, own1, d, 0, 0, p);
      if own1[p].User? {
        UserMapped(m1, own1, p, d);
        UserPage(m0, own0, d, Vpn(own1, p));
      }
    }
  }

  // Virtual page v is a zeroed page that the user may read and write.
  ghost predicate ZeroPage(m: Store, d: nat, v: int) {
    && Pte(m, d, v).To? && Pte(m, d, v).flags == 7 && UserMay(m, d, v) == ReadWrite
    && Pte(m, d, v).ppn in m && forall y | 0 <= y < 1024 :: m[Pte(m, d, v).ppn][y] == 0
  }

  // Zeroed pages stay zeroed while the address space grows.
  lemma ZeroKept(m0: Store, own0: Uses, m1: Store, own1: Uses, d: nat, u0: nat, u1: nat, v: int)
    requires ForestOk(m0, own0) && d in own0 && own0[d] == Dir(0) && 0 <= v < 0x8_0000
    requires Grown(m0, own0, m1, own1, d, u0, u1) && ZeroPage(m0, d, v) && Pte(m1, d, v) == Pte(m0, d, v)
    requires ForestOk(m1, own1) && d in own1 && own1[d] == Dir(0)
    ensures ZeroPage(m1, d, v)
  {
    RightsAre(m1, own1, d, v);
    UserPage(m0, own0, d, v);
    assert GrownAt(m0, own0, m1, own1, d, u0, u1, Pte(m0, d, v).ppn);
  }

  // allocuvm has zeroed pages for lo..a, and the page tables x0..x1 it lacked there.
  ghost predicate Filling(m0: Store, own0: Uses, n0: int, m: Store, own: Uses, n: int, d: nat,
                          lo: nat, a: nat, x0: int, x1: int)
  {
    && Grown(m0, own0, m, own, d, 0, 0) && Took(m0, n0 - (a - lo), m, n, d, x0, x1)
    && (forall v {:trigger ZeroPage(m, d, v)} | lo <= v < a :: ZeroPage(m, d, v))
    && (forall v: int {:trigger Pte(m, d, v)} :: lo <= v < a || Pte(m, d, v) == Pte(m0, d, v))
  }

  lemma FillNext(m0: Store, own0: Uses, n0: int, m: Store, own: Uses, n: int, m1: Store, own1: Uses, n1: int, d: nat,
                 lo: nat, a: nat, u: nat, x0: int, x1: int)
    requires Filling(m0, own0, n0, m, own, n, d, lo, a, x0, x1) && ForestOk(m, own) && d in own && own[d] == Dir(0)
    requires lo <= a < 0x8_0000 && x0 <= a / 1024 < x1
    requires Grown(m, own, m1, own1, d, u, u + 1) && u in own && own[u].Free? && u in own1 && !own1[u].Held?
    requires Took(m, n - 1, m1, n1, d, a / 1024, a / 1024 + 1)
    requires Laid(m, m1, d, a, 1, u, 6) && u in m1 && m1[u] == ZERO_PAGE
    requires ForestOk(m1, own1) && d in own1 && own1[d] == Dir(0)
    ensures Filling(m0, own0, n0, m1, own1, n1, d, lo, a + 1, x0, x1)
  {
    GrownDone(m, own, m1, own1, d, u);
    GrownTrans(m0, own0, m, own, m1, own1, d, 0, 0);
    TookWiden(m, n - 1, m1, n1, d, a / 1024, a / 1024 + 1, x0, x1);
    assert Took(m0, n0 - (a - lo) - 1, m, n - 1, d, x0, x1);
    TookTrans(m0, n0 - (a - lo) - 1, m, n - 1, m1, n1, d, x0, x1);
    forall v | lo <= v < a + 1
      ensures ZeroPage(m1, d, v)
    {
      if v < a {
        assert ZeroPage(m, d, v);
        ZeroKept(m, own, m1, own1, d, u, u + 1, v);
      } else {
        RightsAre(m1, own1, d, v);
      }
    }
  }

  // allocuvm got to the end, so the free list had what it needed.
  lemma FilledAll(m0: Store, own0: Uses, n0: int, m: Store, own: Uses, n: nat, d: nat, lo: nat, hi: nat)
    requires lo <= hi && Filling(m0, own0, n0, m, own, n, d, lo, hi, lo / 1024, (hi - 1) / 1024 + 1)
    ensures Need(m0, d, lo, hi) <= n0
  {
    if lo < hi {
      forall v: int | lo <= v < hi
        ensures Pte(m, d, v).To?
      {
        assert ZeroPage(m, d, v);
      }
      MappedNone(m, d, lo, hi);
    } else {
      assert Missing(m, d, lo / 1024, (hi - 1) / 1024 + 1) <= Missing(m0, d, lo / 1024, (hi - 1) / 1024 + 1);
    }
  }

  // The kernel part of every address space, up to row k of kmap; dv is the virtual page of data.
  function KernelPte(v: int, dv: nat, k: nat): Mapping
    requires 0x8_0100 < dv < 0x8_E000
  {
    if k > 0 && 0x8_0000 <= v < 0x8_0100 then To(v - 0x8_0000, 3)            // I/O space
    else if k > 1 && 0x8_0100 <= v < dv then To(v - 0x8_0000, 1)             // text and read-only data
    else if k > 2 && dv <= v < 0x8_E000 then To(v - 0x8_0000, 3)             // data and free memory
    else if k > 3 && 0xF_E000 <= v < 0x10_0000 then To(v, 3)                 // devices
    else Unmapped
  }

  /** The protection bits keep user code from the kernel's mappings. */
  lemma KernelIsShut(m: Store, own: Uses, d: nat, dv: nat)
    requires ForestOk(m, own) && d in own && own[d] == Dir(0) && 0x8_0100 < dv < 0x8_E000
    requires forall v: int {:trigger Pte(m, d, v)} | 0x8_0000 <= v :: Pte(m, d, v) == KernelPte(v, dv, 4)
    ensures KernelShut(m, d)
  {
    forall v: int | 0x8_0000 <= v
      ensures UserMay(m, d, v).NoAccess?
    {
      assert Pte(m, d, v) == KernelPte(v, dv, 4);
      RightsAre(m, own, d, v);
    }
  }

  datatype Kmap = Kmap(virt: nat, start: nat, end: nat, perm: nat)

  // kmap, for the address of data.
  function KernelMap(data: nat): seq<Kmap>
    requires 0x8010_0000 < data < 0x8E00_0000
  {
    [Kmap(0x8000_0000, 0, 0x10_0000, 2), Kmap(0x8010_0000, 0x10_0000, data - 0x8000_0000, 0),
     Kmap(data, data - 0x8000_0000, 0xE00_0000, 2), Kmap(0xFE00_0000, 0xFE00_0000, 0, 2)]
  }

  // The first virtual page of row k, its number of pages and its first physical page.
  function RowPage(dv: nat, k: nat): nat {
    if k == 0 then 0x8_0000 else if k == 1 then 0x8_0100 else if k == 2 then dv else 0xF_E000
  }

  function RowEnd(dv: nat, k: nat): nat {
    if k == 0 then 0x8_0100 else if k == 1 then dv else if k == 2 then 0x8_E000 else 0x10_0000
  }

  function RowPpn(dv: nat, k: nat): int {
    if k == 3 then 0xF_E000 else RowPage(dv, k) - 0x8_0000
  }

  lemma RowPages(data: nat, k: nat)
    requires data % 4096 == 0 && 0x8010_0000 < data < 0x8E00_0000 && k < 4
    ensures var row, dv := KernelMap(data)[k], data / 4096;
            var size := (row.end - row.start) % 0x1_0000_0000;
            && size > 0 && row.virt + size <= 0x1_0000_0000 && row.virt >= 0x8000_0000 && row.start % 4096 == 0
            && row.virt / 4096 == RowPage(dv, k) && row.start / 4096 == RowPpn(dv, k)
            && PageSpan(row.virt, size) == RowEnd(dv, k) - RowPage(dv, k)
  {
    assert data == data / 4096 * 4096;
  }

  // The entries of the directory that row k needs, all of them for the kernel.
  lemma RowTables(dv: nat, k: nat)
    requires 0x8_0100 < dv < 0x8_E000 && k < 4
    ensures var x0, x1 := RowPage(dv, k) / 1024, (RowEnd(dv, k) - 1) / 1024 + 1;
            x0 < x1 && ((512 <= x0 && x1 <= 568) || (1016 <= x0 && x1 <= 1024))
  {
  }

  ghost predicate KernelOnly(m: Store, d: nat) {
    forall x {:trigger Has(m, d, x)} | Has(m, d, x) :: KernelTable(x)
  }

  // Before the row that fails, the free list was already too short for all 64 page tables.
  lemma RowFails(m0: Store, n0: int, m: Store, n: int, d: nat, dv: nat, k: nat)
    requires forall x {:trigger Has(m0, d, x)} :: !Has(m0, d, x)
    requires KernelOnly(m, d) && Took(m0, n0, m, n, d, 512, 1024)
    requires 0x8_0100 < dv < 0x8_E000 && k < 4
    requires n < Missing(m, d, RowPage(dv, k) / 1024, (RowEnd(dv, k) - 1) / 1024 + 1)
    ensures n0 < 64
  {
    var x0, x1 := RowPage(dv, k) / 1024, (RowEnd(dv, k) - 1) / 1024 + 1;
    RowTables(dv, k);
    MissingAll(m0, d, 512, 1024);
    KernelMissing(m, d);
    if x1 <= 568 {
      MissingPart(m, d, 512, 568, x0, x1);
    } else {
      MissingPart(m, d, 1016, 1024, x0, x1);
    }
  }

  lemma RowKeeps(m0: Store, n0: int, m: Store, n: int, m1: Store, n1: int, d: nat, dv: nat, k: nat)
    requires KernelOnly(m, d) && Took(m0, n0, m, n, d, 512, 1024) && 0x8_0100 < dv < 0x8_E000 && k < 4
    requires Took(m, n, m1, n1, d, RowPage(dv, k) / 1024, (RowEnd(dv, k) - 1) / 1024 + 1)
    ensures KernelOnly(m1, d) && Took(m0, n0, m1, n1, d, 512, 1024)
  {
    var x0, x1 := RowPage(dv, k) / 1024, (RowEnd(dv, k) - 1) / 1024 + 1;
    RowTables(dv, k);
    TookWiden(m, n, m1, n1, d, x0, x1, 512, 1024);
    TookTrans(m0, n0, m, n, m1, n1, d, 512, 1024);
  }

  // All four rows take exactly 64 page tables.
  lemma RowsDone(m0: Store, n0: int, m: Store, n: int, d: nat, dv: nat)
    requires forall x {:trigger Has(m0, d, x)} :: !Has(m0, d, x)
    requires KernelOnly(m, d) && Took(m0, n0, m, n, d, 512, 1024)
    requires 0x8_0100 < dv < 0x8_E000 && forall v: int {:trigger Pte(m, d, v)} :: Pte(m, d, v) == KernelPte(v, dv, 4)
    ensures n == n0 - 64
  {
    MissingAll(m0, d, 512, 1024);
    KernelMissing(m, d);
    forall x | KernelTable(x)
      ensures Has(m, d, x)
    {
      assert Pte(m, d, x * 1024) == KernelPte(x * 1024, dv, 4);
      MappedHas(m, d, x * 1024);
    }
    MissingNone(m, d, 512, 568);
    MissingNone(m, d, 1016, 1024);
  }

  // A zeroed page taken from the free list is an empty directory.
  lemma NewDir(m: Store, own: Uses, d: nat)
    requires ForestOk(m, own) && d in own && own[d].Free?
    ensures var m1, own1 := m[d := ZERO_PAGE], own[d := Dir(0)];
            && ForestOk(m1, own1) && Grown(m, own, m1, own1, d, 0, 0)
            && (forall v: int {:trigger Pte(m1, d, v)} :: Pte(m1, d, v).Unmapped?)
            && (forall x {:trigger Has(m1, d, x)} :: !Has(m1, d, x))
  {
    Contents(m, own, d, ZERO_PAGE);
    Reuse(m[d := ZERO_PAGE], own, d, Dir(0));
    var m1, own1 := m[d := ZERO_PAGE], own[d := Dir(0)];
    forall p | p in m
      ensures GrownAt(m, own, m1, own1, d, 0, 0, p)
    {
      assert Up(m, own, p);
    }
  }

  // Virtual page v of d has the contents and the flags that it has in d0, on a page of its own, and the user the same
  // rights.
  ghost predicate CopyOf(m: Store, d0: nat, d: nat, v: int) {
    && Pte(m, d, v).To? && Pte(m, d0, v).To? && Pte(m, d, v).flags == Pte(m, d0, v).flags
    && Pte(m, d, v).ppn in m && Pte(m, d0, v).ppn in m && Pte(m, d, v).ppn != Pte(m, d0, v).ppn
    && m[Pte(m, d, v).ppn] == m[Pte(m, d0, v).ppn] && UserMay(m, d, v) == UserMay(m, d0, v)
  }

  lemma SameRights(m: Store, own: Uses, d0: nat, d: nat, v: int)
    requires ForestOk(m, own) && d in own && own[d] == Dir(0) && d0 in own && own[d0] == Dir(0)
    requires Pte(m, d, v).To? && Pte(m, d0, v).To? && Pte(m, d, v).flags == Pte(m, d0, v).flags
    ensures UserMay(m, d, v) == UserMay(m, d0, v)
  {
    RightsAre(m, own, d, v);
    RightsAre(m, own, d0, v);
  }

  lemma CopyMade(m0: Store, own0: Uses, m1: Store, own1: Uses, d0: nat, d: nat, v: nat, u: nat)
    requires ForestOk(m0, own0) && d0 in own0 && own0[d0] == Dir(0) && d0 != d && v < 0x8_0000 && Pte(m0, d0, v).To?
    requires Grown(m0, own0, m1, own1, d, 0, 0) && u < 0x10_0000 && u in own0 && own0[u].Free? && u in m1
    requires Pte(m1, d, v) == To(u, Pte(m0, d0, v).flags) && Pte(m0, d0, v).ppn in m0 && m1[u] == m0[Pte(m0, d0, v).ppn]
    requires ForestOk(m1, own1) && d in own1 && own1[d] == Dir(0)
    ensures CopyOf(m1, d0, d, v)
  {
    UserPage(m0, own0, d0, v);
    OthersGrown(m0, own0, m1, own1, d, 0, 0, d0);
    assert Pte(m1, d0, v) == Pte(m0, d0, v) && GrownAt(m0, own0, m1, own1, d, 0, 0, d0);
    SameRights(m1, own1, d0, d, v);
  }

  lemma CopyKept(m0: Store, own0: Uses, m1: Store, own1: Uses, d0: nat, d: nat, v: int)
    requires ForestOk(m0, own0) && d in own0 && own0[d] == Dir(0) && d0 in own0 && own0[d0] == Dir(0) && d0 != d
    requires 0 <= v < 0x8_0000 && Grown(m0, own0, m1, own1, d, 0, 0)
    requires CopyOf(m0, d0, d, v) && Pte(m1, d, v) == Pte(m0, d, v)
    requires Pte(m0, d0, v).To? && ForestOk(m1, own1) && d in own1 && own1[d] == Dir(0)
    ensures CopyOf(m1, d0, d, v)
  {
    OthersGrown(m0, own0, m1, own1, d, 0, 0, d0);
    UserPage(m0, own0, d, v);
    UserPage(m0, own0, d0, v);
    assert GrownAt(m0, own0, m1, own1, d, 0, 0, Pte(m0, d, v).ppn) && GrownAt(m0, own0, m1, own1, d, 0, 0, d0);
    assert Pte(m1, d0, v) == Pte(m0, d0, v);
    SameRights(m1, own1, d0, d, v);
  }

  // copyuvm has copied the first i pages, and the page tables 0..x1 it lacked there.
  ghost predicate Copying(m0: Store, own0: Uses, n0: int, m: Store, own: Uses, n: int, d0: nat, d: nat, i: nat,
                          x1: int) {
    && Grown(m0, own0, m, own, d, 0, 0) && Took(m0, n0 - i, m, n, d, 0, x1)
    && (forall v {:trigger CopyOf(m, d0, d, v)} | 0 <= v < i :: CopyOf(m, d0, d, v))
    && (forall v: int {:trigger Pte(m, d, v)} :: 0 <= v < i || Pte(m, d, v) == Pte(m0, d, v))
  }

  lemma CopyNext(m0: Store, own0: Uses, n0: int, m: Store, own: Uses, n: int, m1: Store, own1: Uses, n1: int,
                 d0: nat, d: nat, i: nat, x1: int)
    requires Copying(m0, own0, n0, m, own, n, d0, d, i, x1) && ForestOk(m, own) && i < 0x8_0000 && i / 1024 < x1
    requires d in own && own[d] == Dir(0) && d0 in own && own[d0] == Dir(0) && d0 != d
    requires Grown(m, own, m1, own1, d, 0, 0) && ForestOk(m1, own1) && d in own1 && own1[d] == Dir(0)
    requires Took(m, n - 1, m1, n1, d, i / 1024, i / 1024 + 1) && CopyOf(m1, d0, d, i)
    requires forall w: int {:trigger Pte(m1, d, w)} :: w != i ==> Pte(m1, d, w) == Pte(m, d, w)
    ensures Copying(m0, own0, n0, m1, own1, n1, d0, d, i + 1, x1)
  {
    GrownTrans(m0, own0, m, own, m1, own1, d, 0, 0);
    TookWiden(m, n - 1, m1, n1, d, i / 1024, i / 1024 + 1, 0, x1);
    assert Took(m0, n0 - i - 1, m, n - 1, d, 0, x1);
    TookTrans(m0, n0 - i - 1, m, n - 1, m1, n1, d, 0, x1);
    forall v | 0 <= v < i + 1
      ensures CopyOf(m1, d0, d, v)
    {
      if v < i {
        assert CopyOf(m, d0, d, v);
        CopyKept(m, own, m1, own1, d0, d, v);
      }
    }
  }

  lemma CopiedAll(m0: Store, own0: Uses, n0: int, m: Store, own: Uses, n: nat, d0: nat, d: nat, hi: nat)
    requires Copying(m0, own0, n0, m, own, n, d0, d, hi, (hi - 1) / 1024 + 1)
    ensures Need(m0, d, 0, hi) <= n0
  {
    if hi > 0 {
      forall v: int | 0 <= v < hi
        ensures Pte(m, d, v).To?
      {
        assert CopyOf(m, d0, d, v);
      }
      MappedNone(m, d, 0, hi);
    }
  }

  // What user pages cost in an address space that has none.
  lemma NewNeed(m: Store, d: nat, n: nat)
    requires KernelOnly(m, d) && n <= 0x8_0000
    ensures Need(m, d, 0, n) == n + (n + 1023) / 1024
  {
    if n > 0 {
      var x1 := (n - 1) / 1024 + 1;
      MissingAll(m, d, 0, x1);
    }
  }

  class Memory {
    var mem: Store
    var head: Word             // kmem.freelist
    ghost var own: Uses
    ghost var free: seq<nat>   // the free list, newest last

    ghost predicate FreeValid()
      reads this
    {
      FreeOk(mem, own, free, head)
    }

    ghost predicate Valid()
      reads this
    {
      FreeOk(mem, own, free, head) && ForestOk(mem, own)
    }

    // Before kinit: memory is there and nothing is free.
    constructor (pages: Store)
      requires forall p | p in pages :: 0 < p < 0xE000
      ensures Valid() && mem == pages && free == [] && forall p | p in pages :: own[p].Held?
    {
      mem, head := pages, 0;
      own, free := map p | p in pages :: Held, [];
      new;
      forall p | p in own
        ensures InList(own, free, p)
      {
      }
      forall p, i | p in mem && 0 <= i < 1024
        ensures Down(mem, own, p, i)
      {
      }
      forall q | q in mem
        ensures Up(mem, own, q)
      {
      }
    }

    /** kfree: the page goes to the front of the free list, filled with junk. */
    method Kfree(p: nat)
      requires FreeValid() && p in own && own[p].Held?
      modifies this
      ensures FreeValid() && own == old(own)[p := Free(|old(free)|)] && free == old(free) + [p]
      ensures mem.Keys == old(mem).Keys && mem == old(mem)[p := mem[p]]
      ensures old(Valid()) ==> Valid()
    {
      var junk: Page := seq(1024, _ => 0x0101_0101);
      FreePush(mem, own, free, head, p, junk[0 := head]);
      mem := mem[p := junk];
      mem := mem[p := mem[p][0 := head]];
      assert mem == old(mem)[p := junk[0 := head]];
      head := Va(p);
      own, free := own[p := Free(|free|)], free + [p];
      if old(Valid()) {
        KfreeForest(old(mem), old(own), p, mem[p], |old(free)|);
      }
    }

    /** freerange: exactly the whole pages between the two addresses become free. */
    method Freerange(vstart: nat, vend: nat)
      requires Valid() && 0x8000_0000 <= vstart
      requires forall p | PagesUp(vstart) <= p + 0x8_0000 < vend / 4096 :: p in own && own[p].Held?
      modifies this
      ensures Valid() && own.Keys == old(own).Keys
      ensures forall p | p in own ::
                if PagesUp(vstart) <= p + 0x8_0000 < vend / 4096 then own[p].Free? else own[p] == old(own)[p]
      ensures |free| == |old(free)| + if PagesUp(vstart) < vend / 4096 then vend / 4096 - PagesUp(vstart) else 0
    {
      var v, end := PagesUp(vstart), vend / 4096;
      ghost var v0 := v;
      while v < end
        invariant v0 <= v && (v <= end || v == v0) && Valid() && own.Keys == old(own).Keys
        invariant forall p | p in own :: if v0 <= p + 0x8_0000 < v then own[p].Free? else own[p] == old(own)[p]
        invariant |free| == |old(free)| + v - v0
      {
        Kfree(v - 0x8_0000);
        v := v + 1;
      }
    }

    /** kalloc: the newest free page, or 0 exactly when there is none. */
    method Kalloc() returns (p: nat)
      requires FreeValid()
      modifies this`head, this`own, this`free
      ensures FreeValid()
      ensures p == 0 ==> own == old(own) && free == old(free) == [] && forall q | q in own :: !own[q].Free?
      ensures p != 0 ==> p in old(own) && old(own)[p].Free? && own == old(own)[p := Held] && free + [p] == old(free)
    {
      var r := head;
      if r == 0 {
        NothingFree(mem, own, free, head);
        return 0;
      }
      FreePop(mem, own, free, head);
      p := (r - 0x8000_0000) / 4096;
      head := mem[p][0];
      own, free := own[p := Held], free[..|free| - 1];
    }

    /** walkpgdir: the page table for virtual page v, whose entry is at v % 1024; 0 for none.  No mapping changes. */
    method Walkpgdir(d: nat, v: nat, alloc: bool) returns (t: nat)
      requires Valid() && d in own && own[d] == Dir(0) && v < 0x10_0000
      modifies this
      ensures Valid() && SamePtes(old(mem), mem, d) && Grown(old(mem), old(own), mem, own, d, 0, 0)
      ensures d in own && own[d] == Dir(0)
      ensures t != 0 ==> Points(mem, d, v / 1024, t) && t in own && own[t] == Table(d, v / 1024)
      ensures t == 0 ==> !Present(old(mem)[d][v / 1024]) && (alloc ==> forall q | q in own :: !own[q].Free?)
      ensures t == 0 || !alloc ==> mem == old(mem) && own == old(own) && free == old(free)
      ensures alloc ==> (t != 0 <==> Lacks(old(mem), d, v) <= |old(free)|)
      ensures t != 0 ==> Has(mem, d, v / 1024) && Took(old(mem), |old(free)|, mem, |free|, d, v / 1024, v / 1024 + 1)
    {
      GrownSame(mem, own, d, 0, 0);
      TookNothing(mem, mem, |free|, d, v / 1024, v / 1024 + 1);
      if Present(mem[d][v / 1024]) {
        t := Ppn(mem[d][v / 1024]);
        TableOf(mem, own, d, v / 1024);
        assert InList(own, free, t);
        return;
      }
      if !alloc {
        return 0;
      }
      t := Kalloc();
      if t == 0 {
        return;
      }
      assert InList(own, free, t);
      AddTable(mem, old(own), d, v / 1024, t);
      ghost var m, own0 := mem, own;
      mem := mem[t := ZERO_PAGE];
      mem := mem[d := mem[d][v / 1024 := Entry(t, 7)]];
      own := own[t := Table(d, v / 1024)];
      FreeFrame(m, own0, mem, own, free, head);
      TookOne(m, |old(free)|, mem, d, v / 1024, Entry(t, 7));
    }

    // Fills the entry of virtual page v in its page table t.
    method FillEntry(d: nat, v: nat, t: nat, e: Word)
      requires Valid() && d in own && own[d] == Dir(0) && v < 0x10_0000 && Points(mem, d, v / 1024, t)
      requires Pte(mem, d, v).Unmapped? && Present(e) && (v < 0x8_0000 ==> Ppn(e) in own && own[Ppn(e)].Held?)
      modifies this`mem, this`own
      ensures Valid() && d in own && own[d] == Dir(0) && d in mem && mem[d] == old(mem)[d]
      ensures Grown(old(mem), old(own), mem, own, d, Ppn(e), HandEnd(v, Ppn(e), 1))
      ensures forall w: int {:trigger Pte(mem, d, w)} ::
                Pte(mem, d, w) == if w == v then Decode(e) else Pte(old(mem), d, w)
    {
      MapEntry(mem, own, d, v, t, e);
      ghost var m, own0 := mem, own;
      mem := mem[t := mem[t][v % 1024 := e]];
      own := Mapped(own, v, t, Ppn(e));
      FreeFrame(m, own0, mem, own, free, head);
    }

    /** One round of mappages: the page gets its entry, unless its page table is missing and no page is free. */
    method MapPage(d: nat, v: nat, ppn: nat, perm: nat) returns (ok: bool)
      requires Valid() && d in own && own[d] == Dir(0) && v < 0x10_0000 && ppn < 0x10_0000 && perm < 4096
      requires Pte(mem, d, v).Unmapped? && (v < 0x8_0000 ==> ppn in own && own[ppn].Held?)
      modifies this
      ensures Valid() && d in own && own[d] == Dir(0)
      ensures Grown(old(mem), old(own), mem, own, d, ppn, HandEnd(v, ppn, 1))
      ensures ok <==> Lacks(old(mem), d, v) <= |old(free)|
      ensures ok ==> Took(old(mem), |old(free)|, mem, |free|, d, v / 1024, v / 1024 + 1)
      ensures ok ==> forall w: int {:trigger Pte(mem, d, w)} ::
                       Pte(mem, d, w) == if w == v then To(ppn, WithPresent(perm)) else Pte(old(mem), d, w)
      ensures !ok ==> mem == old(mem) && own == old(own) && free == old(free)
    {
      var t := Walkpgdir(d, v, true);
      ghost var m, own0 := mem, own;
      GrownHand(old(mem), old(own), m, own0, d, 0, 0, ppn, HandEnd(v, ppn, 1));
      if t == 0 {
        return false;
      }
      if v < 0x8_0000 {
        assert GrownAt(old(mem), old(own), mem, own, d, 0, 0, ppn);
      }
      EntryDecodes(ppn, perm);
      FillEntry(d, v, t, Entry(ppn, perm));
      GrownTrans(old(mem), old(own), m, own0, mem, own, d, ppn, HandEnd(v, ppn, 1));
      TookNothing(m, mem, |free|, d, v / 1024, v / 1024 + 1);
      TookTrans(old(mem), |old(free)|, m, |free|, mem, |free|, d, v / 1024, v / 1024 + 1);
      return true;
    }

    // The loop of mappages, in pages: n pages from virtual page v0 on are mapped to the physical pages from p0 on.
    method MapRange(d: nat, v0: nat, n: nat, p0: nat, perm: nat) returns (ok: bool, ghost done: nat)
      requires Valid() && d in own && own[d] == Dir(0) && perm < 4096
      requires n > 0 && v0 + n <= 0x10_0000 && p0 + n <= 0x10_0000 && (v0 < 0x8_0000 ==> v0 + n <= 0x8_0000)
      requires forall v | v0 <= v < v0 + n :: Pte(mem, d, v).Unmapped?
      requires v0 < 0x8_0000 ==> forall p | p0 <= p < p0 + n :: p in own && own[p].Held?
      modifies this
      ensures Valid() && d in own && own[d] == Dir(0) && (if ok then done == n else done < n && free == [])
      ensures Grown(old(mem), old(own), mem, own, d, p0, HandEnd(v0, p0, n))
      ensures Laid(old(mem), mem, d, v0, done, p0, perm)
      ensures v0 < 0x8_0000 ==> forall p | p0 + done <= p < p0 + n :: p in own && own[p].Held?
      ensures ok <==> Missing(old(mem), d, v0 / 1024, (v0 + n - 1) / 1024 + 1) <= |old(free)|
      ensures ok ==> Took(old(mem), |old(free)|, mem, |free|, d, v0 / 1024, (v0 + n - 1) / 1024 + 1)
    {
      ghost var u1, x0, x1 := HandEnd(v0, p0, n), v0 / 1024, (v0 + n - 1) / 1024 + 1;
      ghost var m0, own0, n0 := mem, own, |free|;
      GrownSame(mem, own, d, p0, u1);
      TookNothing(mem, mem, |free|, d, x0, x1);
      var i := 0;
      while i < n
        invariant 0 <= i <= n && Valid() && d in own && own[d] == Dir(0)
        invariant Laying(m0, own0, n0, mem, own, |free|, d, v0, i, p0, perm, u1, x0, x1)
        invariant v0 < 0x8_0000 ==> forall q | p0 + i <= q < p0 + n :: q in own && own[q].Held?
      {
        ghost var m, own1, k := mem, own, |free|;
        ok := MapPage(d, v0 + i, p0 + i, perm);
        if !ok {
          done := i;
          TookTooMuch(m0, n0, m, k, d, x0, x1, (v0 + i) / 1024, 0);
          return;
        }
        LayNext(m0, own0, n0, m, own1, k, mem, own, |free|, d, v0, i, p0, perm, u1, x0, x1);
        StillHeld(m, own1, mem, own, d, p0 + i, v0 + i, p0 + n);
        i := i + 1;
      }
      ok, done := true, n;
      LaidAll(m0, n0, mem, |free|, d, v0, n, p0, perm);
    }

    /**
      mappages: the pages of va..va+size are mapped to consecutive physical
      pages, exactly when the free list has the page tables they lack; on
      failure the first done of them are and nothing is free.
     */
    method Mappages(d: nat, va: nat, size: nat, pa: nat, perm: nat) returns (ok: bool, ghost done: nat)
      requires Valid() && d in own && own[d] == Dir(0) && perm < 4096
      requires size > 0 && va + size <= 0x1_0000_0000 && (va < 0x8000_0000 ==> va + size <= 0x8000_0000)
      requires pa % 4096 == 0 && pa / 4096 + PageSpan(va, size) <= 0x10_0000
      requires forall v | va / 4096 <= v < va / 4096 + PageSpan(va, size) :: Pte(mem, d, v).Unmapped?
      requires va < 0x8000_0000 ==>
                 forall p | pa / 4096 <= p < pa / 4096 + PageSpan(va, size) :: p in own && own[p].Held?
      modifies this
      ensures Valid() && d in own && own[d] == Dir(0)
      ensures if ok then done == PageSpan(va, size) else done < PageSpan(va, size) && free == []
      ensures Grown(old(mem), old(own), mem, own, d, pa / 4096, HandEnd(va / 4096, pa / 4096, PageSpan(va, size)))
      ensures Laid(old(mem), mem, d, va / 4096, done, pa / 4096, perm)
      ensures va < 0x8000_0000 ==>
                forall p | pa / 4096 + done <= p < pa / 4096 + PageSpan(va, size) :: p in own && own[p].Held?
      ensures ok <==>
                Missing(old(mem), d, va / 4096 / 1024, (va / 4096 + PageSpan(va, size) - 1) / 1024 + 1) <= |old(free)|
      ensures ok ==>
                Took(old(mem), |old(free)|, mem, |free|, d, va / 4096 / 1024,
                     (va / 4096 + PageSpan(va, size) - 1) / 1024 + 1)
    {
      ok, done := MapRange(d, va / 4096, PageSpan(va, size), pa / 4096, perm);
    }

    // The body of deallocuvm for a present entry, in page table t.
    method FreeUser(d: nat, v: nat, t: nat)
      requires Valid() && d in own && own[d] == Dir(0) && v < 0x8_0000
      requires Pte(mem, d, v).To? && Points(mem, d, v / 1024, t)
      modifies this
      ensures Valid() && d in own && own[d] == Dir(0) && Shrunk(old(mem), old(own), mem, own, d, v, v + 1)
      ensures forall w: int {:trigger Pte(mem, d, w)} ::
                Pte(mem, d, w) == if w == v then Unmapped else Pte(old(mem), d, w)
    {
      FreeOne(mem, own, d, v, ZERO_PAGE, 0);
      var u := Ppn(mem[t][v % 1024]);
      ghost var own0 := own;
      own := own[u := Held];
      FreeFrame(mem, own0, mem, own, free, head);
      Kfree(u);
      FreeOne(old(mem), own0, d, v, mem[u], |free| - 1);
      ghost var m := mem;
      mem := mem[t := mem[t][v % 1024 := 0]];
      FreeFrame(m, own, mem, own, free, head);
      assert mem == old(mem)[u := mem[u]][t := old(mem)[t][v % 1024 := 0]];
      assert own == own0[u := Free(|free| - 1)];
    }

    // One round of deallocuvm at virtual page a; next is where the loop goes on.
    method DeallocRound(d: nat, a: nat) returns (next: nat)
      requires Valid() && d in own && own[d] == Dir(0) && a < 0x8_0000
      modifies this
      ensures Valid() && d in own && own[d] == Dir(0) && a < next
      ensures forall hi | a < hi <= next :: Shrunk(old(mem), old(own), mem, own, d, a, hi)
      ensures forall v: int {:trigger Pte(mem, d, v)} ::
                Pte(mem, d, v) == if v == a then Unmapped else Pte(old(mem), d, v)
      ensures forall v | a <= v < next :: Pte(mem, d, v).Unmapped?
    {
      var t := Walkpgdir(d, a, false);
      next := a + 1;
      if t == 0 {
        // No page table: on to the next 4 MB.
        next := a / 1024 * 1024 + 1024;
        forall hi | a < hi <= next
          ensures Shrunk(mem, own, mem, own, d, a, hi)
        {
          ShrunkNone(mem, own, d, a, hi);
        }
      } else if Present(mem[t][a % 1024]) {
        FreeUser(d, a, t);
      } else {
        ShrunkNone(mem, own, d, a, a + 1);
      }
    }

    /** deallocuvm: exactly the user pages between the sizes are freed and unmapped; page tables stay. */
    method Deallocuvm(d: nat, oldsz: nat, newsz: nat) returns (r: nat)
      requires Valid() && d in own && own[d] == Dir(0) && oldsz <= 0x8000_0000
      modifies this
      ensures Valid() && d in own && own[d] == Dir(0) && r == if newsz < oldsz then newsz else oldsz
      ensures Shrunk(old(mem), old(own), mem, own, d, PagesUp(newsz), PagesUp(oldsz))
      ensures var shut := KernelShut(mem, d); KernelShut(old(mem), d) ==> shut
      ensures forall v: int {:trigger Pte(mem, d, v)} ::
                Pte(mem, d, v) == if PagesUp(newsz) <= v < PagesUp(oldsz) then Unmapped else Pte(old(mem), d, v)
    {
      var lo, hi := PagesUp(newsz), PagesUp(oldsz);
      ShrunkNone(mem, own, d, lo, lo);
      if newsz >= oldsz {
        ShrunkNone(mem, own, d, lo, hi);
        return oldsz;
      }
      var a := lo;
      while a * 4096 < oldsz
        invariant lo <= a && Valid() && d in own && own[d] == Dir(0)
        invariant Shrunk(old(mem), old(own), mem, own, d, lo, Min(a, hi))
        invariant forall v: int {:trigger Pte(mem, d, v)} ::
                    Pte(mem, d, v) == if lo <= v < Min(a, hi) then Unmapped else Pte(old(mem), d, v)
        decreases hi - a
      {
        ghost var m, own0 := mem, own;
        var next := DeallocRound(d, a);
        ShrunkTrans(old(mem), old(own), m, own0, mem, own, d, lo, a, Min(next, hi));
        a := next;
      }
      if KernelShut(old(mem), d) {
        StaysShut(old(mem), old(own), mem, own, d);
      }
      return newsz;
    }

    // One round of freevm's loop over the directory.
    method FreeTable(d: nat, i: nat, ghost m0: Store, ghost own0: Uses)
      requires ForestOk(m0, own0) && d in own0 && own0[d] == Dir(0)
      requires forall v | 0 <= v < 0x8_0000 :: Pte(m0, d, v).Unmapped?
      requires Valid() && i < 1024 && d in mem && Gone(m0, own0, mem, own, d, i)
      modifies this
      ensures Valid() && Gone(m0, own0, mem, own, d, i + 1)
    {
      GoneStep(m0, own0, mem, own, d, i);
      ghost var m, own1 := mem, own;
      own := GivenUp(mem, own, d);
      FreeFrame(mem, own1, mem, own, free, head);
      if Present(mem[d][i]) {
        Kfree(Ppn(mem[d][i]));
        GoneNext(m0, own0, m, own1, d, i, mem[Ppn(m[d][i])], |free| - 1);
      } else {
        GoneNext(m0, own0, m, own1, d, i, ZERO_PAGE, 0);
      }
    }

    // freevm's loop over the directory.
    method FreeTables(d: nat)
      requires Valid() && d in own && own[d] == Dir(0) && (forall v | 0 <= v < 0x8_0000 :: Pte(mem, d, v).Unmapped?)
      modifies this
      ensures Valid() && Gone(old(mem), old(own), mem, own, d, 1024)
    {
      ghost var m0, own0 := mem, own;
      forall p | p in mem
        ensures GoneAt(m0, own0, mem, own, d, 0, p)
      {
      }
      var i := 0;
      while i < 1024
        invariant i <= 1024 && Valid() && d in mem && Gone(m0, own0, mem, own, d, i)
      {
        FreeTable(d, i, m0, own0);
        i := i + 1;
      }
    }

    // kfree of a directory that has given up all its entries.
    method FreeDir(d: nat)
      requires Valid() && d in own && own[d] == Dir(1024)
      modifies this
      ensures Valid() && mem.Keys == old(mem).Keys && d in mem
      ensures mem == old(mem)[d := mem[d]] && own == old(own)[d := Free(|old(free)|)]
    {
      ghost var own0 := own;
      Reuse(mem, own, d, Held);
      own := own[d := Held];
      FreeFrame(mem, own0, mem, own, free, head);
      Kfree(d);
    }

    /** freevm: every page of the address space goes back to the free list, and no other page is touched. */
    method Freevm(d: nat)
      requires Valid() && d in own && own[d] == Dir(0)
      modifies this
      ensures Valid() && Wiped(old(mem), old(own), mem, own, d)
    {
      var _ := Deallocuvm(d, 0x8000_0000, 0);
      ghost var m1, own1 := mem, own;
      FreeTables(d);
      ghost var m2, own2, k := mem, own, |free|;
      assert GoneAt(m1, own1, mem, own, d, 1024, d);
      FreeDir(d);
      WipedAll(old(mem), old(own), m1, own1, m2, own2, d, mem[d], k);
    }

    // kalloc and the filling of the page, which is then in hand.
    method TakePage(d: nat, s: Page) returns (u: nat)
      requires Valid() && d in own && own[d] == Dir(0)
      modifies this
      ensures Valid() && d in own && own[d] == Dir(0) && u < 0xE000 && (u == 0 <==> old(free) == [])
      ensures Grown(old(mem), old(own), mem, own, d, u, u + 1) && SamePtes(old(mem), mem, d)
      ensures u == 0 ==> mem == old(mem) && own == old(own) && free == old(free)
      ensures u != 0 ==> u in old(own) && old(own)[u].Free? && own == old(own)[u := Held] && |free| == |old(free)| - 1
      ensures u != 0 ==> d != u && mem == old(mem)[u := s]
    {
      GrownSame(mem, own, d, 0, 1);
      u := Kalloc();
      if u != 0 {
        TakeInHand(mem, old(own), d, u, s);
        ghost var m := mem;
        mem := mem[u := s];
        FreeFrame(m, own, mem, own, free, head);
        assert InList(own, free, u);
      }
    }

    // mappages for one page, which the caller has in hand.
    method MapOne(d: nat, v: nat, u: nat, perm: nat) returns (ok: bool)
      requires Valid() && d in own && own[d] == Dir(0) && perm < 4096 && v < 0x8_0000 && Pte(mem, d, v).Unmapped?
      requires u < 0x10_0000 && u in own && own[u].Held?
      modifies this
      ensures Valid() && d in own && own[d] == Dir(0) && Grown(old(mem), old(own), mem, own, d, u, u + 1)
      ensures ok <==> Lacks(old(mem), d, v) <= |old(free)|
      ensures ok ==> Took(old(mem), |old(free)|, mem, |free|, d, v / 1024, v / 1024 + 1)
      ensures ok ==> Laid(old(mem), mem, d, v, 1, u, perm)
      ensures !ok ==> SamePtes(old(mem), mem, d) && u in own && own[u].Held?
    {
      assert PageSpan(v * 4096, 4096) == 1;
      ghost var done: nat;
      MissingOne(mem, d, v / 1024);
      ok, done := Mappages(d, v * 4096, 4096, u * 4096, perm);
    }

    // Take a page, fill it with s and map it at virtual page v; u is the page taken, 0 if there was none.
    method AddPage(d: nat, v: nat, s: Page, perm: nat) returns (u: nat, ok: bool)
      requires Valid() && d in own && own[d] == Dir(0) && v < 0x8_0000 && Pte(mem, d, v).Unmapped? && perm < 4096
      modifies this
      ensures Valid() && d in own && own[d] == Dir(0) && u < 0x10_0000
      ensures Grown(old(mem), old(own), mem, own, d, u, u + 1)
      ensures u == 0 ==> !ok && mem == old(mem) && own == old(own)
      ensures u != 0 ==> u in old(own) && old(own)[u].Free? && u in own && (if ok then own[u].User? else own[u].Held?)
      ensures ok <==> 1 + Lacks(old(mem), d, v) <= |old(free)|
      ensures ok ==> Took(old(mem), |old(free)| - 1, mem, |free|, d, v / 1024, v / 1024 + 1)
      ensures ok ==> u in mem && mem[u] == s && Laid(old(mem), mem, d, v, 1, u, perm)
      ensures !ok ==> SamePtes(old(mem), mem, d)
    {
      u := TakePage(d, s);
      if u == 0 {
        return 0, false;
      }
      ghost var m, own0, k := mem, own, |free|;
      ok := MapOne(d, v, u, perm);
      GrownTrans(old(mem), old(own), m, own0, mem, own, d, u, u + 1);
      if ok {
        AddedPage(m, own0, mem, own, d, v, u);
        AddedTook(old(mem), m, k, mem, |free|, d, v);
      }
    }

    // allocuvm's way out, from the state m, own1 with the page u in hand if there is one: free what was mapped, then u.
    method BackOut(d: nat, newsz: nat, oldsz: nat, u: nat, ghost m: Store, ghost own1: Uses, ghost m0: Store,
                   ghost own0: Uses)
      requires Valid() && d in own && own[d] == Dir(0) && oldsz <= newsz < 0x8000_0000
      requires ForestOk(m0, own0) && d in own0 && own0[d] == Dir(0) && ForestOk(m, own1)
      requires Grown(m0, own0, m, own1, d, 0, 0) && Grown(m, own1, mem, own, d, u, u + 1) && SamePtes(m, mem, d)
      requires forall v | PagesUp(oldsz) <= v < PagesUp(newsz) :: Pte(m0, d, v).Unmapped?
      requires forall v: int {:trigger Pte(m, d, v)} ::
                 PagesUp(oldsz) <= v < PagesUp(newsz) || Pte(m, d, v) == Pte(m0, d, v)
      requires u != 0 ==> u in own1 && own1[u].Free? && u in own && own[u].Held?
      modifies this
      ensures Valid() && d in own && own[d] == Dir(0) && Grown(m0, own0, mem, own, d, 0, 0) && SamePtes(m0, mem, d)
      ensures forall p | p in own0 && own0[p].Free? :: own[p].Free? || (own[p].Table? && own[p].up == d)
    {
      assert 0 !in m0 by {
        assert 0 in own ==> InList(own, free, 0);
      }
      GrownHand(m0, own0, m, own1, d, 0, 0, u, u + 1);
      GrownTrans(m0, own0, m, own1, mem, own, d, u, u + 1);
      if u != 0 {
        assert GrownAt(m0, own0, m, own1, d, 0, 0, u);
      }
      Undo(d, newsz, oldsz, u, m0, own0);
      OnlyTables(m0, own0, mem, own, d);
    }

    // allocuvm's way out: free what was mapped, then the page in hand.
    method Undo(d: nat, newsz: nat, oldsz: nat, u: nat, ghost m0: Store, ghost own0: Uses)
      requires Valid() && d in own && own[d] == Dir(0) && oldsz <= newsz < 0x8000_0000
      requires ForestOk(m0, own0) && d in own0 && own0[d] == Dir(0) && Grown(m0, own0, mem, own, d, u, u + 1)
      requires forall v | PagesUp(oldsz) <= v < PagesUp(newsz) :: Pte(m0, d, v).Unmapped?
      requires forall v: int {:trigger Pte(mem, d, v)} ::
                 PagesUp(oldsz) <= v < PagesUp(newsz) || Pte(mem, d, v) == Pte(m0, d, v)
      requires 0 !in m0 && (u != 0 ==> u in own0 && own0[u].Free? && u in own && own[u].Held?)
      modifies this
      ensures Valid() && d in own && own[d] == Dir(0) && Grown(m0, own0, mem, own, d, 0, 0) && SamePtes(m0, mem, d)
    {
      ghost var m, own1 := mem, own;
      var _ := Deallocuvm(d, newsz, oldsz);
      GrowShrink(m0, own0, m, own1, mem, own, d, u, u + 1, PagesUp(oldsz), PagesUp(newsz));
      if u != 0 {
        assert ShrunkAt(m, own1, mem, own, d, PagesUp(oldsz), PagesUp(newsz), u);
        ghost var m2, own2 := mem, own;
        Kfree(u);
        PutBack(m0, own0, m2, own2, d, u, mem[u], |free| - 1);
        SetContents(m2, own2, d, u, mem[u]);
      } else {
        forall p | p in m0
          ensures GrownAt(m0, own0, mem, own, d, 0, 0, p)
        {
          assert GrownAt(m0, own0, mem, own, d, 0, 1, p);
        }
      }
    }

    // One round of allocuvm, at virtual page a of lo..hi; a failed one undoes all the rounds since the state m0, own0.
    method AllocRound(d: nat, newsz: nat, oldsz: nat, a: nat, ghost lo: nat, ghost hi: nat, ghost x0: int,
                      ghost x1: int, ghost m0: Store, ghost own0: Uses, ghost n0: nat)
      returns (ok: bool)
      requires Valid() && d in own && own[d] == Dir(0) && oldsz <= newsz < 0x8000_0000
      requires lo == PagesUp(oldsz) && hi == PagesUp(newsz) && lo <= a < hi && x0 <= a / 1024 < x1
      requires ForestOk(m0, own0) && d in own0 && own0[d] == Dir(0)
      requires forall v | lo <= v < hi :: Pte(m0, d, v).Unmapped?
      requires Filling(m0, own0, n0, mem, own, |free|, d, lo, a, x0, x1)
      modifies this
      ensures Valid() && d in own && own[d] == Dir(0)
      ensures ok ==> Filling(m0, own0, n0, mem, own, |free|, d, lo, a + 1, x0, x1)
      ensures !ok ==> n0 < hi - lo + Missing(m0, d, x0, x1)
      ensures !ok ==> Grown(m0, own0, mem, own, d, 0, 0) && SamePtes(m0, mem, d)
      ensures !ok ==> forall p | p in own0 && own0[p].Free? :: own[p].Free? || (own[p].Table? && own[p].up == d)
    {
      ghost var m, own1, n := mem, own, |free|;
      assert Pte(m, d, a) == Pte(m0, d, a);
      var u;
      u, ok := AddPage(d, a, ZERO_PAGE, 6);
      if ok {
        FillNext(m0, own0, n0, m, own1, n, mem, own, |free|, d, lo, a, u, x0, x1);
      } else {
        TookTooMuch(m0, n0 - (a - lo), m, n, d, x0, x1, a / 1024, 1);
        BackOut(d, newsz, oldsz, u, m, own1, m0, own0);
      }
    }

    // The loop of allocuvm.
    method AllocPages(d: nat, oldsz: nat, newsz: nat) returns (ok: bool)
      requires Valid() && d in own && own[d] == Dir(0) && oldsz <= newsz < 0x8000_0000
      requires forall v | PagesUp(oldsz) <= v < PagesUp(newsz) :: Pte(mem, d, v).Unmapped?
      modifies this
      ensures Valid() && d in own && own[d] == Dir(0) && Grown(old(mem), old(own), mem, own, d, 0, 0)
      ensures ok <==> Need(old(mem), d, PagesUp(oldsz), PagesUp(newsz)) <= |old(free)|
      ensures ok ==> forall v | PagesUp(oldsz) <= v < PagesUp(newsz) :: ZeroPage(mem, d, v)
      ensures ok ==> forall v: int {:trigger Pte(mem, d, v)} ::
                       PagesUp(oldsz) <= v < PagesUp(newsz) || Pte(mem, d, v) == Pte(old(mem), d, v)
      ensures !ok ==> SamePtes(old(mem), mem, d)
      ensures !ok ==> forall p | p in old(own) && old(own)[p].Free? :: own[p].Free? || (own[p].Table? && own[p].up == d)
    {
      ghost var m0, own0, n0 := mem, own, |free|;
      var lo: int, hi: int := PagesUp(oldsz), PagesUp(newsz);
      GrownSame(mem, own, d, 0, 0);
      TookNothing(mem, mem, |free|, d, lo / 1024, (hi - 1) / 1024 + 1);
      var a := lo;
      while a * 4096 < newsz
        invariant lo <= a <= hi && Valid() && d in own && own[d] == Dir(0)
        invariant Filling(m0, own0, n0, mem, own, |free|, d, lo, a, lo / 1024, (hi - 1) / 1024 + 1)
      {
        ok := AllocRound(d, newsz, oldsz, a, lo, hi, lo / 1024, (hi - 1) / 1024 + 1, m0, own0, n0);
        if !ok {
          return;
        }
        a := a + 1;
      }
      FilledAll(m0, own0, n0, mem, own, |free|, d, lo, hi);
      return true;
    }

    /**
      allocuvm: zeroed pages for exactly the virtual pages between the sizes,
      whenever the free list has those pages and the page tables they lack; on
      failure every mapping is as before and only page tables have been added.
     */
    method Allocuvm(d: nat, oldsz: nat, newsz: nat) returns (r: nat, ghost ok: bool)
      requires Valid() && d in own && own[d] == Dir(0)
      requires newsz < 0x8000_0000 ==> forall v | PagesUp(oldsz) <= v < PagesUp(newsz) :: Pte(mem, d, v).Unmapped?
      modifies this
      ensures Valid() && d in own && own[d] == Dir(0) && Grown(old(mem), old(own), mem, own, d, 0, 0)
      ensures ok <==>
                && newsz < 0x8000_0000
                && (newsz < oldsz || Need(old(mem), d, PagesUp(oldsz), PagesUp(newsz)) <= |old(free)|)
      ensures newsz >= 0x8000_0000 || newsz < oldsz ==> mem == old(mem) && own == old(own)
      ensures var shut := KernelShut(mem, d); KernelShut(old(mem), d) ==> shut
      ensures r == if !ok then 0 else if newsz < oldsz then oldsz else newsz
      ensures ok ==> forall v | PagesUp(oldsz) <= v < PagesUp(newsz) :: ZeroPage(mem, d, v)
      ensures ok ==> forall v: int {:trigger Pte(mem, d, v)} ::
                       PagesUp(oldsz) <= v < PagesUp(newsz) || Pte(mem, d, v) == Pte(old(mem), d, v)
      ensures !ok ==> SamePtes(old(mem), mem, d)
      ensures !ok ==> forall p | p in old(own) && old(own)[p].Free? :: own[p].Free? || (own[p].Table? && own[p].up == d)
    {
      GrownSame(mem, own, d, 0, 0);
      if newsz >= 0x8000_0000 {
        return 0, false;
      }
      if newsz < oldsz {
        return oldsz, true;
      }
      var good := AllocPages(d, oldsz, newsz);
      if KernelShut(old(mem), d) {
        StaysShut(old(mem), old(own), mem, own, d);
      }
      return if good then newsz else 0, good;
    }

    // Row k of kmap.
    method MapRow(d: nat, data: nat, k: nat) returns (ok: bool)
      requires Valid() && d in own && own[d] == Dir(0) && k < 4
      requires data % 4096 == 0 && 0x8010_0000 < data < 0x8E00_0000
      requires forall v: int {:trigger Pte(mem, d, v)} :: Pte(mem, d, v) == KernelPte(v, data / 4096, k)
      modifies this
      ensures Valid() && d in own && own[d] == Dir(0) && Grown(old(mem), old(own), mem, own, d, 0, 0)
      ensures var x0, x1 := RowPage(data / 4096, k) / 1024, (RowEnd(data / 4096, k) - 1) / 1024 + 1;
              && (ok <==> Missing(old(mem), d, x0, x1) <= |old(free)|)
              && (ok ==> Took(old(mem), |old(free)|, mem, |free|, d, x0, x1))
      ensures ok ==> forall v: int {:trigger Pte(mem, d, v)} :: Pte(mem, d, v) == KernelPte(v, data / 4096, k + 1)
    {
      var row := KernelMap(data)[k];
      RowPages(data, k);
      ghost var done: nat;
      ok, done := Mappages(d, row.virt, (row.end - row.start) % 0x1_0000_0000, row.start, row.perm);
      GrownHand(old(mem), old(own), mem, own, d, row.start / 4096, row.start / 4096, 0, 0);
    }

    // The loop of setupkvm, on a new directory.
    method MapRows(d: nat, data: nat) returns (ok: bool)
      requires Valid() && d in own && own[d] == Dir(0) && data % 4096 == 0 && 0x8010_0000 < data < 0x8E00_0000
      requires forall v: int {:trigger Pte(mem, d, v)} :: Pte(mem, d, v).Unmapped?
      requires forall x {:trigger Has(mem, d, x)} :: !Has(mem, d, x)
      modifies this
      ensures Valid() && d in own && own[d] == Dir(0) && Grown(old(mem), old(own), mem, own, d, 0, 0)
      ensures ok <==> 64 <= |old(free)|
      ensures ok ==> |free| == |old(free)| - 64 && KernelOnly(mem, d)
      ensures ok ==> forall v: int {:trigger Pte(mem, d, v)} :: Pte(mem, d, v) == KernelPte(v, data / 4096, 4)
    {
      ghost var m0, own0, n0 := mem, own, |free|;
      GrownSame(mem, own, d, 0, 0);
      TookNothing(mem, mem, |free|, d, 512, 1024);
      var k := 0;
      while k < 4
        invariant k <= 4 && Valid() && d in own && own[d] == Dir(0) && Grown(m0, own0, mem, own, d, 0, 0)
        invariant KernelOnly(mem, d) && Took(m0, n0, mem, |free|, d, 512, 1024)
        invariant forall v: int {:trigger Pte(mem, d, v)} :: Pte(mem, d, v) == KernelPte(v, data / 4096, k)
      {
        ghost var m, own1, n := mem, own, |free|;
        ok := MapRow(d, data, k);
        GrownTrans(m0, own0, m, own1, mem, own, d, 0, 0);
        if !ok {
          RowFails(m0, n0, m, n, d, data / 4096, k);
          return;
        }
        RowKeeps(m0, n0, m, n, mem, |free|, d, data / 4096, k);
        k := k + 1;
      }
      RowsDone(m0, n0, mem, |free|, d, data / 4096);
      ok := true;
    }

    /**
      setupkvm: an address space with exactly the kernel's mappings, whenever 65
      pages are free; else nothing changes hands.
     */
    method Setupkvm(data: nat) returns (d: nat)
      requires Valid() && data % 4096 == 0 && 0x8010_0000 < data < 0x8E00_0000
      modifies this
      ensures Valid() && (d == 0 <==> |old(free)| < 65)
      ensures d == 0 ==> Restored(old(mem), old(own), mem, own)
      ensures d != 0 ==>
                && d in old(own) && old(own)[d].Free? && d in own && own[d] == Dir(0)
                && Grown(old(mem), old(own), mem, own, d, 0, 0) && |free| == |old(free)| - 65 && KernelOnly(mem, d)
                && KernelShut(mem, d)
                && forall v: int {:trigger Pte(mem, d, v)} :: Pte(mem, d, v) == KernelPte(v, data / 4096, 4)
    {
      ghost var m0, own0 := mem, own;
      d := Kalloc();
      if d == 0 {
        forall p | p in m0
          ensures RestoredAt(m0, own0, mem, own, p)
        {
        }
        return;
      }
      NewDir(mem, own0, d);
      ghost var m, own1 := mem, own;
      mem := mem[d := ZERO_PAGE];
      own := own[d := Dir(0)];
      FreeFrame(m, own1, mem, own, free, head);
      assert own == own0[d := Dir(0)];
      m, own1 := mem, own;
      var ok := MapRows(d, data);
      GrownTrans(m0, own0, m, own1, mem, own, d, 0, 0);
      if !ok {
        m, own1 := mem, own;
        Freevm(d);
        GrowWipe(m0, own0, m, own1, mem, own, d);
        return 0;
      }
      KernelIsShut(mem, own, d, data / 4096);
    }

    // One round of copyuvm.
    method CopyPage(d0: nat, d: nat, v: nat) returns (ok: bool)
      requires Valid() && d in own && own[d] == Dir(0) && d0 in own && own[d0] == Dir(0) && d0 != d
      requires v < 0x8_0000 && Pte(mem, d, v).Unmapped? && Pte(mem, d0, v).To?
      modifies this
      ensures Valid() && d in own && own[d] == Dir(0) && Grown(old(mem), old(own), mem, own, d, 0, 0)
      ensures ok <==> 1 + Lacks(old(mem), d, v) <= |old(free)|
      ensures ok ==> Took(old(mem), |old(free)| - 1, mem, |free|, d, v / 1024, v / 1024 + 1)
      ensures ok ==>
                CopyOf(mem, d0, d, v) && forall w: int {:trigger Pte(mem, d, w)} :: w != v ==>
                  Pte(mem, d, w) == Pte(old(mem), d, w)
    {
      ghost var m0, own0 := mem, own;
      UserPage(mem, own, d0, v);
      var t := Walkpgdir(d0, v, false);
      var pte := mem[t][v % 1024];
      var u;
      u, ok := AddPage(d, v, mem[Ppn(pte)], Flags(pte));
      if u != 0 && !ok {
        ghost var m, own1 := mem, own;
        Kfree(u);
        PutBack(m0, own0, m, own1, d, u, mem[u], |free| - 1);
      } else if ok {
        GrownDone(m0, own0, mem, own, d, u);
        CopyMade(m0, own0, mem, own, d0, d, v, u);
      } else {
        GrownSame(mem, own, d, 0, 0);
      }
    }

    // The loop of copyuvm, into a new address space d.
    method CopyPages(d0: nat, d: nat, sz: nat) returns (ok: bool)
      requires Valid() && d in own && own[d] == Dir(0) && d0 in own && own[d0] == Dir(0) && d0 != d && sz <= 0x8000_0000
      requires forall v | 0 <= v < PagesUp(sz) :: Pte(mem, d0, v).To? && Pte(mem, d, v).Unmapped?
      modifies this
      ensures Valid() && d in own && own[d] == Dir(0) && Grown(old(mem), old(own), mem, own, d, 0, 0)
      ensures ok <==> Need(old(mem), d, 0, PagesUp(sz)) <= |old(free)|
      ensures ok ==> forall v | 0 <= v < PagesUp(sz) :: CopyOf(mem, d0, d, v)
      ensures ok ==>
                forall v: int {:trigger Pte(mem, d, v)} :: 0 <= v < PagesUp(sz) || Pte(mem, d, v) == Pte(old(mem), d, v)
    {
      ghost var m0, own0, n0 := mem, own, |free|;
      var hi: int := PagesUp(sz);
      ghost var x1: int := (hi - 1) / 1024 + 1;
      GrownSame(mem, own, d, 0, 0);
      TookNothing(mem, mem, |free|, d, 0, x1);
      var i := 0;
      while i * 4096 < sz
        invariant 0 <= i <= hi && Valid() && d in own && own[d] == Dir(0)
        invariant Copying(m0, own0, n0, mem, own, |free|, d0, d, i, x1)
      {
        OthersGrown(m0, own0, mem, own, d, 0, 0, d0);
        assert GrownAt(m0, own0, mem, own, d, 0, 0, d0) && Pte(mem, d0, i) == Pte(m0, d0, i);
        ghost var m, own1, n := mem, own, |free|;
        ok := CopyPage(d0, d, i);
        if !ok {
          TookTooMuch(m0, n0 - i, m, n, d, 0, x1, i / 1024, 1);
          GrownTrans(m0, own0, m, own1, mem, own, d, 0, 0);
          return;
        }
        CopyNext(m0, own0, n0, m, own1, n, mem, own, |free|, d0, d, i, x1);
        i := i + 1;
      }
      ok := true;
      CopiedAll(m0, own0, n0, mem, own, |free|, d0, d, hi);
    }

    /**
      copyuvm: the child's pages below sz have the parent's contents and flags
      on pages that were free, above there is only the kernel's part, and the
      parent is untouched.  It takes 65 pages for setupkvm, the user pages, and
      a page table for every 1024 of them; when the free list is shorter than
      that, and only then, it fails and gives every page back.
     */
    method Copyuvm(d0: nat, sz: nat, data: nat) returns (d: nat)
      requires Valid() && data % 4096 == 0 && 0x8010_0000 < data < 0x8E00_0000
      requires d0 in own && own[d0] == Dir(0) && sz <= 0x8000_0000
      requires forall v | 0 <= v < PagesUp(sz) :: Pte(mem, d0, v).To?
      modifies this
      ensures Valid() && (d == 0 <==> |old(free)| < 65 + PagesUp(sz) + (PagesUp(sz) + 1023) / 1024)
      ensures d == 0 ==> Restored(old(mem), old(own), mem, own)
      ensures d != 0 ==>
                && d in old(own) && old(own)[d].Free? && d in own && own[d] == Dir(0) && d != d0
                && Grown(old(mem), old(own), mem, own, d, 0, 0) && SamePtes(old(mem), mem, d0) && KernelShut(mem, d)
                && (forall v | 0 <= v < PagesUp(sz) :: CopyOf(mem, d0, d, v))
                && (forall v: int {:trigger Pte(mem, d, v)} ::
                      0 <= v < PagesUp(sz) || Pte(mem, d, v) == KernelPte(v, data / 4096, 4))
    {
      ghost var m0, own0 := mem, own;
      d := Setupkvm(data);
      if d == 0 {
        return;
      }
      NewNeed(mem, d, PagesUp(sz));
      OthersGrown(m0, own0, mem, own, d, 0, 0, d0);
      assert GrownAt(m0, own0, mem, own, d, 0, 0, d0);
      ghost var m, own1 := mem, own;
      var ok := CopyPages(d0, d, sz);
      GrownTrans(m0, own0, m, own1, mem, own, d, 0, 0);
      if !ok {
        m, own1 := mem, own;
        Freevm(d);
        GrowWipe(m0, own0, m, own1, mem, own, d);
        return 0;
      }
      OthersGrown(m0, own0, mem, own, d, 0, 0, d0);
      KernelIsShut(mem, own, d, data / 4096);
    }

    /**
      growproc on a process of size sz.  It fails when it cannot grow, and on a
      process of size 0 or down to size 0 exactly.  A failed call keeps every
      mapping, unless it shrank the process to 0 and there was something to
      unmap: then it fails with every user page already gone.
     */
    method Growproc(d: nat, sz: nat, n: int) returns (r: int, sz1: nat)
      requires Valid() && d in own && own[d] == Dir(0) && sz <= 0x8000_0000 && -0x8000_0000 <= n < 0x8000_0000
      requires forall v | PagesUp(sz) <= v < 0x8_0000 :: Pte(mem, d, v).Unmapped?
      modifies this
      ensures Valid() && d in own && own[d] == Dir(0) && (r == 0 || r == -1)
      ensures var shut := KernelShut(mem, d); KernelShut(old(mem), d) ==> shut
      ensures n == 0 ==> r == 0
      ensures n > 0 ==>
                (r == -1 <==> sz + n >= 0x8000_0000 || |old(free)| < Need(old(mem), d, PagesUp(sz), PagesUp(sz + n)))
      ensures n < 0 ==> (r == -1 <==> sz == 0 || sz + n == 0)
      ensures r == -1 ==>
                && sz1 == sz
                && (SamePtes(old(mem), mem, d) <==>
                    !(n < 0 && sz + n == 0 && exists v | 0 <= v < PagesUp(sz) :: Pte(old(mem), d, v).To?))
      ensures r == -1 && n < 0 ==> forall v: int {:trigger Pte(mem, d, v)} ::
                                     Pte(mem, d, v) == if 0 <= v < 0x8_0000 then Unmapped else Pte(old(mem), d, v)
      ensures r == 0 ==> sz1 == if n < 0 && sz + n < 0 then sz else sz + n
      ensures r == 0 ==> forall v: int {:trigger Pte(mem, d, v)} ::
                           if PagesUp(sz) <= v < PagesUp(sz1) then ZeroPage(mem, d, v)
                           else if PagesUp(sz1) <= v < PagesUp(sz) then Pte(mem, d, v).Unmapped?
                           else Pte(mem, d, v) == Pte(old(mem), d, v)
    {
      var size := (sz + n) % 0x1_0000_0000;
      assert size == if sz + n < 0 then sz + n + 0x1_0000_0000 else sz + n;
      sz1 := sz;
      if n > 0 {
        ghost var ok: bool;
        size, ok := Allocuvm(d, sz, size);
        if size == 0 {
          return -1, sz;
        }
        sz1 := size;
      } else if n < 0 {
        size := Deallocuvm(d, sz, size);
        if size == 0 {
          if v :| 0 <= v < PagesUp(sz) && Pte(old(mem), d, v).To? {
            assert Pte(mem, d, v) != Pte(old(mem), d, v);
          }
          return -1, sz;
        }
        sz1 := size;
      }
      r := 0;
    }
  }

  /** The failing input of growproc: a process of one page, shrunk by one page, is told that nothing happened. */
  method ShrinkToZero(k: Memory, d: nat) returns (r: int, sz1: nat)
    requires k.Valid() && d in k.own && k.own[d] == Dir(0) && Pte(k.mem, d, 0).To?
    requires forall v | 1 <= v < 0x8_0000 :: Pte(k.mem, d, v).Unmapped?
    modifies k
    ensures r == -1 && sz1 == 4096 && old(Pte(k.mem, d, 0)).To? && Pte(k.mem, d, 0).Unmapped?
  {
    r, sz1 := k.Growproc(d, 4096, -4096);
  }

  /** There is such a process. */
  method OnePage() returns (k: Memory, d: nat)
    ensures fresh(k) && k.Valid() && d in k.own && k.own[d] == Dir(0) && Pte(k.mem, d, 0).To?
    ensures forall v | 1 <= v < 0x8_0000 :: Pte(k.mem, d, v).Unmapped?
  {
    var pages: Store := map[];
    for i := 1 to 101
      invariant forall p :: p in pages <==> 1 <= p < i
    {
      pages := pages[i := ZERO_PAGE];
    }
    k := new Memory(pages);
    k.Freerange(0x8000_1000, 0x8006_5000);
    d := k.Setupkvm(0x8020_0000);
    NewNeed(k.mem, d, 1);
    ghost var ok: bool;
    var sz;
    sz, ok := k.Allocuvm(d, 0, 4096);
    assert ZeroPage(k.mem, d, 0);
  }
}
