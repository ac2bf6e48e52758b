/**
  Physical pages and what they are used for: free, held by kernel code, page
  directory, page table or user page.  The page tables form a forest in which
  every used page knows its place, so no page is used twice (vm.c, kalloc.c; the
  entry format is that of 32-bit paging, section 4.3 of the Intel SDM volume 3A).
 */
module PageTables {
  import opened Blocks

  // 4096 bytes as 1024 words.
  type Page = s: seq<Word> | |s| == 1024 witness seq(1024, _ => 0)

  const ZERO_PAGE: Page := seq(1024, _ => 0)

  // Physical pages by page number.
  type Store = map<nat, Page>

  datatype Use =
    | Free(at: nat)              // position in the free list
    | Held                       // handed out by kalloc
    | Dir(from: nat)             // page directory; its entries below from are given up
    | Table(up: nat, at: nat)    // page table, entry at of directory up
    | User(up: nat, at: nat)     // user page, entry at of page table up

  type Uses = map<nat, Use>

  /*** Entries ***/

  predicate Present(e: Word) {
    e % 2 == 1
  }

  function Ppn(e: Word): nat {
    e / 4096
  }

  function Flags(e: Word): nat {
    e % 4096
  }

  // perm | PTE_P.
  function WithPresent(perm: nat): (f: nat)
    requires perm < 4096
    ensures f < 4096 && f % 2 == 1
  {
    if perm % 2 == 1 then perm else perm + 1
  }

  // pa | perm | PTE_P for the page with this number.
  function Entry(ppn: nat, perm: nat): Word
    requires ppn < 0x10_0000 && perm < 4096
  {
    ppn * 4096 + WithPresent(perm)
  }

  lemma PageDivision(q: nat, r: nat)
    requires r < 4096
    ensures (q * 4096 + r) / 4096 == q && (q * 4096 + r) % 4096 == r
  {
  }

  lemma PageParity(q: nat, r: nat)
    requires r % 2 == 1
    ensures (q * 4096 + r) % 2 == 1
  {
    assert q * 4096 + r == 2 * (q * 2048 + r / 2) + 1;
  }

  lemma EntryIs(ppn: nat, perm: nat)
    requires ppn < 0x10_0000 && perm < 4096
    ensures Present(Entry(ppn, perm)) && Ppn(Entry(ppn, perm)) == ppn && Flags(Entry(ppn, perm)) == WithPresent(perm)
  {
    PageDivision(ppn, WithPresent(perm));
    PageParity(ppn, WithPresent(perm));
  }

  // Present, and open to writes and to the user: PTE_P, PTE_W and PTE_U.
  predicate Open(e: Word) {
    e % 8 == 7
  }

  lemma OpenEntry(ppn: nat)
    requires ppn < 0x10_0000
    ensures Open(Entry(ppn, 7))
  {
    assert Entry(ppn, 7) == 8 * (ppn * 512) + 7;
  }

  /*** The forest ***/

  // Entry i of page p points to a page of the forest: always in a directory, for user addresses in a page table.  A
  // directory forbids nothing.
  predicate Inner(own: Uses, p: nat, i: int) {
    && p in own
    && ((own[p].Dir? && own[p].from <= i) || (own[p].Table? && own[p].at < 512))
  }

  function ChildUse(own: Uses, p: nat, i: nat): Use
    requires p in own
  {
    if own[p].Dir? then Table(p, i) else User(p, i)
  }

  predicate Points(m: Store, p: nat, i: int, q: nat) {
    p in m && 0 <= i < 1024 && Present(m[p][i]) && Ppn(m[p][i]) == q
  }

  ghost predicate Down(m: Store, own: Uses, p: nat, i: nat) {
    p in m && i < 1024 && Inner(own, p, i) && Present(m[p][i]) ==>
      var q := Ppn(m[p][i]); q in own && own[q] == ChildUse(own, p, i) && (own[p].Dir? ==> Open(m[p][i]))
  }

  ghost predicate Up(m: Store, own: Uses, q: nat) {
    && q in own
    && ((own[q].Table? || own[q].User?) ==>
          && Inner(own, own[q].up, own[q].at) && Points(m, own[q].up, own[q].at, q)
          && own[q] == ChildUse(own, own[q].up, own[q].at))
  }

  ghost predicate ForestOk(m: Store, own: Uses) {
    && m.Keys == own.Keys
    && (forall p, i {:trigger Down(m, own, p, i)} | p in m && 0 <= i < 1024 :: Down(m, own, p, i))
    && (forall q {:trigger Up(m, own, q)} | q in m :: Up(m, own, q))
  }

  // A held page becomes the child of an empty entry.
  lemma Attach(m: Store, own: Uses, p: nat, i: nat, q: nat, e: Word)
    requires ForestOk(m, own) && i < 1024 && Inner(own, p, i) && !Present(m[p][i])
    requires q in own && own[q].Held? && Present(e) && Ppn(e) == q
    requires own[p].Dir? ==> m[q] == ZERO_PAGE && Open(e)
    ensures ForestOk(m[p := m[p][i := e]], own[q := ChildUse(own, p, i)])
  {
    var m1, own1 := m[p := m[p][i := e]], own[q := ChildUse(own, p, i)];
    forall r, j | r in m1 && 0 <= j < 1024
      ensures Down(m1, own1, r, j)
    {
      assert Down(m, own, r, j);
    }
    forall r | r in m1
      ensures Up(m1, own1, r)
    {
      assert Up(m, own, r);
    }
  }

  // A user page is taken out of its page table.
  lemma Detach(m: Store, own: Uses, q: nat)
    requires ForestOk(m, own) && q in own && own[q].User?
    ensures own[q].up in m && own[q].at < 1024
    ensures ForestOk(m[own[q].up := m[own[q].up][own[q].at := 0]], own[q := Held])
  {
    assert Up(m, own, q);
    var p, i := own[q].up, own[q].at;
    var m1, own1 := m[p := m[p][i := 0]], own[q := Held];
    forall r, j | r in m1 && 0 <= j < 1024
      ensures Down(m1, own1, r, j)
    {
      assert Down(m, own, r, j);
    }
    forall r | r in m1
      ensures Up(m1, own1, r)
    {
      assert Up(m, own, r);
    }
  }

  // An entry outside the forest changes: kernel part of a page table.
  lemma KernelEntry(m: Store, own: Uses, p: nat, i: nat, e: Word)
    requires ForestOk(m, own) && i < 1024 && p in own && own[p].Table? && own[p].at >= 512
    ensures ForestOk(m[p := m[p][i := e]], own)
  {
    var m1 := m[p := m[p][i := e]];
    forall r, j | r in m1 && 0 <= j < 1024
      ensures Down(m1, own, r, j)
    {
      assert Down(m, own, r, j);
    }
    forall r | r in m1
      ensures Up(m1, own, r)
    {
      assert Up(m, own, r);
    }
  }

  // Contents of a page that is no directory and no page table.
  lemma Contents(m: Store, own: Uses, p: nat, s: Page)
    requires ForestOk(m, own) && p in own && !own[p].Dir? && !own[p].Table?
    ensures ForestOk(m[p := s], own)
  {
    var m1 := m[p := s];
    forall r, j | r in m1 && 0 <= j < 1024
      ensures Down(m1, own, r, j)
    {
      assert Down(m, own, r, j);
    }
    forall r | r in m1
      ensures Up(m1, own, r)
    {
      assert Up(m, own, r);
    }
  }

  // A page outside the forest changes between free, held and empty directory.
  lemma Reuse(m: Store, own: Uses, p: nat, u: Use)
    requires ForestOk(m, own) && p in own && !u.Table? && !u.User?
    requires own[p].Free? || own[p].Held? || (own[p].Dir? && own[p].from >= 1024)
    requires u.Dir? ==> m[p] == ZERO_PAGE
    ensures ForestOk(m, own[p := u])
  {
    var own1 := own[p := u];
    forall r, j | r in m && 0 <= j < 1024
      ensures Down(m, own1, r, j)
    {
      assert Down(m, own, r, j);
    }
    forall r | r in m
      ensures Up(m, own1, r)
    {
      assert Up(m, own, r);
    }
  }

  // The next entry of a directory is given up, with its page table if it has one.
  lemma GiveUp(m: Store, own: Uses, d: nat)
    requires ForestOk(m, own) && d in own && own[d].Dir? && own[d].from < 1024
    requires own[d].from < 512 && Present(m[d][own[d].from]) ==>
               var t := Ppn(m[d][own[d].from]); t in m ==> forall j | 0 <= j < 1024 :: !Present(m[t][j])
    ensures var own1 := own[d := Dir(own[d].from + 1)];
            if Present(m[d][own[d].from])
            then Ppn(m[d][own[d].from]) in m && ForestOk(m, own1[Ppn(m[d][own[d].from]) := Held])
            else ForestOk(m, own1)
  {
    var k := own[d].from;
    assert Down(m, own, d, k);
    var own1 := own[d := Dir(k + 1)];
    if Present(m[d][k]) {
      own1 := own1[Ppn(m[d][k]) := Held];
    }
    forall r, j | r in m && 0 <= j < 1024
      ensures Down(m, own1, r, j)
    {
      assert Down(m, own, r, j);
    }
    forall r | r in m
      ensures Up(m, own1, r)
    {
      assert Up(m, own, r);
    }
  }
}
