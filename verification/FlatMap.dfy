/**
  The flat page map that a two-level page table stands for, and what an
  operation on one address space leaves alone.
 */
module FlatMap {
  import opened Blocks
  import opened PageTables

  // What a virtual page is mapped to.
  datatype Mapping = Unmapped | To(ppn: nat, flags: nat)

  function Decode(e: Word): Mapping {
    if e % 2 == 1 then To(e / 4096, e % 4096) else Unmapped
  }

  lemma EntryDecodes(ppn: nat, perm: nat)
    requires ppn < 0x10_0000 && perm < 4096
    ensures Decode(Entry(ppn, perm)) == To(ppn, WithPresent(perm))
    ensures Present(Entry(ppn, perm)) && Ppn(Entry(ppn, perm)) == ppn
  {
    EntryIs(ppn, perm);
  }

  /** The flat page map: what the tables of directory d say of virtual page v. */
  function Pte(m: Store, d: nat, v: int): Mapping {
    if d in m && 0 <= v < 0x10_0000 && Present(m[d][v / 1024]) && Ppn(m[d][v / 1024]) in m
    then Decode(m[Ppn(m[d][v / 1024])][v % 1024]) else Unmapped
  }

  /*** What user code may do ***/

  datatype Rights = NoAccess | ReadOnly | ReadWrite

  // By the flags of one entry: PTE_U, then PTE_W.
  function RightsOf(flags: nat): Rights {
    if flags / 4 % 2 == 0 then NoAccess else if flags / 2 % 2 == 0 then ReadOnly else ReadWrite
  }

  // Both levels must allow it (section 4.6 of the Intel SDM volume 3A).
  function UserMay(m: Store, d: nat, v: int): Rights {
    if Pte(m, d, v).Unmapped? then NoAccess
    else
      var dir, table := RightsOf(Flags(m[d][v / 1024])), RightsOf(Pte(m, d, v).flags);
      if dir.NoAccess? || table.NoAccess? then NoAccess
      else if dir.ReadWrite? then table else dir
  }

  lemma OpenRights(e: Word)
    requires Open(e)
    ensures RightsOf(Flags(e)) == ReadWrite
  {
    var j := e / 8 - 512 * (e / 4096);
    assert Flags(e) == 8 * j + 7;
    assert Flags(e) / 4 == 2 * j + 1 && Flags(e) / 2 == 4 * j + 3;
  }

  /** The flags of the flat map decide: no directory entry takes a right away. */
  lemma RightsAre(m: Store, own: Uses, d: nat, v: int)
    requires ForestOk(m, own) && d in own && own[d] == Dir(0)
    ensures UserMay(m, d, v) == if Pte(m, d, v).Unmapped? then NoAccess else RightsOf(Pte(m, d, v).flags)
  {
    if Pte(m, d, v).To? {
      assert Down(m, own, d, v / 1024);
      OpenRights(m[d][v / 1024]);
    }
  }

  // User code has no access to the addresses from KERNBASE on.
  ghost predicate KernelShut(m: Store, d: nat) {
    forall v: int {:trigger UserMay(m, d, v)} | 0x8_0000 <= v :: UserMay(m, d, v).NoAccess?
  }

  // It stays so while the mappings there stay.
  lemma StaysShut(m0: Store, own0: Uses, m1: Store, own1: Uses, d: nat)
    requires ForestOk(m0, own0) && d in own0 && own0[d] == Dir(0) && KernelShut(m0, d)
    requires ForestOk(m1, own1) && d in own1 && own1[d] == Dir(0)
    requires forall v: int {:trigger Pte(m1, d, v)} | 0x8_0000 <= v :: Pte(m1, d, v) == Pte(m0, d, v)
    ensures KernelShut(m1, d)
  {
    forall v: int | 0x8_0000 <= v
      ensures UserMay(m1, d, v).NoAccess?
    {
      assert UserMay(m0, d, v).NoAccess?;
      RightsAre(m0, own0, d, v);
      RightsAre(m1, own1, d, v);
    }
  }

  ghost predicate SamePtes(m0: Store, m1: Store, d: nat) {
    forall v: int {:trigger Pte(m1, d, v)} :: Pte(m1, d, v) == Pte(m0, d, v)
  }

  // The page table of an entry of a live directory.
  lemma TableOf(m: Store, own: Uses, d: nat, x: nat)
    requires ForestOk(m, own) && d in own && own[d] == Dir(0) && x < 1024 && Present(m[d][x])
    ensures Ppn(m[d][x]) in own && own[Ppn(m[d][x])] == Table(d, x)
  {
    assert Down(m, own, d, x);
  }

  // A new, empty page table changes no mapping.
  lemma NewTable(m: Store, own: Uses, d: nat, x: nat, t: nat, e: Word)
    requires ForestOk(m, own) && d in own && own[d] == Dir(0) && x < 1024 && !Present(m[d][x])
    requires t in own && own[t].Held? && m[t] == ZERO_PAGE && Present(e) && Ppn(e) == t
    ensures SamePtes(m, m[d := m[d][x := e]], d)
  {
    var m1 := m[d := m[d][x := e]];
    forall v: int
      ensures Pte(m1, d, v) == Pte(m, d, v)
    {
      if 0 <= v < 0x10_0000 && Present(m[d][v / 1024]) {
        TableOf(m, own, d, v / 1024);
      }
    }
  }

  // Writing one entry of a page table changes the mapping of one page.
  lemma SetEntry(m: Store, own: Uses, d: nat, x: nat, y: nat, e: Word)
    requires ForestOk(m, own) && d in own && own[d] == Dir(0) && x < 1024 && y < 1024 && Present(m[d][x])
    ensures Ppn(m[d][x]) in m
    ensures var t := Ppn(m[d][x]); var m1 := m[t := m[t][y := e]];
            forall v: int {:trigger Pte(m1, d, v)} ::
              Pte(m1, d, v) == if v == x * 1024 + y then Decode(e) else Pte(m, d, v)
  {
    TableOf(m, own, d, x);
    var t := Ppn(m[d][x]);
    var m1 := m[t := m[t][y := e]];
    forall v: int
      ensures Pte(m1, d, v) == if v == x * 1024 + y then Decode(e) else Pte(m, d, v)
    {
      if 0 <= v < 0x10_0000 && Present(m[d][v / 1024]) {
        TableOf(m, own, d, v / 1024);
      }
    }
  }

  // Contents of other pages do not matter.
  lemma SetContents(m: Store, own: Uses, d: nat, p: nat, s: Page)
    requires ForestOk(m, own) && d in own && own[d] == Dir(0) && p in own && !own[p].Dir? && !own[p].Table?
    ensures SamePtes(m, m[p := s], d)
  {
    forall v: int
      ensures Pte(m[p := s], d, v) == Pte(m, d, v)
    {
      if 0 <= v < 0x10_0000 && Present(m[d][v / 1024]) {
        TableOf(m, own, d, v / 1024);
      }
    }
  }

  // The user page behind a mapping belongs to that mapping.
  lemma UserPage(m: Store, own: Uses, d: nat, v: int)
    requires ForestOk(m, own) && d in own && own[d] == Dir(0) && 0 <= v < 0x8_0000 && Pte(m, d, v).To?
    ensures Pte(m, d, v).To? && Present(m[d][v / 1024])
    ensures var q := Pte(m, d, v).ppn;
            q in own && own[q] == User(Ppn(m[d][v / 1024]), v % 1024) && Mine(own, q, d) && Vpn(own, q) == v
  {
    TableOf(m, own, d, v / 1024);
    assert Down(m, own, Ppn(m[d][v / 1024]), v % 1024);
  }

  /*** Address spaces side by side ***/

  // Page p is part of the address space of directory d.
  ghost predicate Mine(own: Uses, p: nat, d: nat) {
    && p in own
    && match own[p]
       case Table(up, _) => up == d
       case User(up, _) => up in own && own[up].Table? && own[up].up == d
       case Dir(_) => p == d
       case _ => false
  }

  // The virtual page of a user page.
  ghost function Vpn(own: Uses, p: nat): int {
    if p in own && own[p].User? && own[p].up in own && own[own[p].up].Table?
    then own[own[p].up].at * 1024 + own[p].at else -1
  }

  // A user page is where its address space maps it.
  lemma UserMapped(m: Store, own: Uses, q: nat, d: nat)
    requires ForestOk(m, own) && q in own && own[q].User? && Mine(own, q, d) && d in own && own[d] == Dir(0)
    ensures 0 <= Vpn(own, q) < 0x8_0000 && Pte(m, d, Vpn(own, q)).To? && Pte(m, d, Vpn(own, q)).ppn == q
  {
    assert Up(m, own, q);
    assert Up(m, own, own[q].up);
  }

  /**
    No physical page is mapped twice for user addresses, in one address space
    or in two, and a mapped page is not free.
   */
  lemma NoSharing(m: Store, own: Uses, d: nat, v: int, e: nat, w: int)
    requires ForestOk(m, own) && d in own && own[d] == Dir(0) && e in own && own[e] == Dir(0)
    requires 0 <= v < 0x8_0000 && 0 <= w < 0x8_0000 && Pte(m, d, v).To? && Pte(m, e, w).To?
    requires Pte(m, d, v).ppn == Pte(m, e, w).ppn
    ensures d == e && v == w && Pte(m, d, v).ppn in own && own[Pte(m, d, v).ppn].User?
  {
    UserPage(m, own, d, v);
    UserPage(m, own, e, w);
    TableOf(m, own, d, v / 1024);
    TableOf(m, own, e, w / 1024);
  }

  // Only the page tables themselves of the address space d.
  predicate TablePage(own: Uses, p: nat, d: nat) {
    p in own && ((own[p].Dir? && p == d) || (own[p].Table? && own[p].up == d))
  }

  // Pages are only added to the address space d, from the free list or from the hand u0..u1.
  ghost predicate GrownAt(m0: Store, own0: Uses, m1: Store, own1: Uses, d: nat, u0: nat, u1: nat, p: nat) {
    && p in m0 && p in own0 && p in m1 && p in own1
    && if own0[p].Free? then own1[p].Free? || Mine(own1, p, d) || (u0 <= p < u1 && own1[p].Held?)
       else if u0 <= p < u1 && own0[p].Held? then
         m1[p] == m0[p] && (own1[p].Held? || (own1[p].User? && Mine(own1, p, d)))
       else own1[p] == own0[p] && (m1[p] == m0[p] || TablePage(own0, p, d))
  }

  ghost predicate Grown(m0: Store, own0: Uses, m1: Store, own1: Uses, d: nat, u0: nat, u1: nat) {
    && m0.Keys == m1.Keys && own0.Keys == own1.Keys
    && forall p {:trigger GrownAt(m0, own0, m1, own1, d, u0, u1, p)} | p in m0 ::
         GrownAt(m0, own0, m1, own1, d, u0, u1, p)
  }

  lemma GrownTrans(m0: Store, own0: Uses, m1: Store, own1: Uses, m2: Store, own2: Uses, d: nat, u0: nat, u1: nat)
    requires ForestOk(m1, own1) && Grown(m0, own0, m1, own1, d, u0, u1) && Grown(m1, own1, m2, own2, d, u0, u1)
    ensures Grown(m0, own0, m2, own2, d, u0, u1)
  {
    forall p | p in m0
      ensures GrownAt(m0, own0, m2, own2, d, u0, u1, p)
    {
      assert GrownAt(m0, own0, m1, own1, d, u0, u1, p) && GrownAt(m1, own1, m2, own2, d, u0, u1, p) && Up(m1, own1, p);
      if own1[p].User? {
        assert GrownAt(m1, own1, m2, own2, d, u0, u1, own1[p].up);
      }
    }
  }

  // The user pages of d from virtual page lo up to hi become free; nothing else changes hands.
  ghost predicate ShrunkAt(m0: Store, own0: Uses, m1: Store, own1: Uses, d: nat, lo: int, hi: int, p: nat) {
    && p in m0 && p in own0 && p in m1 && p in own1
    && if own0[p].User? && Mine(own0, p, d) && lo <= Vpn(own0, p) < hi then own1[p].Free?
       else own1[p] == own0[p] && (m1[p] == m0[p] || (own0[p].Table? && own0[p].up == d))
  }

  ghost predicate Shrunk(m0: Store, own0: Uses, m1: Store, own1: Uses, d: nat, lo: int, hi: int) {
    && m0.Keys == m1.Keys && own0.Keys == own1.Keys
    && forall p {:trigger ShrunkAt(m0, own0, m1, own1, d, lo, hi, p)} | p in m0 ::
         ShrunkAt(m0, own0, m1, own1, d, lo, hi, p)
  }

  lemma ShrunkTrans(m0: Store, own0: Uses, m1: Store, own1: Uses, m2: Store, own2: Uses, d: nat, lo: int, mid: int,
                    hi: int)
    requires ForestOk(m0, own0) && lo <= mid <= hi
    requires Shrunk(m0, own0, m1, own1, d, lo, mid) && Shrunk(m1, own1, m2, own2, d, mid, hi)
    ensures Shrunk(m0, own0, m2, own2, d, lo, hi)
  {
    forall p | p in m0
      ensures ShrunkAt(m0, own0, m2, own2, d, lo, hi, p)
    {
      assert ShrunkAt(m0, own0, m1, own1, d, lo, mid, p)
             && ShrunkAt(m1, own1, m2, own2, d, mid, hi, p) && Up(m0, own0, p);
      if own0[p].User? {
        assert ShrunkAt(m0, own0, m1, own1, d, lo, mid, own0[p].up);
      }
    }
  }

  // Everything of d becomes free; nothing else changes.
  ghost predicate WipedAt(m0: Store, own0: Uses, m1: Store, own1: Uses, d: nat, p: nat) {
    && p in m0 && p in own0 && p in m1 && p in own1
    && if Mine(own0, p, d) then own1[p].Free? else own1[p] == own0[p] && m1[p] == m0[p]
  }

  ghost predicate Wiped(m0: Store, own0: Uses, m1: Store, own1: Uses, d: nat) {
    && m0.Keys == m1.Keys && own0.Keys == own1.Keys
    && forall p {:trigger WipedAt(m0, own0, m1, own1, d, p)} | p in m0 :: WipedAt(m0, own0, m1, own1, d, p)
  }

  // Every page is back where it was.
  ghost predicate RestoredAt(m0: Store, own0: Uses, m1: Store, own1: Uses, p: nat) {
    && p in m0 && p in own0 && p in m1 && p in own1
    && if own0[p].Free? then own1[p].Free? else own1[p] == own0[p] && m1[p] == m0[p]
  }

  ghost predicate Restored(m0: Store, own0: Uses, m1: Store, own1: Uses) {
    && m0.Keys == m1.Keys && own0.Keys == own1.Keys
    && forall p {:trigger RestoredAt(m0, own0, m1, own1, p)} | p in m0 :: RestoredAt(m0, own0, m1, own1, p)
  }

  /** Building an address space from free pages and wiping it gives every page back. */
  lemma GrowWipe(m0: Store, own0: Uses, m1: Store, own1: Uses, m2: Store, own2: Uses, d: nat)
    requires ForestOk(m0, own0) && d in own0 && own0[d].Free?
    requires Grown(m0, own0, m1, own1, d, 0, 0) && Wiped(m1, own1, m2, own2, d)
    ensures Restored(m0, own0, m2, own2)
  {
    forall p | p in m0
      ensures RestoredAt(m0, own0, m2, own2, p)
    {
      assert GrownAt(m0, own0, m1, own1, d, 0, 0, p) && WipedAt(m1, own1, m2, own2, d, p) && Up(m0, own0, p);
      if own0[p].User? {
        assert GrownAt(m0, own0, m1, own1, d, 0, 0, own0[p].up) && Up(m0, own0, own0[p].up);
      }
    }
  }

  /** Another address space keeps its mappings and the contents of its pages. */
  lemma OthersGrown(m0: Store, own0: Uses, m1: Store, own1: Uses, d: nat, u0: nat, u1: nat, e: nat)
    requires ForestOk(m0, own0) && Grown(m0, own0, m1, own1, d, u0, u1)
    requires e in own0 && own0[e] == Dir(0) && e != d
    ensures SamePtes(m0, m1, e)
    ensures forall p | p in own0 && own0[p].User? && Mine(own0, p, e) :: own1[p] == own0[p] && m1[p] == m0[p]
  {
    assert GrownAt(m0, own0, m1, own1, d, u0, u1, e);
    forall v: int
      ensures Pte(m1, e, v) == Pte(m0, e, v)
    {
      if 0 <= v < 0x10_0000 && Present(m0[e][v / 1024]) {
        TableOf(m0, own0, e, v / 1024);
        assert GrownAt(m0, own0, m1, own1, d, u0, u1, Ppn(m0[e][v / 1024]));
      }
    }
    forall p | p in own0 && own0[p].User? && Mine(own0, p, e)
      ensures own1[p] == own0[p] && m1[p] == m0[p]
    {
      assert GrownAt(m0, own0, m1, own1, d, u0, u1, p);
    }
  }

  lemma OthersShrunk(m0: Store, own0: Uses, m1: Store, own1: Uses, d: nat, lo: int, hi: int, e: nat)
    requires ForestOk(m0, own0) && Shrunk(m0, own0, m1, own1, d, lo, hi)
    requires e in own0 && own0[e] == Dir(0) && e != d
    ensures SamePtes(m0, m1, e)
    ensures forall p | p in own0 && own0[p].User? && Mine(own0, p, e) :: own1[p] == own0[p] && m1[p] == m0[p]
  {
    assert ShrunkAt(m0, own0, m1, own1, d, lo, hi, e);
    forall v: int
      ensures Pte(m1, e, v) == Pte(m0, e, v)
    {
      if 0 <= v < 0x10_0000 && Present(m0[e][v / 1024]) {
        TableOf(m0, own0, e, v / 1024);
        assert ShrunkAt(m0, own0, m1, own1, d, lo, hi, Ppn(m0[e][v / 1024]));
      }
    }
    forall p | p in own0 && own0[p].User? && Mine(own0, p, e)
      ensures own1[p] == own0[p] && m1[p] == m0[p]
    {
      assert ShrunkAt(m0, own0, m1, own1, d, lo, hi, p);
    }
  }

  lemma OthersWiped(m0: Store, own0: Uses, m1: Store, own1: Uses, d: nat, e: nat)
    requires ForestOk(m0, own0) && Wiped(m0, own0, m1, own1, d)
    requires e in own0 && own0[e] == Dir(0) && e != d
    ensures SamePtes(m0, m1, e)
    ensures forall p | p in own0 && own0[p].User? && Mine(own0, p, e) :: own1[p] == own0[p] && m1[p] == m0[p]
  {
    assert WipedAt(m0, own0, m1, own1, d, e);
    forall v: int
      ensures Pte(m1, e, v) == Pte(m0, e, v)
    {
      if 0 <= v < 0x10_0000 && Present(m0[e][v / 1024]) {
        TableOf(m0, own0, e, v / 1024);
        assert WipedAt(m0, own0, m1, own1, d, Ppn(m0[e][v / 1024]));
      }
    }
    forall p | p in own0 && own0[p].User? && Mine(own0, p, e)
      ensures own1[p] == own0[p] && m1[p] == m0[p]
    {
      assert WipedAt(m0, own0, m1, own1, d, p);
    }
  }
}
