/**
  umalloc.c: the circular, address-ordered, next-fit free list.  Header words
  live in two maps from unit address to the `ptr` and `size` fields; the
  environment supplies the answer of sbrk.
 */
module Heap {
  import opened HeapLists
  import opened Sums

  // The headers of the k-th free block say what the list says.
  ghost predicate LinkAt(ptr: map<int, int>, size: map<int, int>, fs: seq<Blk>, k: nat)
    requires k < |fs|
  {
    var a := fs[k].addr;
    a in ptr && a in size && size[a] == fs[k].size && ptr[a] == fs[NextIndex(fs, k)].addr
  }

  ghost predicate Linked(ptr: map<int, int>, size: map<int, int>, fs: seq<Blk>) {
    forall k: nat {:trigger LinkAt(ptr, size, fs, k)} | k < |fs| :: LinkAt(ptr, size, fs, k)
  }

  // base comes first, is empty, and every other free block holds something.
  ghost predicate ListOk(base: int, fs: seq<Blk>) {
    && |fs| > 0 && fs[0] == Blk(base, 0)
    && (forall k | 0 < k < |fs| :: fs[k].size > 0)
    && Coalesced(fs)
  }

  // A block handed out by malloc: its header records its size and nothing free overlaps it.
  ghost predicate LiveAt(base: int, size: map<int, int>, fs: seq<Blk>, live: map<int, nat>, a: int)
    requires a in live
  {
    && base < a && live[a] > 0 && a in size && size[a] == live[a]
    && ApartFromAll(fs, Blk(a, live[a]))
  }

  ghost predicate LiveOk(base: int, size: map<int, int>, fs: seq<Blk>, live: map<int, nat>) {
    && (forall a {:trigger LiveAt(base, size, fs, live, a)} | a in live :: LiveAt(base, size, fs, live, a))
    && (forall a, b | a in live && b in live && a != b :: Apart(Blk(a, live[a]), Blk(b, live[b])))
  }

  // The allocator's invariant: every unit obtained from sbrk is free or live.
  ghost predicate HeapOk(base: int, ptr: map<int, int>, size: map<int, int>, fs: seq<Blk>, live: map<int, nat>,
                         obtained: nat) {
    && base > 0 && ListOk(base, fs) && Linked(ptr, size, fs) && LiveOk(base, size, fs, live)
    && Units(fs) + SumMap(live) == obtained
  }

  /*** User data ***/

  // Nothing is written from unit a up to unit a + n.
  ghost predicate Kept(ptr: map<int, int>, size: map<int, int>, ptr': map<int, int>, size': map<int, int>, a: int,
                       n: nat) {
    && (forall u | a <= u < a + n :: (u in ptr <==> u in ptr') && (u in ptr ==> ptr[u] == ptr'[u]))
    && (forall u | a <= u < a + n :: (u in size <==> u in size') && (u in size ==> size[u] == size'[u]))
  }

  // Nothing is written into any block that is live before and after.
  ghost predicate LiveKept(ptr: map<int, int>, size: map<int, int>, live: map<int, nat>,
                           ptr': map<int, int>, size': map<int, int>, live': map<int, nat>) {
    forall a | a in live && a in live' :: live'[a] == live[a] && Kept(ptr, size, ptr', size', a, live[a])
  }

  // Writes at x and y, outside the range.
  lemma WritesOutside(ptr: map<int, int>, size: map<int, int>, ptr': map<int, int>, size': map<int, int>, a: int,
                      n: nat, x: int, y: int)
    requires (x < a || a + n <= x) && (y < a || a + n <= y)
    requires ptr' - {x, y} == ptr - {x, y} && size' - {x, y} == size - {x, y}
    ensures Kept(ptr, size, ptr', size', a, n)
  {
    forall u | a <= u < a + n
      ensures (u in ptr <==> u in ptr') && (u in ptr ==> ptr[u] == ptr'[u])
      ensures (u in size <==> u in size') && (u in size ==> size[u] == size'[u])
    {
      assert u in ptr' <==> u in ptr' - {x, y};
      assert u in size' <==> u in size' - {x, y};
    }
  }

  // No free header lies inside a live block.
  lemma HeaderOutside(base: int, size: map<int, int>, fs: seq<Blk>, live: map<int, nat>, k: nat, a: int)
    requires ListOk(base, fs) && k < |fs| && a in live && LiveAt(base, size, fs, live, a)
    ensures fs[k].addr < a || a + live[a] <= fs[k].addr
  {
    assert Apart(fs[k], Blk(a, live[a]));
  }

  lemma LiveKeptTrans(p0: map<int, int>, s0: map<int, int>, l0: map<int, nat>, p1: map<int, int>, s1: map<int, int>,
                      l1: map<int, nat>, p2: map<int, int>, s2: map<int, int>, l2: map<int, nat>)
    requires LiveKept(p0, s0, l0, p1, s1, l1) && LiveKept(p1, s1, l1, p2, s2, l2)
    requires forall a | a in l0 && a in l2 :: a in l1
    ensures LiveKept(p0, s0, l0, p2, s2, l2)
  {
    forall a | a in l0 && a in l2
      ensures l2[a] == l0[a] && Kept(p0, s0, p2, s2, a, l0[a])
    {
      assert Kept(p0, s0, p1, s1, a, l0[a]) && Kept(p1, s1, p2, s2, a, l1[a]);
    }
  }

  /*** free: the links ***/

  // The pointer and size fields after free has linked bp in after p, merging upwards and then downwards.
  function FreedPtr(ptr: map<int, int>, size: map<int, int>, p: int, bp: int): (r: map<int, int>)
    requires p in ptr && ptr[p] in ptr && p in size && bp in size
  {
    var ptr1 := ptr[bp := if bp + size[bp] == ptr[p] then ptr[ptr[p]] else ptr[p]];
    ptr1[p := if p + size[p] == bp then ptr1[bp] else bp]
  }

  function FreedSize(ptr: map<int, int>, size: map<int, int>, p: int, bp: int): (r: map<int, int>)
    requires p in ptr && ptr[p] in size && p in size && bp in size && p != bp
  {
    var size1 := if bp + size[bp] == ptr[p] then size[bp := size[bp] + size[ptr[p]]] else size;
    if p + size[p] == bp then size1[p := size1[p] + size1[bp]] else size1
  }

  // A header that free does not write, under a new position in the list.
  lemma LinkCarried(ptr: map<int, int>, size: map<int, int>, fs: seq<Blk>, q: nat,
                    ptr': map<int, int>, size': map<int, int>, r: seq<Blk>, k: nat)
    requires q < |fs| && LinkAt(ptr, size, fs, q) && k < |r| && r[k] == fs[q]
    requires r[NextIndex(r, k)].addr == fs[NextIndex(fs, q)].addr
    requires var a := fs[q].addr; a in ptr' && a in size' && ptr'[a] == ptr[a] && size'[a] == size[a]
    ensures LinkAt(ptr', size', r, k)
  {
  }

  lemma FreedElsewhere(ptr: map<int, int>, size: map<int, int>, p: int, bp: int, a: int)
    requires p in ptr && ptr[p] in ptr && ptr[p] in size && p in size && bp in size && p != bp && a != p && a != bp
    ensures a in ptr ==> a in FreedPtr(ptr, size, p, bp) && FreedPtr(ptr, size, p, bp)[a] == ptr[a]
    ensures a in size ==> a in FreedSize(ptr, size, p, bp) && FreedSize(ptr, size, p, bp)[a] == size[a]
  {
  }

  lemma FreeAddrsDistinct(base: int, fs: seq<Blk>, t: nat, b: Blk)
    requires ListOk(base, fs) && Below(fs, t, b.addr) && b.size > 0 && ApartFromAll(fs, b)
    ensures forall k: nat | k < |fs| :: fs[k].addr != b.addr && (k != t ==> fs[k].addr != fs[t].addr)
    ensures t + 1 < |fs| ==> forall k: nat | k < |fs| && k != t + 1 :: fs[k].addr != fs[t + 1].addr
  {
    forall k: nat | k < |fs|
      ensures fs[k].addr != b.addr && (k != t ==> fs[k].addr != fs[t].addr)
    {
      if k < t {
        assert End(fs[k]) < fs[t].addr;
      } else if k > t {
        assert End(fs[t]) < fs[k].addr && fs[t + 1].addr <= fs[k].addr;
      }
    }
    forall k: nat | k < |fs| && t + 1 < |fs| && k != t + 1
      ensures fs[k].addr != fs[t + 1].addr
    {
      assert k < t + 1 ==> End(fs[k]) < fs[t + 1].addr;
    }
  }

  // Each header after free, in terms of the headers before: a block above b,
  lemma FreedLinkAbove(ptr: map<int, int>, size: map<int, int>, fs: seq<Blk>, t: nat, b: Blk, k: nat)
    requires Linked(ptr, size, fs) && t < |fs| && b.addr in size && fs[t].addr != b.addr && k < |Insert(fs, t, b)|
    requires forall q: nat | t < q < |fs| :: fs[q].addr != b.addr && fs[q].addr != fs[t].addr
    requires LinkAt(ptr, size, fs, t) && LinkAt(ptr, size, fs, NextIndex(fs, t))
    requires k > t && (k > t + 1 || End(fs[t]) == b.addr)
    ensures LinkAt(FreedPtr(ptr, size, fs[t].addr, b.addr), FreedSize(ptr, size, fs[t].addr, b.addr),
                   Insert(fs, t, b), k)
  {
    var r, q := Insert(fs, t, b), k + Shift(fs, t, b);
    var ptr', size' := FreedPtr(ptr, size, fs[t].addr, b.addr), FreedSize(ptr, size, fs[t].addr, b.addr);
    InsertNext(fs, t, b, k);
    assert LinkAt(ptr, size, fs, q);
    FreedElsewhere(ptr, size, fs[t].addr, b.addr, fs[q].addr);
    LinkCarried(ptr, size, fs, q, ptr', size', r, k);
  }

  // ... the block that b was merged into,
  lemma FreedLinkMerged(base: int, ptr: map<int, int>, size: map<int, int>, fs: seq<Blk>, t: nat, b: Blk, k: nat)
    requires ListOk(base, fs) && Linked(ptr, size, fs) && Below(fs, t, b.addr) && b.size > 0 && ApartFromAll(fs, b)
    requires b.addr in size && size[b.addr] == b.size && k < |Insert(fs, t, b)|
    requires LinkAt(ptr, size, fs, t) && LinkAt(ptr, size, fs, NextIndex(fs, t))
    requires k == t && End(fs[t]) == b.addr
    ensures LinkAt(FreedPtr(ptr, size, fs[t].addr, b.addr), FreedSize(ptr, size, fs[t].addr, b.addr),
                   Insert(fs, t, b), k)
  {
    var r := Insert(fs, t, b);
    FreeAddrsDistinct(base, fs, t, b);
    InsertAt(fs, t, b, k);
    InsertAt(fs, t, b, NextIndex(r, k));
    InsertAt(fs, t, b, 0);
    assert fs[0].addr < b.addr;
  }

  // ... the block that b was put after, or b itself,
  lemma FreedLinkHere(base: int, ptr: map<int, int>, size: map<int, int>, fs: seq<Blk>, t: nat, b: Blk, k: nat)
    requires ListOk(base, fs) && Linked(ptr, size, fs) && Below(fs, t, b.addr) && b.size > 0 && ApartFromAll(fs, b)
    requires b.addr in size && size[b.addr] == b.size && k < |Insert(fs, t, b)|
    requires LinkAt(ptr, size, fs, t) && LinkAt(ptr, size, fs, NextIndex(fs, t))
    requires (k == t || k == t + 1) && End(fs[t]) != b.addr
    ensures LinkAt(FreedPtr(ptr, size, fs[t].addr, b.addr), FreedSize(ptr, size, fs[t].addr, b.addr),
                   Insert(fs, t, b), k)
  {
    var r := Insert(fs, t, b);
    FreeAddrsDistinct(base, fs, t, b);
    InsertAt(fs, t, b, k);
    InsertAt(fs, t, b, NextIndex(r, k));
    InsertAt(fs, t, b, 0);
    assert fs[0].addr < b.addr;
  }

  // ... or a block below.
  lemma FreedLinkBelow(base: int, ptr: map<int, int>, size: map<int, int>, fs: seq<Blk>, t: nat, b: Blk, k: nat)
    requires ListOk(base, fs) && Linked(ptr, size, fs) && Below(fs, t, b.addr) && b.size > 0 && ApartFromAll(fs, b)
    requires b.addr in size && size[b.addr] == b.size && k < |Insert(fs, t, b)|
    requires LinkAt(ptr, size, fs, t) && LinkAt(ptr, size, fs, NextIndex(fs, t))
    requires k < t
    ensures LinkAt(FreedPtr(ptr, size, fs[t].addr, b.addr), FreedSize(ptr, size, fs[t].addr, b.addr),
                   Insert(fs, t, b), k)
  {
    var r := Insert(fs, t, b);
    FreeAddrsDistinct(base, fs, t, b);
    InsertAt(fs, t, b, k);
    InsertAt(fs, t, b, k + 1);
    assert LinkAt(ptr, size, fs, k);
  }

  lemma FreedList(base: int, fs: seq<Blk>, t: nat, b: Blk)
    requires ListOk(base, fs) && Below(fs, t, b.addr) && b.size > 0 && ApartFromAll(fs, b) && base < b.addr
    ensures ListOk(base, Insert(fs, t, b)) && Insert(fs, t, b)[t].addr == fs[t].addr
  {
    InsertCoalesced(fs, t, b);
    var r := Insert(fs, t, b);
    InsertAt(fs, t, b, t);
    forall k: nat | k < |r|
      ensures k > 0 ==> r[k].size > 0
      ensures k == 0 ==> r[k] == Blk(base, 0)
    {
      InsertAt(fs, t, b, k);
    }
  }

  lemma FreedLinks(base: int, ptr: map<int, int>, size: map<int, int>, fs: seq<Blk>, t: nat, b: Blk)
    requires ListOk(base, fs) && Linked(ptr, size, fs) && Below(fs, t, b.addr) && b.size > 0 && ApartFromAll(fs, b)
    requires b.addr in size && size[b.addr] == b.size
    requires LinkAt(ptr, size, fs, t) && LinkAt(ptr, size, fs, NextIndex(fs, t))
    ensures Linked(FreedPtr(ptr, size, fs[t].addr, b.addr), FreedSize(ptr, size, fs[t].addr, b.addr), Insert(fs, t, b))
  {
    FreeAddrsDistinct(base, fs, t, b);
    forall k: nat | k < |Insert(fs, t, b)|
      ensures LinkAt(FreedPtr(ptr, size, fs[t].addr, b.addr), FreedSize(ptr, size, fs[t].addr, b.addr),
                     Insert(fs, t, b), k)
    {
      if k < t {
        FreedLinkBelow(base, ptr, size, fs, t, b, k);
      } else if k == t && End(fs[t]) == b.addr {
        FreedLinkMerged(base, ptr, size, fs, t, b, k);
      } else if (k == t || k == t + 1) && End(fs[t]) != b.addr {
        FreedLinkHere(base, ptr, size, fs, t, b, k);
      } else {
        FreedLinkAbove(ptr, size, fs, t, b, k);
      }
    }
  }

  // The other live blocks are untouched by putting b back.
  lemma FreedLive(base: int, ptr: map<int, int>, size: map<int, int>, fs: seq<Blk>, t: nat, b: Blk, live: map<int, nat>)
    requires ListOk(base, fs) && Linked(ptr, size, fs) && Below(fs, t, b.addr) && LiveOk(base, size, fs, live)
    requires LinkAt(ptr, size, fs, t) && LinkAt(ptr, size, fs, NextIndex(fs, t))
    requires b.addr in live && live[b.addr] == b.size && b.addr in size && b.size > 0
    ensures LiveOk(base, FreedSize(ptr, size, fs[t].addr, b.addr), Insert(fs, t, b), live - {b.addr})
  {
    var size', live' := FreedSize(ptr, size, fs[t].addr, b.addr), live - {b.addr};
    forall a | a in live'
      ensures LiveAt(base, size', Insert(fs, t, b), live', a)
    {
      assert LiveAt(base, size, fs, live, a);
      assert Apart(Blk(b.addr, live[b.addr]), Blk(a, live[a]));
      assert Apart(fs[t], Blk(a, live[a]));
      InsertApart(fs, t, b, Blk(a, live[a]));
    }
  }

  // ... and nothing is written into them.
  lemma FreedKept(base: int, ptr: map<int, int>, size: map<int, int>, fs: seq<Blk>, t: nat, b: Blk, live: map<int, nat>)
    requires ListOk(base, fs) && Below(fs, t, b.addr) && LiveOk(base, size, fs, live)
    requires LinkAt(ptr, size, fs, t) && LinkAt(ptr, size, fs, NextIndex(fs, t))
    requires b.addr in live && live[b.addr] == b.size && b.addr in size && b.size > 0 && fs[t].addr != b.addr
    ensures LiveKept(ptr, size, live, FreedPtr(ptr, size, fs[t].addr, b.addr), FreedSize(ptr, size, fs[t].addr, b.addr),
                     live - {b.addr})
  {
    var live' := live - {b.addr};
    var ptr', size' := FreedPtr(ptr, size, fs[t].addr, b.addr), FreedSize(ptr, size, fs[t].addr, b.addr);
    forall a | a in live && a in live'
      ensures Kept(ptr, size, ptr', size', a, live[a])
    {
      assert LiveAt(base, size, fs, live, a) && Apart(Blk(b.addr, live[b.addr]), Blk(a, live[a]));
      HeaderOutside(base, size, fs, live, t, a);
      WritesOutside(ptr, size, ptr', size', a, live[a], b.addr, fs[t].addr);
    }
  }

  lemma BlockFreed(base: int, ptr: map<int, int>, size: map<int, int>, fs: seq<Blk>, live: map<int, nat>, obtained: nat,
                   t: nat, bp: int)
    requires HeapOk(base, ptr, size, fs, live, obtained) && bp in live && Below(fs, t, bp)
    ensures LinkAt(ptr, size, fs, t) && LinkAt(ptr, size, fs, NextIndex(fs, t)) && bp in size && fs[t].addr != bp
    ensures var ptr', size' := FreedPtr(ptr, size, fs[t].addr, bp), FreedSize(ptr, size, fs[t].addr, bp);
            var fs' := Insert(fs, t, Blk(bp, live[bp]));
            && HeapOk(base, ptr', size', fs', live - {bp}, obtained) && t < |fs'| && fs'[t].addr == fs[t].addr
            && LiveKept(ptr, size, live, ptr', size', live - {bp})
  {
    var b := Blk(bp, live[bp]);
    assert LiveAt(base, size, fs, live, bp);
    LiveNotFree(base, size, fs, live, bp);
    assert LinkAt(ptr, size, fs, t) && LinkAt(ptr, size, fs, NextIndex(fs, t));
    FreedList(base, fs, t, b);
    FreedLinks(base, ptr, size, fs, t, b);
    FreedLive(base, ptr, size, fs, t, b, live);
    FreedKept(base, ptr, size, fs, t, b, live);
    InsertUnits(fs, t, b);
    SumMapWithout(live, bp);
  }

  /*** malloc: the links ***/

  // Taking the whole of block k, whose predecessor is k - 1.
  lemma RemovedLinks(base: int, ptr: map<int, int>, size: map<int, int>, fs: seq<Blk>, k: nat)
    requires ListOk(base, fs) && Linked(ptr, size, fs) && 0 < k < |fs|
    ensures LinkAt(ptr, size, fs, k) && LinkAt(ptr, size, fs, k - 1)
    ensures ListOk(base, Remove(fs, k)) && Linked(ptr[fs[k - 1].addr := ptr[fs[k].addr]], size, Remove(fs, k))
  {
    assert LinkAt(ptr, size, fs, k) && LinkAt(ptr, size, fs, k - 1);
    var r, ptr' := Remove(fs, k), ptr[fs[k - 1].addr := ptr[fs[k].addr]];
    RemoveCoalesced(fs, k);
    forall q: nat | q < |fs| && q != k - 1
      ensures fs[q].addr != fs[k - 1].addr
    {
      assert q < k - 1 ==> End(fs[q]) < fs[k - 1].addr;
      assert q > k - 1 ==> End(fs[k - 1]) < fs[q].addr;
    }
    forall i: nat | i < |r|
      ensures LinkAt(ptr', size, r, i)
    {
      RemovedLink(ptr, size, fs, k, i);
    }
  }

  lemma RemovedLink(ptr: map<int, int>, size: map<int, int>, fs: seq<Blk>, k: nat, i: nat)
    requires Linked(ptr, size, fs) && 0 < k < |fs| && i < |Remove(fs, k)| && fs[k].addr in ptr
    requires forall q: nat | q < |fs| && q != k - 1 :: fs[q].addr != fs[k - 1].addr
    ensures LinkAt(ptr[fs[k - 1].addr := ptr[fs[k].addr]], size, Remove(fs, k), i)
  {
    var q := if i < k then i else i + 1;
    RemoveNext(fs, k, i);
    assert LinkAt(ptr, size, fs, q) && LinkAt(ptr, size, fs, k);
  }

  // Taking n units off the end of block k.
  lemma ShrunkLinks(base: int, ptr: map<int, int>, size: map<int, int>, fs: seq<Blk>, k: nat, n: nat)
    requires ListOk(base, fs) && Linked(ptr, size, fs) && 0 < k < |fs| && 0 < n < fs[k].size
    ensures LinkAt(ptr, size, fs, k)
    ensures var rest := fs[k].size - n;
            && ListOk(base, Shrink(fs, k, n))
            && Linked(ptr, size[fs[k].addr := rest][fs[k].addr + rest := n], Shrink(fs, k, n))
  {
    assert LinkAt(ptr, size, fs, k);
    var r, a, rest := Shrink(fs, k, n), fs[k].addr, fs[k].size - n;
    var size' := size[a := rest][a + rest := n];
    forall i: nat | i < |r|
      ensures LinkAt(ptr, size', r, i)
    {
      assert LinkAt(ptr, size, fs, i);
      assert i < k ==> End(fs[i]) < fs[k].addr;
      assert i > k ==> End(fs[k]) < fs[i].addr;
    }
  }

  // A block carved out of the list joins the live ones.
  lemma TakenLive(base: int, size: map<int, int>, fs: seq<Blk>, live: map<int, nat>, k: nat, fs': seq<Blk>,
                  size': map<int, int>, b: Blk)
    requires ListOk(base, fs) && LiveOk(base, size, fs, live) && 0 < k < |fs| && b.size > 0
    requires fs[k].addr <= b.addr && End(b) == End(fs[k])
    requires if b.size == fs[k].size then
               fs' == Remove(fs, k) && size' == size && b.addr in size && size[b.addr] == b.size
             else
               && b.size < fs[k].size && fs' == Shrink(fs, k, b.size)
               && size' == size[fs[k].addr := fs[k].size - b.size][b.addr := b.size]
    ensures b.addr !in live && LiveOk(base, size', fs', live[b.addr := b.size])
  {
    assert End(fs[0]) < fs[k].addr;
    forall a | a in live
      ensures Apart(fs[k], Blk(a, live[a])) && Apart(b, Blk(a, live[a])) && a != b.addr && a != fs[k].addr
    {
      assert LiveAt(base, size, fs, live, a);
    }
    assert ApartFromAll(fs', b) by {
      forall i | 0 <= i < |fs'|
        ensures Apart(fs'[i], b)
      {
        var q := if |fs'| < |fs| && i >= k then i + 1 else i;
        assert q < k ==> End(fs[q]) < fs[k].addr;
        assert q > k ==> End(fs[k]) < fs[q].addr;
      }
    }
    var live' := live[b.addr := b.size];
    forall a | a in live'
      ensures LiveAt(base, size', fs', live', a)
    {
      if a != b.addr {
        assert LiveAt(base, size, fs, live, a);
        forall i | 0 <= i < |fs'|
          ensures Apart(fs'[i], Blk(a, live[a]))
        {
          var q := if |fs'| < |fs| && i >= k then i + 1 else i;
          assert Apart(fs[q], Blk(a, live[a]));
        }
      }
    }
  }

  // Writes to the headers of fs[k - 1] and fs[k] and inside fs[k] touch no live block.
  lemma TakenKept(base: int, ptr: map<int, int>, size: map<int, int>, fs: seq<Blk>, live: map<int, nat>, k: nat,
                  next: int, rest: int, h: int, n: nat, size': map<int, int>)
    requires ListOk(base, fs) && LiveOk(base, size, fs, live)
    requires 0 < k < |fs| && fs[k].addr <= h < End(fs[k]) && h !in live
    requires size' == size || size' == size[fs[k].addr := rest][h := n]
    ensures LiveKept(ptr, size, live, ptr, size', live[h := n])
    ensures LiveKept(ptr, size, live, ptr[fs[k - 1].addr := next], size', live[h := n])
  {
    var ptr' := ptr[fs[k - 1].addr := next];
    forall a | a in live
      ensures Kept(ptr, size, ptr', size', a, live[a]) && Kept(ptr, size, ptr, size', a, live[a])
    {
      assert LiveAt(base, size, fs, live, a) && Apart(fs[k], Blk(a, live[a]));
      HeaderOutside(base, size, fs, live, k - 1, a);
      WritesOutside(ptr, size, ptr, size', a, live[a], fs[k].addr, h);
      WritesOutside(ptr, size', ptr', size', a, live[a], fs[k - 1].addr, h);
    }
  }

  lemma WholeTaken(base: int, ptr: map<int, int>, size: map<int, int>, fs: seq<Blk>, live: map<int, nat>, obtained: nat,
                   k: nat)
    requires HeapOk(base, ptr, size, fs, live, obtained) && 0 < k < |fs|
    ensures LinkAt(ptr, size, fs, k) && fs[k].addr !in live
    ensures var ptr', live' := ptr[fs[k - 1].addr := ptr[fs[k].addr]], live[fs[k].addr := fs[k].size];
            HeapOk(base, ptr', size, Remove(fs, k), live', obtained) && LiveKept(ptr, size, live, ptr', size, live')
  {
    RemovedLinks(base, ptr, size, fs, k);
    RemoveUnits(fs, k);
    TakenLive(base, size, fs, live, k, Remove(fs, k), size, fs[k]);
    TakenKept(base, ptr, size, fs, live, k, ptr[fs[k].addr], 0, fs[k].addr, fs[k].size, size);
    SumMapUpdate(live, fs[k].addr, fs[k].size);
  }

  lemma TailTaken(base: int, ptr: map<int, int>, size: map<int, int>, fs: seq<Blk>, live: map<int, nat>, obtained: nat,
                  k: nat, n: nat)
    requires HeapOk(base, ptr, size, fs, live, obtained) && 0 < k < |fs| && 0 < n < fs[k].size
    ensures LinkAt(ptr, size, fs, k) && fs[k].addr + (fs[k].size - n) !in live
    ensures var p, rest := fs[k].addr, fs[k].size - n;
            var size', live' := size[p := rest][p + rest := n], live[p + rest := n];
            && LiveKept(ptr, size, live, ptr, size', live')
            && var heapOk := HeapOk(base, ptr, size', Shrink(fs, k, n), live', obtained); heapOk
  {
    var p, rest := fs[k].addr, fs[k].size - n;
    var fs', size', live' := Shrink(fs, k, n), size[p := rest][p + rest := n], live[p + rest := n];
    assert LinkAt(ptr, size, fs, k) && ListOk(base, fs') && Linked(ptr, size', fs') by {
      ShrunkLinks(base, ptr, size, fs, k, n);
    }
    assert p + rest !in live && LiveOk(base, size', fs', live') by {
      TakenLive(base, size, fs, live, k, fs', size', Blk(p + rest, n));
    }
    assert LiveKept(ptr, size, live, ptr, size', live') by {
      TakenKept(base, ptr, size, fs, live, k, 0, rest, p + rest, n, size');
    }
    assert Units(fs') + SumMap(live') == obtained by {
      ShrinkUnits(fs, k, n);
      SumMapUpdate(live, p + rest, n);
    }
  }

  /*** The allocator ***/

  class Allocator {
    const base: int
    var ptr: map<int, int>
    var size: map<int, int>
    var freep: int                 // 0 until the first malloc
    ghost var free: seq<Blk>       // the free list in address order, base first
    ghost var at: nat              // position of freep in it
    ghost var live: map<int, nat>  // blocks handed out, with their sizes
    ghost var obtained: nat        // units obtained from sbrk

    constructor (base: int)
      requires base > 0
      ensures this.base == base && Valid() && live == map[] && free == [] && obtained == 0
    {
      this.base, ptr, size, freep := base, map[], map[], 0;
      free, at, live, obtained := [], 0, map[], 0;
    }

    ghost predicate Valid()
      reads this
    {
      if freep == 0 then free == [] && live == map[] && obtained == 0
      else
        && at < |free| && free[at].addr == freep
        && var heapOk := HeapOk(base, ptr, size, free, live, obtained); heapOk
    }

    // The first loop of free: the free block after which bp belongs.
    method FindPlace(bp: int) returns (p: int, ghost t: nat)
      requires freep != 0 && Valid() && base < bp && forall k | 0 <= k < |free| :: free[k].addr != bp
      ensures Below(free, t, bp) && p == free[t].addr
    {
      t := BelowExists(free, |free|, bp);
      p := freep;
      ghost var k: nat := at;
      assert LinkAt(ptr, size, free, k);
      while !(bp > p && bp < ptr[p])
        invariant k < |free| && p == free[k].addr && LinkAt(ptr, size, free, k)
        decreases if k <= t then t - k else |free| - k + t
      {
        PlaceReached(base, free, t, bp, k);
        if p >= ptr[p] && (bp > p || bp < ptr[p]) {
          break;
        }
        p := ptr[p];
        k := NextIndex(free, k);
        assert LinkAt(ptr, size, free, k);
      }
      PlaceReached(base, free, t, bp, k);
    }

    // The pointer updates of free: bp goes in after p, merged with the block above and the block below.
    method Relink(p: int, bp: int)
      requires p in ptr && ptr[p] in ptr && p in size && bp in size && ptr[p] in size && p != bp
      modifies this`ptr, this`size, this`freep
      ensures ptr == FreedPtr(old(ptr), old(size), p, bp) && size == FreedSize(old(ptr), old(size), p, bp) && freep == p
    {
      var next := ptr[p];
      if bp + size[bp] == next {
        size := size[bp := size[bp] + size[next]];
        ptr := ptr[bp := ptr[next]];
      } else {
        ptr := ptr[bp := next];
      }
      if p + size[p] == bp {
        size := size[p := size[p] + size[bp]];
        ptr := ptr[p := ptr[bp]];
      } else {
        ptr := ptr[p := bp];
      }
      freep := p;
    }

    /**
      free: the block joins the free list; the list stays circular, sorted and
      coalesced, no unit is lost, and no other live block is written to.
     */
    method Free(ap: int) returns (ghost t: nat)
      requires freep != 0 && Valid() && ap - 1 in live
      modifies this
      ensures Valid() && freep != 0
      ensures live == old(live) - {ap - 1} && obtained == old(obtained)
      ensures Below(old(free), t, ap - 1) && free == Insert(old(free), t, Blk(ap - 1, old(live)[ap - 1]))
      ensures t < |old(free)| && freep == old(free)[t].addr
      ensures LiveKept(old(ptr), old(size), old(live), ptr, size, live)
    {
      var bp := ap - 1;
      assert LiveAt(base, size, free, live, bp);
      LiveNotFree(base, size, free, live, bp);
      var p;
      p, t := FindPlace(bp);
      BlockFreed(base, ptr, size, free, live, obtained, t, bp);
      Relink(p, bp);
      free, at, live := Insert(free, t, Blk(bp, live[bp])), t, live - {bp};
    }

    // The units morecore asks for.
    static function Request(nu: nat): (n: nat) {
      if nu < 4096 then 4096 else nu
    }

    // sbrk's answer: -1, or a region above base that overlaps nothing handed out or free.
    ghost predicate Grants(grant: int, n: nat)
      reads this
    {
      grant == -1 ||
      (&& base < grant && ApartFromAll(free, Blk(grant, n))
       && forall a {:trigger Apart(Blk(grant, n), Blk(a, live[a]))} | a in live ::
            Apart(Blk(grant, n), Blk(a, live[a])))
    }

    // A region granted by sbrk counts as handed out until free takes it.
    method AddGrant(grant: int, n: nat)
      requires freep != 0 && Valid() && grant != -1 && n > 0 && Grants(grant, n)
      modifies this`size, this`live, this`obtained
      ensures Valid() && grant !in old(live) && live == old(live)[grant := n] && obtained == old(obtained) + n
      ensures LiveKept(ptr, old(size), old(live), ptr, size, live)
    {
      GrantJoins(base, ptr, size, free, live, Blk(grant, n));
      GrantKept(base, ptr, size, free, live, Blk(grant, n));
      SumMapUpdate(live, grant, n);
      size := size[grant := n];
      live, obtained := live[grant := n], obtained + n;
    }

    /** morecore: the new units go onto the free list through free, where one block now has room for the request. */
    method Morecore(nu: nat, grant: int) returns (ok: bool, ghost big: nat)
      requires freep != 0 && Valid() && Grants(grant, Request(nu))
      modifies this
      ensures ok <==> grant != -1
      ensures Valid() && freep != 0 && live == old(live)
      ensures obtained == old(obtained) + if ok then Request(nu) else 0
      ensures ok ==> big < |free| && free[big].size >= nu
      ensures !ok ==> free == old(free) && freep == old(freep)
      ensures LiveKept(old(ptr), old(size), old(live), ptr, size, live)
    {
      big := 0;
      if grant == -1 {
        return false, 0;
      }
      var n := Request(nu);
      ghost var b := Blk(grant, n);
      AddGrant(grant, n);
      ghost var ptr1, size1, live1 := ptr, size, live;
      var t := Free(grant + 1);
      assert live == old(live);
      LiveKeptTrans(old(ptr), old(size), old(live), ptr1, size1, live1, ptr, size, live);
      big := InsertHas(old(free), t, b);
      return true, big;
    }

    // malloc when the k-th free block fits exactly: it is unlinked.
    method TakeWhole(prevp: int, p: int, ghost k: nat)
      requires freep != 0 && Valid() && 0 < k < |free| && prevp == free[k - 1].addr && p == free[k].addr
      modifies this
      ensures Valid() && freep == prevp && p !in old(live)
      ensures live == old(live)[p := old(free)[k].size] && obtained == old(obtained) && free == Remove(old(free), k)
      ensures LiveKept(old(ptr), old(size), old(live), ptr, size, live)
    {
      WholeTaken(base, ptr, size, free, live, obtained, k);
      ptr := ptr[prevp := ptr[p]];
      freep := prevp;
      live, free, at := live[p := free[k].size], Remove(free, k), k - 1;
    }

    // malloc when it is larger: the tail end is carved off and gets a header of its own.
    method TakeTail(prevp: int, p: int, nunits: nat, ghost k: nat) returns (h: int)
      requires freep != 0 && Valid() && 0 < k < |free| && prevp == free[k - 1].addr && p == free[k].addr
      requires 0 < nunits < free[k].size
      modifies this
      ensures Valid() && freep == prevp && h !in old(live)
      ensures live == old(live)[h := nunits] && obtained == old(obtained) && free == Shrink(old(free), k, nunits)
      ensures h + nunits == End(old(free)[k])
      ensures LiveKept(old(ptr), old(size), old(live), ptr, size, live)
    {
      TailTaken(base, ptr, size, free, live, obtained, k, nunits);
      size := size[p := size[p] - nunits];
      h := p + size[p];
      size := size[h := nunits];
      assert h == p + (free[k].size - nunits);
      freep := prevp;
      live, free, at := live[h := nunits], Shrink(free, k, nunits), k - 1;
    }

    // Whether the scan from freep's successor has already passed position j on its way to position k.
    static predicate Passed(f: nat, k: nat, j: nat) {
      if f < k then f < j < k else j > f || j < k
    }

    // The k-th free block is the first with room for n units, going round from the one after position f.
    static ghost predicate NextFit(fs: seq<Blk>, f: nat, k: nat, n: nat) {
      0 < k < |fs| && fs[k].size >= n && forall j: nat | j < |fs| && Passed(f, k, j) :: fs[j].size < n
    }

    // A client writes to a unit of a block it holds, behind the header.
    method ClientWrite(a: int, u: int, x: int, y: int)
      requires freep != 0 && Valid() && a in live && a < u < a + live[a]
      modifies this`ptr, this`size
      ensures Valid() && ptr == old(ptr)[u := x] && size == old(size)[u := y]
    {
      WriteInside(base, ptr, size, free, live, a, u, x, y);
      ptr, size := ptr[u := x], size[u := y];
    }

    // The least number of units, of 8 bytes each, that holds a header and nbytes.
    static function Nunits(nbytes: nat): (n: nat)
      ensures n >= 1 && 8 * (n - 2) < nbytes <= 8 * (n - 1)
    {
      (nbytes + 7) / 8 + 1
    }

    // The first malloc makes the degenerate list that holds only base.
    method Init()
      requires freep == 0 && Valid() && base > 0
      modifies this
      ensures Valid() && freep == base && free == [Blk(base, 0)] && live == map[] && obtained == 0
    {
      ptr, size, freep := ptr[base := base], size[base := 0], base;
      free, at := [Blk(base, 0)], 0;
      assert LinkAt(ptr, size, free, 0);
      assert UnitsTo(free, 0) == 0;
    }

    // One trip round the circle from freep's successor to freep, looking for room (next fit).
    method Scan(nunits: nat) returns (found: bool, prevp: int, p: int, ghost k: nat)
      requires freep != 0 && Valid() && nunits > 0
      ensures found ==> NextFit(free, at, k, nunits) && prevp == free[k - 1].addr && p == free[k].addr
      ensures !found ==> forall j: nat | j < |free| :: free[j].size < nunits
    {
      prevp, k := freep, NextIndex(free, at);
      assert LinkAt(ptr, size, free, at);
      p := ptr[prevp];
      while true
        invariant k < |free| && p == free[k].addr
        invariant prevp == free[if k == 0 then |free| - 1 else k - 1].addr
        invariant forall j: nat | j < |free| && Passed(at, k, j) :: free[j].size < nunits
        decreases if k <= at then at - k else |free| - k + at
      {
        assert LinkAt(ptr, size, free, k);
        if size[p] >= nunits {
          return true, prevp, p, k;
        }
        if p == freep {
          SameAddrSameBlock(base, free, k, at);
          return false, prevp, p, k;
        }
        prevp := p;
        p := ptr[p];
        k := NextIndex(free, k);
      }
    }

    // malloc's way out: takes nunits from the k-th free block, which has room.
    method Take(prevp: int, p: int, nunits: nat, ghost k: nat) returns (r: int)
      requires freep != 0 && Valid() && 0 < k < |free| && prevp == free[k - 1].addr && p == free[k].addr
      requires 0 < nunits <= free[k].size
      modifies this
      ensures Valid() && freep == prevp && r - 1 !in old(live)
      ensures live == old(live)[r - 1 := nunits] && obtained == old(obtained)
      ensures r - 1 + nunits == End(old(free)[k])
      ensures LiveKept(old(ptr), old(size), old(live), ptr, size, live)
    {
      assert LinkAt(ptr, size, free, k);
      if size[p] == nunits {
        TakeWhole(prevp, p, k);
        r := p + 1;
      } else {
        var h := TakeTail(prevp, p, nunits, k);
        r := h + 1;
      }
    }

    /**
      malloc.  A returned block is new, has room for nbytes after its header,
      and overlaps no other live block and nothing free.  The search calls
      morecore at most once, and only when no free block is large enough; it
      fails only when sbrk does, and then nothing has changed hands.  No block
      live before is written to.  Without morecore the block is the end of the
      first free block that fits, going round from the one after freep.
     */
    method Malloc(nbytes: nat, grant: int) returns (ok: bool, r: int, ghost calls: nat)
      requires Valid() && base > 0 && Grants(grant, Request(Nunits(nbytes)))
      modifies this
      ensures Valid() && freep != 0 && calls <= 1
      ensures calls == 1 ==> forall k | 0 <= k < |old(free)| :: old(free)[k].size < Nunits(nbytes)
      ensures !ok ==> calls == 1 && grant == -1 && r == 0 && live == old(live) && obtained == old(obtained)
      ensures ok ==> r - 1 !in old(live) && live == old(live)[r - 1 := Nunits(nbytes)]
      ensures ok && calls == 0 ==>
                exists k: nat :: NextFit(old(free), old(at), k, Nunits(nbytes))
                  && r - 1 + Nunits(nbytes) == End(old(free)[k]) && freep == old(free)[k - 1].addr
      ensures ok ==> obtained == old(obtained) + if calls == 1 then Request(Nunits(nbytes)) else 0
      ensures LiveKept(old(ptr), old(size), old(live), ptr, size, live)
    {
      var nunits := Nunits(nbytes);
      calls := 0;
      if freep == 0 {
        Init();
      }
      ghost var free0: seq<Blk>, at0: nat, big: nat := free, at, 0;
      while true
        invariant freep != 0 && Valid() && live == old(live) && calls <= 1
        invariant LiveKept(old(ptr), old(size), old(live), ptr, size, live)
        invariant obtained == old(obtained) + if calls == 1 then Request(nunits) else 0
        invariant calls == 0 ==> free == free0 && at == at0 && Grants(grant, Request(nunits))
        invariant calls == 1 ==> big < |free| && free[big].size >= nunits
        invariant calls == 1 ==> forall j: nat | j < |free0| :: free0[j].size < nunits
        decreases 1 - calls
      {
        var found, prevp, p, k := Scan(nunits);
        ghost var ptr1, size1, live1 := ptr, size, live;
        if found {
          r := Take(prevp, p, nunits, k);
          LiveKeptTrans(old(ptr), old(size), old(live), ptr1, size1, live1, ptr, size, live);
          return true, r, calls;
        }
        var more;
        more, big := Morecore(nunits, grant);
        LiveKeptTrans(old(ptr), old(size), old(live), ptr1, size1, live1, ptr, size, live);
        calls := calls + 1;
        if !more {
          return false, 0, calls;
        }
      }
    }
  }

  lemma SameAddrSameBlock(base: int, fs: seq<Blk>, j: nat, k: nat)
    requires ListOk(base, fs) && j < |fs| && k < |fs| && fs[j].addr == fs[k].addr
    ensures j == k
  {
  }

  lemma GrantJoins(base: int, ptr: map<int, int>, size: map<int, int>, fs: seq<Blk>, live: map<int, nat>, b: Blk)
    requires ListOk(base, fs) && Linked(ptr, size, fs) && LiveOk(base, size, fs, live) && base < b.addr && b.size > 0
    requires ApartFromAll(fs, b)
    requires forall a {:trigger Apart(b, Blk(a, live[a]))} | a in live :: Apart(b, Blk(a, live[a]))
    ensures b.addr !in live
    ensures Linked(ptr, size[b.addr := b.size], fs) && LiveOk(base, size[b.addr := b.size], fs, live[b.addr := b.size])
  {
    var size', live' := size[b.addr := b.size], live[b.addr := b.size];
    forall a | a in live
      ensures a != b.addr
    {
      assert LiveAt(base, size, fs, live, a) && Apart(b, Blk(a, live[a]));
    }
    forall k: nat | k < |fs|
      ensures LinkAt(ptr, size', fs, k)
    {
      assert LinkAt(ptr, size, fs, k) && Apart(fs[k], b);
    }
    forall a | a in live'
      ensures LiveAt(base, size', fs, live', a)
    {
      assert a != b.addr ==> LiveAt(base, size, fs, live, a);
    }
    forall a, c | a in live' && c in live' && a != c
      ensures Apart(Blk(a, live'[a]), Blk(c, live'[c]))
    {
      assert a in live ==> Apart(b, Blk(a, live[a]));
      assert c in live ==> Apart(b, Blk(c, live[c]));
    }
  }

  lemma GrantKept(base: int, ptr: map<int, int>, size: map<int, int>, fs: seq<Blk>, live: map<int, nat>, b: Blk)
    requires LiveOk(base, size, fs, live) && b.size > 0 && b.addr !in live
    requires forall a {:trigger Apart(b, Blk(a, live[a]))} | a in live :: Apart(b, Blk(a, live[a]))
    ensures LiveKept(ptr, size, live, ptr, size[b.addr := b.size], live[b.addr := b.size])
  {
    var size' := size[b.addr := b.size];
    forall a | a in live
      ensures Kept(ptr, size, ptr, size', a, live[a])
    {
      assert Apart(b, Blk(a, live[a]));
      WritesOutside(ptr, size, ptr, size', a, live[a], b.addr, b.addr);
    }
  }

  // A write inside a live block touches no header.
  lemma WriteInside(base: int, ptr: map<int, int>, size: map<int, int>, fs: seq<Blk>, live: map<int, nat>, a: int,
                    u: int, x: int, y: int)
    requires ListOk(base, fs) && Linked(ptr, size, fs) && LiveOk(base, size, fs, live)
    requires a in live && a < u < a + live[a]
    ensures Linked(ptr[u := x], size[u := y], fs) && LiveOk(base, size[u := y], fs, live)
  {
    var ptr', size' := ptr[u := x], size[u := y];
    assert LiveAt(base, size, fs, live, a);
    forall k: nat | k < |fs|
      ensures LinkAt(ptr', size', fs, k)
    {
      assert LinkAt(ptr, size, fs, k);
      HeaderOutside(base, size, fs, live, k, a);
    }
    forall c | c in live
      ensures LiveAt(base, size', fs, live, c)
    {
      assert LiveAt(base, size, fs, live, c);
      assert c != a ==> Apart(Blk(c, live[c]), Blk(a, live[a]));
    }
  }

  // Going round the circle, the search stops at t and nowhere else.
  lemma PlaceReached(base: int, fs: seq<Blk>, t: nat, bp: int, k: nat)
    requires ListOk(base, fs) && Below(fs, t, bp) && k < |fs|
    ensures var p, n := fs[k].addr, fs[NextIndex(fs, k)].addr;
            ((bp > p && bp < n) || (p >= n && (bp > p || bp < n))) <==> k == t
  {
    if k < t {
      assert End(fs[k]) < fs[t].addr && (k + 1 < t ==> End(fs[k + 1]) < fs[t].addr);
    } else if k > t {
      assert End(fs[t]) < fs[k].addr && (t + 1 < k ==> End(fs[t + 1]) < fs[k].addr);
    }
    assert k > 0 ==> End(fs[0]) < fs[k].addr;
    assert k + 1 < |fs| ==> End(fs[k]) < fs[k + 1].addr;
  }

  lemma LiveNotFree(base: int, size: map<int, int>, fs: seq<Blk>, live: map<int, nat>, a: int)
    requires ListOk(base, fs) && a in live && LiveAt(base, size, fs, live, a)
    ensures forall k | 0 <= k < |fs| :: fs[k].addr != a
  {
    forall k | 0 <= k < |fs|
      ensures fs[k].addr != a
    {
      assert Apart(fs[k], Blk(a, live[a]));
    }
  }
}
