/**
  The free list of the user-level allocator, as a sequence of blocks in
  address order.  Addresses and sizes count Header units of eight bytes.
 */
module HeapLists {

  datatype Blk = Blk(addr: int, size: nat)

  function End(b: Blk): (e: int) {
    b.addr + b.size
  }

  // Sorted by address, with a gap between any two blocks: no two could be merged.
  ghost predicate Coalesced(fs: seq<Blk>) {
    forall j, k | 0 <= j < k < |fs| :: End(fs[j]) < fs[k].addr
  }

  ghost predicate Apart(a: Blk, b: Blk) {
    End(a) <= b.addr || End(b) <= a.addr
  }

  ghost predicate ApartFromAll(fs: seq<Blk>, b: Blk) {
    forall k | 0 <= k < |fs| :: Apart(fs[k], b)
  }

  // Units in the first n blocks.
  ghost function UnitsTo(fs: seq<Blk>, n: nat): nat
    requires n <= |fs|
  {
    if n == 0 then 0 else UnitsTo(fs, n - 1) + fs[n - 1].size
  }

  ghost function Units(fs: seq<Blk>): nat {
    UnitsTo(fs, |fs|)
  }

  lemma {:induction false} UnitsToAppend(a: seq<Blk>, b: seq<Blk>, n: nat)
    requires n <= |b|
    ensures UnitsTo(a + b, |a| + n) == UnitsTo(a, |a|) + UnitsTo(b, n)
  {
    if n == 0 {
      UnitsToSame(a + b, a, |a|);
    } else {
      UnitsToAppend(a, b, n - 1);
    }
  }

  lemma {:induction false} UnitsToSame(a: seq<Blk>, b: seq<Blk>, n: nat)
    requires n <= |a| && n <= |b| && a[..n] == b[..n]
    ensures UnitsTo(a, n) == UnitsTo(b, n)
  {
    if n > 0 {
      assert a[n - 1] == a[..n][n - 1] == b[..n][n - 1] == b[n - 1];
      assert a[..n - 1] == a[..n][..n - 1] == b[..n][..n - 1] == b[..n - 1];
      UnitsToSame(a, b, n - 1);
    }
  }

  lemma UnitsAppend(a: seq<Blk>, b: seq<Blk>)
    ensures Units(a + b) == Units(a) + Units(b)
  {
    UnitsToAppend(a, b, |b|);
  }

  lemma UnitsMiddle(a: seq<Blk>, x: Blk, c: seq<Blk>)
    ensures Units(a + [x] + c) == Units(a) + x.size + Units(c)
  {
    UnitsAppend(a + [x], c);
    UnitsAppend(a, [x]);
    assert UnitsTo([x], 0) == 0;
  }

  lemma UnitsSplit(fs: seq<Blk>, k: nat)
    requires k < |fs|
    ensures Units(fs) == Units(fs[..k]) + fs[k].size + Units(fs[k + 1..])
  {
    assert fs == fs[..k] + [fs[k]] + fs[k + 1..];
    UnitsMiddle(fs[..k], fs[k], fs[k + 1..]);
  }

  // t is the last free block below address a; the first one, `base`, is below every address.
  predicate Below(fs: seq<Blk>, t: nat, a: int) {
    t < |fs| && fs[t].addr < a && (t + 1 < |fs| ==> a < fs[t + 1].addr)
  }

  lemma {:induction false} BelowExists(fs: seq<Blk>, n: nat, a: int) returns (t: nat)
    requires 0 < n <= |fs| && fs[0].addr < a && (forall k | 0 <= k < |fs| :: fs[k].addr != a)
    requires n < |fs| ==> a < fs[n].addr
    ensures Below(fs, t, a)
  {
    if fs[n - 1].addr < a {
      t := n - 1;
    } else {
      t := BelowExists(fs, n - 1, a);
    }
  }

  // The list is circular.
  function NextIndex(fs: seq<Blk>, k: nat): (n: nat) {
    if k + 1 < |fs| then k + 1 else 0
  }

  /*** free ***/

  // Block b with the block just above it, if they touch, and the list above that.
  function Above(fs: seq<Blk>, t: nat, b: Blk): (r: (Blk, seq<Blk>))
    requires t < |fs|
  {
    if t + 1 < |fs| && End(b) == fs[t + 1].addr then (Blk(b.addr, b.size + fs[t + 1].size), fs[t + 2..])
    else (b, fs[t + 1..])
  }

  // The list after block b, which lies above fs[t] and below fs[t + 1], is put back and merged with its neighbours.
  function Insert(fs: seq<Blk>, t: nat, b: Blk): (r: seq<Blk>)
    requires t < |fs|
  {
    var (b', rest) := Above(fs, t, b);
    if End(fs[t]) == b.addr then fs[..t] + [Blk(fs[t].addr, fs[t].size + b'.size)] + rest
    else fs[..t + 1] + [b'] + rest
  }

  // How many places the blocks above b move down the list.
  function Shift(fs: seq<Blk>, t: nat, b: Blk): (d: int)
    requires t < |fs|
  {
    (if t + 1 < |fs| && End(b) == fs[t + 1].addr then 1 else 0) - (if End(fs[t]) == b.addr then 0 else 1)
  }

  lemma InsertAt(fs: seq<Blk>, t: nat, b: Blk, k: nat)
    requires t < |fs| && k < |Insert(fs, t, b)|
    ensures |Insert(fs, t, b)| == |fs| - Shift(fs, t, b)
    ensures k < t ==> Insert(fs, t, b)[k] == fs[k]
    ensures k == t && End(fs[t]) == b.addr ==>
              Insert(fs, t, b)[k] == Blk(fs[t].addr, fs[t].size + Above(fs, t, b).0.size)
    ensures k == t && End(fs[t]) != b.addr ==> Insert(fs, t, b)[k] == fs[t]
    ensures k == t + 1 && End(fs[t]) != b.addr ==> Insert(fs, t, b)[k] == Above(fs, t, b).0
    ensures k > t && (k > t + 1 || End(fs[t]) == b.addr) ==>
              t < k + Shift(fs, t, b) < |fs| && Insert(fs, t, b)[k] == fs[k + Shift(fs, t, b)]
  {
  }

  // Above b, neighbours stay neighbours.
  lemma InsertNext(fs: seq<Blk>, t: nat, b: Blk, k: nat)
    requires t < |fs| && t < k < |Insert(fs, t, b)| && (k > t + 1 || End(fs[t]) == b.addr)
    ensures var q := k + Shift(fs, t, b);
            && t < q < |fs| && Insert(fs, t, b)[k] == fs[q]
            && Insert(fs, t, b)[NextIndex(Insert(fs, t, b), k)].addr == fs[NextIndex(fs, q)].addr
  {
    InsertAt(fs, t, b, k);
    InsertAt(fs, t, b, NextIndex(Insert(fs, t, b), k));
  }

  /** Putting a block back keeps the list sorted, disjoint and fully coalesced, and keeps count of every unit. */
  lemma InsertCoalesced(fs: seq<Blk>, t: nat, b: Blk)
    requires Coalesced(fs) && Below(fs, t, b.addr) && b.size > 0 && ApartFromAll(fs, b)
    ensures Coalesced(Insert(fs, t, b))
  {
    var r := Insert(fs, t, b);
    assert Apart(fs[t], b) && (t + 1 < |fs| ==> Apart(fs[t + 1], b));
    var (b', rest) := Above(fs, t, b);
    var head := if End(fs[t]) == b.addr then fs[..t] else fs[..t + 1];
    var mid := r[|head|];
    assert r == head + [mid] + rest;
    JoinCoalesced(head, mid, rest);
  }

  lemma JoinCoalesced(a: seq<Blk>, x: Blk, c: seq<Blk>)
    requires Coalesced(a) && Coalesced(c)
    requires forall j | 0 <= j < |a| :: End(a[j]) < x.addr
    requires forall k | 0 <= k < |c| :: End(x) < c[k].addr
    ensures Coalesced(a + [x] + c)
  {
  }

  lemma AboveUnits(fs: seq<Blk>, t: nat, b: Blk)
    requires t < |fs|
    ensures var (b', rest) := Above(fs, t, b); Units(fs[t + 1..]) + b.size == Units(rest) + b'.size
  {
    if t + 1 < |fs| && End(b) == fs[t + 1].addr {
      UnitsMiddle([], fs[t + 1], fs[t + 2..]);
      assert fs[t + 1..] == [] + [fs[t + 1]] + fs[t + 2..];
    }
  }

  lemma UnitsTake(fs: seq<Blk>, t: nat)
    requires t < |fs|
    ensures Units(fs[..t + 1]) == Units(fs[..t]) + fs[t].size
  {
    assert fs[..t + 1] == fs[..t] + [fs[t]] + [];
    UnitsMiddle(fs[..t], fs[t], []);
  }

  lemma InsertUnits(fs: seq<Blk>, t: nat, b: Blk)
    requires t < |fs|
    ensures Units(Insert(fs, t, b)) == Units(fs) + b.size
  {
    var (b', rest) := Above(fs, t, b);
    AboveUnits(fs, t, b);
    UnitsSplit(fs, t);
    if End(fs[t]) == b.addr {
      UnitsMiddle(fs[..t], Blk(fs[t].addr, fs[t].size + b'.size), rest);
    } else {
      UnitsTake(fs, t);
      UnitsMiddle(fs[..t + 1], b', rest);
    }
  }

  // The block put back, or the one it was merged into, is on the list.
  lemma InsertHas(fs: seq<Blk>, t: nat, b: Blk) returns (k: nat)
    requires t < |fs|
    ensures k < |Insert(fs, t, b)| && Insert(fs, t, b)[k].size >= b.size
  {
    k := if End(fs[t]) == b.addr then t else t + 1;
  }

  // What stays clear of the list and of the block put back stays clear of the new list.
  lemma InsertApart(fs: seq<Blk>, t: nat, b: Blk, x: Blk)
    requires t < |fs| && ApartFromAll(fs, x) && Apart(b, x) && x.size > 0
    requires (forall k | 0 < k < |fs| :: fs[k].size > 0) && b.size > 0
    ensures ApartFromAll(Insert(fs, t, b), x)
  {
    var r := Insert(fs, t, b);
    assert Apart(fs[t], x);
    if t + 1 < |fs| {
      assert Apart(fs[t + 1], x);
    }
    forall k | 0 <= k < |r|
      ensures Apart(r[k], x)
    {
    }
  }

  /*** malloc ***/

  function Remove(fs: seq<Blk>, k: nat): (r: seq<Blk>)
    requires k < |fs|
  {
    fs[..k] + fs[k + 1..]
  }

  // The predecessor of the removed block is linked to its successor; other neighbours stay.
  lemma RemoveNext(fs: seq<Blk>, k: nat, i: nat)
    requires 0 < k < |fs| && i < |fs| - 1
    ensures var q := if i < k then i else i + 1;
            && q < |fs| && Remove(fs, k)[i] == fs[q]
            && Remove(fs, k)[NextIndex(Remove(fs, k), i)]
               == fs[if q == k - 1 then NextIndex(fs, k) else NextIndex(fs, q)]
  {
  }

  lemma RemoveCoalesced(fs: seq<Blk>, k: nat)
    requires Coalesced(fs) && k < |fs|
    ensures Coalesced(Remove(fs, k))
  {
  }

  function Shrink(fs: seq<Blk>, k: nat, n: nat): (r: seq<Blk>)
    requires k < |fs| && n <= fs[k].size
  {
    fs[k := Blk(fs[k].addr, fs[k].size - n)]
  }

  lemma RemoveUnits(fs: seq<Blk>, k: nat)
    requires k < |fs|
    ensures Units(Remove(fs, k)) + fs[k].size == Units(fs)
  {
    UnitsSplit(fs, k);
    UnitsAppend(fs[..k], fs[k + 1..]);
  }

  lemma ShrinkUnits(fs: seq<Blk>, k: nat, n: nat)
    requires k < |fs| && n <= fs[k].size
    ensures Units(Shrink(fs, k, n)) + n == Units(fs)
  {
    UnitsSplit(fs, k);
    UnitsSplit(Shrink(fs, k, n), k);
    assert Shrink(fs, k, n)[..k] == fs[..k] && Shrink(fs, k, n)[k + 1..] == fs[k + 1..];
  }
}
