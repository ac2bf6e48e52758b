/** How many free blocks a writei call needs, and how many there are. */
module WriteNeed {
  import opened Blocks
  import opened BlockMap
  import opened Sums
  import opened WriteCost

  /*** Free blocks ***/

  // Data blocks that nobody owns.
  ghost function Room(sb: Superblock, owned: set<int>): (n: int) {
    sb.size - sb.datastart - |owned|
  }

  ghost function Range(lo: int, hi: int): (r: set<int>)
    ensures forall b :: b in r <==> lo <= b < hi
    decreases hi - lo
  {
    if hi <= lo then {} else Range(lo, hi - 1) + {hi - 1}
  }

  lemma {:induction false} RangeSize(lo: int, hi: int)
    requires lo <= hi
    ensures |Range(lo, hi)| == hi - lo
    decreases hi - lo
  {
    if lo < hi {
      RangeSize(lo, hi - 1);
      WithSize(Range(lo, hi - 1), hi - 1);
    }
  }

  lemma RoomIs(sb: Superblock, owned: set<int>)
    requires sb.Valid() && forall b | b in owned :: sb.datastart <= b < sb.size
    ensures Room(sb, owned) >= 0
    ensures Room(sb, owned) == 0 <==> forall b | sb.datastart <= b < sb.size :: b in owned
  {
    var all := Range(sb.datastart, sb.size);
    RangeSize(sb.datastart, sb.size);
    SubsetSize(owned, all);
    assert all == owned + (all - owned);
    if forall b | sb.datastart <= b < sb.size :: b in owned {
      assert all == owned;
    } else {
      var b :| sb.datastart <= b < sb.size && b !in owned;
      assert b in all - owned;
    }
  }

  lemma OwnedInside(sb: Superblock, inodes: Inodes, blocks: Store, owner: Owner)
    requires Owned(sb, inodes, blocks, owner)
    ensures forall b | b in owner.Keys :: sb.datastart <= b < sb.size
  {
    forall b | b in owner.Keys
      ensures sb.datastart <= b < sb.size
    {
      assert OwnedBlock(sb, inodes, blocks, owner, b);
    }
  }

  lemma RoomTaken(sb: Superblock, owned: set<int>, b: int)
    requires b !in owned
    ensures Room(sb, owned + {b}) == Room(sb, owned) - 1
  {
    WithSize(owned, b);
  }

  /*** Needed blocks ***/

  // Blocks that bmap allocates for file block bn.
  function NeedOne(ip: Inode, blocks: Store, bn: nat): (n: nat)
    requires bn < MAXFILE && |ip.addrs| == NDIRECT + 1
  {
    if Addr(ip, blocks, bn) != 0 then 0 else if NDIRECT <= bn && Ind(ip) == 0 then 2 else 1
  }

  // File blocks of lo..hi without a disk block.
  function Unmapped(ip: Inode, blocks: Store, lo: nat, hi: nat): (n: nat)
    requires hi <= MAXFILE && |ip.addrs| == NDIRECT + 1
  {
    if hi <= lo then 0 else Unmapped(ip, blocks, lo, hi - 1) + if Addr(ip, blocks, hi - 1) == 0 then 1 else 0
  }

  // Blocks that a write of file blocks lo..hi allocates: one for each of those, and an indirect block if it is missing.
  function Need(ip: Inode, blocks: Store, lo: nat, hi: nat): (n: nat)
    requires hi <= MAXFILE && |ip.addrs| == NDIRECT + 1
  {
    Unmapped(ip, blocks, lo, hi) + if NewEntry(ip, blocks, lo, hi) && Ind(ip) == 0 then 1 else 0
  }

  // At most one block was added.
  ghost predicate AtMostOne(owned: set<int>, owned': set<int>) {
    owned' == owned || exists b :: b !in owned && owned' == owned + {b}
  }

  // bmap that stops on a full disk lacked a block.
  lemma Short(sb: Superblock, owned: set<int>, owned': set<int>, need: nat)
    requires sb.Valid() && (forall b | b in owned' :: sb.datastart <= b < sb.size)
    requires forall b | sb.datastart <= b < sb.size :: b in owned'
    requires need >= 1 && (owned' == owned || (need == 2 && AtMostOne(owned, owned')))
    ensures Room(sb, owned) < need
  {
    RoomIs(sb, owned');
    if owned' != owned {
      var b :| b !in owned && owned' == owned + {b};
      RoomTaken(sb, owned, b);
    }
  }

  // bmap that does not stop takes what it needs.
  lemma Takes(sb: Superblock, ip: Inode, blocks: Store, owned: set<int>, ip': Inode, blocks': Store, bn: nat, a: int)
    requires bn < MAXFILE && Bmapped(ip, blocks, ip', blocks', bn, a) && Allots(sb, ip, blocks, owned, ip', bn, a)
    ensures Room(sb, owned + MapAdds(ip, blocks, ip', bn, a)) == Room(sb, owned) - NeedOne(ip, blocks, bn)
  {
    if Addr(ip, blocks, bn) != 0 {
      assert owned + {} == owned;
    } else if Ind(ip') == Ind(ip) {
      RoomTaken(sb, owned, a);
    } else {
      RoomTaken(sb, owned, Ind(ip'));
      RoomTaken(sb, owned + {Ind(ip')}, a);
      assert owned + {a, Ind(ip')} == owned + {Ind(ip')} + {a};
    }
  }

  lemma Enough(sb: Superblock, ip: Inode, blocks: Store, owned: set<int>, ip': Inode, blocks': Store, owned': set<int>,
               bn: nat, a: int)
    requires bn < MAXFILE && Bmapped(ip, blocks, ip', blocks', bn, a) && Allots(sb, ip, blocks, owned, ip', bn, a)
    requires sb.Valid() && owned' == owned + MapAdds(ip, blocks, ip', bn, a)
    requires forall b | b in owned' :: sb.datastart <= b < sb.size
    ensures Room(sb, owned) >= NeedOne(ip, blocks, bn)
  {
    RoomIs(sb, owned');
    Takes(sb, ip, blocks, owned, ip', blocks', bn, a);
  }

  // There are as many free blocks as a write of n bytes at off needs.
  ghost predicate Fits(sb: Superblock, s: Snap, off: nat, n: nat)
    requires off + n <= MAXBYTES && |s.ip.addrs| == NDIRECT + 1
  {
    Need(s.ip, s.blocks, FirstBlock(off), EndBlock(off, n)) <= Room(sb, s.owned)
  }

  lemma {:induction false} NeedGrows(ip: Inode, blocks: Store, lo: nat, a: nat, b: nat)
    requires a <= b <= MAXFILE && |ip.addrs| == NDIRECT + 1
    ensures Need(ip, blocks, lo, a) <= Need(ip, blocks, lo, b)
  {
    if a < b {
      NeedGrows(ip, blocks, lo, a, b - 1);
    }
  }

  // After file blocks lo..hi have been written, bmap of the next one needs what is left of the account.
  lemma NeedNext(sb: Superblock, s0: Snap, s: Snap, lo: nat, hi: nat)
    requires Accounted(sb, s0.ip, s0.blocks, s.ip, s.blocks, s0.owned, s.owned, s0.logged, s.logged, lo, hi)
    requires hi < MAXFILE
    ensures NeedOne(s.ip, s.blocks, hi) == Need(s0.ip, s0.blocks, lo, hi + 1) - Need(s0.ip, s0.blocks, lo, hi)
  {
    assert Addr(s.ip, s.blocks, hi) == Addr(s0.ip, s0.blocks, hi);
  }

  // A round takes exactly the blocks it needs.
  lemma RoundTakes(sb: Superblock, s: Snap, s': Snap, bn: nat, a: int)
    requires Round(sb, s, s', bn, a)
    ensures |s'.ip.addrs| == |s.ip.addrs| == NDIRECT + 1
    ensures Room(sb, s'.owned) == Room(sb, s.owned) - NeedOne(s.ip, s.blocks, bn)
  {
    Takes(sb, s.ip, s.blocks, s.owned, s'.ip, s'.blocks, bn, a);
  }

  lemma RoundTakesAt(sb: Superblock, snaps: seq<Snap>, addrs: seq<int>, lo: nat, k: nat)
    requires Rounds(sb, snaps, addrs, lo) && k < |addrs|
    requires lo + |addrs| <= MAXFILE && |snaps[0].ip.addrs| == NDIRECT + 1
    ensures Room(sb, snaps[k + 1].owned) - Room(sb, snaps[k].owned)
            == Need(snaps[0].ip, snaps[0].blocks, lo, lo + k) - Need(snaps[0].ip, snaps[0].blocks, lo, lo + k + 1)
  {
    assert RoundAt(sb, snaps, addrs, lo, k);
    RoundTakes(sb, snaps[k], snaps[k + 1], lo + k, addrs[k]);
    NeedAt(sb, snaps, addrs, lo, k);
  }

  lemma NeedAt(sb: Superblock, snaps: seq<Snap>, addrs: seq<int>, lo: nat, k: nat)
    requires Rounds(sb, snaps, addrs, lo) && k < |addrs| && |snaps[k].ip.addrs| == NDIRECT + 1
    requires lo + |addrs| <= MAXFILE && |snaps[0].ip.addrs| == NDIRECT + 1
    ensures NeedOne(snaps[k].ip, snaps[k].blocks, lo + k)
            == Need(snaps[0].ip, snaps[0].blocks, lo, lo + k + 1) - Need(snaps[0].ip, snaps[0].blocks, lo, lo + k)
  {
    RoundsAccount(sb, snaps, addrs, lo, k);
    NeedNext(sb, snaps[0], snaps[k], lo, lo + k);
  }

  // Rounds take exactly what they need together.
  lemma {:induction false} RoundsTake(sb: Superblock, snaps: seq<Snap>, addrs: seq<int>, lo: nat, k: nat)
    requires Rounds(sb, snaps, addrs, lo) && k <= |addrs|
    requires lo + |addrs| <= MAXFILE && |snaps[0].ip.addrs| == NDIRECT + 1
    ensures Room(sb, snaps[k].owned) == Room(sb, snaps[0].owned) - Need(snaps[0].ip, snaps[0].blocks, lo, lo + k)
  {
    if k > 0 {
      RoundsTake(sb, snaps, addrs, lo, k - 1);
      RoundTakesAt(sb, snaps, addrs, lo, k - 1);
    }
  }

  lemma LoopTakes(sb: Superblock, s0: Snap, s: Snap, lo: nat, hi: nat)
    requires LoopWrote(sb, s0, s, lo, hi) && hi <= MAXFILE && |s0.ip.addrs| == NDIRECT + 1
    ensures Room(sb, s.owned) == Room(sb, s0.owned) - Need(s0.ip, s0.blocks, lo, hi)
  {
    var snaps, addrs :| Leads(sb, s0, s, lo, hi, snaps, addrs);
    RoundsTake(sb, snaps, addrs, lo, |addrs|);
  }

  // The loop ends: there was room.
  lemma LoopHas(sb: Superblock, s0: Snap, s: Snap, off: nat, n: nat)
    requires off + n <= MAXBYTES && |s0.ip.addrs| == NDIRECT + 1
    requires LoopWrote(sb, s0, s, FirstBlock(off), EndBlock(off, n))
    requires sb.Valid() && forall b | b in s.owned :: sb.datastart <= b < sb.size
    ensures Fits(sb, s0, off, n)
  {
    LoopTakes(sb, s0, s, FirstBlock(off), EndBlock(off, n));
    RoomIs(sb, s.owned);
  }

  lemma LoopNext(sb: Superblock, s0: Snap, s: Snap, lo: nat, hi: nat)
    requires LoopWrote(sb, s0, s, lo, hi) && hi < MAXFILE && |s0.ip.addrs| == |s.ip.addrs| == NDIRECT + 1
    ensures NeedOne(s.ip, s.blocks, hi) == Need(s0.ip, s0.blocks, lo, hi + 1) - Need(s0.ip, s0.blocks, lo, hi)
  {
    LoopAccount(sb, s0, s, lo, hi);
    NeedNext(sb, s0, s, lo, hi);
  }

  // The round for file block hi cannot be done: there was not.
  lemma LoopLacks(sb: Superblock, s0: Snap, s: Snap, off: nat, n: nat, hi: nat)
    requires off + n <= MAXBYTES && hi < EndBlock(off, n) && |s0.ip.addrs| == |s.ip.addrs| == NDIRECT + 1
    requires LoopWrote(sb, s0, s, FirstBlock(off), hi) && Room(sb, s.owned) < NeedOne(s.ip, s.blocks, hi)
    ensures !Fits(sb, s0, off, n)
  {
    assert EndBlock(off, n) <= MAXFILE;
    LoopTakes(sb, s0, s, FirstBlock(off), hi);
    LoopNext(sb, s0, s, FirstBlock(off), hi);
    NeedGrows(s0.ip, s0.blocks, FirstBlock(off), hi + 1, EndBlock(off, n));
  }

  lemma {:induction false} AllMapped(ip: Inode, blocks: Store, lo: nat, hi: nat)
    requires |ip.addrs| == NDIRECT + 1 && hi <= MAXFILE
    requires forall x: nat | lo <= x < hi :: Addr(ip, blocks, x) != 0
    ensures Need(ip, blocks, lo, hi) == 0 && !NewEntry(ip, blocks, lo, hi)
  {
    if lo < hi {
      AllMapped(ip, blocks, lo, hi - 1);
    }
  }

  /** A write within the size of a file without holes needs no block. */
  lemma WithinNeedsNone(ip: Inode, blocks: Store, off: nat, n: nat)
    requires |ip.addrs| == NDIRECT + 1 && NoHoles(ip, blocks) && off + n <= ip.size <= MAXBYTES
    ensures Need(ip, blocks, FirstBlock(off), EndBlock(off, n)) == 0
  {
    var lo, hi := FirstBlock(off), EndBlock(off, n);
    forall x: nat | lo <= x < hi
      ensures Addr(ip, blocks, x) != 0
    {
      assert x * 512 < ip.size;
    }
    AllMapped(ip, blocks, lo, hi);
  }

  lemma WithinFits(sb: Superblock, s: Snap, off: nat, n: nat)
    requires |s.ip.addrs| == NDIRECT + 1 && NoHoles(s.ip, s.blocks) && off + n <= s.ip.size <= MAXBYTES
    requires sb.Valid() && forall b | b in s.owned :: sb.datastart <= b < sb.size
    ensures Fits(sb, s, off, n)
  {
    WithinNeedsNone(s.ip, s.blocks, off, n);
    RoomIs(sb, s.owned);
  }

  /*** Several writes in a row ***/

  // The inode ip is ip0 after file blocks lo..hi have been mapped.
  ghost predicate Through(ip0: Inode, blocks0: Store, ip: Inode, blocks: Store, lo: nat, hi: nat) {
    && |ip0.addrs| == |ip.addrs| == NDIRECT + 1 && lo <= hi <= MAXFILE
    && (forall x: nat | lo <= x < hi :: Addr(ip, blocks, x) != 0)
    && (forall x: nat | x < MAXFILE && !(lo <= x < hi) :: Addr(ip, blocks, x) == Addr(ip0, blocks0, x))
    && (Ind(ip) == 0 <==> Ind(ip0) == 0 && !NewEntry(ip0, blocks0, lo, hi))
  }

  lemma {:induction false} RoundsMap(sb: Superblock, snaps: seq<Snap>, addrs: seq<int>, lo: nat, k: nat)
    requires Rounds(sb, snaps, addrs, lo) && k <= |addrs|
    requires lo + |addrs| <= MAXFILE && |snaps[0].ip.addrs| == NDIRECT + 1
    ensures |snaps[k].ip.addrs| == NDIRECT + 1
    ensures forall x: nat | lo <= x < lo + k :: Addr(snaps[k].ip, snaps[k].blocks, x) != 0
  {
    if k > 0 {
      RoundsMap(sb, snaps, addrs, lo, k - 1);
      assert RoundAt(sb, snaps, addrs, lo, k - 1);
      forall x: nat | lo <= x < lo + k - 1
        ensures Addr(snaps[k].ip, snaps[k].blocks, x) == Addr(snaps[k - 1].ip, snaps[k - 1].blocks, x)
      {
        assert DataSlot(x) != NDIRECT && DataSlot(x) != DataSlot(lo + k - 1);
      }
    }
  }

  lemma LoopThrough(sb: Superblock, s0: Snap, s: Snap, lo: nat, hi: nat)
    requires LoopWrote(sb, s0, s, lo, hi) && hi <= MAXFILE && |s0.ip.addrs| == NDIRECT + 1
    ensures Through(s0.ip, s0.blocks, s.ip, s.blocks, lo, hi)
  {
    LoopAccount(sb, s0, s, lo, hi);
    var snaps, addrs :| Leads(sb, s0, s, lo, hi, snaps, addrs);
    RoundsMap(sb, snaps, addrs, lo, |addrs|);
  }

  // What is left to map behind hi, in terms of the beginning.
  lemma {:induction false} RestOf(ip0: Inode, blocks0: Store, ip: Inode, blocks: Store, lo: nat, hi: nat, l1: nat,
                                  h1: nat)
    requires Through(ip0, blocks0, ip, blocks, lo, hi) && lo <= l1 <= hi <= h1 <= MAXFILE
    ensures Unmapped(ip, blocks, l1, h1) == Unmapped(ip0, blocks0, lo, h1) - Unmapped(ip0, blocks0, lo, hi)
    ensures NewEntry(ip0, blocks0, lo, h1) <==> NewEntry(ip0, blocks0, lo, hi) || NewEntry(ip, blocks, l1, h1)
    decreases h1
  {
    if h1 == hi {
      AllMapped(ip, blocks, l1, h1);
    } else {
      RestOf(ip0, blocks0, ip, blocks, lo, hi, l1, h1 - 1);
      assert Addr(ip, blocks, h1 - 1) == Addr(ip0, blocks0, h1 - 1);
    }
  }

  lemma NeedRest(ip0: Inode, blocks0: Store, ip: Inode, blocks: Store, lo: nat, hi: nat, l1: nat, h1: nat)
    requires Through(ip0, blocks0, ip, blocks, lo, hi) && lo <= l1 <= hi <= h1 <= MAXFILE
    ensures Need(ip, blocks, l1, h1) == Need(ip0, blocks0, lo, h1) - Need(ip0, blocks0, lo, hi)
  {
    RestOf(ip0, blocks0, ip, blocks, lo, hi, l1, h1);
  }

  lemma ThroughTrans(ip0: Inode, blocks0: Store, ip1: Inode, blocks1: Store, ip2: Inode, blocks2: Store,
                     lo: nat, hi: nat, l1: nat, h1: nat)
    requires Through(ip0, blocks0, ip1, blocks1, lo, hi) && Through(ip1, blocks1, ip2, blocks2, l1, h1)
    requires lo <= l1 <= hi <= h1
    ensures Through(ip0, blocks0, ip2, blocks2, lo, h1)
  {
    RestOf(ip0, blocks0, ip1, blocks1, lo, hi, l1, h1);
    forall x: nat | lo <= x < h1
      ensures Addr(ip2, blocks2, x) != 0
    {
      assert x < l1 ==> Addr(ip2, blocks2, x) == Addr(ip1, blocks1, x);
    }
  }

  // n bytes at off have been written since s0, and exactly the blocks they needed have been taken.
  ghost predicate Taken(sb: Superblock, s0: Snap, s: Snap, off: nat, n: nat)
    requires off + n <= MAXBYTES
  {
    && Through(s0.ip, s0.blocks, s.ip, s.blocks, FirstBlock(off), EndBlock(off, n))
    && Room(sb, s.owned) == Room(sb, s0.owned) - Need(s0.ip, s0.blocks, FirstBlock(off), EndBlock(off, n))
  }

  lemma NothingTaken(sb: Superblock, s: Snap, off: nat)
    requires off <= MAXBYTES && |s.ip.addrs| == NDIRECT + 1
    ensures Taken(sb, s, s, off, 0)
  {
  }

  lemma LoopTaken(sb: Superblock, s0: Snap, s: Snap, off: nat, n: nat)
    requires off + n <= MAXBYTES && |s0.ip.addrs| == NDIRECT + 1
    requires LoopWrote(sb, s0, s, FirstBlock(off), EndBlock(off, n))
    ensures Taken(sb, s0, s, off, n)
  {
    LoopThrough(sb, s0, s, FirstBlock(off), EndBlock(off, n));
    LoopTakes(sb, s0, s, FirstBlock(off), EndBlock(off, n));
  }

  // The file blocks of two writes in a row.
  lemma Consecutive(off: nat, n: nat, m: nat)
    requires m > 0 && off + n + m <= MAXBYTES
    ensures FirstBlock(off) <= FirstBlock(off + n) <= EndBlock(off, n) <= EndBlock(off + n, m) == EndBlock(off, n + m)
    ensures EndBlock(off + n, m) <= MAXFILE
  {
  }

  /** Writes in a row take together what one write of all their bytes takes. */
  lemma TakenMore(sb: Superblock, s0: Snap, s: Snap, s': Snap, off: nat, n: nat, m: nat)
    requires m > 0 && off + n + m <= MAXBYTES && Taken(sb, s0, s, off, n) && Taken(sb, s, s', off + n, m)
    ensures Taken(sb, s0, s', off, n + m)
  {
    Consecutive(off, n, m);
    NeedRest(s0.ip, s0.blocks, s.ip, s.blocks, FirstBlock(off), EndBlock(off, n), FirstBlock(off + n),
             EndBlock(off + n, m));
    ThroughTrans(s0.ip, s0.blocks, s.ip, s.blocks, s'.ip, s'.blocks, FirstBlock(off), EndBlock(off, n),
                 FirstBlock(off + n), EndBlock(off + n, m));
  }

  /** ... and the next one fits exactly if all the bytes up to its end did. */
  lemma FitsMore(sb: Superblock, s0: Snap, s: Snap, off: nat, n: nat, m: nat)
    requires m > 0 && off + n + m <= MAXBYTES && Taken(sb, s0, s, off, n)
    ensures Fits(sb, s, off + n, m) <==> Fits(sb, s0, off, n + m)
  {
    Consecutive(off, n, m);
    NeedRest(s0.ip, s0.blocks, s.ip, s.blocks, FirstBlock(off), EndBlock(off, n), FirstBlock(off + n),
             EndBlock(off + n, m));
  }
}
