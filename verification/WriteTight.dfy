/**
  Two writes of one chunk to a file on a nearly full disk: the first logs all
  the ten blocks that the log reserves; the second, on a file with a hole, logs
  eleven.

  The file has 9 * 512 + 1 bytes and the chunk is appended, so it reaches from
  the middle of file block 9 into file block 12, the first indirect one.  The
  few free blocks of the disk lie under different blocks of the bitmap; every
  other data block belongs to an inode of its own.
 */
module WriteTight {
  import opened Blocks
  import opened Bitmap
  import opened BlockMap
  import opened Sums
  import opened WriteCost
  import opened WriteNeed
  import opened Files

  const SB := Superblock(50000, 50000, 32, 6300, 6400)
  const OFF := 4609
  const INUM := 2

  /*** The free blocks ***/

  // The n-th free block, in order.
  function Gap(n: nat): (b: int) {
    10000 + 4000 * n
  }

  function Gaps(hole: bool): (n: nat) {
    if hole then 5 else 4
  }

  // Block b is owned once the first `used` free blocks have been taken.
  predicate InUse(hole: bool, used: nat, b: int) {
    6400 <= b < 50000 && forall n: nat | used <= n < Gaps(hole) :: b != Gap(n)
  }

  ghost predicate Describes(hole: bool, used: nat, owned: set<int>) {
    forall b {:trigger b in owned} {:trigger InUse(hole, used, b)} :: b in owned <==> InUse(hole, used, b)
  }

  // balloc takes them in order.
  lemma NextGap(hole: bool, used: nat, owned: set<int>, b: int)
    requires used < Gaps(hole) && Describes(hole, used, owned) && FirstFree(SB, owned, b)
    ensures b == Gap(used) && Describes(hole, used + 1, owned + {b})
  {
    assert !InUse(hole, used, b);
    var n: nat :| used <= n < Gaps(hole) && b == Gap(n);
    assert n > used ==> !InUse(hole, used, Gap(used));
    forall c
      ensures c in owned + {b} <==> InUse(hole, used + 1, c)
    {
      assert c in owned <==> InUse(hole, used, c);
    }
  }

  /*** The states of the loop ***/

  // Free blocks taken before round k, and the first of them taken in the rounds after 0.
  function Used(hole: bool, k: nat): (n: nat) {
    if k == 0 then 0 else (if hole then 1 else 0) + if k < 4 then k - 1 else 4
  }

  // Disk block of file block x before round k.
  function FileBlock(hole: bool, k: nat, x: nat): (b: int) {
    var h := if hole then 1 else 0;
    if x < 9 then 6400 + x
    else if x == 9 then (if !hole then 6409 else if k >= 1 then Gap(0) else 0)
    else if x == 10 then (if k >= 2 then Gap(h) else 0)
    else if x == 11 then (if k >= 3 then Gap(h + 1) else 0)
    else if x == 12 then (if k >= 4 then Gap(h + 3) else 0)
    else 0
  }

  function IndBlock(hole: bool, k: nat): (b: int) {
    if k < 4 then 0 else Gap(if hole then 3 else 2)
  }

  function Logged(hole: bool, k: nat): (r: set<int>) {
    if k == 0 then {}
    else if k == 1 then (if hole then {10000, 6302} else {6409})
    else if k == 2 then Logged(hole, 1) + if hole then {14000, 6303} else {10000, 6302}
    else if k == 3 then Logged(hole, 2) + if hole then {18000, 6304} else {14000, 6303}
    else Logged(hole, 3) + if hole then {26000, 6306, 22000, 6305} else {22000, 6305, 18000, 6304}
  }

  ghost predicate State(hole: bool, k: nat, s: Snap) {
    && |s.ip.addrs| == NDIRECT + 1 && s.ip.size == OFF && Ind(s.ip) == IndBlock(hole, k)
    && (forall x: nat | x < MAXFILE :: Addr(s.ip, s.blocks, x) == FileBlock(hole, k, x))
    && Describes(hole, Used(hole, k), s.owned) && s.logged == Logged(hole, k)
  }

  // The addresses after round k, given the one it wrote to.
  lemma RoundAddrs(hole: bool, k: nat, s: Snap, s': Snap, a: int)
    requires k < 4 && State(hole, k, s) && Round(SB, s, s', 9 + k, a)
    requires a == FileBlock(hole, k + 1, 9 + k)
    ensures forall x: nat | x < MAXFILE :: Addr(s'.ip, s'.blocks, x) == FileBlock(hole, k + 1, x)
  {
    forall x: nat | x < MAXFILE
      ensures Addr(s'.ip, s'.blocks, x) == FileBlock(hole, k + 1, x)
    {
      assert x != 9 + k ==> DataSlot(x) != NDIRECT && DataSlot(x) != DataSlot(9 + k);
      assert Addr(s.ip, s.blocks, x) == FileBlock(hole, k, x);
    }
  }

  // What the round allocates.
  lemma RoundBlocks(hole: bool, k: nat, s: Snap, s': Snap, a: int)
    requires k < 4 && State(hole, k, s) && Round(SB, s, s', 9 + k, a)
    ensures a == FileBlock(hole, k + 1, 9 + k) && Ind(s'.ip) == IndBlock(hole, k + 1)
    ensures Describes(hole, Used(hole, k + 1), s'.owned)
  {
    assert Addr(s.ip, s.blocks, 9 + k) == FileBlock(hole, k, 9 + k);
    if k == 0 && !hole {
      assert s'.owned == s.owned;
    } else if k < 3 {
      NextGap(hole, Used(hole, k), s.owned, a);
      assert s'.owned == s.owned + {a};
    } else {
      NextGap(hole, Used(hole, 3), s.owned, Ind(s'.ip));
      NextGap(hole, Used(hole, 3) + 1, s.owned + {Ind(s'.ip)}, a);
      assert s'.owned == s.owned + {Ind(s'.ip)} + {a};
    }
  }

  lemma RoundState(hole: bool, k: nat, s: Snap, s': Snap, a: int)
    requires k < 4 && State(hole, k, s) && Round(SB, s, s', 9 + k, a)
    ensures State(hole, k + 1, s')
  {
    RoundBlocks(hole, k, s, s', a);
    RoundAddrs(hole, k, s, s', a);
    assert Addr(s.ip, s.blocks, 9 + k) == FileBlock(hole, k, 9 + k);
    assert Map1(SB, a) == a / 4096 + 6300 && Map1(SB, Ind(s'.ip)) == Ind(s'.ip) / 4096 + 6300;
    assert s'.logged == Logged(hole, k + 1);
  }

  // The loop does just that.
  lemma LoopState(hole: bool, s0: Snap, s: Snap)
    requires State(hole, 0, s0) && LoopWrote(SB, s0, s, FirstBlock(OFF), EndBlock(OFF, 1536))
    ensures State(hole, 4, s)
  {
    var snaps, addrs :| Leads(SB, s0, s, FirstBlock(OFF), EndBlock(OFF, 1536), snaps, addrs);
    assert FirstBlock(OFF) == 9 && EndBlock(OFF, 1536) == 13 && |addrs| == 4;
    RoundsState(hole, snaps, addrs, 4);
  }

  lemma {:induction false} RoundsState(hole: bool, snaps: seq<Snap>, addrs: seq<int>, k: nat)
    requires Rounds(SB, snaps, addrs, 9) && k <= |addrs| && k <= 4 && State(hole, 0, snaps[0])
    ensures State(hole, k, snaps[k])
  {
    if k > 0 {
      RoundsState(hole, snaps, addrs, k - 1);
      assert RoundAt(SB, snaps, addrs, 9, k - 1);
      RoundState(hole, k - 1, snaps[k - 1], snaps[k], addrs[k - 1]);
    }
  }

  /*** There is room ***/

  // A disk with all data blocks owned but some.
  lemma RoomLeft(sb: Superblock, owned: set<int>, left: set<int>)
    requires sb.Valid() && forall b :: b in owned + left <==> sb.datastart <= b < sb.size
    requires owned !! left
    ensures Room(sb, owned) == |left|
  {
    RangeSize(sb.datastart, sb.size);
    assert Range(sb.datastart, sb.size) == owned + left;
  }

  lemma NeedIs(hole: bool, s: Snap)
    requires State(hole, 0, s)
    ensures Need(s.ip, s.blocks, 9, 13) == Gaps(hole)
  {
    var ip, blocks := s.ip, s.blocks;
    assert Addr(ip, blocks, 9) == FileBlock(hole, 0, 9) && Addr(ip, blocks, 10) == 0;
    assert Addr(ip, blocks, 11) == 0 && Addr(ip, blocks, 12) == 0;
    assert Unmapped(ip, blocks, 9, 9) == 0;
    assert Unmapped(ip, blocks, 9, 10) == if hole then 1 else 0;
    assert Unmapped(ip, blocks, 9, 11) == if hole then 2 else 1;
    assert Unmapped(ip, blocks, 9, 12) == if hole then 3 else 2;
    assert Unmapped(ip, blocks, 9, 13) == if hole then 4 else 3;
    assert NewEntry(ip, blocks, 9, 13);
  }

  // The free blocks as a set.
  function GapSet(hole: bool): (r: set<int>) {
    {10000, 14000, 18000, 22000} + if hole then {26000} else {}
  }

  lemma GapSetIs(hole: bool, b: int)
    ensures 6400 <= b < 50000 ==> (b in GapSet(hole) <==> !InUse(hole, 0, b))
    ensures b in GapSet(hole) ==> 6400 <= b < 50000
  {
    assert Gap(0) == 10000 && Gap(1) == 14000 && Gap(2) == 18000 && Gap(3) == 22000 && Gap(4) == 26000;
  }

  lemma GapCount(hole: bool)
    ensures |GapSet(hole)| == Gaps(hole)
  {
    assert |{10000, 14000, 18000, 22000}| == 4;
    if hole {
      WithSize({10000, 14000, 18000, 22000}, 26000);
    } else {
      assert GapSet(hole) == {10000, 14000, 18000, 22000};
    }
  }

  lemma RoomIsGaps(hole: bool, owned: set<int>)
    requires Describes(hole, 0, owned)
    ensures Room(SB, owned) == Gaps(hole)
  {
    forall b
      ensures b in owned + GapSet(hole) <==> SB.datastart <= b < SB.size
      ensures !(b in owned && b in GapSet(hole))
    {
      GapSetIs(hole, b);
      assert b in owned <==> InUse(hole, 0, b);
    }
    RoomLeft(SB, owned, GapSet(hole));
    GapCount(hole);
  }

  lemma JustFits(hole: bool, s: Snap)
    requires State(hole, 0, s)
    ensures Fits(SB, s, OFF, 1536)
  {
    NeedIs(hole, s);
    RoomIsGaps(hole, s.owned);
  }

  /*** How many blocks are logged ***/

  lemma {:induction false} DistinctCount(s: seq<int>)
    requires forall i, j | 0 <= i < j < |s| :: s[i] != s[j]
    ensures |set x | x in s| == |s|
  {
    if s == [] {
      assert (set x | x in s) == {};
    } else {
      var t := s[..|s| - 1];
      DistinctCount(t);
      assert (set x | x in s) == (set x | x in t) + {s[|s| - 1]};
    }
  }

  lemma TenLogged()
    ensures |Logged(false, 4) + {32}| == 10
  {
    var l := [6409, 10000, 6302, 14000, 6303, 22000, 6305, 18000, 6304, 32];
    DistinctCount(l);
    assert Logged(false, 2) == {6409, 10000, 6302};
    assert Logged(false, 3) == {6409, 10000, 6302, 14000, 6303};
    assert Logged(false, 4) + {32} == set x | x in l;
  }

  lemma ElevenLogged()
    ensures |Logged(true, 4) + {32}| == 11
  {
    var l := [10000, 6302, 14000, 6303, 18000, 6304, 26000, 6306, 22000, 6305, 32];
    DistinctCount(l);
    assert Logged(true, 2) == {10000, 6302, 14000, 6303};
    assert Logged(true, 3) == {10000, 6302, 14000, 6303, 18000, 6304};
    assert Logged(true, 4) + {32} == set x | x in l;
  }

  /*** The two writes ***/

  // A file system whose inode INUM is the file, with or without a hole in its last block.
  ghost predicate Tight(fs: FileSystem, hole: bool)
    reads fs
  {
    fs.sb == SB && fs.Allocated() && INUM in fs.inodes && State(hole, 0, fs.SnapOf(INUM))
  }

  /** The bound is tight: this append of one chunk to a file without holes completes and logs exactly ten blocks. */
  method BoundReached(fs: FileSystem, src: seq<Byte>) returns (r: IoResult)
    requires Tight(fs, false) && fs.Consistent() && fs.inodes[INUM].kind != T_DEV && |src| == 1536
    modifies fs
    ensures r.Done? && |fs.logged| == 10
  {
    ghost var s0 := fs.SnapOf(INUM);
    JustFits(false, s0);
    ghost var mid;
    r, mid := fs.Writei(INUM, src, OFF);
    LoopState(false, s0, mid);
    TenLogged();
  }

  /** The bound needs the absence of holes: the same append to a file with a hole logs eleven. */
  method HolesBreakBound(fs: FileSystem, src: seq<Byte>) returns (ok: bool)
    requires Tight(fs, true) && |src| == 1536
    modifies fs
    ensures !NoHoles(old(fs.inodes)[INUM], old(fs.blocks))
    ensures ok && |fs.logged| == 11
  {
    ghost var s0 := fs.SnapOf(INUM);
    JustFits(true, s0);
    assert Addr(s0.ip, s0.blocks, 9) == FileBlock(true, 0, 9) == 0;
    ok := fs.WriteBlocks(INUM, src, OFF);
    LoopState(true, s0, fs.SnapOf(INUM));
    fs.inodes := fs.inodes[INUM := fs.inodes[INUM].(size := OFF + 1536)];
    fs.Iupdate(INUM);
    ElevenLogged();
  }

  /*** There is such a file system ***/

  // The blocks below this one belong to the file.
  function FileEnd(hole: bool): (b: int) {
    if hole then 6409 else 6410
  }

  function FileAddrs(hole: bool): (r: seq<Word>) {
    [6400, 6401, 6402, 6403, 6404, 6405, 6406, 6407, 6408, if hole then 0 else 6409, 0, 0, 0]
  }

  // An inode number other than INUM is the number of the one block it owns.
  function InodeOf(hole: bool, j: nat): (ip: Inode)
    requires j < 50000
  {
    if j == INUM then Inode(2, 0, 0, 1, OFF, FileAddrs(hole))
    else Inode(2, 0, 0, 1, 0, [j, 0, 0, 0, 0, 0, 0, 0, 0, 0, 0, 0, 0])
  }

  predicate HasInode(hole: bool, j: nat) {
    j == INUM || (FileEnd(hole) <= j && InUse(hole, 0, j))
  }

  function OwnerOf(hole: bool, b: nat): (r: (nat, nat))
    requires 6400 <= b
  {
    if b < FileEnd(hole) then (INUM, b - 6400) else (b, 0)
  }

  predicate IsData(b: int) {
    6400 <= b < 50000
  }

  ghost predicate Layout(hole: bool, inodes: Inodes, blocks: Store, owner: Owner) {
    && (forall j {:trigger j in inodes} :: j in inodes <==> HasInode(hole, j))
    && (forall j | j in inodes :: inodes[j] == InodeOf(hole, j))
    && (forall b :: b in blocks <==> IsData(b))
    && (forall b {:trigger b in owner} :: b in owner <==> InUse(hole, 0, b))
    && (forall b | b in owner :: owner[b] == OwnerOf(hole, b))
  }

  lemma LayoutSlots(hole: bool, inodes: Inodes, blocks: Store, owner: Owner, j: nat, s: nat)
    requires Layout(hole, inodes, blocks, owner) && InodesOk(inodes) && j in inodes && s < NSLOTS
    ensures SlotVal(inodes[j], blocks, s) == if s <= NDIRECT then InodeOf(hole, j).addrs[s] else 0
    ensures OwnedSlot(inodes, blocks, owner, j, s)
  {
    if j == INUM && s < 10 {
      assert InUse(hole, 0, 6400 + s);
    }
  }

  lemma LayoutOwned(hole: bool, inodes: Inodes, blocks: Store, owner: Owner)
    requires Layout(hole, inodes, blocks, owner)
    ensures Owned(SB, inodes, blocks, owner)
  {
    assert InodesOk(inodes);
    forall j, s: nat | j in inodes && s < NSLOTS
      ensures OwnedSlot(inodes, blocks, owner, j, s)
    {
      LayoutSlots(hole, inodes, blocks, owner, j, s);
    }
    forall b | b in owner
      ensures OwnedBlock(SB, inodes, blocks, owner, b)
    {
      var (j, s) := OwnerOf(hole, b);
      assert HasInode(hole, j);
      LayoutSlots(hole, inodes, blocks, owner, j, s);
    }
  }

  lemma LayoutAddrs(hole: bool, inodes: Inodes, blocks: Store, owner: Owner)
    requires Layout(hole, inodes, blocks, owner) && InodesOk(inodes) && INUM in inodes
    ensures forall x: nat | x < MAXFILE :: Addr(inodes[INUM], blocks, x) == FileBlock(hole, 0, x)
  {
    forall x: nat | x < MAXFILE
      ensures Addr(inodes[INUM], blocks, x) == FileBlock(hole, 0, x)
    {
      LayoutSlots(hole, inodes, blocks, owner, INUM, DataSlot(x));
    }
  }

  lemma LayoutFull(inodes: Inodes, blocks: Store, owner: Owner, j: nat)
    requires Layout(false, inodes, blocks, owner) && InodesOk(inodes) && j in inodes
    ensures NoHoles(inodes[j], blocks)
  {
    forall n: nat | n < MAXFILE && n * 512 < inodes[j].size
      ensures SlotVal(inodes[j], blocks, DataSlot(n)) != 0
    {
      LayoutSlots(false, inodes, blocks, owner, j, DataSlot(n));
    }
  }

  lemma LayoutState(hole: bool, inodes: Inodes, blocks: Store, owner: Owner)
    requires Layout(hole, inodes, blocks, owner) && InodesOk(inodes)
    ensures INUM in inodes && State(hole, 0, Snap(inodes[INUM], blocks, owner.Keys, {}))
    ensures !hole ==> forall j | j in inodes :: NoHoles(inodes[j], blocks)
  {
    assert HasInode(hole, INUM);
    LayoutAddrs(hole, inodes, blocks, owner);
    if !hole {
      forall j | j in inodes
        ensures NoHoles(inodes[j], blocks)
      {
        LayoutFull(inodes, blocks, owner, j);
      }
    }
  }

  lemma FullBits(bits: seq<bv8>, b: nat)
    requires b / 8 < |bits| && bits[b / 8] == 0xFF
    ensures Bit(bits, b)
  {
    MaskTable(b % 8);
  }

  // A bitmap with just the free blocks clear.
  method TightBitmap(hole: bool, ghost owned: set<int>) returns (bits: seq<bv8>)
    requires Describes(hole, 0, owned)
    ensures BitsMatch(SB, bits, owned)
  {
    bits := seq(6250, _ => 0xFF);
    var n := Gaps(hole);
    ghost var all := owned + GapSet(hole);
    forall b: int
      ensures b in all <==> InUse(hole, n, b)
    {
      GapSetIs(hole, b);
      assert b in owned <==> InUse(hole, 0, b);
    }
    forall b: nat | b < SB.size
      ensures Bit(bits, b)
    {
      FullBits(bits, b);
    }
    while n > 0
      invariant 0 <= n <= Gaps(hole) && Describes(hole, n, all) && BitsMatch(SB, bits, all)
    {
      n := n - 1;
      BitsMatchClear(SB, bits, all, Gap(n));
      bits := ClearBit(bits, Gap(n));
      all := all - {Gap(n)};
    }
    forall b: int
      ensures b in all <==> b in owned
    {
      assert b in all <==> InUse(hole, 0, b);
    }
    assert all == owned;
  }

  method TightFile(hole: bool) returns (fs: FileSystem)
    ensures fresh(fs) && Tight(fs, hole) && fs.inodes[INUM].kind != T_DEV && (!hole ==> fs.Consistent())
  {
    var inodes: Inodes := map j: nat | j < 50000 && HasInode(hole, j) :: InodeOf(hole, j);
    var blocks: Store := map b: int | 6400 <= b < 50000 && IsData(b) :: ZERO_BLOCK;
    ghost var owner: Owner := map b: int | 6400 <= b < 50000 && InUse(hole, 0, b) :: OwnerOf(hole, b);
    LayoutOwned(hole, inodes, blocks, owner);
    LayoutState(hole, inodes, blocks, owner);
    var bits := TightBitmap(hole, owner.Keys);
    fs := new FileSystem(SB, bits, inodes, blocks, owner);
  }
}
