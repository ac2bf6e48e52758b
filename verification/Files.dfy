/**
  fs.c's block and file layer as an object.  The disk is seen through the
  buffer cache and the log: `blocks` is the data area, `bitmap` the free map,
  `dinodes` the inode area, and `logged` collects the block numbers handed to
  log_write in the current transaction.  `inodes` is the in-memory inode cache.
 */
module Files {
  import opened Blocks
  import opened BlockMap
  import opened Options
  import opened Sums
  import opened WriteCost
  import opened WriteNeed

  const T_DEV := 3

  datatype IoResult =
    | Done(count: nat)
    | Rejected        // the call returned -1
    | Device          // handed to a device driver
    | OutOfBlocks     // the kernel stopped in balloc

  // Inode i gained addresses, and nothing that was mapped moved or changed.
  ghost predicate Grown(inodes: Inodes, blocks: Store, inodes': Inodes, blocks': Store, i: nat)
    requires InodesOk(inodes) && InodesOk(inodes')
  {
    && i in inodes && Extends(inodes, blocks, inodes', blocks')
    && (forall j | j in inodes && j != i :: inodes'[j] == inodes[j])
    && inodes'[i] == inodes[i].(addrs := inodes'[i].addrs)
  }

  lemma GrownTrans(a: Inodes, x: Store, b: Inodes, y: Store, c: Inodes, z: Store, i: nat)
    requires InodesOk(a) && InodesOk(b) && InodesOk(c) && Grown(a, x, b, y, i) && Grown(b, y, c, z, i)
    ensures Grown(a, x, c, z, i)
  {
    ExtendsTrans(a, x, b, y, c, z);
  }

  // No file has holes, and the inode cache is written through.
  ghost predicate Settled(inodes: Inodes, blocks: Store, dinodes: Inodes)
    requires InodesOk(inodes)
  {
    (forall i | i in inodes :: NoHoles(inodes[i], blocks)) && inodes == dinodes
  }

  class FileSystem {
    const sb: Superblock
    var bitmap: seq<bv8>
    var dinodes: Inodes
    var blocks: Store
    var inodes: Inodes
    var logged: set<int>
    ghost var owner: Owner

    constructor (sb: Superblock, bitmap: seq<bv8>, dinodes: Inodes, blocks: Store, ghost owner: Owner)
      requires Owned(sb, dinodes, blocks, owner) && BitsMatch(sb, bitmap, owner.Keys)
      ensures this.sb == sb && this.bitmap == bitmap && this.dinodes == dinodes && this.blocks == blocks
      ensures inodes == dinodes && this.owner == owner && logged == {} && Allocated()
      ensures (forall i | i in dinodes :: NoHoles(dinodes[i], blocks)) ==> Consistent()
    {
      this.sb, this.bitmap, this.dinodes, this.blocks, this.owner := sb, bitmap, dinodes, blocks, owner;
      inodes, logged := dinodes, {};
    }

    // Bitmap, inodes and data blocks agree.
    ghost predicate Allocated()
      reads this
    {
      Owned(sb, inodes, blocks, owner) && BitsMatch(sb, bitmap, owner.Keys)
    }

    // ... and between calls there are no holes and the inode cache is written through.
    ghost predicate Consistent()
      reads this
    {
      Allocated() && Settled(inodes, blocks, dinodes)
    }

    // No data block is free.
    ghost predicate DiskFull()
      reads this
    {
      forall b | sb.datastart <= b < sb.size :: b in owner
    }

    // How many are.
    ghost function Free(): int
      reads this
    {
      Room(sb, owner.Keys)
    }

    /** balloc: the lowest-numbered free block, marked in use and zeroed; never block 0. */
    method Balloc() returns (r: Option<Word>)
      requires sb.Valid() && BitsMatch(sb, bitmap, owner.Keys)
      modifies this`bitmap, this`blocks, this`logged
      ensures r.None? ==> bitmap == old(bitmap) && blocks == old(blocks) && logged == old(logged)
      ensures r.None? ==> DiskFull()
      ensures r.Some? ==> r.value != 0 && FirstFree(sb, owner.Keys, r.value)
      ensures r.Some? ==> BitsMatch(sb, bitmap, owner.Keys + {r.value})
      ensures r.Some? ==> blocks == old(blocks)[r.value := ZERO_BLOCK]
      ensures r.Some? ==> logged == old(logged) + {sb.Bblock(r.value), r.value}
    {
      var b := 0;
      while b < sb.size
        invariant bitmap == old(bitmap) && blocks == old(blocks) && logged == old(logged)
        invariant forall c | sb.datastart <= c < b && c < sb.size :: c in owner
      {
        var bi := 0;
        while bi < 4096 && b + bi < sb.size
          invariant 0 <= bi <= 4096
          invariant bitmap == old(bitmap) && blocks == old(blocks) && logged == old(logged)
          invariant forall c | sb.datastart <= c < b + bi && c < sb.size :: c in owner
        {
          var taken, bits := TakeBit(sb, bitmap, owner.Keys, b + bi);
          if taken {
            bitmap := bits;
            logged := logged + {sb.Bblock(b + bi)};
            blocks := blocks[b + bi := ZERO_BLOCK];
            logged := logged + {b + bi};
            return Some(b + bi);
          }
          bi := bi + 1;
        }
        b := b + 4096;
      }
      return None;
    }

    /** bfree: false is the panic "freeing free block", which happens exactly when the block is free. */
    method Bfree(b: nat) returns (ok: bool)
      requires sb.Valid() && BitsMatch(sb, bitmap, owner.Keys) && sb.datastart <= b < sb.size
      modifies this`bitmap, this`logged
      ensures ok <==> b in owner
      ensures ok ==> BitsMatch(sb, bitmap, owner.Keys - {b}) && logged == old(logged) + {sb.Bblock(b)}
      ensures !ok ==> bitmap == old(bitmap) && logged == old(logged)
    {
      ok, bitmap := ReleaseBit(sb, bitmap, owner.Keys, b);
      if ok {
        logged := logged + {sb.Bblock(b)};
      }
    }

    // iupdate: copies the in-memory inode to its disk block.
    method Iupdate(i: nat)
      requires i in inodes
      modifies this`dinodes, this`logged
      ensures dinodes == old(dinodes)[i := inodes[i]] && logged == old(logged) + {sb.Iblock(i)}
    {
      dinodes := dinodes[i := inodes[i]];
      logged := logged + {sb.Iblock(i)};
    }

    /** ilock of an inode dropped from memory: between calls, loading it from disk changes no inode. */
    method Ilock(i: nat)
      requires Consistent() && i in inodes
      modifies this`inodes
      ensures Consistent() && inodes == old(inodes)
    {
      inodes := inodes[i := dinodes[i]];
      assert inodes == old(inodes);
    }

    // Puts a newly allocated block into slot s <= NDIRECT of inode i.
    method MapInInode(i: nat, s: nat) returns (r: Option<Word>)
      requires Allocated() && i in inodes && s <= NDIRECT && inodes[i].addrs[s] == 0
      modifies this`bitmap, this`blocks, this`logged, this`inodes, this`owner
      ensures Allocated() && Grown(old(inodes), old(blocks), inodes, blocks, i)
      ensures r.None? ==> DiskFull()
      ensures if r.None? then owner == old(owner) else FirstFree(sb, old(owner).Keys, r.value)
      ensures r.Some? ==> OnlyLogged(old(blocks), blocks, logged)
      ensures forall s': nat | s' < NSLOTS && s' != s ::
                SlotVal(inodes[i], blocks, s') == SlotVal(old(inodes)[i], old(blocks), s')
      ensures r.Some? ==> r.value != 0 && inodes[i].addrs[s] == r.value && r.value in blocks
      ensures r.Some? ==>
                owner.Keys == old(owner).Keys + {r.value} && logged == old(logged) + {r.value, Map1(sb, r.value)}
    {
      r := Balloc();
      if r.Some? {
        MapDirect(sb, inodes, old(blocks), owner, i, s, r.value);
        owner := owner[r.value := (i, s)];
        inodes := WithAddr(inodes, i, s, r.value);
      }
    }

    // Puts a newly allocated block into slot s > NDIRECT of inode i, whose indirect block exists.
    method MapInIndirect(i: nat, s: nat) returns (r: Option<Word>)
      requires Allocated() && i in inodes && NDIRECT < s < NSLOTS
      requires inodes[i].addrs[NDIRECT] != 0 && SlotVal(inodes[i], blocks, s) == 0
      modifies this`bitmap, this`blocks, this`logged, this`owner
      ensures Allocated() && Grown(inodes, old(blocks), inodes, blocks, i)
      ensures r.None? ==> DiskFull()
      ensures if r.None? then owner == old(owner) else FirstFree(sb, old(owner).Keys, r.value)
      ensures r.Some? ==> OnlyLogged(old(blocks), blocks, logged)
      ensures forall s': nat | s' < NSLOTS && s' != s ::
                SlotVal(inodes[i], blocks, s') == SlotVal(inodes[i], old(blocks), s')
      ensures r.Some? ==> r.value != 0 && SlotVal(inodes[i], blocks, s) == r.value && r.value in blocks
      ensures r.Some? ==> owner.Keys == old(owner).Keys + {r.value}
      ensures r.Some? ==> logged == old(logged) + {r.value, Map1(sb, r.value), Ind(inodes[i])}
    {
      var ind := inodes[i].addrs[NDIRECT];
      assert OwnedSlot(inodes, blocks, owner, i, NDIRECT);
      assert OwnedBlock(sb, inodes, blocks, owner, ind);
      var a := blocks[ind];
      r := Balloc();
      if r.Some? {
        MapIndirect(sb, inodes, old(blocks), owner, i, s, r.value);
        owner := owner[r.value := (i, s)];
        blocks := blocks[ind := SetWord(a, s - NDIRECT - 1, r.value)];
        logged := logged + {ind};
      }
    }

    // bmap for a direct block.
    method BmapDirect(i: nat, bn: nat) returns (r: Option<Word>)
      requires Allocated() && i in inodes && bn < NDIRECT && inodes[i].addrs[bn] == 0
      modifies this`bitmap, this`blocks, this`logged, this`inodes, this`owner
      ensures Allocated() && Grown(old(inodes), old(blocks), inodes, blocks, i)
      ensures r.None? ==> DiskFull()
      ensures if r.None? then owner == old(owner) else FirstFree(sb, old(owner).Keys, r.value)
      ensures r.Some? ==> OnlyLogged(old(blocks), blocks, logged)
      ensures r.Some? ==> r.value in blocks && Bmapped(old(inodes)[i], old(blocks), inodes[i], blocks, bn, r.value)
      ensures r.Some? ==>
                owner.Keys == old(owner).Keys + {r.value} && logged == old(logged) + {r.value, Map1(sb, r.value)}
    {
      r := MapInInode(i, bn);
      assert SlotVal(inodes[i], blocks, NDIRECT) == SlotVal(old(inodes)[i], old(blocks), NDIRECT);
    }

    // bmap for a block entered in an indirect block that exists.
    method BmapIndirect(i: nat, bn: nat) returns (r: Option<Word>)
      requires Allocated() && i in inodes && NDIRECT <= bn < MAXFILE && inodes[i].addrs[NDIRECT] != 0
      modifies this`bitmap, this`blocks, this`logged, this`owner
      ensures Allocated() && Grown(inodes, old(blocks), inodes, blocks, i)
      ensures r.None? ==> DiskFull()
      ensures r.None? ==> owner == old(owner)
      ensures r.Some? && Addr(inodes[i], old(blocks), bn) == 0 ==> FirstFree(sb, old(owner).Keys, r.value)
      ensures r.Some? ==> OnlyLogged(old(blocks), blocks, logged)
      ensures r.Some? ==> r.value in blocks && Bmapped(inodes[i], old(blocks), inodes[i], blocks, bn, r.value)
      ensures Addr(inodes[i], old(blocks), bn) != 0 ==>
                && r.Some? && bitmap == old(bitmap) && blocks == old(blocks)
                && logged == old(logged) && owner == old(owner)
      ensures r.Some? && Addr(inodes[i], old(blocks), bn) == 0 ==>
                && owner.Keys == old(owner).Keys + {r.value}
                && logged == old(logged) + {r.value, Map1(sb, r.value), Ind(inodes[i])}
    {
      assert OwnedSlot(inodes, blocks, owner, i, NDIRECT);
      assert OwnedSlot(inodes, blocks, owner, i, bn + 1);
      assert OwnedBlock(sb, inodes, blocks, owner, inodes[i].addrs[NDIRECT]);
      var addr := GetWord(blocks[inodes[i].addrs[NDIRECT]], bn - NDIRECT);
      if addr == 0 {
        r := MapInIndirect(i, bn + 1);
      } else {
        assert OwnedBlock(sb, inodes, blocks, owner, addr);
        r := Some(addr);
      }
    }

    // bmap when the file has no indirect block yet: allocates it, then the data block.
    method BmapFirstIndirect(i: nat, bn: nat) returns (r: Option<Word>)
      requires Allocated() && i in inodes && NDIRECT <= bn < MAXFILE && inodes[i].addrs[NDIRECT] == 0
      modifies this`bitmap, this`blocks, this`logged, this`inodes, this`owner
      ensures Allocated() && Grown(old(inodes), old(blocks), inodes, blocks, i)
      ensures r.None? ==> DiskFull()
      ensures r.None? ==> AtMostOne(old(owner).Keys, owner.Keys)
      ensures r.Some? ==> FirstFree(sb, old(owner).Keys, Ind(inodes[i]))
      ensures r.Some? ==> FirstFree(sb, old(owner).Keys + {Ind(inodes[i])}, r.value)
      ensures r.Some? ==> OnlyLogged(old(blocks), blocks, logged)
      ensures r.Some? ==> r.value in blocks && Bmapped(old(inodes)[i], old(blocks), inodes[i], blocks, bn, r.value)
      ensures r.Some? ==>
                && owner.Keys == old(owner).Keys + {r.value, Ind(inodes[i])}
                && logged == old(logged) + {r.value, Map1(sb, r.value), Ind(inodes[i]), Map1(sb, Ind(inodes[i]))}
    {
      r := MapInInode(i, NDIRECT);
      if r.Some? {
        ghost var inodes1, blocks1 := inodes, blocks;
        assert Addr(inodes[i], blocks, bn) == Addr(old(inodes)[i], old(blocks), bn) == 0;
        r := BmapIndirect(i, bn);
        GrownTrans(old(inodes), old(blocks), inodes1, blocks1, inodes, blocks, i);
      }
    }

    // The branches of bmap.
    method FindOrMap(i: nat, bn: nat) returns (r: Option<Word>)
      requires Allocated() && i in inodes && bn < MAXFILE
      modifies this`bitmap, this`blocks, this`logged, this`inodes, this`owner
      ensures Allocated() && Grown(old(inodes), old(blocks), inodes, blocks, i)
      ensures r.None? ==> DiskFull()
      ensures r.None? ==>
                var need := NeedOne(old(inodes)[i], old(blocks), bn);
                need >= 1 && (owner.Keys == old(owner).Keys || (need == 2 && AtMostOne(old(owner).Keys, owner.Keys)))
      ensures r.Some? ==> Allots(sb, old(inodes)[i], old(blocks), old(owner).Keys, inodes[i], bn, r.value)
      ensures r.Some? ==> OnlyLogged(old(blocks), blocks, logged)
      ensures r.Some? ==> r.value in blocks && Bmapped(old(inodes)[i], old(blocks), inodes[i], blocks, bn, r.value)
      ensures Addr(old(inodes)[i], old(blocks), bn) != 0 ==>
                && r.Some? && bitmap == old(bitmap) && blocks == old(blocks) && logged == old(logged)
                && inodes == old(inodes) && owner == old(owner)
      ensures r.Some? ==> owner.Keys == old(owner).Keys + MapAdds(old(inodes)[i], old(blocks), inodes[i], bn, r.value)
      ensures r.Some? ==> logged == old(logged) + MapLogs(sb, old(inodes)[i], old(blocks), inodes[i], bn, r.value)
    {
      if bn < NDIRECT {
        var addr := inodes[i].addrs[bn];
        if addr == 0 {
          r := BmapDirect(i, bn);
        } else {
          assert OwnedSlot(inodes, blocks, owner, i, bn);
          assert OwnedBlock(sb, inodes, blocks, owner, addr);
          r := Some(addr);
        }
      } else if inodes[i].addrs[NDIRECT] == 0 {
        r := BmapFirstIndirect(i, bn);
      } else {
        r := BmapIndirect(i, bn);
      }
    }

    /**
      bmap: the disk block of file block bn, allocating it (and the indirect
      block) when it is missing.  A mapped block is returned with no change at
      all; otherwise exactly MapAdds become owned and MapLogs are logged.  It
      fails exactly when fewer blocks are free than it needs.
     */
    method Bmap(i: nat, bn: nat) returns (r: Option<Word>)
      requires Allocated() && i in inodes && bn < MAXFILE
      modifies this`bitmap, this`blocks, this`logged, this`inodes, this`owner
      ensures Allocated() && Grown(old(inodes), old(blocks), inodes, blocks, i)
      ensures r.None? ==> DiskFull()
      ensures r.None? <==> old(Free()) < NeedOne(old(inodes)[i], old(blocks), bn)
      ensures r.Some? ==> Allots(sb, old(inodes)[i], old(blocks), old(owner).Keys, inodes[i], bn, r.value)
      ensures r.Some? ==> OnlyLogged(old(blocks), blocks, logged)
      ensures r.Some? ==> r.value in blocks && Bmapped(old(inodes)[i], old(blocks), inodes[i], blocks, bn, r.value)
      ensures Addr(old(inodes)[i], old(blocks), bn) != 0 ==>
                && r.Some? && bitmap == old(bitmap) && blocks == old(blocks) && logged == old(logged)
                && inodes == old(inodes) && owner == old(owner)
      ensures r.Some? ==> owner.Keys == old(owner).Keys + MapAdds(old(inodes)[i], old(blocks), inodes[i], bn, r.value)
      ensures r.Some? ==> logged == old(logged) + MapLogs(sb, old(inodes)[i], old(blocks), inodes[i], bn, r.value)
    {
      r := FindOrMap(i, bn);
      OwnedInside(sb, inodes, blocks, owner);
      if r.None? {
        Short(sb, old(owner).Keys, owner.Keys, NeedOne(old(inodes)[i], old(blocks), bn));
      } else {
        Enough(sb, old(inodes)[i], old(blocks), old(owner).Keys, inodes[i], blocks, owner.Keys, bn, r.value);
      }
    }

    // memmove and log_write of one round of writei's loop, into the block a of position cur.
    method PutBytes(i: nat, src: seq<Byte>, off: nat, cur: nat, m: nat, a: Word, ghost inodes0: Inodes,
                    ghost blocks0: Store)
      requires Allocated() && InodesOk(inodes0) && Progress(inodes0, blocks0, inodes, blocks, i, off, cur, src)
      requires 0 < m && cur % 512 + m <= 512 && cur + m <= off + |src| && cur + m <= MAXBYTES
      requires a == Addr(inodes[i], blocks, cur / 512) != 0 && a in blocks
      modifies this`blocks, this`logged
      ensures Allocated() && Progress(inodes0, blocks0, inodes, blocks, i, off, cur + m, src)
      ensures forall s: nat | s < NSLOTS :: SlotVal(inodes[i], blocks, s) == SlotVal(inodes[i], old(blocks), s)
      ensures logged == old(logged) + {a} && OnlyLogged(old(blocks), blocks, logged)
    {
      ProgressWrite(sb, inodes0, blocks0, inodes, blocks, owner, i, off, cur, src, m);
      blocks := blocks[a := Patched(blocks[a], cur % 512, src[cur - off..cur - off + m])];
      logged := logged + {a};
    }

    // One round of writei's loop.
    method WriteRound(i: nat, src: seq<Byte>, off: nat, cur: nat, m: nat, ghost inodes0: Inodes, ghost blocks0: Store)
      returns (r: Option<Word>)
      requires Allocated() && InodesOk(inodes0) && Progress(inodes0, blocks0, inodes, blocks, i, off, cur, src)
      requires 0 < m && cur % 512 + m <= 512 && cur + m <= off + |src| <= MAXBYTES
      modifies this`bitmap, this`blocks, this`logged, this`inodes, this`owner
      ensures Allocated()
      ensures r.None? ==> DiskFull()
      ensures r.None? <==> old(Free()) < NeedOne(old(inodes)[i], old(blocks), cur / 512)
      ensures r.Some? ==> Progress(inodes0, blocks0, inodes, blocks, i, off, cur + m, src)
      ensures r.Some? ==> Round(sb, old(SnapOf(i)), SnapOf(i), cur / 512, r.value)
    {
      r := Bmap(i, cur / 512);
      if r.Some? {
        ProgressExtends(sb, inodes0, blocks0, old(inodes), old(blocks), old(owner), inodes, blocks, i, off, cur, src);
        PutBytes(i, src, off, cur, m, r.value, inodes0, blocks0);
      }
    }

    // One round as a part of the loop, which has written file blocks lo..hi and comes to position cur.
    method WriteNext(i: nat, src: seq<Byte>, off: nat, cur: nat, ghost inodes0: Inodes, ghost blocks0: Store,
                     ghost snap0: Snap, ghost lo: nat, ghost hi: nat)
      returns (ok: bool, m: nat)
      requires Allocated() && InodesOk(inodes0) && Progress(inodes0, blocks0, inodes, blocks, i, off, cur, src)
      requires off + |src| <= MAXBYTES && cur < off + |src| && hi == cur / 512 == EndBlock(off, cur - off)
      requires |snap0.ip.addrs| == NDIRECT + 1 && lo == FirstBlock(off) && LoopWrote(sb, snap0, SnapOf(i), lo, hi)
      modifies this`bitmap, this`blocks, this`logged, this`inodes, this`owner
      ensures Allocated() && m == ChunkAt(cur, off + |src|) && EndBlock(off, cur + m - off) == hi + 1
      ensures 0 < m && cur + m <= off + |src| && (cur + m < off + |src| ==> (cur + m) / 512 == hi + 1)
      ensures !ok ==> DiskFull()
      ensures !ok ==> !Fits(sb, snap0, off, |src|)
      ensures ok ==> Progress(inodes0, blocks0, inodes, blocks, i, off, cur + m, src)
      ensures ok ==> LoopWrote(sb, snap0, SnapOf(i), lo, hi + 1)
    {
      ghost var mid := SnapOf(i);
      m := ChunkAt(cur, off + |src|);
      NextChunk(off, cur, off + |src|);
      var r := WriteRound(i, src, off, cur, m, inodes0, blocks0);
      if r.None? {
        LoopLacks(sb, snap0, mid, off, |src|, hi);
        return false, m;
      }
      LoopStep(sb, snap0, mid, SnapOf(i), lo, hi, r.value);
      ok := true;
    }

    // The loop of writei: copies src to offset off, block by block.
    method WriteBlocks(i: nat, src: seq<Byte>, off: nat) returns (ok: bool)
      requires Allocated() && i in inodes && off <= inodes[i].size && off + |src| <= MAXBYTES
      modifies this`bitmap, this`blocks, this`logged, this`inodes, this`owner
      ensures Allocated()
      ensures !ok ==> DiskFull()
      ensures ok <==> Fits(sb, old(SnapOf(i)), off, |src|)
      ensures ok ==> Progress(old(inodes), old(blocks), inodes, blocks, i, off, off + |src|, src)
      ensures ok ==> LoopWrote(sb, old(SnapOf(i)), SnapOf(i), FirstBlock(off), EndBlock(off, |src|))
    {
      ghost var inodes0, blocks0, snap0 := inodes, blocks, SnapOf(i);
      ghost var lo, hi := FirstBlock(off), FirstBlock(off);
      var cur := off;
      StartProgress(inodes, blocks, i, off, src);
      LoopStart(sb, snap0, lo);
      while cur < off + |src|
        invariant off <= cur <= off + |src|
        invariant hi == EndBlock(off, cur - off) && (cur < off + |src| ==> hi == cur / 512)
        invariant Allocated() && Progress(inodes0, blocks0, inodes, blocks, i, off, cur, src)
        invariant LoopWrote(sb, snap0, SnapOf(i), lo, hi)
      {
        var more, m := WriteNext(i, src, off, cur, inodes0, blocks0, snap0, lo, hi);
        if !more {
          return false;
        }
        cur := cur + m;
        hi := hi + 1;
      }
      OwnedInside(sb, inodes, blocks, owner);
      LoopHas(sb, snap0, SnapOf(i), off, |src|);
      ok := true;
    }

    // The end of writei when the file grew: the new size, in memory and on disk.
    method GrowFile(i: nat, src: seq<Byte>, off: nat, ghost inodes0: Inodes, ghost blocks0: Store)
      requires Allocated() && InodesOk(inodes0) && dinodes == inodes0
      requires Progress(inodes0, blocks0, inodes, blocks, i, off, off + |src|, src)
      requires inodes0[i].size < off + |src| <= MAXBYTES && forall j | j in inodes0 :: NoHoles(inodes0[j], blocks0)
      modifies this`inodes, this`dinodes, this`logged
      ensures Allocated() && Settled(inodes, blocks, dinodes)
      ensures WrittenSoFar(inodes0, blocks0, inodes, blocks, i, off, src, |src|)
      ensures inodes[i] == old(inodes)[i].(size := off + |src|)
      ensures logged == old(logged) + {sb.Iblock(i)}
    {
      Resize(sb, inodes, blocks, owner, i, off + |src|);
      ProgressWritten(inodes0, blocks0, inodes, blocks, i, off, src, off + |src|);
      ghost var inodes' := inodes[i := inodes[i].(size := off + |src|)];
      SameUpdate(inodes0, inodes, i, inodes[i].(size := off + |src|));
      assert Settled(inodes', blocks, inodes');
      inodes := inodes[i := inodes[i].(size := off + |src|)];
      Iupdate(i);
    }

    // writei on a request that passed its checks; false stands for the panic in balloc.
    method WriteAt(i: nat, src: seq<Byte>, off: nat) returns (ok: bool, ghost mid: Snap)
      requires Consistent() && i in inodes && off <= inodes[i].size && off + |src| <= MAXBYTES
      modifies this
      ensures Allocated()
      ensures !ok ==> DiskFull()
      ensures ok <==> Fits(sb, old(SnapOf(i)), off, |src|)
      ensures ok ==> Consistent() && WrittenSoFar(old(inodes), old(blocks), inodes, blocks, i, off, src, |src|)
      ensures ok ==> LoopWrote(sb, old(SnapOf(i)), mid, FirstBlock(off), EndBlock(off, |src|))
      ensures ok ==> SnapOf(i) == Finished(sb, i, mid, off + |src|)
    {
      ghost var inodes0, blocks0, snap0 := inodes, blocks, SnapOf(i);
      ok := WriteBlocks(i, src, off);
      mid := snap0;
      if ok {
        mid := SnapOf(i);
        if |src| > 0 && off + |src| > inodes[i].size {
          GrowFile(i, src, off, inodes0, blocks0);
        } else {
          WrittenWithin(sb, inodes0, blocks0, inodes, blocks, snap0, mid, i, off, src);
        }
      }
    }

    /**
      writei.  A rejected call changes nothing.  A completed call overwrites
      and extends exactly the bytes asked for, touches no other file, and
      keeps every invariant; in particular the inode cache is written through.
      Its loop allocates and logs block by block, which leads to `mid`; the
      inode is logged after that if the file grew.  It runs out of blocks
      exactly when fewer are free than it needs, so never within the size.
     */
    method Writei(i: nat, src: seq<Byte>, off: nat) returns (r: IoResult, ghost mid: Snap)
      requires Consistent() && i in inodes && off < 0x1_0000_0000 && |src| < 0x1_0000_0000
      modifies this
      ensures r.Device? <==> old(inodes)[i].kind == T_DEV
      ensures r.Rejected? <==>
                && old(inodes)[i].kind != T_DEV
                && (off > old(inodes)[i].size || off + |src| >= 0x1_0000_0000 || off + |src| > MAXBYTES)
      ensures r.Device? || r.Rejected? ==>
                && bitmap == old(bitmap) && dinodes == old(dinodes) && blocks == old(blocks)
                && inodes == old(inodes) && owner == old(owner) && logged == old(logged)
      ensures r.OutOfBlocks? ==> Allocated() && DiskFull()
      ensures r.OutOfBlocks? <==>
                !r.Device? && !r.Rejected? && !Fits(sb, old(SnapOf(i)), off, |src|)
      ensures r.OutOfBlocks? ==> off + |src| > old(inodes)[i].size
      ensures r.Done? ==> r.count == |src| && Consistent()
      ensures r.Done? ==> WrittenSoFar(old(inodes), old(blocks), inodes, blocks, i, off, src, |src|)
      ensures r.Done? ==> LoopWrote(sb, old(SnapOf(i)), mid, FirstBlock(off), EndBlock(off, |src|))
      ensures r.Done? ==> SnapOf(i) == Finished(sb, i, mid, off + |src|)
    {
      mid := SnapOf(i);
      if inodes[i].kind == T_DEV {
        return Device, mid;
      }
      if off > inodes[i].size || off + |src| >= 0x1_0000_0000 {
        return Rejected, mid;
      }
      if off + |src| > MAXBYTES {
        return Rejected, mid;
      }
      var ok;
      if off + |src| <= inodes[i].size {
        OwnedInside(sb, inodes, blocks, owner);
        WithinFits(sb, SnapOf(i), off, |src|);
      }
      ok, mid := WriteAt(i, src, off);
      r := if ok then Done(|src|) else OutOfBlocks;
    }

    // One round of readi's loop: bmap finds the block, and m bytes are copied out of it.
    method ReadRound(i: nat, cur: nat, m: nat) returns (piece: seq<Byte>)
      requires Consistent() && i in inodes && 0 < m && cur % 512 + m <= 512 && cur + m <= inodes[i].size
      modifies this`bitmap, this`blocks, this`logged, this`inodes, this`owner
      ensures bitmap == old(bitmap) && blocks == old(blocks) && logged == old(logged)
      ensures inodes == old(inodes) && owner == old(owner)
      ensures piece == Contents(inodes[i], blocks)[cur..cur + m]
    {
      AlreadyMapped(inodes[i], blocks, cur);
      var a := Bmap(i, cur / 512);
      ReadPiece(sb, inodes, blocks, owner, i, cur, m);
      piece := blocks[a.value][cur % 512..cur % 512 + m];
    }

    /** readi: exactly the bytes of the file in the range, cut at its end, and no change to anything. */
    method Readi(i: nat, off: nat, n: nat) returns (r: IoResult, data: seq<Byte>)
      requires Consistent() && i in inodes && off < 0x1_0000_0000 && n < 0x1_0000_0000
      modifies this`bitmap, this`blocks, this`logged, this`inodes, this`owner
      ensures bitmap == old(bitmap) && blocks == old(blocks) && logged == old(logged)
      ensures inodes == old(inodes) && owner == old(owner)
      ensures r.Device? <==> inodes[i].kind == T_DEV
      ensures r.Rejected? <==> inodes[i].kind != T_DEV && (off > inodes[i].size || off + n >= 0x1_0000_0000)
      ensures !r.OutOfBlocks?
      ensures r.Done? ==>
                && r.count == |data|
                && data == Contents(inodes[i], blocks)[off..ReadEnd(off, n, inodes[i].size)]
    {
      data := [];
      if inodes[i].kind == T_DEV {
        return Device, data;
      }
      if off > inodes[i].size || off + n >= 0x1_0000_0000 {
        return Rejected, data;
      }
      var end := ReadEnd(off, n, inodes[i].size);
      var cur := off;
      ghost var whole := Contents(inodes[i], blocks);
      while cur < end
        invariant off <= cur <= end
        invariant bitmap == old(bitmap) && blocks == old(blocks) && logged == old(logged)
        invariant inodes == old(inodes) && owner == old(owner)
        invariant data == whole[off..cur]
      {
        var m := ChunkAt(cur, end);
        var piece := ReadRound(i, cur, m);
        SliceMore(whole, off, cur, cur + m);
        data := data + piece;
        cur := cur + m;
      }
      return Done(|data|), data;
    }

    // The first loop of itrunc: frees the direct blocks.  True stands for a panic in bfree.
    method FreeDirect(i: nat) returns (panicked: bool)
      requires Allocated() && i in inodes
      modifies this`bitmap, this`logged, this`inodes, this`owner
      ensures !panicked && Allocated() && owner == Without(old(owner), i, 0, NDIRECT)
      ensures inodes.Keys == old(inodes).Keys && (forall j | j in inodes && j != i :: inodes[j] == old(inodes)[j])
      ensures inodes[i] == old(inodes)[i].(addrs := inodes[i].addrs)
      ensures inodes[i].addrs[NDIRECT] == old(inodes)[i].addrs[NDIRECT]
      ensures forall s | 0 <= s < NDIRECT :: inodes[i].addrs[s] == 0
    {
      panicked := false;
      var s := 0;
      while s < NDIRECT
        invariant 0 <= s <= NDIRECT && !panicked
        invariant Allocated() && owner == Without(old(owner), i, 0, s)
        invariant inodes.Keys == old(inodes).Keys && (forall j | j in inodes && j != i :: inodes[j] == old(inodes)[j])
        invariant inodes[i] == old(inodes)[i].(addrs := inodes[i].addrs)
        invariant inodes[i].addrs[NDIRECT] == old(inodes)[i].addrs[NDIRECT]
        invariant forall t | 0 <= t < s :: inodes[i].addrs[t] == 0
      {
        panicked := FreeSlot(i, s);
        s := s + 1;
      }
    }

    // One round of that loop.
    method FreeSlot(i: nat, s: nat) returns (panicked: bool)
      requires Allocated() && i in inodes && s < NDIRECT
      modifies this`bitmap, this`logged, this`inodes, this`owner
      ensures !panicked && Allocated() && owner == Without(old(owner), i, s, s + 1)
      ensures inodes == WithAddr(old(inodes), i, s, 0)
    {
      WithoutStep(sb, inodes, blocks, owner, i, s, s);
      UnmapDirect(sb, inodes, blocks, owner, i, s);
      assert Without(owner, i, s, s) == owner;
      panicked := false;
      if inodes[i].addrs[s] != 0 {
        var ok := Bfree(inodes[i].addrs[s]);
        panicked := !ok;
        owner := owner - {inodes[i].addrs[s]};
        inodes := WithAddr(inodes, i, s, 0);
      } else {
        assert WithAddr(inodes, i, s, 0) == inodes by {
          assert inodes[i].addrs[s := 0] == inodes[i].addrs;
        }
      }
    }

    // The second loop of itrunc: frees what the indirect block names.  The entries themselves stay.
    method FreeEntries(i: nat, a: Block) returns (panicked: bool)
      requires Allocated() && i in inodes && inodes[i].addrs[NDIRECT] != 0
      requires inodes[i].addrs[NDIRECT] in blocks && blocks[inodes[i].addrs[NDIRECT]] == a
      modifies this`bitmap, this`logged, this`owner
      ensures !panicked && BitsMatch(sb, bitmap, owner.Keys) && owner == Without(old(owner), i, NDIRECT + 1, NSLOTS)
    {
      panicked := false;
      var j := 0;
      assert Without(owner, i, NDIRECT + 1, NDIRECT + 1) == owner;
      while j < NINDIRECT
        invariant 0 <= j <= NINDIRECT && !panicked
        invariant BitsMatch(sb, bitmap, owner.Keys) && owner == Without(old(owner), i, NDIRECT + 1, NDIRECT + 1 + j)
      {
        WithoutStep(sb, inodes, blocks, old(owner), i, NDIRECT + 1, NDIRECT + 1 + j);
        var addr := GetWord(a, j);
        if addr != 0 {
          var ok := Bfree(addr);
          panicked := !ok;
          owner := owner - {addr};
        }
        j := j + 1;
      }
    }

    // The indirect half of itrunc.
    method FreeIndirect(i: nat) returns (panicked: bool)
      requires Allocated() && i in inodes
      modifies this`bitmap, this`logged, this`inodes, this`owner
      ensures !panicked && Allocated() && owner == Without(old(owner), i, NDIRECT, NSLOTS)
      ensures inodes == WithAddr(old(inodes), i, NDIRECT, 0)
    {
      panicked := false;
      var ind := inodes[i].addrs[NDIRECT];
      UnmapIndirect(sb, inodes, blocks, owner, i);
      WithoutIndirect(sb, inodes, blocks, owner, i);
      if ind != 0 {
        panicked := FreeEntries(i, blocks[ind]);
        var ok := Bfree(ind);
        panicked := panicked || !ok;
        owner := owner - {ind};
        inodes := WithAddr(inodes, i, NDIRECT, 0);
      } else {
        assert inodes[i].addrs[NDIRECT := 0] == inodes[i].addrs;
        assert WithAddr(inodes, i, NDIRECT, 0) == inodes;
      }
    }

    /**
      itrunc: never frees a free block, gives up exactly the blocks of inode i,
      and leaves an empty file; no other inode and no data block changes.
     */
    method Itrunc(i: nat) returns (panicked: bool)
      requires Consistent() && i in inodes
      modifies this`bitmap, this`logged, this`inodes, this`dinodes, this`owner
      ensures !panicked && Consistent()
      ensures owner == Without(old(owner), i, 0, NSLOTS)
      ensures inodes == old(inodes)[i := old(inodes)[i].(addrs := NO_ADDRS, size := 0)]
      ensures Contents(inodes[i], blocks) == []
    {
      ghost var inodes0, owner0 := inodes, owner;
      panicked := FreeDirect(i);
      var p := FreeIndirect(i);
      panicked := panicked || p;
      WithoutSplit(owner0, i);
      assert inodes[i].addrs == NO_ADDRS;
      Resize(sb, inodes, blocks, owner, i, 0);
      SameUpdate(inodes0, inodes, i, inodes[i].(size := 0));
      inodes := inodes[i := inodes[i].(size := 0)];
      Iupdate(i);
    }

    // begin_op, as far as this layer sees it: the operation has logged nothing yet.
    method BeginTransaction()
      modifies this`logged
      ensures logged == {}
    {
      logged := {};
    }

    ghost function SnapOf(i: nat): Snap
      requires i in inodes
      reads this
    {
      Snap(inodes[i], blocks, owner.Keys, logged)
    }
  }

  // Bytes that one round of the readi and writei loops moves: up to the end of the block or of the request.
  function ChunkAt(cur: nat, end: nat): (m: nat)
    requires cur < end
  {
    if end - cur < 512 - cur % 512 then end - cur else 512 - cur % 512
  }

  lemma NextChunk(off: nat, cur: nat, end: nat)
    requires off <= cur < end && cur / 512 == EndBlock(off, cur - off)
    ensures var m := ChunkAt(cur, end);
            && 0 < m && cur % 512 + m <= 512 && cur + m <= end
            && EndBlock(off, cur + m - off) == cur / 512 + 1
            && (cur + m < end ==> (cur + m) / 512 == cur / 512 + 1)
  {
    var m := ChunkAt(cur, end);
    assert (cur + m - 1) / 512 == cur / 512;
  }

  lemma StartProgress(inodes: Inodes, blocks: Store, i: nat, off: nat, src: seq<Byte>)
    requires InodesOk(inodes) && i in inodes && off <= inodes[i].size
    ensures Progress(inodes, blocks, inodes, blocks, i, off, off, src)
  {
  }

  // The end of writei: a file that grew past its size gets the new one and its inode block is logged.
  ghost function Finished(sb: Superblock, i: nat, mid: Snap, end: nat): Snap {
    if end > mid.ip.size then mid.(ip := mid.ip.(size := end), logged := mid.logged + {sb.Iblock(i) as int}) else mid
  }

  // Where a read of n bytes at off ends.
  function ReadEnd(off: nat, n: nat, size: nat): (e: nat)
    ensures off <= size ==> off <= e <= size
  {
    if off + n > size then size else off + n
  }

  lemma SliceMore(s: seq<Byte>, a: nat, b: nat, c: nat)
    requires a <= b <= c <= |s|
    ensures s[a..b] + s[b..c] == s[a..c]
  {
  }

  // A write within the size: the in-memory inode is still the one on disk.
  lemma WrittenWithin(sb: Superblock, inodes0: Inodes, blocks0: Store, inodes: Inodes, blocks: Store, s0: Snap, s: Snap,
                      i: nat, off: nat, src: seq<Byte>)
    requires InodesOk(inodes0) && InodesOk(inodes)
    requires Progress(inodes0, blocks0, inodes, blocks, i, off, off + |src|, src)
    requires (forall j | j in inodes0 :: NoHoles(inodes0[j], blocks0)) && off + |src| <= inodes0[i].size
    requires s0.ip == inodes0[i] && s0.blocks == blocks0 && s.ip == inodes[i] && s.blocks == blocks
    requires LoopWrote(sb, s0, s, FirstBlock(off), EndBlock(off, |src|))
    ensures inodes == inodes0 && WrittenSoFar(inodes0, blocks0, inodes, blocks, i, off, src, |src|)
    ensures forall j | j in inodes :: NoHoles(inodes[j], blocks)
  {
    SameInode(sb, inodes0, blocks0, inodes, blocks, s0, s, i, off, src);
    ProgressWritten(inodes0, blocks0, inodes, blocks, i, off, src, inodes[i].size);
    assert inodes[i].(size := inodes[i].size) == inodes[i];
    assert inodes[i := inodes[i]] == inodes;
  }

  lemma SameInode(sb: Superblock, inodes0: Inodes, blocks0: Store, inodes: Inodes, blocks: Store, s0: Snap, s: Snap,
                  i: nat, off: nat, src: seq<Byte>)
    requires InodesOk(inodes0) && InodesOk(inodes)
    requires Progress(inodes0, blocks0, inodes, blocks, i, off, off + |src|, src)
    requires NoHoles(inodes0[i], blocks0) && off + |src| <= inodes0[i].size
    requires s0.ip == inodes0[i] && s0.blocks == blocks0 && s.ip == inodes[i] && s.blocks == blocks
    requires LoopWrote(sb, s0, s, FirstBlock(off), EndBlock(off, |src|))
    ensures inodes[i] == inodes0[i]
  {
    forall t: nat | t < NSLOTS && SlotVal(inodes0[i], blocks0, t) != 0
      ensures SlotVal(inodes[i], blocks, t) == SlotVal(inodes0[i], blocks0, t)
    {
      assert KeepsSlot(inodes0, blocks0, inodes, blocks, i, t);
    }
    assert EndBlock(off, |src|) <= MAXFILE;
    LoopAccount(sb, s0, s, FirstBlock(off), EndBlock(off, |src|));
    WriteThrough(sb, inodes0[i], blocks0, inodes[i], blocks, s0.owned, s.owned, s0.logged, s.logged, off, |src|);
  }

  lemma SameUpdate(a: Inodes, b: Inodes, i: nat, ip: Inode)
    requires a.Keys == b.Keys && forall j | j in a && j != i :: a[j] == b[j]
    ensures a[i := ip] == b[i := ip]
  {
  }

  const NO_ADDRS: seq<Word> := [0, 0, 0, 0, 0, 0, 0, 0, 0, 0, 0, 0, 0]

  lemma WithoutSplit(owner: Owner, i: nat)
    ensures Without(Without(owner, i, 0, NDIRECT), i, NDIRECT, NSLOTS) == Without(owner, i, 0, NSLOTS)
  {
  }

  // Without an indirect block there is nothing to give up; with one, its entries and then itself.
  lemma WithoutIndirect(sb: Superblock, inodes: Inodes, blocks: Store, owner: Owner, i: nat)
    requires Owned(sb, inodes, blocks, owner) && i in inodes
    ensures var ind := inodes[i].addrs[NDIRECT];
            if ind == 0 then Without(owner, i, NDIRECT, NSLOTS) == owner
            else ind in blocks && ind in Without(owner, i, NDIRECT + 1, NSLOTS) && sb.datastart <= ind < sb.size
                 && Without(owner, i, NDIRECT, NSLOTS) == Without(owner, i, NDIRECT + 1, NSLOTS) - {ind}
  {
    var ind := inodes[i].addrs[NDIRECT];
    assert OwnedSlot(inodes, blocks, owner, i, NDIRECT);
    forall b | b in owner && owner[b].0 == i && owner[b].1 >= NDIRECT
      ensures ind != 0 && (owner[b].1 == NDIRECT ==> b == ind) && sb.datastart <= b < sb.size
    {
      assert OwnedBlock(sb, inodes, blocks, owner, b);
    }
  }

  /** A writei of at most three blocks' bytes, begun with nothing logged, ends with at most ten blocks logged. */
  lemma LoggedBound(sb: Superblock, i: nat, s0: Snap, mid: Snap, off: nat, n: nat)
    requires LoopWrote(sb, s0, mid, FirstBlock(off), EndBlock(off, n)) && s0.logged == {}
    requires |s0.ip.addrs| == NDIRECT + 1 && NoHoles(s0.ip, s0.blocks)
    requires off <= s0.ip.size && n <= 3 * 512 && off + n <= MAXBYTES
    ensures |Finished(sb, i, mid, off + n).logged| <= MAXOPBLOCKS && |mid.logged| < MAXOPBLOCKS
  {
    SpanOfThree(off, n);
    LoopLogs(sb, s0, mid, FirstBlock(off), EndBlock(off, n));
    TransactionBound(sb, i, s0.ip, s0.blocks, mid.ip, mid.blocks, off, n);
    var logs := Logs(sb, s0.ip, s0.blocks, mid.ip, mid.blocks, FirstBlock(off), EndBlock(off, n));
    assert {} + logs == logs;
    SubsetSize(logs, logs + {sb.Iblock(i) as int});
  }
}
