/**
  Inodes, the blocks they own, and the bytes they hold.

  The slots of an inode are its twelve direct addresses (0..11), its indirect
  block (12) and the 128 addresses inside that block (13..140).  Ownership is
  stated through its inverse: `owner` maps each block in use to the one inode
  and slot that name it, so that no block can be reachable twice.
 */
module BlockMap {
  import opened Blocks
  import opened Bitmap

  const NDIRECT := 12
  const NINDIRECT := 128
  const MAXFILE := 140
  const NSLOTS := 141
  const MAXBYTES := 71680   // MAXFILE * BSIZE

  // On-disk inode fields; addrs has NDIRECT + 1 entries.
  datatype Inode = Inode(kind: int, major: int, minor: int, nlink: int, size: nat, addrs: seq<Word>)

  datatype Superblock = Superblock(size: nat, ninodes: nat, inodestart: nat, bmapstart: nat, datastart: nat)
  {
    // [ boot | super | log | inode blocks | free bit map | data blocks ]
    ghost predicate Valid() {
      && 0 < inodestart
      && inodestart + ninodes / 8 < bmapstart
      && bmapstart + size / 4096 < datastart
      && datastart <= size < 0x1_0000_0000
    }

    // The bit of block b is bit b of the bit map blocks.
    function Bblock(b: nat): (r: nat)
      ensures 4096 * (r - bmapstart) <= b < 4096 * (r - bmapstart) + 4096
    {
      b / 4096 + bmapstart
    }
    // The on-disk inode i is the 64 bytes from byte 64 * i of the inode blocks on.
    function Iblock(i: nat): (r: nat)
      ensures 512 * (r - inodestart) <= 64 * i && 64 * i + 64 <= 512 * (r - inodestart) + 512
    {
      i / 8 + inodestart
    }
  }

  type Inodes = map<nat, Inode>
  type Store = map<int, Block>
  type Owner = map<int, (nat, nat)>

  // Slot that holds the address of the n-th block of a file.
  function DataSlot(n: nat): (s: nat) {
    if n < NDIRECT then n else n + 1
  }

  // Address in slot s, 0 when there is none.
  function SlotVal(ip: Inode, blocks: Store, s: nat): (a: Word)
    requires s < NSLOTS && |ip.addrs| == NDIRECT + 1
  {
    if s <= NDIRECT then ip.addrs[s]
    else if ip.addrs[NDIRECT] == 0 || ip.addrs[NDIRECT] !in blocks then 0
    else GetWord(blocks[ip.addrs[NDIRECT]], s - NDIRECT - 1)
  }

  // Byte k of a file, 0 where no block is mapped.
  function ByteAt(ip: Inode, blocks: Store, k: nat): (c: Byte)
    requires k < MAXBYTES && |ip.addrs| == NDIRECT + 1
  {
    var a := SlotVal(ip, blocks, DataSlot(k / 512));
    if a in blocks then blocks[a][k % 512] else 0
  }

  function Contents(ip: Inode, blocks: Store): (s: seq<Byte>)
    requires ip.size <= MAXBYTES && |ip.addrs| == NDIRECT + 1
  {
    seq(ip.size, k requires 0 <= k < ip.size => ByteAt(ip, blocks, k))
  }

  ghost predicate InodesOk(inodes: Inodes) {
    forall i | i in inodes :: |inodes[i].addrs| == NDIRECT + 1 && inodes[i].size <= MAXBYTES
  }

  ghost predicate DataPresent(sb: Superblock, blocks: Store) {
    forall b | sb.datastart <= b < sb.size :: b in blocks
  }

  // Every nonzero slot and every owned block point at each other.
  ghost predicate Owned(sb: Superblock, inodes: Inodes, blocks: Store, owner: Owner) {
    && sb.Valid() && InodesOk(inodes) && DataPresent(sb, blocks)
    && (forall b {:trigger OwnedBlock(sb, inodes, blocks, owner, b)} | b in owner ::
          OwnedBlock(sb, inodes, blocks, owner, b))
    && (forall i, s: nat | i in inodes && s < NSLOTS :: OwnedSlot(inodes, blocks, owner, i, s))
  }

  ghost predicate OwnedBlock(sb: Superblock, inodes: Inodes, blocks: Store, owner: Owner, b: int)
    requires InodesOk(inodes) && b in owner
  {
    var (i, s) := owner[b];
    sb.datastart <= b < sb.size && i in inodes && s < NSLOTS && SlotVal(inodes[i], blocks, s) == b
  }

  ghost predicate OwnedSlot(inodes: Inodes, blocks: Store, owner: Owner, i: nat, s: nat)
    requires InodesOk(inodes) && i in inodes && s < NSLOTS
  {
    var a := SlotVal(inodes[i], blocks, s);
    a != 0 ==> a in owner && owner[a] == (i, s)
  }

  // The set bits are exactly the reserved blocks and the owned ones.
  ghost predicate BitsMatch(sb: Superblock, bits: seq<bv8>, owned: set<int>) {
    && sb.size <= 8 * |bits|
    && forall b: nat {:trigger Bit(bits, b)} | b < sb.size :: Bit(bits, b) <==> b < sb.datastart || b in owned
  }

  lemma BitsMatchSet(sb: Superblock, bits: seq<bv8>, owned: set<int>, b: nat)
    requires BitsMatch(sb, bits, owned) && sb.datastart <= b < sb.size
    ensures BitsMatch(sb, SetBit(bits, b), owned + {b})
  {
    forall c: nat | c < sb.size
      ensures Bit(SetBit(bits, b), c) <==> c == b || Bit(bits, c)
    {
      SetOne(bits, b, c);
    }
  }

  lemma BitsMatchClear(sb: Superblock, bits: seq<bv8>, owned: set<int>, b: nat)
    requires BitsMatch(sb, bits, owned) && sb.datastart <= b < sb.size
    ensures BitsMatch(sb, ClearBit(bits, b), owned - {b})
  {
    var bits' := ClearBit(bits, b);
    forall c: nat | c < sb.size
      ensures Bit(bits', c) <==> c < sb.datastart || c in owned - {b}
    {
      ClearOne(bits, b, c);
    }
  }

  // Tests the bit of block b and sets it if it was clear.
  method TakeBit(sb: Superblock, bits: seq<bv8>, ghost owned: set<int>, b: nat) returns (taken: bool, bits': seq<bv8>)
    requires BitsMatch(sb, bits, owned) && b < sb.size
    ensures taken <==> sb.datastart <= b && b !in owned
    ensures BitsMatch(sb, bits', if taken then owned + {b} else owned)
    ensures !taken ==> bits' == bits
  {
    taken, bits' := !Bit(bits, b), bits;
    if taken {
      BitsMatchSet(sb, bits, owned, b);
      bits' := SetBit(bits, b);
    }
  }

  // Tests the bit of block b and clears it if it was set.
  method ReleaseBit(sb: Superblock, bits: seq<bv8>, ghost owned: set<int>, b: nat) returns (ok: bool, bits': seq<bv8>)
    requires BitsMatch(sb, bits, owned) && sb.datastart <= b < sb.size
    ensures ok <==> b in owned
    ensures BitsMatch(sb, bits', if ok then owned - {b} else owned)
    ensures !ok ==> bits' == bits
  {
    ok, bits' := Bit(bits, b), bits;
    if ok {
      BitsMatchClear(sb, bits, owned, b);
      bits' := ClearBit(bits, b);
    }
  }

  // No holes below the size.
  ghost predicate NoHoles(ip: Inode, blocks: Store)
    requires |ip.addrs| == NDIRECT + 1
  {
    forall n: nat | n < MAXFILE && n * 512 < ip.size :: SlotVal(ip, blocks, DataSlot(n)) != 0
  }

  /** No block is reachable twice. */
  lemma NoSharing(sb: Superblock, inodes: Inodes, blocks: Store, owner: Owner, i: nat, s: nat, i': nat, s': nat)
    requires Owned(sb, inodes, blocks, owner) && i in inodes && i' in inodes && s < NSLOTS && s' < NSLOTS
    requires SlotVal(inodes[i], blocks, s) == SlotVal(inodes[i'], blocks, s') != 0
    ensures i == i' && s == s'
  {
    assert OwnedSlot(inodes, blocks, owner, i, s) && OwnedSlot(inodes, blocks, owner, i', s');
  }

  /*** Mapping a new block ***/

  // What every mapped block and every file keeps when blocks are only added.
  ghost predicate Extends(inodes: Inodes, blocks: Store, inodes': Inodes, blocks': Store)
    requires InodesOk(inodes) && InodesOk(inodes')
  {
    && inodes'.Keys == inodes.Keys
    && forall i, s: nat | i in inodes && s < NSLOTS :: ExtendsSlot(inodes, blocks, inodes', blocks', i, s)
  }

  ghost predicate ExtendsSlot(inodes: Inodes, blocks: Store, inodes': Inodes, blocks': Store, i: nat, s: nat)
    requires InodesOk(inodes) && InodesOk(inodes') && i in inodes && i in inodes' && s < NSLOTS
  {
    var a := SlotVal(inodes[i], blocks, s);
    a != 0 ==>
      && SlotVal(inodes'[i], blocks', s) == a
      && (s != NDIRECT && a in blocks ==> a in blocks' && blocks'[a] == blocks[a])
  }

  function WithAddr(inodes: Inodes, i: nat, s: nat, r: Word): (inodes': Inodes)
    requires i in inodes && s < |inodes[i].addrs|
  {
    inodes[i := inodes[i].(addrs := inodes[i].addrs[s := r])]
  }

  // A fresh zeroed block r becomes a direct block or the indirect block of inode i.
  lemma MapDirect(sb: Superblock, inodes: Inodes, blocks: Store, owner: Owner, i: nat, s: nat, r: Word)
    requires Owned(sb, inodes, blocks, owner) && i in inodes && s <= NDIRECT && inodes[i].addrs[s] == 0
    requires r !in owner && sb.datastart <= r < sb.size
    ensures var inodes', blocks' := WithAddr(inodes, i, s, r), blocks[r := ZERO_BLOCK];
            && Owned(sb, inodes', blocks', owner[r := (i, s)])
            && Extends(inodes, blocks, inodes', blocks')
            && (forall s': nat | s' < NSLOTS && s' != s ::
                  SlotVal(inodes'[i], blocks', s') == SlotVal(inodes[i], blocks, s'))
  {
    ZeroWords();
    var inodes', blocks', owner' := WithAddr(inodes, i, s, r), blocks[r := ZERO_BLOCK], owner[r := (i, s)];
    forall j, t: nat | j in inodes && t < NSLOTS
      ensures SlotVal(inodes'[j], blocks', t) == if j == i && t == s then r else SlotVal(inodes[j], blocks, t)
    {
      assert OwnedSlot(inodes, blocks, owner, j, NDIRECT);
    }
    forall j, t: nat | j in inodes && t < NSLOTS
      ensures OwnedSlot(inodes', blocks', owner', j, t) && ExtendsSlot(inodes, blocks, inodes', blocks', j, t)
    {
      assert OwnedSlot(inodes, blocks, owner, j, t);
    }
    forall b | b in owner'
      ensures OwnedBlock(sb, inodes', blocks', owner', b)
    {
      if b != r {
        assert OwnedBlock(sb, inodes, blocks, owner, b);
        var (j, t) := owner[b];
        assert SlotVal(inodes'[j], blocks', t) == SlotVal(inodes[j], blocks, t);
      }
    }
  }

  // A fresh zeroed block r is entered into the indirect block of inode i.
  lemma MapIndirect(sb: Superblock, inodes: Inodes, blocks: Store, owner: Owner, i: nat, s: nat, r: Word)
    requires Owned(sb, inodes, blocks, owner) && i in inodes && NDIRECT < s < NSLOTS
    requires inodes[i].addrs[NDIRECT] != 0 && SlotVal(inodes[i], blocks, s) == 0
    requires r !in owner && sb.datastart <= r < sb.size
    ensures var ind := inodes[i].addrs[NDIRECT];
            ind in blocks &&
            var blocks': Store := blocks[r := ZERO_BLOCK][ind := SetWord(blocks[ind], s - NDIRECT - 1, r)];
            && Owned(sb, inodes, blocks', owner[r := (i, s)])
            && Extends(inodes, blocks, inodes, blocks')
            && SlotVal(inodes[i], blocks', s) == r
            && blocks'[r] == ZERO_BLOCK
            && (forall s': nat | s' < NSLOTS && s' != s ::
                  SlotVal(inodes[i], blocks', s') == SlotVal(inodes[i], blocks, s'))
  {
    var ind := inodes[i].addrs[NDIRECT];
    assert OwnedSlot(inodes, blocks, owner, i, NDIRECT);
    assert OwnedBlock(sb, inodes, blocks, owner, ind);
    SetGetWord(blocks[ind], s - NDIRECT - 1, r);
    var blocks', owner' := blocks[r := ZERO_BLOCK][ind := SetWord(blocks[ind], s - NDIRECT - 1, r)], owner[r := (i, s)];
    forall j, t: nat | j in inodes && t < NSLOTS
      ensures SlotVal(inodes[j], blocks', t) == if j == i && t == s then r else SlotVal(inodes[j], blocks, t)
    {
      assert OwnedSlot(inodes, blocks, owner, j, NDIRECT);
    }
    forall j, t: nat | j in inodes && t < NSLOTS
      ensures OwnedSlot(inodes, blocks', owner', j, t) && ExtendsSlot(inodes, blocks, inodes, blocks', j, t)
    {
      assert OwnedSlot(inodes, blocks, owner, j, t);
    }
    forall b | b in owner'
      ensures OwnedBlock(sb, inodes, blocks', owner', b)
    {
      assert b in owner ==> OwnedBlock(sb, inodes, blocks, owner, b);
    }
  }

  lemma ExtendsTrans(a: Inodes, x: Store, b: Inodes, y: Store, c: Inodes, z: Store)
    requires InodesOk(a) && InodesOk(b) && InodesOk(c) && Extends(a, x, b, y) && Extends(b, y, c, z)
    ensures Extends(a, x, c, z)
  {
    forall i, s: nat | i in a && s < NSLOTS
      ensures ExtendsSlot(a, x, c, z, i, s)
    {
      assert ExtendsSlot(a, x, b, y, i, s) && ExtendsSlot(b, y, c, z, i, s);
    }
  }

  /*** Writing data into a mapped block ***/

  lemma WriteData(sb: Superblock, inodes: Inodes, blocks: Store, owner: Owner, i: nat, bn: nat, data: Block)
    requires Owned(sb, inodes, blocks, owner) && i in inodes && bn < MAXFILE
    requires SlotVal(inodes[i], blocks, DataSlot(bn)) != 0
    ensures var blocks' := blocks[SlotVal(inodes[i], blocks, DataSlot(bn)) := data];
            && Owned(sb, inodes, blocks', owner)
            && (forall j, s: nat | j in inodes && s < NSLOTS ::
                  SlotVal(inodes[j], blocks', s) == SlotVal(inodes[j], blocks, s))
  {
    var a := SlotVal(inodes[i], blocks, DataSlot(bn));
    var blocks' := blocks[a := data];
    assert OwnedSlot(inodes, blocks, owner, i, DataSlot(bn));
    forall j, s: nat | j in inodes && s < NSLOTS
      ensures SlotVal(inodes[j], blocks', s) == SlotVal(inodes[j], blocks, s)
    {
      assert OwnedSlot(inodes, blocks, owner, j, NDIRECT);
    }
    forall j, s: nat | j in inodes && s < NSLOTS
      ensures OwnedSlot(inodes, blocks', owner, j, s)
    {
      assert OwnedSlot(inodes, blocks, owner, j, s);
    }
    forall b | b in owner
      ensures OwnedBlock(sb, inodes, blocks', owner, b)
    {
      assert OwnedBlock(sb, inodes, blocks, owner, b);
    }
  }

  lemma WriteDataByte(sb: Superblock, inodes: Inodes, blocks: Store, owner: Owner, i: nat, bn: nat, data: Block, j: nat,
                      k: nat)
    requires Owned(sb, inodes, blocks, owner) && i in inodes && bn < MAXFILE && j in inodes && k < MAXBYTES
    requires SlotVal(inodes[i], blocks, DataSlot(bn)) != 0
    ensures ByteAt(inodes[j], blocks[SlotVal(inodes[i], blocks, DataSlot(bn)) := data], k)
            == if j == i && k / 512 == bn then data[k % 512] else ByteAt(inodes[j], blocks, k)
  {
    WriteData(sb, inodes, blocks, owner, i, bn, data);
    assert OwnedSlot(inodes, blocks, owner, i, DataSlot(bn));
    assert OwnedSlot(inodes, blocks, owner, j, DataSlot(k / 512));
    assert OwnedBlock(sb, inodes, blocks, owner, SlotVal(inodes[i], blocks, DataSlot(bn)));
  }

  // Bytes in mapped blocks survive when blocks are only added.
  lemma ExtendsBytes(sb: Superblock, inodes: Inodes, blocks: Store, owner: Owner, inodes': Inodes, blocks': Store,
                     j: nat, k: nat)
    requires Owned(sb, inodes, blocks, owner) && InodesOk(inodes') && Extends(inodes, blocks, inodes', blocks')
    requires j in inodes && k < MAXBYTES && SlotVal(inodes[j], blocks, DataSlot(k / 512)) != 0
    ensures ByteAt(inodes'[j], blocks', k) == ByteAt(inodes[j], blocks, k)
  {
    var s := DataSlot(k / 512);
    assert ExtendsSlot(inodes, blocks, inodes', blocks', j, s);
    assert OwnedSlot(inodes, blocks, owner, j, s);
    assert OwnedBlock(sb, inodes, blocks, owner, SlotVal(inodes[j], blocks, s));
  }

  /*** Overwriting a file from offset off, as far as position cur ***/

  function Overwrite(c: seq<Byte>, off: nat, src: seq<Byte>): (r: seq<Byte>)
    requires off <= |c|
  {
    if off + |src| >= |c| then c[..off] + src else c[..off] + src + c[off + |src|..]
  }

  ghost predicate Mapped(ip: Inode, blocks: Store, k: nat)
    requires k < MAXBYTES && |ip.addrs| == NDIRECT + 1
  {
    SlotVal(ip, blocks, DataSlot(k / 512)) != 0
  }

  // src[..cur - off] has been written to file i, and no other byte that was in a block has changed.
  ghost predicate Progress(inodes0: Inodes, blocks0: Store, inodes: Inodes, blocks: Store, i: nat, off: nat, cur: nat,
                           src: seq<Byte>)
    requires InodesOk(inodes0) && InodesOk(inodes)
  {
    && i in inodes0 && inodes.Keys == inodes0.Keys
    && off <= inodes0[i].size && off <= cur <= off + |src| && cur <= MAXBYTES
    && (forall j | j in inodes && j != i :: inodes[j] == inodes0[j])
    && inodes[i] == inodes0[i].(addrs := inodes[i].addrs)
    && (forall j, s: nat | j in inodes && s < NSLOTS :: KeepsSlot(inodes0, blocks0, inodes, blocks, j, s))
    && (forall j, k: nat | j in inodes && k < inodes[j].size && (j != i || k < off || cur <= k) ::
          Mapped(inodes0[j], blocks0, k) ==>
            Mapped(inodes[j], blocks, k) && ByteAt(inodes[j], blocks, k) == ByteAt(inodes0[j], blocks0, k))
    && (forall k: nat | off <= k < cur :: Mapped(inodes[i], blocks, k) && ByteAt(inodes[i], blocks, k) == src[k - off])
  }

  ghost predicate KeepsSlot(inodes0: Inodes, blocks0: Store, inodes: Inodes, blocks: Store, j: nat, s: nat)
    requires InodesOk(inodes0) && InodesOk(inodes) && j in inodes0 && j in inodes && s < NSLOTS
  {
    SlotVal(inodes0[j], blocks0, s) != 0 ==> SlotVal(inodes[j], blocks, s) == SlotVal(inodes0[j], blocks0, s)
  }

  // Mapping blocks keeps the progress made.
  lemma ProgressExtends(sb: Superblock, inodes0: Inodes, blocks0: Store, inodes: Inodes, blocks: Store, owner: Owner,
                        inodes': Inodes, blocks': Store, i: nat, off: nat, cur: nat, src: seq<Byte>)
    requires InodesOk(inodes0) && Owned(sb, inodes, blocks, owner) && InodesOk(inodes')
    requires Progress(inodes0, blocks0, inodes, blocks, i, off, cur, src)
    requires Extends(inodes, blocks, inodes', blocks')
    requires forall j | j in inodes && j != i :: inodes'[j] == inodes[j]
    requires inodes'[i] == inodes[i].(addrs := inodes'[i].addrs)
    ensures Progress(inodes0, blocks0, inodes', blocks', i, off, cur, src)
  {
    forall j, s: nat | j in inodes && s < NSLOTS
      ensures KeepsSlot(inodes0, blocks0, inodes', blocks', j, s)
    {
      assert KeepsSlot(inodes0, blocks0, inodes, blocks, j, s);
      assert ExtendsSlot(inodes, blocks, inodes', blocks', j, s);
    }
    forall j, k: nat | j in inodes && k < MAXBYTES && Mapped(inodes[j], blocks, k)
      ensures Mapped(inodes'[j], blocks', k) && ByteAt(inodes'[j], blocks', k) == ByteAt(inodes[j], blocks, k)
    {
      assert ExtendsSlot(inodes, blocks, inodes', blocks', j, DataSlot(k / 512));
      ExtendsBytes(sb, inodes, blocks, owner, inodes', blocks', j, k);
    }
  }

  // The block holding position cur after m more bytes of src are copied into it.
  function Patched(was: Block, at: nat, piece: seq<Byte>): (r: Block)
    requires at + |piece| <= 512
  {
    was[..at] + piece + was[at + |piece|..]
  }

  // The bytes of every file after a piece of one file block is overwritten.
  lemma WritePiece(sb: Superblock, inodes: Inodes, blocks: Store, owner: Owner, i: nat, cur: nat, piece: seq<Byte>)
    requires Owned(sb, inodes, blocks, owner) && i in inodes
    requires 0 < |piece| && cur % 512 + |piece| <= 512 && cur + |piece| <= MAXBYTES
    requires Mapped(inodes[i], blocks, cur) && SlotVal(inodes[i], blocks, DataSlot(cur / 512)) in blocks
    ensures var a := SlotVal(inodes[i], blocks, DataSlot(cur / 512));
            var blocks' := blocks[a := Patched(blocks[a], cur % 512, piece)];
            forall j, k: nat | j in inodes && k < MAXBYTES && Mapped(inodes[j], blocks, k) ::
              && Mapped(inodes[j], blocks', k)
              && ByteAt(inodes[j], blocks', k) ==
                 if j == i && cur <= k < cur + |piece| then piece[k - cur] else ByteAt(inodes[j], blocks, k)
  {
    var bn := cur / 512;
    var a := SlotVal(inodes[i], blocks, DataSlot(bn));
    var data := Patched(blocks[a], cur % 512, piece);
    var blocks' := blocks[a := data];
    WriteData(sb, inodes, blocks, owner, i, bn, data);
    forall j, k: nat | j in inodes && k < MAXBYTES && Mapped(inodes[j], blocks, k)
      ensures Mapped(inodes[j], blocks', k)
      ensures ByteAt(inodes[j], blocks', k) ==
              if j == i && cur <= k < cur + |piece| then piece[k - cur] else ByteAt(inodes[j], blocks, k)
    {
      WriteDataByte(sb, inodes, blocks, owner, i, bn, data, j, k);
    }
  }

  lemma ProgressWrite(sb: Superblock, inodes0: Inodes, blocks0: Store, inodes: Inodes, blocks: Store, owner: Owner,
                      i: nat, off: nat, cur: nat, src: seq<Byte>, m: nat)
    requires InodesOk(inodes0) && Owned(sb, inodes, blocks, owner)
    requires Progress(inodes0, blocks0, inodes, blocks, i, off, cur, src)
    requires 0 < m && cur % 512 + m <= 512 && cur + m <= off + |src| && cur + m <= MAXBYTES
    requires Mapped(inodes[i], blocks, cur) && SlotVal(inodes[i], blocks, DataSlot(cur / 512)) in blocks
    ensures var a := SlotVal(inodes[i], blocks, DataSlot(cur / 512));
            var blocks' := blocks[a := Patched(blocks[a], cur % 512, src[cur - off..cur - off + m])];
            && Owned(sb, inodes, blocks', owner)
            && Progress(inodes0, blocks0, inodes, blocks', i, off, cur + m, src)
            && (forall j, s: nat | j in inodes && s < NSLOTS ::
                  SlotVal(inodes[j], blocks', s) == SlotVal(inodes[j], blocks, s))
  {
    var bn := cur / 512;
    var a := SlotVal(inodes[i], blocks, DataSlot(bn));
    var data := Patched(blocks[a], cur % 512, src[cur - off..cur - off + m]);
    var blocks' := blocks[a := data];
    WriteData(sb, inodes, blocks, owner, i, bn, data);
    forall j, s: nat | j in inodes && s < NSLOTS
      ensures KeepsSlot(inodes0, blocks0, inodes, blocks', j, s)
    {
      assert KeepsSlot(inodes0, blocks0, inodes, blocks, j, s);
    }
    WritePiece(sb, inodes, blocks, owner, i, cur, src[cur - off..cur - off + m]);
    assert forall k: nat | cur <= k < cur + m :: k / 512 == bn && Mapped(inodes[i], blocks, k);
  }

  /*** The end of a write ***/

  // Changing a size moves no address and no byte.
  lemma Resize(sb: Superblock, inodes: Inodes, blocks: Store, owner: Owner, i: nat, size: nat)
    requires Owned(sb, inodes, blocks, owner) && i in inodes && size <= MAXBYTES
    ensures Owned(sb, inodes[i := inodes[i].(size := size)], blocks, owner)
  {
    var inodes' := inodes[i := inodes[i].(size := size)];
    forall j, s: nat | j in inodes && s < NSLOTS
      ensures SlotVal(inodes'[j], blocks, s) == SlotVal(inodes[j], blocks, s)
      ensures OwnedSlot(inodes', blocks, owner, j, s)
    {
      assert OwnedSlot(inodes, blocks, owner, j, s);
    }
    forall b | b in owner
      ensures OwnedBlock(sb, inodes', blocks, owner, b)
    {
      assert OwnedBlock(sb, inodes, blocks, owner, b);
    }
  }

  lemma MappedNoHoles(ip: Inode, blocks: Store)
    requires |ip.addrs| == NDIRECT + 1 && ip.size <= MAXBYTES && forall k: nat | k < ip.size :: Mapped(ip, blocks, k)
    ensures NoHoles(ip, blocks)
  {
    forall n: nat | n < MAXFILE && n * 512 < ip.size
      ensures SlotVal(ip, blocks, DataSlot(n)) != 0
    {
      var k := n * 512;
      assert k / 512 == n;
      assert Mapped(ip, blocks, k);
    }
  }

  // Byte by byte, a file is an overwritten one.
  lemma OverwriteBytes(ip0: Inode, blocks0: Store, ip: Inode, blocks: Store, off: nat, src: seq<Byte>)
    requires |ip0.addrs| == |ip.addrs| == NDIRECT + 1 && ip0.size <= MAXBYTES && ip.size <= MAXBYTES && off <= ip0.size
    requires ip.size == if off + |src| > ip0.size then off + |src| else ip0.size
    requires forall k: nat | k < ip.size ::
               ByteAt(ip, blocks, k) == if off <= k < off + |src| then src[k - off] else ByteAt(ip0, blocks0, k)
    ensures Contents(ip, blocks) == Overwrite(Contents(ip0, blocks0), off, src)
  {
    var c, d := Contents(ip, blocks), Overwrite(Contents(ip0, blocks0), off, src);
    assert |c| == |d|;
    forall k: nat | k < |c|
      ensures c[k] == d[k]
    {
    }
  }

  // A piece of the block at position cur is that piece of the file.
  lemma ReadPiece(sb: Superblock, inodes: Inodes, blocks: Store, owner: Owner, i: nat, cur: nat, m: nat)
    requires Owned(sb, inodes, blocks, owner) && i in inodes
    requires cur % 512 + m <= 512 && cur + m <= inodes[i].size && 0 < m
    requires Mapped(inodes[i], blocks, cur)
    ensures var a := SlotVal(inodes[i], blocks, DataSlot(cur / 512));
            a in blocks && blocks[a][cur % 512..cur % 512 + m] == Contents(inodes[i], blocks)[cur..cur + m]
  {
    var a := SlotVal(inodes[i], blocks, DataSlot(cur / 512));
    assert OwnedSlot(inodes, blocks, owner, i, DataSlot(cur / 512));
    assert OwnedBlock(sb, inodes, blocks, owner, a);
    var x, y := blocks[a][cur % 512..cur % 512 + m], Contents(inodes[i], blocks)[cur..cur + m];
    forall t: nat | t < m
      ensures x[t] == y[t]
    {
      assert (cur + t) / 512 == cur / 512 && (cur + t) % 512 == cur % 512 + t;
    }
  }

  /*** Truncation ***/

  // `owner` without the blocks in slots lo..hi of inode i.
  ghost function Without(owner: Owner, i: nat, lo: nat, hi: nat): (r: Owner) {
    map b | b in owner && !(owner[b].0 == i && lo <= owner[b].1 < hi) :: owner[b]
  }

  // Taking one more slot out takes out the block it names, or nothing.
  lemma WithoutStep(sb: Superblock, inodes: Inodes, blocks: Store, owner: Owner, i: nat, lo: nat, hi: nat)
    requires Owned(sb, inodes, blocks, owner) && i in inodes && lo <= hi < NSLOTS
    ensures var a := SlotVal(inodes[i], blocks, hi);
            if a == 0 then Without(owner, i, lo, hi + 1) == Without(owner, i, lo, hi)
            else a in Without(owner, i, lo, hi) && sb.datastart <= a < sb.size
                 && Without(owner, i, lo, hi + 1) == Without(owner, i, lo, hi) - {a}
  {
    var a := SlotVal(inodes[i], blocks, hi);
    assert OwnedSlot(inodes, blocks, owner, i, hi);
    forall b | b in owner && owner[b] == (i, hi)
      ensures b == a && sb.datastart <= b < sb.size
    {
      assert OwnedBlock(sb, inodes, blocks, owner, b);
    }
  }

  // Clearing a direct address gives up just that block.
  lemma UnmapDirect(sb: Superblock, inodes: Inodes, blocks: Store, owner: Owner, i: nat, s: nat)
    requires Owned(sb, inodes, blocks, owner) && i in inodes && s < NDIRECT
    ensures Owned(sb, WithAddr(inodes, i, s, 0), blocks, Without(owner, i, s, s + 1))
  {
    var inodes', owner' := WithAddr(inodes, i, s, 0), Without(owner, i, s, s + 1);
    forall j, t: nat | j in inodes && t < NSLOTS
      ensures SlotVal(inodes'[j], blocks, t) == if j == i && t == s then 0 else SlotVal(inodes[j], blocks, t)
      ensures OwnedSlot(inodes', blocks, owner', j, t)
    {
      assert OwnedSlot(inodes, blocks, owner, j, t);
    }
    forall b | b in owner'
      ensures OwnedBlock(sb, inodes', blocks, owner', b)
    {
      assert OwnedBlock(sb, inodes, blocks, owner, b);
    }
  }

  // Clearing the indirect address gives up the indirect block and everything entered in it.
  lemma UnmapIndirect(sb: Superblock, inodes: Inodes, blocks: Store, owner: Owner, i: nat)
    requires Owned(sb, inodes, blocks, owner) && i in inodes
    ensures Owned(sb, WithAddr(inodes, i, NDIRECT, 0), blocks, Without(owner, i, NDIRECT, NSLOTS))
  {
    var inodes', owner' := WithAddr(inodes, i, NDIRECT, 0), Without(owner, i, NDIRECT, NSLOTS);
    forall j, t: nat | j in inodes && t < NSLOTS
      ensures SlotVal(inodes'[j], blocks, t) == if j == i && t >= NDIRECT then 0 else SlotVal(inodes[j], blocks, t)
      ensures OwnedSlot(inodes', blocks, owner', j, t)
    {
      assert OwnedSlot(inodes, blocks, owner, j, t);
    }
    forall b | b in owner'
      ensures OwnedBlock(sb, inodes', blocks, owner', b)
    {
      assert OwnedBlock(sb, inodes, blocks, owner, b);
    }
  }

  /*** A file overwritten, stated byte by byte ***/

  // Byte k of file i: from src if `done` bytes of it written at off0 cover k, else as it was.
  ghost predicate ByteOk(inodes0: Inodes, blocks0: Store, inodes: Inodes, blocks: Store, i: nat, off0: nat,
                         src: seq<Byte>, done: nat, k: nat)
    requires InodesOk(inodes0) && InodesOk(inodes) && i in inodes0 && i in inodes && done <= |src|
  {
    k < inodes[i].size ==>
      ByteAt(inodes[i], blocks, k) == if off0 <= k < off0 + done then src[k - off0] else ByteAt(inodes0[i], blocks0, k)
  }

  ghost predicate SameFile(inodes0: Inodes, blocks0: Store, inodes: Inodes, blocks: Store, j: nat)
    requires InodesOk(inodes0) && InodesOk(inodes) && j in inodes0 && j in inodes
  {
    Contents(inodes[j], blocks) == Contents(inodes0[j], blocks0)
  }

  // File i is what it was with `done` bytes of src written at off0, and the other files are what they were.
  ghost predicate WrittenSoFar(inodes0: Inodes, blocks0: Store, inodes: Inodes, blocks: Store, i: nat, off0: nat,
                               src: seq<Byte>, done: nat)
    requires InodesOk(inodes0) && InodesOk(inodes)
  {
    && i in inodes0 && inodes.Keys == inodes0.Keys && done <= |src| && inodes[i].kind == inodes0[i].kind
    && (done > 0 ==> off0 <= inodes0[i].size)
    && inodes[i].size == (if done > 0 && off0 + done > inodes0[i].size then off0 + done else inodes0[i].size)
    && (forall k: nat {:trigger ByteOk(inodes0, blocks0, inodes, blocks, i, off0, src, done, k)} ::
          ByteOk(inodes0, blocks0, inodes, blocks, i, off0, src, done, k))
    && (forall j {:trigger SameFile(inodes0, blocks0, inodes, blocks, j)} | j in inodes && j != i ::
          SameFile(inodes0, blocks0, inodes, blocks, j))
  }

  /** ... which is to say that its contents have been overwritten. */
  lemma WrittenMeans(inodes0: Inodes, blocks0: Store, inodes: Inodes, blocks: Store, i: nat, off0: nat, src: seq<Byte>,
                     done: nat)
    requires InodesOk(inodes0) && InodesOk(inodes) && WrittenSoFar(inodes0, blocks0, inodes, blocks, i, off0, src, done)
    ensures done == 0 ==> Contents(inodes[i], blocks) == Contents(inodes0[i], blocks0)
    ensures done > 0 ==> Contents(inodes[i], blocks) == Overwrite(Contents(inodes0[i], blocks0), off0, src[..done])
    ensures forall j | j in inodes && j != i :: Contents(inodes[j], blocks) == Contents(inodes0[j], blocks0)
  {
    forall k: nat | k < inodes[i].size
      ensures ByteAt(inodes[i], blocks, k)
              == if off0 <= k < off0 + done then src[k - off0] else ByteAt(inodes0[i], blocks0, k)
    {
      assert ByteOk(inodes0, blocks0, inodes, blocks, i, off0, src, done, k);
    }
    if done > 0 {
      OverwriteBytes(inodes0[i], blocks0, inodes[i], blocks, off0, src[..done]);
    }
    forall j | j in inodes && j != i
      ensures Contents(inodes[j], blocks) == Contents(inodes0[j], blocks0)
    {
      assert SameFile(inodes0, blocks0, inodes, blocks, j);
    }
  }

  lemma NothingWritten(inodes: Inodes, blocks: Store, i: nat, off0: nat, src: seq<Byte>)
    requires InodesOk(inodes) && i in inodes
    ensures WrittenSoFar(inodes, blocks, inodes, blocks, i, off0, src, 0)
  {
  }

  lemma AlreadyMapped(ip: Inode, blocks: Store, k: nat)
    requires |ip.addrs| == NDIRECT + 1 && NoHoles(ip, blocks) && k < ip.size <= MAXBYTES
    ensures Mapped(ip, blocks, k)
  {
    assert k / 512 * 512 <= k;
  }

  lemma ProgressWritten(inodes0: Inodes, blocks0: Store, inodes: Inodes, blocks: Store, i: nat, off: nat,
                        src: seq<Byte>, size: nat)
    requires InodesOk(inodes0) && InodesOk(inodes)
    requires Progress(inodes0, blocks0, inodes, blocks, i, off, off + |src|, src)
    requires size == if off + |src| > inodes0[i].size then off + |src| else inodes0[i].size
    requires forall j | j in inodes0 :: NoHoles(inodes0[j], blocks0)
    ensures WrittenSoFar(inodes0, blocks0, inodes[i := inodes[i].(size := size)], blocks, i, off, src, |src|)
    ensures forall j | j in inodes :: NoHoles(inodes[i := inodes[i].(size := size)][j], blocks)
  {
    var ip, inodes' := inodes[i].(size := size), inodes[i := inodes[i].(size := size)];
    forall j, k: nat | j in inodes0 && k < inodes0[j].size
      ensures Mapped(inodes0[j], blocks0, k)
    {
      AlreadyMapped(inodes0[j], blocks0, k);
    }
    forall k: nat | k < size
      ensures Mapped(ip, blocks, k)
      ensures ByteAt(ip, blocks, k) == if off <= k < off + |src| then src[k - off] else ByteAt(inodes0[i], blocks0, k)
    {
      assert Mapped(inodes[i], blocks, k) && ByteAt(inodes[i], blocks, k) == ByteAt(ip, blocks, k);
    }
    MappedNoHoles(ip, blocks);
    forall j | j in inodes && j != i
      ensures SameFile(inodes0, blocks0, inodes', blocks, j) && NoHoles(inodes[j], blocks)
    {
      MappedNoHoles(inodes[j], blocks);
    }
  }
}
