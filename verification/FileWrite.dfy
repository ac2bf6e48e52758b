/** file.c's write path: a large write is cut into transactions that each fit the log. */
module FileWrite {
  import opened Blocks
  import opened BlockMap
  import opened WriteCost
  import opened WriteNeed
  import opened Files

  const CHUNK := 1536   // ((MAXOPBLOCKS - 1 - 1 - 2) / 2) * BSIZE

  datatype Outcome =
    | Wrote(n: nat)
    | Failed       // the call returned -1
    | ToDevice     // handed to a device driver
    | Halted       // the kernel stopped in balloc

  /*** The blocks that the chunks of a write take ***/

  // A chunk: the states before it and at the end of its loop, and its bytes.
  datatype Chunk = Chunk(before: Snap, mid: Snap, bytes: nat)

  // The chunks lead from s0 to s and write n bytes at off of inode i.
  ghost predicate Chunked(sb: Superblock, i: nat, s0: Snap, s: Snap, off: nat, n: nat, cs: seq<Chunk>)
    decreases |cs|
  {
    if cs == [] then s == s0 && n == 0
    else
      var c := cs[|cs| - 1];
      && 0 < c.bytes <= n && off + n <= MAXBYTES && Chunked(sb, i, s0, c.before, off, n - c.bytes, cs[..|cs| - 1])
      && LoopWrote(sb, c.before.(logged := {}), c.mid, FirstBlock(off + n - c.bytes),
                   EndBlock(off + n - c.bytes, c.bytes))
      && s == Finished(sb, i, c.mid, off + n)
  }

  // A whole writei; neither the log nor the new size matters to the account.
  lemma ChunkTaken(sb: Superblock, i: nat, s: Snap, mid: Snap, off: nat, n: nat)
    requires off + n <= MAXBYTES && |s.ip.addrs| == NDIRECT + 1
    requires LoopWrote(sb, s.(logged := {}), mid, FirstBlock(off), EndBlock(off, n))
    ensures Taken(sb, s, Finished(sb, i, mid, off + n), off, n)
  {
    var s' := Finished(sb, i, mid, off + n);
    LoopTaken(sb, s.(logged := {}), mid, off, n);
    forall x: nat | x < MAXFILE
      ensures Addr(s'.ip, s'.blocks, x) == Addr(mid.ip, mid.blocks, x)
    {
    }
  }

  lemma ChunkAfter(sb: Superblock, i: nat, s0: Snap, s: Snap, mid: Snap, off: nat, n: nat, m: nat)
    requires m > 0 && off + n + m <= MAXBYTES && Taken(sb, s0, s, off, n) && |s.ip.addrs| == NDIRECT + 1
    requires LoopWrote(sb, s.(logged := {}), mid, FirstBlock(off + n), EndBlock(off + n, m))
    ensures Taken(sb, s0, Finished(sb, i, mid, off + n + m), off, n + m)
  {
    ChunkTaken(sb, i, s, mid, off + n, m);
    TakenMore(sb, s0, s, Finished(sb, i, mid, off + n + m), off, n, m);
  }

  lemma {:induction false} ChunksTaken(sb: Superblock, i: nat, s0: Snap, s: Snap, off: nat, n: nat, cs: seq<Chunk>)
    requires Chunked(sb, i, s0, s, off, n, cs) && off + n <= MAXBYTES && |s0.ip.addrs| == NDIRECT + 1
    ensures var taken := Taken(sb, s0, s, off, n); taken
    decreases |cs|
  {
    if cs == [] {
      NothingTaken(sb, s0, off);
    } else {
      var c := cs[|cs| - 1];
      ChunksTaken(sb, i, s0, c.before, off, n - c.bytes, cs[..|cs| - 1]);
      ChunkAfter(sb, i, s0, c.before, c.mid, off, n - c.bytes, c.bytes);
    }
  }

  /**
    Chunk by chunk, a write takes the blocks that one write of all its bytes
    would need: the next chunk finds enough free blocks, so that the kernel does
    not halt, if and only if there were enough for all the bytes up to its end.
   */
  lemma ChunkFitsIff(sb: Superblock, i: nat, s0: Snap, s: Snap, off: nat, n: nat, cs: seq<Chunk>, m: nat)
    requires Chunked(sb, i, s0, s, off, n, cs) && m > 0 && off + n + m <= MAXBYTES && |s0.ip.addrs| == NDIRECT + 1
    ensures |s.ip.addrs| == NDIRECT + 1 && (Fits(sb, s, off + n, m) <==> Fits(sb, s0, off, n + m))
  {
    ChunksTaken(sb, i, s0, s, off, n, cs);
    FitsMore(sb, s0, s, off, n, m);
  }

  /*** A write in several transactions ***/

  lemma WrittenMore(inodes0: Inodes, blocks0: Store, a: Inodes, x: Store, b: Inodes, y: Store, i: nat, off0: nat,
                    src: seq<Byte>, done: nat, now: nat)
    requires InodesOk(inodes0) && InodesOk(a) && InodesOk(b) && WrittenSoFar(inodes0, blocks0, a, x, i, off0, src, done)
    requires done < now <= |src| && off0 + done <= a[i].size
    requires WrittenSoFar(a, x, b, y, i, off0 + done, src[done..now], now - done)
    ensures WrittenSoFar(inodes0, blocks0, b, y, i, off0, src, now)
  {
    var piece := src[done..now];
    forall k: nat {:trigger ByteOk(inodes0, blocks0, b, y, i, off0, src, now, k)}
      ensures ByteOk(inodes0, blocks0, b, y, i, off0, src, now, k)
    {
      assert ByteOk(inodes0, blocks0, a, x, i, off0, src, done, k);
      assert ByteOk(a, x, b, y, i, off0 + done, piece, now - done, k);
    }
    forall j | j in b && j != i
      ensures SameFile(inodes0, blocks0, b, y, j)
    {
      assert SameFile(inodes0, blocks0, a, x, j) && SameFile(a, x, b, y, j);
    }
  }

  class OpenFile {
    const ip: nat
    const writable: bool
    var off: nat

    constructor (ip: nat, writable: bool)
      ensures this.ip == ip && this.writable == writable && off == 0
    {
      this.ip, this.writable, off := ip, writable, 0;
    }

    // One transaction of filewrite: begin_op, writei of a chunk, end_op.
    method WriteChunk(fs: FileSystem, src: seq<Byte>) returns (r: IoResult)
      requires fs.Consistent() && ip in fs.inodes && off < 0x1_0000_0000 && |src| <= CHUNK
      modifies this, fs
      ensures r.Device? <==> old(fs.inodes)[ip].kind == T_DEV
      ensures r.Rejected? <==>
                old(fs.inodes)[ip].kind != T_DEV && (old(off) > old(fs.inodes)[ip].size || old(off) + |src| > MAXBYTES)
      ensures r.Device? || r.Rejected? ==>
                off == old(off) && fs.Consistent() && fs.inodes == old(fs.inodes)
                && fs.blocks == old(fs.blocks) && fs.logged == {}
      ensures r.Done? ==> r.count == |src| && off == old(off) + |src| <= MAXBYTES && fs.Consistent()
      ensures r.Done? ==> old(off) <= old(fs.inodes)[ip].size
      ensures r.Done? ==> WrittenSoFar(old(fs.inodes), old(fs.blocks), fs.inodes, fs.blocks, ip, old(off), src, |src|)
      ensures r.Done? ==> |fs.logged| <= MAXOPBLOCKS
      ensures r.OutOfBlocks? ==> fs.DiskFull() && old(off) + |src| > old(fs.inodes)[ip].size
    {
      fs.BeginTransaction();
      ghost var s0 := fs.SnapOf(ip);
      ghost var mid;
      r, mid := fs.Writei(ip, src, off);
      if r.Done? {
        LoggedBound(fs.sb, ip, s0, mid, off, |src|);
        off := off + r.count;
      }
    }

    // One round of filewrite's loop: the n1 bytes of src from position i.
    method WriteNext(fs: FileSystem, src: seq<Byte>, i: nat, n1: nat, ghost inodes0: Inodes, ghost blocks0: Store,
                     ghost off0: nat)
      returns (r: IoResult)
      requires fs.Consistent() && off < 0x1_0000_0000 && 0 < n1 <= CHUNK && i + n1 <= |src| && off == off0 + i
      requires InodesOk(inodes0) && WrittenSoFar(inodes0, blocks0, fs.inodes, fs.blocks, ip, off0, src, i)
      modifies this, fs
      ensures r.Device? ==> inodes0[ip].kind == T_DEV
      ensures r.Rejected? ==> off > old(fs.inodes)[ip].size || off + n1 > MAXBYTES
      ensures !r.Done? && !r.OutOfBlocks? ==> off == old(off) && fs.inodes == old(fs.inodes)
      ensures if r.OutOfBlocks? then fs.DiskFull() else fs.Consistent()
      ensures r.OutOfBlocks? ==> old(off) + n1 > old(fs.inodes)[ip].size
      ensures r.Done? ==> off == off0 + i + n1 <= MAXBYTES && |fs.logged| <= MAXOPBLOCKS
      ensures !r.OutOfBlocks? ==>
                WrittenSoFar(inodes0, blocks0, fs.inodes, fs.blocks, ip, off0, src, if r.Done? then i + n1 else i)
    {
      ghost var inodes1, blocks1 := fs.inodes, fs.blocks;
      r := WriteChunk(fs, src[i..i + n1]);
      if r.Done? {
        WrittenMore(inodes0, blocks0, inodes1, blocks1, fs.inodes, fs.blocks, ip, off0, src, i, i + n1);
      }
    }

    /**
      filewrite.  Whatever the size of the request, every transaction logs at
      most MAXOPBLOCKS blocks; the file ends up overwritten with the first
      `done` bytes, done counts exactly the bytes the offset advanced, and the
      call succeeds if and only if nothing was left over.  A call that fails
      stopped at a chunk that starts past the size or ends past MAXFILE; the kernel
      halts only when no data block is free and the file has to grow.
     */
    method Write(fs: FileSystem, src: seq<Byte>) returns (r: Outcome, ghost done: nat, ghost txns: seq<set<int>>)
      requires fs.Consistent() && ip in fs.inodes && off < 0x1_0000_0000
      modifies this, fs
      ensures !writable ==> r.Failed? && fs.blocks == old(fs.blocks) && fs.inodes == old(fs.inodes) && off == old(off)
      ensures forall t | t in txns :: |t| <= MAXOPBLOCKS
      ensures r.ToDevice? ==> old(fs.inodes)[ip].kind == T_DEV
      ensures r.Halted? ==> fs.DiskFull() && old(off) + |src| > old(fs.inodes)[ip].size
      ensures r.Wrote? || r.Failed? ==> fs.Consistent() && off == old(off) + done
      ensures r.Wrote? || r.Failed? ==>
                WrittenSoFar(old(fs.inodes), old(fs.blocks), fs.inodes, fs.blocks, ip, old(off), src, done)
      ensures r.Wrote? ==> r.n == |src| == done
      ensures writable && r.Failed? ==>
                var next := if |src| - done < CHUNK then |src| - done else CHUNK;
                done < |src| && (off > fs.inodes[ip].size || off + next > MAXBYTES)
    {
      txns, done := [], 0;
      if !writable {
        NothingWritten(fs.inodes, fs.blocks, ip, off, src);
        return Failed, 0, [];
      }
      var i := 0;
      NothingWritten(fs.inodes, fs.blocks, ip, off, src);
      while i < |src|
        invariant 0 <= i <= |src| && off == old(off) + i && off < 0x1_0000_0000
        invariant fs.Consistent()
        invariant WrittenSoFar(old(fs.inodes), old(fs.blocks), fs.inodes, fs.blocks, ip, old(off), src, i)
        invariant forall t | t in txns :: |t| <= MAXOPBLOCKS
        decreases |src| - i
      {
        var n1 := |src| - i;
        if n1 > CHUNK {
          n1 := CHUNK;
        }
        var c := WriteNext(fs, src, i, n1, old(fs.inodes), old(fs.blocks), old(off));
        match c
        case OutOfBlocks =>
          return Halted, i, txns;
        case Device =>
          return ToDevice, i, txns;
        case Rejected =>
          return Failed, i, txns;
        case Done(_) =>
          txns := txns + [fs.logged];
          i := i + n1;
      }
      return Wrote(|src|), i, txns;
    }
  }
}
