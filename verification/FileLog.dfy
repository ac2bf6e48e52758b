/**
  filewrite over the log: the write bound of one chunk is the budget that the
  log reserves for one operation, and the atomicity of an operation is that of
  the bytes it writes.
 */
module FileLog {
  import opened Blocks
  import opened BlockMap
  import opened Options
  import opened WriteCost
  import opened WriteNeed
  import opened Files
  import opened LogFormat
  import opened LogMachine
  import opened LogRuns
  import opened FileWrite

  // One chunk of filewrite: src at offset off of inode i, from state s0 to the end of writei's loop; `logged` are the
  // blocks it hands to log_write.
  ghost predicate ChunkWrites(sb: Superblock, i: nat, s0: Snap, mid: Snap, off: nat, src: seq<Byte>, logged: set<int>) {
    && LoopWrote(sb, s0, mid, FirstBlock(off), EndBlock(off, |src|)) && s0.logged == {}
    && |s0.ip.addrs| == |mid.ip.addrs| == NDIRECT + 1 && NoHoles(s0.ip, s0.blocks)
    && off <= s0.ip.size <= MAXBYTES && |src| <= CHUNK && off + |src| <= MAXBYTES
    && logged == Finished(sb, i, mid, off + |src|).logged
    && forall p: nat | off <= p < off + |src| :: ByteAt(mid.ip, mid.blocks, p) == src[p - off]
  }

  /** Every chunk that filewrite completes is one. */
  method LogChunk(fs: FileSystem, i: nat, src: seq<Byte>, off: nat)
    returns (r: IoResult, ghost s0: Snap, ghost mid: Snap)
    requires fs.Consistent() && i in fs.inodes && off < 0x1_0000_0000 && |src| <= CHUNK
    modifies fs
    ensures s0 == old(fs.SnapOf(i)).(logged := {})
    ensures r.Done? ==> ChunkWrites(fs.sb, i, s0, mid, off, src, fs.logged)
  {
    fs.BeginTransaction();
    s0 := fs.SnapOf(i);
    r, mid := fs.Writei(i, src, off);
    if r.Done? {
      forall p: nat | off <= p < off + |src|
        ensures ByteAt(mid.ip, mid.blocks, p) == src[p - off]
      {
        assert ByteOk(old(fs.inodes), old(fs.blocks), fs.inodes, fs.blocks, i, off, src, |src|, p);
      }
    }
  }

  /**
    In every run, an operation that writes one chunk never lacks budget for its
    next block, in whatever order it logs them.  It logs the inode block last;
    so with a log area of more than LOGSIZE blocks it never meets the panic.
   */
  lemma ChunkFits(g: Geometry, ss: seq<State>, es: seq<Event>, k: nat, op: Op, b: Word, data: Block,
                  sb: Superblock, i: nat, s0: Snap, mid: Snap, off: nat, src: seq<Byte>, logged: set<int>)
    requires Run(g, ss, es) && k <= |es| && op in ss[k].unspent && b in ss[k].durable
    requires ChunkWrites(sb, i, s0, mid, off, src, logged)
    ensures LoggedBy(ss[k].record, op) <= logged && b as int in logged ==> b in ss[k].lh || ss[k].unspent[op] > 0
    ensures LoggedBy(ss[k].record, op) <= mid.logged && g.size > LOGSIZE ==> Enabled(g, ss[k], LogWrite(op, b, data))
  {
    LoggedBound(sb, i, s0, mid, off, |src|);
    if LoggedBy(ss[k].record, op) <= logged && b as int in logged {
      BudgetSuffices(g, ss, es, k, op, logged, b);
    }
    if LoggedBy(ss[k].record, op) <= mid.logged && g.size > LOGSIZE {
      Sums.SubsetSize(LoggedBy(ss[k].record, op), mid.logged);
      UnderBudget(g, ss, es, k, op, b, data);
    }
  }

  /*** The bytes of a chunk after a crash ***/

  // Block b is read to get at file blocks lo..hi.
  ghost predicate Reads(s: Snap, lo: nat, hi: nat, b: int)
    requires hi <= MAXFILE && |s.ip.addrs| == NDIRECT + 1
  {
    b != 0 && (b == Ind(s.ip) || exists x: nat | lo <= x < hi :: b == Addr(s.ip, s.blocks, x))
  }

  // The blocks that the chunk's bytes are read from, before or after it.
  ghost predicate Concerns(s0: Snap, mid: Snap, off: nat, n: nat, b: int)
    requires EndBlock(off, n) <= MAXFILE && |s0.ip.addrs| == |mid.ip.addrs| == NDIRECT + 1
  {
    Reads(s0, FirstBlock(off), EndBlock(off, n), b) || Reads(mid, FirstBlock(off), EndBlock(off, n), b)
  }

  // The disk holds the given contents of those blocks.
  ghost predicate Holds(disk: Disk, blocks: Store, s0: Snap, mid: Snap, off: nat, n: nat)
    requires EndBlock(off, n) <= MAXFILE && |s0.ip.addrs| == |mid.ip.addrs| == NDIRECT + 1
  {
    forall b | Concerns(s0, mid, off, n, b) :: b in blocks && b in disk && disk[b] == blocks[b]
  }

  // The contents given by op's last log_write of block b from step lo up to step hi.
  function LastBy(es: seq<Event>, op: Op, lo: nat, hi: nat, b: int): (r: Option<Block>)
    requires hi <= |es|
  {
    if hi <= lo then None
    else if es[hi - 1].LogWrite? && es[hi - 1].op == op && es[hi - 1].block == b then Some(es[hi - 1].data)
    else LastBy(es, op, lo, hi - 1, b)
  }

  // If nobody else logs the block, they are the last ones.
  lemma {:induction false} OnlyWriter(es: seq<Event>, op: Op, lo: nat, hi: nat, b: int)
    requires hi <= |es| && forall t | lo <= t < hi && es[t].LogWrite? && es[t].block == b :: es[t].op == op
    ensures LastBy(es, op, lo, hi, b) == LastLogged(es, lo, hi, b)
  {
    if lo < hi {
      OnlyWriter(es, op, lo, hi - 1, b);
    }
  }

  // Operation op, begun at step j with s0 on disk, writes the chunk: nobody else logs the blocks concerned in this
  // transaction, and once op has ended, what it last logged of each is what writei made of it.
  ghost predicate Performs(ss: seq<State>, es: seq<Event>, op: Op, j: nat, k: nat, s0: Snap, mid: Snap,
                           off: nat, n: nat)
    requires j < k <= |es| && |ss| == |es| + 1 && EndBlock(off, n) <= MAXFILE
    requires |s0.ip.addrs| == |mid.ip.addrs| == NDIRECT + 1
  {
    && es[j] == BeginOp(op) && Holds(ss[j].durable, s0.blocks, s0, mid, off, n)
    && (forall b | Concerns(s0, mid, off, n, b) :: b !in ss[j].pinned && b in mid.blocks)
    && (forall t | j <= t < k && es[t].LogWrite? && Concerns(s0, mid, off, n, es[t].block) :: es[t].op == op)
    && (op !in ss[k].unspent ==> forall b | Concerns(s0, mid, off, n, b) ::
          LastBy(es, op, j, k, b) == if b in mid.logged then Some(mid.blocks[b]) else None)
  }

  // What the transaction made durable, if it committed.
  lemma NewHolds(g: Geometry, ss: seq<State>, es: seq<Event>, op: Op, j: nat, c: nat, k: nat, m: nat,
                 s0: Snap, mid: Snap, off: nat, n: nat)
    requires Run(g, ss, es) && j < c < k < m <= |es| && ss[k].txn == ss[j].txn && EndBlock(off, n) <= MAXFILE
    requires |s0.ip.addrs| == |mid.ip.addrs| == NDIRECT + 1 && OnlyLogged(s0.blocks, mid.blocks, mid.logged)
    requires Performs(ss, es, op, j, k, s0, mid, off, n) && op !in ss[k].unspent && SeesAll(ss, op, j, c, k, m)
    ensures Holds(View(ss[m]), mid.blocks, s0, mid, off, n)
  {
    forall b | Concerns(s0, mid, off, n, b)
      ensures b in mid.blocks && b in View(ss[m]) && View(ss[m])[b] == mid.blocks[b]
    {
      OnlyWriter(es, op, j, k, b);
      PinnedIsLast(g, ss, es, j, k, b);
    }
  }

  // A byte is read alike from two stores that agree on the blocks it is read through.
  lemma SameByte(ip: Inode, blocks: Store, disk: Store, p: nat)
    requires p < MAXBYTES && |ip.addrs| == NDIRECT + 1
    requires var a := Addr(ip, blocks, p / 512); a in blocks && a in disk && disk[a] == blocks[a]
    requires Ind(ip) != 0 ==> Ind(ip) in blocks && Ind(ip) in disk && disk[Ind(ip)] == blocks[Ind(ip)]
    ensures ByteAt(ip, disk, p) == ByteAt(ip, blocks, p)
  {
  }

  // The bytes of the chunk are those of before, as far as the file went; or they are src.
  ghost predicate OldBytes(disk: Store, s0: Snap, off: nat, n: nat)
    requires |s0.ip.addrs| == NDIRECT + 1 && off + n <= MAXBYTES
  {
    forall p: nat | off <= p < off + n && p < s0.ip.size :: ByteAt(s0.ip, disk, p) == ByteAt(s0.ip, s0.blocks, p)
  }

  ghost predicate NewBytes(disk: Store, mid: Snap, off: nat, src: seq<Byte>)
    requires |mid.ip.addrs| == NDIRECT + 1 && off + |src| <= MAXBYTES
  {
    forall p: nat | off <= p < off + |src| :: ByteAt(mid.ip, disk, p) == src[p - off]
  }

  lemma ReadOld(disk: Store, s0: Snap, mid: Snap, off: nat, n: nat)
    requires EndBlock(off, n) <= MAXFILE && |s0.ip.addrs| == |mid.ip.addrs| == NDIRECT + 1 && off + n <= MAXBYTES
    requires NoHoles(s0.ip, s0.blocks) && s0.ip.size <= MAXBYTES && Holds(disk, s0.blocks, s0, mid, off, n)
    ensures OldBytes(disk, s0, off, n)
  {
    forall p: nat | off <= p < off + n && p < s0.ip.size
      ensures ByteAt(s0.ip, disk, p) == ByteAt(s0.ip, s0.blocks, p)
    {
      AlreadyMapped(s0.ip, s0.blocks, p);
      assert FirstBlock(off) <= p / 512 < EndBlock(off, n);
      assert Concerns(s0, mid, off, n, Addr(s0.ip, s0.blocks, p / 512));
      assert Ind(s0.ip) != 0 ==> Concerns(s0, mid, off, n, Ind(s0.ip));
      SameByte(s0.ip, s0.blocks, disk, p);
    }
  }

  lemma ReadNew(disk: Store, s0: Snap, mid: Snap, off: nat, src: seq<Byte>)
    requires off + |src| <= MAXBYTES
    requires Through(s0.ip, s0.blocks, mid.ip, mid.blocks, FirstBlock(off), EndBlock(off, |src|))
    requires forall p: nat | off <= p < off + |src| :: ByteAt(mid.ip, mid.blocks, p) == src[p - off]
    requires Holds(disk, mid.blocks, s0, mid, off, |src|)
    ensures NewBytes(disk, mid, off, src)
  {
    forall p: nat | off <= p < off + |src|
      ensures ByteAt(mid.ip, disk, p) == src[p - off]
    {
      assert FirstBlock(off) <= p / 512 < EndBlock(off, |src|);
      assert Concerns(s0, mid, off, |src|, Addr(mid.ip, mid.blocks, p / 512));
      assert Ind(mid.ip) != 0 ==> Concerns(s0, mid, off, |src|, Ind(mid.ip));
      SameByte(mid.ip, mid.blocks, disk, p);
    }
  }

  /**
    A chunk is all old or all new: after a crash in its transaction and any
    number of recoveries, the blocks that its bytes are read from are all as
    they were, and the bytes with them; or they are all as writei left them,
    and the bytes are src.  With the operation still inside they are old.
   */
  lemma ChunkAtomic(g: Geometry, ss: seq<State>, es: seq<Event>, op: Op, j: nat, k: nat, m: nat,
                    sb: Superblock, i: nat, s0: Snap, mid: Snap, off: nat, src: seq<Byte>, logged: set<int>)
    requires Run(g, ss, es) && j < k < m <= |es| && ss[k].txn == ss[j].txn && es[k].Crash? && Quiet(es, k, m)
    requires ChunkWrites(sb, i, s0, mid, off, src, logged) && EndBlock(off, |src|) <= MAXFILE
    requires Performs(ss, es, op, j, k, s0, mid, off, |src|)
    ensures || (Holds(View(ss[m]), s0.blocks, s0, mid, off, |src|) && OldBytes(View(ss[m]), s0, off, |src|))
            || (Holds(View(ss[m]), mid.blocks, s0, mid, off, |src|) && NewBytes(View(ss[m]), mid, off, src))
    ensures op in ss[k].unspent ==> OldBytes(View(ss[m]), s0, off, |src|)
  {
    CrashAtomic(g, ss, es, op, j, k, m);
    if View(ss[m]) == ss[j].durable {
      ReadOld(View(ss[m]), s0, mid, off, |src|);
    } else {
      var c: nat :| j < c < k && SeesAll(ss, op, j, c, k, m);
      LoopOnlyLogged(sb, s0, mid, FirstBlock(off), EndBlock(off, |src|));
      NewHolds(g, ss, es, op, j, c, k, m, s0, mid, off, |src|);
      LoopThrough(sb, s0, mid, FirstBlock(off), EndBlock(off, |src|));
      ReadNew(View(ss[m]), s0, mid, off, src);
    }
  }
}
