/**
  The on-disk format of the write-ahead log and what a crashed disk stands for.

  A disk is a map from block number to block; one block write is atomic.  The
  log occupies blocks `start .. start + size`: a header block, then the copies
  of the logged blocks.  `Represents` says which home-block contents recovery
  will make of a disk; `CommitWrite` and `RecoverWrite` are the single disk
  writes that commit() and recover_from_log() perform, in order.
 */
module LogFormat {
  import opened Blocks

  const LOGSIZE := 30

  type Disk = map<int, Block>

  datatype Geometry = Geometry(start: nat, size: nat)

  predicate InLog(g: Geometry, b: int) {
    g.start <= b < g.start + g.size
  }

  // Position on disk of the copy of the i-th logged block.
  function Slot(g: Geometry, i: nat): (b: int) {
    g.start + 1 + i
  }

  ghost predicate Distinct(s: seq<Word>) {
    forall i, j | 0 <= i < j < |s| :: s[i] != s[j]
  }

  /*** The header block ***/

  // The block numbers recorded in a header block (read_head).
  function HeaderBlocks(b: Block): (hs: seq<Word>)
    requires GetWord(b, 0) <= LOGSIZE
  {
    seq(GetWord(b, 0), i requires 0 <= i < GetWord(b, 0) => GetWord(b, i + 1))
  }

  // The header block after write_head has stored the count and k entries.
  function HeaderPrefix(b: Block, hs: seq<Word>, k: nat): (r: Block)
    requires k <= |hs| <= LOGSIZE
  {
    if k == 0 then SetWord(b, 0, |hs|) else SetWord(HeaderPrefix(b, hs, k - 1), k, hs[k - 1])
  }

  function WithHeader(b: Block, hs: seq<Word>): (r: Block)
    requires |hs| <= LOGSIZE
  {
    HeaderPrefix(b, hs, |hs|)
  }

  lemma {:induction false} HeaderPrefixWords(b: Block, hs: seq<Word>, k: nat)
    requires k <= |hs| <= LOGSIZE
    ensures GetWord(HeaderPrefix(b, hs, k), 0) == |hs|
    ensures forall i: nat | i < k :: GetWord(HeaderPrefix(b, hs, k), i + 1) == hs[i]
  {
    if k == 0 {
      SetGetWord(b, 0, |hs|);
    } else {
      HeaderPrefixWords(b, hs, k - 1);
      SetGetWord(HeaderPrefix(b, hs, k - 1), k, hs[k - 1]);
    }
  }

  /** read_head gets back what write_head wrote, whatever the block held before. */
  lemma HeaderRoundTrip(b: Block, hs: seq<Word>)
    requires |hs| <= LOGSIZE
    ensures GetWord(WithHeader(b, hs), 0) == |hs|
    ensures HeaderBlocks(WithHeader(b, hs)) == hs
  {
    HeaderPrefixWords(b, hs, |hs|);
  }

  /*** What a disk stands for ***/

  // The log area is on the disk, and the header lists distinct home blocks whose copies fit.
  ghost predicate WellFormed(g: Geometry, d: Disk) {
    && g.size >= 1
    && (forall b | InLog(g, b) :: b in d)
    && g.start in d
    && GetWord(d[g.start], 0) <= LOGSIZE
    && GetWord(d[g.start], 0) < g.size
    && Distinct(HeaderBlocks(d[g.start]))
  }

  ghost function Header(g: Geometry, d: Disk): (hs: seq<Word>)
    requires WellFormed(g, d)
    ensures |hs| <= LOGSIZE && |hs| < g.size && Distinct(hs)
  {
    HeaderBlocks(d[g.start])
  }

  // Recovery turns disk d into one whose home blocks are `home`.
  ghost predicate Represents(g: Geometry, d: Disk, home: Disk) {
    && WellFormed(g, d)
    && (forall b | b in home :: b in d && !InLog(g, b))
    && (forall i: nat | i < |Header(g, d)| :: Header(g, d)[i] in home && d[Slot(g, i)] == home[Header(g, d)[i]])
    && (forall b | b in home && b !in Header(g, d) :: d[b] == home[b])
  }

  /** A disk stands for one set of home contents only. */
  lemma RepresentsUnique(g: Geometry, d: Disk, h1: Disk, h2: Disk)
    requires Represents(g, d, h1) && Represents(g, d, h2) && h1.Keys == h2.Keys
    ensures h1 == h2
  {
    forall b | b in h1
      ensures h1[b] == h2[b]
    {
      if b in Header(g, d) {
        var i :| 0 <= i < |Header(g, d)| && Header(g, d)[i] == b;
      }
    }
  }

  /*** The disk writes of commit() and recover_from_log() ***/

  // A transaction: the logged block numbers fit in the log, and are distinct home blocks.
  ghost predicate Transaction(g: Geometry, lh: seq<Word>, home: Disk) {
    && |lh| <= LOGSIZE && |lh| < g.size
    && Distinct(lh)
    && (forall i | 0 <= i < |lh| :: lh[i] in home)
  }

  // k-th disk write of install_trans followed by the erasing write_head.
  function RecoverWrite(g: Geometry, d: Disk, lh: seq<Word>, k: nat): (r: Disk)
    requires k <= |lh| <= LOGSIZE && g.start in d
    requires forall i: nat | i < |lh| :: Slot(g, i) in d
  {
    if k < |lh| then d[lh[k] := d[Slot(g, k)]] else d[g.start := WithHeader(d[g.start], [])]
  }

  // k-th disk write of commit: |lh| copies into the log, the header, then as in recovery.
  function CommitWrite(g: Geometry, d: Disk, lh: seq<Word>, cached: Disk, k: nat): (r: Disk)
    requires k <= 2 * |lh| + 1 && |lh| <= LOGSIZE && g.start in d
    requires forall i: nat | i < |lh| :: Slot(g, i) in d && lh[i] in cached
  {
    if k < |lh| then d[Slot(g, k) := cached[lh[k]]]
    else if k == |lh| then d[g.start := WithHeader(d[g.start], lh)]
    else RecoverWrite(g, d, lh, k - |lh| - 1)
  }

  // `home` with the blocks of the transaction replaced by their cached contents.
  function Updated(home: Disk, lh: seq<Word>, cached: Disk): (r: Disk)
    requires forall i | 0 <= i < |lh| :: lh[i] in cached
  {
    map b | b in home :: if b in lh then cached[b] else home[b]
  }

  /*** What holds between two disk writes ***/

  // After k writes of a recovery that read header lh.
  ghost predicate RecoverPoint(g: Geometry, d: Disk, lh: seq<Word>, home: Disk, k: nat) {
    && Represents(g, d, home)
    && Transaction(g, lh, home)
    && k <= |lh| + 1
    && (k <= |lh| ==> Header(g, d) == lh && forall j: nat | j < k :: d[lh[j]] == d[Slot(g, j)])
    && (k == |lh| + 1 ==> Header(g, d) == [])
  }

  // After k writes of a commit that started from home contents `home`.
  ghost predicate CommitPoint(g: Geometry, d: Disk, lh: seq<Word>, cached: Disk, home: Disk, k: nat) {
    && Transaction(g, lh, home)
    && (forall i | 0 <= i < |lh| :: lh[i] in cached)
    && k <= 2 * |lh| + 2
    && (k <= |lh| ==>
          && Represents(g, d, home)
          && Header(g, d) == []
          && forall j: nat | j < k :: d[Slot(g, j)] == cached[lh[j]])
    && (k > |lh| ==> RecoverPoint(g, d, lh, Updated(home, lh, cached), k - |lh| - 1))
  }

  lemma RecoverWriteStep(g: Geometry, d: Disk, lh: seq<Word>, home: Disk, k: nat)
    requires RecoverPoint(g, d, lh, home, k) && k <= |lh|
    ensures forall i: nat | i < |lh| :: Slot(g, i) in d
    ensures RecoverPoint(g, RecoverWrite(g, d, lh, k), lh, home, k + 1)
  {
    assert forall i: nat | i < |lh| :: InLog(g, Slot(g, i));
    var r := RecoverWrite(g, d, lh, k);
    if k < |lh| {
      assert lh[k] in home && !InLog(g, lh[k]);
      assert InLog(g, g.start);
    } else {
      HeaderRoundTrip(d[g.start], []);
      assert InLog(g, g.start);
      forall b | b in home
        ensures r[b] == home[b]
      {
        if b in lh {
          var j :| 0 <= j < |lh| && lh[j] == b;
        }
      }
    }
  }

  // A copy into the log, which is empty so far.
  lemma CommitCopyStep(g: Geometry, d: Disk, lh: seq<Word>, cached: Disk, home: Disk, k: nat)
    requires CommitPoint(g, d, lh, cached, home, k) && k < |lh|
    ensures InLog(g, Slot(g, k)) && CommitPoint(g, d[Slot(g, k) := cached[lh[k]]], lh, cached, home, k + 1)
  {
    assert InLog(g, Slot(g, k)) && InLog(g, g.start);
    assert forall i: nat | i < |lh| :: InLog(g, Slot(g, i));
  }

  // The header: from here on the transaction counts.
  lemma CommitHeadStep(g: Geometry, d: Disk, lh: seq<Word>, cached: Disk, home: Disk)
    requires CommitPoint(g, d, lh, cached, home, |lh|)
    ensures g.start in d && CommitPoint(g, d[g.start := WithHeader(d[g.start], lh)], lh, cached, home, |lh| + 1)
  {
    assert InLog(g, g.start);
    assert forall i: nat | i < |lh| :: InLog(g, Slot(g, i));
    HeaderRoundTrip(d[g.start], lh);
  }

  lemma CommitArea(g: Geometry, d: Disk, lh: seq<Word>, cached: Disk, home: Disk, k: nat)
    requires CommitPoint(g, d, lh, cached, home, k)
    ensures g.start in d && forall i: nat | i < |lh| :: Slot(g, i) in d
  {
    assert forall i: nat | i < |lh| :: InLog(g, Slot(g, i));
    assert InLog(g, g.start);
  }

  lemma CommitWriteStep(g: Geometry, d: Disk, lh: seq<Word>, cached: Disk, home: Disk, k: nat)
    requires CommitPoint(g, d, lh, cached, home, k) && k <= 2 * |lh| + 1
    ensures g.start in d && forall i: nat | i < |lh| :: Slot(g, i) in d
    ensures CommitPoint(g, CommitWrite(g, d, lh, cached, k), lh, cached, home, k + 1)
  {
    CommitArea(g, d, lh, cached, home, k);
    if k < |lh| {
      CommitCopyStep(g, d, lh, cached, home, k);
    } else if k == |lh| {
      CommitHeadStep(g, d, lh, cached, home);
    } else {
      RecoverWriteStep(g, d, lh, Updated(home, lh, cached), k - |lh| - 1);
    }
  }
}
