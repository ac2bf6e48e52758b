/**
  log.c as an object: the in-memory header, the reservation counters, the
  dirty-pinned cache blocks and the disk.  A ghost history records the disk
  after every single block write, so that a crash is a stop at any entry.
 */
module Log {
  import opened Blocks
  import opened LogFormat

  /*** Traces of disk writes ***/

  ghost function Before(d0: Disk, tail: seq<Disk>, k: nat): Disk
    requires k <= |tail|
  {
    if k == 0 then d0 else tail[k - 1]
  }

  ghost predicate AreaPresent(g: Geometry, d: Disk, lh: seq<Word>) {
    && g.start in d
    && forall i: nat | i < |lh| :: Slot(g, i) in d
  }

  // `tail` lists the disks after the first |tail| writes of a commit.
  ghost predicate CommitTrace(g: Geometry, d0: Disk, lh: seq<Word>, cached: Disk, tail: seq<Disk>) {
    && |lh| <= LOGSIZE
    && |tail| <= 2 * |lh| + 2
    && (forall i | 0 <= i < |lh| :: lh[i] in cached)
    && forall k: nat {:trigger CommitWriteAt(g, d0, lh, cached, tail, k)} | k < |tail| ::
         CommitWriteAt(g, d0, lh, cached, tail, k)
  }

  ghost predicate CommitWriteAt(g: Geometry, d0: Disk, lh: seq<Word>, cached: Disk, tail: seq<Disk>, k: nat)
    requires |lh| <= LOGSIZE && k < |tail| <= 2 * |lh| + 2
    requires forall i | 0 <= i < |lh| :: lh[i] in cached
  {
    && AreaPresent(g, Before(d0, tail, k), lh)
    && tail[k] == CommitWrite(g, Before(d0, tail, k), lh, cached, k)
  }

  // `tail` lists the disks after the first |tail| writes of a recovery.
  ghost predicate RecoverTrace(g: Geometry, d0: Disk, lh: seq<Word>, tail: seq<Disk>) {
    && |lh| <= LOGSIZE
    && |tail| <= |lh| + 1
    && forall k: nat {:trigger RecoverWriteAt(g, d0, lh, tail, k)} | k < |tail| :: RecoverWriteAt(g, d0, lh, tail, k)
  }

  ghost predicate RecoverWriteAt(g: Geometry, d0: Disk, lh: seq<Word>, tail: seq<Disk>, k: nat)
    requires |lh| <= LOGSIZE && k < |tail| <= |lh| + 1
  {
    && AreaPresent(g, Before(d0, tail, k), lh)
    && tail[k] == RecoverWrite(g, Before(d0, tail, k), lh, k)
  }

  lemma CommitTraceAppend(g: Geometry, d0: Disk, lh: seq<Word>, cached: Disk, tail: seq<Disk>, d: Disk)
    requires CommitTrace(g, d0, lh, cached, tail) && |tail| <= 2 * |lh| + 1
    requires AreaPresent(g, Before(d0, tail, |tail|), lh)
    requires d == CommitWrite(g, Before(d0, tail, |tail|), lh, cached, |tail|)
    ensures CommitTrace(g, d0, lh, cached, tail + [d])
    ensures Before(d0, tail + [d], |tail| + 1) == d
  {
    forall k: nat | k < |tail| + 1
      ensures CommitWriteAt(g, d0, lh, cached, tail + [d], k)
    {
      assert k < |tail| ==> CommitWriteAt(g, d0, lh, cached, tail, k);
    }
  }

  lemma RecoverTraceAppend(g: Geometry, d0: Disk, lh: seq<Word>, tail: seq<Disk>, d: Disk)
    requires RecoverTrace(g, d0, lh, tail) && |tail| <= |lh|
    requires AreaPresent(g, Before(d0, tail, |tail|), lh)
    requires d == RecoverWrite(g, Before(d0, tail, |tail|), lh, |tail|)
    ensures RecoverTrace(g, d0, lh, tail + [d])
    ensures Before(d0, tail + [d], |tail| + 1) == d
  {
    forall k: nat | k < |tail| + 1
      ensures RecoverWriteAt(g, d0, lh, tail + [d], k)
    {
      assert k < |tail| ==> RecoverWriteAt(g, d0, lh, tail, k);
    }
  }

  // The first i writes of a commit have been made, and disk d is the result.
  ghost predicate CommitSoFar(g: Geometry, d0: Disk, lh: seq<Word>, cached: Disk, home: Disk, tail: seq<Disk>, d: Disk,
                              i: nat) {
    |tail| == i && CommitTrace(g, d0, lh, cached, tail)
    && d == Before(d0, tail, i) && CommitPoint(g, d, lh, cached, home, i)
  }

  lemma CommitNext(g: Geometry, d0: Disk, lh: seq<Word>, cached: Disk, home: Disk, tail: seq<Disk>, d: Disk, d1: Disk,
                   i: nat)
    requires CommitSoFar(g, d0, lh, cached, home, tail, d, i) && i <= 2 * |lh| + 1 && AreaPresent(g, d, lh)
    requires d1 == CommitWrite(g, d, lh, cached, i) && CommitPoint(g, d1, lh, cached, home, i + 1)
    ensures CommitSoFar(g, d0, lh, cached, home, tail + [d1], d1, i + 1)
  {
    CommitTraceAppend(g, d0, lh, cached, tail, d1);
  }

  ghost predicate RecoverSoFar(g: Geometry, d0: Disk, lh: seq<Word>, home: Disk, tail: seq<Disk>, d: Disk, i: nat) {
    |tail| == i && RecoverTrace(g, d0, lh, tail) && d == Before(d0, tail, i) && RecoverPoint(g, d, lh, home, i)
  }

  lemma RecoverNext(g: Geometry, d0: Disk, lh: seq<Word>, home: Disk, tail: seq<Disk>, d: Disk, d1: Disk, i: nat)
    requires RecoverSoFar(g, d0, lh, home, tail, d, i) && i <= |lh| && AreaPresent(g, d, lh)
    requires d1 == RecoverWrite(g, d, lh, i) && RecoverPoint(g, d1, lh, home, i + 1)
    ensures RecoverSoFar(g, d0, lh, home, tail + [d1], d1, i + 1)
  {
    RecoverTraceAppend(g, d0, lh, tail, d1);
  }

  lemma CommitTraceStep(g: Geometry, d0: Disk, lh: seq<Word>, cached: Disk, home: Disk, tail: seq<Disk>, k: nat)
    requires CommitTrace(g, d0, lh, cached, tail) && k < |tail|
    requires CommitPoint(g, Before(d0, tail, k), lh, cached, home, k)
    ensures CommitPoint(g, Before(d0, tail, k + 1), lh, cached, home, k + 1)
  {
    assert CommitWriteAt(g, d0, lh, cached, tail, k);
    CommitWriteStep(g, Before(d0, tail, k), lh, cached, home, k);
  }

  lemma {:induction false} CommitTracePoint(g: Geometry, d0: Disk, lh: seq<Word>, cached: Disk, home: Disk,
                                            tail: seq<Disk>, k: nat)
    requires CommitTrace(g, d0, lh, cached, tail) && CommitPoint(g, d0, lh, cached, home, 0) && k <= |tail|
    ensures CommitPoint(g, Before(d0, tail, k), lh, cached, home, k)
  {
    if k > 0 {
      CommitTracePoint(g, d0, lh, cached, home, tail, k - 1);
      CommitTraceStep(g, d0, lh, cached, home, tail, k - 1);
    }
  }

  lemma RecoverTraceStep(g: Geometry, d0: Disk, lh: seq<Word>, home: Disk, tail: seq<Disk>, k: nat)
    requires RecoverTrace(g, d0, lh, tail) && k < |tail|
    requires RecoverPoint(g, Before(d0, tail, k), lh, home, k)
    ensures RecoverPoint(g, Before(d0, tail, k + 1), lh, home, k + 1)
  {
    assert RecoverWriteAt(g, d0, lh, tail, k);
    RecoverWriteStep(g, Before(d0, tail, k), lh, home, k);
  }

  lemma {:induction false} RecoverTracePoint(g: Geometry, d0: Disk, lh: seq<Word>, home: Disk, tail: seq<Disk>, k: nat)
    requires RecoverTrace(g, d0, lh, tail) && RecoverPoint(g, d0, lh, home, 0) && k <= |tail|
    ensures RecoverPoint(g, Before(d0, tail, k), lh, home, k)
  {
    if k > 0 {
      RecoverTracePoint(g, d0, lh, home, tail, k - 1);
      RecoverTraceStep(g, d0, lh, home, tail, k - 1);
    }
  }

  /*** Crash atomicity ***/

  // One attempt at recovery that stops after some number of its writes.
  ghost predicate InterruptedRecovery(g: Geometry, d: Disk, d': Disk) {
    && WellFormed(g, d)
    && exists tail | RecoverTrace(g, d, Header(g, d), tail) :: d' == Before(d, tail, |tail|)
  }

  ghost predicate RepeatedRecovery(g: Geometry, ds: seq<Disk>) {
    forall i | 0 <= i < |ds| - 1 :: InterruptedRecovery(g, ds[i], ds[i + 1])
  }

  lemma InterruptedRecoveryKeeps(g: Geometry, d: Disk, d': Disk, home: Disk)
    requires Represents(g, d, home) && InterruptedRecovery(g, d, d')
    ensures Represents(g, d', home)
  {
    var tail :| RecoverTrace(g, d, Header(g, d), tail) && d' == Before(d, tail, |tail|);
    assert RecoverPoint(g, d, Header(g, d), home, 0);
    RecoverTracePoint(g, d, Header(g, d), home, tail, |tail|);
  }

  lemma {:induction false} RepeatedRecoveryKeeps(g: Geometry, ds: seq<Disk>, home: Disk)
    requires |ds| > 0 && RepeatedRecovery(g, ds) && Represents(g, ds[0], home)
    ensures Represents(g, ds[|ds| - 1], home)
  {
    if |ds| > 1 {
      assert RepeatedRecovery(g, ds[..|ds| - 1]);
      RepeatedRecoveryKeeps(g, ds[..|ds| - 1], home);
      InterruptedRecoveryKeeps(g, ds[|ds| - 2], ds[|ds| - 1], home);
    }
  }

  /**
    Stop a commit after any number k of its disk writes, let recovery be
    stopped any number of times, then let one recovery finish: the home blocks
    are all the old ones when the header was not yet written (k <= |lh|), and
    all the new ones from the header write on.
   */
  lemma CrashAtomicity(g: Geometry, d0: Disk, lh: seq<Word>, cached: Disk, home: Disk, tail: seq<Disk>, k: nat,
                       ds: seq<Disk>, last: seq<Disk>)
    requires Represents(g, d0, home) && Header(g, d0) == [] && Transaction(g, lh, home)
    requires CommitTrace(g, d0, lh, cached, tail) && k <= |tail|
    requires |ds| > 0 && ds[0] == Before(d0, tail, k) && RepeatedRecovery(g, ds)
    requires WellFormed(g, ds[|ds| - 1]) ==>
               var lh' := Header(g, ds[|ds| - 1]);
               RecoverTrace(g, ds[|ds| - 1], lh', last) && |last| == |lh'| + 1
    ensures |last| > 0
    ensures var after := last[|last| - 1];
            forall b | b in home :: b in after && after[b] == (if k <= |lh| then home else Updated(home, lh, cached))[b]
  {
    CommitTracePoint(g, d0, lh, cached, home, tail, k);
    var want := if k <= |lh| then home else Updated(home, lh, cached);
    RepeatedRecoveryKeeps(g, ds, want);
    var d := ds[|ds| - 1];
    assert RecoverPoint(g, d, Header(g, d), want, 0);
    RecoverTracePoint(g, d, Header(g, d), want, last, |last|);
  }

  /*** The log object ***/

  class WriteAheadLog {
    const g: Geometry
    var disk: Disk
    var pinned: Disk          // contents of the cache buffers holding B_DIRTY
    var lh: seq<Word>         // log.lh: n is the length
    var outstanding: nat
    var committing: bool
    ghost var history: seq<Disk>

    constructor (g: Geometry, image: Disk)
      ensures this.g == g && disk == image && pinned == map[] && lh == [] && outstanding == 0 && !committing
      ensures history == []
    {
      this.g, disk, pinned, lh, outstanding, committing, history := g, image, map[], [], 0, false, [];
    }

    // The disk stands for `home`, no committed transaction is waiting, and the open one is cached.
    ghost predicate Valid(home: Disk)
      reads this
    {
      && Represents(g, disk, home)
      && Header(g, disk) == []
      && Transaction(g, lh, home)
      && pinned.Keys == set b | b in lh
    }

    // What bread returns: the pinned buffer if there is one, else the disk block.
    function Bread(b: int): (data: Block)
      requires b in pinned || b in disk
      reads this
    {
      if b in pinned then pinned[b] else disk[b]
    }

    // bwrite writes the buffer through and clears B_DIRTY.
    method Bwrite(b: int, data: Block)
      modifies this`disk, this`pinned, this`history
      ensures disk == old(disk)[b := data] && pinned == old(pinned) - {b}
      ensures history == old(history) + [disk]
    {
      disk := disk[b := data];
      pinned := pinned - {b};
      history := history + [disk];
    }

    // One round of begin_op's loop: true when the operation is admitted, false when it sleeps.
    method BeginOp() returns (admitted: bool)
      modifies this`outstanding
      ensures admitted <==> !committing && |lh| + (old(outstanding) + 1) * MAXOPBLOCKS <= LOGSIZE
      ensures outstanding == old(outstanding) + (if admitted then 1 else 0)
    {
      if committing {
        return false;
      } else if |lh| + (outstanding + 1) * MAXOPBLOCKS > LOGSIZE {
        return false;
      }
      outstanding := outstanding + 1;
      return true;
    }

    // log_write; false stands for either panic, which leaves everything as it was.
    method LogWrite(b: Word, data: Block) returns (ok: bool)
      modifies this`lh, this`pinned
      ensures ok <==> |old(lh)| < LOGSIZE && |old(lh)| < g.size - 1 && outstanding >= 1
      ensures ok ==> lh == (if b in old(lh) then old(lh) else old(lh) + [b]) && pinned == old(pinned)[b := data]
      ensures !ok ==> lh == old(lh) && pinned == old(pinned)
      ensures forall home: Disk :: old(Valid(home)) && b in home ==> Valid(home)
    {
      if |lh| >= LOGSIZE || |lh| >= g.size - 1 {
        return false;
      }
      if outstanding < 1 {
        return false;
      }
      var i := 0;
      while i < |lh| && lh[i] != b
        invariant 0 <= i <= |lh|
        invariant b !in lh[..i]
      {
        i := i + 1;
      }
      if i == |lh| {
        lh := lh + [b];
      } else {
        assert b in old(lh);
        lh := lh[i := b];
        assert lh == old(lh);
      }
      pinned := pinned[b := data];
      return true;
    }

    // Copies the header into the log's first block and writes it: the commit point.
    method WriteHead()
      requires |lh| <= LOGSIZE && g.start in disk && g.start !in pinned
      modifies this`disk, this`pinned, this`history
      ensures disk == old(disk)[g.start := WithHeader(old(disk)[g.start], lh)]
      ensures pinned == old(pinned) && history == old(history) + [disk]
    {
      var hb := Bread(g.start);
      hb := SetWord(hb, 0, |lh|);
      var i := 0;
      while i < |lh|
        invariant 0 <= i <= |lh|
        invariant hb == HeaderPrefix(old(disk)[g.start], lh, i)
      {
        hb := SetWord(hb, i + 1, lh[i]);
        i := i + 1;
      }
      Bwrite(g.start, hb);
    }

    method ReadHead()
      requires WellFormed(g, disk) && g.start !in pinned
      modifies this`lh
      ensures lh == Header(g, disk)
    {
      var hb := Bread(g.start);
      var n := GetWord(hb, 0);
      lh := [];
      while |lh| < n
        invariant |lh| <= n
        invariant forall i | 0 <= i < |lh| :: lh[i] == GetWord(hb, i + 1)
        decreases n - |lh|
      {
        lh := lh + [GetWord(hb, |lh| + 1)];
      }
    }

    // One round of write_log.
    method CopyToLog(i: nat, ghost home: Disk)
      requires i < |lh| && CommitPoint(g, disk, lh, pinned, home, i) && forall b | InLog(g, b) :: b !in pinned
      modifies this`disk, this`pinned, this`history
      ensures pinned == old(pinned) && history == old(history) + [disk] && AreaPresent(g, old(disk), lh)
      ensures disk == CommitWrite(g, old(disk), lh, pinned, i) && CommitPoint(g, disk, lh, pinned, home, i + 1)
    {
      CommitWriteStep(g, disk, lh, pinned, home, i);
      assert InLog(g, Slot(g, i));
      var from := Bread(lh[i]);
      Bwrite(g.start + i + 1, from);
      assert pinned == old(pinned);
    }

    // One round of install_trans.
    method CopyHome(i: nat, ghost home: Disk)
      requires i < |lh| && RecoverPoint(g, disk, lh, home, i) && forall b | InLog(g, b) :: b !in pinned
      modifies this`disk, this`pinned, this`history
      ensures pinned == old(pinned) - {lh[i]} && history == old(history) + [disk] && AreaPresent(g, old(disk), lh)
      ensures disk == RecoverWrite(g, old(disk), lh, i) && RecoverPoint(g, disk, lh, home, i + 1)
    {
      RecoverWriteStep(g, disk, lh, home, i);
      assert InLog(g, Slot(g, i)) && InLog(g, g.start);
      var lbuf := Bread(g.start + i + 1);
      Bwrite(lh[i], lbuf);
    }

    method WriteLog(ghost home: Disk) returns (ghost tail: seq<Disk>)
      requires Valid(home)
      modifies this`disk, this`pinned, this`history
      ensures pinned == old(pinned) && history == old(history) + tail && |tail| == |lh|
      ensures CommitTrace(g, old(disk), lh, pinned, tail) && disk == Before(old(disk), tail, |lh|)
      ensures CommitPoint(g, disk, lh, pinned, home, |lh|)
    {
      tail := [];
      var i := 0;
      while i < |lh|
        invariant 0 <= i <= |lh| && pinned == old(pinned) && history == old(history) + tail
        invariant CommitSoFar(g, old(disk), lh, pinned, home, tail, disk, i)
      {
        ghost var d := disk;
        CopyToLog(i, home);
        CommitNext(g, old(disk), lh, pinned, home, tail, d, disk, i);
        tail := tail + [disk];
        i := i + 1;
      }
    }

    // Copies the logged blocks home, from commit (with their buffers pinned) and from recovery.
    method InstallTrans(ghost home: Disk) returns (ghost tail: seq<Disk>)
      requires RecoverPoint(g, disk, lh, home, 0)
      requires forall b | InLog(g, b) :: b !in pinned
      modifies this`disk, this`pinned, this`history
      ensures pinned.Keys <= old(pinned).Keys && forall b | b in lh :: b !in pinned
      ensures history == old(history) + tail && |tail| == |lh|
      ensures RecoverTrace(g, old(disk), lh, tail) && disk == Before(old(disk), tail, |lh|)
      ensures RecoverPoint(g, disk, lh, home, |lh|)
    {
      tail := [];
      var i := 0;
      while i < |lh|
        invariant 0 <= i <= |lh| && history == old(history) + tail
        invariant pinned.Keys <= old(pinned).Keys && forall j | 0 <= j < i :: lh[j] !in pinned
        invariant RecoverSoFar(g, old(disk), lh, home, tail, disk, i)
      {
        ghost var d := disk;
        CopyHome(i, home);
        RecoverNext(g, old(disk), lh, home, tail, d, disk, i);
        tail := tail + [disk];
        i := i + 1;
      }
    }

    // install_trans and the erasing write_head, which end both commit and recovery.
    method InstallAndErase(ghost home: Disk) returns (ghost tail: seq<Disk>)
      requires RecoverPoint(g, disk, lh, home, 0)
      requires pinned.Keys <= set b | b in lh
      modifies this`disk, this`pinned, this`history, this`lh
      ensures lh == [] && pinned == map[] && Valid(home)
      ensures history == old(history) + tail && |tail| == |old(lh)| + 1
      ensures RecoverTrace(g, old(disk), old(lh), tail)
      ensures forall b | b in home :: disk[b] == home[b]
    {
      ghost var d0, lh0 := disk, lh;
      tail := InstallTrans(home);
      assert pinned.Keys == {};
      RecoverWriteStep(g, disk, lh0, home, |lh0|);
      lh := [];
      WriteHead();
      RecoverTraceAppend(g, d0, lh0, tail, disk);
      tail := tail + [disk];
    }

    // write_log and write_head: after the last of these writes the transaction is committed.
    method LogAndHead(ghost home: Disk) returns (ghost tail: seq<Disk>)
      requires Valid(home)
      modifies this`disk, this`pinned, this`history
      ensures pinned == old(pinned) && history == old(history) + tail && |tail| == |lh| + 1
      ensures CommitTrace(g, old(disk), lh, pinned, tail) && disk == tail[|lh|]
      ensures RecoverPoint(g, disk, lh, Updated(home, lh, pinned), 0)
    {
      tail := WriteLog(home);
      CommitWriteStep(g, disk, lh, pinned, home, |lh|);
      assert InLog(g, g.start);
      WriteHead();
      CommitTraceAppend(g, old(disk), lh, pinned, tail, disk);
      tail := tail + [disk];
    }

    /**
      commit(): its disk writes are exactly those of CommitTrace, and when it
      returns, the home blocks on the disk hold the cached contents and the
      log is empty again.
     */
    method Commit(ghost home: Disk) returns (ghost tail: seq<Disk>)
      requires Valid(home)
      modifies this`disk, this`pinned, this`history, this`lh
      ensures lh == [] && pinned == map[] && Valid(Updated(home, old(lh), old(pinned)))
      ensures history == old(history) + tail
      ensures |tail| == if |old(lh)| > 0 then 2 * |old(lh)| + 2 else 0
      ensures CommitTrace(g, old(disk), old(lh), old(pinned), tail)
    {
      tail := [];
      if |lh| > 0 {
        tail := LogAndHead(home);
        ghost var d2 := disk;
        ghost var t3 := InstallAndErase(Updated(home, lh, pinned));
        CommitTraceExtends(g, old(disk), old(lh), old(pinned), tail, d2, t3);
        tail := tail + t3;
      } else {
        assert pinned.Keys == {};
      }
    }

    /**
      recover_from_log(): every disk it leaves behind on the way stands for the
      same home contents, and at the end the disk holds them with an empty log.
     */
    method RecoverFromLog(ghost home: Disk) returns (ghost tail: seq<Disk>)
      requires Represents(g, disk, home) && pinned == map[]
      modifies this`disk, this`pinned, this`history, this`lh
      ensures lh == [] && pinned == map[] && Valid(home)
      ensures forall b | b in home :: disk[b] == home[b]
      ensures history == old(history) + tail && |tail| == |Header(g, old(disk))| + 1
      ensures RecoverTrace(g, old(disk), Header(g, old(disk)), tail)
    {
      ReadHead();
      tail := InstallAndErase(home);
    }

    // end_op; the last operation out commits.  False stands for panic("log.committing").
    method EndOp(ghost home: Disk) returns (ok: bool, ghost tail: seq<Disk>)
      requires outstanding >= 1 && Valid(home)
      modifies this
      ensures ok <==> !old(committing)
      ensures outstanding == old(outstanding) - 1
      ensures ok ==> !committing
      ensures history == old(history) + tail
      ensures ok && outstanding == 0 ==> Valid(Updated(home, old(lh), old(pinned))) && lh == []
      ensures ok && outstanding == 0 ==> CommitTrace(g, old(disk), old(lh), old(pinned), tail)
      ensures !ok || outstanding > 0 ==> disk == old(disk) && lh == old(lh) && pinned == old(pinned) && tail == []
    {
      outstanding := outstanding - 1;
      tail := [];
      ok := !committing;
      if ok && outstanding == 0 {
        committing := true;
        tail := Commit(home);
        committing := false;
      }
    }
  }

  // A commit whose header is written continues as an installation.
  lemma CommitTraceExtends(g: Geometry, d0: Disk, lh: seq<Word>, cached: Disk, t2: seq<Disk>, d2: Disk, t3: seq<Disk>)
    requires CommitTrace(g, d0, lh, cached, t2) && |t2| == |lh| + 1 && t2[|lh|] == d2
    requires RecoverTrace(g, d2, lh, t3)
    ensures CommitTrace(g, d0, lh, cached, t2 + t3)
    ensures Before(d0, t2 + t3, |t2 + t3|) == Before(d2, t3, |t3|)
  {
    var t := t2 + t3;
    forall k: nat | k < |t|
      ensures CommitWriteAt(g, d0, lh, cached, t, k)
    {
      if k < |t2| {
        assert CommitWriteAt(g, d0, lh, cached, t2, k);
        assert Before(d0, t, k) == Before(d0, t2, k);
      } else {
        assert RecoverWriteAt(g, d2, lh, t3, k - |t2|);
        assert Before(d0, t, k) == Before(d2, t3, k - |t2|);
      }
    }
  }
}
