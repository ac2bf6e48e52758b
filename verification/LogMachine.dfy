/**
  The log under concurrency and crashes, as a state machine: any number of
  file-system operations interleave their begin_op, log_write and end_op
  steps; commit and recovery proceed one disk write at a time; a crash may
  come between any two steps and loses everything but the disk.
 */
module LogMachine {
  import opened Blocks
  import opened LogFormat
  import opened Sums

  type Op = nat

  datatype Mode =
    | Normal
    | Committing(writes: nat)   // in commit(), this many disk writes done
    | Recovering(writes: nat)   // in recover_from_log(), this many disk writes done

  datatype State = State(
    disk: Disk,
    pinned: Disk,                        // cached contents of the logged blocks
    lh: seq<Word>,
    outstanding: nat,
    unspent: map<Op, nat>,               // operations inside, with the new blocks each may still add
    mode: Mode,
    durable: Disk,                       // home contents as of the last committed transaction
    txn: nat,                            // number of the open transaction
    begun: map<Op, nat>,                 // transaction in which each operation began
    record: set<(Op, Word, nat)>)        // every log_write so far: operation, block, transaction

  datatype Event =
    | BeginOp(op: Op)
    | LogWrite(op: Op, block: Word, data: Block)
    | EndOp(op: Op)
    | DiskWrite
    | CommitDone
    | Crash
    | RecoveryDone

  // The panic guard of log_write.
  predicate LogFull(g: Geometry, s: State) {
    |s.lh| >= LOGSIZE || |s.lh| >= g.size - 1
  }

  ghost predicate CanWrite(g: Geometry, s: State) {
    match s.mode
    case Normal => false
    case Committing(k) =>
      && 0 < |s.lh| <= LOGSIZE && k <= 2 * |s.lh| + 1 && g.start in s.disk
      && forall i: nat | i < |s.lh| :: Slot(g, i) in s.disk && s.lh[i] in s.pinned
    case Recovering(k) =>
      && k <= |s.lh| <= LOGSIZE && g.start in s.disk
      && forall i: nat | i < |s.lh| :: Slot(g, i) in s.disk
  }

  // When a step may happen.  An operation adds at most MAXOPBLOCKS blocks; nothing here forbids
  // log_write or end_op during a commit.
  ghost predicate Enabled(g: Geometry, s: State, e: Event) {
    match e
    case BeginOp(op) =>
      && op !in s.begun && s.mode.Normal?
      && |s.lh| + MAXOPBLOCKS * (s.outstanding + 1) <= LOGSIZE
    case LogWrite(op, b, _) =>
      && op in s.unspent && b in s.durable && !LogFull(g, s)
      && (b in s.lh || s.unspent[op] > 0)
    case EndOp(op) => op in s.unspent && s.outstanding >= 1
    case DiskWrite => CanWrite(g, s)
    case CommitDone => s.mode.Committing? && (s.lh == [] || s.mode.writes == 2 * |s.lh| + 2)
    case Crash => WellFormed(g, s.disk)
    case RecoveryDone => s.mode.Recovering? && s.mode.writes == |s.lh| + 1
  }

  ghost function Apply(g: Geometry, s: State, e: Event): (r: State)
    requires Enabled(g, s, e)
  {
    match e
    case BeginOp(op) =>
      s.(outstanding := s.outstanding + 1, unspent := s.unspent[op := MAXOPBLOCKS], begun := s.begun[op := s.txn])
    case LogWrite(op, b, data) =>
      s.(lh := if b in s.lh then s.lh else s.lh + [b],
         unspent := if b in s.lh then s.unspent else s.unspent[op := s.unspent[op] - 1],
         pinned := s.pinned[b := data],
         record := s.record + {(op, b, s.txn)})
    case EndOp(op) =>
      s.(outstanding := s.outstanding - 1,
         unspent := s.unspent - {op},
         mode := if s.outstanding == 1 then Committing(0) else s.mode)
    case DiskWrite =>
      if s.mode.Committing? then
        s.(disk := CommitWrite(g, s.disk, s.lh, s.pinned, s.mode.writes),
           durable := if s.mode.writes == |s.lh| then Updated(s.durable, s.lh, s.pinned) else s.durable,
           mode := Committing(s.mode.writes + 1))
      else
        s.(disk := RecoverWrite(g, s.disk, s.lh, s.mode.writes), mode := Recovering(s.mode.writes + 1))
    case CommitDone =>
      s.(lh := [], pinned := map[], mode := Normal, txn := s.txn + 1)
    case Crash =>
      s.(pinned := map[], lh := Header(g, s.disk), outstanding := 0, unspent := map[], mode := Recovering(0),
         txn := s.txn + 1)
    case RecoveryDone =>
      s.(lh := [], mode := Normal)
  }

  // mkfs's image, or any disk with an empty log.
  ghost predicate Init(g: Geometry, s: State) {
    && Represents(g, s.disk, s.durable) && Header(g, s.disk) == []
    && s.pinned == map[] && s.lh == [] && s.outstanding == 0 && s.unspent == map[]
    && s.mode == Normal && s.txn == 0 && s.begun == map[] && s.record == {}
  }

  /*** The invariant ***/

  // What the log area holds in each mode.
  ghost predicate DiskInv(g: Geometry, s: State) {
    && Represents(g, s.disk, s.durable)
    && Transaction(g, s.lh, s.durable)
    && match s.mode
       case Normal => Header(g, s.disk) == []
       case Committing(k) =>
         if k <= |s.lh| then CommitPoint(g, s.disk, s.lh, s.pinned, s.durable, k)
         else
           && RecoverPoint(g, s.disk, s.lh, s.durable, k - |s.lh| - 1)
           && forall b | b in s.lh && b in s.pinned :: s.pinned[b] == s.durable[b]
       case Recovering(k) => RecoverPoint(g, s.disk, s.lh, s.durable, k)
  }

  // The logged blocks are the pinned ones.
  ghost predicate PinInv(s: State) {
    if s.mode.Recovering? then s.pinned == map[] else forall b: int :: b in s.pinned <==> b in s.lh
  }

  // Reservation: logged blocks and unspent budgets fit together; commits run with nobody inside.
  ghost predicate ReserveInv(s: State) {
    && s.outstanding == |s.unspent|
    && (forall o | o in s.unspent :: s.unspent[o] <= MAXOPBLOCKS)
    && |s.lh| + SumMap(s.unspent) <= LOGSIZE
    && (!s.mode.Normal? ==> s.unspent == map[])
  }

  // Each operation's writes fall into the transaction it began in, which logs exactly the blocks written in it.
  ghost predicate RecordInv(s: State) {
    && (forall o | o in s.unspent :: o in s.begun && s.begun[o] == s.txn)
    && (forall r | r in s.record :: r.0 in s.begun && r.2 == s.begun[r.0] <= s.txn)
    && (!s.mode.Recovering? ==>
          && (forall r | r in s.record && r.2 == s.txn :: r.1 in s.lh)
          && (forall b | b in s.lh :: exists o :: (o, b, s.txn) in s.record))
    && (s.mode.Recovering? ==> forall r | r in s.record :: r.2 < s.txn)
  }

  ghost predicate Inv(g: Geometry, s: State) {
    DiskInv(g, s) && PinInv(s) && ReserveInv(s) && RecordInv(s)
  }

  lemma RecoveryWriteKeepsDisk(g: Geometry, s: State)
    requires Inv(g, s) && Enabled(g, s, DiskWrite) && s.mode.Recovering?
    ensures DiskInv(g, Apply(g, s, DiskWrite)) && PinInv(Apply(g, s, DiskWrite))
  {
    RecoverWriteStep(g, s.disk, s.lh, s.durable, s.mode.writes);
  }

  // Past the commit point, commit writes what recovery would write.
  lemma InstallPoint(g: Geometry, d: Disk, lh: seq<Word>, cached: Disk, home: Disk, k: nat)
    requires |lh| < k <= 2 * |lh| + 1 && RecoverPoint(g, d, lh, home, k - |lh| - 1)
    requires |lh| <= LOGSIZE && g.start in d && forall i: nat | i < |lh| :: Slot(g, i) in d && lh[i] in cached
    ensures RecoverPoint(g, CommitWrite(g, d, lh, cached, k), lh, home, k - |lh|)
  {
    RecoverWriteStep(g, d, lh, home, k - |lh| - 1);
  }

  lemma InstallWriteKeepsDisk(g: Geometry, s: State)
    requires Inv(g, s) && Enabled(g, s, DiskWrite) && s.mode.Committing? && s.mode.writes > |s.lh|
    ensures DiskInv(g, Apply(g, s, DiskWrite)) && PinInv(Apply(g, s, DiskWrite))
  {
    InstallPoint(g, s.disk, s.lh, s.pinned, s.durable, s.mode.writes);
  }

  lemma CommitWriteKeepsDisk(g: Geometry, s: State)
    requires Inv(g, s) && Enabled(g, s, DiskWrite) && s.mode.Committing? && s.mode.writes <= |s.lh|
    ensures DiskInv(g, Apply(g, s, DiskWrite)) && PinInv(Apply(g, s, DiskWrite))
  {
    CommitWriteStep(g, s.disk, s.lh, s.pinned, s.durable, s.mode.writes);
  }

  lemma LogWriteKeepsDisk(g: Geometry, s: State, e: Event)
    requires Inv(g, s) && Enabled(g, s, e) && e.LogWrite?
    ensures DiskInv(g, Apply(g, s, e)) && PinInv(Apply(g, s, e))
  {
    assert s.mode.Normal?;
  }

  lemma EndOpKeepsDisk(g: Geometry, s: State, e: Event)
    requires Inv(g, s) && Enabled(g, s, e) && e.EndOp?
    ensures DiskInv(g, Apply(g, s, e)) && PinInv(Apply(g, s, e))
  {
    assert s.mode.Normal?;
  }

  lemma DiskInvStep(g: Geometry, s: State, e: Event)
    requires Inv(g, s) && Enabled(g, s, e)
    ensures DiskInv(g, Apply(g, s, e)) && PinInv(Apply(g, s, e))
  {
    match e
    case BeginOp(op) =>
    case LogWrite(op, b, data) => LogWriteKeepsDisk(g, s, e);
    case EndOp(op) => EndOpKeepsDisk(g, s, e);
    case DiskWrite =>
      if s.mode.Recovering? {
        RecoveryWriteKeepsDisk(g, s);
      } else if s.mode.writes <= |s.lh| {
        CommitWriteKeepsDisk(g, s);
      } else {
        InstallWriteKeepsDisk(g, s);
      }
    case CommitDone =>
    case Crash =>
    case RecoveryDone =>
  }

  lemma BeginOpKeepsReserve(g: Geometry, s: State, e: Event)
    requires ReserveInv(s) && Enabled(g, s, e) && e.BeginOp? && e.op !in s.unspent
    ensures ReserveInv(Apply(g, s, e))
  {
    SumMapInsert(s.unspent, e.op, MAXOPBLOCKS, MAXOPBLOCKS);
  }

  lemma LogWriteKeepsReserve(g: Geometry, s: State, e: Event)
    requires ReserveInv(s) && Enabled(g, s, e) && e.LogWrite?
    ensures ReserveInv(Apply(g, s, e))
  {
    if e.block !in s.lh {
      SumMapUpdate(s.unspent, e.op, s.unspent[e.op] - 1);
      assert s.unspent[e.op := s.unspent[e.op] - 1].Keys == s.unspent.Keys;
    }
  }

  lemma EndOpKeepsReserve(g: Geometry, s: State, e: Event)
    requires ReserveInv(s) && Enabled(g, s, e) && e.EndOp?
    ensures ReserveInv(Apply(g, s, e))
  {
    SumMapWithout(s.unspent, e.op);
    var rest := s.unspent - {e.op};
    assert s.unspent.Keys == rest.Keys + {e.op};
    if s.outstanding == 1 {
      assert rest.Keys == {};
    }
  }

  lemma ReserveInvStep(g: Geometry, s: State, e: Event)
    requires ReserveInv(s) && RecordInv(s) && Enabled(g, s, e)
    ensures ReserveInv(Apply(g, s, e))
  {
    match e
    case BeginOp(op) => BeginOpKeepsReserve(g, s, e);
    case LogWrite(op, b, data) => LogWriteKeepsReserve(g, s, e);
    case EndOp(op) => EndOpKeepsReserve(g, s, e);
    case DiskWrite =>
    case CommitDone =>
    case Crash =>
    case RecoveryDone =>
  }

  lemma RecordInvStep(g: Geometry, s: State, e: Event)
    requires RecordInv(s) && ReserveInv(s) && PinInv(s) && Enabled(g, s, e)
    requires e.RecoveryDone? ==> DiskInv(g, s)
    ensures RecordInv(Apply(g, s, e))
  {
    var r := Apply(g, s, e);
    if e.LogWrite? {
      assert s.mode.Normal?;
      assert (e.op, e.block, s.txn) in r.record;
      forall b | b in r.lh
        ensures exists o :: (o, b, r.txn) in r.record
      {
        if b in s.lh {
          var o :| (o, b, s.txn) in s.record;
          assert (o, b, r.txn) in r.record;
        }
      }
    }
  }

  lemma InvStep(g: Geometry, s: State, e: Event)
    requires Inv(g, s) && Enabled(g, s, e)
    ensures Inv(g, Apply(g, s, e))
  {
    DiskInvStep(g, s, e);
    ReserveInvStep(g, s, e);
    RecordInvStep(g, s, e);
  }

  /*** Every run ***/

  ghost predicate StepAt(g: Geometry, ss: seq<State>, es: seq<Event>, i: nat)
    requires i < |es| && |ss| == |es| + 1
  {
    Enabled(g, ss[i], es[i]) && ss[i + 1] == Apply(g, ss[i], es[i])
  }

  ghost predicate Run(g: Geometry, ss: seq<State>, es: seq<Event>) {
    && |ss| == |es| + 1
    && Init(g, ss[0])
    && forall i: nat | i < |es| :: StepAt(g, ss, es, i)
  }

  lemma {:induction false} RunInv(g: Geometry, ss: seq<State>, es: seq<Event>, i: nat)
    requires Run(g, ss, es) && i <= |es|
    ensures Inv(g, ss[i])
  {
    if i > 0 {
      RunInv(g, ss, es, i - 1);
      assert StepAt(g, ss, es, i - 1);
      InvStep(g, ss[i - 1], es[i - 1]);
    }
  }

  // What a client reads: the open transaction's contents over the committed ones.
  ghost function View(s: State): Disk {
    map b | b in s.durable :: if b in s.pinned then s.pinned[b] else s.durable[b]
  }

  lemma UpdatedIsView(s: State)
    requires PinInv(s) && s.mode.Committing?
    ensures forall i | 0 <= i < |s.lh| :: s.lh[i] in s.pinned
    ensures Updated(s.durable, s.lh, s.pinned) == View(s)
  {
    assert forall i | 0 <= i < |s.lh| :: s.lh[i] in s.lh;
    var u := Updated(s.durable, s.lh, s.pinned);
    assert forall b | b in s.durable :: u[b] == View(s)[b];
  }

  lemma DurableStep(g: Geometry, s: State, e: Event)
    requires Inv(g, s) && Enabled(g, s, e)
    ensures var s' := Apply(g, s, e);
            s'.durable == s.durable || (s.mode.Committing? && s'.durable == View(s))
  {
    var s' := Apply(g, s, e);
    if e.DiskWrite? && s.mode.Committing? && s.mode.writes == |s.lh| {
      UpdatedIsView(s);
    }
  }

  // The write of the header makes durable what clients see.
  lemma HeaderWriteView(g: Geometry, s: State)
    requires Inv(g, s) && Enabled(g, s, DiskWrite) && s.mode.Committing? && s.mode.writes == |s.lh|
    ensures View(Apply(g, s, DiskWrite)) == View(s)
  {
    UpdatedIsView(s);
    CommittedIsView(Apply(g, s, DiskWrite));
  }

  lemma ViewStep(g: Geometry, s: State, e: Event)
    requires Inv(g, s) && Enabled(g, s, e) && !e.LogWrite? && !e.Crash?
    ensures View(Apply(g, s, e)) == View(s)
  {
    if e.DiskWrite? && s.mode.Committing? && s.mode.writes == |s.lh| {
      HeaderWriteView(g, s);
    } else if e.CommitDone? {
      CommittedIsView(s);
      CommittedIsView(Apply(g, s, e));
    }
  }

  // Pinned contents that agree with the durable ones do not show.
  lemma CommittedIsView(s: State)
    requires forall b | b in s.pinned && b in s.durable :: s.pinned[b] == s.durable[b]
    ensures View(s) == s.durable
  {
    assert forall b | b in s.durable :: View(s)[b] == s.durable[b];
  }

  /**
    Durability: at every moment of every run, crashes included, the disk
    recovers to `durable`; and `durable` changes only to become what all
    clients see, all at once, at a moment when no operation is inside.
   */
  lemma Durability(g: Geometry, ss: seq<State>, es: seq<Event>, i: nat)
    requires Run(g, ss, es) && i < |es|
    ensures Represents(g, ss[i].disk, ss[i].durable)
    ensures ss[i + 1].durable == ss[i].durable || (ss[i].unspent == map[] && ss[i + 1].durable == View(ss[i]))
    ensures es[i].Crash? ==> ss[i + 1].disk == ss[i].disk
  {
    RunInv(g, ss, es, i);
    assert StepAt(g, ss, es, i);
    DurableStep(g, ss[i], es[i]);
  }

  /** A step other than log_write and a crash keeps what clients see, through commit, installation and recovery. */
  lemma ViewKept(g: Geometry, ss: seq<State>, es: seq<Event>, i: nat)
    requires Run(g, ss, es) && i < |es| && !es[i].LogWrite? && !es[i].Crash?
    ensures View(ss[i + 1]) == View(ss[i])
  {
    RunInv(g, ss, es, i);
    assert StepAt(g, ss, es, i);
    ViewStep(g, ss[i], es[i]);
  }

  /**
    Group commit: while a commit runs nobody is inside an operation, so neither
    log_write nor end_op can happen and the panic in end_op is unreachable; and
    all the blocks one operation logs belong to one transaction.
   */
  lemma GroupCommit(g: Geometry, ss: seq<State>, es: seq<Event>, i: nat)
    requires Run(g, ss, es) && i <= |es|
    ensures ss[i].mode.Committing? ==> ss[i].outstanding == 0
    ensures ss[i].mode.Committing? ==> forall e: Event :: e.LogWrite? || e.EndOp? ==> !Enabled(g, ss[i], e)
    ensures forall r, r' | r in ss[i].record && r' in ss[i].record && r.0 == r'.0 :: r.2 == r'.2
    ensures !ss[i].mode.Recovering? ==> forall b :: b in ss[i].lh <==> exists o :: (o, b, ss[i].txn) in ss[i].record
  {
    RunInv(g, ss, es, i);
  }

  /**
    Reservation: the logged blocks and the budgets of the operations inside
    never exceed LOGSIZE, and no block is logged twice.
   */
  lemma Reservation(g: Geometry, ss: seq<State>, es: seq<Event>, i: nat)
    requires Run(g, ss, es) && i <= |es|
    ensures |ss[i].lh| + SumMap(ss[i].unspent) <= LOGSIZE
    ensures Distinct(ss[i].lh)
  {
    RunInv(g, ss, es, i);
  }

  /*** What an operation has spent ***/

  // The blocks an operation has logged.
  ghost function LoggedBy(record: set<(Op, Word, nat)>, op: Op): set<int> {
    set r | r in record && r.0 == op :: r.1 as int
  }

  lemma LoggedGrows(record: set<(Op, Word, nat)>, op: Op, b: Word, txn: nat, o: Op)
    ensures LoggedBy(record + {(op, b, txn)}, o)
            == if o == op then LoggedBy(record, o) + {b as int} else LoggedBy(record, o)
  {
    assert (op, b, txn) in record + {(op, b, txn)};
    assert forall r :: r in record + {(op, b, txn)} <==> r in record || r == (op, b, txn);
  }

  // An operation has spent its budget only on blocks it has logged, all of them in the log.
  ghost predicate Spent(s: State, o: Op)
    requires o in s.unspent
  {
    MAXOPBLOCKS <= s.unspent[o] + |LoggedBy(s.record, o)| && MAXOPBLOCKS <= s.unspent[o] + |s.lh|
  }

  ghost predicate SpentInv(s: State) {
    forall o | o in s.unspent :: Spent(s, o)
  }

  // What an operation inside has logged is in the log.
  lemma LoggedInLog(s: State, op: Op, b: Word)
    requires RecordInv(s) && ReserveInv(s) && op in s.unspent && b as int in LoggedBy(s.record, op)
    ensures b in s.lh
  {
    var r :| r in s.record && r.0 == op && r.1 as int == b as int;
    assert r.1 == b;
  }

  lemma LogWriteSpends(g: Geometry, s: State, e: Event, o: Op)
    requires RecordInv(s) && ReserveInv(s) && Enabled(g, s, e) && e.LogWrite? && o in s.unspent && Spent(s, o)
    ensures Spent(Apply(g, s, e), o)
  {
    LoggedGrows(s.record, e.op, e.block, s.txn, o);
    if o == e.op {
      WithSize(LoggedBy(s.record, o), e.block as int);
      if e.block as int in LoggedBy(s.record, o) {
        LoggedInLog(s, o, e.block);
      }
    }
  }

  lemma SpentStep(g: Geometry, s: State, e: Event)
    requires Inv(g, s) && SpentInv(s) && Enabled(g, s, e)
    ensures SpentInv(Apply(g, s, e))
  {
    var s' := Apply(g, s, e);
    forall o | o in s'.unspent
      ensures Spent(s', o)
    {
      if e.LogWrite? {
        LogWriteSpends(g, s, e, o);
      } else if o in s.unspent {
        assert Spent(s, o);
      }
    }
  }

  lemma {:induction false} RunSpent(g: Geometry, ss: seq<State>, es: seq<Event>, i: nat)
    requires Run(g, ss, es) && i <= |es|
    ensures SpentInv(ss[i])
  {
    if i > 0 {
      RunSpent(g, ss, es, i - 1);
      RunInv(g, ss, es, i - 1);
      assert StepAt(g, ss, es, i - 1);
      SpentStep(g, ss[i - 1], es[i - 1]);
    }
  }

  /**
    An operation that only logs blocks of one set of at most MAXOPBLOCKS, in
    any order and any number of times, never lacks budget.
   */
  lemma BudgetSuffices(g: Geometry, ss: seq<State>, es: seq<Event>, i: nat, op: Op, blocks: set<int>, b: Word)
    requires Run(g, ss, es) && i <= |es| && op in ss[i].unspent
    requires |blocks| <= MAXOPBLOCKS && LoggedBy(ss[i].record, op) <= blocks && b as int in blocks
    ensures b in ss[i].lh || ss[i].unspent[op] > 0
  {
    RunInv(g, ss, es, i);
    RunSpent(g, ss, es, i);
    var mine := LoggedBy(ss[i].record, op);
    assert Spent(ss[i], op);
    WithSize(mine, b as int);
    SubsetSize(mine + {b as int}, blocks);
    if b as int in mine {
      LoggedInLog(ss[i], op, b);
    }
  }

  /*** When a write that stays within its operation's budget can panic ***/

  // Operation op logs block b, which is in the log already or for which op has budget, and log_write panics.
  ghost predicate WithinBudgetPanic(g: Geometry, s: State, op: Op, b: Word) {
    op in s.unspent && b in s.durable && (b in s.lh || s.unspent[op] > 0) && LogFull(g, s)
  }

  // A run from s0 ends in such a state.
  ghost predicate Panics(g: Geometry, s0: State, ss: seq<State>, es: seq<Event>, op: Op, b: Word) {
    Run(g, ss, es) && ss[0] == s0 && WithinBudgetPanic(g, ss[|es|], op, b)
  }

  // ... with a block that is new to the log, or with one that is not.
  ghost predicate ReachesPanic(g: Geometry, s0: State, unseen: bool) {
    exists ss: seq<State>, es: seq<Event>, op: Op, b: Word ::
      Panics(g, s0, ss, es, op, b) && (b !in ss[|es|].lh <==> unseen)
  }

  // ... while some operation inside still has budget, or none has.
  ghost predicate ReachesPanicWith(g: Geometry, s0: State, budget: bool) {
    exists ss: seq<State>, es: seq<Event>, op: Op, b: Word ::
      Panics(g, s0, ss, es, op, b) && (SumMap(ss[|es|].unspent) > 0 <==> budget)
  }

  lemma RunAppend(g: Geometry, ss: seq<State>, es: seq<Event>, e: Event)
    requires Run(g, ss, es) && Enabled(g, ss[|es|], e)
    ensures Run(g, ss + [Apply(g, ss[|es|], e)], es + [e])
  {
    var ss', es' := ss + [Apply(g, ss[|es|], e)], es + [e];
    forall i: nat | i < |es'|
      ensures StepAt(g, ss', es', i)
    {
      assert i < |es| ==> StepAt(g, ss, es, i);
    }
  }

  // Which of three operations logs the k-th block when each logs as many as it may in turn.
  function Turn(k: nat): (o: Op) {
    if k < MAXOPBLOCKS then 0 else if k < 2 * MAXOPBLOCKS then 1 else 2
  }

  // Budget left, after k blocks, to the operation whose turn begins with block `first`.
  function Left(first: nat, k: nat): (n: nat) {
    if k <= first then MAXOPBLOCKS else if k >= first + MAXOPBLOCKS then 0 else first + MAXOPBLOCKS - k
  }

  function Budgets(k: nat): (m: map<Op, nat>) {
    map[0 := Left(0, k), 1 := Left(MAXOPBLOCKS, k), 2 := Left(2 * MAXOPBLOCKS, k)]
  }

  lemma TurnSpends(k: nat)
    requires k < LOGSIZE
    ensures Turn(k) in Budgets(k) && Budgets(k)[Turn(k)] > 0
    ensures Budgets(k + 1) == Budgets(k)[Turn(k) := Budgets(k)[Turn(k)] - 1]
  {
  }

  // Three operations inside, which have logged the first k of bs.
  ghost predicate Filled(s0: State, bs: seq<Word>, k: nat, s: State)
    requires k <= |bs|
  {
    && s.mode == Normal && s.lh == bs[..k] && s.durable == s0.durable && s.outstanding == 3
    && s.unspent == Budgets(k)
  }

  lemma ThreeBegin(g: Geometry, s0: State) returns (ss: seq<State>, es: seq<Event>)
    requires Init(g, s0)
    ensures Run(g, ss, es) && ss[0] == s0 && Filled(s0, [], 0, ss[|es|])
  {
    ss, es := [s0], [];
    RunAppend(g, ss, es, BeginOp(0));
    ss, es := ss + [Apply(g, ss[|es|], BeginOp(0))], es + [BeginOp(0)];
    RunAppend(g, ss, es, BeginOp(1));
    ss, es := ss + [Apply(g, ss[|es|], BeginOp(1))], es + [BeginOp(1)];
    RunAppend(g, ss, es, BeginOp(2));
    ss, es := ss + [Apply(g, ss[|es|], BeginOp(2))], es + [BeginOp(2)];
  }

  lemma FillOne(g: Geometry, s0: State, bs: seq<Word>, k: nat, s: State, data: Block)
    requires k + 1 < g.size && k < LOGSIZE && k < |bs| && Distinct(bs) && bs[k] in s0.durable && Filled(s0, bs, k, s)
    ensures Enabled(g, s, LogWrite(Turn(k), bs[k], data))
    ensures Filled(s0, bs, k + 1, Apply(g, s, LogWrite(Turn(k), bs[k], data)))
  {
    TurnSpends(k);
    assert bs[k] !in s.lh;
    assert bs[..k + 1] == bs[..k] + [bs[k]];
  }

  lemma {:induction false} FillLog(g: Geometry, s0: State, bs: seq<Word>, k: nat)
    returns (ss: seq<State>, es: seq<Event>)
    requires Init(g, s0) && Distinct(bs) && (forall i | 0 <= i < |bs| :: bs[i] in s0.durable)
    requires k < g.size && k <= LOGSIZE && k <= |bs|
    ensures Run(g, ss, es) && ss[0] == s0 && Filled(s0, bs, k, ss[|es|])
  {
    if k == 0 {
      ss, es := ThreeBegin(g, s0);
    } else {
      ss, es := FillLog(g, s0, bs, k - 1);
      var s, e := ss[|es|], LogWrite(Turn(k - 1), bs[k - 1], ZERO_BLOCK);
      FillOne(g, s0, bs, k - 1, s, ZERO_BLOCK);
      RunAppend(g, ss, es, e);
      ss, es := ss + [Apply(g, s, e)], es + [e];
    }
  }

  // ... and then operations 1 and 2 leave.
  lemma FillAndLeave(g: Geometry, s0: State, bs: seq<Word>, k: nat) returns (ss: seq<State>, es: seq<Event>)
    requires Init(g, s0) && Distinct(bs) && (forall i | 0 <= i < |bs| :: bs[i] in s0.durable)
    requires k < g.size && k <= LOGSIZE && k <= |bs|
    ensures Run(g, ss, es) && ss[0] == s0
    ensures ss[|es|].mode == Normal && ss[|es|].lh == bs[..k] && ss[|es|].durable == s0.durable
    ensures ss[|es|].unspent == map[0 := Left(0, k)]
  {
    ss, es := FillLog(g, s0, bs, k);
    RunAppend(g, ss, es, EndOp(2));
    ss, es := ss + [Apply(g, ss[|es|], EndOp(2))], es + [EndOp(2)];
    RunAppend(g, ss, es, EndOp(1));
    ss, es := ss + [Apply(g, ss[|es|], EndOp(1))], es + [EndOp(1)];
    assert ss[|es|].unspent == map[0 := Left(0, k)];
  }

  /** A log area larger than LOGSIZE and budget outstanding, with anyone inside, keep every log_write from the panic. */
  lemma SafeWrite(g: Geometry, ss: seq<State>, es: seq<Event>, i: nat)
    requires Run(g, ss, es) && i <= |es| && g.size > LOGSIZE && SumMap(ss[i].unspent) > 0
    ensures !LogFull(g, ss[i])
  {
    RunInv(g, ss, es, i);
  }

  /**
    With such a log area an operation that has logged fewer than MAXOPBLOCKS
    blocks never meets the panic, whatever block it logs next.
   */
  lemma UnderBudget(g: Geometry, ss: seq<State>, es: seq<Event>, i: nat, op: Op, b: Word, data: Block)
    requires Run(g, ss, es) && i <= |es| && g.size > LOGSIZE && op in ss[i].unspent && b in ss[i].durable
    requires |LoggedBy(ss[i].record, op)| < MAXOPBLOCKS
    ensures Enabled(g, ss[i], LogWrite(op, b, data))
  {
    RunSpent(g, ss, es, i);
    assert Spent(ss[i], op);
    SumMapWithout(ss[i].unspent, op);
    SafeWrite(g, ss, es, i);
  }

  /** A block new to the log can hit the panic in some run if and only if the log area has at most LOGSIZE blocks. */
  lemma NewBlockPanicIff(g: Geometry, s0: State, bs: seq<Word>)
    requires Init(g, s0)
    requires |bs| > LOGSIZE && Distinct(bs) && forall i | 0 <= i < |bs| :: bs[i] in s0.durable
    ensures ReachesPanic(g, s0, true) <==> g.size <= LOGSIZE
  {
    if g.size <= LOGSIZE {
      var k := g.size - 1;
      var ss, es := FillLog(g, s0, bs, k);
      assert Panics(g, s0, ss, es, Turn(k), bs[k]);
    }
    if ReachesPanic(g, s0, true) {
      var ss: seq<State>, es: seq<Event>, op: Op, b: Word :| Panics(g, s0, ss, es, op, b) && b !in ss[|es|].lh;
      RunInv(g, ss, es, |es|);
      SumMapWithout(ss[|es|].unspent, op);
    }
  }

  /** A block already in the log can hit it in some run whenever the log area has room for a block at all. */
  lemma LoggedBlockPanicIff(g: Geometry, s0: State, bs: seq<Word>)
    requires Init(g, s0)
    requires |bs| > LOGSIZE && Distinct(bs) && forall i | 0 <= i < |bs| :: bs[i] in s0.durable
    ensures ReachesPanic(g, s0, false) <==> g.size >= 2
  {
    if g.size >= 2 {
      var k := if g.size <= LOGSIZE then g.size - 1 else LOGSIZE;
      var ss, es := FillLog(g, s0, bs, k);
      assert Panics(g, s0, ss, es, 0, bs[0]);
    }
    if ReachesPanic(g, s0, false) {
      var ss: seq<State>, es: seq<Event>, op: Op, b: Word :| Panics(g, s0, ss, es, op, b) && b in ss[|es|].lh;
      RunInv(g, ss, es, |es|);
    }
  }

  /**
    The exact condition.  While any operation inside has budget left, a write
    within budget can hit the "too big a transaction" panic in some run if and
    only if the log area, header included, has at most LOGSIZE blocks, as mkfs
    makes it.  With no budget left, it can if and only if the log area has more
    than MAXOPBLOCKS blocks: one operation's worth of them fits, and the guard
    of log_write comes before its search for the block.  So every log area is
    exposed, and a larger one exactly while no budget is left.
   */
  lemma PanicIff(g: Geometry, s0: State, bs: seq<Word>)
    requires Init(g, s0)
    requires |bs| > LOGSIZE && Distinct(bs) && forall i | 0 <= i < |bs| :: bs[i] in s0.durable
    ensures ReachesPanicWith(g, s0, true) <==> g.size <= LOGSIZE
    ensures ReachesPanicWith(g, s0, false) <==> g.size > MAXOPBLOCKS
  {
    if g.size <= LOGSIZE {
      PanicWithBudget(g, s0, bs);
    }
    if ReachesPanicWith(g, s0, true) {
      var ss: seq<State>, es: seq<Event>, op: Op, b: Word :|
        Panics(g, s0, ss, es, op, b) && SumMap(ss[|es|].unspent) > 0;
      RunInv(g, ss, es, |es|);
    }
    if g.size > MAXOPBLOCKS {
      PanicWithoutBudget(g, s0, bs);
    }
    if ReachesPanicWith(g, s0, false) {
      var ss: seq<State>, es: seq<Event>, op: Op, b: Word :|
        Panics(g, s0, ss, es, op, b) && SumMap(ss[|es|].unspent) == 0;
      RunInv(g, ss, es, |es|);
      RunSpent(g, ss, es, |es|);
      SumMapWithout(ss[|es|].unspent, op);
    }
  }

  lemma PanicWithBudget(g: Geometry, s0: State, bs: seq<Word>)
    requires Init(g, s0) && g.size <= LOGSIZE
    requires |bs| > LOGSIZE && Distinct(bs) && forall i | 0 <= i < |bs| :: bs[i] in s0.durable
    ensures ReachesPanicWith(g, s0, true)
  {
    var k := g.size - 1;
    var ss, es := FillLog(g, s0, bs, k);
    var op := Turn(k);
    SumMapWithout(ss[|es|].unspent, op);
    assert Panics(g, s0, ss, es, op, bs[k]);
  }

  lemma PanicWithoutBudget(g: Geometry, s0: State, bs: seq<Word>)
    requires Init(g, s0) && g.size > MAXOPBLOCKS
    requires |bs| > LOGSIZE && Distinct(bs) && forall i | 0 <= i < |bs| :: bs[i] in s0.durable
    ensures ReachesPanicWith(g, s0, false)
  {
    var k := if g.size <= LOGSIZE then g.size - 1 else LOGSIZE;
    var ss, es := FillAndLeave(g, s0, bs, k);
    SumMapWithout(ss[|es|].unspent, 0);
    assert ss[|es|].unspent - {0} == map[];
    assert bs[0] in bs[..k];
    assert Panics(g, s0, ss, es, 0, bs[0]);
  }
}
