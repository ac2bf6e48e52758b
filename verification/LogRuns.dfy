/**
  What a run of the log promises its clients: a finished commit lasts, and
  an operation happens wholly or not at all.
 */
module LogRuns {
  import opened Blocks
  import opened LogFormat
  import opened LogMachine
  import opened Options

  // No log_write from step lo up to step hi.
  ghost predicate Quiet(es: seq<Event>, lo: nat, hi: nat)
    requires hi <= |es|
  {
    forall i | lo <= i < hi :: !es[i].LogWrite?
  }

  lemma QuietStep(g: Geometry, s: State, e: Event)
    requires Inv(g, s) && Enabled(g, s, e) && !e.LogWrite? && s.pinned == map[]
    ensures Apply(g, s, e).pinned == map[] && Apply(g, s, e).durable == s.durable
  {
  }

  // With nothing pinned and nothing logged, no step shows, crashes and recoveries included.
  lemma {:induction false} QuietKeeps(g: Geometry, ss: seq<State>, es: seq<Event>, j: nat, m: nat)
    requires Run(g, ss, es) && j <= m <= |es| && Quiet(es, j, m) && ss[j].pinned == map[]
    ensures ss[m].pinned == map[] && ss[m].durable == ss[j].durable
  {
    if j < m {
      QuietKeeps(g, ss, es, j, m - 1);
      RunInv(g, ss, es, m - 1);
      assert StepAt(g, ss, es, m - 1);
      QuietStep(g, ss[m - 1], es[m - 1]);
    }
  }

  /**
    A finished commit lasts: whatever crashes and recoveries follow, clients
    see what they saw, until the next log_write.
   */
  lemma CommitLasts(g: Geometry, ss: seq<State>, es: seq<Event>, i: nat, m: nat)
    requires Run(g, ss, es) && i < m <= |es| && es[i].CommitDone? && Quiet(es, i, m)
    ensures View(ss[m]) == ss[m].durable == View(ss[i])
  {
    assert StepAt(g, ss, es, i);
    QuietKeeps(g, ss, es, i + 1, m);
    ViewKept(g, ss, es, i);
    CommittedIsView(ss[i + 1]);
    CommittedIsView(ss[m]);
  }

  /**
    After a crash clients see exactly what was durable at the crash, whatever
    further crashes interrupt the recovery.
   */
  lemma CrashRecovers(g: Geometry, ss: seq<State>, es: seq<Event>, k: nat, m: nat)
    requires Run(g, ss, es) && k < m <= |es| && es[k].Crash? && Quiet(es, k, m)
    ensures View(ss[m]) == ss[m].durable == ss[k].durable
  {
    assert StepAt(g, ss, es, k);
    QuietKeeps(g, ss, es, k + 1, m);
    CommittedIsView(ss[m]);
  }

  /*** Operations are atomic ***/

  lemma {:induction false} TxnGrows(g: Geometry, ss: seq<State>, es: seq<Event>, i: nat, k: nat)
    requires Run(g, ss, es) && i <= k <= |es|
    ensures ss[i].txn <= ss[k].txn
  {
    if i < k {
      TxnGrows(g, ss, es, i, k - 1);
      assert StepAt(g, ss, es, k - 1);
    }
  }

  // The commit at step c of the transaction of step i put all that op ever logged into what is durable at step k.
  ghost predicate AllNew(ss: seq<State>, op: Op, i: nat, c: nat, k: nat)
    requires i < |ss| && c < |ss| && k < |ss|
  {
    && ss[c].unspent == map[] && ss[c].durable == ss[i].durable && ss[k].pinned == ss[c].pinned
    && ss[k].durable == View(ss[c])
    && LoggedBy(ss[k].record, op) == LoggedBy(ss[c].record, op)
    && forall b: Word | b as int in LoggedBy(ss[k].record, op) :: b in ss[c].pinned
  }

  // Past its commit point, before the log is cleared.
  ghost predicate Installing(s: State) {
    s.mode.Committing? && s.mode.writes > |s.lh|
  }

  // Within the transaction of step i: before the commit point all is as it was, after it all that op logged is there.
  ghost predicate OldOrNew(ss: seq<State>, op: Op, i: nat, k: nat)
    requires i < k < |ss|
  {
    if Installing(ss[k]) then exists c: nat :: i < c < k && AllNew(ss, op, i, c, k) else ss[k].durable == ss[i].durable
  }

  // What op logged in the open transaction is pinned.
  lemma LoggedIsPinned(g: Geometry, s: State, op: Op, b: Word)
    requires Inv(g, s) && !s.mode.Recovering? && op in s.begun
    requires s.begun[op] == s.txn && b as int in LoggedBy(s.record, op)
    ensures b in s.pinned
  {
    var r :| r in s.record && r.0 == op && r.1 as int == b as int;
    assert r.1 == b;
  }

  // A step within one transaction, taken while its operations are inside or its commit runs.
  lemma OldOrNewStep(g: Geometry, ss: seq<State>, es: seq<Event>, op: Op, i: nat, k: nat)
    requires Run(g, ss, es) && i < k < |es| && OldOrNew(ss, op, i, k) && ss[k + 1].txn == ss[k].txn
    requires !ss[k].mode.Recovering? && op in ss[k].begun && ss[k].begun[op] == ss[k].txn
    ensures OldOrNew(ss, op, i, k + 1) && !ss[k + 1].mode.Recovering?
    ensures op in ss[k + 1].begun && ss[k + 1].begun[op] == ss[k].txn
  {
    var s, s', e := ss[k], ss[k + 1], es[k];
    RunInv(g, ss, es, k);
    assert StepAt(g, ss, es, k);
    if Installing(s) {
      assert e.DiskWrite?;
      var c: nat :| i < c < k && AllNew(ss, op, i, c, k);
      assert AllNew(ss, op, i, c, k + 1);
    } else if Installing(s') {
      assert e.DiskWrite? && s.mode.writes == |s.lh|;
      UpdatedIsView(s);
      forall b: Word | b as int in LoggedBy(s.record, op)
        ensures b in s.pinned
      {
        LoggedIsPinned(g, s, op, b);
      }
      assert AllNew(ss, op, i, k, k + 1);
    }
  }

  /**
    Atomicity: at every moment of the transaction that op began in, either
    nothing of the transaction is durable, or all that op ever logs is.
   */
  lemma {:induction false} OpAtomic(g: Geometry, ss: seq<State>, es: seq<Event>, op: Op, i: nat, k: nat)
    requires Run(g, ss, es) && i < k <= |es| && es[i] == BeginOp(op) && ss[k].txn == ss[i].txn
    ensures OldOrNew(ss, op, i, k) && !ss[k].mode.Recovering? && op in ss[k].begun && ss[k].begun[op] == ss[k].txn
  {
    if k == i + 1 {
      assert StepAt(g, ss, es, i);
    } else {
      TxnGrows(g, ss, es, i, k - 1);
      TxnGrows(g, ss, es, k - 1, k);
      OpAtomic(g, ss, es, op, i, k - 1);
      OldOrNewStep(g, ss, es, op, i, k - 1);
    }
  }

  lemma {:induction false} OpOver(g: Geometry, ss: seq<State>, es: seq<Event>, op: Op, c: nat, m: nat)
    requires Run(g, ss, es) && c <= m <= |es| && op in ss[c].begun && op !in ss[c].unspent
    ensures op in ss[m].begun && op !in ss[m].unspent && LoggedBy(ss[m].record, op) == LoggedBy(ss[c].record, op)
  {
    if c < m {
      OpOver(g, ss, es, op, c, m - 1);
      assert StepAt(g, ss, es, m - 1);
      var e := es[m - 1];
      if e.LogWrite? {
        LoggedGrows(ss[m - 1].record, e.op, e.block, ss[m - 1].txn, op);
      }
    }
  }

  // What clients see at step m is what the commit at step c made durable, and op logs nothing more.
  ghost predicate SeesAll(ss: seq<State>, op: Op, i: nat, c: nat, k: nat, m: nat)
    requires i < |ss| && c < |ss| && k < |ss| && m < |ss|
  {
    AllNew(ss, op, i, c, k) && View(ss[m]) == View(ss[c]) && LoggedBy(ss[m].record, op) == LoggedBy(ss[c].record, op)
  }

  /** ... so after a crash and any number of recoveries, clients see none of the transaction or all that op logged. */
  lemma CrashAtomic(g: Geometry, ss: seq<State>, es: seq<Event>, op: Op, i: nat, k: nat, m: nat)
    requires Run(g, ss, es) && i < k < m <= |es| && es[i] == BeginOp(op) && ss[k].txn == ss[i].txn
    requires es[k].Crash? && Quiet(es, k, m)
    ensures View(ss[m]) == ss[i].durable || exists c: nat :: i < c < k && SeesAll(ss, op, i, c, k, m)
    ensures op in ss[k].unspent ==> View(ss[m]) == ss[i].durable
  {
    OpAtomic(g, ss, es, op, i, k);
    CrashRecovers(g, ss, es, k, m);
    if Installing(ss[k]) {
      RunInv(g, ss, es, k);
      OpOver(g, ss, es, op, k, m);
      var c: nat :| i < c < k && AllNew(ss, op, i, c, k);
      assert SeesAll(ss, op, i, c, k, m);
    }
  }

  /*** What the log holds of a block ***/

  // The contents given by the last log_write of block b from step lo up to step hi.
  function LastLogged(es: seq<Event>, lo: nat, hi: nat, b: int): (r: Option<Block>)
    requires hi <= |es|
  {
    if hi <= lo then None
    else if es[hi - 1].LogWrite? && es[hi - 1].block == b then Some(es[hi - 1].data)
    else LastLogged(es, lo, hi - 1, b)
  }

  /** Within a transaction, what is pinned of a block is what was last logged of it, by whomever. */
  lemma {:induction false} PinnedIsLast(g: Geometry, ss: seq<State>, es: seq<Event>, j: nat, k: nat, b: int)
    requires Run(g, ss, es) && j <= k <= |es| && ss[k].txn == ss[j].txn
    ensures match LastLogged(es, j, k, b)
            case Some(data) => b in ss[k].pinned && ss[k].pinned[b] == data
            case None => b in ss[k].pinned <==> b in ss[j].pinned
  {
    if j < k {
      TxnGrows(g, ss, es, j, k - 1);
      TxnGrows(g, ss, es, k - 1, k);
      PinnedIsLast(g, ss, es, j, k - 1, b);
      assert StepAt(g, ss, es, k - 1);
    }
  }
}
