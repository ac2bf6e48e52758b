/**
  sleeplock.c over sleep and wakeup of proc.c, as a state machine: any number of
  processes, each between two accesses to shared memory.  lk is the inner
  spinlock, table is ptable.lock.
 */
module SleepLock {
  import opened Options

  type Proc = nat

  // Where a process stands.
  datatype Pc =
    | Idle
    | AcqSpin      // acquiresleep, or sleep after waking: acquiring lk
    | AcqTest      // has lk, tests locked
    | AcqTake      // has lk, found it unlocked
    | AcqUnlock    // has lk, set locked
    | SleepSpin    // sleep: has lk, acquiring ptable.lock
    | SleepBoth    // has both locks, releases lk
    | SleepTable   // has ptable.lock only, sets its state to SLEEPING
    | Asleep       // SLEEPING on the sleep lock
    | Woken        // RUNNABLE, not yet chosen by a scheduler
    | Resumed      // chosen, has ptable.lock
    | Holding      // owns the sleep lock
    | RelSpin      // releasesleep: acquiring lk
    | RelClear     // has lk, clears locked
    | WakeSpin     // wakeup: has lk, acquiring ptable.lock
    | WakeAll      // has both, wakes the sleepers
    | WakeDone     // has both, releases ptable.lock
    | RelUnlock    // has lk, releases it

  datatype State = State(
    lk: Option<Proc>,
    table: Option<Proc>,
    locked: bool,
    pid: Option<Proc>,
    pc: map<Proc, Pc>)

  datatype Event = Advance(p: Proc) | Kill(p: Proc)

  /*** Steps ***/

  predicate HasLk(c: Pc) {
    c in {AcqTest, AcqTake, AcqUnlock, SleepSpin, SleepBoth, RelClear, WakeSpin, WakeAll, WakeDone, RelUnlock}
  }

  predicate HasTable(c: Pc) {
    c in {SleepBoth, SleepTable, Resumed, WakeAll, WakeDone}
  }

  // The sleep lock belongs to the process.
  predicate Owns(c: Pc) {
    c in {AcqUnlock, Holding, RelSpin, RelClear}
  }

  // The process sleeps or has decided to.
  predicate Sleeps(c: Pc) {
    c in {SleepSpin, SleepBoth, SleepTable, Asleep}
  }

  // The process will wake all sleepers before it lets go of lk.
  predicate WillWake(c: Pc) {
    c in {WakeSpin, WakeAll}
  }

  function Wake(pc: map<Proc, Pc>): map<Proc, Pc> {
    map p | p in pc :: if pc[p].Asleep? then Woken else pc[p]
  }

  predicate Enabled(s: State, e: Event) {
    && e.p in s.pc
    && match e
       case Advance(p) =>
         (match s.pc[p]
          case AcqSpin => s.lk.None?
          case RelSpin => s.lk.None?
          case SleepSpin => s.table.None?
          case WakeSpin => s.table.None?
          case Woken => s.table.None?
          case Asleep => false
          case _ => true)
       case Kill(_) => s.table.None?
  }

  function Moved(s: State, p: Proc, c: Pc): State {
    s.(pc := s.pc[p := c])
  }

  function Apply(s: State, e: Event): State
    requires Enabled(s, e)
  {
    var p := e.p;
    if e.Kill? then
      (if s.pc[p].Asleep? then Moved(s, p, Woken) else s)
    else match s.pc[p]
      case Idle => Moved(s, p, AcqSpin)
      case AcqSpin => Moved(s, p, AcqTest).(lk := Some(p))
      case AcqTest => Moved(s, p, if s.locked then SleepSpin else AcqTake)
      case AcqTake => Moved(s, p, AcqUnlock).(locked := true, pid := Some(p))
      case AcqUnlock => Moved(s, p, Holding).(lk := None)
      case SleepSpin => Moved(s, p, SleepBoth).(table := Some(p))
      case SleepBoth => Moved(s, p, SleepTable).(lk := None)
      case SleepTable => Moved(s, p, Asleep).(table := None)
      case Woken => Moved(s, p, Resumed).(table := Some(p))
      case Resumed => Moved(s, p, AcqSpin).(table := None)
      case Holding => Moved(s, p, RelSpin)
      case RelSpin => Moved(s, p, RelClear).(lk := Some(p))
      case RelClear => Moved(s, p, WakeSpin).(locked := false, pid := None)
      case WakeSpin => Moved(s, p, WakeAll).(table := Some(p))
      case WakeAll => s.(pc := Wake(s.pc)[p := WakeDone])
      case WakeDone => Moved(s, p, RelUnlock).(table := None)
      case RelUnlock => Moved(s, p, Idle).(lk := None)
  }

  ghost predicate Init(s: State) {
    && s.lk.None? && s.table.None? && !s.locked && s.pid.None?
    && forall p | p in s.pc :: s.pc[p].Idle?
  }

  ghost predicate StepAt(run: seq<State>, k: nat)
    requires k + 1 < |run|
  {
    exists e: Event :: Enabled(run[k], e) && run[k + 1] == Apply(run[k], e)
  }

  // A run: any interleaving, from no one using the lock.
  ghost predicate Run(run: seq<State>) {
    |run| > 0 && Init(run[0]) && forall k: nat {:trigger StepAt(run, k)} | k + 1 < |run| :: StepAt(run, k)
  }

  /*** The invariant ***/

  // Who holds what is what the program counters say.
  ghost predicate SpinInv(s: State) {
    && (s.lk.Some? ==> s.lk.value in s.pc)
    && forall p | p in s.pc :: HasLk(s.pc[p]) <==> s.lk == Some(p)
  }

  ghost predicate TableInv(s: State) {
    && (s.table.Some? ==> s.table.value in s.pc)
    && forall p | p in s.pc :: HasTable(s.pc[p]) <==> s.table == Some(p)
  }

  ghost predicate OwnerInv(s: State) {
    && (s.locked ==> s.pid.Some? && s.pid.value in s.pc)
    && forall p | p in s.pc :: Owns(s.pc[p]) <==> s.locked && s.pid == Some(p)
  }

  // A process that found the lock free still finds it free.
  ghost predicate TakeInv(s: State) {
    forall p | p in s.pc && s.pc[p] in {AcqTake, WakeSpin, WakeAll, WakeDone, RelUnlock} :: !s.locked
  }

  // While someone sleeps, the lock is taken or a wakeup is on its way.
  ghost predicate WakeInv(s: State) {
    forall p | p in s.pc && Sleeps(s.pc[p]) ::
      s.locked || (s.lk.Some? && s.lk.value in s.pc && WillWake(s.pc[s.lk.value]))
  }

  ghost predicate Inv(s: State) {
    SpinInv(s) && TableInv(s) && OwnerInv(s) && TakeInv(s) && WakeInv(s)
  }

  lemma SpinStep(s: State, e: Event)
    requires Inv(s) && Enabled(s, e)
    ensures SpinInv(Apply(s, e))
  {
  }

  lemma TableStep(s: State, e: Event)
    requires Inv(s) && Enabled(s, e)
    ensures TableInv(Apply(s, e))
  {
  }

  lemma OwnerStep(s: State, e: Event)
    requires Inv(s) && Enabled(s, e)
    ensures OwnerInv(Apply(s, e))
  {
  }

  lemma TakeStep(s: State, e: Event)
    requires Inv(s) && Enabled(s, e)
    ensures TakeInv(Apply(s, e))
  {
  }

  lemma WakeStep(s: State, e: Event)
    requires Inv(s) && Enabled(s, e)
    ensures WakeInv(Apply(s, e))
  {
  }

  lemma InvStep(s: State, e: Event)
    requires Inv(s) && Enabled(s, e)
    ensures Inv(Apply(s, e))
  {
    SpinStep(s, e);
    TableStep(s, e);
    OwnerStep(s, e);
    TakeStep(s, e);
    WakeStep(s, e);
  }

  lemma {:induction false} RunInv(run: seq<State>, k: nat)
    requires Run(run) && k < |run|
    ensures Inv(run[k])
    decreases k
  {
    if k > 0 {
      RunInv(run, k - 1);
      assert StepAt(run, k - 1);
      var e :| Enabled(run[k - 1], e) && run[k] == Apply(run[k - 1], e);
      InvStep(run[k - 1], e);
    }
  }

  /*** What the lock promises, at every point of every run ***/

  /** Mutual exclusion, and the owner is the process the pid field names. */
  lemma MutualExclusion(run: seq<State>, k: nat, p: Proc, q: Proc)
    requires Run(run) && k < |run| && p in run[k].pc && q in run[k].pc
    requires Owns(run[k].pc[p]) && Owns(run[k].pc[q])
    ensures p == q && run[k].locked && run[k].pid == Some(p)
  {
    RunInv(run, k);
  }

  /** With lk free, holdingsleep's test is true exactly of the owner. */
  lemma HoldingSleep(run: seq<State>, k: nat, p: Proc)
    requires Run(run) && k < |run| && p in run[k].pc && run[k].lk.None?
    ensures run[k].locked && run[k].pid == Some(p) <==> run[k].pc[p] in {Holding, RelSpin}
  {
    RunInv(run, k);
  }

  /** No lost wakeup: with lk free and the sleep lock free, nobody sleeps or is about to. */
  lemma NoLostWakeup(run: seq<State>, k: nat, p: Proc)
    requires Run(run) && k < |run| && p in run[k].pc
    requires run[k].lk.None? && !run[k].locked
    ensures !Sleeps(run[k].pc[p])
  {
    RunInv(run, k);
  }

  /** Whoever sleeps, another process owns the lock or is about to wake all, and that one does not sleep. */
  lemma SleeperHasWaker(run: seq<State>, k: nat, p: Proc)
    requires Run(run) && k < |run| && p in run[k].pc && Sleeps(run[k].pc[p])
    ensures exists q | q in run[k].pc :: q != p && (Owns(run[k].pc[q]) || WillWake(run[k].pc[q]))
  {
    RunInv(run, k);
    var s := run[k];
    var q := if s.locked then s.pid.value else s.lk.value;
    assert q in s.pc && q != p && (Owns(s.pc[q]) || WillWake(s.pc[q]));
  }

  // The process that can move, for a process p in the middle of an operation.
  function Mover(s: State, p: Proc): Proc {
    if s.table.Some? then s.table.value
    else if s.lk.Some? then s.lk.value
    else if p in s.pc && Sleeps(s.pc[p]) && s.pid.Some? then s.pid.value
    else p
  }

  /**
    No deadlock: with any operation in progress, some process can move without
    being killed, or owns the lock and is using it.
   */
  lemma NoDeadlock(run: seq<State>, k: nat, p: Proc)
    requires Run(run) && k < |run| && p in run[k].pc && run[k].pc[p] !in {Idle, Holding}
    ensures exists q | q in run[k].pc :: run[k].pc[q].Holding? || (!run[k].pc[q].Idle? && Enabled(run[k], Advance(q)))
  {
    RunInv(run, k);
    var s := run[k];
    var q := Mover(s, p);
    assert q in s.pc && (s.pc[q].Holding? || (!s.pc[q].Idle? && Enabled(s, Advance(q))));
  }
}
