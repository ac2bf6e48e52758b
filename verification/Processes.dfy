/**
  proc.c: the process table.  Each method of ProcTable is what happens while
  ptable.lock is held once, or an assignment to a process that only the caller
  can see; the CPUs interleave them in any order.  Processes are named by slot.
 */
module Processes {
  import opened Options

  datatype ProcState = UNUSED | EMBRYO | SLEEPING | RUNNABLE | RUNNING | ZOMBIE

  // What a process sleeps on: the address of a process structure, or any other address.
  datatype Chan = NoChan | Slot(p: nat) | Other(a: nat)

  datatype Proc = Proc(state: ProcState, pid: nat, parent: Option<nat>, chan: Chan, killed: bool)

  predicate Alive(p: Proc) {
    p.state.SLEEPING? || p.state.RUNNABLE? || p.state.RUNNING?
  }

  predicate SleepsOn(p: Proc, ch: Chan) {
    p.state.SLEEPING? && p.chan == ch
  }

  // A process after wakeup1 on ch.
  function Woken(p: Proc, ch: Chan): Proc {
    if SleepsOn(p, ch) then p.(state := RUNNABLE) else p
  }

  // Marked killed, and awake to notice.
  function Killed(p: Proc): Proc {
    p.(killed := true, state := if p.state.SLEEPING? then RUNNABLE else p.state)
  }

  // A slot after wait has reaped its zombie.
  function Vacated(p: Proc): Proc {
    p.(state := UNUSED, pid := 0, parent := None, killed := false)
  }

  // Asleep in wait.
  predicate Waits(ps: seq<Proc>, q: nat) {
    q < |ps| && SleepsOn(ps[q], Slot(q))
  }

  /*** What holds of each slot ***/

  // A parent is alive; every process but init has one; a zombie's parent does not sleep in wait.
  ghost predicate FamilyAt(ps: seq<Proc>, init: nat, i: nat) {
    && i < |ps|
    && (ps[i].state.UNUSED? ==> ps[i].parent.None?)
    && (ps[i].parent.Some? ==>
          i != init && ps[i].parent.value != i && ps[i].parent.value < |ps| && Alive(ps[ps[i].parent.value]))
    && (i != init && (Alive(ps[i]) || ps[i].state.ZOMBIE?) ==> ps[i].parent.Some?)
    && (ps[i].state.ZOMBIE? ==> i != init && !Waits(ps, ps[i].parent.value))
  }

  ghost predicate FamilyOk(ps: seq<Proc>, init: nat) {
    && init < |ps| && Alive(ps[init])
    && forall i: nat {:trigger FamilyAt(ps, init, i)} | i < |ps| :: FamilyAt(ps, init, i)
  }

  // An embryo is being made by a process in fork.
  ghost predicate EmbryoAt(ps: seq<Proc>, maker: seq<nat>, i: nat) {
    && i < |ps| && i < |maker|
    && (ps[i].state.EMBRYO? ==>
          && maker[i] < |ps| && Alive(ps[maker[i]])
          && (ps[i].parent.Some? ==> ps[i].parent.value == maker[i]))
  }

  ghost predicate EmbryosOk(ps: seq<Proc>, maker: seq<nat>) {
    |maker| == |ps| && forall i: nat {:trigger EmbryoAt(ps, maker, i)} | i < |ps| :: EmbryoAt(ps, maker, i)
  }

  // A running process is the current process of its CPU.
  ghost predicate RunsAt(ps: seq<Proc>, cpus: seq<Option<nat>>, on: seq<nat>, i: nat) {
    && i < |ps| && i < |on|
    && (ps[i].state.RUNNING? ==> on[i] < |cpus| && cpus[on[i]] == Some(i))
  }

  // A CPU's current process is running, and on no other CPU.
  ghost predicate CpuAt(ps: seq<Proc>, cpus: seq<Option<nat>>, on: seq<nat>, c: nat) {
    && c < |cpus|
    && (cpus[c].Some? ==>
          && cpus[c].value < |ps| && cpus[c].value < |on|
          && ps[cpus[c].value].state.RUNNING? && on[cpus[c].value] == c)
  }

  ghost predicate CpusOk(ps: seq<Proc>, cpus: seq<Option<nat>>, on: seq<nat>) {
    && |on| == |ps|
    && (forall i: nat {:trigger RunsAt(ps, cpus, on, i)} | i < |ps| :: RunsAt(ps, cpus, on, i))
    && (forall c: nat {:trigger CpuAt(ps, cpus, on, c)} | c < |cpus| :: CpuAt(ps, cpus, on, c))
  }

  // A pid belongs to the one slot that got it; a zombie has exited and is not reaped.
  ghost predicate PidAt(ps: seq<Proc>, nextpid: nat, slotOf: map<nat, nat>, exited: set<nat>, reaped: set<nat>,
                        i: nat) {
    && i < |ps|
    && (ps[i].pid != 0 ==> ps[i].pid < nextpid && ps[i].pid in slotOf && slotOf[ps[i].pid] == i)
    && (!ps[i].state.UNUSED? ==> ps[i].pid != 0)
    && ps[i].pid !in reaped && (ps[i].pid in exited <==> ps[i].state.ZOMBIE?)
  }

  // A process that has exited is a zombie until it is reaped.
  ghost predicate ExitAt(ps: seq<Proc>, slotOf: map<nat, nat>, reaped: set<nat>, pid: nat) {
    pid in reaped
    || (pid in slotOf && slotOf[pid] < |ps| && ps[slotOf[pid]].pid == pid && ps[slotOf[pid]].state.ZOMBIE?)
  }

  ghost predicate PidsOk(ps: seq<Proc>, nextpid: nat, slotOf: map<nat, nat>, exited: set<nat>, reaped: set<nat>) {
    && nextpid > 0 && reaped <= exited && 0 !in exited
    && (forall x | x in slotOf :: x < nextpid) && (forall x | x in exited :: x < nextpid)
    && (forall i: nat {:trigger PidAt(ps, nextpid, slotOf, exited, reaped, i)} | i < |ps| ::
          PidAt(ps, nextpid, slotOf, exited, reaped, i))
    && (forall pid {:trigger ExitAt(ps, slotOf, reaped, pid)} | pid in exited :: ExitAt(ps, slotOf, reaped, pid))
  }

  // The table, with bookkeeping that the proofs need: who makes an embryo, on which CPU a process runs, which slot
  // got a pid, and which processes have exited and been reaped.
  datatype Table = Table(
    ps: seq<Proc>, init: nat, cpus: seq<Option<nat>>, nextpid: nat,
    maker: seq<nat>, on: seq<nat>, slotOf: map<nat, nat>, exited: set<nat>, reaped: set<nat>)

  /** Everything that holds while ptable.lock is free. */
  ghost predicate TableOk(t: Table) {
    && FamilyOk(t.ps, t.init) && EmbryosOk(t.ps, t.maker) && CpusOk(t.ps, t.cpus, t.on)
    && PidsOk(t.ps, t.nextpid, t.slotOf, t.exited, t.reaped)
  }

  ghost predicate SlotAt(t: Table, i: nat) {
    && FamilyAt(t.ps, t.init, i) && EmbryoAt(t.ps, t.maker, i) && RunsAt(t.ps, t.cpus, t.on, i)
    && PidAt(t.ps, t.nextpid, t.slotOf, t.exited, t.reaped, i)
  }

  lemma SlotOk(t: Table, i: nat)
    requires TableOk(t) && i < |t.ps|
    ensures SlotAt(t, i)
  {
    assert FamilyAt(t.ps, t.init, i) && EmbryoAt(t.ps, t.maker, i) && RunsAt(t.ps, t.cpus, t.on, i);
    assert PidAt(t.ps, t.nextpid, t.slotOf, t.exited, t.reaped, i);
  }

  /*** Changes that keep it ***/

  // Nothing but waking up, being killed and tidying up.
  predicate Soft(a: Proc, b: Proc) {
    && b.pid == a.pid && b.parent == a.parent
    && (b.state == a.state || (a.state.SLEEPING? && b.state.RUNNABLE?))
    && (b.state.SLEEPING? ==> b.chan == a.chan)
  }

  ghost predicate AllSoft(ps: seq<Proc>, ps1: seq<Proc>) {
    |ps1| == |ps| && forall i | 0 <= i < |ps| :: Soft(ps[i], ps1[i])
  }

  lemma Collect(t: Table)
    requires t.init < |t.ps| && Alive(t.ps[t.init]) && |t.maker| == |t.ps| == |t.on|
    requires t.nextpid > 0 && t.reaped <= t.exited && 0 !in t.exited
    requires (forall x | x in t.slotOf :: x < t.nextpid) && (forall x | x in t.exited :: x < t.nextpid)
    requires forall i: nat {:trigger SlotAt(t, i)} | i < |t.ps| :: SlotAt(t, i)
    requires forall c: nat {:trigger CpuAt(t.ps, t.cpus, t.on, c)} | c < |t.cpus| :: CpuAt(t.ps, t.cpus, t.on, c)
    requires forall pid {:trigger ExitAt(t.ps, t.slotOf, t.reaped, pid)} | pid in t.exited ::
               ExitAt(t.ps, t.slotOf, t.reaped, pid)
    ensures TableOk(t)
  {
    forall i: nat | i < |t.ps|
      ensures FamilyAt(t.ps, t.init, i) && EmbryoAt(t.ps, t.maker, i) && RunsAt(t.ps, t.cpus, t.on, i)
      ensures PidAt(t.ps, t.nextpid, t.slotOf, t.exited, t.reaped, i)
    {
      assert SlotAt(t, i);
    }
  }

  // A change that stops no running process.
  lemma CpusKept(t: Table, t1: Table)
    requires TableOk(t) && t1.cpus == t.cpus && t1.on == t.on && |t1.ps| == |t.ps|
    requires forall i | 0 <= i < |t.ps| && t.ps[i].state.RUNNING? :: t1.ps[i].state.RUNNING?
    ensures forall c: nat {:trigger CpuAt(t1.ps, t1.cpus, t1.on, c)} | c < |t1.cpus| :: CpuAt(t1.ps, t1.cpus, t1.on, c)
  {
    forall c: nat | c < |t1.cpus|
      ensures CpuAt(t1.ps, t1.cpus, t1.on, c)
    {
      assert CpuAt(t.ps, t.cpus, t.on, c);
    }
  }

  // A change that keeps every zombie it does not reap.
  lemma ExitsKept(t: Table, t1: Table)
    requires TableOk(t) && t1.exited == t.exited && t.reaped <= t1.reaped && |t1.ps| == |t.ps|
    requires forall x | x in t.slotOf :: x in t1.slotOf && t1.slotOf[x] == t.slotOf[x]
    requires forall i | 0 <= i < |t.ps| && t.ps[i].state.ZOMBIE? && t.ps[i].pid !in t1.reaped ::
               t1.ps[i].state.ZOMBIE? && t1.ps[i].pid == t.ps[i].pid
    ensures forall pid {:trigger ExitAt(t1.ps, t1.slotOf, t1.reaped, pid)} | pid in t1.exited ::
              ExitAt(t1.ps, t1.slotOf, t1.reaped, pid)
  {
    forall pid | pid in t1.exited
      ensures ExitAt(t1.ps, t1.slotOf, t1.reaped, pid)
    {
      assert ExitAt(t.ps, t.slotOf, t.reaped, pid);
    }
  }

  // Waking up, being killed and tidying up.
  lemma SoftKeeps(t: Table, ps1: seq<Proc>)
    requires TableOk(t)
    requires AllSoft(t.ps, ps1)
    ensures TableOk(t.(ps := ps1))
  {
    var t1 := t.(ps := ps1);
    forall i: nat | i < |t.ps|
      ensures SlotAt(t1, i)
    {
      SlotOk(t, i);
    }
    CpusKept(t, t1);
    ExitsKept(t, t1);
    Collect(t1);
  }

  // A process leaves its CPU: it yields, or it sleeps on ch, which in wait is allowed only without a zombie child.
  lemma LeaveKeeps(t: Table, c: nat, p: nat, ch: Chan, st: ProcState)
    requires TableOk(t)
    requires c < |t.cpus| && t.cpus[c] == Some(p) && p < |t.ps| && (st.RUNNABLE? || st.SLEEPING?)
    requires st.SLEEPING? && ch == Slot(p) ==>
               forall i | 0 <= i < |t.ps| && t.ps[i].parent == Some(p) :: !t.ps[i].state.ZOMBIE?
    ensures TableOk(t.(ps := t.ps[p := t.ps[p].(state := st, chan := ch)], cpus := t.cpus[c := None]))
  {
    var t1 := t.(ps := t.ps[p := t.ps[p].(state := st, chan := ch)], cpus := t.cpus[c := None]);
    assert CpuAt(t.ps, t.cpus, t.on, c);
    forall i: nat | i < |t.ps|
      ensures SlotAt(t1, i)
    {
      SlotOk(t, i);
    }
    forall c: nat | c < |t1.cpus|
      ensures CpuAt(t1.ps, t1.cpus, t1.on, c)
    {
      assert CpuAt(t.ps, t.cpus, t.on, c);
    }
    ExitsKept(t, t1);
    Collect(t1);
  }

  // An idle CPU takes a runnable process.
  lemma RunKeeps(t: Table, c: nat, p: nat)
    requires TableOk(t)
    requires c < |t.cpus| && t.cpus[c].None? && p < |t.ps| && t.ps[p].state.RUNNABLE?
    ensures TableOk(t.(ps := t.ps[p := t.ps[p].(state := RUNNING)], cpus := t.cpus[c := Some(p)], on := t.on[p := c]))
  {
    var t1 := t.(ps := t.ps[p := t.ps[p].(state := RUNNING)], cpus := t.cpus[c := Some(p)], on := t.on[p := c]);
    forall i: nat | i < |t.ps|
      ensures SlotAt(t1, i)
    {
      SlotOk(t, i);
    }
    forall c: nat | c < |t1.cpus|
      ensures CpuAt(t1.ps, t1.cpus, t1.on, c)
    {
      assert CpuAt(t.ps, t.cpus, t.on, c);
    }
    ExitsKept(t, t1);
    Collect(t1);
  }

  // allocproc takes an unused slot for process p.
  lemma AllocKeeps(t: Table, p: nat, np: nat)
    requires TableOk(t)
    requires p < |t.ps| && np < |t.ps| && Alive(t.ps[p]) && t.ps[np].state.UNUSED?
    ensures TableOk(t.(ps := t.ps[np := t.ps[np].(state := EMBRYO, pid := t.nextpid)], nextpid := t.nextpid + 1,
                       maker := t.maker[np := p], slotOf := t.slotOf[t.nextpid := np]))
  {
    var t1 := t.(ps := t.ps[np := t.ps[np].(state := EMBRYO, pid := t.nextpid)], nextpid := t.nextpid + 1,
                 maker := t.maker[np := p], slotOf := t.slotOf[t.nextpid := np]);
    SlotOk(t, np);
    forall i: nat | i < |t.ps|
      ensures SlotAt(t1, i)
    {
      SlotOk(t, i);
    }
    CpusKept(t, t1);
    ExitsKept(t, t1);
    Collect(t1);
  }

  // What fork does with its embryo: give it up, give it a parent, let it run.
  predicate EmbryoStep(a: Proc, b: Proc, p: nat) {
    && a.state.EMBRYO?
    && (|| (a.parent.None? && b == a.(state := UNUSED))
        || b == a.(parent := Some(p))
        || (a.parent.Some? && b == a.(state := RUNNABLE)))
  }

  // Process p is in fork with embryo np.
  lemma EmbryoKeeps(t: Table, p: nat, np: nat, b: Proc)
    requires TableOk(t)
    requires p < |t.ps| && np < |t.ps| && t.ps[np].state.EMBRYO? && t.maker[np] == p && EmbryoStep(t.ps[np], b, p)
    ensures TableOk(t.(ps := t.ps[np := b]))
  {
    var t1 := t.(ps := t.ps[np := b]);
    SlotOk(t, np);
    forall i: nat | i < |t.ps|
      ensures SlotAt(t1, i)
    {
      SlotOk(t, i);
    }
    CpusKept(t, t1);
    ExitsKept(t, t1);
    Collect(t1);
  }

  // A zombie is reaped.
  lemma ReapKeeps(t: Table, z: nat)
    requires TableOk(t)
    requires z < |t.ps| && t.ps[z].state.ZOMBIE?
    ensures t.ps[z].pid in t.exited && t.ps[z].pid !in t.reaped
    ensures TableOk(t.(ps := t.ps[z := Vacated(t.ps[z])], reaped := t.reaped + {t.ps[z].pid}))
  {
    var t1 := t.(ps := t.ps[z := Vacated(t.ps[z])], reaped := t.reaped + {t.ps[z].pid});
    SlotOk(t, z);
    forall i: nat | i < |t.ps|
      ensures SlotAt(t1, i)
    {
      SlotOk(t, i);
    }
    CpusKept(t, t1);
    ExitsKept(t, t1);
    Collect(t1);
  }

  // A slot while process p, whose parent is par, exits: a child of p goes to init if the scan has passed it; only
  // par and init may be woken, and only from wait.
  predicate AdoptedAt(a: Proc, b: Proc, p: nat, par: nat, init: nat, passed: bool) {
    && b.pid == a.pid && b.parent == (if passed && a.parent == Some(p) then Some(init) else a.parent)
    && (b.state == a.state || (b.state.RUNNABLE? && (SleepsOn(a, Slot(par)) || SleepsOn(a, Slot(init)))))
    && b.chan == a.chan && b.killed == a.killed
  }

  ghost predicate Adopted(ps: seq<Proc>, ps1: seq<Proc>, p: nat, par: nat, init: nat, k: int) {
    |ps1| == |ps| && forall j | 0 <= j < |ps| :: AdoptedAt(ps[j], ps1[j], p, par, init, j < k)
  }

  // Process p is running on CPU c and may exit: its children are init's in ps1, and neither its parent nor, with a
  // zombie among them, init sleeps in wait.
  ghost predicate MayExit(t: Table, ps1: seq<Proc>, c: nat, p: nat) {
    && c < |t.cpus| && t.cpus[c] == Some(p) && p < |t.ps| && p != t.init && |t.maker| == |t.ps|
    && (forall i | 0 <= i < |t.ps| && t.ps[i].state.EMBRYO? :: t.maker[i] != p)
    && (t.ps[p].parent.Some? ==>
          Adopted(t.ps, ps1, p, t.ps[p].parent.value, t.init, |t.ps|) && !Waits(ps1, t.ps[p].parent.value))
    && (forall i | 0 <= i < |t.ps| && t.ps[i].parent == Some(p) && t.ps[i].state.ZOMBIE? :: !Waits(ps1, t.init))
  }

  ghost function Exited(t: Table, ps1: seq<Proc>, c: nat, p: nat): Table
    requires c < |t.cpus| && p < |t.ps| && p < |ps1|
  {
    t.(ps := ps1[p := ps1[p].(state := ZOMBIE)], cpus := t.cpus[c := None], exited := t.exited + {t.ps[p].pid})
  }

  lemma ExitSlot(t: Table, ps1: seq<Proc>, c: nat, p: nat, i: nat)
    requires TableOk(t) && MayExit(t, ps1, c, p) && |ps1| == |t.ps|
    requires i < |t.ps| && t.ps[p].parent.Some? && t.ps[p].state.RUNNING?
    ensures SlotAt(Exited(t, ps1, c, p), i)
  {
    SlotOk(t, p);
    SlotOk(t, i);
    assert AdoptedAt(t.ps[i], ps1[i], p, t.ps[p].parent.value, t.init, i < |t.ps|);
  }

  // A process exits.
  lemma ExitKeeps(t: Table, ps1: seq<Proc>, c: nat, p: nat)
    requires TableOk(t) && MayExit(t, ps1, c, p)
    ensures |ps1| == |t.ps| && TableOk(Exited(t, ps1, c, p))
    ensures t.ps[p].pid !in t.exited
  {
    assert CpuAt(t.ps, t.cpus, t.on, c);
    SlotOk(t, p);
    var t1 := Exited(t, ps1, c, p);
    forall i: nat | i < |t.ps|
      ensures SlotAt(t1, i)
    {
      ExitSlot(t, ps1, c, p, i);
    }
    forall b: nat | b < |t1.cpus|
      ensures CpuAt(t1.ps, t1.cpus, t1.on, b)
    {
      assert CpuAt(t.ps, t.cpus, t.on, b);
    }
    forall pid | pid in t1.exited
      ensures ExitAt(t1.ps, t1.slotOf, t1.reaped, pid)
    {
      assert pid in t.exited ==> ExitAt(t.ps, t.slotOf, t.reaped, pid);
    }
    Collect(t1);
  }

  /*** Children ***/

  ghost predicate Child(ps: seq<Proc>, p: nat) {
    exists i | 0 <= i < |ps| :: ps[i].parent == Some(p)
  }

  ghost predicate ZombieChild(ps: seq<Proc>, p: nat) {
    exists i | 0 <= i < |ps| :: ps[i].parent == Some(p) && ps[i].state.ZOMBIE?
  }

  // Slot z holds the first child of p that is a zombie.
  ghost predicate FirstZombie(ps: seq<Proc>, p: nat, z: int) {
    && 0 <= z < |ps| && ps[z].parent == Some(p) && ps[z].state.ZOMBIE?
    && forall i | 0 <= i < z && ps[i].parent == Some(p) :: !ps[i].state.ZOMBIE?
  }

  /*** The process table ***/

  class ProcTable {
    var procs: seq<Proc>
    var cpus: seq<Option<nat>>
    var nextpid: nat
    const initproc: nat
    ghost var maker: seq<nat>
    ghost var on: seq<nat>
    ghost var slotOf: map<nat, nat>
    ghost var exited: set<nat>
    ghost var reaped: set<nat>

    ghost function View(): Table
      reads this
    {
      Table(procs, initproc, cpus, nextpid, maker, on, slotOf, exited, reaped)
    }

    ghost predicate Valid()
      reads this
    {
      TableOk(View())
    }

    // pinit and userinit: init is runnable in the first slot, the CPUs are idle.
    constructor (nproc: nat, ncpu: nat)
      requires nproc > 0
      ensures Valid() && |procs| == nproc && |cpus| == ncpu && initproc == 0 && procs[0].state == RUNNABLE
      ensures exited == reaped == {} && forall i | 0 < i < nproc :: procs[i].state == UNUSED
      ensures forall c | 0 <= c < ncpu :: cpus[c].None?
    {
      procs := [Proc(RUNNABLE, 1, None, NoChan, false)] + seq(nproc - 1, _ => Proc(UNUSED, 0, None, NoChan, false));
      cpus := seq(ncpu, _ => None);
      nextpid, initproc := 2, 0;
      maker, on := seq(nproc, _ => 0), seq(nproc, _ => 0);
      slotOf, exited, reaped := map[1 := 0], {}, {};
      new;
      forall i: nat | i < nproc
        ensures SlotAt(View(), i)
      {
      }
      forall c: nat | c < ncpu
        ensures CpuAt(procs, cpus, on, c)
      {
      }
      Collect(View());
    }

    /** wakeup1: exactly the processes that sleep on ch become runnable. */
    method Wakeup1(ch: Chan)
      modifies this`procs
      ensures |procs| == |old(procs)|
      ensures forall i | 0 <= i < |procs| :: procs[i] == Woken(old(procs)[i], ch)
    {
      var i := 0;
      while i < |procs|
        invariant i <= |procs| == |old(procs)|
        invariant forall j | 0 <= j < i :: procs[j] == Woken(old(procs)[j], ch)
        invariant forall j | i <= j < |procs| :: procs[j] == old(procs)[j]
      {
        if procs[i].state.SLEEPING? && procs[i].chan == ch {
          procs := procs[i := procs[i].(state := RUNNABLE)];
        }
        i := i + 1;
      }
    }

    // wakeup.
    method Wakeup(ch: Chan)
      requires Valid()
      modifies this`procs
      ensures Valid() && |procs| == |old(procs)|
      ensures forall i | 0 <= i < |procs| :: procs[i] == Woken(old(procs)[i], ch)
    {
      ghost var t := View();
      Wakeup1(ch);
      SoftKeeps(t, procs);
    }

    /** kill: the process with the pid is marked, and woken if it sleeps; -1 when there is none. */
    method Kill(pid: nat) returns (r: int)
      requires Valid()
      modifies this`procs
      ensures Valid() && |procs| == |old(procs)|
      ensures r == -1 ==> procs == old(procs) && forall i | 0 <= i < |procs| :: procs[i].pid != pid
      ensures r != -1 ==> r == 0
      ensures r == 0 ==>
                exists k | 0 <= k < |procs| ::
                  && old(procs)[k].pid == pid && procs == old(procs)[k := Killed(old(procs)[k])]
                  && forall i | 0 <= i < k :: old(procs)[i].pid != pid
    {
      var i := 0;
      while i < |procs|
        invariant i <= |procs| && procs == old(procs)
        invariant forall j | 0 <= j < i :: procs[j].pid != pid
      {
        if procs[i].pid == pid {
          ghost var t := View();
          procs := procs[i := procs[i].(killed := true)];
          if procs[i].state.SLEEPING? {
            procs := procs[i := procs[i].(state := RUNNABLE)];
          }
          assert procs == t.ps[i := Killed(t.ps[i])];
          SoftKeeps(t, procs);
          return 0;
        }
        i := i + 1;
      }
      return -1;
    }

    /** The table part of allocproc, for process p in fork: the first unused slot, |procs| for none. */
    method Allocproc(p: nat) returns (np: nat)
      requires Valid() && p < |procs| && Alive(procs[p])
      modifies this
      ensures Valid() && np <= |procs| == |old(procs)| && cpus == old(cpus)
      ensures exited == old(exited) && reaped == old(reaped)
      ensures np == |procs| ==> procs == old(procs) && nextpid == old(nextpid)
      ensures np < |procs| ==>
                old(procs)[np].state.UNUSED? && nextpid == old(nextpid) + 1 && maker == old(maker)[np := p]
      ensures forall i | 0 <= i < np :: !old(procs)[i].state.UNUSED?
      ensures np < |procs| ==> procs == old(procs)[np := old(procs)[np].(state := EMBRYO, pid := old(nextpid))]
      ensures np < |procs| ==> forall i | 0 <= i < |procs| && i != np :: procs[i].pid != procs[np].pid
    {
      np := 0;
      while np < |procs| && !procs[np].state.UNUSED?
        invariant np <= |procs|
        invariant forall i | 0 <= i < np :: !procs[i].state.UNUSED?
      {
        np := np + 1;
      }
      if np < |procs| {
        AllocKeeps(View(), p, np);
        forall i: nat | i < |procs|
          ensures procs[i].pid < nextpid || procs[i].pid == 0
        {
          SlotOk(View(), i);
        }
        procs := procs[np := procs[np].(state := EMBRYO, pid := nextpid)];
        maker, slotOf := maker[np := p], slotOf[nextpid := np];
        nextpid := nextpid + 1;
      }
    }

    // No kernel stack, or no memory for the copy: the slot is given up.
    method Abandon(p: nat, np: nat)
      requires Valid() && p < |procs| && np < |procs| && procs[np].state.EMBRYO?
      requires maker[np] == p && procs[np].parent.None?
      modifies this`procs
      ensures Valid() && procs == old(procs)[np := old(procs)[np].(state := UNUSED)]
    {
      var b := procs[np].(state := UNUSED);
      EmbryoKeeps(View(), p, np, b);
      procs := procs[np := b];
    }

    method SetParent(p: nat, np: nat)
      requires Valid() && p < |procs| && np < |procs| && procs[np].state.EMBRYO? && maker[np] == p
      modifies this`procs
      ensures Valid() && procs == old(procs)[np := old(procs)[np].(parent := Some(p))]
    {
      var b := procs[np].(parent := Some(p));
      EmbryoKeeps(View(), p, np, b);
      procs := procs[np := b];
    }

    // The end of fork.
    method StartChild(p: nat, np: nat)
      requires Valid() && p < |procs| && np < |procs| && procs[np].state.EMBRYO?
      requires maker[np] == p && procs[np].parent.Some?
      modifies this`procs
      ensures Valid() && procs == old(procs)[np := old(procs)[np].(state := RUNNABLE)]
    {
      var b := procs[np].(state := RUNNABLE);
      EmbryoKeeps(View(), p, np, b);
      procs := procs[np := b];
    }

    // One slot of exit's scan for children.
    method AdoptOne(p: nat, j: nat, ghost par: nat, ghost ps: seq<Proc>)
      requires j < |procs| && p < |procs| && initproc < |procs| && Adopted(ps, procs, p, par, initproc, j)
      requires forall i | 0 <= i < j && ps[i].parent == Some(p) && ps[i].state.ZOMBIE? :: !Waits(procs, initproc)
      modifies this`procs
      ensures Adopted(ps, procs, p, par, initproc, j + 1)
      ensures forall i | 0 <= i < j + 1 && ps[i].parent == Some(p) && ps[i].state.ZOMBIE? :: !Waits(procs, initproc)
      ensures forall q | 0 <= q < |procs| && Waits(procs, q) :: Waits(old(procs), q)
    {
      assert AdoptedAt(ps[j], procs[j], p, par, initproc, false);
      if procs[j].parent == Some(p) {
        procs := procs[j := procs[j].(parent := Some(initproc))];
        if procs[j].state.ZOMBIE? {
          Wakeup1(Slot(initproc));
        }
      }
    }

    /**
      The table part of exit, with the switch back to the scheduler: from here
      on init is the parent of the children.
     */
    method Exit(c: nat, p: nat)
      requires Valid() && c < |cpus| && cpus[c] == Some(p) && p < |procs| && p != initproc
      requires forall i | 0 <= i < |procs| && procs[i].state.EMBRYO? :: maker[i] != p
      modifies this`procs, this`cpus, this`exited
      ensures Valid() && |procs| == |old(procs)| && cpus == old(cpus)[c := None]
      ensures exited == old(exited) + {procs[p].pid}
      ensures procs[p].pid == old(procs)[p].pid && procs[p].pid !in old(exited)
      ensures procs[p].state.ZOMBIE? && procs[p].parent == old(procs)[p].parent && procs[p].parent.Some?
      ensures forall i | 0 <= i < |procs| && i != p ::
                AdoptedAt(old(procs)[i], procs[i], p, procs[p].parent.value, initproc, true)
    {
      ghost var t := View();
      SlotOk(t, p);
      assert CpuAt(procs, cpus, on, c);
      ghost var ps, par := t.ps, t.ps[p].parent.value;
      Wakeup1(Slot(procs[p].parent.value));
      assert Adopted(ps, procs, p, par, initproc, 0);
      var j := 0;
      while j < |procs|
        invariant j <= |procs| && Adopted(ps, procs, p, par, initproc, j) && cpus == t.cpus && exited == t.exited
        invariant !Waits(procs, par)
        invariant forall i | 0 <= i < j && ps[i].parent == Some(p) && ps[i].state.ZOMBIE? :: !Waits(procs, initproc)
      {
        AdoptOne(p, j, par, ps);
        j := j + 1;
      }
      ExitKeeps(t, procs, c, p);
      assert forall i | 0 <= i < |ps| :: AdoptedAt(ps[i], procs[i], p, par, initproc, i < |ps|);
      procs := procs[p := procs[p].(state := ZOMBIE)];
      cpus := cpus[c := None];
      exited := exited + {procs[p].pid};
    }

    // wait's scan: a zombie child, |procs| for none.
    method FindZombie(p: nat) returns (z: nat, havekids: bool)
      requires p < |procs|
      ensures z <= |procs|
      ensures if z < |procs| then FirstZombie(procs, p, z) else !ZombieChild(procs, p)
      ensures z == |procs| ==> (havekids <==> Child(procs, p))
    {
      havekids := false;
      z := 0;
      while z < |procs|
        invariant z <= |procs|
        invariant forall i | 0 <= i < z && procs[i].parent == Some(p) :: !procs[i].state.ZOMBIE?
        invariant havekids <==> exists i | 0 <= i < z :: procs[i].parent == Some(p)
      {
        if procs[z].parent == Some(p) {
          havekids := true;
          if procs[z].state.ZOMBIE? {
            return;
          }
        }
        z := z + 1;
      }
    }

    /**
      One round of wait by the process p of CPU c: it reaps the first zombie
      child; without one it fails exactly when it is killed or has no child,
      and sleeps otherwise.
     */
    method Wait(c: nat, p: nat) returns (r: Option<int>)
      requires Valid() && c < |cpus| && cpus[c] == Some(p) && p < |procs|
      modifies this`procs, this`cpus, this`reaped
      ensures Valid() && |procs| == |old(procs)|
      // Reaped: this zombie for the first and last time.
      ensures r.Some? && r.value != -1 ==>
                && cpus == old(cpus) && r.value > 0 && r.value in exited && r.value !in old(reaped)
                && reaped == old(reaped) + {r.value as nat}
                && exists z | 0 <= z < |procs| ::
                     && FirstZombie(old(procs), p, z) && old(procs)[z].pid == r.value
                     && procs == old(procs)[z := Vacated(old(procs)[z])]
      ensures !(r.Some? && r.value != -1) ==> reaped == old(reaped)
      ensures r == Some(-1) <==> !ZombieChild(old(procs), p) && (old(procs)[p].killed || !Child(old(procs), p))
      ensures r.None? <==> !ZombieChild(old(procs), p) && !old(procs)[p].killed && Child(old(procs), p)
      ensures r == Some(-1) ==> procs == old(procs) && cpus == old(cpus)
      ensures r.None? ==> cpus == old(cpus)[c := None]
      ensures r.None? ==> procs == old(procs)[p := old(procs)[p].(state := SLEEPING, chan := Slot(p))]
    {
      var z, havekids := FindZombie(p);
      if z < |procs| {
        ReapKeeps(View(), z);
        SlotOk(View(), z);
        var pid := procs[z].pid;
        procs := procs[z := Vacated(procs[z])];
        reaped := reaped + {pid};
        return Some(pid);
      }
      if !havekids || procs[p].killed {
        return Some(-1);
      }
      Sleep(c, p, Slot(p));
      return None;
    }

    /** sleep until sched returns; in wait it is called with no zombie child. */
    method Sleep(c: nat, p: nat, ch: Chan)
      requires Valid() && c < |cpus| && cpus[c] == Some(p) && p < |procs|
      requires ch == Slot(p) ==> forall i | 0 <= i < |procs| && procs[i].parent == Some(p) :: !procs[i].state.ZOMBIE?
      modifies this`procs, this`cpus
      ensures Valid() && cpus == old(cpus)[c := None]
      ensures procs == old(procs)[p := old(procs)[p].(state := SLEEPING, chan := ch)]
    {
      ghost var ps := procs;
      LeaveKeeps(View(), c, p, ch, SLEEPING);
      procs := procs[p := procs[p].(chan := ch)];
      procs := procs[p := procs[p].(state := SLEEPING)];
      assert procs == ps[p := ps[p].(state := SLEEPING, chan := ch)];
      cpus := cpus[c := None];
    }

    // sleep after sched has returned.
    method Tidy(c: nat, p: nat)
      requires Valid() && c < |cpus| && cpus[c] == Some(p) && p < |procs|
      modifies this`procs
      ensures Valid() && procs == old(procs)[p := old(procs)[p].(chan := NoChan)]
    {
      assert CpuAt(procs, cpus, on, c);
      SoftKeeps(View(), procs[p := procs[p].(chan := NoChan)]);
      procs := procs[p := procs[p].(chan := NoChan)];
    }

    method Yield(c: nat, p: nat)
      requires Valid() && c < |cpus| && cpus[c] == Some(p) && p < |procs|
      modifies this`procs, this`cpus
      ensures Valid() && cpus == old(cpus)[c := None] && procs == old(procs)[p := old(procs)[p].(state := RUNNABLE)]
    {
      LeaveKeeps(View(), c, p, procs[p].chan, RUNNABLE);
      procs := procs[p := procs[p].(state := RUNNABLE)];
      cpus := cpus[c := None];
    }

    /** The scheduler's scan from slot k on: the next runnable process runs on CPU c; |procs| when there is none. */
    method Schedule(c: nat, k: nat) returns (p: nat)
      requires Valid() && c < |cpus| && cpus[c].None? && k <= |procs|
      modifies this`procs, this`cpus, this`on
      ensures Valid() && k <= p <= |procs| == |old(procs)| && forall i | k <= i < p :: !old(procs)[i].state.RUNNABLE?
      ensures p == |procs| ==> procs == old(procs) && cpus == old(cpus)
      ensures p < |procs| ==> old(procs)[p].state.RUNNABLE? && cpus == old(cpus)[c := Some(p)]
      ensures p < |procs| ==> procs == old(procs)[p := old(procs)[p].(state := RUNNING)]
    {
      p := k;
      while p < |procs| && !procs[p].state.RUNNABLE?
        invariant k <= p <= |procs|
        invariant forall i | k <= i < p :: !procs[i].state.RUNNABLE?
      {
        p := p + 1;
      }
      if p < |procs| {
        RunKeeps(View(), c, p);
        cpus, on := cpus[c := Some(p)], on[p := c];
        procs := procs[p := procs[p].(state := RUNNING)];
      }
    }
  }

  /*** What the invariant says ***/

  /** No lost exit: nobody sleeps in wait with a zombie child. */
  lemma NoMissedExit(t: Table, z: nat)
    requires TableOk(t) && z < |t.ps| && t.ps[z].state.ZOMBIE?
    ensures t.ps[z].parent.Some? && t.ps[z].parent.value < |t.ps| && Alive(t.ps[t.ps[z].parent.value])
    ensures !SleepsOn(t.ps[t.ps[z].parent.value], Slot(t.ps[z].parent.value))
  {
    SlotOk(t, z);
  }

  /** Every live process but init has a live parent, and init is alive. */
  lemma ParentsInUse(t: Table, i: nat)
    requires TableOk(t) && i < |t.ps| && i != t.init && (Alive(t.ps[i]) || t.ps[i].state.ZOMBIE?)
    ensures t.ps[i].parent.Some? && t.ps[i].parent.value < |t.ps|
    ensures t.ps[i].parent.value != i && Alive(t.ps[t.ps[i].parent.value])
    ensures t.init < |t.ps| && Alive(t.ps[t.init])
  {
    SlotOk(t, i);
  }

  /** A process is RUNNING exactly when it is the current process of a CPU, and then of one CPU only. */
  lemma RunningIffCurrent(t: Table, i: nat)
    requires TableOk(t) && i < |t.ps|
    ensures t.ps[i].state.RUNNING? <==> exists c | 0 <= c < |t.cpus| :: t.cpus[c] == Some(i)
    ensures forall b, c | 0 <= b < |t.cpus| && 0 <= c < |t.cpus| && t.cpus[b] == Some(i) && t.cpus[c] == Some(i) ::
              b == c
  {
    SlotOk(t, i);
    forall c: nat | c < |t.cpus| && t.cpus[c] == Some(i)
      ensures t.ps[i].state.RUNNING? && t.on[i] == c
    {
      assert CpuAt(t.ps, t.cpus, t.on, c);
    }
  }

  /** Exited processes are the reaped ones and the zombies, and no pid is both or in two slots. */
  lemma ExitedOnce(t: Table, pid: nat)
    requires TableOk(t)
    ensures pid in t.exited <==>
              pid in t.reaped || exists z | 0 <= z < |t.ps| :: t.ps[z].state.ZOMBIE? && t.ps[z].pid == pid
    ensures pid in t.reaped ==> forall i | 0 <= i < |t.ps| :: t.ps[i].pid != pid
    ensures pid != 0 ==>
              forall i, j | 0 <= i < |t.ps| && 0 <= j < |t.ps| && t.ps[i].pid == pid && t.ps[j].pid == pid :: i == j
  {
    if pid in t.exited {
      assert ExitAt(t.ps, t.slotOf, t.reaped, pid);
    }
    forall i: nat | i < |t.ps| && t.ps[i].pid == pid
      ensures pid !in t.reaped && (t.ps[i].state.ZOMBIE? ==> pid in t.exited)
      ensures pid != 0 ==> pid in t.slotOf && t.slotOf[pid] == i
    {
      assert PidAt(t.ps, t.nextpid, t.slotOf, t.exited, t.reaped, i);
    }
  }
}
