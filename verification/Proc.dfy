/**
  The process table of kernel/proc.c as a machine of small steps: allocproc, fork, exit, wait,
  sleep, wakeup1, kill and the scheduler.  What the code does without ptable.lock (the end of
  fork) is interleaved with everything, and so are the single passes of the table scans of exit
  and wait, which hold the lock.
*/
module Processes {

  datatype ProcState = UNUSED | EMBRYO | SLEEPING | RUNNABLE | RUNNING | ZOMBIE

  /** What a process is doing in the kernel. */
  datatype Pc =
    | User
    /** fork has got the slot np from allocproc; it has also set its parent. */
    | Forking(np: nat) | ForkReady(np: nat)
    /** exit and wait at slot j of their scan; wait has seen a child if kids. */
    | Exiting(j: nat) | Waiting(j: nat, kids: bool)
    /** In sleep, called by wait or from elsewhere. */
    | WaitSleep | OtherSleep

  datatype Slot = Slot(state: ProcState, pid: nat, parent: int, killed: bool, pc: Pc)

  /**
    lock is the holder of ptable.lock, -1 if it is free; exited and reaped are the pids that exited and that wait
    returned.
  */
  datatype Table = Table(lock: int, slots: seq<Slot>, init: nat, nextpid: nat, exited: set<nat>, reaped: seq<nat>)

  datatype Step =
    | AllocProc(k: nat, np: nat) | ForkFail(k: nat) | ForkParent(k: nat) | ForkRun(k: nat)
    | Exit(k: nat) | ExitPass(k: nat) | Wait(k: nat) | WaitPass(k: nat)
    | Schedule(k: nat) | Yield(k: nat) | Sleep(k: nat) | Wakeup(k: nat) | Kill(k: nat)

  function At(s: Table, k: nat, slot: Slot): Table
    requires k < |s.slots|
  {
    s.(slots := s.slots[k := slot])
  }

  function Go(s: Table, k: nat, pc: Pc): Table
    requires k < |s.slots|
  {
    At(s, k, s.slots[k].(pc := pc))
  }

  /** wakeup1(chan) where chan is a process: who sleeps on it is that process, in wait. */
  function Wake1(s: Table, chan: int): Table {
    if 0 <= chan < |s.slots| && s.slots[chan].state == SLEEPING && s.slots[chan].pc == WaitSleep
    then At(s, chan, s.slots[chan].(state := RUNNABLE)) else s
  }

  predicate Enabled(s: Table, step: Step) {
    step.k < |s.slots| &&
    var p := s.slots[step.k];
    match step
    case AllocProc(_, np) => p.state == RUNNING && p.pc == User && s.lock == -1 && np < |s.slots| &&
      s.slots[np].state == UNUSED
    case ForkFail(_) => p.state == RUNNING && p.pc.Forking? && p.pc.np < |s.slots|
    case ForkParent(_) => p.state == RUNNING && p.pc.Forking? && p.pc.np < |s.slots|
    case ForkRun(_) => p.state == RUNNING && p.pc.ForkReady? && p.pc.np < |s.slots|
    case Exit(k) => p.state == RUNNING && p.pc == User && s.lock == -1 && k != s.init
    case ExitPass(_) => p.state == RUNNING && p.pc.Exiting?
    case Wait(_) => p.state == RUNNING && p.pc == User && s.lock == -1
    case WaitPass(_) => p.state == RUNNING && p.pc.Waiting?
    case Schedule(_) => p.state == RUNNABLE && s.lock == -1
    case Yield(_) => p.state == RUNNING && s.lock == -1
    case Sleep(_) => p.state == RUNNING && p.pc == User && s.lock == -1
    case Wakeup(_) => p.state == SLEEPING && p.pc == OtherSleep && s.lock == -1
    case Kill(_) => s.lock == -1
  }

  /** One pass of exit's scan, or its end. */
  function ExitStep(s: Table, k: nat): Table
    requires k < |s.slots| && s.slots[k].pc.Exiting?
  {
    var j := s.slots[k].pc.j;
    if j < |s.slots| then
      var s1 := Go(s, k, Exiting(j + 1));
      if s.slots[j].parent == k then
        var s2 := At(s1, j, s1.slots[j].(parent := s.init));
        if s.slots[j].state == ZOMBIE then Wake1(s2, s.init) else s2
      else s1
    else
      At(s, k, s.slots[k].(state := ZOMBIE, pc := User)).(lock := -1, exited := s.exited + {s.slots[k].pid})
  }

  /** One pass of wait's scan, or its end. */
  function WaitStep(s: Table, k: nat): Table
    requires k < |s.slots| && s.slots[k].pc.Waiting?
  {
    var p := s.slots[k];
    var j := p.pc.j;
    if j < |s.slots| then
      if s.slots[j].parent != k then Go(s, k, Waiting(j + 1, p.pc.kids))
      else if s.slots[j].state == ZOMBIE then
        Go(At(s, j, Slot(UNUSED, 0, -1, false, User)), k, User).(lock := -1, reaped := s.reaped + [s.slots[j].pid])
      else Go(s, k, Waiting(j + 1, true))
    else if !p.pc.kids || p.killed then Go(s, k, User).(lock := -1)
    else At(s, k, p.(state := SLEEPING, pc := WaitSleep)).(lock := -1)
  }

  function Apply(s: Table, step: Step): Table
    requires Enabled(s, step)
  {
    var k := step.k;
    var p := s.slots[k];
    match step
    case AllocProc(_, np) => Go(At(s, np, s.slots[np].(state := EMBRYO, pid := s.nextpid)), k,
      Forking(np)).(nextpid := s.nextpid + 1)
    case ForkFail(_) => Go(At(s, p.pc.np, s.slots[p.pc.np].(state := UNUSED)), k, User)
    case ForkParent(_) => Go(At(s, p.pc.np, s.slots[p.pc.np].(parent := k)), k, ForkReady(p.pc.np))
    case ForkRun(_) => Go(At(s, p.pc.np, s.slots[p.pc.np].(state := RUNNABLE, pc := User)), k, User)
    case Exit(_) => Go(Wake1(s, p.parent), k, Exiting(0)).(lock := k)
    case ExitPass(_) => ExitStep(s, k)
    case Wait(_) => Go(s, k, Waiting(0, false)).(lock := k)
    case WaitPass(_) => WaitStep(s, k)
    case Schedule(_) =>
      if p.pc == WaitSleep then At(s, k, p.(state := RUNNING, pc := Waiting(0, false))).(lock := k)
      else At(s, k, p.(state := RUNNING, pc := if p.pc == OtherSleep then User else p.pc))
    case Yield(_) => At(s, k, p.(state := RUNNABLE))
    case Sleep(_) => At(s, k, p.(state := SLEEPING, pc := OtherSleep))
    case Wakeup(_) => At(s, k, p.(state := RUNNABLE))
    case Kill(_) => At(s, k, p.(killed := true, state := if p.state == SLEEPING then RUNNABLE else p.state))
  }

  /** After userinit: one process, which has no parent. */
  predicate Start(s: Table) {
    && s.lock == -1 && s.init < |s.slots| && s.exited == {} && s.reaped == []
    && forall i :: 0 <= i < |s.slots| ==>
         if i == s.init then s.slots[i] == Slot(RUNNABLE, 1, -1, false, User) && s.nextpid == 2
         else s.slots[i].state == UNUSED && s.slots[i].parent == -1 && s.slots[i].pc == User
  }

  // --- The invariant ---

  predicate Live(p: Slot) { p.state != UNUSED }
  /** Past fork: neither a free slot nor one that is being set up. */
  predicate Grown(p: Slot) { p.state != UNUSED && p.state != EMBRYO }
  predicate Running(p: Slot) { p.state == SLEEPING || p.state == RUNNABLE || p.state == RUNNING }
  predicate AsleepInWait(p: Slot) { p.state == SLEEPING && p.pc == WaitSleep }

  predicate IsParent(s: Table, q: int) { 0 <= q < |s.slots| && Running(s.slots[q]) }

  /** The slot of a fork under way. */
  predicate Makes(pc: Pc, np: int) { (pc.Forking? || pc.ForkReady?) && pc.np == np }

  ghost predicate SlotOk(s: Table, i: int)
    requires 0 <= i < |s.slots|
  {
    var p := s.slots[i];
    && (p.state == UNUSED ==> p.parent == -1)
    && (i == s.init ==> Running(p) && p.parent == -1)
    && (Grown(p) && i != s.init ==> IsParent(s, p.parent))
    && p.parent != i && -1 <= p.parent < |s.slots|
    && (p.pc.Exiting? || p.pc.Waiting? <==> Running(p) && s.lock == i) &&
         (p.pc.Exiting? || p.pc.Waiting? ==> p.state == RUNNING)
    && (p.pc.Exiting? ==> i != s.init && p.pc.j <= |s.slots| && 0 <= p.parent && !AsleepInWait(s.slots[p.parent]))
    && (p.pc.Waiting? ==> p.pc.j <= |s.slots|)
    && (p.pc.Forking? || p.pc.ForkReady? ==> Running(p) && p.state != SLEEPING)
    && (p.pc == WaitSleep || p.pc == OtherSleep ==> p.state == SLEEPING || p.state == RUNNABLE)
    && (p.state == SLEEPING ==> p.pc == WaitSleep || p.pc == OtherSleep)
    && (p.state == UNUSED || p.state == EMBRYO || p.state == ZOMBIE ==> p.pc == User)
  }

  /** Slot j as its relation to the process i demands. */
  ghost predicate PairOk(s: Table, i: int, j: int)
    requires 0 <= i < |s.slots| && 0 <= j < |s.slots|
  {
    var p, q := s.slots[i], s.slots[j];
    && (AsleepInWait(p) && q.parent == i ==> q.state != ZOMBIE)
    && (p.pc.Exiting? && j < p.pc.j ==> q.parent != i)
    && (p.pc.Waiting? && j < p.pc.j && q.parent == i ==> q.state != ZOMBIE && p.pc.kids)
    && (Makes(p.pc, j) ==> q.state == EMBRYO && i != j && q.parent == if p.pc.ForkReady? then i else -1)
    && (q.state == EMBRYO && q.parent == i ==> Makes(p.pc, j))
    && (i != j && (p.pc.Forking? || p.pc.ForkReady?) && (q.pc.Forking? || q.pc.ForkReady?) ==> p.pc.np != q.pc.np)
    && (i != j && Live(p) && Live(q) ==> p.pid != q.pid)
  }

  ghost predicate PidOk(s: Table, i: int)
    requires 0 <= i < |s.slots|
  {
    var p := s.slots[i];
    && (Live(p) ==> p.pid < s.nextpid && p.pid !in s.reaped)
    && (p.state == ZOMBIE <==> Live(p) && p.pid in s.exited)
  }

  ghost predicate HasZombie(s: Table, x: nat) {
    exists i :: 0 <= i < |s.slots| && s.slots[i].state == ZOMBIE && s.slots[i].pid == x
  }

  ghost predicate PidsOk(s: Table) {
    && (forall x :: x in s.reaped ==> x in s.exited)
    && (forall x :: x in s.exited ==> x < s.nextpid && (x in s.reaped || HasZombie(s, x)))
    && (forall i, j :: 0 <= i < j < |s.reaped| ==> s.reaped[i] != s.reaped[j])
  }

  ghost predicate Inv(s: Table) {
    && s.init < |s.slots| && (s.lock == -1 || (0 <= s.lock < |s.slots| && Running(s.slots[s.lock])))
    && (forall i :: 0 <= i < |s.slots| ==> SlotOk(s, i) && PidOk(s, i))
    && (forall i, j :: 0 <= i < |s.slots| && 0 <= j < |s.slots| ==> PairOk(s, i, j))
    && PidsOk(s)
  }

  lemma StartHolds(s: Table)
    requires Start(s)
    ensures Inv(s)
  {
  }

  // --- Every step keeps the invariant ---

  lemma AllocKeeps(s: Table, k: nat, np: nat)
    requires Inv(s) && Enabled(s, AllocProc(k, np))
    ensures Inv(Apply(s, AllocProc(k, np)))
  {
    var t := Apply(s, AllocProc(k, np));
    assert SlotOk(s, np) && SlotOk(s, k) && PidOk(s, np);
    forall i | 0 <= i < |t.slots| ensures SlotOk(t, i) && PidOk(t, i) {
      assert SlotOk(s, i) && PidOk(s, i);
    }
    forall i, j | 0 <= i < |t.slots| && 0 <= j < |t.slots| ensures PairOk(t, i, j) {
      assert PairOk(s, i, j) && PidOk(s, i) && PidOk(s, j) && PairOk(s, j, np) && PairOk(s, i, np);
    }
    ZombiesStay(s, t);
  }

  /** Where no zombie is touched, every exited pid is still accounted for. */
  lemma ZombiesStay(s: Table, t: Table)
    requires PidsOk(s) && |t.slots| == |s.slots| && t.exited == s.exited && t.reaped == s.reaped &&
      s.nextpid <= t.nextpid
    requires forall i :: 0 <= i < |s.slots| && s.slots[i].state == ZOMBIE ==>
      t.slots[i].state == ZOMBIE && t.slots[i].pid == s.slots[i].pid
    ensures PidsOk(t)
  {
    forall x | x in t.exited && x !in t.reaped ensures HasZombie(t, x) {
      assert HasZombie(s, x);
      var i :| 0 <= i < |s.slots| && s.slots[i].state == ZOMBIE && s.slots[i].pid == x;
      assert t.slots[i].state == ZOMBIE && t.slots[i].pid == x;
    }
  }

  lemma ForkFailPair(s: Table, k: nat, i: nat, j: nat)
    requires Inv(s) && Enabled(s, ForkFail(k))
    requires i < |s.slots| && j < |s.slots|
    ensures PairOk(Apply(s, ForkFail(k)), i, j)
  {
    var np := s.slots[k].pc.np;
    assert PairOk(s, k, np) && SlotOk(s, k) && SlotOk(s, np);
    assert PairOk(s, i, j) && PairOk(s, i, k) && PairOk(s, i, np);
  }

  lemma ForkFailKeeps(s: Table, k: nat)
    requires Inv(s) && Enabled(s, ForkFail(k))
    ensures Inv(Apply(s, ForkFail(k)))
  {
    var t, np := Apply(s, ForkFail(k)), s.slots[k].pc.np;
    assert PairOk(s, k, np) && SlotOk(s, k) && SlotOk(s, np);
    forall i | 0 <= i < |t.slots| ensures SlotOk(t, i) && PidOk(t, i) {
      assert SlotOk(s, i) && PidOk(s, i);
    }
    forall i, j | 0 <= i < |t.slots| && 0 <= j < |t.slots| ensures PairOk(t, i, j) {
      ForkFailPair(s, k, i, j);
    }
    ZombiesStay(s, t);
  }

  lemma ForkParentPair(s: Table, k: nat, i: nat, j: nat)
    requires Inv(s) && Enabled(s, ForkParent(k))
    requires i < |s.slots| && j < |s.slots|
    ensures PairOk(Apply(s, ForkParent(k)), i, j)
  {
    var np := s.slots[k].pc.np;
    assert PairOk(s, k, np) && SlotOk(s, k) && SlotOk(s, np);
    assert PairOk(s, i, j) && PairOk(s, i, k) && PairOk(s, i, np);
  }

  lemma ForkParentKeeps(s: Table, k: nat)
    requires Inv(s) && Enabled(s, ForkParent(k))
    ensures Inv(Apply(s, ForkParent(k)))
  {
    var t, np := Apply(s, ForkParent(k)), s.slots[k].pc.np;
    assert PairOk(s, k, np) && SlotOk(s, k) && SlotOk(s, np);
    forall i | 0 <= i < |t.slots| ensures SlotOk(t, i) && PidOk(t, i) {
      assert SlotOk(s, i) && PidOk(s, i);
    }
    forall i, j | 0 <= i < |t.slots| && 0 <= j < |t.slots| ensures PairOk(t, i, j) {
      ForkParentPair(s, k, i, j);
    }
    ZombiesStay(s, t);
  }

  lemma ForkRunPair(s: Table, k: nat, i: nat, j: nat)
    requires Inv(s) && Enabled(s, ForkRun(k))
    requires i < |s.slots| && j < |s.slots|
    ensures PairOk(Apply(s, ForkRun(k)), i, j)
  {
    var np := s.slots[k].pc.np;
    assert PairOk(s, k, np) && SlotOk(s, k) && SlotOk(s, np);
    assert PairOk(s, i, j) && PairOk(s, i, k) && PairOk(s, i, np);
  }

  lemma ForkRunKeeps(s: Table, k: nat)
    requires Inv(s) && Enabled(s, ForkRun(k))
    ensures Inv(Apply(s, ForkRun(k)))
  {
    var t, np := Apply(s, ForkRun(k)), s.slots[k].pc.np;
    assert PairOk(s, k, np) && SlotOk(s, k) && SlotOk(s, np);
    forall i | 0 <= i < |t.slots| ensures SlotOk(t, i) && PidOk(t, i) {
      assert SlotOk(s, i) && PidOk(s, i);
    }
    forall i, j | 0 <= i < |t.slots| && 0 <= j < |t.slots| ensures PairOk(t, i, j) {
      ForkRunPair(s, k, i, j);
    }
    ZombiesStay(s, t);
  }

  lemma ExitKeeps(s: Table, k: nat)
    requires Inv(s) && Enabled(s, Exit(k))
    ensures Inv(Apply(s, Exit(k)))
  {
    var t := Apply(s, Exit(k));
    assert SlotOk(s, k);
    forall i | 0 <= i < |t.slots| ensures SlotOk(t, i) && PidOk(t, i) {
      assert SlotOk(s, i) && PidOk(s, i);
    }
    forall i, j | 0 <= i < |t.slots| && 0 <= j < |t.slots| ensures PairOk(t, i, j) {
      assert PairOk(s, i, j);
    }
    ZombiesStay(s, t);
  }

  lemma ExitSkips(s: Table, k: nat)
    requires Inv(s) && Enabled(s, ExitPass(k)) && s.slots[k].pc.j < |s.slots| && s.slots[s.slots[k].pc.j].parent != k
    ensures Inv(ExitStep(s, k))
  {
    var t := ExitStep(s, k);
    assert SlotOk(s, k);
    forall i | 0 <= i < |t.slots| ensures SlotOk(t, i) && PidOk(t, i) {
      assert SlotOk(s, i) && PidOk(s, i);
    }
    forall i, j | 0 <= i < |t.slots| && 0 <= j < |t.slots| ensures PairOk(t, i, j) {
      assert PairOk(s, i, j);
    }
    ZombiesStay(s, t);
  }

  /** exit passes a child to init, which it wakes if the child is a zombie. */
  lemma ExitPasses(s: Table, k: nat)
    requires Inv(s) && Enabled(s, ExitPass(k)) && s.slots[k].pc.j < |s.slots| && s.slots[s.slots[k].pc.j].parent == k
    ensures Inv(ExitStep(s, k))
  {
    var t := ExitStep(s, k);
    var c := s.slots[k].pc.j;
    assert SlotOk(s, k) && SlotOk(s, c) && SlotOk(s, s.init) && PairOk(s, k, c);
    forall i | 0 <= i < |t.slots| ensures SlotOk(t, i) && PidOk(t, i) {
      PassedSlot(s, k, i);
    }
    forall i, j | 0 <= i < |t.slots| && 0 <= j < |t.slots| ensures PairOk(t, i, j) {
      PassedPair(s, k, i, j);
    }
    ZombiesStay(s, t);
  }

  /** The slots after exit has passed the child in slot c on. */
  lemma PassedSlots(s: Table, k: nat, i: nat)
    requires Inv(s) && Enabled(s, ExitPass(k)) && s.slots[k].pc.j < |s.slots| &&
      s.slots[s.slots[k].pc.j].parent == k && i < |s.slots|
    ensures
      var t, c, p := ExitStep(s, k), s.slots[k].pc.j, s.slots[i];
      && c != k && c != s.init && k != s.init
      && t.slots[i].pid == p.pid && t.slots[i].killed == p.killed
      && t.slots[i].parent == (if i == c then s.init else p.parent)
      && t.slots[i].pc == (if i == k then Exiting(c + 1) else p.pc)
      && t.slots[i].state ==
           (if i == s.init && s.slots[c].state == ZOMBIE && AsleepInWait(p) then RUNNABLE else p.state)
  {
    assert SlotOk(s, k) && SlotOk(s, s.slots[k].pc.j) && SlotOk(s, s.init);
  }

  lemma PassedSlot(s: Table, k: nat, i: nat)
    requires Inv(s) && Enabled(s, ExitPass(k)) && s.slots[k].pc.j < |s.slots| &&
      s.slots[s.slots[k].pc.j].parent == k && i < |s.slots|
    ensures SlotOk(ExitStep(s, k), i) && PidOk(ExitStep(s, k), i)
  {
    assert SlotOk(s, i) && PidOk(s, i) && SlotOk(s, k) && SlotOk(s, s.init);
    PassedSlots(s, k, i);
    if s.slots[i].parent >= 0 {
      PassedSlots(s, k, s.slots[i].parent);
    }
    PassedSlots(s, k, s.init);
  }

  lemma PassedPair(s: Table, k: nat, i: nat, j: nat)
    requires Inv(s) && Enabled(s, ExitPass(k)) && s.slots[k].pc.j < |s.slots| && s.slots[s.slots[k].pc.j].parent == k
    requires i < |s.slots| && j < |s.slots|
    ensures PairOk(ExitStep(s, k), i, j)
  {
    PassedSlots(s, k, i);
    PassedSlots(s, k, j);
    assert SlotOk(s, k) && SlotOk(s, s.init) && PairOk(s, k, s.slots[k].pc.j);
    assert PairOk(s, i, j) && SlotOk(s, i);
  }

  lemma ExitEndKeeps(s: Table, k: nat)
    requires Inv(s) && Enabled(s, ExitPass(k)) && s.slots[k].pc.j >= |s.slots|
    ensures Inv(ExitStep(s, k))
  {
    var t := ExitStep(s, k);
    assert SlotOk(s, k) && PidOk(s, k);
    forall i | 0 <= i < |t.slots| ensures SlotOk(t, i) && PidOk(t, i) {
      assert SlotOk(s, i) && PidOk(s, i) && PairOk(s, k, i);
    }
    forall i, j | 0 <= i < |t.slots| && 0 <= j < |t.slots| ensures PairOk(t, i, j) {
      assert PairOk(s, i, j) && SlotOk(s, i);
    }
    forall x | x in t.exited && x !in t.reaped ensures HasZombie(t, x) {
      if x == s.slots[k].pid {
        assert t.slots[k].state == ZOMBIE;
      } else {
        assert HasZombie(s, x);
        var i :| 0 <= i < |s.slots| && s.slots[i].state == ZOMBIE && s.slots[i].pid == x;
        assert t.slots[i].state == ZOMBIE && t.slots[i].pid == x;
      }
    }
  }

  lemma WaitKeeps(s: Table, k: nat)
    requires Inv(s) && Enabled(s, Wait(k))
    ensures Inv(Apply(s, Wait(k)))
  {
    var t := Apply(s, Wait(k));
    forall i | 0 <= i < |t.slots| ensures SlotOk(t, i) && PidOk(t, i) {
      assert SlotOk(s, i) && PidOk(s, i);
    }
    forall i, j | 0 <= i < |t.slots| && 0 <= j < |t.slots| ensures PairOk(t, i, j) {
      assert PairOk(s, i, j);
    }
    ZombiesStay(s, t);
  }

  lemma ReapPair(s: Table, k: nat, i: nat, j: nat)
    requires Inv(s) && Enabled(s, WaitPass(k)) && s.slots[k].pc.j < |s.slots|
    requires var q := s.slots[s.slots[k].pc.j]; q.parent == k && q.state == ZOMBIE
    requires i < |s.slots| && j < |s.slots|
    ensures PairOk(WaitStep(s, k), i, j)
  {
    var c := s.slots[k].pc.j;
    assert SlotOk(s, k) && SlotOk(s, c) && SlotOk(s, s.init) && PidOk(s, c);
    assert PairOk(s, i, j) && SlotOk(s, i) && SlotOk(s, j) && PairOk(s, c, j);
  }

  /** wait frees a zombie child. */
  lemma ReapKeeps(s: Table, k: nat)
    requires Inv(s) && Enabled(s, WaitPass(k)) && s.slots[k].pc.j < |s.slots|
    requires var q := s.slots[s.slots[k].pc.j]; q.parent == k && q.state == ZOMBIE
    ensures Inv(WaitStep(s, k))
  {
    var t := WaitStep(s, k);
    var c := s.slots[k].pc.j;
    assert SlotOk(s, k) && SlotOk(s, c) && SlotOk(s, s.init) && PidOk(s, c);
    forall i | 0 <= i < |t.slots| ensures SlotOk(t, i) && PidOk(t, i) {
      assert SlotOk(s, i) && PidOk(s, i) && PairOk(s, c, i) && PairOk(s, i, c);
    }
    forall i, j | 0 <= i < |t.slots| && 0 <= j < |t.slots| ensures PairOk(t, i, j) {
      ReapPair(s, k, i, j);
    }
    forall x | x in t.exited && x !in t.reaped ensures HasZombie(t, x) {
      assert HasZombie(s, x);
      var i :| 0 <= i < |s.slots| && s.slots[i].state == ZOMBIE && s.slots[i].pid == x;
      assert i != c && t.slots[i].state == ZOMBIE && t.slots[i].pid == x;
    }
  }

  lemma WaitPassKeeps(s: Table, k: nat)
    requires Inv(s) && Enabled(s, WaitPass(k))
    requires s.slots[k].pc.j < |s.slots| ==> var q := s.slots[s.slots[k].pc.j]; !(q.parent == k && q.state == ZOMBIE)
    ensures Inv(WaitStep(s, k))
  {
    var t := WaitStep(s, k);
    assert SlotOk(s, k);
    forall i | 0 <= i < |t.slots| ensures SlotOk(t, i) && PidOk(t, i) {
      assert SlotOk(s, i) && PidOk(s, i);
    }
    forall i, j | 0 <= i < |t.slots| && 0 <= j < |t.slots| ensures PairOk(t, i, j) {
      WaitPassPair(s, k, i, j);
    }
    ZombiesStay(s, t);
  }

  lemma WaitPassPair(s: Table, k: nat, i: nat, j: nat)
    requires Inv(s) && Enabled(s, WaitPass(k)) && i < |s.slots| && j < |s.slots|
    requires s.slots[k].pc.j < |s.slots| ==> var q := s.slots[s.slots[k].pc.j]; !(q.parent == k && q.state == ZOMBIE)
    ensures PairOk(WaitStep(s, k), i, j)
  {
    assert SlotOk(s, k) && PairOk(s, i, j) && SlotOk(s, i);
  }

  lemma RestPair(s: Table, step: Step, i: nat, j: nat)
    requires Inv(s) && Enabled(s, step) && (step.Schedule? || step.Yield? || step.Sleep? || step.Wakeup? || step.Kill?)
    requires i < |s.slots| && j < |s.slots|
    ensures PairOk(Apply(s, step), i, j)
  {
    assert SlotOk(s, step.k);
    assert PairOk(s, i, j) && SlotOk(s, i);
  }

  lemma RestKeeps(s: Table, step: Step)
    requires Inv(s) && Enabled(s, step) && (step.Schedule? || step.Yield? || step.Sleep? || step.Wakeup? || step.Kill?)
    ensures Inv(Apply(s, step))
  {
    var t := Apply(s, step);
    assert SlotOk(s, step.k);
    forall i | 0 <= i < |t.slots| ensures SlotOk(t, i) && PidOk(t, i) {
      assert SlotOk(s, i) && PidOk(s, i);
    }
    forall i, j | 0 <= i < |t.slots| && 0 <= j < |t.slots| ensures PairOk(t, i, j) {
      RestPair(s, step, i, j);
    }
    ZombiesStay(s, t);
  }

  lemma StepKeeps(s: Table, step: Step)
    requires Inv(s) && Enabled(s, step)
    ensures Inv(Apply(s, step))
  {
    var k := step.k;
    match step
    case AllocProc(_, np) => AllocKeeps(s, k, np);
    case ForkFail(_) => ForkFailKeeps(s, k);
    case ForkParent(_) => ForkParentKeeps(s, k);
    case ForkRun(_) => ForkRunKeeps(s, k);
    case Exit(_) => ExitKeeps(s, k);
    case ExitPass(_) =>
      if s.slots[k].pc.j >= |s.slots| {
        ExitEndKeeps(s, k);
      } else if s.slots[s.slots[k].pc.j].parent == k {
        ExitPasses(s, k);
      } else {
        ExitSkips(s, k);
      }
    case Wait(_) => WaitKeeps(s, k);
    case WaitPass(_) =>
      if s.slots[k].pc.j < |s.slots| && s.slots[s.slots[k].pc.j].parent == k &&
        s.slots[s.slots[k].pc.j].state == ZOMBIE {
        ReapKeeps(s, k);
      } else {
        WaitPassKeeps(s, k);
      }
    case _ => RestKeeps(s, step);
  }

  // --- Runs ---

  ghost predicate Reaches(s: Table, steps: seq<Step>, t: Table)
    decreases |steps|
  {
    if steps == [] then s == t else Enabled(s, steps[0]) && Reaches(Apply(s, steps[0]), steps[1..], t)
  }

  lemma {:induction false} RunKeeps(s: Table, steps: seq<Step>, t: Table)
    requires Inv(s) && Reaches(s, steps, t)
    ensures Inv(t)
    decreases |steps|
  {
    if steps != [] {
      StepKeeps(s, steps[0]);
      RunKeeps(Apply(s, steps[0]), steps[1..], t);
    }
  }

  /** Nobody sleeps in wait while a child of his is a zombie. */
  lemma NoMissedExit(s: Table, steps: seq<Step>, t: Table, i: nat, j: nat)
    requires Start(s) && Reaches(s, steps, t) && i < |t.slots| && j < |t.slots|
    requires AsleepInWait(t.slots[i]) && t.slots[j].parent == i
    ensures t.slots[j].state != ZOMBIE
  {
    StartHolds(s);
    RunKeeps(s, steps, t);
    assert PairOk(t, i, j);
  }

  /** Every process but init that is past fork has a parent that is neither a zombie nor a free slot. */
  lemma HasParent(s: Table, steps: seq<Step>, t: Table, i: nat)
    requires Start(s) && Reaches(s, steps, t) && i < |t.slots| && i != t.init && Grown(t.slots[i])
    ensures 0 <= t.slots[i].parent < |t.slots| && Running(t.slots[t.slots[i].parent])
  {
    StartHolds(s);
    RunKeeps(s, steps, t);
    assert SlotOk(t, i);
  }

  /** No two live processes have the same pid. */
  lemma PidsDistinct(s: Table, steps: seq<Step>, t: Table, i: nat, j: nat)
    requires Start(s) && Reaches(s, steps, t) && i < |t.slots| && j < |t.slots| && i != j
    requires Live(t.slots[i]) && Live(t.slots[j])
    ensures t.slots[i].pid != t.slots[j].pid
  {
    StartHolds(s);
    RunKeeps(s, steps, t);
    assert PairOk(t, i, j);
  }

  /** wait returns each exited pid at most once, none that did not exit, and none gets lost. */
  lemma ReapedOnce(s: Table, steps: seq<Step>, t: Table)
    requires Start(s) && Reaches(s, steps, t)
    ensures forall i, j :: 0 <= i < j < |t.reaped| ==> t.reaped[i] != t.reaped[j]
    ensures forall x :: x in t.reaped ==> x in t.exited && !HasZombie(t, x)
    ensures forall x :: x in t.exited ==> x in t.reaped || HasZombie(t, x)
  {
    StartHolds(s);
    RunKeeps(s, steps, t);
    forall x | x in t.reaped ensures !HasZombie(t, x) {
      forall i | 0 <= i < |t.slots| && t.slots[i].state == ZOMBIE ensures t.slots[i].pid != x {
        assert PidOk(t, i);
      }
    }
  }

  predicate ReturnedBy(t: Table, k: nat, c: nat)
    requires c < |t.slots|
  {
    t.slots[c].parent == k && t.slots[c].state == ZOMBIE && t.slots[c].pid in t.exited && t.slots[c].pid !in t.reaped
  }

  /** Some child of k has exited and waits to be reaped. */
  predicate ZombieChild(t: Table, k: nat, c: nat) {
    c < |t.slots| && t.slots[c].parent == k && t.slots[c].state == ZOMBIE
  }

  predicate Childless(t: Table, k: nat) { forall c :: 0 <= c < |t.slots| ==> t.slots[c].parent != k }

  /**
    How wait ends, in every reachable state, at whatever slot its scan is: with a zombie child it reaps
    one and returns; without, it returns without reaping exactly if it has no child or was killed,
    and goes to sleep otherwise.
  */
  lemma WaitEnds(s: Table, steps: seq<Step>, t: Table, k: nat)
    requires Start(s) && Reaches(s, steps, t) && Enabled(t, WaitPass(k)) && !Apply(t, WaitPass(k)).slots[k].pc.Waiting?
    ensures
      var u := Apply(t, WaitPass(k));
      if exists c :: ZombieChild(t, k, c) then
        u.slots[k].pc == User && exists c :: ZombieChild(t, k, c) && Reaped(t, u, c)
      else if Childless(t, k) || t.slots[k].killed then u.slots[k].pc == User && u.reaped == t.reaped
      else u.slots[k].pc == WaitSleep && u.slots[k].state == SLEEPING && u.reaped == t.reaped
  {
    StartHolds(s);
    RunKeeps(s, steps, t);
    KidsRun(s, steps, t);
    assert SlotOk(t, k);
    var j := t.slots[k].pc.j;
    if j < |t.slots| {
      assert PidOk(t, j);
      assert ZombieChild(t, k, j) && Reaped(t, Apply(t, WaitPass(k)), j);
    } else {
      forall c: nat | c < |t.slots| && t.slots[c].parent == k
        ensures t.slots[c].state != ZOMBIE && t.slots[k].pc.kids
      {
        assert PairOk(t, k, c);
      }
      assert !exists c :: ZombieChild(t, k, c);
      assert Childless(t, k) <==> !t.slots[k].pc.kids;
    }
  }

  /** From t to u, wait has returned the pid of the process in slot c and freed the slot. */
  predicate Reaped(t: Table, u: Table, c: nat) {
    && c < |t.slots| == |u.slots| && u.reaped == t.reaped + [t.slots[c].pid]
    && t.slots[c].pid in t.exited && t.slots[c].pid !in t.reaped && u.slots[c].state == UNUSED
    && forall i :: 0 <= i < |t.slots| && i != c && i != t.slots[c].parent ==> u.slots[i] == t.slots[i]
  }

  /** While k scans the table, which it does under the lock, a child stays its child, and a zombie a zombie. */
  lemma ChildStays(s: Table, step: Step, k: nat, c: nat)
    requires Inv(s) && Enabled(s, step) && k < |s.slots| && c < |s.slots|
    requires s.slots[k].pc.Waiting? && s.slots[c].parent == k && Apply(s, step).slots[k].pc.Waiting?
    ensures Apply(s, step).slots[c].parent == k
    ensures s.slots[c].state == ZOMBIE ==> Apply(s, step).slots[c].state == ZOMBIE
  {
    assert SlotOk(s, k) && SlotOk(s, c) && SlotOk(s, step.k) && PairOk(s, step.k, c) && PairOk(s, k, c);
    var p := s.slots[step.k];
    if p.pc.Forking? || p.pc.ForkReady? {
      assert p.pc.np < |s.slots| ==> PairOk(s, step.k, p.pc.np);
    }
  }

  /** wait has seen a child only if there is one. */
  ghost predicate KidsRight(t: Table) {
    forall k :: 0 <= k < |t.slots| && t.slots[k].pc.Waiting? && t.slots[k].pc.kids ==> !Childless(t, k)
  }

  lemma KidsStep(s: Table, step: Step)
    requires Inv(s) && KidsRight(s) && Enabled(s, step)
    ensures KidsRight(Apply(s, step))
  {
    var t := Apply(s, step);
    forall k | 0 <= k < |t.slots| && t.slots[k].pc.Waiting? && t.slots[k].pc.kids ensures !Childless(t, k) {
      assert SlotOk(s, k) && SlotOk(s, step.k);
      if s.slots[k].pc.kids {
        var c :| 0 <= c < |s.slots| && s.slots[c].parent == k;
        ChildStays(s, step, k, c);
      } else {
        assert t.slots[s.slots[k].pc.j].parent == k;
      }
    }
  }

  lemma {:induction false} KidsRun(s: Table, steps: seq<Step>, t: Table)
    requires Inv(s) && KidsRight(s) && Reaches(s, steps, t)
    ensures KidsRight(t)
    decreases |steps|
  {
    if steps != [] {
      StepKeeps(s, steps[0]);
      KidsStep(s, steps[0]);
      KidsRun(Apply(s, steps[0]), steps[1..], t);
    }
  }

  /** k is in wait's scan all along the run. */
  ghost predicate ScansOn(s: Table, steps: seq<Step>, k: nat)
    decreases |steps|
  {
    && k < |s.slots| && s.slots[k].pc.Waiting?
    && (steps != [] ==> Enabled(s, steps[0]) && ScansOn(Apply(s, steps[0]), steps[1..], k))
  }

  lemma {:induction false} ZombieStays(s: Table, steps: seq<Step>, t: Table, k: nat, c: nat)
    requires Inv(s) && Reaches(s, steps, t) && ScansOn(s, steps, k) && ZombieChild(s, k, c)
    ensures ZombieChild(t, k, c) && Inv(t)
    decreases |steps|
  {
    if steps != [] {
      StepKeeps(s, steps[0]);
      ChildStays(s, steps[0], k, c);
      ZombieStays(Apply(s, steps[0]), steps[1..], t, k, c);
    }
  }

  lemma {:induction false} ReachesTwice(s: Table, a: seq<Step>, t: Table, b: seq<Step>, u: Table)
    requires Reaches(s, a, t) && Reaches(t, b, u)
    ensures Reaches(s, a + b, u)
    decreases |a|
  {
    if a == [] {
      assert a + b == b;
    } else {
      ReachesTwice(Apply(s, a[0]), a[1..], t, b, u);
      assert (a + b)[0] == a[0] && (a + b)[1..] == a[1..] + b;
    }
  }

  /**
    A wait that has a zombie child at some point of its scan reaps one: whatever runs in between, the
    pass that ends the scan returns the pid of a zombie child.
  */
  lemma WaitReaps(s: Table, steps: seq<Step>, t: Table, more: seq<Step>, u: Table, k: nat, c: nat)
    requires Start(s) && Reaches(s, steps, t) && Reaches(t, more, u) && ScansOn(t, more, k) && ZombieChild(t, k, c)
    requires Enabled(u, WaitPass(k)) && !Apply(u, WaitPass(k)).slots[k].pc.Waiting?
    ensures Apply(u, WaitPass(k)).slots[k].pc == User
    ensures exists z :: ZombieChild(u, k, z) && Reaped(u, Apply(u, WaitPass(k)), z)
  {
    StartHolds(s);
    RunKeeps(s, steps, t);
    ZombieStays(t, more, u, k, c);
    ReachesTwice(s, steps, t, more, u);
    WaitEnds(s, steps + more, u, k);
  }

  /** The scan goes from slot to slot, so it does end. */
  lemma WaitGoesOn(t: Table, k: nat)
    requires Enabled(t, WaitPass(k)) && Apply(t, WaitPass(k)).slots[k].pc.Waiting?
    ensures t.slots[k].pc.j < Apply(t, WaitPass(k)).slots[k].pc.j <= |t.slots|
  {
  }

  // --- kill ---

  /** Nobody sleeps in wait who has been killed. */
  ghost predicate KilledAwake(t: Table) {
    forall i :: 0 <= i < |t.slots| && AsleepInWait(t.slots[i]) ==> !t.slots[i].killed
  }

  lemma KilledStep(s: Table, step: Step)
    requires Inv(s) && KilledAwake(s) && Enabled(s, step)
    ensures KilledAwake(Apply(s, step))
  {
    assert SlotOk(s, step.k);
  }

  lemma {:induction false} KilledRun(s: Table, steps: seq<Step>, t: Table)
    requires Inv(s) && KilledAwake(s) && Reaches(s, steps, t)
    ensures KilledAwake(t)
    decreases |steps|
  {
    if steps != [] {
      StepKeeps(s, steps[0]);
      KilledStep(s, steps[0]);
      KilledRun(Apply(s, steps[0]), steps[1..], t);
    }
  }

  /**
    kill reaches a sleeper: whoever sleeps can be scheduled after it.  In every reachable state a killed process
    is not asleep in wait, and the end of its scan does not put it to sleep.
  */
  lemma KilledReturns(s: Table, steps: seq<Step>, t: Table, k: nat)
    requires Start(s) && Reaches(s, steps, t) && k < |t.slots|
    ensures Enabled(t, Kill(k)) && t.slots[k].state == SLEEPING ==>
      var u := Apply(t, Kill(k)); u.slots[k].killed && Enabled(u, Schedule(k))
    ensures t.slots[k].killed ==> !AsleepInWait(t.slots[k])
    ensures t.slots[k].killed && Enabled(t, WaitPass(k)) ==> !AsleepInWait(Apply(t, WaitPass(k)).slots[k])
  {
    StartHolds(s);
    RunKeeps(s, steps, t);
    KilledRun(s, steps, t);
    if Enabled(t, WaitPass(k)) {
      KilledStep(t, WaitPass(k));
    }
  }

  /** What wait returns is the pid of a child of the caller that has exited and was not returned before. */
  lemma WaitReturns(s: Table, steps: seq<Step>, t: Table, k: nat)
    requires Start(s) && Reaches(s, steps, t) && Enabled(t, WaitPass(k)) && WaitStep(t, k).reaped != t.reaped
    ensures exists c ::
      0 <= c < |t.slots| && ReturnedBy(t, k, c) && WaitStep(t, k).reaped == t.reaped + [t.slots[c].pid]
  {
    StartHolds(s);
    RunKeeps(s, steps, t);
    var c := t.slots[k].pc.j;
    assert PidOk(t, c);
    assert ReturnedBy(t, k, c);
  }
}
