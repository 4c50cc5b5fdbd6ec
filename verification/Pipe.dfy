/**
  Pipes (kernel/pipe.c) with sleep and wakeup (kernel/proc.c) as a machine of small steps.
  Any number of processes read, write and close one pipe; between two steps of a process
  any other process may move.  A step is what the code does between two points where it
  waits for a lock, takes one, gives one up or tests the pipe.
*/
module Pipes {
  import opened Bytes

  const PIPESIZE := 1024

  /** Where a process is, with the arguments and the loop counter of its call. */
  datatype Pc =
    | Idle
    // pipewrite: waiting for p->lock, in the loop, about to wake the readers, falling asleep on
    // &p->nwrite (1: waits for ptable.lock, 2: holds both locks, 3: gave up p->lock), asleep,
    // past the loop, about to release p->lock.
    | WAcquire(buf: seq<Byte>, i: nat) | WLoop(buf: seq<Byte>, i: nat) | WWake(buf: seq<Byte>, i: nat)
    | WFall(stage: nat, buf: seq<Byte>, i: nat) | WAsleep(buf: seq<Byte>, i: nat) | WDone(n: nat) |
      WRelease(n: nat)
    // piperead: the same, with the test of the waiting loop and the copying loop apart.
    | RAcquire(n: nat) | RTest(n: nat) | RFall(stage: nat, n: nat) | RAsleep(n: nat)
    | RCopy(n: nat, i: nat) | RDone(i: nat) | RRelease(i: nat)
    // pipeclose of the write end (w) or the read end.
    | CAcquire(w: bool) | CClose(w: bool) | CWake(w: bool) | CRelease

  /** ret is the result of the last call, out what piperead has put into the caller's buffer, addr[..i]. */
  datatype Proc = Proc(pc: Pc, killed: bool, ret: int, out: seq<Byte>)

  /**
    lock and ptlock are the holders of p->lock and ptable.lock, -1 if free.  rfile and wfile say
    whether an open file still leads to that end: only then may a call on it begin, and the
    last close comes when none is under way.
  */
  datatype State = State(lock: int, ptlock: int, q: Queue, readopen: bool, writeopen: bool, rfile: bool, wfile: bool,
                         procs: seq<Proc>)

  /**
    The buffer with its counters.  sent and got are all bytes accepted and read, sentby and gotby the processes
    whose calls wrote and read them.
  */
  datatype Queue = Queue(data: seq<Byte>, nread: nat, nwrite: nat, sent: seq<Byte>, sentby: seq<nat>, got: seq<Byte>,
                         gotby: seq<nat>)

  datatype Step =
    | StartWrite(k: nat, buf: seq<Byte>) | StartRead(k: nat, n: nat) | StartClose(k: nat, w: bool)
    | Kill(k: nat) | Run(k: nat)

  predicate Start(s: State) {
    && s.lock == s.ptlock == -1 && |s.q.data| == PIPESIZE && s.q.nread == s.q.nwrite == 0
    && s.readopen && s.writeopen && s.rfile && s.wfile && s.q.sent == s.q.got == [] && s.q.sentby == s.q.gotby == []
    && forall k :: 0 <= k < |s.procs| ==> s.procs[k].pc == Idle
  }

  predicate Empty(q: Queue) { q.nread == q.nwrite }
  predicate Full(q: Queue) { q.nwrite == (q.nread + PIPESIZE) % TWO32 }

  /** Process k puts the byte b in, or takes one out. */
  function Put(q: Queue, k: nat, b: Byte): Queue
    requires |q.data| == PIPESIZE
  {
    q.(data := q.data[q.nwrite % PIPESIZE := b], nwrite := (q.nwrite + 1) % TWO32, sent := q.sent + [b],
      sentby := q.sentby + [k])
  }

  function Next(q: Queue): Byte
    requires |q.data| == PIPESIZE
  {
    q.data[q.nread % PIPESIZE]
  }

  function Take(q: Queue, k: nat): Queue
    requires |q.data| == PIPESIZE
  {
    q.(nread := (q.nread + 1) % TWO32, got := q.got + [Next(q)], gotby := q.gotby + [k])
  }

  predicate Writing(pc: Pc) {
    pc.WAcquire? || pc.WLoop? || pc.WWake? || pc.WFall? || pc.WAsleep? || pc.WDone? || pc.WRelease?
  }
  predicate Reading(pc: Pc) {
    pc.RAcquire? || pc.RTest? || pc.RFall? || pc.RAsleep? || pc.RCopy? || pc.RDone? || pc.RRelease?
  }

  function To(s: State, k: nat, pc: Pc): State
    requires k < |s.procs|
  {
    s.(procs := s.procs[k := s.procs[k].(pc := pc)])
  }

  /** The call of k gives up p->lock and returns r. */
  function Return(s: State, k: nat, r: int): State
    requires k < |s.procs|
  {
    s.(lock := -1, procs := s.procs[k := s.procs[k].(pc := Idle, ret := r)])
  }

  /** wakeup(&p->nread) and wakeup(&p->nwrite): every sleeper on the channel may run again. */
  function WakeReader(p: Proc): Proc { if p.pc.RAsleep? then p.(pc := RAcquire(p.pc.n)) else p }
  function WakeWriter(p: Proc): Proc { if p.pc.WAsleep? then p.(pc := WAcquire(p.pc.buf, p.pc.i)) else p }

  function WakeReaders(s: State): State {
    s.(procs := seq(|s.procs|, j requires 0 <= j < |s.procs| => WakeReader(s.procs[j])))
  }
  function WakeWriters(s: State): State {
    s.(procs := seq(|s.procs|, j requires 0 <= j < |s.procs| => WakeWriter(s.procs[j])))
  }

  predicate Waits(s: State, pc: Pc) {
    match pc
    case Idle => true
    case WAcquire(_, _) => s.lock != -1
    case RAcquire(_) => s.lock != -1
    case CAcquire(_) => s.lock != -1
    case WWake(_, _) => s.ptlock != -1
    case WDone(_) => s.ptlock != -1
    case RDone(_) => s.ptlock != -1
    case CWake(_) => s.ptlock != -1
    case WFall(stage, _, _) => stage <= 1 && s.ptlock != -1
    case RFall(stage, _) => stage <= 1 && s.ptlock != -1
    case WAsleep(_, _) => true
    case RAsleep(_) => true
    case _ => false
  }

  predicate Enabled(s: State, step: Step) {
    step.k < |s.procs| &&
    var p := s.procs[step.k];
    match step
    case StartWrite(_, _) => p.pc.Idle? && s.wfile
    case StartRead(_, _) => p.pc.Idle? && s.rfile
    case StartClose(_, w) => p.pc.Idle? && (if w then s.wfile else s.rfile) &&
      forall j :: 0 <= j < |s.procs| ==> !(if w then Writing(s.procs[j].pc) else Reading(s.procs[j].pc))
    case Kill(_) => s.ptlock == -1
    case Run(_) => !Waits(s, p.pc)
  }

  /** pipewrite under p->lock. */
  function RunWriter(s: State, k: nat): State
    requires k < |s.procs| && |s.q.data| == PIPESIZE && Writing(s.procs[k].pc)
  {
    var p := s.procs[k];
    match p.pc
    case WAcquire(buf, i) => To(s, k, WLoop(buf, i)).(lock := k)
    case WLoop(buf, i) =>
      if i >= |buf| then To(s, k, WDone(|buf|))
      else if Full(s.q) then
        if !s.readopen || p.killed then Return(s, k, -1) else To(s, k, WWake(buf, i))
      else
        To(s, k, WLoop(buf, i + 1)).(q := Put(s.q, k, buf[i]))
    case WWake(buf, i) => To(WakeReaders(s), k, WFall(1, buf, i))
    case WFall(stage, buf, i) =>
      if stage <= 1 then To(s, k, WFall(2, buf, i)).(ptlock := k)
      else if stage == 2 then To(s, k, WFall(3, buf, i)).(lock := -1)
      else To(s, k, WAsleep(buf, i)).(ptlock := -1)
    case WDone(n) => To(WakeReaders(s), k, WRelease(n))
    case WRelease(n) => Return(s, k, n)
    case _ => s
  }

  function RunReader(s: State, k: nat): State
    requires k < |s.procs| && |s.q.data| == PIPESIZE && Reading(s.procs[k].pc)
  {
    var p := s.procs[k];
    match p.pc
    case RAcquire(n) => To(s, k, RTest(n)).(lock := k)
    case RTest(n) =>
      if Empty(s.q) && s.writeopen then
        if p.killed then Return(s, k, -1) else To(s, k, RFall(1, n))
      else To(s, k, RCopy(n, 0))
    case RFall(stage, n) =>
      if stage <= 1 then To(s, k, RFall(2, n)).(ptlock := k)
      else if stage == 2 then To(s, k, RFall(3, n)).(lock := -1)
      else To(s, k, RAsleep(n)).(ptlock := -1)
    case RCopy(n, i) =>
      if i < n && !Empty(s.q) then
        s.(procs := s.procs[k := p.(pc := RCopy(n, i + 1), out := p.out + [Next(s.q)])], q := Take(s.q, k))
      else To(s, k, RDone(i))
    case RDone(i) => To(WakeWriters(s), k, RRelease(i))
    case RRelease(i) => Return(s, k, i)
    case _ => s
  }

  function RunCloser(s: State, k: nat): State
    requires k < |s.procs|
  {
    match s.procs[k].pc
    case CAcquire(w) => To(s, k, CClose(w)).(lock := k)
    case CClose(w) => if w then To(s, k, CWake(w)).(writeopen := false) else To(s, k, CWake(w)).(readopen := false)
    case CWake(w) => To(if w then WakeReaders(s) else WakeWriters(s), k, CRelease)
    case CRelease => Return(s, k, 0)
    case _ => s
  }

  function Apply(s: State, step: Step): State
    requires Enabled(s, step) && |s.q.data| == PIPESIZE
  {
    var k := step.k;
    match step
    case StartWrite(_, buf) => To(s, k, WAcquire(buf, 0))
    case StartRead(_, n) => s.(procs := s.procs[k := s.procs[k].(pc := RAcquire(n), out := [])])
    case StartClose(_, w) => if w then To(s, k, CAcquire(w)).(wfile := false)
      else To(s, k, CAcquire(w)).(rfile := false)
    case Kill(_) => s.(procs := s.procs[k := WakeWriter(WakeReader(s.procs[k])).(killed := true)])
    case Run(_) =>
      if Writing(s.procs[k].pc) then RunWriter(s, k) else if Reading(s.procs[k].pc) then RunReader(s, k)
        else RunCloser(s, k)
  }

  // --- Invariants ---

  /** The ring holds the bytes accepted and not yet read, whatever the counters have wrapped to. */
  ghost predicate Ring(q: Queue) {
    && |q.data| == PIPESIZE && |q.got| <= |q.sent| <= |q.got| + PIPESIZE && q.got == q.sent[..|q.got|]
    && q.nread == |q.got| % TWO32 && q.nwrite == |q.sent| % TWO32
    && forall j :: |q.got| <= j < |q.sent| ==> q.data[j % PIPESIZE] == q.sent[j]
  }

  predicate HoldsLock(pc: Pc) {
    || pc.WLoop? || pc.WWake? || pc.WDone? || pc.WRelease? || pc.RTest? || pc.RCopy? || pc.RDone? || pc.RRelease?
    || pc.CClose? || pc.CWake? || pc.CRelease? || (pc.WFall? && pc.stage <= 2) || (pc.RFall? && pc.stage <= 2)
  }

  predicate HoldsTable(pc: Pc) { (pc.WFall? || pc.RFall?) && pc.stage >= 2 }

  /** Asleep on &p->nread, or past the point of no return. */
  predicate ReaderDown(pc: Pc) { pc.RAsleep? || (pc.RFall? && pc.stage >= 3) }
  predicate WriterDown(pc: Pc) { pc.WAsleep? || (pc.WFall? && pc.stage >= 3) }

  /** The holder of p->lock is still going to wake the readers, or the writers. */
  predicate OwesReaders(s: State) {
    0 <= s.lock < |s.procs| && var pc := s.procs[s.lock].pc; pc.WLoop? || pc.WWake? || pc.WDone? || (pc.CWake? && pc.w)
  }
  predicate OwesWriters(s: State) {
    0 <= s.lock < |s.procs| && var pc := s.procs[s.lock].pc; pc.RCopy? || pc.RDone? || (pc.CWake? && !pc.w)
  }

  ghost predicate ProcOk(s: State, k: int)
    requires 0 <= k < |s.procs|
  {
    var pc := s.procs[k].pc;
    && (HoldsLock(pc) <==> s.lock == k) && (HoldsTable(pc) <==> s.ptlock == k)
    && (Writing(pc) ==> s.wfile) && (Reading(pc) ==> s.rfile)
    && (pc.CAcquire? || pc.CClose? || pc.CWake? ==> if pc.w then !s.wfile else !s.rfile)
    && (pc.RFall? ==> (Empty(s.q) && s.writeopen) || (pc.stage >= 3 && OwesReaders(s)))
    && (pc.WWake? ==> Full(s.q) && s.readopen)
    && (pc.WFall? ==> (Full(s.q) && s.readopen) || (pc.stage >= 3 && OwesWriters(s)))
    && (pc.RAsleep? ==> (Empty(s.q) && s.writeopen) || OwesReaders(s))
    && (pc.WAsleep? ==> (Full(s.q) && s.readopen) || OwesWriters(s))
  }

  ghost predicate Inv(s: State) {
    && Ring(s.q) && (s.wfile ==> s.writeopen) && (s.rfile ==> s.readopen)
    && forall k :: 0 <= k < |s.procs| ==> ProcOk(s, k)
  }

  // --- The counters ---

  lemma SameCount(i: nat, j: nat)
    requires i <= j <= i + PIPESIZE && i % TWO32 == j % TWO32
    ensures i == j
  {
  }

  lemma CountAhead(i: nat, n: nat)
    ensures (i % TWO32 + n) % TWO32 == (i + n) % TWO32
  {
  }

  lemma SlotOf(i: nat)
    ensures i % TWO32 % PIPESIZE == i % PIPESIZE
  {
    var q := i / TWO32;
    assert i == i % TWO32 + (q * (TWO32 / PIPESIZE)) * PIPESIZE;
  }

  /** Full and empty are told apart by the counters although these wrap around. */
  lemma Counters(q: Queue)
    requires Ring(q)
    ensures Empty(q) <==> |q.got| == |q.sent|
    ensures Full(q) <==> |q.sent| == |q.got| + PIPESIZE
    ensures q.nwrite % PIPESIZE == |q.sent| % PIPESIZE && q.nread % PIPESIZE == |q.got| % PIPESIZE
  {
    SlotOf(|q.sent|);
    SlotOf(|q.got|);
    CountAhead(|q.got|, PIPESIZE);
    if Empty(q) {
      SameCount(|q.got|, |q.sent|);
    }
    if Full(q) {
      SameCount(|q.sent|, |q.got| + PIPESIZE);
    }
  }

  lemma SlotsDiffer(i: nat, j: nat)
    requires i < j < i + PIPESIZE
    ensures i % PIPESIZE != j % PIPESIZE
  {
  }

  lemma RingPut(q: Queue, k: nat, b: Byte)
    requires Ring(q) && !Full(q)
    ensures Ring(Put(q, k, b))
  {
    Counters(q);
    CountAhead(|q.sent|, 1);
    forall j | |q.got| <= j < |q.sent| ensures j % PIPESIZE != |q.sent| % PIPESIZE {
      SlotsDiffer(j, |q.sent|);
    }
  }

  lemma RingTake(q: Queue, k: nat)
    requires Ring(q) && !Empty(q)
    ensures Ring(Take(q, k))
  {
    Counters(q);
    CountAhead(|q.got|, 1);
  }

  // --- Every step keeps the ring, whoever takes it and whatever he owes ---

  /** pipewrite is about to put a byte in, piperead to take one out. */
  predicate Puts(s: State, pc: Pc) { pc.WLoop? && pc.i < |pc.buf| && !Full(s.q) }
  predicate Takes(s: State, pc: Pc) { pc.RCopy? && pc.i < pc.n && !Empty(s.q) }

  lemma QueueWriter(s: State, k: nat)
    requires |s.q.data| == PIPESIZE && k < |s.procs| && Writing(s.procs[k].pc)
    ensures var pc := s.procs[k].pc; RunWriter(s, k).q == if Puts(s, pc) then Put(s.q, k, pc.buf[pc.i]) else s.q
  {
  }

  lemma QueueReader(s: State, k: nat)
    requires |s.q.data| == PIPESIZE && k < |s.procs| && Reading(s.procs[k].pc)
    ensures var pc := s.procs[k].pc; RunReader(s, k).q == if Takes(s, pc) then Take(s.q, k) else s.q
  {
  }

  /** The queue changes only where pipewrite puts a byte in and where piperead takes one out. */
  lemma QueueStep(s: State, step: Step)
    requires |s.q.data| == PIPESIZE && Enabled(s, step)
    ensures var t, pc := Apply(s, step), s.procs[step.k].pc;
      t.q == if step.Run? && Puts(s, pc) then Put(s.q, step.k, pc.buf[pc.i])
        else if step.Run? && Takes(s, pc) then Take(s.q, step.k) else s.q
  {
    if step.Run? {
      var pc := s.procs[step.k].pc;
      if Writing(pc) {
        QueueWriter(s, step.k);
      } else if Reading(pc) {
        QueueReader(s, step.k);
      }
    }
  }

  lemma RingStep(s: State, step: Step)
    requires Ring(s.q) && Enabled(s, step)
    ensures Ring(Apply(s, step).q)
  {
    var k := step.k;
    var pc := s.procs[k].pc;
    QueueStep(s, step);
    if Puts(s, pc) {
      RingPut(s.q, k, pc.buf[pc.i]);
    } else if Takes(s, pc) {
      RingTake(s.q, k);
    }
  }

  // --- Every step keeps the invariant ---

  /** A killed writer that finds the pipe full returns without waking the readers it has written for. */
  predicate Careless(s: State, step: Step) {
    && step.Run? && step.k < |s.procs| && var p := s.procs[step.k];
    && p.pc.WLoop? && p.pc.i < |p.pc.buf| && Full(s.q) && s.readopen && p.killed
    && exists j :: 0 <= j < |s.procs| && ReaderDown(s.procs[j].pc)
  }

  lemma StartKeeps(s: State, step: Step)
    requires Inv(s) && Enabled(s, step) && (step.StartWrite? || step.StartRead? || step.StartClose?)
    ensures Inv(Apply(s, step))
  {
    var t := Apply(s, step);
    forall j | 0 <= j < |t.procs| ensures ProcOk(t, j) {
      assert ProcOk(s, j) && ProcOk(s, step.k);
    }
  }

  lemma KillKeeps(s: State, step: Step)
    requires Inv(s) && Enabled(s, step) && step.Kill?
    ensures Inv(Apply(s, step))
  {
    var t := Apply(s, step);
    forall j | 0 <= j < |t.procs| ensures ProcOk(t, j) {
      assert ProcOk(s, j) && ProcOk(s, step.k);
    }
  }

  lemma CloserWakes(s: State, k: nat)
    requires Inv(s) && Enabled(s, Run(k)) && s.procs[k].pc.CWake?
    ensures Inv(RunCloser(s, k))
  {
    var t := RunCloser(s, k);
    assert t.q == s.q;
    forall j | 0 <= j < |t.procs| ensures ProcOk(t, j) {
      assert ProcOk(s, j) && ProcOk(s, k);
    }
  }

  /** Closing an end: whoever sleeps on the other one will be woken. */
  lemma CloserCloses(s: State, k: nat)
    requires Inv(s) && Enabled(s, Run(k)) && s.procs[k].pc.CClose?
    ensures Inv(RunCloser(s, k))
  {
    var t := RunCloser(s, k);
    assert t.q == s.q;
    forall j | 0 <= j < |t.procs| ensures ProcOk(t, j) {
      assert ProcOk(s, j) && ProcOk(s, k);
    }
  }

  lemma CloserKeeps(s: State, k: nat)
    requires Inv(s) && Enabled(s, Run(k)) && !Writing(s.procs[k].pc) && !Reading(s.procs[k].pc) &&
      !s.procs[k].pc.CWake? && !s.procs[k].pc.CClose?
    ensures Inv(RunCloser(s, k))
  {
    var t := RunCloser(s, k);
    assert t.q == s.q;
    forall j | 0 <= j < |t.procs| ensures ProcOk(t, j) {
      assert ProcOk(s, j) && ProcOk(s, k);
    }
  }

  /** A byte read: the reader owes the writers a wakeup, and no reader can be falling asleep. */
  lemma TakeKeeps(s: State, k: nat)
    requires Inv(s) && k < |s.procs| && s.procs[k].pc.RCopy? && s.procs[k].pc.i < s.procs[k].pc.n && !Empty(s.q)
    ensures Inv(RunReader(s, k))
  {
    var t := RunReader(s, k);
    RingTake(s.q, k);
    forall j | 0 <= j < |t.procs| ensures ProcOk(t, j) {
      assert ProcOk(s, j) && ProcOk(s, k);
    }
  }

  lemma ReaderWakes(s: State, k: nat)
    requires Inv(s) && Enabled(s, Run(k)) && s.procs[k].pc.RDone?
    ensures Inv(RunReader(s, k))
  {
    var t := RunReader(s, k);
    assert t.q == s.q;
    forall j | 0 <= j < |t.procs| ensures ProcOk(t, j) {
      assert ProcOk(s, j) && ProcOk(s, k);
    }
  }

  /** sleep: the process stays the holder of one of the two locks until it is asleep. */
  lemma ReaderFalls(s: State, k: nat)
    requires Inv(s) && Enabled(s, Run(k)) && s.procs[k].pc.RFall?
    ensures Inv(RunReader(s, k))
  {
    var t := RunReader(s, k);
    assert t.q == s.q;
    forall j | 0 <= j < |t.procs| ensures ProcOk(t, j) {
      assert ProcOk(s, j) && ProcOk(s, k);
    }
  }

  lemma ReaderKeeps(s: State, k: nat)
    requires Inv(s) && Enabled(s, Run(k)) && Reading(s.procs[k].pc) && !s.procs[k].pc.RDone? && !s.procs[k].pc.RFall?
    requires !(s.procs[k].pc.RCopy? && s.procs[k].pc.i < s.procs[k].pc.n && !Empty(s.q))
    ensures Inv(RunReader(s, k))
  {
    var t := RunReader(s, k);
    assert t.q == s.q;
    forall j | 0 <= j < |t.procs| ensures ProcOk(t, j) {
      assert ProcOk(s, j) && ProcOk(s, k);
    }
  }

  /** A byte written: the writer owes the readers a wakeup. */
  lemma PutKeeps(s: State, k: nat)
    requires Inv(s) && k < |s.procs| && s.procs[k].pc.WLoop? && s.procs[k].pc.i < |s.procs[k].pc.buf| && !Full(s.q)
    ensures Inv(RunWriter(s, k))
  {
    var t := RunWriter(s, k);
    RingPut(s.q, k, s.procs[k].pc.buf[s.procs[k].pc.i]);
    forall j | 0 <= j < |t.procs| ensures ProcOk(t, j) {
      assert ProcOk(s, j) && ProcOk(s, k);
    }
  }

  lemma WriterWakes(s: State, k: nat)
    requires Inv(s) && Enabled(s, Run(k)) && (s.procs[k].pc.WDone? || s.procs[k].pc.WWake?)
    ensures Inv(RunWriter(s, k))
  {
    var t := RunWriter(s, k);
    assert t.q == s.q;
    forall j | 0 <= j < |t.procs| ensures ProcOk(t, j) {
      assert ProcOk(s, j) && ProcOk(s, k);
    }
  }

  lemma WriterFalls(s: State, k: nat)
    requires Inv(s) && Enabled(s, Run(k)) && s.procs[k].pc.WFall?
    ensures Inv(RunWriter(s, k))
  {
    var t := RunWriter(s, k);
    assert t.q == s.q;
    forall j | 0 <= j < |t.procs| ensures ProcOk(t, j) {
      assert ProcOk(s, j) && ProcOk(s, k);
    }
  }

  lemma WriterKeeps(s: State, k: nat)
    requires Inv(s) && Enabled(s, Run(k)) && !Careless(s, Run(k))
    requires var pc := s.procs[k].pc; Writing(pc) && !pc.WDone? && !pc.WWake? && !pc.WFall?
    requires !(s.procs[k].pc.WLoop? && s.procs[k].pc.i < |s.procs[k].pc.buf| && !Full(s.q))
    ensures Inv(RunWriter(s, k))
  {
    var t := RunWriter(s, k);
    assert t.q == s.q;
    Counters(s.q);
    forall j | 0 <= j < |t.procs| ensures ProcOk(t, j) {
      assert ProcOk(s, j) && ProcOk(s, k);
    }
  }

  lemma StepKeeps(s: State, step: Step)
    requires Inv(s) && Enabled(s, step) && !Careless(s, step)
    ensures Inv(Apply(s, step))
  {
    var k := step.k;
    var pc := s.procs[k].pc;
    if step.Kill? {
      KillKeeps(s, step);
    } else if !step.Run? {
      StartKeeps(s, step);
    } else if Writing(pc) {
      if pc.WDone? || pc.WWake? {
        WriterWakes(s, k);
      } else if pc.WFall? {
        WriterFalls(s, k);
      } else if pc.WLoop? && pc.i < |pc.buf| && !Full(s.q) {
        PutKeeps(s, k);
      } else {
        WriterKeeps(s, k);
      }
    } else if Reading(pc) {
      if pc.RDone? {
        ReaderWakes(s, k);
      } else if pc.RFall? {
        ReaderFalls(s, k);
      } else if pc.RCopy? && pc.i < pc.n && !Empty(s.q) {
        TakeKeeps(s, k);
      } else {
        ReaderKeeps(s, k);
      }
    } else if pc.CWake? {
      CloserWakes(s, k);
    } else if pc.CClose? {
      CloserCloses(s, k);
    } else {
      CloserKeeps(s, k);
    }
  }

  // --- Runs ---

  /** The state after the given steps, if each of them could be taken. */
  ghost predicate Reaches(s: State, steps: seq<Step>, t: State)
    decreases |steps|
  {
    if steps == [] then s == t
    else |s.q.data| == PIPESIZE && Enabled(s, steps[0]) && Reaches(Apply(s, steps[0]), steps[1..], t)
  }

  ghost predicate EverCareless(s: State, steps: seq<Step>)
    decreases |steps|
  {
    steps != [] &&
      (Careless(s, steps[0]) ||
        (|s.q.data| == PIPESIZE && Enabled(s, steps[0]) && EverCareless(Apply(s, steps[0]), steps[1..])))
  }

  lemma StartHolds(s: State)
    requires Start(s)
    ensures Inv(s)
  {
  }

  lemma {:induction false} RingRun(s: State, steps: seq<Step>, t: State)
    requires Ring(s.q) && Reaches(s, steps, t)
    ensures Ring(t.q)
    decreases |steps|
  {
    if steps != [] {
      RingStep(s, steps[0]);
      RingRun(Apply(s, steps[0]), steps[1..], t);
    }
  }

  /**
    Over every interleaving, the bytes read are the first of the bytes accepted, in their order,
    and at most PIPESIZE of them are on their way.
  */
  lemma FirstInFirstOut(s: State, steps: seq<Step>, t: State)
    requires Start(s) && Reaches(s, steps, t)
    ensures t.q.got <= t.q.sent && |t.q.sent| - |t.q.got| <= PIPESIZE
  {
    RingRun(s, steps, t);
  }

  lemma {:induction false} RunKeeps(s: State, steps: seq<Step>, t: State)
    requires Inv(s) && Reaches(s, steps, t) && !EverCareless(s, steps)
    ensures Inv(t)
    decreases |steps|
  {
    if steps != [] {
      StepKeeps(s, steps[0]);
      RunKeeps(Apply(s, steps[0]), steps[1..], t);
    }
  }

  /** Who sleeps while p->lock is free has good reason to. */
  ghost predicate SleepersRight(s: State) {
    s.lock == -1 ==> forall k :: 0 <= k < |s.procs| ==>
      && (ReaderDown(s.procs[k].pc) ==> Empty(s.q) && s.writeopen)
      && (WriterDown(s.procs[k].pc) ==> Full(s.q) && s.readopen)
  }

  /**
    Over every interleaving in which no killed writer leaves sleeping readers behind: with the lock
    free a sleeping reader means an empty pipe with its write end open, a sleeping writer a full
    one with its read end open.
  */
  lemma PipeSafe(s: State, steps: seq<Step>, t: State)
    requires Start(s) && Reaches(s, steps, t) && !EverCareless(s, steps)
    ensures SleepersRight(t)
  {
    StartHolds(s);
    RunKeeps(s, steps, t);
    forall k | 0 <= k < |t.procs| && t.lock == -1
      ensures (ReaderDown(t.procs[k].pc) ==> Empty(t.q) && t.writeopen) &&
        (WriterDown(t.procs[k].pc) ==> Full(t.q) && t.readopen)
    {
      assert ProcOk(t, k);
    }
  }

  /** Readers and writers never wait for each other. */
  lemma NoDeadlock(s: State, steps: seq<Step>, t: State, j: nat, k: nat)
    requires Start(s) && Reaches(s, steps, t) && !EverCareless(s, steps) && t.lock == -1
    requires j < |t.procs| && k < |t.procs| && ReaderDown(t.procs[j].pc)
    ensures !WriterDown(t.procs[k].pc)
  {
    PipeSafe(s, steps, t);
    StartHolds(s);
    RunKeeps(s, steps, t);
    Counters(t.q);
  }

  /** The one step that is left out does break the property: a reader sleeps on a full pipe. */
  lemma CarelessBreaks(s: State, step: Step)
    requires Inv(s) && Enabled(s, step) && Careless(s, step)
    ensures !SleepersRight(Apply(s, step)) && Full(Apply(s, step).q) && !Empty(Apply(s, step).q)
  {
    Counters(s.q);
    var t := Apply(s, step);
    var j :| 0 <= j < |s.procs| && ReaderDown(s.procs[j].pc);
    assert t.procs[j].pc == s.procs[j].pc;
  }

  // --- A run that ends in that step ---

  lemma Joined(a: seq<Step>, b: seq<Step>)
    ensures if a == [] then a + b == b else a + b != [] && (a + b)[0] == a[0] && (a + b)[1..] == a[1..] + b
  {
  }

  lemma {:induction false} ReachesTwice(s: State, a: seq<Step>, t: State, b: seq<Step>, u: State)
    requires Reaches(s, a, t) && Reaches(t, b, u)
    ensures Reaches(s, a + b, u)
    decreases |a|
  {
    Joined(a, b);
    if a != [] {
      ReachesTwice(Apply(s, a[0]), a[1..], t, b, u);
    }
  }

  lemma OneStep(s: State, step: Step)
    requires |s.q.data| == PIPESIZE && Enabled(s, step)
    ensures Reaches(s, [step], Apply(s, step))
  {
    assert [step][1..] == [];
  }

  /** Process 1 writes m bytes into a pipe that has room for them. */
  lemma {:induction false} WritesMany(s: State, m: nat) returns (steps: seq<Step>, t: State)
    requires Inv(s) && |s.procs| == 2 && s.procs[1].pc.WLoop? && |s.q.sent| + m <= |s.q.got| + PIPESIZE &&
      s.procs[1].pc.i + m <= |s.procs[1].pc.buf|
    ensures Reaches(s, steps, t) && Inv(t) && |t.q.sent| == |s.q.sent| + m && t.q.got == s.q.got &&
      t.readopen == s.readopen
    ensures t.procs == s.procs[1 := s.procs[1].(pc := WLoop(s.procs[1].pc.buf, s.procs[1].pc.i + m))]
    decreases m
  {
    if m == 0 {
      steps, t := [], s;
    } else {
      Counters(s.q);
      PutKeeps(s, 1);
      OneStep(s, Run(1));
      var rest, u := WritesMany(RunWriter(s, 1), m - 1);
      ReachesTwice(s, [Run(1)], RunWriter(s, 1), rest, u);
      steps, t := [Run(1)] + rest, u;
    }
  }

  /** A step that is not careless extends a run. */
  lemma Extend(s: State, steps: seq<Step>, t: State, step: Step)
    requires Reaches(s, steps, t) && Inv(t) && Enabled(t, step) && !Careless(t, step)
    ensures Reaches(s, steps + [step], Apply(t, step)) && Inv(Apply(t, step))
  {
    StepKeeps(t, step);
    OneStep(t, step);
    ReachesTwice(s, steps, t, [step], Apply(t, step));
  }

  /** Process 0 falls asleep reading. */
  lemma FallAsleep(s: State) returns (steps: seq<Step>, t: State)
    requires Start(s) && |s.procs| == 2 && !s.procs[0].killed
    ensures Reaches(s, steps, t) && Inv(t) && t.q.got == t.q.sent == [] && t.readopen && t.wfile &&
      t.ptlock == t.lock == -1
    ensures |t.procs| == 2 && t.procs[0].pc == RAsleep(1) && t.procs[1] == s.procs[1]
  {
    StartHolds(s);
    Extend(s, [], s, StartRead(0, 1));
    steps, t := [] + [StartRead(0, 1)], Apply(s, StartRead(0, 1));
    for i := 1 to 6
      invariant Reaches(s, steps, t) && Inv(t) && Falling(s, t, i)
    {
      FallStep(s, t, i);
      Extend(s, steps, t, Run(0));
      steps, t := steps + [Run(0)], Apply(t, Run(0));
    }
  }

  /** Process 0 on its way to sleep, after i steps. */
  ghost predicate Falling(s: State, t: State, i: int)
    requires 1 <= i
  {
    && t.q.got == t.q.sent == [] && t.readopen && t.writeopen && t.wfile && t.q.nread == t.q.nwrite
    && |t.q.data| == PIPESIZE && |t.procs| == 2 == |s.procs| && t.procs[1] == s.procs[1] && !t.procs[0].killed
    && t.procs[0].pc ==
       (if i == 1 then RAcquire(1) else if i == 2 then RTest(1) else if i < 6 then RFall(i - 2, 1) else RAsleep(1))
    && t.ptlock == (if 4 <= i <= 5 then 0 else -1) && t.lock == (if 2 <= i <= 4 then 0 else -1)
  }

  lemma FallStep(s: State, t: State, i: int)
    requires 1 <= i < 6 && Falling(s, t, i)
    ensures Enabled(t, Run(0)) && !Careless(t, Run(0)) && Falling(s, Apply(t, Run(0)), i + 1)
  {
  }

  /** Then process 1 starts to write and is killed. */
  lemma Prelude(s: State, buf: seq<Byte>) returns (steps: seq<Step>, t: State)
    requires Start(s) && |s.procs| == 2 && !s.procs[0].killed
    ensures Reaches(s, steps, t) && Inv(t) && t.q.got == t.q.sent == [] && t.readopen
    ensures |t.procs| == 2 && t.procs[0].pc == RAsleep(1) && t.procs[1].pc == WLoop(buf, 0) && t.procs[1].killed
  {
    steps, t := FallAsleep(s);
    Extend(s, steps, t, StartWrite(1, buf));
    steps, t := steps + [StartWrite(1, buf)], To(t, 1, WAcquire(buf, 0));
    Extend(s, steps, t, Run(1));
    steps, t := steps + [Run(1)], RunWriter(t, 1);
    Extend(s, steps, t, Kill(1));
    steps, t := steps + [Kill(1)], Apply(t, Kill(1));
  }

  /** From every start with two processes there is a run that takes the careless step. */
  lemma CarelessHappens(s: State) returns (steps: seq<Step>, t: State)
    requires Start(s) && |s.procs| == 2 && !s.procs[0].killed
    ensures Reaches(s, steps, t) && Enabled(t, Run(1)) && Careless(t, Run(1))
  {
    var buf: seq<Byte> := seq(PIPESIZE + 1, _ => 0);
    var a, u := Prelude(s, buf);
    var b, v := WritesMany(u, PIPESIZE);
    ReachesTwice(s, a, u, b, v);
    steps, t := a + b, v;
    Counters(t.q);
    assert ReaderDown(t.procs[0].pc);
  }
}
