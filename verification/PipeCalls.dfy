/**
  What pipewrite and piperead do for their callers (kernel/pipe.c), over every run of the pipe's
  machine: a call is told from its first step on, and any other process may move in between.
*/
module PipeCalls {
  import opened Bytes
  import opened Pipes

  /** The bytes of what[m..] that carry the process k, in their order. */
  function Of(k: nat, who: seq<nat>, what: seq<Byte>, m: nat): (r: seq<Byte>)
    requires m <= |what| == |who|
    decreases |what|
  {
    if |what| == m then [] else
      var rest := Of(k, who[..|who| - 1], what[..|what| - 1], m);
      if who[|who| - 1] == k then rest + [what[|what| - 1]] else rest
  }

  lemma OfMore(k: nat, who: seq<nat>, what: seq<Byte>, m: nat, w: nat, b: Byte)
    requires m <= |what| == |who|
    ensures Of(k, who + [w], what + [b], m) == Of(k, who, what, m) + (if w == k then [b] else [])
  {
    assert (who + [w])[..|who|] == who && (what + [b])[..|what|] == what;
  }

  ghost predicate Tagged(s: State) { |s.q.sentby| == |s.q.sent| && |s.q.gotby| == |s.q.got| }

  /** The bytes k has written, and read, since m bytes had been. */
  ghost function Wrote(s: State, k: nat, m: nat): seq<Byte>
    requires Tagged(s) && m <= |s.q.sent|
  {
    Of(k, s.q.sentby, s.q.sent, m)
  }

  ghost function Got(s: State, k: nat, m: nat): seq<Byte>
    requires Tagged(s) && m <= |s.q.got|
  {
    Of(k, s.q.gotby, s.q.got, m)
  }

  // --- What a step of one process leaves alone ---

  /** The queue grows by bytes that carry the process k alone. */
  predicate Grew(a: seq<Byte>, awho: seq<nat>, b: seq<Byte>, bwho: seq<nat>, k: nat) {
    (b == a && bwho == awho) || (|b| > 0 && b == a + [b[|b| - 1]] && bwho == awho + [k])
  }

  /** p, or p woken up. */
  predicate Woken(p: Proc, q: Proc) {
    q == p || q == WakeReader(p) || q == WakeWriter(p)
  }

  lemma Grows(s: State, step: Step)
    requires |s.q.data| == PIPESIZE && Enabled(s, step)
    ensures var t := Apply(s, step);
      Grew(s.q.sent, s.q.sentby, t.q.sent, t.q.sentby, step.k) && Grew(s.q.got, s.q.gotby, t.q.got, t.q.gotby, step.k)
  {
    QueueStep(s, step);
  }

  lemma WriterAlone(s: State, w: nat, k: nat)
    requires |s.q.data| == PIPESIZE && w < |s.procs| && Writing(s.procs[w].pc) && k < |s.procs| && w != k
    ensures |RunWriter(s, w).procs| == |s.procs| && Woken(s.procs[k], RunWriter(s, w).procs[k])
  {
    var pc := s.procs[w].pc;
    if pc.WWake? || pc.WDone? {
      assert WakeReaders(s).procs[k] == WakeReader(s.procs[k]);
    } else {
      assert RunWriter(s, w).procs[k] == s.procs[k];
    }
  }

  lemma ReaderAlone(s: State, r: nat, k: nat)
    requires |s.q.data| == PIPESIZE && r < |s.procs| && Reading(s.procs[r].pc) && k < |s.procs| && r != k
    ensures |RunReader(s, r).procs| == |s.procs| && Woken(s.procs[k], RunReader(s, r).procs[k])
  {
    var pc := s.procs[r].pc;
    if pc.RDone? {
      assert WakeWriters(s).procs[k] == WakeWriter(s.procs[k]);
    } else {
      assert RunReader(s, r).procs[k] == s.procs[k];
    }
  }

  lemma CloserAlone(s: State, c: nat, k: nat)
    requires c < |s.procs| && k < |s.procs| && c != k
    ensures |RunCloser(s, c).procs| == |s.procs| && Woken(s.procs[k], RunCloser(s, c).procs[k])
  {
    var pc := s.procs[c].pc;
    if pc.CWake? {
      assert WakeWriters(s).procs[k] == WakeWriter(s.procs[k]) && WakeReaders(s).procs[k] == WakeReader(s.procs[k]);
    } else {
      assert RunCloser(s, c).procs[k] == s.procs[k];
    }
  }

  lemma OthersStay(s: State, step: Step, k: nat)
    requires |s.q.data| == PIPESIZE && Enabled(s, step) && k < |s.procs| && step.k != k
    ensures |Apply(s, step).procs| == |s.procs| && Woken(s.procs[k], Apply(s, step).procs[k])
  {
    if step.Run? {
      var pc := s.procs[step.k].pc;
      if Writing(pc) {
        WriterAlone(s, step.k, k);
      } else if Reading(pc) {
        ReaderAlone(s, step.k, k);
      } else {
        CloserAlone(s, step.k, k);
      }
    }
  }

  lemma GrewOf(a: seq<Byte>, awho: seq<nat>, b: seq<Byte>, bwho: seq<nat>, w: nat, k: nat, m: nat)
    requires m <= |a| == |awho| && Grew(a, awho, b, bwho, w) && w != k
    ensures |b| == |bwho| >= |a| && Of(k, bwho, b, m) == Of(k, awho, a, m)
  {
    if b != a {
      OfMore(k, awho, a, m, w, b[|b| - 1]);
    }
  }

  // --- pipewrite ---

  /** p is in a call of pipewrite with buf, or has returned from it, and has had the bytes w of it accepted. */
  ghost predicate WriteAt(p: Proc, w: seq<Byte>, buf: seq<Byte>) {
    match p.pc
    case WAcquire(b, i) => b == buf && i <= |buf| && w == buf[..i]
    case WLoop(b, i) => b == buf && i <= |buf| && w == buf[..i]
    case WWake(b, i) => b == buf && i <= |buf| && w == buf[..i] && w != buf
    case WFall(_, b, i) => b == buf && i <= |buf| && w == buf[..i] && w != buf
    case WAsleep(b, i) => b == buf && i <= |buf| && w == buf[..i] && w != buf
    case WDone(n) => n == |buf| && w == buf
    case WRelease(n) => n == |buf| && w == buf
    case Idle => if p.ret == -1 then w < buf else p.ret == |buf| && w == buf
    case _ => false
  }

  /** So it stands with k's call, which began when m bytes had been accepted. */
  ghost predicate WriteCall(s: State, k: nat, buf: seq<Byte>, m: nat) {
    Tagged(s) && m <= |s.q.sent| && k < |s.procs| && WriteAt(s.procs[k], Wrote(s, k, m), buf)
  }

  lemma WriteBegins(s: State, k: nat, buf: seq<Byte>)
    requires Tagged(s) && |s.q.data| == PIPESIZE && Enabled(s, StartWrite(k, buf))
    ensures WriteCall(Apply(s, StartWrite(k, buf)), k, buf, |s.q.sent|)
  {
  }

  lemma WriteOthers(s: State, step: Step, k: nat, buf: seq<Byte>, m: nat)
    requires |s.q.data| == PIPESIZE && Enabled(s, step) && WriteCall(s, k, buf, m) && step.k != k
    ensures WriteCall(Apply(s, step), k, buf, m)
  {
    var t := Apply(s, step);
    Grows(s, step);
    OthersStay(s, step, k);
    GrewOf(s.q.sent, s.q.sentby, t.q.sent, t.q.sentby, step.k, k, m);
    GrewOf(s.q.got, s.q.gotby, t.q.got, t.q.gotby, step.k, k, |s.q.got|);
  }

  lemma WritePuts(s: State, k: nat, buf: seq<Byte>, m: nat)
    requires |s.q.data| == PIPESIZE && WriteCall(s, k, buf, m) && Puts(s, s.procs[k].pc)
    ensures WriteCall(RunWriter(s, k), k, buf, m)
  {
    var i := s.procs[k].pc.i;
    OfMore(k, s.q.sentby, s.q.sent, m, k, buf[i]);
    assert buf[..i] + [buf[i]] == buf[..i + 1];
    assert RunWriter(s, k).procs[k].pc == WLoop(buf, i + 1);
  }

  lemma WriteMoves(s: State, k: nat, buf: seq<Byte>, w: seq<Byte>)
    requires |s.q.data| == PIPESIZE && k < |s.procs| && WriteAt(s.procs[k], w, buf) && Writing(s.procs[k].pc) &&
      !Puts(s, s.procs[k].pc)
    ensures |RunWriter(s, k).procs| == |s.procs| && WriteAt(RunWriter(s, k).procs[k], w, buf)
  {
    assert buf[..|buf|] == buf;
    if s.procs[k].pc.WFall? {
      WriteFalls(s, k, buf, w);
    }
  }

  lemma WriteFalls(s: State, k: nat, buf: seq<Byte>, w: seq<Byte>)
    requires |s.q.data| == PIPESIZE && k < |s.procs| && WriteAt(s.procs[k], w, buf) && s.procs[k].pc.WFall?
    ensures |RunWriter(s, k).procs| == |s.procs| && WriteAt(RunWriter(s, k).procs[k], w, buf)
  {
  }

  lemma WriteOwn(s: State, step: Step, k: nat, buf: seq<Byte>, m: nat)
    requires |s.q.data| == PIPESIZE && Enabled(s, step) && WriteCall(s, k, buf, m) && step.k == k &&
      (step.Run? || step.Kill?)
    ensures WriteCall(Apply(s, step), k, buf, m)
  {
    var pc := s.procs[k].pc;
    QueueStep(s, step);
    if step.Run? {
      if Puts(s, pc) {
        WritePuts(s, k, buf, m);
      } else {
        WriteMoves(s, k, buf, Wrote(s, k, m));
      }
    }
  }

  /** The process k starts no further call. */
  predicate Quiet(steps: seq<Step>, k: nat) {
    forall j :: 0 <= j < |steps| && steps[j].k == k ==> steps[j].Run? || steps[j].Kill?
  }

  lemma TaggedStep(s: State, step: Step)
    requires Tagged(s) && |s.q.data| == PIPESIZE && Enabled(s, step)
    ensures Tagged(Apply(s, step))
  {
    Grows(s, step);
  }

  lemma {:induction false} WriteRun(s: State, steps: seq<Step>, t: State, k: nat, buf: seq<Byte>, m: nat)
    requires Ring(s.q) && WriteCall(s, k, buf, m) && Reaches(s, steps, t) && Quiet(steps, k)
    ensures WriteCall(t, k, buf, m)
    decreases |steps|
  {
    if steps != [] {
      RingStep(s, steps[0]);
      if steps[0].k == k {
        WriteOwn(s, steps[0], k, buf, m);
      } else {
        WriteOthers(s, steps[0], k, buf, m);
      }
      WriteRun(Apply(s, steps[0]), steps[1..], t, k, buf, m);
    }
  }

  // --- p->lock keeps the others out ---

  ghost predicate Locks(s: State) {
    forall j :: 0 <= j < |s.procs| ==> (HoldsLock(s.procs[j].pc) <==> s.lock == j)
  }

  /** Who holds the lock after a step of k. */
  predicate LockMoves(s: State, t: State, k: nat) {
    && k < |t.procs| == |s.procs| && (HoldsLock(t.procs[k].pc) <==> t.lock == k)
    && (t.lock == s.lock || (s.lock == -1 && t.lock == k) || (s.lock == k && t.lock == -1))
  }

  lemma LockFalls(s: State, k: nat)
    requires |s.q.data| == PIPESIZE && Enabled(s, Run(k)) && (HoldsLock(s.procs[k].pc) <==> s.lock == k)
    requires s.procs[k].pc.WFall?
    ensures LockMoves(s, RunWriter(s, k), k)
  {
  }

  lemma LockWriter(s: State, k: nat)
    requires |s.q.data| == PIPESIZE && Enabled(s, Run(k)) && (HoldsLock(s.procs[k].pc) <==> s.lock == k)
    requires Writing(s.procs[k].pc)
    ensures LockMoves(s, RunWriter(s, k), k)
  {
    if s.procs[k].pc.WFall? {
      LockFalls(s, k);
    }
  }

  lemma LockReaderFalls(s: State, k: nat)
    requires |s.q.data| == PIPESIZE && Enabled(s, Run(k)) && (HoldsLock(s.procs[k].pc) <==> s.lock == k)
    requires s.procs[k].pc.RFall?
    ensures LockMoves(s, RunReader(s, k), k)
  {
  }

  lemma LockCopy(s: State, k: nat)
    requires |s.q.data| == PIPESIZE && k < |s.procs| && s.lock == k && s.procs[k].pc.RCopy?
    ensures LockMoves(s, RunReader(s, k), k)
  {
  }

  lemma LockReader(s: State, k: nat)
    requires |s.q.data| == PIPESIZE && Enabled(s, Run(k)) && (HoldsLock(s.procs[k].pc) <==> s.lock == k)
    requires Reading(s.procs[k].pc)
    ensures LockMoves(s, RunReader(s, k), k)
  {
    if s.procs[k].pc.RFall? {
      LockReaderFalls(s, k);
    } else if s.procs[k].pc.RCopy? {
      LockCopy(s, k);
    }
  }

  lemma LockCloser(s: State, k: nat)
    requires Enabled(s, Run(k)) && (HoldsLock(s.procs[k].pc) <==> s.lock == k)
    requires !Writing(s.procs[k].pc) && !Reading(s.procs[k].pc)
    ensures LockMoves(s, RunCloser(s, k), k)
  {
  }

  lemma LockOwn(s: State, step: Step)
    requires |s.q.data| == PIPESIZE && Enabled(s, step) && Locks(s)
    ensures LockMoves(s, Apply(s, step), step.k)
  {
    var k := step.k;
    if step.Run? {
      if Writing(s.procs[k].pc) {
        LockWriter(s, k);
      } else if Reading(s.procs[k].pc) {
        LockReader(s, k);
      } else {
        LockCloser(s, k);
      }
    }
  }

  lemma LocksStep(s: State, step: Step)
    requires |s.q.data| == PIPESIZE && Enabled(s, step) && Locks(s)
    ensures Locks(Apply(s, step))
  {
    LockOwn(s, step);
    forall j | 0 <= j < |s.procs| && j != step.k
      ensures HoldsLock(Apply(s, step).procs[j].pc) <==> Apply(s, step).lock == j
    {
      OthersStay(s, step, j);
    }
  }

  /** While k holds the lock nobody else touches the queue, and the write end is not opened again. */
  lemma LockedOut(s: State, step: Step, k: nat)
    requires |s.q.data| == PIPESIZE && Enabled(s, step) && Locks(s) && k < |s.procs| && step.k != k && s.lock == k
    ensures Apply(s, step).q == s.q && (Apply(s, step).writeopen ==> s.writeopen)
  {
    QueueStep(s, step);
  }

  // --- piperead ---

  /** out is what the queue gave last, not counting its first m bytes. */
  ghost predicate Latest(out: seq<Byte>, q: Queue, m: nat) {
    m + |out| <= |q.got| && q.got[|q.got| - |out|..] == out
  }

  /**
    p is in a call of piperead of n bytes that began when m bytes had been read, or has returned from
    it, and has got the bytes g since.
  */
  ghost predicate ReadAt(p: Proc, q: Queue, writeopen: bool, g: seq<Byte>, n: nat, m: nat) {
    match p.pc
    case RAcquire(n1) => n1 == n && g == p.out == []
    case RTest(n1) => n1 == n && g == p.out == []
    case RFall(_, n1) => n1 == n && g == p.out == []
    case RAsleep(n1) => n1 == n && g == p.out == []
    case RCopy(n1, i) => n1 == n && i == |p.out| && Copied(p, q, writeopen, g, n, m)
    case RDone(i) => i == |p.out| && Copied(p, q, writeopen, g, n, m) && (i == n || Empty(q))
    case RRelease(i) => i == |p.out| && Copied(p, q, writeopen, g, n, m) && (i == n || Empty(q))
    case Idle => g == p.out && if p.ret == -1 then g == [] else p.ret == |g| <= n
    case _ => false
  }

  ghost predicate Copied(p: Proc, q: Queue, writeopen: bool, g: seq<Byte>, n: nat, m: nat) {
    && g == p.out && |p.out| <= n && Latest(p.out, q, m)
    && (p.out == [] ==> !Empty(q) || !writeopen)
  }

  ghost predicate ReadCall(s: State, k: nat, n: nat, m: nat) {
    Tagged(s) && m <= |s.q.got| && k < |s.procs| && ReadAt(s.procs[k], s.q, s.writeopen, Got(s, k, m), n, m)
  }

  lemma ReadBegins(s: State, k: nat, n: nat)
    requires Tagged(s) && |s.q.data| == PIPESIZE && Enabled(s, StartRead(k, n))
    ensures ReadCall(Apply(s, StartRead(k, n)), k, n, |s.q.got|)
  {
  }

  lemma ReadOthers(s: State, step: Step, k: nat, n: nat, m: nat)
    requires |s.q.data| == PIPESIZE && Enabled(s, step) && Locks(s) && ReadCall(s, k, n, m) && step.k != k
    ensures ReadCall(Apply(s, step), k, n, m)
  {
    var t := Apply(s, step);
    Grows(s, step);
    OthersStay(s, step, k);
    GrewOf(s.q.got, s.q.gotby, t.q.got, t.q.gotby, step.k, k, m);
    GrewOf(s.q.sent, s.q.sentby, t.q.sent, t.q.sentby, step.k, k, |s.q.sent|);
    if HoldsLock(s.procs[k].pc) {
      LockedOut(s, step, k);
    }
  }

  lemma ReadTakes(s: State, k: nat, n: nat, m: nat)
    requires |s.q.data| == PIPESIZE && ReadCall(s, k, n, m) && Takes(s, s.procs[k].pc)
    ensures ReadCall(RunReader(s, k), k, n, m)
  {
    OfMore(k, s.q.gotby, s.q.got, m, k, Next(s.q));
    var t := RunReader(s, k);
    assert t.procs[k].pc == RCopy(n, s.procs[k].pc.i + 1);
    assert t.q == Take(s.q, k);
    LatestMore(s.procs[k].out, s.q, m, k);
  }

  lemma LatestMore(out: seq<Byte>, q: Queue, m: nat, k: nat)
    requires |q.data| == PIPESIZE && Latest(out, q, m)
    ensures Latest(out + [Next(q)], Take(q, k), m)
  {
  }

  lemma ReadTests(s: State, k: nat, g: seq<Byte>, n: nat, m: nat)
    requires |s.q.data| == PIPESIZE && k < |s.procs| && m <= |s.q.got| &&
      ReadAt(s.procs[k], s.q, s.writeopen, g, n, m) && s.procs[k].pc.RTest?
    ensures var t := RunReader(s, k);
      |t.procs| == |s.procs| && t.writeopen == s.writeopen && ReadAt(t.procs[k], s.q, s.writeopen, g, n, m)
  {
  }

  lemma ReadWaits(s: State, k: nat, g: seq<Byte>, n: nat, m: nat)
    requires |s.q.data| == PIPESIZE && k < |s.procs| && m <= |s.q.got| &&
      ReadAt(s.procs[k], s.q, s.writeopen, g, n, m)
    requires var pc := s.procs[k].pc; pc.RAcquire? || pc.RFall? || pc.RAsleep?
    ensures var t := RunReader(s, k);
      |t.procs| == |s.procs| && t.writeopen == s.writeopen && ReadAt(t.procs[k], s.q, s.writeopen, g, n, m)
  {
  }

  lemma ReadMoves(s: State, k: nat, g: seq<Byte>, n: nat, m: nat)
    requires |s.q.data| == PIPESIZE && k < |s.procs| && m <= |s.q.got| &&
      ReadAt(s.procs[k], s.q, s.writeopen, g, n, m)
    requires var pc := s.procs[k].pc; (pc.RCopy? && !Takes(s, pc)) || pc.RDone? || pc.RRelease?
    ensures var t := RunReader(s, k);
      |t.procs| == |s.procs| && t.writeopen == s.writeopen && ReadAt(t.procs[k], s.q, s.writeopen, g, n, m)
  {
  }

  lemma ReadOwn(s: State, step: Step, k: nat, n: nat, m: nat)
    requires |s.q.data| == PIPESIZE && Enabled(s, step) && ReadCall(s, k, n, m) && step.k == k &&
      (step.Run? || step.Kill?)
    ensures ReadCall(Apply(s, step), k, n, m)
  {
    var pc := s.procs[k].pc;
    QueueStep(s, step);
    if step.Run? {
      if Takes(s, pc) {
        ReadTakes(s, k, n, m);
      } else if pc.RTest? {
        ReadTests(s, k, Got(s, k, m), n, m);
      } else if pc.RAcquire? || pc.RFall? || pc.RAsleep? {
        ReadWaits(s, k, Got(s, k, m), n, m);
      } else {
        ReadMoves(s, k, Got(s, k, m), n, m);
      }
    }
  }

  lemma {:induction false} ReadRun(s: State, steps: seq<Step>, t: State, k: nat, n: nat, m: nat)
    requires Ring(s.q) && Locks(s) && ReadCall(s, k, n, m) && Reaches(s, steps, t) && Quiet(steps, k)
    ensures ReadCall(t, k, n, m)
    decreases |steps|
  {
    if steps != [] {
      RingStep(s, steps[0]);
      LocksStep(s, steps[0]);
      if steps[0].k == k {
        ReadOwn(s, steps[0], k, n, m);
      } else {
        ReadOthers(s, steps[0], k, n, m);
      }
      ReadRun(Apply(s, steps[0]), steps[1..], t, k, n, m);
    }
  }

  // --- The calls of every run ---

  lemma {:induction false} AlwaysSound(s: State, steps: seq<Step>, t: State)
    requires Ring(s.q) && Locks(s) && Tagged(s) && Reaches(s, steps, t)
    ensures Ring(t.q) && Locks(t) && Tagged(t) && |s.q.sent| <= |t.q.sent| && |s.q.got| <= |t.q.got|
    decreases |steps|
  {
    if steps != [] {
      RingStep(s, steps[0]);
      LocksStep(s, steps[0]);
      Grows(s, steps[0]);
      AlwaysSound(Apply(s, steps[0]), steps[1..], t);
    }
  }

  /**
    pipewrite(p, buf, |buf|) called by k in any reachable state t, at any later moment u: the bytes accepted
    from k since are the first of buf, in their order; all of them if it has returned |buf|, not all if -1.
  */
  lemma Pipewrite(s: State, before: seq<Step>, t: State, k: nat, buf: seq<Byte>, after: seq<Step>, u: State)
    requires Start(s) && Reaches(s, before, t) && Reaches(t, [StartWrite(k, buf)] + after, u) && Quiet(after, k)
    ensures Tagged(u) && |t.q.sent| <= |u.q.sent| && k < |u.procs| && Wrote(u, k, |t.q.sent|) <= buf
    ensures var p, w := u.procs[k], Wrote(u, k, |t.q.sent|);
      && (p.pc.Idle? ==> if p.ret == -1 then w != buf else p.ret == |buf| && w == buf)
      && (p.pc.WLoop? || p.pc.WAsleep? ==> p.pc.buf == buf && p.pc.i == |w|)
  {
    AlwaysSound(s, before, t);
    FirstStep(t, StartWrite(k, buf), after, u);
    WriteBegins(t, k, buf);
    RingStep(t, StartWrite(k, buf));
    WriteRun(Apply(t, StartWrite(k, buf)), after, u, k, buf, |t.q.sent|);
  }

  lemma FirstStep(t: State, step: Step, after: seq<Step>, u: State)
    requires Reaches(t, [step] + after, u)
    ensures |t.q.data| == PIPESIZE && Enabled(t, step) && Reaches(Apply(t, step), after, u)
  {
    assert ([step] + after)[0] == step && ([step] + after)[1..] == after;
  }

  /** The next step of k ends its call. */
  predicate Ends(u: State, k: nat) {
    && k < |u.procs| && !u.procs[k].pc.Idle? && |u.q.data| == PIPESIZE && Enabled(u, Run(k))
    && k < |Apply(u, Run(k)).procs| && Apply(u, Run(k)).procs[k].pc.Idle?
  }

  function Ended(u: State, k: nat): Proc
    requires Ends(u, k)
  {
    Apply(u, Run(k)).procs[k]
  }

  /** Where calls end. */
  lemma WriterEndsAt(u: State, k: nat)
    requires Ends(u, k) && Writing(u.procs[k].pc)
    ensures var p, q := u.procs[k], Ended(u, k);
      || (p.pc.WLoop? && q == p.(pc := Idle, ret := -1) && p.pc.i < |p.pc.buf| && Full(u.q) &&
            (!u.readopen || p.killed))
      || (p.pc.WRelease? && q == p.(pc := Idle, ret := p.pc.n))
  {
  }

  lemma ReaderEndsAt(u: State, k: nat)
    requires Ends(u, k) && Reading(u.procs[k].pc)
    ensures var p, q := u.procs[k], Ended(u, k);
      || (p.pc.RTest? && q == p.(pc := Idle, ret := -1) && Empty(u.q) && u.writeopen && p.killed)
      || (p.pc.RRelease? && q == p.(pc := Idle, ret := p.pc.i))
  {
  }

  /**
    How that call ends: when a step of k takes it to its end, it returns |buf| with everything accepted, or
    -1, which it does exactly if the pipe is full, bytes are left and nobody can read them or k was killed.
  */
  lemma PipewriteReturns(s: State, before: seq<Step>, t: State, k: nat, buf: seq<Byte>, after: seq<Step>, u: State)
    requires Start(s) && Reaches(s, before, t) && Reaches(t, [StartWrite(k, buf)] + after, u) && Quiet(after, k)
    requires Ends(u, k)
    ensures Tagged(u) && |t.q.sent| <= |u.q.sent|
    ensures var r, w := Ended(u, k).ret, Wrote(u, k, |t.q.sent|);
      if w == buf then r == |buf|
      else r == -1 && w < buf && |u.q.sent| == |u.q.got| + PIPESIZE && (!u.readopen || u.procs[k].killed)
  {
    AlwaysSound(s, before, t);
    FirstStep(t, StartWrite(k, buf), after, u);
    WriteBegins(t, k, buf);
    RingStep(t, StartWrite(k, buf));
    WriteRun(Apply(t, StartWrite(k, buf)), after, u, k, buf, |t.q.sent|);
    RingRun(Apply(t, StartWrite(k, buf)), after, u);
    WriteEnds(u, k, buf, |t.q.sent|);
  }

  lemma WriteEnds(u: State, k: nat, buf: seq<Byte>, m: nat)
    requires Ring(u.q) && WriteCall(u, k, buf, m) && Ends(u, k)
    ensures var r, w := Ended(u, k).ret, Wrote(u, k, m);
      if w == buf then r == |buf|
      else r == -1 && w < buf && |u.q.sent| == |u.q.got| + PIPESIZE && (!u.readopen || u.procs[k].killed)
  {
    WriterEndsAt(u, k);
    Counters(u.q);
  }

  /**
    How piperead(p, addr, n) called by k in any reachable state t ends.  -1: k was killed with the pipe
    empty, and got nothing.  Otherwise the buffer holds what k got since the call, as many bytes as are
    returned; they are the bytes accepted next after those read so far, n of them or all there are;
    none, where some were asked for, only if the pipe is empty and its write end closed.
  */
  lemma Piperead(s: State, before: seq<Step>, t: State, k: nat, n: nat, after: seq<Step>, u: State)
    requires Start(s) && Reaches(s, before, t) && Reaches(t, [StartRead(k, n)] + after, u) && Quiet(after, k)
    requires Ends(u, k)
    ensures Tagged(u) && |t.q.got| <= |u.q.got| <= |u.q.sent|
    ensures var p, g := Ended(u, k), Got(u, k, |t.q.got|);
      if p.ret == -1 then g == p.out == [] && u.procs[k].killed && u.q.got == u.q.sent && u.writeopen
      else
        var i := |u.q.got| - |g|;
        && p.ret == |g| && g == p.out && |t.q.got| <= i && g == u.q.sent[i..|u.q.got|]
        && |g| == Min(n, |u.q.sent| - i)
        && (n > 0 && g == [] ==> u.q.got == u.q.sent && !u.writeopen)
  {
    AlwaysSound(s, before, t);
    FirstStep(t, StartRead(k, n), after, u);
    ReadBegins(t, k, n);
    RingStep(t, StartRead(k, n));
    LocksStep(t, StartRead(k, n));
    ReadRun(Apply(t, StartRead(k, n)), after, u, k, n, |t.q.got|);
    RingRun(Apply(t, StartRead(k, n)), after, u);
    ReadEnds(u, k, n, |t.q.got|);
  }

  lemma ReadEnds(u: State, k: nat, n: nat, m: nat)
    requires Ring(u.q) && ReadCall(u, k, n, m) && Ends(u, k)
    ensures var p, g := Ended(u, k), Got(u, k, m);
      if p.ret == -1 then g == p.out == [] && u.procs[k].killed && u.q.got == u.q.sent && u.writeopen
      else
        var i := |u.q.got| - |g|;
        && p.ret == |g| && g == p.out && m <= i && g == u.q.sent[i..|u.q.got|] && |g| == Min(n, |u.q.sent| - i)
        && (n > 0 && g == [] ==> u.q.got == u.q.sent && !u.writeopen)
  {
    ReaderEndsAt(u, k);
    Counters(u.q);
    var pc, g := u.procs[k].pc, Got(u, k, m);
    if pc.RRelease? {
      var i := |u.q.got| - |g|;
      assert u.q.got[i..] == u.q.sent[i..|u.q.got|];
    } else {
      assert pc.RTest? && u.q.got == u.q.sent;
    }
  }

  function Min(a: int, b: int): int { if a < b then a else b }

  // --- kill ---

  /** On the way to sleep, and that or asleep. */
  predicate Falls(pc: Pc) { pc.WWake? || pc.WFall? || pc.RFall? }
  predicate Down(pc: Pc) { Falls(pc) || pc.WAsleep? || pc.RAsleep? }

  /** kill comes between the test of proc->killed and the sleep: it finds nobody asleep to wake. */
  predicate Unnoticed(s: State, step: Step) { step.Kill? && step.k < |s.procs| && Falls(s.procs[step.k].pc) }

  /** Nobody who was killed sleeps or is on the way there. */
  ghost predicate KilledUp(s: State) {
    forall j :: 0 <= j < |s.procs| && s.procs[j].killed ==> !Down(s.procs[j].pc)
  }

  lemma FallsKilled(s: State, k: nat)
    requires |s.q.data| == PIPESIZE && k < |s.procs| && s.procs[k].pc.WFall?
    ensures var t := RunWriter(s, k); |t.procs| == |s.procs| && t.procs[k].killed == s.procs[k].killed
  {
  }

  lemma WriterKilled(s: State, k: nat)
    requires |s.q.data| == PIPESIZE && k < |s.procs| && Writing(s.procs[k].pc)
    ensures var t := RunWriter(s, k); |t.procs| == |s.procs| && t.procs[k].killed == s.procs[k].killed
  {
    if s.procs[k].pc.WFall? {
      FallsKilled(s, k);
    } else if s.procs[k].pc.WWake? || s.procs[k].pc.WDone? {
      assert WakeReaders(s).procs[k] == WakeReader(s.procs[k]);
    }
  }

  lemma WriterUp(s: State, k: nat)
    requires |s.q.data| == PIPESIZE && k < |s.procs| && Writing(s.procs[k].pc)
    requires s.procs[k].killed && !Down(s.procs[k].pc)
    ensures var t := RunWriter(s, k); |t.procs| == |s.procs| && !Down(t.procs[k].pc)
  {
  }

  lemma ReaderKilled(s: State, k: nat)
    requires |s.q.data| == PIPESIZE && k < |s.procs| && Reading(s.procs[k].pc)
    ensures var t := RunReader(s, k); |t.procs| == |s.procs| && t.procs[k].killed == s.procs[k].killed
  {
    if s.procs[k].pc.RFall? {
      ReaderFallsKilled(s, k);
    } else if s.procs[k].pc.RDone? {
      assert WakeWriters(s).procs[k] == WakeWriter(s.procs[k]);
    }
  }

  lemma ReaderFallsKilled(s: State, k: nat)
    requires |s.q.data| == PIPESIZE && k < |s.procs| && s.procs[k].pc.RFall?
    ensures var t := RunReader(s, k); |t.procs| == |s.procs| && t.procs[k].killed == s.procs[k].killed
  {
  }

  lemma ReaderUp(s: State, k: nat)
    requires |s.q.data| == PIPESIZE && k < |s.procs| && Reading(s.procs[k].pc)
    requires s.procs[k].killed && !Down(s.procs[k].pc)
    ensures var t := RunReader(s, k); |t.procs| == |s.procs| && !Down(t.procs[k].pc)
  {
  }

  lemma OwnUp(s: State, step: Step)
    requires |s.q.data| == PIPESIZE && Enabled(s, step) && KilledUp(s)
    ensures var t, k := Apply(s, step), step.k;
      |t.procs| == |s.procs| && (t.procs[k].killed && Down(t.procs[k].pc) <==> Unnoticed(s, step))
  {
    var k := step.k;
    if step.Run? {
      if Writing(s.procs[k].pc) {
        WriterKilled(s, k);
        if s.procs[k].killed {
          WriterUp(s, k);
        }
      } else if Reading(s.procs[k].pc) {
        ReaderKilled(s, k);
        if s.procs[k].killed {
          ReaderUp(s, k);
        }
      }
    }
  }

  /** A step leaves nobody killed and asleep, unless it is a kill that goes unnoticed; that one does. */
  lemma UpStep(s: State, step: Step)
    requires |s.q.data| == PIPESIZE && Enabled(s, step) && KilledUp(s)
    ensures KilledUp(Apply(s, step)) <==> !Unnoticed(s, step)
  {
    var t := Apply(s, step);
    OwnUp(s, step);
    forall j | 0 <= j < |s.procs| && j != step.k ensures t.procs[j].killed ==> !Down(t.procs[j].pc) {
      OthersStay(s, step, j);
    }
  }

  ghost predicate EverUnnoticed(s: State, steps: seq<Step>)
    decreases |steps|
  {
    steps != [] &&
      (Unnoticed(s, steps[0]) ||
        (|s.q.data| == PIPESIZE && Enabled(s, steps[0]) && EverUnnoticed(Apply(s, steps[0]), steps[1..])))
  }

  lemma {:induction false} UpRun(s: State, steps: seq<Step>, t: State)
    requires Ring(s.q) && KilledUp(s) && Reaches(s, steps, t) && !EverUnnoticed(s, steps)
    ensures KilledUp(t)
    decreases |steps|
  {
    if steps != [] {
      RingStep(s, steps[0]);
      UpStep(s, steps[0]);
      UpRun(Apply(s, steps[0]), steps[1..], t);
    }
  }

  /** Over every interleaving without such a kill, nobody who was killed sleeps in a pipe. */
  lemma KilledAwake(s: State, steps: seq<Step>, t: State, k: nat)
    requires Start(s) && Reaches(s, steps, t) && !EverUnnoticed(s, steps) && k < |t.procs| && t.procs[k].killed
    ensures !t.procs[k].pc.RAsleep? && !t.procs[k].pc.WAsleep?
  {
    UpRun(s, steps, t);
  }

  /** With such a kill somebody does: process 0 is killed on its way to sleep in piperead. */
  lemma UnnoticedHappens(s: State) returns (steps: seq<Step>, t: State)
    requires Start(s) && |s.procs| > 0 && !s.procs[0].killed
    ensures Reaches(s, steps, t) && t.procs != [] && t.procs[0].killed && t.procs[0].pc == RAsleep(1) && t.lock == -1
  {
    StartHolds(s);
    Extend(s, [], s, StartRead(0, 1));
    steps, t := [] + [StartRead(0, 1)], Apply(s, StartRead(0, 1));
    for i := 1 to 7
      invariant Reaches(s, steps, t) && Inv(t) && Sinks(t, i)
    {
      var step := if i == 3 then Kill(0) else Run(0);
      SinkStep(t, i);
      Extend(s, steps, t, step);
      steps, t := steps + [step], Apply(t, step);
    }
  }

  /** Process 0 after i steps: killed at the third, asleep after the seventh. */
  ghost predicate Sinks(t: State, i: int)
    requires 1 <= i
  {
    && t.q.nread == t.q.nwrite && t.writeopen && |t.q.data| == PIPESIZE && |t.procs| > 0
    && t.procs[0].killed == (i > 3)
    && t.procs[0].pc ==
       (if i == 1 then RAcquire(1) else if i == 2 then RTest(1) else if i <= 4 then RFall(1, 1)
        else if i < 7 then RFall(i - 3, 1) else RAsleep(1))
    && t.ptlock == (if 5 <= i <= 6 then 0 else -1) && t.lock == (if 2 <= i <= 5 then 0 else -1)
  }

  lemma SinkStep(t: State, i: int)
    requires 1 <= i < 7 && Sinks(t, i)
    ensures var step := if i == 3 then Kill(0) else Run(0);
      Enabled(t, step) && !Careless(t, step) && Sinks(Apply(t, step), i + 1)
  {
  }
}
