/** sleeplock.c over sleep and wakeup of proc.c, as a step system: any number of
    processes and sleep-locks, one step per lock operation or assignment, in any
    interleaving, with kill waking sleepers at any time.

    A process leaves the CPU in sched() holding ptable.lock, which the scheduler
    then holds; the scheduler hands it back to the process it runs next. */
module Sleeplock {
  datatype Option<T> = None | Some(value: T)

  // Where a process stands; l is the sleep-lock it works on.
  datatype Pc =
    | Idle
    | AcqEnter(l: nat)    // acquiresleep: about to acquire lk->lk
    | AcqTest(l: nat)     //   at the while test
    | AcqLeave(l: nat)    //   lock taken, about to release lk->lk
    | SlpEnter(l: nat)    // sleep: about to acquire ptable.lock
    | SlpRelease(l: nat)  //   about to release lk->lk
    | SlpMark(l: nat)     //   about to set chan and SLEEPING
    | SlpSched(l: nat)    //   about to give up the CPU
    | SlpWait(l: nat)     //   off the CPU
    | SlpTidy(l: nat)     //   back, about to clear chan
    | SlpUnlock(l: nat)   //   about to release ptable.lock
    | SlpReacquire(l: nat)//   about to acquire lk->lk again
    | RelEnter(l: nat)    // releasesleep: about to acquire lk->lk
    | RelClear(l: nat)    //   about to clear locked
    | RelWakeup(l: nat)   //   in wakeup: about to acquire ptable.lock
    | RelWake1(l: nat)    //   about to run wakeup1
    | RelUnlock(l: nat)   //   about to release ptable.lock
    | RelLeave(l: nat)    //   about to release lk->lk

  datatype ProcState = SLEEPING | RUNNABLE | RUNNING

  // held: the sleep-locks the process got from acquiresleep and has not given up.
  datatype Proc = Proc(pc: Pc, state: ProcState, chan: Option<nat>, killed: bool, held: set<nat>)

  datatype Lock = Lock(inner: Option<nat>, locked: bool, pid: Option<nat>)

  datatype Holder = Free | ByProc(p: nat) | ByScheduler

  datatype State = State(procs: seq<Proc>, locks: seq<Lock>, ptable: Holder)

  datatype Step =
    | Call(p: nat, l: nat, release: bool)  // p calls acquiresleep or releasesleep
    | Acquire(p: nat)                      // p takes its next step in acquiresleep,
    | Sleep(p: nat)                        //   in sleep,
    | Release(p: nat)                      //   in releasesleep
    | SchedulerAcquire
    | SchedulerRelease
    | Dispatch(p: nat)
    | Kill(p: nat)

  predicate Running(s: State, p: nat) {
    p < |s.procs| && s.procs[p].state == RUNNING
  }

  function At(s: State, p: nat, pc: Pc): State
    requires p < |s.procs|
  {
    s.(procs := s.procs[p := s.procs[p].(pc := pc)])
  }

  function WithInner(s: State, l: nat, inner: Option<nat>): State
    requires l < |s.locks|
  {
    s.(locks := s.locks[l := s.locks[l].(inner := inner)])
  }

  // wakeup1(lk): every process sleeping on l becomes runnable.
  function Woken(procs: seq<Proc>, l: nat): seq<Proc> {
    seq(|procs|, i requires 0 <= i < |procs| =>
      if procs[i].state == SLEEPING && procs[i].chan == Some(l) then procs[i].(state := RUNNABLE) else procs[i])
  }

  // The next step of process p in each routine; the state is unchanged while p
  // spins on a lock.
  function AcquireStep(s: State, p: nat): State
    requires p < |s.procs| && (s.procs[p].pc != Idle ==> s.procs[p].pc.l < |s.locks|)
  {
    var me := s.procs[p];
    match me.pc
    case AcqEnter(l) => if s.locks[l].inner == None then WithInner(At(s, p, AcqTest(l)), l, Some(p)) else s
    case AcqTest(l) =>
      if s.locks[l].locked then At(s, p, SlpEnter(l))
      else s.(locks := s.locks[l := s.locks[l].(locked := true, pid := Some(p))],
              procs := s.procs[p := me.(pc := AcqLeave(l), held := me.held + {l})])
    case AcqLeave(l) => WithInner(At(s, p, Idle), l, None)
    case _ => s
  }

  function SleepStep(s: State, p: nat): State
    requires p < |s.procs| && (s.procs[p].pc != Idle ==> s.procs[p].pc.l < |s.locks|)
  {
    var me := s.procs[p];
    match me.pc
    case SlpEnter(l) => if s.ptable == Free then At(s, p, SlpRelease(l)).(ptable := ByProc(p)) else s
    case SlpRelease(l) => WithInner(At(s, p, SlpMark(l)), l, None)
    case SlpMark(l) => s.(procs := s.procs[p := me.(pc := SlpSched(l), state := SLEEPING, chan := Some(l))])
    case SlpSched(l) => At(s, p, SlpWait(l)).(ptable := ByScheduler)
    case SlpTidy(l) => s.(procs := s.procs[p := me.(pc := SlpUnlock(l), chan := None)])
    case SlpUnlock(l) => At(s, p, SlpReacquire(l)).(ptable := Free)
    case SlpReacquire(l) => if s.locks[l].inner == None then WithInner(At(s, p, AcqTest(l)), l, Some(p)) else s
    case _ => s
  }

  function ReleaseStep(s: State, p: nat): State
    requires p < |s.procs| && (s.procs[p].pc != Idle ==> s.procs[p].pc.l < |s.locks|)
  {
    var me := s.procs[p];
    match me.pc
    case RelEnter(l) => if s.locks[l].inner == None then WithInner(At(s, p, RelClear(l)), l, Some(p)) else s
    case RelClear(l) =>
      s.(locks := s.locks[l := s.locks[l].(locked := false, pid := None)],
         procs := s.procs[p := me.(pc := RelWakeup(l), held := me.held - {l})])
    case RelWakeup(l) => if s.ptable == Free then At(s, p, RelWake1(l)).(ptable := ByProc(p)) else s
    case RelWake1(l) => At(s.(procs := Woken(s.procs, l)), p, RelUnlock(l))
    case RelUnlock(l) => At(s, p, RelLeave(l)).(ptable := Free)
    case RelLeave(l) => WithInner(At(s, p, Idle), l, None)
    case _ => s
  }

  // sched() is entered with state SLEEPING, so that one step runs off the RUNNING state.
  predicate CanRun(s: State, p: nat) {
    && p < |s.procs| && (s.procs[p].state == RUNNING || s.procs[p].pc.SlpSched?)
    && (s.procs[p].pc != Idle ==> s.procs[p].pc.l < |s.locks|)
  }

  ghost predicate Next(s: State, step: Step, s': State) {
    match step
    case Call(p, l, release) =>
      // a process releases only sleep-locks it holds
      && Running(s, p) && s.procs[p].pc == Idle && l < |s.locks|
      && (release ==> l in s.procs[p].held)
      && s' == At(s, p, if release then RelEnter(l) else AcqEnter(l))
    case Acquire(p) => CanRun(s, p) && s' == AcquireStep(s, p)
    case Sleep(p) => CanRun(s, p) && s' == SleepStep(s, p)
    case Release(p) => CanRun(s, p) && s' == ReleaseStep(s, p)
    case SchedulerAcquire => s.ptable == Free && s' == s.(ptable := ByScheduler)
    case SchedulerRelease => s.ptable == ByScheduler && s' == s.(ptable := Free)
    case Dispatch(p) =>
      && s.ptable == ByScheduler && p < |s.procs| && s.procs[p].state == RUNNABLE && s.procs[p].pc.SlpWait?
      && s' == s.(ptable := ByProc(p),
                  procs := s.procs[p := s.procs[p].(state := RUNNING, pc := SlpTidy(s.procs[p].pc.l))])
    case Kill(p) =>
      && s.ptable == Free && p < |s.procs|
      && var state := if s.procs[p].state == SLEEPING then RUNNABLE else s.procs[p].state;
      s' == s.(procs := s.procs[p := s.procs[p].(killed := true, state := state)])
  }

  ghost predicate Init(s: State) {
    && s.ptable == Free
    && (forall p :: 0 <= p < |s.procs| ==> s.procs[p] == Proc(Idle, RUNNING, None, s.procs[p].killed, {}))
    && (forall l :: 0 <= l < |s.locks| ==> s.locks[l] == Lock(None, false, None))
  }

  // ---- the invariant ----

  // Program points at which a process holds ptable.lock, or the inner spinlock of l.
  predicate HoldsPtable(pc: Pc) {
    pc.SlpRelease? || pc.SlpMark? || pc.SlpSched? || pc.SlpTidy? || pc.SlpUnlock? || pc.RelWake1? || pc.RelUnlock?
  }

  predicate HoldsInner(pc: Pc, l: nat) {
    && (pc.AcqTest? || pc.AcqLeave? || pc.SlpEnter? || pc.SlpRelease? ||
        pc.RelClear? || pc.RelWakeup? || pc.RelWake1? || pc.RelUnlock? || pc.RelLeave?)
    && pc.l == l
  }

  // p is asleep on l, or has given up the inner lock in order to be.
  predicate Committed(m: Proc, l: nat) {
    m.pc == SlpMark(l) || m.pc == SlpSched(l) || (m.pc == SlpWait(l) && m.state == SLEEPING)
  }

  // The holder of l's inner lock has cleared `locked` and is yet to run wakeup1.
  predicate WakeupPending(s: State, l: nat)
    requires l < |s.locks|
  {
    && s.locks[l].inner.Some? && s.locks[l].inner.value < |s.procs|
    && var pc := s.procs[s.locks[l].inner.value].pc;
    pc == RelWakeup(l) || pc == RelWake1(l)
  }

  // What each process's fields say about where it is.
  ghost predicate ProcOk(s: State, p: nat)
    requires p < |s.procs|
  {
    var m := s.procs[p];
    && (m.pc != Idle ==> m.pc.l < |s.locks|)
    && (m.state == SLEEPING ==> (m.pc.SlpSched? || m.pc.SlpWait?) && m.chan == Some(m.pc.l))
    && (m.state == RUNNABLE ==> m.pc.SlpWait?)
    && (m.pc.SlpSched? ==> m.state == SLEEPING)
    && (m.pc.SlpWait? ==> m.state != RUNNING)
    && (HoldsPtable(m.pc) <==> s.ptable == ByProc(p))
    && (m.pc.AcqLeave? || m.pc.RelEnter? || m.pc.RelClear? ==> m.pc.l in m.held)
    && (m.pc.SlpEnter? || m.pc.SlpRelease? ==> s.locks[m.pc.l].locked)
    && (m.pc.RelWakeup? || m.pc.RelWake1? || m.pc.RelUnlock? || m.pc.RelLeave? ==> m.pc.l !in m.held)
  }

  ghost predicate PairOk(s: State, p: nat, l: nat)
    requires p < |s.procs| && l < |s.locks|
  {
    && (HoldsInner(s.procs[p].pc, l) <==> s.locks[l].inner == Some(p))
    && (l in s.procs[p].held <==> s.locks[l].locked && s.locks[l].pid == Some(p))
    && (Committed(s.procs[p], l) ==> s.locks[l].locked || WakeupPending(s, l))
  }

  ghost predicate Inv(s: State) {
    && (forall p :: 0 <= p < |s.procs| ==> ProcOk(s, p))
    && (forall p, l :: 0 <= p < |s.procs| && 0 <= l < |s.locks| ==> PairOk(s, p, l))
    && (forall l :: 0 <= l < |s.locks| && s.locks[l].inner.Some? ==> s.locks[l].inner.value < |s.procs|)
  }

  // ---- every step keeps it ----

  lemma StepKeepsShape(s: State, step: Step, s': State)
    requires Inv(s) && Next(s, step, s')
    ensures |s'.procs| == |s.procs| && |s'.locks| == |s.locks|
    ensures forall l :: 0 <= l < |s'.locks| && s'.locks[l].inner.Some? ==> s'.locks[l].inner.value < |s'.procs|
  {
  }

  // What is known of p, q and l before a step by p, and what is to hold of q and l after.
  ghost predicate Before(s: State, p: nat, q: nat, l: nat) {
    && p < |s.procs| && q < |s.procs| && l < |s.locks| && CanRun(s, p)
    && ProcOk(s, p) && ProcOk(s, q) && PairOk(s, p, l) && PairOk(s, q, l)
  }

  ghost predicate After(s: State, s': State, q: nat, l: nat) {
    && q < |s'.procs| == |s.procs| && l < |s'.locks| == |s.locks|
    && PairOk(s', q, l) && (s.procs[q].pc == Idle || s.procs[q].pc.l == l ==> ProcOk(s', q))
  }

  // acquiresleep, one program point at a time

  lemma AcqEnterKeeps(s: State, p: nat, q: nat, l: nat)
    requires Before(s, p, q, l) && s.procs[p].pc.AcqEnter?
    ensures After(s, AcquireStep(s, p), q, l)
  {
  }

  lemma AcqTestKeeps(s: State, p: nat, q: nat, l: nat)
    requires Before(s, p, q, l) && s.procs[p].pc.AcqTest?
    ensures After(s, AcquireStep(s, p), q, l)
  {
  }

  lemma AcqLeaveKeeps(s: State, p: nat, q: nat, l: nat)
    requires Before(s, p, q, l) && s.procs[p].pc.AcqLeave?
    ensures After(s, AcquireStep(s, p), q, l)
  {
  }

  lemma AcquireKeeps(s: State, p: nat, q: nat, l: nat)
    requires Before(s, p, q, l)
    ensures After(s, AcquireStep(s, p), q, l)
  {
    match s.procs[p].pc
    case AcqEnter(_) => AcqEnterKeeps(s, p, q, l);
    case AcqTest(_) => AcqTestKeeps(s, p, q, l);
    case AcqLeave(_) => AcqLeaveKeeps(s, p, q, l);
    case _ =>
  }

  // sleep, one program point at a time

  lemma SlpEnterKeeps(s: State, p: nat, q: nat, l: nat)
    requires Before(s, p, q, l) && s.procs[p].pc.SlpEnter?
    ensures After(s, SleepStep(s, p), q, l)
  {
  }

  lemma SlpReleaseKeeps(s: State, p: nat, q: nat, l: nat)
    requires Before(s, p, q, l) && s.procs[p].pc.SlpRelease?
    ensures After(s, SleepStep(s, p), q, l)
  {
  }

  lemma SlpMarkKeeps(s: State, p: nat, q: nat, l: nat)
    requires Before(s, p, q, l) && s.procs[p].pc.SlpMark?
    ensures After(s, SleepStep(s, p), q, l)
  {
  }

  lemma SlpSchedKeeps(s: State, p: nat, q: nat, l: nat)
    requires Before(s, p, q, l) && s.procs[p].pc.SlpSched?
    ensures After(s, SleepStep(s, p), q, l)
  {
  }

  lemma SlpTidyKeeps(s: State, p: nat, q: nat, l: nat)
    requires Before(s, p, q, l) && s.procs[p].pc.SlpTidy?
    ensures After(s, SleepStep(s, p), q, l)
  {
  }

  lemma SlpUnlockKeeps(s: State, p: nat, q: nat, l: nat)
    requires Before(s, p, q, l) && s.procs[p].pc.SlpUnlock?
    ensures After(s, SleepStep(s, p), q, l)
  {
  }

  lemma SlpReacquireKeeps(s: State, p: nat, q: nat, l: nat)
    requires Before(s, p, q, l) && s.procs[p].pc.SlpReacquire?
    ensures After(s, SleepStep(s, p), q, l)
  {
  }

  lemma SleepKeeps(s: State, p: nat, q: nat, l: nat)
    requires Before(s, p, q, l)
    ensures After(s, SleepStep(s, p), q, l)
  {
    match s.procs[p].pc
    case SlpEnter(_) => SlpEnterKeeps(s, p, q, l);
    case SlpRelease(_) => SlpReleaseKeeps(s, p, q, l);
    case SlpMark(_) => SlpMarkKeeps(s, p, q, l);
    case SlpSched(_) => SlpSchedKeeps(s, p, q, l);
    case SlpTidy(_) => SlpTidyKeeps(s, p, q, l);
    case SlpUnlock(_) => SlpUnlockKeeps(s, p, q, l);
    case SlpReacquire(_) => SlpReacquireKeeps(s, p, q, l);
    case _ =>
  }

  // releasesleep, one program point at a time

  lemma RelEnterKeeps(s: State, p: nat, q: nat, l: nat)
    requires Before(s, p, q, l) && s.procs[p].pc.RelEnter?
    ensures After(s, ReleaseStep(s, p), q, l)
  {
  }

  lemma RelClearKeeps(s: State, p: nat, q: nat, l: nat)
    requires Before(s, p, q, l) && s.procs[p].pc.RelClear?
    ensures After(s, ReleaseStep(s, p), q, l)
  {
  }

  lemma RelWakeupKeeps(s: State, p: nat, q: nat, l: nat)
    requires Before(s, p, q, l) && s.procs[p].pc.RelWakeup?
    ensures After(s, ReleaseStep(s, p), q, l)
  {
  }

  lemma RelWake1Keeps(s: State, p: nat, q: nat, l: nat)
    requires Before(s, p, q, l) && s.procs[p].pc.RelWake1?
    ensures After(s, ReleaseStep(s, p), q, l)
  {
  }

  lemma RelUnlockKeeps(s: State, p: nat, q: nat, l: nat)
    requires Before(s, p, q, l) && s.procs[p].pc.RelUnlock?
    ensures After(s, ReleaseStep(s, p), q, l)
  {
  }

  lemma RelLeaveKeeps(s: State, p: nat, q: nat, l: nat)
    requires Before(s, p, q, l) && s.procs[p].pc.RelLeave?
    ensures After(s, ReleaseStep(s, p), q, l)
  {
  }

  lemma ReleaseKeeps(s: State, p: nat, q: nat, l: nat)
    requires Before(s, p, q, l)
    ensures After(s, ReleaseStep(s, p), q, l)
  {
    match s.procs[p].pc
    case RelEnter(_) => RelEnterKeeps(s, p, q, l);
    case RelClear(_) => RelClearKeeps(s, p, q, l);
    case RelWakeup(_) => RelWakeupKeeps(s, p, q, l);
    case RelWake1(_) => RelWake1Keeps(s, p, q, l);
    case RelUnlock(_) => RelUnlockKeeps(s, p, q, l);
    case RelLeave(_) => RelLeaveKeeps(s, p, q, l);
    case _ =>
  }

  lemma OtherKeeps(s: State, step: Step, s': State, q: nat, l: nat)
    requires Next(s, step, s') && !step.Acquire? && !step.Sleep? && !step.Release?
    requires q < |s.procs| && l < |s.locks| && ProcOk(s, q) && PairOk(s, q, l)
    requires step.Call? || step.Dispatch? || step.Kill? ==> ProcOk(s, step.p) && PairOk(s, step.p, l)
    ensures |s'.procs| == |s.procs| && |s'.locks| == |s.locks| && ProcOk(s', q) && PairOk(s', q, l)
  {
  }

  lemma StepKeepsAt(s: State, step: Step, s': State, q: nat, l: nat)
    requires Inv(s) && Next(s, step, s') && q < |s.procs| && l < |s.locks|
    ensures |s'.procs| == |s.procs| && |s'.locks| == |s.locks| && PairOk(s', q, l)
    ensures s.procs[q].pc == Idle || s.procs[q].pc.l == l ==> ProcOk(s', q)
  {
    assert ProcOk(s, q) && PairOk(s, q, l);
    match step
    case Acquire(p) => assert ProcOk(s, p) && PairOk(s, p, l); AcquireKeeps(s, p, q, l);
    case Sleep(p) => assert ProcOk(s, p) && PairOk(s, p, l); SleepKeeps(s, p, q, l);
    case Release(p) => assert ProcOk(s, p) && PairOk(s, p, l); ReleaseKeeps(s, p, q, l);
    case _ => OtherKeeps(s, step, s', q, l);
  }

  lemma StepKeeps(s: State, step: Step, s': State)
    requires Inv(s) && Next(s, step, s')
    ensures Inv(s')
  {
    StepKeepsShape(s, step, s');
    forall q, l | 0 <= q < |s'.procs| && 0 <= l < |s'.locks| ensures PairOk(s', q, l) {
      StepKeepsAt(s, step, s', q, l);
    }
    forall q | 0 <= q < |s'.procs| ensures ProcOk(s', q) {
      assert ProcOk(s, q);
      if |s.locks| > 0 { StepKeepsAt(s, step, s', q, if s.procs[q].pc == Idle then 0 else s.procs[q].pc.l); }
    }
  }

  ghost predicate IsRun(run: seq<State>, steps: seq<Step>) {
    && |run| == |steps| + 1 && Init(run[0])
    && forall i :: 0 <= i < |steps| ==> NextAt(run, steps, i)
  }

  ghost predicate NextAt(run: seq<State>, steps: seq<Step>, i: nat)
    requires i < |steps| && i + 1 < |run|
  {
    Next(run[i], steps[i], run[i + 1])
  }

  lemma {:induction false} RunKeeps(run: seq<State>, steps: seq<Step>, i: nat)
    requires IsRun(run, steps) && i < |run|
    ensures Inv(run[i])
    decreases i
  {
    if i > 0 {
      RunKeeps(run, steps, i - 1);
      assert NextAt(run, steps, i - 1);
      StepKeeps(run[i - 1], steps[i - 1], run[i]);
    }
  }

  /** No lost wakeup: in every reachable state, when a sleep-lock's inner spinlock
      is free and the lock is not taken, no process sleeps on it. */
  lemma NoLostWakeup(run: seq<State>, steps: seq<Step>, i: nat, l: nat, p: nat)
    requires IsRun(run, steps) && i < |run| && l < |run[i].locks| && p < |run[i].procs|
    requires run[i].locks[l].inner == None && !run[i].locks[l].locked
    ensures !(run[i].procs[p].state == SLEEPING && run[i].procs[p].chan == Some(l))
  {
    RunKeeps(run, steps, i);
    assert ProcOk(run[i], p) && PairOk(run[i], p, l);
  }

  /** Mutual exclusion: a sleep-lock is held by at most one process, and what
      holdingsleep tests is exactly whether that process is the caller. */
  lemma HeldByOne(run: seq<State>, steps: seq<Step>, i: nat, l: nat, p: nat, q: nat)
    requires IsRun(run, steps) && i < |run| && l < |run[i].locks| && p < |run[i].procs| && q < |run[i].procs|
    requires l in run[i].procs[p].held
    ensures l in run[i].procs[q].held ==> p == q
    ensures l in run[i].procs[q].held <==> run[i].locks[l].locked && run[i].locks[l].pid == Some(q)
  {
    RunKeeps(run, steps, i);
    assert PairOk(run[i], p, l) && PairOk(run[i], q, l);
  }

  /** A sleeper always has someone to wake it: the lock is taken, or a process in
      releasesleep is about to run wakeup1. */
  lemma SleeperHasWaker(run: seq<State>, steps: seq<Step>, i: nat, l: nat, p: nat)
    requires IsRun(run, steps) && i < |run| && l < |run[i].locks| && p < |run[i].procs|
    requires run[i].procs[p].state == SLEEPING && run[i].procs[p].chan == Some(l)
    ensures run[i].locks[l].locked || WakeupPending(run[i], l)
  {
    RunKeeps(run, steps, i);
    assert ProcOk(run[i], p) && PairOk(run[i], p, l);
  }

  // ---- calls ----

  // p is inside acquiresleep(l), or inside releasesleep(l).
  predicate Acquiring(m: Proc, l: nat) {
    && m.pc != Idle && m.pc.l == l
    && !(m.pc.RelEnter? || m.pc.RelClear? || m.pc.RelWakeup? || m.pc.RelWake1? || m.pc.RelUnlock? || m.pc.RelLeave?)
  }

  predicate Releasing(m: Proc, l: nat) {
    && m.pc != Idle && m.pc.l == l
    && (m.pc.RelEnter? || m.pc.RelClear? || m.pc.RelWakeup? || m.pc.RelWake1? || m.pc.RelUnlock? || m.pc.RelLeave?)
  }

  // The lock is taken, and by p.
  predicate Holds(s: State, p: nat, l: nat) {
    p < |s.procs| && l < |s.locks| && l in s.procs[p].held && s.locks[l].locked && s.locks[l].pid == Some(p)
  }

  /** acquiresleep goes on until it returns, and it returns with the lock taken by the
      caller. */
  lemma AcquireReturns(run: seq<State>, steps: seq<Step>, i: nat, p: nat, l: nat)
    requires IsRun(run, steps) && i < |steps| && p < |run[i].procs| && Acquiring(run[i].procs[p], l)
    ensures p < |run[i + 1].procs|
    ensures Acquiring(run[i + 1].procs[p], l) || (run[i + 1].procs[p].pc == Idle && Holds(run[i + 1], p, l))
  {
    RunKeeps(run, steps, i);
    RunKeeps(run, steps, i + 1);
    assert NextAt(run, steps, i);
    assert ProcOk(run[i], p) && PairOk(run[i], p, l);
    StepKeepsShape(run[i], steps[i], run[i + 1]);
    assert PairOk(run[i + 1], p, l);
  }

  /** releasesleep goes on until it returns, and it returns with the lock given up by the
      caller. */
  lemma ReleaseReturns(run: seq<State>, steps: seq<Step>, i: nat, p: nat, l: nat)
    requires IsRun(run, steps) && i < |steps| && p < |run[i].procs| && Releasing(run[i].procs[p], l)
    ensures p < |run[i + 1].procs|
    ensures Releasing(run[i + 1].procs[p], l) || (run[i + 1].procs[p].pc == Idle && l !in run[i + 1].procs[p].held)
  {
    RunKeeps(run, steps, i);
    RunKeeps(run, steps, i + 1);
    assert NextAt(run, steps, i);
    assert ProcOk(run[i], p) && PairOk(run[i], p, l);
    StepKeepsShape(run[i], steps[i], run[i + 1]);
  }

  // The call of acquiresleep(l) by p returns with step j, and up to state i p has not called
  // releasesleep(l).
  ghost predicate Between(run: seq<State>, steps: seq<Step>, j: nat, i: nat, p: nat, l: nat) {
    && j < i < |run| && i <= |steps| && p < |run[j].procs| && p < |run[j + 1].procs|
    && Acquiring(run[j].procs[p], l) && run[j + 1].procs[p].pc == Idle
    && forall k :: j < k < i ==> steps[k] != Call(p, l, true)
  }

  // A lock once held stays so until its holder calls releasesleep.
  lemma HeldNext(run: seq<State>, steps: seq<Step>, i: nat, p: nat, l: nat)
    requires IsRun(run, steps) && i < |steps| && Holds(run[i], p, l) && !Releasing(run[i].procs[p], l)
    requires steps[i] != Call(p, l, true)
    ensures Holds(run[i + 1], p, l) && !Releasing(run[i + 1].procs[p], l)
  {
    RunKeeps(run, steps, i);
    RunKeeps(run, steps, i + 1);
    assert NextAt(run, steps, i);
    assert ProcOk(run[i], p) && PairOk(run[i], p, l);
    StepKeepsShape(run[i], steps[i], run[i + 1]);
    assert PairOk(run[i + 1], p, l);
  }

  lemma {:induction false} BetweenHolds(run: seq<State>, steps: seq<Step>, j: nat, i: nat, p: nat, l: nat)
    requires IsRun(run, steps) && Between(run, steps, j, i, p, l)
    ensures Holds(run[i], p, l) && !Releasing(run[i].procs[p], l)
    decreases i
  {
    if i == j + 1 {
      AcquireReturns(run, steps, j, p, l);
    } else {
      BetweenHolds(run, steps, j, i - 1, p, l);
      HeldNext(run, steps, i - 1, p, l);
    }
  }

  /** Mutual exclusion of calls: no two processes are both between a returned acquiresleep
      and their releasesleep of the same lock. */
  lemma OneBetween(run: seq<State>, steps: seq<Step>, i: nat, j: nat, p: nat, k: nat, q: nat, l: nat)
    requires IsRun(run, steps) && Between(run, steps, j, i, p, l) && Between(run, steps, k, i, q, l)
    ensures p == q
  {
    BetweenHolds(run, steps, j, i, p, l);
    BetweenHolds(run, steps, k, i, q, l);
  }

  /** A process that calls acquiresleep on a free lock, and is not disturbed, gets it. */
  lemma FreeLockIsTaken(s: State, p: nat, l: nat) returns (run: seq<State>, steps: seq<Step>)
    requires Inv(s) && Running(s, p) && s.procs[p].pc == Idle && l < |s.locks|
    requires s.locks[l].inner == None && !s.locks[l].locked
    ensures |run| == |steps| + 1 && run[0] == s && forall i :: 0 <= i < |steps| ==> NextAt(run, steps, i)
    ensures Holds(run[|steps|], p, l) && run[|steps|].procs[p].pc == Idle
  {
    var s1 := At(s, p, AcqEnter(l));
    var s2 := AcquireStep(s1, p);
    var s3 := AcquireStep(s2, p);
    var s4 := AcquireStep(s3, p);
    run, steps := [s, s1, s2, s3, s4], [Call(p, l, false), Acquire(p), Acquire(p), Acquire(p)];
  }
}
