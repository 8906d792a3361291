/** The process table of proc.c: fork, exit, wait, kill and the scheduler as
    atomic sections under ptable.lock.

    The functions on sequences say what each section does to the table; class
    Table holds the table in an array and runs the loops of proc.c; the step
    system at the end interleaves the sections of any number of processes. */
module Proc {
  const NONE: int := -1   // no process: a null parent or np

  datatype ProcState = UNUSED | EMBRYO | SLEEPING | RUNNABLE | RUNNING | ZOMBIE

  // What a process sleeps on: itself, inside wait, or anything else.
  datatype Chan = NoChan | OnProc(i: int) | OnOther(id: int)

  // np is fork's local variable: the slot that the process is filling in.
  datatype Proc = Proc(state: ProcState, pid: int, parent: int, chan: Chan, killed: bool, np: int)

  predicate Alive(p: Proc) {
    p.state == SLEEPING || p.state == RUNNABLE || p.state == RUNNING
  }

  // ---- the sections, on values ----

  function ChanOf(i: int): Chan {
    if i == NONE then NoChan else OnProc(i)
  }

  // wakeup1
  function WakeAll(ps: seq<Proc>, chan: Chan): seq<Proc> {
    seq(|ps|, i requires 0 <= i < |ps| =>
      if ps[i].state == SLEEPING && ps[i].chan == chan then ps[i].(state := RUNNABLE) else ps[i])
  }

  // The first k slots with their parent cur replaced by init.
  function Adopted(ps: seq<Proc>, cur: int, init: int, k: nat): seq<Proc> {
    seq(|ps|, i requires 0 <= i < |ps| =>
      if i < k && ps[i].parent == cur then ps[i].(parent := init) else ps[i])
  }

  ghost predicate ZombieChild(ps: seq<Proc>, cur: int, k: nat) {
    exists i :: 0 <= i < k && i < |ps| && ps[i].parent == cur && ps[i].state == ZOMBIE
  }

  ghost function AdoptedAndWoken(ps: seq<Proc>, cur: int, init: int, k: nat): seq<Proc> {
    if ZombieChild(ps, cur, k) then WakeAll(Adopted(ps, cur, init, k), OnProc(init)) else Adopted(ps, cur, init, k)
  }

  ghost function Exited(ps: seq<Proc>, cur: nat, init: int): seq<Proc>
    requires cur < |ps|
  {
    var ps1 := WakeAll(ps, ChanOf(ps[cur].parent));
    var ps2 := AdoptedAndWoken(ps1, cur, init, |ps|);
    ps2[cur := ps2[cur].(state := ZOMBIE)]
  }

  // Slot i is the first exited child of cur.
  ghost predicate FirstZombie(ps: seq<Proc>, cur: int, i: nat) {
    && i < |ps| && ps[i].parent == cur && ps[i].state == ZOMBIE
    && forall j :: 0 <= j < i ==> !(ps[j].parent == cur && ps[j].state == ZOMBIE)
  }

  ghost predicate HasKids(ps: seq<Proc>, cur: int) {
    exists i :: 0 <= i < |ps| && ps[i].parent == cur
  }

  function Reaped(ps: seq<Proc>, i: nat): seq<Proc>
    requires i < |ps|
  {
    ps[i := ps[i].(state := UNUSED, pid := 0, parent := NONE, killed := false)]
  }

  function Slept(ps: seq<Proc>, i: nat, chan: Chan): seq<Proc>
    requires i < |ps|
  {
    ps[i := ps[i].(state := SLEEPING, chan := chan)]
  }

  datatype WaitResult = Child(pid: int) | NoChildren | WentToSleep

  // One scan of wait by cur: reap an exited child, give up, or sleep.
  ghost predicate Waited(ps: seq<Proc>, cur: nat, r: WaitResult, ps': seq<Proc>)
    requires cur < |ps|
  {
    match r
    case Child(pid) => exists i: nat :: FirstZombie(ps, cur, i) && pid == ps[i].pid && ps' == Reaped(ps, i)
    case NoChildren => !ZombieChild(ps, cur, |ps|) && (!HasKids(ps, cur) || ps[cur].killed) && ps' == ps
    case WentToSleep =>
      && !ZombieChild(ps, cur, |ps|) && HasKids(ps, cur) && !ps[cur].killed
      && ps' == Slept(ps, cur, OnProc(cur))
  }

  ghost predicate FirstUnused(ps: seq<Proc>, i: nat) {
    i < |ps| && ps[i].state == UNUSED && forall j :: 0 <= j < i ==> ps[j].state != UNUSED
  }

  ghost predicate FirstPid(ps: seq<Proc>, pid: int, i: nat) {
    i < |ps| && ps[i].pid == pid && forall j :: 0 <= j < i ==> ps[j].pid != pid
  }

  function Killed(ps: seq<Proc>, i: nat): seq<Proc>
    requires i < |ps|
  {
    ps[i := ps[i].(killed := true, state := if ps[i].state == SLEEPING then RUNNABLE else ps[i].state)]
  }

  // ---- what the sections mean ----

  // A process asleep on one of these channels is runnable, and is otherwise as it was; any
  // other process is as it was.
  predicate Wakes(p: Proc, p': Proc, chans: set<Chan>) {
    if p.state == SLEEPING && p.chan in chans
    then p' == Proc(RUNNABLE, p.pid, p.parent, p.chan, p.killed, p.np)
    else p' == p
  }

  // After cur's exit: it is a zombie, its children are init's, no one is asleep on its
  // parent, nor on init if a child had exited, and nothing else has changed.
  ghost predicate ExitDone(ps: seq<Proc>, cur: nat, init: int, ps': seq<Proc>) {
    && cur < |ps| == |ps'| && ps'[cur].state == ZOMBIE
    && (forall i :: 0 <= i < |ps| ==> ps'[i].parent == if ps[i].parent == cur then init else ps[i].parent)
    && var chans := {ChanOf(ps[cur].parent)} + if ZombieChild(ps, cur, |ps|) then {OnProc(init)} else {};
    && (forall i :: 0 <= i < |ps| && i != cur ==> Wakes(ps[i].(parent := ps'[i].parent), ps'[i], chans))
    && (forall i :: 0 <= i < |ps| && ps'[i].state == SLEEPING ==> ps'[i].chan !in chans)
    && ps'[cur].pid == ps[cur].pid && ps'[cur].killed == ps[cur].killed
  }

  lemma ExitMeans(ps: seq<Proc>, cur: nat, init: int)
    requires cur < |ps|
    ensures ExitDone(ps, cur, init, Exited(ps, cur, init))
  {
    var ps' := Exited(ps, cur, init);
    var chans := {ChanOf(ps[cur].parent)} + if ZombieChild(ps, cur, |ps|) then {OnProc(init)} else {};
    forall i: nat | i < |ps|
      ensures ps'[i].parent == if ps[i].parent == cur then init else ps[i].parent
      ensures if i == cur then ps'[i] == ps[i].(parent := ps'[i].parent, state := ZOMBIE)
              else Wakes(ps[i].(parent := ps'[i].parent), ps'[i], chans)
    {
      ExitedIs(ps, cur, init, i);
    }
  }

  // Slot i held the exited child pid of cur; it is unused again and no other slot changed.
  ghost predicate ReapedAt(ps: seq<Proc>, cur: nat, i: nat, pid: int, ps': seq<Proc>) {
    && i < |ps| == |ps'| && ps[i].state == ZOMBIE && ps[i].parent == cur && ps[i].pid == pid
    && ps'[i].state == UNUSED && ps'[i].pid == 0 && ps'[i].parent == NONE && !ps'[i].killed
    && forall j :: 0 <= j < |ps| && j != i ==> ps'[j] == ps[j]
  }

  // Slot i, the first with pid, is marked killed and not asleep; its other fields and all
  // other slots are as they were.
  ghost predicate KilledAt(ps: seq<Proc>, pid: int, i: nat, ps': seq<Proc>) {
    && i < |ps| == |ps'| && ps[i].pid == pid && (forall j :: 0 <= j < i ==> ps[j].pid != pid)
    && ps'[i] == Proc(if ps[i].state == SLEEPING then RUNNABLE else ps[i].state,
                      pid, ps[i].parent, ps[i].chan, true, ps[i].np)
    && forall j :: 0 <= j < |ps| && j != i ==> ps'[j] == ps[j]
  }

  // ---- proc.c's loops ----

  class Table {
    const procs: array<Proc>
    const initproc: int
    var nextpid: int

    constructor (n: nat, init: int)
      ensures procs.Length == n && initproc == init && nextpid == 1 && fresh(procs)
      ensures forall i :: 0 <= i < n ==> procs[i] == Proc(UNUSED, 0, NONE, NoChan, false, NONE)
    {
      procs := new Proc[n](_ => Proc(UNUSED, 0, NONE, NoChan, false, NONE));
      initproc := init;
      nextpid := 1;
    }

    // wakeup1: no process is left asleep on chan, those that were are runnable, and no other
    // field of any process changes.
    method Wakeup1(chan: Chan)
      modifies procs
      ensures procs[..] == WakeAll(old(procs[..]), chan)
      ensures forall i :: 0 <= i < procs.Length ==> !(procs[i].state == SLEEPING && procs[i].chan == chan)
      ensures forall i :: 0 <= i < procs.Length ==> Wakes(old(procs[i]), procs[i], {chan})
    {
      for i := 0 to procs.Length
        invariant forall j :: 0 <= j < i ==> procs[j] == WakeAll(old(procs[..]), chan)[j]
        invariant forall j :: i <= j < procs.Length ==> procs[j] == old(procs[j])
      {
        if procs[i].state == SLEEPING && procs[i].chan == chan {
          procs[i] := procs[i].(state := RUNNABLE);
        }
      }
    }

    // allocproc's search.
    method AllocProc() returns (np: int)
      modifies procs, this`nextpid
      ensures np == NONE ==>
                && (forall i :: 0 <= i < procs.Length ==> procs[i].state != UNUSED)
                && procs[..] == old(procs[..]) && nextpid == old(nextpid)
      ensures np != NONE ==>
                && 0 <= np && FirstUnused(old(procs[..]), np) && nextpid == old(nextpid) + 1
                && procs[..] == old(procs[..])[np := old(procs[..])[np].(state := EMBRYO, pid := old(nextpid))]
    {
      np := 0;
      while np < procs.Length
        invariant 0 <= np <= procs.Length
        invariant procs[..] == old(procs[..]) && nextpid == old(nextpid)
        invariant forall j :: 0 <= j < np ==> procs[j].state != UNUSED
      {
        if procs[np].state == UNUSED {
          procs[np] := procs[np].(state := EMBRYO, pid := nextpid);
          nextpid := nextpid + 1;
          return;
        }
        np := np + 1;
      }
      np := NONE;
    }

    // exit: the test for init, then from acquiring ptable.lock to sched().
    method Exit(cur: nat) returns (panicked: bool)
      requires cur < procs.Length
      modifies procs
      ensures panicked <==> cur == initproc
      ensures procs[..] == if panicked then old(procs[..]) else Exited(old(procs[..]), cur, initproc)
      ensures !panicked ==> ExitDone(old(procs[..]), cur, initproc, procs[..])
    {
      if cur == initproc {
        return true;
      }
      Wakeup1(ChanOf(procs[cur].parent));
      ghost var ps1 := procs[..];
      for p := 0 to procs.Length
        invariant procs[..] == AdoptedAndWoken(ps1, cur, initproc, p)
      {
        if procs[p].parent == cur {
          procs[p] := procs[p].(parent := initproc);
          if procs[p].state == ZOMBIE {
            Wakeup1(OnProc(initproc));
          }
        }
      }
      procs[cur] := procs[cur].(state := ZOMBIE);
      ExitMeans(old(procs[..]), cur, initproc);
      return false;
    }

    // wait, from acquiring ptable.lock (or waking up with it) to releasing it.
    method Wait(cur: nat) returns (r: WaitResult)
      requires cur < procs.Length
      modifies procs
      ensures Waited(old(procs[..]), cur, r, procs[..])
      ensures r.Child? ==> exists i :: 0 <= i < procs.Length && ReapedAt(old(procs[..]), cur, i, r.pid, procs[..])
      ensures r == WentToSleep ==> procs[cur] == old(procs[cur]).(state := SLEEPING, chan := OnProc(cur))
    {
      var havekids := false;
      for p := 0 to procs.Length
        invariant procs[..] == old(procs[..])
        invariant !ZombieChild(procs[..], cur, p)
        invariant havekids <==> exists i :: 0 <= i < p && procs[..][i].parent == cur
      {
        if procs[p].parent == cur {
          havekids := true;
          if procs[p].state == ZOMBIE {
            r := Child(procs[p].pid);
            procs[p] := procs[p].(pid := 0, parent := NONE, killed := false, state := UNUSED);
            assert FirstZombie(old(procs[..]), cur, p);
            assert ReapedAt(old(procs[..]), cur, p, r.pid, procs[..]);
            return;
          }
        }
      }
      if !havekids || procs[cur].killed {
        return NoChildren;
      }
      procs[cur] := procs[cur].(chan := OnProc(cur), state := SLEEPING);
      return WentToSleep;
    }

    method Kill(pid: int) returns (r: int)
      modifies procs
      ensures r == 0 <==> exists i :: 0 <= i < procs.Length && old(procs[..])[i].pid == pid
      ensures r == 0 ==> exists i: nat :: FirstPid(old(procs[..]), pid, i) && procs[..] == Killed(old(procs[..]), i)
      ensures r == 0 ==> exists i :: 0 <= i < procs.Length && KilledAt(old(procs[..]), pid, i, procs[..])
      ensures r != 0 ==> r == -1 && procs[..] == old(procs[..])
    {
      for p := 0 to procs.Length
        invariant procs[..] == old(procs[..])
        invariant forall j :: 0 <= j < p ==> procs[j].pid != pid
      {
        if procs[p].pid == pid {
          procs[p] := procs[p].(killed := true);
          if procs[p].state == SLEEPING {
            procs[p] := procs[p].(state := RUNNABLE);
          }
          assert FirstPid(old(procs[..]), pid, p);
          assert procs[..] == Killed(old(procs[..]), p);
          assert KilledAt(old(procs[..]), pid, p, procs[..]);
          return 0;
        }
      }
      return -1;
    }
  }

  // ---- every interleaving of the sections ----

  datatype State = State(procs: seq<Proc>, nextpid: int, init: nat)

  datatype Step =
    | Alloc(p: nat, i: nat)     // fork: allocproc finds slot i
    | ForkFails(p: nat)         //   kalloc or copyuvm fails: the slot is given back
    | SetParent(p: nat)         //   the child's parent is set
    | ForkReady(p: nat)         //   the child becomes runnable
    | Exit(p: nat)
    | Wait(p: nat, r: WaitResult)
    | Sleep(p: nat, id: int)    // on anything but a process
    | Wakeup(id: int)
    | Kill(pid: int)
    | Yield(p: nat)
    | Dispatch(p: nat)          // the scheduler runs p; sleep() clears chan

  predicate Runs(s: State, p: nat) {
    p < |s.procs| && s.procs[p].state == RUNNING
  }

  // p runs and is not inside fork.
  predicate Outside(s: State, p: nat) {
    Runs(s, p) && s.procs[p].np == NONE
  }

  // p runs inside fork, past allocproc.
  predicate Forking(s: State, p: nat) {
    Runs(s, p) && 0 <= s.procs[p].np < |s.procs|
  }

  ghost predicate Next(s: State, step: Step, s': State) {
    match step
    case Alloc(p, i) =>
      && Outside(s, p) && FirstUnused(s.procs, i)
      && var ps := s.procs[p := s.procs[p].(np := i)];
      s' == s.(procs := ps[i := ps[i].(state := EMBRYO, pid := s.nextpid)], nextpid := s.nextpid + 1)
    case ForkFails(p) =>
      && Forking(s, p) && s.procs[s.procs[p].np].parent == NONE
      && var i := s.procs[p].np;
      && var ps := s.procs[p := s.procs[p].(np := NONE)];
      s' == s.(procs := ps[i := ps[i].(state := UNUSED)])
    case SetParent(p) =>
      && Forking(s, p)
      && var i := s.procs[p].np;
      s' == s.(procs := s.procs[i := s.procs[i].(parent := p)])
    case ForkReady(p) =>
      && Forking(s, p) && s.procs[s.procs[p].np].parent == p
      && var i := s.procs[p].np;
      && var ps := s.procs[p := s.procs[p].(np := NONE)];
      s' == s.(procs := ps[i := ps[i].(state := RUNNABLE)])
    case Exit(p) => Outside(s, p) && p != s.init && s' == s.(procs := Exited(s.procs, p, s.init))
    case Wait(p, r) => Outside(s, p) && Waited(s.procs, p, r, s'.procs) && s' == s.(procs := s'.procs)
    case Sleep(p, id) => Outside(s, p) && s' == s.(procs := Slept(s.procs, p, OnOther(id)))
    case Wakeup(id) => s' == s.(procs := WakeAll(s.procs, OnOther(id)))
    case Kill(pid) => exists i: nat :: FirstPid(s.procs, pid, i) && s' == s.(procs := Killed(s.procs, i))
    case Yield(p) => Runs(s, p) && s' == s.(procs := s.procs[p := s.procs[p].(state := RUNNABLE)])
    case Dispatch(p) =>
      && p < |s.procs| && s.procs[p].state == RUNNABLE
      && s' == s.(procs := s.procs[p := s.procs[p].(state := RUNNING, chan := NoChan)])
  }

  // After userinit: one runnable process, init, and unused slots.
  ghost predicate Init(s: State) {
    && s.init < |s.procs| && s.nextpid == 2
    && forall i :: 0 <= i < |s.procs| ==>
         s.procs[i] == if i == s.init then Proc(RUNNABLE, 1, NONE, NoChan, false, NONE)
                       else Proc(UNUSED, 0, NONE, NoChan, false, NONE)
  }

  // ---- the invariant ----

  // Slot i on its own and with its parent.
  ghost predicate SlotOk(s: State, i: nat)
    requires i < |s.procs| && s.init < |s.procs|
  {
    var p := s.procs[i];
    && (p.state == UNUSED ==> p.parent == NONE)
    && 0 <= p.pid < s.nextpid && (p.state != UNUSED ==> 1 <= p.pid)
    && (p.np != NONE ==> 0 <= p.np < |s.procs| && s.procs[p.np].state == EMBRYO && p.pid < s.procs[p.np].pid)
    && (p.np != NONE ==> p.state == RUNNING || p.state == RUNNABLE)
    && (p.chan.OnProc? && p.state == SLEEPING ==> p.chan.i == i)
    && (p.state == SLEEPING ==> p.chan != NoChan)
    && (p.state == EMBRYO ==> p.parent == NONE || (0 <= p.parent < |s.procs| && s.procs[p.parent].np == i))
    && (if i == s.init then Alive(p) && p.parent == NONE && p.pid == 1
        else Alive(p) || p.state == ZOMBIE ==>
               0 <= p.parent < |s.procs| && Alive(s.procs[p.parent]) && s.procs[p.parent].pid < p.pid)
  }

  // Two slots: distinct forks fill distinct slots, and a process asleep in wait
  // has no exited child.
  ghost predicate PairOk(s: State, i: nat, j: nat)
    requires i < |s.procs| && j < |s.procs|
  {
    && (i != j && s.procs[i].np != NONE ==> s.procs[i].np != s.procs[j].np)
    && (i != j && s.procs[i].pid != 0 ==> s.procs[i].pid != s.procs[j].pid)
    && !(s.procs[i].state == SLEEPING && s.procs[i].chan == OnProc(i) &&
         s.procs[j].parent == i && s.procs[j].state == ZOMBIE)
  }

  ghost predicate Inv(s: State) {
    && s.init < |s.procs| && 1 < s.nextpid
    && (forall i :: 0 <= i < |s.procs| ==> SlotOk(s, i))
    && (forall i, j :: 0 <= i < |s.procs| && 0 <= j < |s.procs| ==> PairOk(s, i, j))
  }

  // ---- each step keeps it: two slots at a time ----

  ghost predicate Both(s: State, i: nat, j: nat)
    requires i < |s.procs| && j < |s.procs| && s.init < |s.procs|
  {
    SlotOk(s, i) && SlotOk(s, j) && PairOk(s, i, j) && PairOk(s, j, i)
  }

  lemma AllocAt(s: State, p: nat, np: nat, s': State, i: nat, j: nat)
    requires s.init < |s.procs| && i < |s.procs| && j < |s.procs| && Next(s, Alloc(p, np), s')
    requires Both(s, i, j) && Both(s, i, p) && Both(s, j, p) && Both(s, i, np) && Both(s, j, np) && Both(s, p, np)
    requires 1 < s.nextpid
    ensures |s'.procs| == |s.procs| && s'.init == s.init && SlotOk(s', i) && PairOk(s', i, j)
  {
  }

  lemma ForkFailsAt(s: State, p: nat, s': State, i: nat, j: nat)
    requires s.init < |s.procs| && i < |s.procs| && j < |s.procs| && Next(s, ForkFails(p), s')
    requires Both(s, i, j) && Both(s, i, p) && Both(s, j, p)
    requires var np := s.procs[p].np; Both(s, i, np) && Both(s, j, np) && Both(s, p, np)
    ensures |s'.procs| == |s.procs| && s'.init == s.init && SlotOk(s', i) && PairOk(s', i, j)
  {
  }

  lemma SetParentAt(s: State, p: nat, s': State, i: nat, j: nat)
    requires s.init < |s.procs| && i < |s.procs| && j < |s.procs| && Next(s, SetParent(p), s')
    requires Both(s, i, j) && Both(s, i, p) && Both(s, j, p)
    requires var np := s.procs[p].np; Both(s, i, np) && Both(s, j, np) && Both(s, p, np)
    ensures |s'.procs| == |s.procs| && s'.init == s.init && SlotOk(s', i) && PairOk(s', i, j)
  {
  }

  lemma ForkReadyAt(s: State, p: nat, s': State, i: nat, j: nat)
    requires s.init < |s.procs| && i < |s.procs| && j < |s.procs| && Next(s, ForkReady(p), s')
    requires Both(s, i, j) && Both(s, i, p) && Both(s, j, p)
    requires var np := s.procs[p].np; Both(s, i, np) && Both(s, j, np) && Both(s, p, np)
    ensures |s'.procs| == |s.procs| && s'.init == s.init && SlotOk(s', i) && PairOk(s', i, j)
  {
  }

  // Exited, slot by slot.
  lemma ExitedIs(ps: seq<Proc>, cur: nat, init: int, i: nat)
    requires cur < |ps| && i < |ps|
    ensures |Exited(ps, cur, init)| == |ps|
    ensures var woken := ps[i].state == SLEEPING &&
                         (ps[i].chan == ChanOf(ps[cur].parent) ||
                           (ZombieChild(ps, cur, |ps|) && ps[i].chan == OnProc(init)));
            Exited(ps, cur, init)[i] ==
            ps[i].(parent := if ps[i].parent == cur then init else ps[i].parent,
                   state := if i == cur then ZOMBIE else if woken then RUNNABLE else ps[i].state)
  {
    var ps1 := WakeAll(ps, ChanOf(ps[cur].parent));
    assert ZombieChild(ps1, cur, |ps|) <==> ZombieChild(ps, cur, |ps|) by {
      assert forall k :: 0 <= k < |ps| ==>
        ps1[k].parent == ps[k].parent && (ps1[k].state == ZOMBIE <==> ps[k].state == ZOMBIE);
    }
  }

  lemma ExitAt(s: State, p: nat, s': State, i: nat, j: nat)
    requires s.init < |s.procs| && i < |s.procs| && j < |s.procs| && Next(s, Exit(p), s')
    requires Both(s, i, j) && Both(s, i, p) && Both(s, j, p) && Both(s, i, s.init) && Both(s, j, s.init) &&
      Both(s, p, s.init)
    requires 0 <= s.procs[i].parent < |s.procs| ==> Both(s, p, s.procs[i].parent)
    ensures |s'.procs| == |s.procs| && s'.init == s.init && SlotOk(s', i) && PairOk(s', i, j)
  {
    ExitedIs(s.procs, p, s.init, i);
    ExitedIs(s.procs, p, s.init, j);
    ExitedIs(s.procs, p, s.init, s.init);
    if 0 <= s.procs[i].parent < |s.procs| { ExitedIs(s.procs, p, s.init, s.procs[i].parent); }
    if 0 <= s.procs[i].np < |s.procs| { ExitedIs(s.procs, p, s.init, s.procs[i].np); }
    assert s.procs[j].parent == p && s.procs[j].state == ZOMBIE ==> ZombieChild(s.procs, p, |s.procs|);
  }

  lemma ReapAt(s: State, p: nat, c: nat, s': State, i: nat, j: nat)
    requires s.init < |s.procs| && i < |s.procs| && j < |s.procs| && Outside(s, p)
    requires FirstZombie(s.procs, p, c) && s' == s.(procs := Reaped(s.procs, c))
    requires Both(s, i, j) && Both(s, i, c) && Both(s, j, c)
    ensures SlotOk(s', i) && PairOk(s', i, j)
  {
  }

  lemma SleepAt(s: State, p: nat, chan: Chan, s': State, i: nat, j: nat)
    requires s.init < |s.procs| && i < |s.procs| && j < |s.procs| && Outside(s, p)
    requires s' == s.(procs := Slept(s.procs, p, chan))
    requires chan.OnOther? || (chan == OnProc(p) && !ZombieChild(s.procs, p, |s.procs|))
    requires Both(s, i, j) && Both(s, i, p) && Both(s, j, p)
    ensures SlotOk(s', i) && PairOk(s', i, j)
  {
  }

  lemma WakeAt(s: State, step: Step, s': State, i: nat, j: nat)
    requires s.init < |s.procs| && i < |s.procs| && j < |s.procs| && Next(s, step, s')
    requires step.Wakeup? || step.Kill?
    requires Both(s, i, j)
    ensures |s'.procs| == |s.procs| && s'.init == s.init && SlotOk(s', i) && PairOk(s', i, j)
  {
  }

  lemma OtherAt(s: State, step: Step, s': State, i: nat, j: nat)
    requires s.init < |s.procs| && i < |s.procs| && j < |s.procs| && Next(s, step, s')
    requires step.Yield? || step.Dispatch?
    requires Both(s, i, j)
    ensures |s'.procs| == |s.procs| && s'.init == s.init && SlotOk(s', i) && PairOk(s', i, j)
  {
  }

  lemma AllBoth(s: State)
    requires Inv(s)
    ensures forall i, j :: 0 <= i < |s.procs| && 0 <= j < |s.procs| ==> Both(s, i, j)
  {
  }

  lemma ForkKeepsAt(s: State, step: Step, s': State, i: nat, j: nat)
    requires Inv(s) && i < |s.procs| && j < |s.procs| && Next(s, step, s')
    requires step.Alloc? || step.ForkFails? || step.SetParent? || step.ForkReady?
    ensures |s'.procs| == |s.procs| && s'.init == s.init && SlotOk(s', i) && PairOk(s', i, j)
  {
    var p := step.p;
    var np := if step.Alloc? then step.i else s.procs[p].np;
    ForkPairs(s, i, j, p, np);
    match step
    case Alloc(_, _) => AllocAt(s, p, np, s', i, j);
    case ForkFails(_) => ForkFailsAt(s, p, s', i, j);
    case SetParent(_) => SetParentAt(s, p, s', i, j);
    case ForkReady(_) => ForkReadyAt(s, p, s', i, j);
  }

  lemma ForkPairs(s: State, i: nat, j: nat, p: nat, np: int)
    requires Inv(s) && i < |s.procs| && j < |s.procs| && p < |s.procs| && 0 <= np < |s.procs|
    ensures Both(s, i, j) && Both(s, i, p) && Both(s, j, p) && Both(s, i, np) && Both(s, j, np) && Both(s, p, np)
  {
    AllBoth(s);
  }

  lemma WaitKeepsAt(s: State, p: nat, r: WaitResult, s': State, i: nat, j: nat)
    requires Inv(s) && i < |s.procs| && j < |s.procs| && Next(s, Wait(p, r), s')
    ensures |s'.procs| == |s.procs| && s'.init == s.init && SlotOk(s', i) && PairOk(s', i, j)
  {
    assert Both(s, i, j) && Both(s, i, p) && Both(s, j, p);
    if r.Child? {
      var c: nat :| FirstZombie(s.procs, p, c) && s'.procs == Reaped(s.procs, c);
      assert Both(s, i, c) && Both(s, j, c);
      ReapAt(s, p, c, s', i, j);
    } else if r.WentToSleep? {
      SleepAt(s, p, OnProc(p), s', i, j);
    }
  }

  lemma StepKeepsAt(s: State, step: Step, s': State, i: nat, j: nat)
    requires Inv(s) && i < |s.procs| && j < |s.procs| && Next(s, step, s')
    ensures |s'.procs| == |s.procs| && s'.init == s.init && SlotOk(s', i) && PairOk(s', i, j)
  {
    assert Both(s, i, j);
    match step
    case Exit(p) =>
      AllBoth(s);
      assert 0 <= s.procs[i].parent < |s.procs| ==> Both(s, p, s.procs[i].parent);
      ExitAt(s, p, s', i, j);
    case Wait(p, r) => WaitKeepsAt(s, p, r, s', i, j);
    case Sleep(p, id) => assert Both(s, i, p) && Both(s, j, p); SleepAt(s, p, OnOther(id), s', i, j);
    case Wakeup(_) => WakeAt(s, step, s', i, j);
    case Kill(_) => WakeAt(s, step, s', i, j);
    case Yield(_) => OtherAt(s, step, s', i, j);
    case Dispatch(_) => OtherAt(s, step, s', i, j);
    case _ => ForkKeepsAt(s, step, s', i, j);
  }

  lemma StepKeeps(s: State, step: Step, s': State)
    requires Inv(s) && Next(s, step, s')
    ensures Inv(s')
  {
    AllBoth(s);
    StepKeepsAt(s, step, s', s.init, s.init);
    forall i | 0 <= i < |s'.procs| ensures SlotOk(s', i) { StepKeepsAt(s, step, s', i, i); }
    forall i, j | 0 <= i < |s'.procs| && 0 <= j < |s'.procs| ensures PairOk(s', i, j) {
      StepKeepsAt(s, step, s', i, j);
    }
  }

  ghost predicate IsRun(run: seq<State>, steps: seq<Step>) {
    && |run| == |steps| + 1 && Init(run[0])
    && forall k :: 0 <= k < |steps| ==> NextAt(run, steps, k)
  }

  ghost predicate NextAt(run: seq<State>, steps: seq<Step>, k: nat)
    requires k < |steps| && k + 1 < |run|
  {
    Next(run[k], steps[k], run[k + 1])
  }

  lemma {:induction false} RunKeeps(run: seq<State>, steps: seq<Step>, k: nat)
    requires IsRun(run, steps) && k < |run|
    ensures Inv(run[k])
    decreases k
  {
    if k > 0 {
      RunKeeps(run, steps, k - 1);
      assert NextAt(run, steps, k - 1);
      StepKeeps(run[k - 1], steps[k - 1], run[k]);
    }
  }

  /** No lost child exit: in every reachable state a process asleep in wait has no
      exited child, its own or one that init inherited. */
  lemma NoLostChildExit(run: seq<State>, steps: seq<Step>, k: nat, i: nat, c: nat)
    requires IsRun(run, steps) && k < |run| && i < |run[k].procs| && c < |run[k].procs|
    requires run[k].procs[i].state == SLEEPING && run[k].procs[i].chan == OnProc(i)
    ensures !(run[k].procs[c].parent == i && run[k].procs[c].state == ZOMBIE)
  {
    RunKeeps(run, steps, k);
    assert PairOk(run[k], i, c);
  }

  /** No orphans: the parent of a live or exited process, init aside, is alive. */
  lemma ParentsAreAlive(run: seq<State>, steps: seq<Step>, k: nat, i: nat)
    requires IsRun(run, steps) && k < |run| && i < |run[k].procs|
    requires Alive(run[k].procs[i]) || run[k].procs[i].state == ZOMBIE
    ensures run[k].init < |run[k].procs| && Alive(run[k].procs[run[k].init])
    ensures i != run[k].init ==>
      0 <= run[k].procs[i].parent < |run[k].procs| && Alive(run[k].procs[run[k].procs[i].parent])
  {
    RunKeeps(run, steps, k);
    assert SlotOk(run[k], i) && SlotOk(run[k], run[k].init);
  }

  // path leads from slot i to init, each slot the parent of the one before.
  ghost predicate Ancestry(s: State, i: nat, path: seq<nat>) {
    && s.init < |s.procs| && |path| > 0 && path[0] == i && path[|path| - 1] == s.init
    && (forall m :: 0 <= m < |path| ==> path[m] < |s.procs|)
    && forall m :: 0 <= m < |path| - 1 ==> s.procs[path[m]].parent == path[m + 1]
  }

  lemma {:induction false} AncestryFrom(s: State, i: nat) returns (path: seq<nat>)
    requires Inv(s) && i < |s.procs| && (Alive(s.procs[i]) || s.procs[i].state == ZOMBIE)
    ensures Ancestry(s, i, path)
    decreases s.procs[i].pid
  {
    if i == s.init {
      path := [i];
    } else {
      assert SlotOk(s, i);
      assert SlotOk(s, s.procs[i].parent);
      var rest := AncestryFrom(s, s.procs[i].parent);
      path := [i] + rest;
    }
  }

  /** The process tree: in every reachable state every live or exited process
      descends from init. */
  lemma EveryoneDescendsFromInit(run: seq<State>, steps: seq<Step>, k: nat, i: nat)
    requires IsRun(run, steps) && k < |run| && i < |run[k].procs|
    requires Alive(run[k].procs[i]) || run[k].procs[i].state == ZOMBIE
    ensures exists path :: Ancestry(run[k], i, path)
  {
    RunKeeps(run, steps, k);
    var path := AncestryFrom(run[k], i);
  }

  /** Process ids: no two slots in use share one. */
  lemma PidsAreUnique(run: seq<State>, steps: seq<Step>, k: nat, i: nat, j: nat)
    requires IsRun(run, steps) && k < |run| && i < |run[k].procs| && j < |run[k].procs| && i != j
    requires run[k].procs[i].state != UNUSED && run[k].procs[j].state != UNUSED
    ensures run[k].procs[i].pid != run[k].procs[j].pid
  {
    RunKeeps(run, steps, k);
    assert PairOk(run[k], i, j) && SlotOk(run[k], i);
  }

  /** wakeup on any channel leaves no process asleep on it, and does nothing else. */
  lemma WakeupLeavesNone(run: seq<State>, steps: seq<Step>, k: nat, id: int, i: nat)
    requires IsRun(run, steps) && k < |steps| && steps[k] == Wakeup(id) && i < |run[k].procs|
    ensures |run[k + 1].procs| == |run[k].procs| && Wakes(run[k].procs[i], run[k + 1].procs[i], {OnOther(id)})
    ensures !(run[k + 1].procs[i].state == SLEEPING && run[k + 1].procs[i].chan == OnOther(id))
  {
    assert NextAt(run, steps, k);
  }

  /** kill marks the one process with the pid, and leaves it awake. */
  lemma KillReaches(run: seq<State>, steps: seq<Step>, k: nat, pid: int, i: nat)
    requires IsRun(run, steps) && k < |steps| && steps[k] == Kill(pid)
    requires i < |run[k].procs| && run[k].procs[i].pid == pid != 0
    ensures KilledAt(run[k].procs, pid, i, run[k + 1].procs)
  {
    RunKeeps(run, steps, k);
    assert NextAt(run, steps, k);
    var j: nat :| FirstPid(run[k].procs, pid, j) && run[k + 1].procs == Killed(run[k].procs, j);
    assert PairOk(run[k], i, j);
  }

  // No step takes the mark from a process that keeps its slot.
  lemma KilledNext(run: seq<State>, steps: seq<Step>, k: nat, i: nat)
    requires IsRun(run, steps) && k < |steps| && i < |run[k].procs|
    requires run[k].procs[i].killed && run[k].procs[i].state != UNUSED
    ensures |run[k + 1].procs| == |run[k].procs| && steps[k] != Wait(i, WentToSleep)
    ensures run[k + 1].procs[i].killed || run[k + 1].procs[i].state == UNUSED
  {
    RunKeeps(run, steps, k);
    assert NextAt(run, steps, k);
  }

  /** A killed process stays marked until its slot is given back, and wait does not put it to
      sleep. */
  lemma {:induction false} KilledStays(run: seq<State>, steps: seq<Step>, a: nat, b: nat, i: nat)
    requires IsRun(run, steps) && a <= b < |run| && i < |run[a].procs| && run[a].procs[i].killed
    requires forall k :: a <= k <= b ==> i < |run[k].procs| && run[k].procs[i].state != UNUSED
    ensures run[b].procs[i].killed
    ensures b < |steps| ==> steps[b] != Wait(i, WentToSleep)
    decreases b
  {
    if a < b {
      KilledStays(run, steps, a, b - 1, i);
      KilledNext(run, steps, b - 1, i);
    }
    if b < |steps| {
      KilledNext(run, steps, b, i);
    }
  }

  /** A process asleep on anything but a process sleeps on until a wakeup of that channel or a
      kill of its pid. */
  lemma SleepsOn(run: seq<State>, steps: seq<Step>, k: nat, i: nat, id: int)
    requires IsRun(run, steps) && k < |steps| && i < |run[k].procs|
    requires run[k].procs[i].state == SLEEPING && run[k].procs[i].chan == OnOther(id)
    requires steps[k] != Wakeup(id) && steps[k] != Kill(run[k].procs[i].pid)
    ensures |run[k + 1].procs| == |run[k].procs|
    ensures run[k + 1].procs[i].state == SLEEPING && run[k + 1].procs[i].chan == OnOther(id)
  {
    RunKeeps(run, steps, k);
    assert NextAt(run, steps, k);
    if steps[k].ForkFails? || steps[k].SetParent? || steps[k].ForkReady? {
      assert SlotOk(run[k], steps[k].p);
    }
    if steps[k].Exit? {
      ExitMeans(run[k].procs, steps[k].p, run[k].init);
      assert Wakes(run[k].procs[i].(parent := run[k + 1].procs[i].parent), run[k + 1].procs[i],
        {ChanOf(run[k].procs[steps[k].p].parent)} +
        if ZombieChild(run[k].procs, steps[k].p, |run[k].procs|) then {OnProc(run[k].init)} else {});
    }
  }

  /** fork, where nothing goes wrong: the first unused slot i becomes a runnable process with
      the next pid and the caller as its parent, and no other slot changes. */
  lemma ForkMakesChild(s: State, p: nat, i: nat) returns (s1: State, s2: State, s3: State)
    requires Outside(s, p) && FirstUnused(s.procs, i)
    ensures Next(s, Alloc(p, i), s1) && Next(s1, SetParent(p), s2) && Next(s2, ForkReady(p), s3)
    ensures |s3.procs| == |s.procs| && s3.nextpid == s.nextpid + 1 && s3.init == s.init
    ensures s3.procs[i] ==
      Proc(RUNNABLE, s.nextpid, p, s.procs[i].chan, s.procs[i].killed, s.procs[i].np)
    ensures forall j :: 0 <= j < |s.procs| && j != i ==> s3.procs[j] == s.procs[j]
  {
    s1 := s.(procs := s.procs[p := s.procs[p].(np := i)][i := s.procs[i].(state := EMBRYO, pid := s.nextpid)],
      nextpid := s.nextpid + 1);
    s2 := s1.(procs := s1.procs[i := s1.procs[i].(parent := p)]);
    s3 := s2.(procs := s2.procs[p := s.procs[p]][i := s2.procs[i].(state := RUNNABLE)]);
  }
}
