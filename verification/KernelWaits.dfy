/** What a call of cond_wait() goes through (threads/synch.c), from its first step to
    its return, whatever the other threads do meanwhile. */
module KernelWaits {
  import opened Basics
  import opened KernelState
  import opened KernelInvariant
  import opened KernelRuns
  import opened KernelTheorems

  // ----- The two halves of a call

  /** Inside cond_wait(), from its first step to the one before its return. */
  predicate InCondWait(p: Pc) {
    || p.WaitRelease? || p.WaitUp? || p.WaitDown? || p.WaitAcquire?
    || (p.SetHolder? && p.wait.Some?)
    || (p.Test? && (p.after.Reacquire? || (p.after.Hold? && p.after.wait.Some?)))
  }

  /** Up to the point where the call consumes its signal. */
  predicate Awaiting(p: Pc, c: Cond, w: Ticket) {
    p == WaitRelease(c, w) || p == WaitUp(c, w) || p == WaitDown(c, w) || p == Test(WaiterSem(w), Reacquire(c, w))
  }

  /** From there on, while it acquires the lock l again. */
  predicate Returning(p: Pc, c: Cond, l: Lock) {
    p == WaitAcquire(c) || p == Test(LockSem(l), Hold(l, Some(c))) || p == SetHolder(l, Some(c))
  }

  /** Thread t is in the call w of cond_wait(c); once past its private semaphore, that
      has gone down. */
  ghost predicate InCall(s: State, t: Tid, c: Cond, w: Ticket) {
    && t in s.pc && c in s.lockOf && w < s.nextTicket && WaiterSem(w) in s.history
    && (|| Awaiting(s.pc[t], c, w)
        || (Returning(s.pc[t], c, s.lockOf[c]) && s.history[WaiterSem(w)].downs > 0))
  }

  /** Thread t is outside the primitives and holds the lock of condition c. */
  ghost predicate HasLockOf(s: State, t: Tid, c: Cond) {
    t in s.pc && s.pc[t].User? && c in s.lockOf && s.lockOf[c] in s.holder && s.holder[s.lockOf[c]] == Some(t)
  }

  /** The call has returned with the lock, after its private semaphore went down. */
  ghost predicate Returned(s: State, t: Tid, c: Cond, w: Ticket) {
    && HasLockOf(s, t, c)
    && WaiterSem(w) in s.history && s.history[WaiterSem(w)].downs > 0
  }

  // ----- One step

  /** The private semaphore of a call is only raised by a signal that popped it. */
  ghost predicate SemaKept(s: State, a: Step, r: State, w: Ticket)
    requires s.cur in s.pc && Enabled(s, a)
  {
    var m := WaiterSem(w);
    && r.lockOf == s.lockOf && s.nextTicket <= r.nextTicket
    && (m in s.history && w < s.nextTicket ==>
          && m in r.history && r.history[m].initial == s.history[m].initial && s.history[m].downs <= r.history[m].downs
          && r.history[m].ups == s.history[m].ups + if a.SignalUpStep? && s.pc[s.cur].ticket == w then 1 else 0)
  }

  /** Other threads do not move a thread, unless they unblock one that is parked. */
  ghost predicate Stays(s: State, r: State, t: Tid) {
    t in s.pc && t != s.cur && !s.pc[t].Parked? ==> t in r.pc && r.pc[t] == s.pc[t]
  }

  lemma {:induction false} ScheduleKeeps(s: State)
    requires s.cur in s.status
    ensures var r := Schedule(s);
            && r.history == s.history && r.lockOf == s.lockOf && r.nextTicket == s.nextTicket
            && (r.pc == s.pc || (s.status[s.cur].Dying? && r.pc == s.pc - {s.cur}))
  {
    assert s.pc - {} == s.pc;
  }

  /** r differs from s in none of what a call of cond_wait() depends on. */
  ghost predicate SameCalls(s: State, r: State) {
    r.pc == s.pc && r.history == s.history && r.lockOf == s.lockOf && r.nextTicket == s.nextTicket
  }

  lemma {:induction false} YieldKeeps(s: State)
    requires s.cur in s.status
    ensures SameCalls(s, Yield(s))
  {
    ScheduleKeeps(s.(ready := if s.cur != s.idle then s.ready + [s.cur] else s.ready,
                     status := s.status[s.cur := Ready]));
  }

  lemma {:induction false} TickKeeps(s: State)
    requires s.cur in s.status
    ensures SameCalls(s, Tick(s))
  {
    YieldKeeps(s.(ticks := s.ticks + 1));
  }

  lemma {:induction false} BlockKeeps(s: State, p: Pc)
    requires s.cur in s.status
    ensures SameCalls(s.(pc := s.pc[s.cur := p]), Block(s, p))
  {
    ScheduleKeeps(s.(status := s.status[s.cur := Blocked], pc := s.pc[s.cur := p]));
  }

  lemma {:induction false} TestKeeps(s: State, m: Sem, a: After)
    requires s.cur in s.status && s.cur in s.pc && IsSema(s, m)
    ensures var r := TestSema(s, m, a);
            && r.lockOf == s.lockOf && r.nextTicket == s.nextTicket
            && r.pc == s.pc[s.cur := if s.value[m] == 0 then Test(m, a) else Resume(a)]
            && r.history == if s.value[m] == 0 then s.history
                 else s.history[m := s.history[m].(downs := s.history[m].downs + 1)]
  {
    if s.value[m] == 0 {
      var q := s.(waiters := s.waiters[m := s.waiters[m] + [s.cur]], status := s.status[s.cur := Blocked],
        pc := s.pc[s.cur := Test(m, a)]);
      assert TestSema(s, m, a) == Schedule(q);
      ScheduleKeeps(q);
    }
  }

  lemma {:induction false} TestingKept(s: State, a: Step, w: Ticket, t: Tid)
    requires Sane(s) && Enabled(s, a) && TestsSema(a)
    ensures SemaKept(s, a, Apply(s, a), w) && Stays(s, Apply(s, a), t)
  {
    var p := s.pc[s.cur];
    match a {
      case DownStep(m) => TestKeeps(s, m, Return);
      case RetryStep => TestKeeps(s, p.sem, p.after);
      case AcquireStep(l) => TestKeeps(s, LockSem(l), Hold(l, None));
      case WaitDownStep => TestKeeps(s, WaiterSem(p.ticket), Reacquire(p.cond, p.ticket));
      case WaitAcquireStep => TestKeeps(s, LockSem(s.lockOf[p.cond]), Hold(s.lockOf[p.cond], Some(p.cond)));
    }
  }

  lemma {:induction false} PreemptKept(s: State, a: Step, w: Ticket, t: Tid)
    requires Sane(s) && Enabled(s, a) && (a.TickStep? || a.YieldStep? || a.ExitStep?)
    ensures SemaKept(s, a, Apply(s, a), w) && Stays(s, Apply(s, a), t)
  {
    match a {
      case TickStep => TickKeeps(s);
      case YieldStep => YieldKeeps(s);
      case ExitStep => ScheduleKeeps(s.(status := s.status[s.cur := Dying]));
    }
  }

  lemma {:induction false} BlockKept(s: State, a: Step, w: Ticket, t: Tid)
    requires Sane(s) && Enabled(s, a) && (a.IdleBlockStep? || a.ParkStep?)
    ensures SemaKept(s, a, Apply(s, a), w) && Stays(s, Apply(s, a), t)
  {
    BlockKeeps(s, if a.ParkStep? then Parked else IdleLoop);
  }

  lemma {:induction false} ReadyKept(s: State, a: Step, w: Ticket, t: Tid)
    requires Sane(s) && Enabled(s, a) && (a.CreateStep? || a.UnparkStep?)
    ensures SemaKept(s, a, Apply(s, a), w) && Stays(s, Apply(s, a), t)
  {
  }

  lemma {:induction false} LockKept(s: State, a: Step, w: Ticket, t: Tid)
    requires Sane(s) && Enabled(s, a)
    requires a.TryDownStep? || a.UpStep? || a.TryAcquireStep? || a.SetHolderStep? || a.ReleaseStep?
      || a.FinishReleaseStep?
    ensures SemaKept(s, a, Apply(s, a), w) && Stays(s, Apply(s, a), t)
  {
  }

  lemma {:induction false} CondKept(s: State, a: Step, w: Ticket, t: Tid)
    requires Sane(s) && Enabled(s, a) && (a.WaitStep? || a.WaitReleaseStep? || a.WaitUpStep?)
    ensures SemaKept(s, a, Apply(s, a), w) && Stays(s, Apply(s, a), t)
  {
  }

  lemma {:induction false} SignalKept(s: State, a: Step, w: Ticket, t: Tid)
    requires Sane(s) && Enabled(s, a) && (a.SignalStep? || a.SignalUpStep? || a.BroadcastStep? || a.BroadcastTestStep?)
    ensures SemaKept(s, a, Apply(s, a), w) && Stays(s, Apply(s, a), t)
  {
  }

  lemma {:induction false} StepKept(s: State, a: Step, w: Ticket, t: Tid)
    requires Sane(s) && Enabled(s, a)
    ensures SemaKept(s, a, Apply(s, a), w) && Stays(s, Apply(s, a), t)
  {
    if TestsSema(a) {
      TestingKept(s, a, w, t);
    } else if a.TickStep? || a.YieldStep? || a.ExitStep? {
      PreemptKept(s, a, w, t);
    } else if a.IdleBlockStep? || a.ParkStep? {
      BlockKept(s, a, w, t);
    } else if a.CreateStep? || a.UnparkStep? {
      ReadyKept(s, a, w, t);
    } else if a.WaitStep? || a.WaitReleaseStep? || a.WaitUpStep? {
      CondKept(s, a, w, t);
    } else if a.SignalStep? || a.SignalUpStep? || a.BroadcastStep? || a.BroadcastTestStep? {
      SignalKept(s, a, w, t);
    } else {
      LockKept(s, a, w, t);
    }
  }

  // ----- The thread's own steps

  /** Interrupts and preemption, which leave the running thread where it is. */
  predicate IsInterrupt(a: Step) {
    a.TryDownStep? || a.UpStep? || a.TickStep? || a.YieldStep? || a.UnparkStep?
  }

  lemma {:induction false} PreemptStays(s: State, a: Step)
    requires Sane(s) && Enabled(s, a) && (a.TickStep? || a.YieldStep?)
    ensures Apply(s, a).pc == s.pc
  {
    if a.TickStep? { TickKeeps(s); } else { YieldKeeps(s); }
  }

  lemma {:induction false} HandlerStays(s: State, a: Step)
    requires Sane(s) && Enabled(s, a) && (a.TryDownStep? || a.UpStep?)
    ensures Apply(s, a).pc == s.pc
  {
    if a.TryDownStep? { assert Apply(s, a) == TryDown(s, a.sem); } else { assert Apply(s, a) == SemaUp(s, a.sem); }
  }

  lemma {:induction false} UnparkStays(s: State, t: Tid)
    requires Sane(s) && Enabled(s, UnparkStep(t)) && !s.pc[s.cur].Parked?
    ensures s.cur in Apply(s, UnparkStep(t)).pc && Apply(s, UnparkStep(t)).pc[s.cur] == s.pc[s.cur]
  {
    assert s.cur != t;
  }

  lemma {:induction false} InterruptStays(s: State, a: Step)
    requires Sane(s) && Enabled(s, a) && IsInterrupt(a) && !s.pc[s.cur].Parked?
    ensures s.cur in Apply(s, a).pc && Apply(s, a).pc[s.cur] == s.pc[s.cur]
  {
    if a.TickStep? || a.YieldStep? {
      PreemptStays(s, a);
    } else if a.UnparkStep? {
      UnparkStays(s, a.tid);
    } else {
      HandlerStays(s, a);
    }
  }

  /** A call goes on waiting until it passes its private semaphore. */
  lemma {:induction false} AwaitingMoves(s: State, a: Step, c: Cond, w: Ticket)
    requires Sane(s) && Enabled(s, a) && Awaiting(s.pc[s.cur], c, w) && WaiterSem(w) in s.history
    ensures var r := Apply(s, a);
            && s.cur in r.pc
            && (|| Awaiting(r.pc[s.cur], c, w)
                || (r.pc[s.cur] == WaitAcquire(c) && WaiterSem(w) in r.history && r.history[WaiterSem(w)].downs > 0))
  {
    if IsInterrupt(a) {
      InterruptStays(s, a);
    } else {
      match s.pc[s.cur] {
        case WaitRelease(_, _) => assert a == WaitReleaseStep;
        case WaitUp(_, _) => assert a == WaitUpStep;
        case WaitDown(_, _) =>
          assert a == WaitDownStep;
          TestKeeps(s, WaiterSem(w), Reacquire(c, w));
        case Test(_, _) =>
          assert a == RetryStep;
          TestKeeps(s, WaiterSem(w), Reacquire(c, w));
      }
    }
  }

  /** Then it goes on to take the lock, until it holds it. */
  lemma {:induction false} ReturningMoves(s: State, a: Step, c: Cond)
    requires Sane(s) && Enabled(s, a) && c in s.lockOf && Returning(s.pc[s.cur], c, s.lockOf[c])
    ensures var r := Apply(s, a);
            && s.cur in r.pc
            && (|| Returning(r.pc[s.cur], c, s.lockOf[c])
                || (r.pc[s.cur].User? && r.holder == s.holder[s.lockOf[c] := Some(s.cur)]))
  {
    var l := s.lockOf[c];
    if IsInterrupt(a) {
      InterruptStays(s, a);
    } else {
      match s.pc[s.cur] {
        case WaitAcquire(_) =>
          assert a == WaitAcquireStep;
          TestKeeps(s, LockSem(l), Hold(l, Some(c)));
        case Test(_, _) =>
          assert a == RetryStep;
          TestKeeps(s, LockSem(l), Hold(l, Some(c)));
        case SetHolder(_, _) => assert a == SetHolderStep;
      }
    }
  }

  /** The step of another thread leaves a call where it is. */
  lemma {:induction false} CallStays(s: State, a: Step, r: State, t: Tid, c: Cond, w: Ticket)
    requires s.cur in s.pc && Enabled(s, a) && InCall(s, t, c, w) && t != s.cur
    requires SemaKept(s, a, r, w) && Stays(s, r, t)
    ensures InCall(r, t, c, w)
  {
  }

  lemma {:induction false} CallMoves(s: State, a: Step, t: Tid, c: Cond, w: Ticket)
    requires Sane(s) && Enabled(s, a) && InCall(s, t, c, w)
    ensures InCall(Apply(s, a), t, c, w) || Returned(Apply(s, a), t, c, w)
  {
    StepKept(s, a, w, t);
    if t == s.cur && Awaiting(s.pc[t], c, w) {
      AwaitingMoves(s, a, c, w);
    } else if t == s.cur {
      ReturningMoves(s, a, c);
    } else {
      CallStays(s, a, Apply(s, a), t, c, w);
    }
  }

  // ----- Whole calls

  ghost predicate Inside(s: State, t: Tid) {
    t in s.pc && InCondWait(s.pc[t])
  }

  lemma {:induction false} RunStep(ss: seq<State>, acts: seq<Step>, i: nat)
    requires IsRun(ss, acts) && i < |acts|
    ensures Sane(ss[i]) && Enabled(ss[i], acts[i]) && ss[i + 1] == Apply(ss[i], acts[i])
  {
    assert Follows(ss[i], acts[i], ss[i + 1]);
    RunInv(ss, acts, i);
    InvSane(ss[i]);
  }

  /** A private semaphore that has gone down has gone up before. */
  lemma {:induction false} DownAfterUp(ss: seq<State>, acts: seq<Step>, i: nat, m: Sem)
    requires IsRun(ss, acts) && i < |ss| && m in ss[i].history && ss[i].history[m].initial == 0
      && ss[i].history[m].downs > 0
    ensures ss[i].history[m].ups > 0
  {
    RunInv(ss, acts, i);
    assert m in ss[i].value;
  }

  lemma {:induction false} EntersCall(s: State, c: Cond)
    requires Sane(s) && Enabled(s, WaitStep(c))
    ensures var r := Apply(s, WaitStep(c));
            InCall(r, s.cur, c, s.nextTicket) && r.history[WaiterSem(s.nextTicket)] == History(0, 0, 0)
  {
  }

  lemma {:induction false} FirstInCall(ss: seq<State>, acts: seq<Step>, i: nat, c: Cond)
    requires IsRun(ss, acts) && i < |acts| && acts[i] == WaitStep(c)
    ensures var w := ss[i].nextTicket;
            InCall(ss[i + 1], ss[i].cur, c, w) && ss[i + 1].history[WaiterSem(w)] == History(0, 0, 0)
  {
    RunStep(ss, acts, i);
    EntersCall(ss[i], c);
  }

  lemma {:induction false} NextInCall(ss: seq<State>, acts: seq<Step>, i: nat, t: Tid, c: Cond, w: Ticket)
    requires IsRun(ss, acts) && i < |acts| && InCall(ss[i], t, c, w)
    ensures InCall(ss[i + 1], t, c, w) || Returned(ss[i + 1], t, c, w)
  {
    RunStep(ss, acts, i);
    CallMoves(ss[i], acts[i], t, c, w);
  }

  /** The call that a thread makes by step i goes on in state j, if it has gone on so far. */
  lemma {:induction false} StillInCall(ss: seq<State>, acts: seq<Step>, i: nat, j: nat, c: Cond)
    requires IsRun(ss, acts) && i < j <= |acts| && acts[i] == WaitStep(c)
    requires forall n :: i < n < j ==> Inside(ss[n], ss[i].cur)
    ensures InCall(ss[j], ss[i].cur, c, ss[i].nextTicket) || Returned(ss[j], ss[i].cur, c, ss[i].nextTicket)
  {
    if j == i + 1 {
      FirstInCall(ss, acts, i, c);
    } else {
      StillInCall(ss, acts, i, j - 1, c);
      assert Inside(ss[j - 1], ss[i].cur);
      NextInCall(ss, acts, j - 1, ss[i].cur, c, ss[i].nextTicket);
    }
  }

  /** The running thread raises the private semaphore of call w. */
  ghost predicate Signals(s: State, a: Step, w: Ticket) {
    a == SignalUpStep && s.cur in s.pc && IsSignalUp(s.pc[s.cur], w)
  }

  /** Only a signal raises the private semaphore of a call. */
  ghost predicate OnlySignalled(s: State, a: Step, r: State, w: Ticket) {
    var m := WaiterSem(w);
    w < s.nextTicket && m in s.history ==>
      && w < r.nextTicket && m in r.history && r.history[m].initial == s.history[m].initial
      && (r.history[m].ups == s.history[m].ups || Signals(s, a, w))
  }

  lemma {:induction false} RunKept(ss: seq<State>, acts: seq<Step>, i: nat, w: Ticket)
    requires IsRun(ss, acts) && i < |acts|
    ensures OnlySignalled(ss[i], acts[i], ss[i + 1], w)
  {
    RunStep(ss, acts, i);
    StepKept(ss[i], acts[i], w, 0);
  }

  /** If the private semaphore of a call has gone up, a signal did it. */
  lemma {:induction false} SignalledBy(ss: seq<State>, acts: seq<Step>, i: nat, j: nat, w: Ticket) returns (k: nat)
    requires |ss| == |acts| + 1 && i <= j < |ss| && w < ss[i].nextTicket
    requires forall n :: i <= n < j ==> OnlySignalled(ss[n], acts[n], ss[n + 1], w)
    requires WaiterSem(w) in ss[i].history && ss[i].history[WaiterSem(w)] == History(0, 0, 0)
    ensures WaiterSem(w) in ss[j].history && w < ss[j].nextTicket && ss[j].history[WaiterSem(w)].initial == 0
    ensures ss[j].history[WaiterSem(w)].ups > 0 ==> i <= k < j && Signals(ss[k], acts[k], w)
  {
    k := 0;
    if i < j {
      k := SignalledBy(ss, acts, i, j - 1, w);
      assert OnlySignalled(ss[j - 1], acts[j - 1], ss[j - 1 + 1], w);
      if ss[j - 1].history[WaiterSem(w)].ups == 0 { k := j - 1; }
    }
  }

  lemma {:induction false} RunSignalledBy(ss: seq<State>, acts: seq<Step>, i: nat, j: nat, w: Ticket) returns (k: nat)
    requires IsRun(ss, acts) && i <= j < |ss| && w < ss[i].nextTicket
    requires WaiterSem(w) in ss[i].history && ss[i].history[WaiterSem(w)] == History(0, 0, 0)
    ensures WaiterSem(w) in ss[j].history && w < ss[j].nextTicket && ss[j].history[WaiterSem(w)].initial == 0
    ensures ss[j].history[WaiterSem(w)].ups > 0 ==> i <= k < j && Signals(ss[k], acts[k], w)
  {
    forall n: nat | n < |acts| ensures OnlySignalled(ss[n], acts[n], ss[n + 1], w) { RunKept(ss, acts, n, w); }
    k := SignalledBy(ss, acts, i, j, w);
  }

  /** cond_wait() returns only after the call was signalled, and with the lock of its
      condition held: step i enters it, and state j + 1 is the first outside. */
  lemma {:induction false} WaitReturnsHolding(ss: seq<State>, acts: seq<Step>, i: nat, j: nat, c: Cond) returns (k: nat)
    requires IsRun(ss, acts) && i < j < |acts| && acts[i] == WaitStep(c)
    requires (forall n :: i < n <= j ==> Inside(ss[n], ss[i].cur)) && !Inside(ss[j + 1], ss[i].cur)
    ensures HasLockOf(ss[j + 1], ss[i].cur, c)
    ensures i < k <= j && Signals(ss[k], acts[k], ss[i].nextTicket)
  {
    var w := ss[i].nextTicket;
    StillInCall(ss, acts, i, j + 1, c);
    assert Returned(ss[j + 1], ss[i].cur, c, w);
    FirstInCall(ss, acts, i, c);
    k := RunSignalledBy(ss, acts, i + 1, j + 1, w);
    DownAfterUp(ss, acts, j + 1, WaiterSem(w));
  }
}
