/** The promises of threads/thread.c and threads/synch.c, as consequences of the
    invariants, for every state of every run. */
module KernelTheorems {
  import opened Basics
  import opened KernelState
  import opened KernelInvariant
  import opened KernelRuns

  // ----- What a step can do, case by case

  ghost predicate SameInitial(s: State, r: State, m: Sem) {
    m in s.history && m in r.history && r.history[m].initial == s.history[m].initial
  }

  /** The run queue is served from the front and filled at the back. */
  ghost predicate QueueTurn(s: State, schedules: bool, r: State) {
    if schedules then
      s.ready != [] ==> r.cur == s.ready[0] && s.ready[1..] <= r.ready
    else
      r.cur == s.cur && s.ready <= r.ready
  }

  /** What every step from s to r does, given whether it calls schedule(), is a
      timer tick that does not, or is an exit. */
  ghost predicate EffectOf(s: State, schedules: bool, ticks: bool, exits: bool, r: State) {
    && (forall m :: m in s.history && !m.WaiterSem? ==> SameInitial(s, r, m))
    && QueueTurn(s, schedules, r)
    && r.ticks == (if schedules then 0 else if ticks then s.ticks + 1 else s.ticks)
    && (forall t :: t in s.pc && t !in r.pc ==> exits && t == s.cur && t != s.first && r.cur != t)
  }

  ghost predicate Effect(s: State, a: Step, r: State)
    requires s.cur in s.pc && Enabled(s, a)
  {
    EffectOf(s, Schedules(s, a), a.TickStep?, a.ExitStep?, r)
  }

  /** The part of the invariants the case analysis needs. */
  ghost predicate Sane(s: State) {
    s.cur in s.pc && s.cur in s.status && s.nextTid !in s.pc && s.ticks < TIME_SLICE
  }

  lemma {:induction false} InvSane(s: State)
    requires Inv(s)
    ensures Sane(s)
  {
  }

  lemma {:induction false} TestEffect(s: State, m: Sem, a: After)
    requires Sane(s) && IsSema(s, m)
    ensures EffectOf(s, s.value[m] == 0, false, false, TestSema(s, m, a))
  {
  }

  lemma {:induction false} YieldEffect(s: State, s1: State)
    requires Sane(s) && s1 == s.(ticks := s1.ticks)
    ensures EffectOf(s, true, false, false, Yield(s1)) && EffectOf(s, true, true, false, Yield(s1))
  {
  }

  lemma {:induction false} UpEffect(s: State, a: Step)
    requires Sane(s) && Enabled(s, a) && (a.TryDownStep? || a.TryAcquireStep? || a.UpStep?)
    ensures Effect(s, a, Apply(s, a))
  {
  }

  lemma {:induction false} HolderEffect(s: State, a: Step)
    requires Sane(s) && Enabled(s, a) && (a.SetHolderStep? || a.ReleaseStep? || a.WaitReleaseStep?)
    ensures Effect(s, a, Apply(s, a))
  {
  }

  lemma {:induction false} ReleaseEffect(s: State, a: Step)
    requires Sane(s) && Enabled(s, a) && (a.FinishReleaseStep? || a.WaitUpStep?)
    ensures Effect(s, a, Apply(s, a))
  {
  }

  lemma {:induction false} SignalEffect(s: State, a: Step)
    requires Sane(s) && Enabled(s, a) && (a.WaitStep? || a.SignalStep?)
    ensures Effect(s, a, Apply(s, a))
  {
  }

  lemma {:induction false} SignalUpEffect(s: State, a: Step)
    requires Sane(s) && Enabled(s, a) && (a.SignalUpStep?)
    ensures Effect(s, a, Apply(s, a))
  {
  }

  lemma {:induction false} BroadcastEffect(s: State, a: Step)
    requires Sane(s) && Enabled(s, a) && (a.BroadcastStep? || a.BroadcastTestStep?)
    ensures Effect(s, a, Apply(s, a))
  {
  }

  lemma {:induction false} LeaveEffect(s: State, a: Step)
    requires Sane(s) && Enabled(s, a) && (a.YieldStep? || a.ExitStep?)
    ensures Effect(s, a, Apply(s, a))
  {
  }

  lemma {:induction false} BlockEffect(s: State, a: Step)
    requires Sane(s) && Enabled(s, a) && (a.IdleBlockStep? || a.ParkStep?)
    ensures Effect(s, a, Apply(s, a))
  {
  }

  lemma {:induction false} ReadyEffect(s: State, a: Step)
    requires Sane(s) && Enabled(s, a) && (a.CreateStep? || a.UnparkStep?)
    ensures Effect(s, a, Apply(s, a))
  {
  }

  predicate TestsSema(a: Step) {
    a.DownStep? || a.RetryStep? || a.AcquireStep? || a.WaitDownStep? || a.WaitAcquireStep?
  }

  lemma {:induction false} TestingStepEffect(s: State, a: Step)
    requires Sane(s) && Enabled(s, a) && TestsSema(a)
    ensures Effect(s, a, Apply(s, a))
  {
    match a {
      case DownStep(m) => TestEffect(s, m, Return);
      case RetryStep => TestEffect(s, s.pc[s.cur].sem, s.pc[s.cur].after);
      case AcquireStep(l) => TestEffect(s, LockSem(l), Hold(l, None));
      case WaitDownStep => TestEffect(s, WaiterSem(s.pc[s.cur].ticket),
        Reacquire(s.pc[s.cur].cond, s.pc[s.cur].ticket));
      case WaitAcquireStep => TestEffect(s, LockSem(s.lockOf[s.pc[s.cur].cond]),
        Hold(s.lockOf[s.pc[s.cur].cond], Some(s.pc[s.cur].cond)));
    }
  }

  /** Steps of threads that are in no synchronisation call. */
  predicate IsThreadStep(a: Step) {
    a.TickStep? || a.YieldStep? || a.ExitStep? || a.IdleBlockStep? || a.ParkStep? || a.CreateStep? || a.UnparkStep?
  }

  lemma {:induction false} ThreadEffect(s: State, a: Step)
    requires Sane(s) && Enabled(s, a) && IsThreadStep(a)
    ensures Effect(s, a, Apply(s, a))
  {
    match a {
      case TickStep => YieldEffect(s, s.(ticks := s.ticks + 1));
      case YieldStep => LeaveEffect(s, a);
      case ExitStep => LeaveEffect(s, a);
      case IdleBlockStep => BlockEffect(s, a);
      case ParkStep => BlockEffect(s, a);
      case CreateStep => ReadyEffect(s, a);
      case UnparkStep(_) => ReadyEffect(s, a);
    }
  }

  lemma {:induction false} StepEffect(s: State, a: Step)
    requires Sane(s) && Enabled(s, a)
    ensures Effect(s, a, Apply(s, a))
  {
    if TestsSema(a) {
      TestingStepEffect(s, a);
    } else if IsThreadStep(a) {
      ThreadEffect(s, a);
    } else {
      match a {
        case TryDownStep(_) => UpEffect(s, a);
        case UpStep(_) => UpEffect(s, a);
        case TryAcquireStep(_) => UpEffect(s, a);
        case SetHolderStep => HolderEffect(s, a);
        case ReleaseStep(_) => HolderEffect(s, a);
        case WaitReleaseStep => HolderEffect(s, a);
        case FinishReleaseStep => ReleaseEffect(s, a);
        case WaitUpStep => ReleaseEffect(s, a);
        case WaitStep(_) => SignalEffect(s, a);
        case SignalStep(_) => SignalEffect(s, a);
        case SignalUpStep => SignalUpEffect(s, a);
        case BroadcastStep(_) => BroadcastEffect(s, a);
        case BroadcastTestStep => BroadcastEffect(s, a);
      }
    }
  }

  // ----- Semaphores: no unit is created or destroyed, no wake-up is lost

  lemma {:induction false} InitialKept(ss: seq<State>, acts: seq<Step>, i: nat, m: Sem)
    requires IsRun(ss, acts) && i < |ss| && m in ss[0].value && !m.WaiterSem?
    ensures m in ss[i].history && ss[i].history[m].initial == ss[0].value[m]
  {
    if i > 0 {
      InitialKept(ss, acts, i - 1, m);
      assert Follows(ss[i - 1], acts[i - 1], ss[i]);
      RunInv(ss, acts, i - 1);
      InvSane(ss[i - 1]);
      StepEffect(ss[i - 1], acts[i - 1]);
      assert SameInitial(ss[i - 1], ss[i], m);
    }
  }

  /** On every run, value plus completed downs equals initial value plus ups; and
      while threads sleep on the semaphore, its value is at most the number of
      threads woken from it that have not retried yet. */
  lemma {:induction false} NoLostWakeup(ss: seq<State>, acts: seq<Step>, i: nat, m: Sem)
    requires IsRun(ss, acts) && i < |ss| && m in ss[0].value && !m.WaiterSem?
    ensures var s := ss[i];
            && m in s.value && m in s.waiters && m in s.history
            && s.value[m] + s.history[m].downs == ss[0].value[m] + s.history[m].ups
            && (s.waiters[m] != [] ==> s.value[m] <= |Woken(s.status, s.pc, m)|)
  {
    RunInv(ss, acts, i);
    InitialKept(ss, acts, i, m);
  }

  /** Hence when nothing is ready to run and the running thread is not inside
      sema_down(), a semaphore somebody sleeps on has value zero. */
  lemma {:induction false} QuietMeansZero(ss: seq<State>, acts: seq<Step>, i: nat, m: Sem)
    requires IsRun(ss, acts) && i < |ss| && ss[i].ready == [] && ss[i].cur in ss[i].pc && InterruptsOn(ss[i])
    requires m in ss[i].waiters && ss[i].waiters[m] != []
    ensures m in ss[i].value && ss[i].value[m] == 0
  {
    var s := ss[i];
    RunInv(ss, acts, i);
    forall t | t in s.pc && s.pc[t].Test? ensures s.status[t].Blocked? {
      assert Mode(s.status[t], s.pc[t], t == s.idle);
      assert t !in s.ready;
    }
    assert Woken(s.status, s.pc, m) == {};
  }

  // ----- Threads

  /** Exactly one thread runs; a thread other than the idle thread is ready iff it
      is in the run queue, where it occurs once; a thread on a wait list is
      blocked, on no other wait list and not in the run queue; a dying thread is
      the initial thread and on no list. */
  lemma {:induction false} ThreadStates(ss: seq<State>, acts: seq<Step>, i: nat)
    requires IsRun(ss, acts) && i < |ss|
    ensures var s := ss[i];
            && s.cur in s.status && (forall t :: t in s.status ==> (s.status[t].Running? <==> t == s.cur))
            && NoDup(s.ready)
            && (forall t :: t in s.status && t != s.idle ==> (s.status[t].Ready? <==> t in s.ready))
            && (forall m, t :: m in s.waiters && t in s.waiters[m] ==>
                  t in s.status && s.status[t].Blocked? && t !in s.ready)
            && (forall m, n, t :: m in s.waiters && n in s.waiters && t in s.waiters[m] && t in s.waiters[n] ==> m == n)
            && (forall m :: m in s.waiters ==> NoDup(s.waiters[m]))
            && (forall t :: t in s.status && s.status[t].Dying? ==>
                  t == s.first && t !in s.ready && forall m :: m in s.waiters ==> t !in s.waiters[m])
  {
    var s := ss[i];
    RunInv(ss, acts, i);
    forall m, t | m in s.waiters && t in s.waiters[m] ensures AsleepOn(s.status, s.pc, t, m) {
    }
  }

  /** Only the exiting thread itself disappears, and only in favour of another
      running thread, its successor. */
  lemma {:induction false} FreedBySuccessor(s: State, a: Step, t: Tid)
    requires Inv(s) && Enabled(s, a) && t in s.status && t !in Apply(s, a).status
    ensures a.ExitStep? && t == s.cur && t != s.first && Apply(s, a).cur != t
  {
    InvSane(s);
    StepEffect(s, a);
    StepKeepsInv(s, a);
  }

  // ----- Locks

  /** From the decrement of the lock's semaphore in lock_acquire() to its
      increment in lock_release(). */
  ghost predicate InSection(s: State, l: Lock, t: Tid) {
    && t in s.pc && l in s.holder
    && (s.holder[l] == Some(t) || PastDown(s.pc[t], s.lockOf) == Some(l))
  }

  /** At most one thread is between acquiring and releasing a lock, and then the
      semaphore is zero; lock->holder never names a thread outside. */
  lemma {:induction false} MutualExclusion(ss: seq<State>, acts: seq<Step>, i: nat, l: Lock, t: Tid, u: Tid)
    requires IsRun(ss, acts) && i < |ss| && l in ss[i].holder
    requires InSection(ss[i], l, t)
    ensures InSection(ss[i], l, u) ==> t == u
    ensures ss[i].holder[l].Some? ==> ss[i].holder[l] == Some(t)
    ensures LockSem(l) in ss[i].value && ss[i].value[LockSem(l)] == 0
  {
    var s := ss[i];
    RunInv(ss, acts, i);
    assert HoldOk(t, s.pc[t], s.holder, s.owner, s.lockOf);
    if u in s.pc { assert HoldOk(u, s.pc[u], s.holder, s.owner, s.lockOf); }
  }

  // ----- Condition variables

  /** A thread inside cond_wait() between releasing the lock and consuming its
      signal. */
  ghost predicate AwaitsSignal(s: State, t: Tid, c: Cond, w: Ticket) {
    t in s.pc && TicketOf(s.pc[t]) == Some(w) && CondOf(s.pc[t]) == Some(c)
  }

  /** Its private semaphore is zero while it is queued or being popped, and one
      once it has been signalled. */
  lemma {:induction false} SignalState(ss: seq<State>, acts: seq<Step>, i: nat, t: Tid, c: Cond, w: Ticket)
    requires IsRun(ss, acts) && i < |ss| && AwaitsSignal(ss[i], t, c, w)
    ensures var s := ss[i];
            && w in s.tickets && c in s.queue && WaiterSem(w) in s.value && WaiterSem(w) in s.waiters
            && (s.tickets[w].phase.Queued? <==> w in s.queue[c])
            && (s.tickets[w].phase.Signalled? <==> s.value[WaiterSem(w)] == 1)
            && (s.value[WaiterSem(w)] == 0 <==> w in s.queue[c] || s.tickets[w].phase.Popped?)
  {
    var s := ss[i];
    RunInv(ss, acts, i);
    assert OwnerOk(t, s.pc[t], s.queue, s.tickets);
    assert QueuedOk(w, s.tickets[w], s.queue);
    assert QueueOk(c, s.queue[c], s.tickets);
  }

  /** No signal is lost: once signalled, the waiter is not asleep, whether the
      signal came before or after it went to sleep. */
  lemma {:induction false} SignalWakes(ss: seq<State>, acts: seq<Step>, i: nat, t: Tid, c: Cond, w: Ticket)
    requires IsRun(ss, acts) && i < |ss| && AwaitsSignal(ss[i], t, c, w)
    requires WaiterSem(w) in ss[i].value && ss[i].value[WaiterSem(w)] == 1
    ensures t in ss[i].status && !ss[i].status[t].Blocked?
  {
    var s := ss[i];
    RunInv(ss, acts, i);
    assert OwnerOk(t, s.pc[t], s.queue, s.tickets) && TestOk(s.pc[t]);
    assert Mode(s.status[t], s.pc[t], t == s.idle);
    if s.status[t].Blocked? {
      OnlyOwnerTests(s, t, w);
    }
  }

  /** And when a signalled waiter gets to test its semaphore, for the first time or
      after a wake-up, it passes and goes on to acquire the lock. */
  lemma {:induction false} SignalledWaiterPasses(ss: seq<State>, acts: seq<Step>, i: nat, c: Cond, w: Ticket)
    requires IsRun(ss, acts) && i < |acts| && AwaitsSignal(ss[i], ss[i].cur, c, w)
      && (acts[i].WaitDownStep? || acts[i].RetryStep?)
    requires WaiterSem(w) in ss[i].value && ss[i].value[WaiterSem(w)] == 1
    ensures ss[i].cur in ss[i + 1].pc && ss[i + 1].pc[ss[i].cur] == WaitAcquire(c)
  {
    RunInv(ss, acts, i);
    assert Follows(ss[i], acts[i], ss[i + 1]);
    assert TestOk(ss[i].pc[ss[i].cur]);
    PassesTest(ss[i], acts[i], c, w);
  }

  lemma {:induction false} PassesTest(s: State, a: Step, c: Cond, w: Ticket)
    requires s.cur in s.pc && Enabled(s, a) && AwaitsSignal(s, s.cur, c, w) && TestOk(s.pc[s.cur])
    requires WaiterSem(w) in s.value && s.value[WaiterSem(w)] == 1 && (a.WaitDownStep? || a.RetryStep?)
    ensures s.cur in Apply(s, a).pc && Apply(s, a).pc[s.cur] == WaitAcquire(c)
  {
  }

  /** Nobody but its owner ever tests a private semaphore, so an owner asleep on
      it has not been signalled. */
  lemma {:induction false} OnlyOwnerTests(s: State, t: Tid, w: Ticket)
    requires Inv(s) && t in s.pc && s.pc[t].Test? && s.pc[t].sem == WaiterSem(w) && s.status[t].Blocked?
    ensures WaiterSem(w) in s.value && s.value[WaiterSem(w)] == 0
  {
    var m := WaiterSem(w);
    assert TestOk(s.pc[t]) && OwnerOk(t, s.pc[t], s.queue, s.tickets);
    assert AsleepOn(s.status, s.pc, t, m);
    assert t in s.waiters[m];
    forall u | u in s.pc && s.pc[u].Test? && s.pc[u].sem == m ensures u == t {
      assert TestOk(s.pc[u]) && OwnerOk(u, s.pc[u], s.queue, s.tickets);
    }
    assert Woken(s.status, s.pc, m) == {};
  }

  /** A signal releases exactly one waiter: the sema_up() of cond_signal() turns
      the private semaphore of one waiting call, the one that had waited longest
      among those still queued when it was popped, from zero to one. */
  lemma {:induction false} SignalReleasesOne(s: State)
    requires CondInv(s) && s.cur in s.pc && Enabled(s, SignalUpStep)
    ensures var w := s.pc[s.cur].ticket; var r := Apply(s, SignalUpStep);
            && w in s.tickets && AwaitsSignal(s, s.tickets[w].owner, s.pc[s.cur].cond, w)
            && s.value[WaiterSem(w)] == 0 && r.value == s.value[WaiterSem(w) := 1]
            && (forall x :: x in s.tickets && s.tickets[x].cond == s.pc[s.cur].cond && x < w ==>
                  !s.tickets[x].phase.Queued?)
  {
    var w, c := s.pc[s.cur].ticket, s.pc[s.cur].cond;
    PoppedAwaits(s, w, c);
    SignalRaises(s);
  }

  lemma {:induction false} SignalRaises(s: State)
    requires s.cur in s.pc && Enabled(s, SignalUpStep)
    ensures var m := WaiterSem(s.pc[s.cur].ticket); Apply(s, SignalUpStep).value == s.value[m := s.value[m] + 1]
  {
  }

  /** A popped ticket belongs to a call that still waits, unsignalled, and no older
      call on its condition is still queued. */
  lemma {:induction false} PoppedAwaits(s: State, w: Ticket, c: Cond)
    requires CondInv(s) && s.cur in s.pc && s.pc[s.cur].SignalUp? && s.pc[s.cur].ticket == w && s.pc[s.cur].cond == c
    ensures w in s.tickets && AwaitsSignal(s, s.tickets[w].owner, c, w)
    ensures WaiterSem(w) in s.value && s.value[WaiterSem(w)] == 0
    ensures forall x :: x in s.tickets && s.tickets[x].cond == c && x < w ==> !s.tickets[x].phase.Queued?
  {
    assert OwnerOk(s.cur, s.pc[s.cur], s.queue, s.tickets);
    assert OwnerOk(s.tickets[w].owner, s.pc[s.tickets[w].owner], s.queue, s.tickets);
  }

  /** cond_signal() takes the waiter at the front of the queue. */
  lemma {:induction false} SignalPopsFront(s: State, c: Cond)
    requires Inv(s) && Enabled(s, SignalStep(c)) && s.queue[c] != []
    ensures var r := Apply(s, SignalStep(c));
            && r.queue[c] == s.queue[c][1..] && r.pc[s.cur] == SignalUp(c, s.queue[c][0], false)
            && (forall x :: x in s.queue[c] ==> s.queue[c][0] <= x)
  {
    assert QueueOk(c, s.queue[c], s.tickets);
    forall x | x in s.queue[c] ensures s.queue[c][0] <= x {
      var i :| 0 <= i < |s.queue[c]| && s.queue[c][i] == x;
    }
  }

  // ----- Round robin

  ghost predicate AllSane(ss: seq<State>) {
    forall i :: 0 <= i < |ss| ==> Sane(ss[i])
  }

  /** Number of calls of schedule() in a sequence of steps. */
  ghost function ScheduleCount(ss: seq<State>, acts: seq<Step>): nat
    requires Steps(ss, acts)
    decreases |acts|
  {
    if acts == [] then 0
    else
      DropStep(ss, acts);
      (if Schedules(ss[0], acts[0]) then 1 else 0) + ScheduleCount(ss[1..], acts[1..])
  }

  ghost function TickCount(acts: seq<Step>): nat {
    if acts == [] then 0 else (if acts[0].TickStep? then 1 else 0) + TickCount(acts[1..])
  }

  lemma {:induction false} DropStep(ss: seq<State>, acts: seq<Step>)
    requires Steps(ss, acts) && acts != []
    ensures Follows(ss[0], acts[0], ss[1]) && Steps(ss[1..], acts[1..])
    ensures AllSane(ss) ==> AllSane(ss[1..])
  {
    forall i | 0 <= i < |acts| - 1 ensures Follows(ss[1..][i], acts[1..][i], ss[1..][i + 1]) {
      assert Follows(ss[i + 1], acts[i + 1], ss[i + 2]);
    }
  }

  /** One step moves a queued thread up by one place, or dispatches it, or leaves
      it where it is. */
  lemma {:induction false} PlaceAfterStep(s: State, a: Step, r: State, k: nat)
    requires Sane(s) && Follows(s, a, r) && k < |s.ready|
    ensures !Schedules(s, a) ==> k < |r.ready| && r.ready[k] == s.ready[k]
    ensures Schedules(s, a) && k == 0 ==> r.cur == s.ready[k]
    ensures Schedules(s, a) && k > 0 ==> k - 1 < |r.ready| && r.ready[k - 1] == s.ready[k]
    ensures r.ticks == (if Schedules(s, a) then 0 else if a.TickStep? then s.ticks + 1 else s.ticks)
  {
    StepEffect(s, a);
    if k > 0 { assert s.ready[1..][k - 1] == s.ready[k]; }
  }

  /** A thread at position k of the run queue moves up by one place per call of
      schedule() and is dispatched by the (k+1)-th, whatever the others do. */
  lemma {:induction false} DispatchedInTurn(ss: seq<State>, acts: seq<Step>, k: nat) returns (j: nat)
    requires Steps(ss, acts) && AllSane(ss) && k < |ss[0].ready|
    ensures ScheduleCount(ss, acts) <= k ==>
              var n := ScheduleCount(ss, acts);
              k - n < |ss[|acts|].ready| && ss[|acts|].ready[k - n] == ss[0].ready[k]
    ensures ScheduleCount(ss, acts) > k ==> 0 < j <= |acts| && ss[j].cur == ss[0].ready[k]
    decreases |acts|
  {
    j := 0;
    if acts != [] {
      DropStep(ss, acts);
      PlaceAfterStep(ss[0], acts[0], ss[1], k);
      var ss', acts' := ss[1..], acts[1..];
      assert ss'[|acts'|] == ss[|acts|];
      var moves := Schedules(ss[0], acts[0]);
      if moves && k == 0 {
        j := 1;
      } else {
        j := DispatchedInTurn(ss', acts', if moves then k - 1 else k);
        assert 0 < j <= |acts'| ==> ss'[j] == ss[j + 1];
        j := j + 1;
      }
    }
  }

  /** Four ticks force a call of schedule(). */
  lemma {:induction false} TicksForceSchedule(ss: seq<State>, acts: seq<Step>)
    requires Steps(ss, acts) && AllSane(ss)
    ensures ss[0].ticks + TickCount(acts) <= TIME_SLICE * ScheduleCount(ss, acts) + ss[|acts|].ticks
    decreases |acts|
  {
    if acts != [] {
      DropStep(ss, acts);
      StepEffect(ss[0], acts[0]);
      TicksForceSchedule(ss[1..], acts[1..]);
    }
  }

  /** No starvation: a thread at position k of the run queue is dispatched within
      4(k + 1) timer ticks. */
  lemma {:induction false} BoundedWait(ss: seq<State>, acts: seq<Step>, i: nat, k: nat, n: nat) returns (j: nat)
    requires IsRun(ss, acts) && i <= n <= |acts| && k < |ss[i].ready|
    requires TickCount(acts[i..n]) >= TIME_SLICE * (k + 1)
    ensures i < j <= n && ss[j].cur == ss[i].ready[k]
  {
    var ts, bs := ss[i..n + 1], acts[i..n];
    forall x | 0 <= x < |bs| ensures Follows(ts[x], bs[x], ts[x + 1]) {
      assert Follows(ss[i + x], acts[i + x], ss[i + x + 1]);
    }
    forall x | 0 <= x < |ts| ensures Sane(ts[x]) {
      RunInv(ss, acts, i + x);
      InvSane(ss[i + x]);
    }
    TicksForceSchedule(ts, bs);
    j := DispatchedInTurn(ts, bs, k);
    j := i + j;
  }
}
