/** Threads, semaphores, locks and condition variables on one processor
    (threads/thread.c, threads/synch.c), as a transition system.

    A region that runs with interrupts off is one step.  Everything else can be
    interleaved with other threads: each thread records how far it has got
    inside a primitive in its program counter. */
module KernelState {
  import opened Basics

  type Tid = nat
  type Lock = nat
  type Cond = nat
  type Ticket = nat

  /** A semaphore is used on its own, inside a lock, or as the private semaphore
      that one call of cond_wait() keeps on its stack. */
  datatype Sem = Plain(id: nat) | LockSem(lock: Lock) | WaiterSem(ticket: Ticket)

  datatype Status = Running | Ready | Blocked | Dying

  /** What remains to be done once sema_down() has decremented the semaphore. */
  datatype After =
    | Return
    | Hold(lock: Lock, wait: Option<Cond>)        // lock_acquire(), from cond_wait() on that condition if any
    | Reacquire(cond: Cond, ticket: Ticket)

  datatype Pc =
    | User                                        // outside the primitives
    | IdleLoop                                    // the idle thread
    | Parked                                      // bare thread_block()
    | Test(sem: Sem, after: After)                // in the loop of sema_down()
    | SetHolder(lock: Lock, wait: Option<Cond>)   // lock_acquire(): semaphore taken, holder not yet set
    | FinishRelease(lock: Lock)                   // lock_release(): holder cleared, semaphore not yet up
    | WaitRelease(cond: Cond, ticket: Ticket)     // cond_wait(): queued, lock still held
    | WaitUp(cond: Cond, ticket: Ticket)          //   holder cleared, lock semaphore not yet up
    | WaitDown(cond: Cond, ticket: Ticket)        //   lock released, about to sleep
    | WaitAcquire(cond: Cond)                     //   woken, about to acquire the lock
    | SignalUp(cond: Cond, ticket: Ticket, broadcast: bool)  // cond_signal(): waiter popped, not yet up
    | Broadcast(cond: Cond)                       // cond_broadcast(): at the loop test

  /** How far a call of cond_wait() has been signalled; kept for the proofs only,
      no step reads it. */
  datatype Phase = Queued | Popped(signaller: Tid) | Signalled | Consumed

  datatype TicketInfo = TicketInfo(cond: Cond, owner: Tid, phase: Phase)

  /** Initial value and numbers of completed operations of a semaphore. */
  datatype History = History(initial: nat, ups: nat, downs: nat)

  datatype State = State(
    status: map<Tid, Status>,
    pc: map<Tid, Pc>,
    cur: Tid,
    ready: seq<Tid>,
    idle: Tid,
    first: Tid,                      // initial_thread, whose page is never freed
    nextTid: Tid,
    ticks: nat,
    value: map<Sem, nat>,
    waiters: map<Sem, seq<Tid>>,
    history: map<Sem, History>,
    holder: map<Lock, Option<Tid>>,
    owner: map<Lock, Option<Tid>>,   // who took the lock's semaphore; for the proofs only
    lockOf: map<Cond, Lock>,
    queue: map<Cond, seq<Ticket>>,
    tickets: map<Ticket, TicketInfo>,
    nextTicket: Ticket)

  const TIME_SLICE: nat := 4

  // ----- threads/thread.c

  /** schedule() with next_thread_to_run() and thread_schedule_tail(): the front
      of the run queue, or else the idle thread, becomes the running thread; the
      thread it replaces is freed if it was dying. */
  function Schedule(s: State): State
    requires s.cur in s.status
  {
    var next := if s.ready == [] then s.idle else s.ready[0];
    var dead := if next != s.cur && s.status[s.cur].Dying? && s.cur != s.first then {s.cur} else {};
    s.(cur := next,
       ready := if s.ready == [] then [] else s.ready[1..],
       status := s.status[next := Running] - dead,
       pc := s.pc - dead,
       ticks := 0)
  }

  /** thread_unblock(). */
  function Unblock(s: State, t: Tid): State {
    s.(ready := s.ready + [t], status := s.status[t := Ready])
  }

  /** thread_block() by the running thread, which will resume at `pc`. */
  function Block(s: State, pc: Pc): State {
    Schedule(s.(status := s.status[s.cur := Blocked], pc := s.pc[s.cur := pc]))
  }

  /** thread_yield(); the idle thread never enters the run queue. */
  function Yield(s: State): State {
    Schedule(s.(ready := if s.cur != s.idle then s.ready + [s.cur] else s.ready,
                status := s.status[s.cur := Ready]))
  }

  /** thread_exit(). */
  function Exit(s: State): State {
    Schedule(s.(status := s.status[s.cur := Dying]))
  }

  /** thread_create(): the new thread goes to the end of the run queue. */
  function Create(s: State): State {
    var t := s.nextTid;
    Unblock(s.(nextTid := t + 1, status := s.status[t := Blocked], pc := s.pc[t := User]), t)
  }

  /** thread_tick(): a slice ends with a yield on its TIME_SLICE'th tick. */
  function Tick(s: State): State {
    var s1 := s.(ticks := s.ticks + 1);
    if s1.ticks >= TIME_SLICE then Yield(s1) else s1
  }

  // ----- threads/synch.c

  function SetPc(s: State, pc: Pc): State {
    s.(pc := s.pc[s.cur := pc])
  }

  function InitSema(s: State, m: Sem, v: nat): State {
    s.(value := s.value[m := v], waiters := s.waiters[m := []], history := s.history[m := History(v, 0, 0)])
  }

  /** sema_up(): wakes the longest waiter, if any, and increments the value. */
  function SemaUp(s: State, m: Sem): State
    requires m in s.value && m in s.waiters && m in s.history
  {
    var q := s.waiters[m];
    var s1 := if q == [] then s else Unblock(s, q[0]);
    s.(ready := s1.ready,
       status := s1.status,
       waiters := s.waiters[m := if q == [] then q else q[1..]],
       value := s.value[m := s.value[m] + 1],
       owner := if m.LockSem? then s.owner[m.lock := None] else s.owner,
       history := s.history[m := s.history[m].(ups := s.history[m].ups + 1)])
  }

  function Decrement(s: State, m: Sem): State
    requires m in s.value && m in s.history && s.value[m] > 0
  {
    s.(value := s.value[m := s.value[m] - 1],
       owner := if m.LockSem? then s.owner[m.lock := Some(s.cur)] else s.owner,
       history := s.history[m := s.history[m].(downs := s.history[m].downs + 1)])
  }

  function Resume(a: After): Pc {
    match a
    case Return => User
    case Hold(l, w) => SetHolder(l, w)
    case Reacquire(c, _) => WaitAcquire(c)
  }

  /** The loop test of sema_down(), on the first call and after every wake-up:
      sleep again if the value is zero, else decrement it and go on. */
  function TestSema(s: State, m: Sem, a: After): State
    requires m in s.value && m in s.waiters && m in s.history
  {
    if s.value[m] == 0 then
      Block(s.(waiters := s.waiters[m := s.waiters[m] + [s.cur]]), Test(m, a))
    else
      SetPc(Consume(Decrement(s, m), a), Resume(a))
  }

  /** sema_try_down(). */
  function TryDown(s: State, m: Sem): State
    requires m in s.value && m in s.history
  {
    if s.value[m] > 0 then Decrement(s, m) else s
  }

  // Bookkeeping of Phase.

  function WithPhase(tickets: map<Ticket, TicketInfo>, w: Ticket, p: Phase): map<Ticket, TicketInfo> {
    if w in tickets then tickets[w := tickets[w].(phase := p)] else tickets
  }

  function Consume(s: State, a: After): State {
    s.(tickets := if a.Reacquire? then WithPhase(s.tickets, a.ticket, Consumed) else s.tickets)
  }

  /** lock_try_acquire(), up to the point where the holder is set. */
  function TryAcquire(s: State, l: Lock): State
    requires LockSem(l) in s.value && LockSem(l) in s.history
  {
    if s.value[LockSem(l)] > 0 then SetPc(Decrement(s, LockSem(l)), SetHolder(l, None)) else s
  }

  /** cond_wait() up to and including the insertion into the condition's list. */
  function EnterWait(s: State, c: Cond): State
    requires c in s.queue
  {
    var w := s.nextTicket;
    SetPc(InitSema(s.(nextTicket := w + 1,
                      queue := s.queue[c := s.queue[c] + [w]],
                      tickets := s.tickets[w := TicketInfo(c, s.cur, Queued)]),
                   WaiterSem(w), 0),
          WaitRelease(c, w))
  }

  /** cond_signal() up to and including the removal from the condition's list. */
  function PopWaiter(s: State, c: Cond, broadcast: bool): State
    requires c in s.queue && s.queue[c] != []
  {
    var w := s.queue[c][0];
    SetPc(s.(queue := s.queue[c := s.queue[c][1..]], tickets := WithPhase(s.tickets, w, Popped(s.cur))),
          SignalUp(c, w, broadcast))
  }

  /** The sema_up() in cond_signal(). */
  function FinishSignal(s: State, w: Ticket, p: Pc): State
    requires IsSema(s, WaiterSem(w))
  {
    SetPc(SemaUp(s, WaiterSem(w)), p).(tickets := WithPhase(s.tickets, w, Signalled))
  }

  // ----- Steps

  datatype Step =
    | DownStep(sem: Sem)            // sema_down() called by the running thread
    | TryDownStep(sem: Sem)         // sema_try_down(), also from an interrupt handler
    | UpStep(sem: Sem)              // sema_up(), also from an interrupt handler
    | RetryStep                     // a woken thread returns to the test in sema_down()
    | AcquireStep(lock: Lock)
    | TryAcquireStep(lock: Lock)
    | SetHolderStep
    | ReleaseStep(lock: Lock)
    | FinishReleaseStep
    | WaitStep(cond: Cond)
    | WaitReleaseStep
    | WaitUpStep
    | WaitDownStep
    | WaitAcquireStep
    | SignalStep(cond: Cond)
    | SignalUpStep
    | BroadcastStep(cond: Cond)
    | BroadcastTestStep
    | TickStep
    | YieldStep                     // voluntary or by preemption
    | ExitStep
    | CreateStep
    | IdleBlockStep
    | ParkStep
    | UnparkStep(tid: Tid)

  /** Interrupts are off while a thread is inside sema_down(). */
  predicate InterruptsOn(s: State)
    requires s.cur in s.pc
  {
    !s.pc[s.cur].Test?
  }

  predicate IsSema(s: State, m: Sem) {
    m in s.value && m in s.waiters && m in s.history
  }

  predicate IsLock(s: State, l: Lock) {
    l in s.holder && IsSema(s, LockSem(l))
  }

  predicate IsCond(s: State, c: Cond) {
    c in s.queue && c in s.lockOf && IsLock(s, s.lockOf[c])
  }

  predicate Holds(s: State, l: Lock) {
    l in s.holder && s.holder[l] == Some(s.cur)
  }

  /** Where control can go next.  What a primitive asserts of its caller is part
      of it; the assertions inside the primitives are not, see `Asserted`. */
  predicate Enabled(s: State, a: Step)
    requires s.cur in s.pc
  {
    var pc := s.pc[s.cur];
    match a
    case DownStep(m) => pc.User? && m.Plain? && IsSema(s, m)
    case TryDownStep(m) => InterruptsOn(s) && m.Plain? && IsSema(s, m)
    case UpStep(m) => InterruptsOn(s) && m.Plain? && IsSema(s, m)
    case RetryStep => pc.Test? && IsSema(s, pc.sem)
    case AcquireStep(l) => pc.User? && IsLock(s, l) && !Holds(s, l)
    case TryAcquireStep(l) => pc.User? && IsLock(s, l) && !Holds(s, l)
    case SetHolderStep => pc.SetHolder?
    case ReleaseStep(l) => pc.User? && IsLock(s, l) && Holds(s, l)
    case FinishReleaseStep => pc.FinishRelease? && IsLock(s, pc.lock)
    case WaitStep(c) => pc.User? && IsCond(s, c) && Holds(s, s.lockOf[c])
    case WaitReleaseStep => pc.WaitRelease? && IsCond(s, pc.cond)
    case WaitUpStep => pc.WaitUp? && IsCond(s, pc.cond)
    case WaitDownStep => pc.WaitDown? && IsSema(s, WaiterSem(pc.ticket))
    case WaitAcquireStep => pc.WaitAcquire? && IsCond(s, pc.cond)
    case SignalStep(c) => pc.User? && IsCond(s, c) && Holds(s, s.lockOf[c])
    case SignalUpStep => pc.SignalUp? && IsSema(s, WaiterSem(pc.ticket))
    case BroadcastStep(c) => pc.User? && IsCond(s, c) && Holds(s, s.lockOf[c])
    case BroadcastTestStep => pc.Broadcast? && IsCond(s, pc.cond)
    case TickStep => InterruptsOn(s)
    case YieldStep => InterruptsOn(s)
    case ExitStep => pc.User?
    case CreateStep => pc.User?
    case IdleBlockStep => pc.IdleLoop?
    case ParkStep => pc.User?
    case UnparkStep(t) => InterruptsOn(s) && t in s.pc && s.pc[t].Parked?
  }

  /** thread_unblock() insists that the thread it is given is blocked. */
  predicate CanWake(s: State, m: Sem) {
    m in s.waiters && s.waiters[m] != [] ==>
      s.waiters[m][0] in s.status && s.status[s.waiters[m][0]].Blocked?
  }

  /** The ASSERTs met while the step runs, other than those on the arguments of
      a call from outside. */
  predicate Asserted(s: State, a: Step)
    requires s.cur in s.pc && Enabled(s, a)
  {
    var pc := s.pc[s.cur];
    match a
    case UpStep(m) => CanWake(s, m)
    case FinishReleaseStep => CanWake(s, LockSem(pc.lock))
    case WaitReleaseStep => Holds(s, s.lockOf[pc.cond])
    case WaitUpStep => CanWake(s, LockSem(s.lockOf[pc.cond]))
    case WaitAcquireStep => !Holds(s, s.lockOf[pc.cond])
    case SignalUpStep => CanWake(s, WaiterSem(pc.ticket))
    case BroadcastTestStep => Holds(s, s.lockOf[pc.cond])
    case UnparkStep(t) => t in s.status && s.status[t].Blocked?
    case _ => true
  }

  function Apply(s: State, a: Step): State
    requires s.cur in s.pc && Enabled(s, a)
  {
    var pc := s.pc[s.cur];
    match a
    case DownStep(m) => TestSema(s, m, Return)
    case TryDownStep(m) => TryDown(s, m)
    case UpStep(m) => SemaUp(s, m)
    case RetryStep => TestSema(s, pc.sem, pc.after)
    case AcquireStep(l) => TestSema(s, LockSem(l), Hold(l, None))
    case TryAcquireStep(l) => TryAcquire(s, l)
    case SetHolderStep => SetPc(s.(holder := s.holder[pc.lock := Some(s.cur)]), User)
    case ReleaseStep(l) => SetPc(s.(holder := s.holder[l := None]), FinishRelease(l))
    case FinishReleaseStep => SetPc(SemaUp(s, LockSem(pc.lock)), User)
    case WaitStep(c) => EnterWait(s, c)
    case WaitReleaseStep =>
      SetPc(s.(holder := s.holder[s.lockOf[pc.cond] := None]), WaitUp(pc.cond, pc.ticket))
    case WaitUpStep => SetPc(SemaUp(s, LockSem(s.lockOf[pc.cond])), WaitDown(pc.cond, pc.ticket))
    case WaitDownStep => TestSema(s, WaiterSem(pc.ticket), Reacquire(pc.cond, pc.ticket))
    case WaitAcquireStep =>
      TestSema(s, LockSem(s.lockOf[pc.cond]), Hold(s.lockOf[pc.cond], Some(pc.cond)))
    case SignalStep(c) => if s.queue[c] == [] then s else PopWaiter(s, c, false)
    case SignalUpStep =>
      FinishSignal(s, pc.ticket, if pc.broadcast then Broadcast(pc.cond) else User)
    case BroadcastStep(c) => SetPc(s, Broadcast(c))
    case BroadcastTestStep => if s.queue[pc.cond] == [] then SetPc(s, User) else PopWaiter(s, pc.cond, true)
    case TickStep => Tick(s)
    case YieldStep => Yield(s)
    case ExitStep => Exit(s)
    case CreateStep => Create(s)
    case IdleBlockStep => Block(s, IdleLoop)
    case ParkStep => Block(s, Parked)
    case UnparkStep(t) => Unblock(s.(pc := s.pc[t := User]), t)
  }

  // ----- Calls of schedule()

  /** The step calls schedule(). */
  predicate Schedules(s: State, a: Step)
    requires s.cur in s.pc && Enabled(s, a)
  {
    var p := s.pc[s.cur];
    match a
    case DownStep(m) => s.value[m] == 0
    case RetryStep => s.value[p.sem] == 0
    case AcquireStep(l) => s.value[LockSem(l)] == 0
    case WaitDownStep => s.value[WaiterSem(p.ticket)] == 0
    case WaitAcquireStep => s.value[LockSem(s.lockOf[p.cond])] == 0
    case TickStep => s.ticks + 1 >= TIME_SLICE
    case YieldStep => true
    case ExitStep => true
    case IdleBlockStep => true
    case ParkStep => true
    case _ => false
  }

  /** From s to r the running thread changed its own status; it has joined the run
      queue if it is ready again and not the idle thread. */
  predicate Leaves(s: State, r: State) {
    && r.cur == s.cur && r.idle == s.idle && s.cur in r.status && !r.status[s.cur].Running?
    && r.status.Keys == s.status.Keys + {s.cur} && r.pc.Keys == s.pc.Keys
    && r.ready == if r.status[s.cur].Ready? && s.cur != s.idle then s.ready + [s.cur] else s.ready
  }

  function Blocking(s: State, pc: Pc): (r: State)
    requires s.cur in s.pc
    ensures r.status == s.status[s.cur := Blocked] && Leaves(s, r)
  {
    s.(status := s.status[s.cur := Blocked], pc := s.pc[s.cur := pc])
  }

  function Sleeping(s: State, m: Sem, a: After): (r: State)
    requires s.cur in s.pc && m in s.waiters
    ensures r.status == s.status[s.cur := Blocked] && Leaves(s, r)
  {
    Blocking(s.(waiters := s.waiters[m := s.waiters[m] + [s.cur]]), Test(m, a))
  }

  function Yielding(s: State): (r: State)
    ensures r.status == s.status[s.cur := Ready] && Leaves(s, r)
  {
    if s.cur != s.idle then s.(ready := s.ready + [s.cur], status := s.status[s.cur := Ready])
    else s.(status := s.status[s.cur := Ready])
  }

  function Exiting(s: State): (r: State)
    ensures r.status == s.status[s.cur := Dying] && Leaves(s, r)
  {
    s.(status := s.status[s.cur := Dying])
  }

  /** The state in which the step calls schedule(). */
  function Scheduling(s: State, a: Step): (r: State)
    requires s.cur in s.pc && Enabled(s, a) && Schedules(s, a)
    ensures Leaves(s, r)
    ensures r.status ==
      s.status[s.cur := if a.ExitStep? then Dying else if a.TickStep? || a.YieldStep? then Ready else Blocked]
  {
    var p := s.pc[s.cur];
    match a
    case DownStep(m) => Sleeping(s, m, Return)
    case RetryStep => Sleeping(s, p.sem, p.after)
    case AcquireStep(l) => Sleeping(s, LockSem(l), Hold(l, None))
    case WaitDownStep => Sleeping(s, WaiterSem(p.ticket), Reacquire(p.cond, p.ticket))
    case WaitAcquireStep => Sleeping(s, LockSem(s.lockOf[p.cond]), Hold(s.lockOf[p.cond], Some(p.cond)))
    case TickStep => Yielding(s.(ticks := s.ticks + 1))
    case YieldStep => Yielding(s)
    case ExitStep => Exiting(s)
    case IdleBlockStep => Blocking(s, IdleLoop)
    case ParkStep => Blocking(s, Parked)
  }

  /** The ASSERTs of schedule() and thread_schedule_tail(): the thread that calls it is
      no longer running, what it switches to is a thread, and a thread that dies is
      not the one that frees it. */
  predicate ScheduleAsserted(s: State) {
    var next := if s.ready == [] then s.idle else s.ready[0];
    && s.cur in s.status && !s.status[s.cur].Running? && next in s.status && next in s.pc
    && (s.status[s.cur].Dying? ==> next != s.cur)
  }
}
