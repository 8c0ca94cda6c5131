/** The invariants of the thread and synchronisation machine, and the proof that
    every step keeps them. */
module KernelInvariant {
  import opened Basics
  import opened KernelState

  // ----- The invariants.  Each one only mentions the state it depends on.

  /** Run queue and statuses.  `run` is false between the moment the running
      thread gives up the processor and the end of schedule(). */
  ghost predicate SchedInv(status: map<Tid, Status>, cur: Tid, ready: seq<Tid>, idle: Tid, first: Tid, run: bool) {
    && cur in status && idle in status && !status[idle].Dying?
    && (forall t :: t in status ==> (status[t].Running? <==> run && t == cur))
    && NoDup(ready)
    && (forall t :: t in ready <==> t in status && t != idle && status[t].Ready?)
    && (forall t :: t in status && status[t].Dying? ==> t == first || (!run && t == cur))
  }

  ghost predicate AsleepOn(status: map<Tid, Status>, pc: map<Tid, Pc>, t: Tid, m: Sem) {
    t in pc && t in status && pc[t].Test? && pc[t].sem == m && status[t].Blocked?
  }

  /** A semaphore's wait list holds exactly the threads asleep on it, once each. */
  ghost predicate WaitInv(status: map<Tid, Status>, pc: map<Tid, Pc>, waiters: map<Sem, seq<Tid>>) {
    forall m :: m in waiters ==>
      NoDup(waiters[m]) && (forall t :: t in waiters[m] <==> AsleepOn(status, pc, t, m))
  }

  /** Status and program counter of one thread agree. */
  predicate Mode(st: Status, p: Pc, isIdle: bool) {
    && (p.IdleLoop? <==> isIdle)
    && (st.Blocked? ==> p.Test? || p.Parked? || p.IdleLoop?)
    && (p.Parked? ==> st.Blocked?)
    && (st.Dying? ==> p.User?)
  }

  ghost predicate ModeInv(status: map<Tid, Status>, pc: map<Tid, Pc>, idle: Tid) {
    && pc.Keys == status.Keys
    && (forall t :: t in pc ==> Mode(status[t], pc[t], t == idle))
  }

  /** Threads woken from m, or about to test it again, that have not retried yet. */
  ghost function Woken(status: map<Tid, Status>, pc: map<Tid, Pc>, m: Sem): set<Tid> {
    set t | t in pc && t in status && pc[t].Test? && pc[t].sem == m && !status[t].Blocked?
  }

  /** Conservation, and no wake-up is lost: while somebody waits, every unit of
      the value is matched by a woken thread that has still to test it. */
  ghost predicate CountInv(status: map<Tid, Status>, pc: map<Tid, Pc>, value: map<Sem, nat>,
                           waiters: map<Sem, seq<Tid>>, history: map<Sem, History>)
  {
    && value.Keys == waiters.Keys == history.Keys
    && (forall m :: m in value ==> value[m] + history[m].downs == history[m].initial + history[m].ups)
    && (forall m :: m in value && waiters[m] != [] ==> value[m] <= |Woken(status, pc, m)|)
  }

  /** The lock whose semaphore the thread owns although `holder` does not say so. */
  function PastDown(p: Pc, lockOf: map<Cond, Lock>): Option<Lock> {
    match p
    case SetHolder(l, _) => Some(l)
    case FinishRelease(l) => Some(l)
    case WaitUp(c, _) => if c in lockOf then Some(lockOf[c]) else None
    case _ => None
  }

  /** A lock the thread must be holding at this place in the code. */
  function MustHold(p: Pc, lockOf: map<Cond, Lock>): Option<Lock> {
    match p
    case WaitRelease(c, _) => if c in lockOf then Some(lockOf[c]) else None
    case SignalUp(c, _, _) => if c in lockOf then Some(lockOf[c]) else None
    case Broadcast(c) => if c in lockOf then Some(lockOf[c]) else None
    case _ => None
  }

  /** A lock the thread cannot be holding at this place in the code. */
  function CannotHold(p: Pc, lockOf: map<Cond, Lock>): Option<Lock> {
    match p
    case Test(_, Hold(l, _)) => Some(l)
    case Test(_, Reacquire(c, _)) => if c in lockOf then Some(lockOf[c]) else None
    case WaitDown(c, _) => if c in lockOf then Some(lockOf[c]) else None
    case WaitAcquire(c) => if c in lockOf then Some(lockOf[c]) else None
    case _ => PastDown(p, lockOf)
  }

  ghost predicate LockInv(value: map<Sem, nat>, holder: map<Lock, Option<Tid>>, owner: map<Lock, Option<Tid>>,
                          lockOf: map<Cond, Lock>, nextTid: Tid)
  {
    && owner.Keys == holder.Keys
    && (forall c :: c in lockOf ==> lockOf[c] in holder)
    && (forall l :: l in holder ==>
          && LockSem(l) in value
          && value[LockSem(l)] == (if owner[l].Some? then 0 else 1)
          && (holder[l].Some? ==> holder[l] == owner[l])
          && (owner[l].Some? ==> owner[l].value < nextTid))
  }

  predicate HoldOk(t: Tid, p: Pc, holder: map<Lock, Option<Tid>>, owner: map<Lock, Option<Tid>>,
      lockOf: map<Cond, Lock>)
  {
    && (var l := PastDown(p, lockOf); l.Some? ==> l.value in holder && l.value in owner && owner[l.value] == Some(t))
    && (var l := MustHold(p, lockOf); l.Some? ==> l.value in holder && holder[l.value] == Some(t))
    && (var l := CannotHold(p, lockOf); l.Some? ==> l.value in holder && holder[l.value] != Some(t))
  }

  ghost predicate HoldInv(pc: map<Tid, Pc>, holder: map<Lock, Option<Tid>>, owner: map<Lock, Option<Tid>>,
                          lockOf: map<Cond, Lock>, nextTid: Tid)
  {
    forall t :: t in pc ==> t < nextTid && HoldOk(t, pc[t], holder, owner, lockOf)
  }

  /** The private semaphore of the cond_wait() call the thread is in, until it
      has consumed its signal. */
  function TicketOf(p: Pc): Option<Ticket> {
    match p
    case WaitRelease(_, w) => Some(w)
    case WaitUp(_, w) => Some(w)
    case WaitDown(_, w) => Some(w)
    case Test(_, Reacquire(_, w)) => Some(w)
    case _ => None
  }

  function CondOf(p: Pc): Option<Cond> {
    match p
    case WaitRelease(c, _) => Some(c)
    case WaitUp(c, _) => Some(c)
    case WaitDown(c, _) => Some(c)
    case WaitAcquire(c) => Some(c)
    case SignalUp(c, _, _) => Some(c)
    case Broadcast(c) => Some(c)
    case Test(_, Reacquire(c, _)) => Some(c)
    case _ => None
  }

  ghost predicate Increasing(s: seq<Ticket>) {
    forall i, j :: 0 <= i < j < |s| ==> s[i] < s[j]
  }

  /** Conditions and tickets named by a program counter exist. */
  predicate OwnerOk(t: Tid, p: Pc, queue: map<Cond, seq<Ticket>>, tickets: map<Ticket, TicketInfo>) {
    && (CondOf(p).Some? ==> CondOf(p).value in queue)
    && (TicketOf(p).Some? ==>
          var w := TicketOf(p).value;
          w in tickets && tickets[w].owner == t && CondOf(p) == Some(tickets[w].cond) && !tickets[w].phase.Consumed?)
    && (p.SignalUp? ==>
          var w := p.ticket;
          w in tickets && tickets[w].phase == Popped(t) && tickets[w].cond == p.cond)
  }

  ghost predicate OwnerInv(pc: map<Tid, Pc>, queue: map<Cond, seq<Ticket>>, tickets: map<Ticket, TicketInfo>) {
    forall t :: t in pc ==> OwnerOk(t, pc[t], queue, tickets)
  }

  /** Every call of cond_wait() that has not consumed its signal is exactly one of:
      queued on its condition, popped by one signaller, or signalled. */
  ghost predicate TicketInv(pc: map<Tid, Pc>, value: map<Sem, nat>, queue: map<Cond, seq<Ticket>>,
                            tickets: map<Ticket, TicketInfo>)
  {
    forall w :: w in tickets ==>
      var i := tickets[w];
      && i.cond in queue && WaiterSem(w) in value
      && value[WaiterSem(w)] == (if i.phase.Signalled? then 1 else 0)
      && (!i.phase.Consumed? ==> i.owner in pc && TicketOf(pc[i.owner]) == Some(w))
      && (i.phase.Popped? ==> i.phase.signaller in pc && IsSignalUp(pc[i.phase.signaller], w))
  }

  predicate IsSignalUp(p: Pc, w: Ticket) {
    p.SignalUp? && p.ticket == w
  }

  ghost predicate QueueOk(c: Cond, q: seq<Ticket>, tickets: map<Ticket, TicketInfo>) {
    && Increasing(q)
    && (forall i :: 0 <= i < |q| ==> q[i] in tickets && tickets[q[i]].cond == c && tickets[q[i]].phase.Queued?)
  }

  ghost predicate QueuedOk(w: Ticket, i: TicketInfo, queue: map<Cond, seq<Ticket>>) {
    i.phase.Queued? ==> i.cond in queue && w in queue[i.cond]
  }

  /** Waiters are queued, and therefore signalled, in order of arrival. */
  ghost predicate QueueInv(queue: map<Cond, seq<Ticket>>, tickets: map<Ticket, TicketInfo>, nextTicket: Ticket) {
    && (forall c :: c in queue ==> QueueOk(c, queue[c], tickets))
    && (forall w :: w in tickets ==> w < nextTicket && QueuedOk(w, tickets[w], queue))
    && Fifo(tickets)
  }

  /** First come, first signalled. */
  ghost predicate Fifo(tickets: map<Ticket, TicketInfo>) {
    forall w, x :: w in tickets && x in tickets && w < x ==>
      (tickets[w].cond == tickets[x].cond && tickets[w].phase.Queued? ==> tickets[x].phase.Queued?)
  }

  /** A thread in sema_down() is there on behalf of what it will do next. */
  predicate TestOk(p: Pc) {
    p.Test? ==>
      match p.after
      case Return => p.sem.Plain?
      case Hold(l, _) => p.sem == LockSem(l)
      case Reacquire(_, w) => p.sem == WaiterSem(w)
  }

  ghost predicate PcInv(pc: map<Tid, Pc>, value: map<Sem, nat>) {
    forall t :: t in pc ==> TestOk(pc[t]) && (pc[t].Test? ==> pc[t].sem in value)
  }

  ghost predicate CondInv(s: State) {
    && s.lockOf.Keys == s.queue.Keys
    && OwnerInv(s.pc, s.queue, s.tickets)
    && TicketInv(s.pc, s.value, s.queue, s.tickets)
    && QueueInv(s.queue, s.tickets, s.nextTicket)
  }

  /** Who runs, who waits where, and how often semaphores went up and down. */
  ghost predicate Lists(s: State, run: bool) {
    && SchedInv(s.status, s.cur, s.ready, s.idle, s.first, run)
    && WaitInv(s.status, s.pc, s.waiters)
    && ModeInv(s.status, s.pc, s.idle)
    && CountInv(s.status, s.pc, s.value, s.waiters, s.history)
    && s.ticks < TIME_SLICE
  }

  /** What each thread's place in the code says about locks and conditions. */
  ghost predicate Roles(s: State) {
    && LockInv(s.value, s.holder, s.owner, s.lockOf, s.nextTid)
    && HoldInv(s.pc, s.holder, s.owner, s.lockOf, s.nextTid)
    && CondInv(s)
    && PcInv(s.pc, s.value)
  }

  ghost predicate Inv(s: State) {
    Lists(s, true) && Roles(s)
  }

  // ===== Lists: one thread at a time

  /** Nothing happens to the wait lists if a thread is not asleep before or after. */
  lemma {:induction false} OneThreadWait(status: map<Tid, Status>, pc: map<Tid, Pc>, waiters: map<Sem, seq<Tid>>,
                                         t: Tid, st: Status, p: Pc)
    requires WaitInv(status, pc, waiters) && t in pc && t in status
    requires !(pc[t].Test? && status[t].Blocked?) && !(p.Test? && st.Blocked?)
    ensures WaitInv(status[t := st], pc[t := p], waiters)
  {
    var status', pc' := status[t := st], pc[t := p];
    forall m, u | m in waiters ensures u in waiters[m] <==> AsleepOn(status', pc', u, m) {
      assert u in waiters[m] <==> AsleepOn(status, pc, u, m);
    }
  }

  lemma {:induction false} OneThreadWoken(status: map<Tid, Status>, pc: map<Tid, Pc>, t: Tid, st: Status, p: Pc, m: Sem)
    requires t in pc && t in status
    ensures Woken(status[t := st], pc[t := p], m) - {t} == Woken(status, pc, m) - {t}
    ensures t in Woken(status, pc, m) <==> pc[t].Test? && pc[t].sem == m && !status[t].Blocked?
    ensures t in Woken(status[t := st], pc[t := p], m) <==> p.Test? && p.sem == m && !st.Blocked?
  {
  }

  lemma {:induction false} SameWoken(status: map<Tid, Status>, pc: map<Tid, Pc>, t: Tid, st: Status, p: Pc, m: Sem)
    requires t in pc && t in status
    requires (p.Test? && p.sem == m && !st.Blocked?) == (pc[t].Test? && pc[t].sem == m && !status[t].Blocked?)
    ensures Woken(status[t := st], pc[t := p], m) == Woken(status, pc, m)
  {
  }

  /** Wait lists and counts when thread t changes but stays away from sema_down(). */
  lemma {:induction false} OneThread(s: State, t: Tid, st: Status, p: Pc)
    requires WaitInv(s.status, s.pc, s.waiters) && CountInv(s.status, s.pc, s.value, s.waiters, s.history)
    requires t in s.pc && t in s.status && !s.pc[t].Test? && !p.Test?
    ensures WaitInv(s.status[t := st], s.pc[t := p], s.waiters)
    ensures CountInv(s.status[t := st], s.pc[t := p], s.value, s.waiters, s.history)
  {
    OneThreadWait(s.status, s.pc, s.waiters, t, st, p);
    forall m | m in s.value
      ensures Woken(s.status[t := st], s.pc[t := p], m) == Woken(s.status, s.pc, m)
    {
      SameWoken(s.status, s.pc, t, st, p, m);
    }
  }

  lemma {:induction false} ModeUpdate(s: State, t: Tid, st: Status, p: Pc)
    requires ModeInv(s.status, s.pc, s.idle) && t in s.pc && Mode(st, p, t == s.idle)
    ensures ModeInv(s.status[t := st], s.pc[t := p], s.idle)
  {
  }

  /** The running thread moves on inside ordinary code. */
  predicate Ordinary(p: Pc) {
    !p.Test? && !p.Parked? && !p.IdleLoop?
  }

  lemma {:induction false} MoveLists(s: State, p: Pc)
    requires Lists(s, true) && Ordinary(s.pc[s.cur]) && Ordinary(p)
    ensures Lists(SetPc(s, p), true)
  {
    assert s.status[s.cur := Running] == s.status;
    OneThread(s, s.cur, Running, p);
  }

  // ===== Lists: schedule() and the ways into it

  lemma {:induction false} ScheduleSched(s: State)
    requires SchedInv(s.status, s.cur, s.ready, s.idle, s.first, false)
    ensures var r := Schedule(s); SchedInv(r.status, r.cur, r.ready, r.idle, r.first, true)
  {
    var r := Schedule(s);
    if s.ready != [] {
      assert s.ready[0] in s.ready;
      assert s.ready == [s.ready[0]] + s.ready[1..];
    }
  }

  /** Dead threads are on no list. */
  lemma {:induction false} DropWait(status: map<Tid, Status>, pc: map<Tid, Pc>, waiters: map<Sem, seq<Tid>>,
      dead: set<Tid>)
    requires WaitInv(status, pc, waiters) && forall d :: d in dead ==> d in pc && pc[d].User?
    ensures WaitInv(status - dead, pc - dead, waiters)
    ensures forall m :: Woken(status - dead, pc - dead, m) == Woken(status, pc, m)
  {
    forall m, u | m in waiters ensures u in waiters[m] <==> AsleepOn(status - dead, pc - dead, u, m) {
      assert u in waiters[m] <==> AsleepOn(status, pc, u, m);
    }
  }

  /** The thread schedule() picks, and the dead thread it frees. */
  ghost function Next(s: State): Tid {
    if s.ready == [] then s.idle else s.ready[0]
  }

  ghost function Dead(s: State): set<Tid>
    requires s.cur in s.status
  {
    if Next(s) != s.cur && s.status[s.cur].Dying? && s.cur != s.first then {s.cur} else {}
  }

  lemma {:induction false} NextFacts(s: State)
    requires SchedInv(s.status, s.cur, s.ready, s.idle, s.first, false)
    requires ModeInv(s.status, s.pc, s.idle)
    ensures Next(s) in s.pc && Next(s) !in Dead(s) && s.idle !in Dead(s)
    ensures Next(s) == s.idle || s.status[Next(s)].Ready?
    ensures forall d :: d in Dead(s) ==> d in s.pc && s.status[d].Dying? && s.pc[d].User?
    ensures Schedule(s).status == s.status[Next(s) := Running] - Dead(s) && Schedule(s).pc == s.pc - Dead(s)
  {
    assert s.ready != [] ==> s.ready[0] in s.ready;
  }

  lemma {:induction false} ScheduleLists(s: State)
    requires Lists(s, false)
    ensures Lists(Schedule(s), true)
  {
    ScheduleSched(s);
    NextFacts(s);
    var n := Next(s);
    assert s.pc[n := s.pc[n]] == s.pc;
    OneThreadWait(s.status, s.pc, s.waiters, n, Running, s.pc[n]);
    DropWait(s.status[n := Running], s.pc, s.waiters, Dead(s));
    forall m | m in s.value
      ensures Woken(Schedule(s).status, Schedule(s).pc, m) == Woken(s.status, s.pc, m)
    {
      SameWoken(s.status, s.pc, n, Running, s.pc[n], m);
    }
  }

  /** The running thread gives up the processor without joining the run queue. */
  lemma {:induction false} LeaveSched(s: State, st: Status)
    requires SchedInv(s.status, s.cur, s.ready, s.idle, s.first, true)
    requires st.Blocked? || (st.Dying? && s.cur != s.idle) || (st.Ready? && s.cur == s.idle)
    ensures SchedInv(s.status[s.cur := st], s.cur, s.ready, s.idle, s.first, false)
  {
  }

  lemma {:induction false} RequeueSched(s: State)
    requires SchedInv(s.status, s.cur, s.ready, s.idle, s.first, true) && s.cur != s.idle
    ensures SchedInv(s.status[s.cur := Ready], s.cur, s.ready + [s.cur], s.idle, s.first, false)
  {
  }

  lemma {:induction false} YieldLists(s: State)
    requires Lists(s.(ticks := 0), true) && InterruptsOn(s)
    ensures Lists(Yield(s), true)
  {
    var r := s.(ready := if s.cur != s.idle then s.ready + [s.cur] else s.ready,
                status := s.status[s.cur := Ready]);
    if s.cur == s.idle { LeaveSched(s, Ready); } else { RequeueSched(s); }
    assert s.pc[s.cur := s.pc[s.cur]] == s.pc;
    OneThread(s, s.cur, Ready, s.pc[s.cur]);
    ScheduleLists(r.(ticks := 0));
    assert Schedule(r.(ticks := 0)) == Schedule(r);
  }

  lemma {:induction false} TickLists(s: State)
    requires Lists(s, true) && InterruptsOn(s)
    ensures Lists(Tick(s), true)
  {
    var s1 := s.(ticks := s.ticks + 1);
    if s1.ticks >= TIME_SLICE {
      assert s1.(ticks := 0) == s.(ticks := 0);
      YieldLists(s1);
    }
  }

  lemma {:induction false} ExitLists(s: State)
    requires Lists(s, true) && s.pc[s.cur].User?
    ensures Lists(Exit(s), true)
  {
    LeaveSched(s, Dying);
    assert s.pc[s.cur := s.pc[s.cur]] == s.pc;
    OneThread(s, s.cur, Dying, s.pc[s.cur]);
    ScheduleLists(s.(status := s.status[s.cur := Dying]));
  }

  /** A thread blocks without waiting for a semaphore. */
  lemma {:induction false} BlockLists(s: State, p: Pc)
    requires Lists(s, true)
    requires (p.Parked? && s.pc[s.cur].User?) || (p.IdleLoop? && s.pc[s.cur].IdleLoop?)
    ensures Lists(Block(s, p), true)
  {
    LeaveSched(s, Blocked);
    OneThread(s, s.cur, Blocked, p);
    ScheduleLists(s.(status := s.status[s.cur := Blocked], pc := s.pc[s.cur := p]));
  }

  // ===== Lists: sema_down()

  lemma {:induction false} SleepWait(s: State, m: Sem, a: After)
    requires WaitInv(s.status, s.pc, s.waiters) && m in s.waiters
    requires s.cur in s.pc && s.cur in s.status && !s.status[s.cur].Blocked?
    ensures WaitInv(s.status[s.cur := Blocked], s.pc[s.cur := Test(m, a)], s.waiters[m := s.waiters[m] + [s.cur]])
  {
    var status, pc, waiters := s.status[s.cur := Blocked], s.pc[s.cur := Test(m, a)],
      s.waiters[m := s.waiters[m] + [s.cur]];
    forall k, u | k in waiters ensures u in waiters[k] <==> AsleepOn(status, pc, u, k) {
      assert u in s.waiters[k] <==> AsleepOn(s.status, s.pc, u, k);
    }
    assert !AsleepOn(s.status, s.pc, s.cur, m);
  }

  lemma {:induction false} SleepCount(s: State, m: Sem, a: After)
    requires CountInv(s.status, s.pc, s.value, s.waiters, s.history) && m in s.value && s.value[m] == 0
    requires s.cur in s.pc && s.cur in s.status && (!s.pc[s.cur].Test? || s.pc[s.cur].sem == m)
    ensures CountInv(s.status[s.cur := Blocked], s.pc[s.cur := Test(m, a)], s.value,
                     s.waiters[m := s.waiters[m] + [s.cur]], s.history)
  {
    var status, pc := s.status[s.cur := Blocked], s.pc[s.cur := Test(m, a)];
    forall k | k in s.value && k != m ensures Woken(status, pc, k) == Woken(s.status, s.pc, k) {
      SameWoken(s.status, s.pc, s.cur, Blocked, Test(m, a), k);
    }
  }

  /** The thread arrives at the loop test from outside, or returns to it. */
  predicate Arrives(p: Pc, m: Sem) {
    Ordinary(p) || (p.Test? && p.sem == m)
  }

  lemma {:induction false} SleepLists(s: State, m: Sem, a: After)
    requires Lists(s, true) && m in s.value && s.value[m] == 0 && Arrives(s.pc[s.cur], m)
    ensures Lists(TestSema(s, m, a), true)
  {
    var r := s.(waiters := s.waiters[m := s.waiters[m] + [s.cur]],
                status := s.status[s.cur := Blocked], pc := s.pc[s.cur := Test(m, a)]);
    assert Lists(r, false) by {
      LeaveSched(s, Blocked);
      ModeUpdate(s, s.cur, Blocked, Test(m, a));
      SleepWait(s, m, a);
      SleepCount(s, m, a);
    }
    ScheduleLists(r);
    assert TestSema(s, m, a) == Schedule(r);
  }

  /** A thread woken from m, or arriving for the first time, takes one unit. */
  lemma {:induction false} TakeCount(s: State, m: Sem, p: Pc)
    requires CountInv(s.status, s.pc, s.value, s.waiters, s.history) && m in s.value && s.value[m] > 0
    requires s.cur in s.pc && s.cur in s.status && !s.status[s.cur].Blocked? && !p.Test?
    requires !s.pc[s.cur].Test? || s.pc[s.cur].sem == m
    ensures var r := Decrement(s, m); CountInv(s.status, s.pc[s.cur := p], r.value, s.waiters, r.history)
  {
    var r := Decrement(s, m);
    assert r.value == s.value[m := s.value[m] - 1];
    assert r.history == s.history[m := s.history[m].(downs := s.history[m].downs + 1)];
    LeavesWoken(s.status, s.pc, s.cur, s.status[s.cur], p, m);
    CountDown(s.status, s.pc, s.pc[s.cur := p], s.value, r.value, s.waiters, s.history, r.history, m);
  }

  /** A thread that goes on leaves the woken threads of at most one semaphore. */
  lemma {:induction false} LeavesWoken(status: map<Tid, Status>, pc: map<Tid, Pc>, t: Tid, st: Status, p: Pc, m: Sem)
    requires t in pc && t in status && st == status[t] && !p.Test? && (!pc[t].Test? || pc[t].sem == m)
    ensures forall k :: k != m ==> Woken(status, pc[t := p], k) == Woken(status, pc, k)
    ensures |Woken(status, pc, m)| <= |Woken(status, pc[t := p], m)| + 1
  {
    assert status[t := st] == status;
    forall k | k != m ensures Woken(status, pc[t := p], k) == Woken(status, pc, k) {
      SameWoken(status, pc, t, st, p, k);
    }
    OneThreadWoken(status, pc, t, st, p, m);
    OneLess(Woken(status, pc, m), Woken(status, pc[t := p], m), t);
  }

  /** One down less, by a thread that may have been the only one woken. */
  lemma {:induction false} CountDown(status: map<Tid, Status>, pc: map<Tid, Pc>, pc': map<Tid, Pc>,
      value: map<Sem, nat>, value': map<Sem, nat>, waiters: map<Sem, seq<Tid>>, history: map<Sem, History>,
      history': map<Sem, History>, m: Sem)
    requires CountInv(status, pc, value, waiters, history) && m in value && value[m] > 0
    requires value' == value[m := value[m] - 1]
    requires m in history && history' == history[m := history[m].(downs := history[m].downs + 1)]
    requires forall k :: k in value && k != m ==> Woken(status, pc', k) == Woken(status, pc, k)
    requires |Woken(status, pc, m)| <= |Woken(status, pc', m)| + 1
    ensures CountInv(status, pc', value', waiters, history')
  {
  }

  lemma {:induction false} OneLess(a: set<Tid>, b: set<Tid>, t: Tid)
    requires a - {t} == b - {t}
    ensures |a| <= |b| + 1
  {
    forall x | x in a ensures x in b + {t} {
      assert x == t || x in a - {t};
    }
    assert b + {t} == a + (b + {t} - a);
  }

  lemma {:induction false} TakeLists(s: State, m: Sem, p: Pc)
    requires Lists(s, true) && m in s.value && s.value[m] > 0
    requires (Arrives(s.pc[s.cur], m) && Ordinary(p)) || (s.pc[s.cur] == p && !p.Test?)
    ensures Lists(SetPc(Decrement(s, m), p), true)
  {
    assert s.status[s.cur := Running] == s.status;
    OneThreadWait(s.status, s.pc, s.waiters, s.cur, Running, p);
    TakeCount(s, m, p);
  }

  // ===== Lists: sema_up(), thread_create()

  lemma {:induction false} UnblockSched(s: State, t: Tid)
    requires SchedInv(s.status, s.cur, s.ready, s.idle, s.first, true) && t in s.status && s.status[t].Blocked?
      && t != s.idle
    ensures SchedInv(s.status[t := Ready], s.cur, s.ready + [t], s.idle, s.first, true)
  {
  }

  /** The longest waiter leaves the list and becomes a woken thread. */
  lemma {:induction false} WakeWait(s: State, m: Sem, t: Tid, rest: seq<Tid>)
    requires WaitInv(s.status, s.pc, s.waiters) && m in s.waiters && s.waiters[m] == [t] + rest
    ensures AsleepOn(s.status, s.pc, t, m)
    ensures WaitInv(s.status[t := Ready], s.pc, s.waiters[m := rest])
  {
    var w := s.waiters[m];
    assert t in w && w[0] == t;
    assert AsleepOn(s.status, s.pc, t, m);
    assert forall i :: 0 <= i < |rest| ==> rest[i] == w[i + 1];
    var status, waiters := s.status[t := Ready], s.waiters[m := rest];
    forall k, u | k in waiters ensures u in waiters[k] <==> AsleepOn(status, s.pc, u, k) {
      assert u in s.waiters[k] <==> AsleepOn(s.status, s.pc, u, k);
      assert u in w <==> u == t || u in rest;
    }
  }

  lemma {:induction false} WakeCount(s: State, m: Sem, t: Tid, rest: seq<Tid>, value: map<Sem, nat>,
      history: map<Sem, History>)
    requires CountInv(s.status, s.pc, s.value, s.waiters, s.history) && m in s.value
    requires AsleepOn(s.status, s.pc, t, m) && s.waiters[m] == [t] + rest
    requires value == s.value[m := s.value[m] + 1]
    requires history == s.history[m := s.history[m].(ups := s.history[m].ups + 1)]
    ensures CountInv(s.status[t := Ready], s.pc, value, s.waiters[m := rest], history)
  {
    assert s.pc[t := s.pc[t]] == s.pc;
    forall k | k in s.value && k != m
      ensures Woken(s.status[t := Ready], s.pc, k) == Woken(s.status, s.pc, k)
    {
      SameWoken(s.status, s.pc, t, Ready, s.pc[t], k);
    }
    OneThreadWoken(s.status, s.pc, t, Ready, s.pc[t], m);
    var b, a := Woken(s.status, s.pc, m), Woken(s.status[t := Ready], s.pc, m);
    assert a == b + {t} && t !in b;
  }

  lemma {:induction false} WakeLists(s: State, m: Sem, t: Tid, rest: seq<Tid>)
    requires Lists(s, true) && m in s.value && s.waiters[m] == [t] + rest
    ensures t in s.status && s.status[t].Blocked?
    ensures Lists(SemaUp(s, m), true)
  {
    var r := SemaUp(s, m);
    assert s.waiters[m][0] == t && s.waiters[m][1..] == rest;
    assert r.status == s.status[t := Ready] && r.waiters == s.waiters[m := rest] && r.ready == s.ready + [t];
    WakeWait(s, m, t, rest);
    WakeCount(s, m, t, rest, r.value, r.history);
    UnblockSched(s, t);
  }

  lemma {:induction false} QuietUpLists(s: State, m: Sem)
    requires Lists(s, true) && m in s.value && s.waiters[m] == []
    ensures Lists(SemaUp(s, m), true)
  {
  }

  lemma {:induction false} UpLists(s: State, m: Sem)
    requires Lists(s, true) && m in s.value
    ensures CanWake(s, m)
    ensures Lists(SemaUp(s, m), true)
  {
    if s.waiters[m] == [] {
      QuietUpLists(s, m);
    } else {
      assert s.waiters[m] == [s.waiters[m][0]] + s.waiters[m][1..];
      WakeLists(s, m, s.waiters[m][0], s.waiters[m][1..]);
    }
  }

  lemma {:induction false} CreateLists(s: State)
    requires Lists(s, true) && s.nextTid !in s.pc
    ensures Lists(Create(s), true)
  {
    var t := s.nextTid;
    var r := Create(s);
    assert r.status == s.status[t := Ready];
    forall m, u | m in s.waiters ensures u in s.waiters[m] <==> AsleepOn(r.status, r.pc, u, m) {
      assert u in s.waiters[m] <==> AsleepOn(s.status, s.pc, u, m);
    }
    forall m | m in s.value ensures Woken(r.status, r.pc, m) == Woken(s.status, s.pc, m) {
    }
  }

  lemma {:induction false} UnparkLists(s: State, t: Tid)
    requires Lists(s, true) && t in s.pc && s.pc[t].Parked?
    ensures s.status[t].Blocked? && Lists(Unblock(s.(pc := s.pc[t := User]), t), true)
  {
    UnblockSched(s, t);
    OneThread(s, t, Ready, User);
  }

  lemma {:induction false} InitLists(s: State, m: Sem)
    requires Lists(s, true) && forall t :: t in s.pc && s.pc[t].Test? ==> s.pc[t].sem != m
    ensures Lists(InitSema(s, m, 0), true)
  {
    var r := InitSema(s, m, 0);
    forall k, u | k in r.waiters ensures u in r.waiters[k] <==> AsleepOn(s.status, s.pc, u, k) {
    }
  }

  // ===== Roles: program counters

  lemma {:induction false} DropRoles(s: State, dead: set<Tid>)
    requires Roles(s) && forall d :: d in dead ==> d in s.pc && s.pc[d].User?
    ensures Roles(s.(pc := s.pc - dead))
  {
  }

  /** TicketInv when thread t moves on but keeps its ticket, if any. */
  lemma {:induction false} KeepTickets(pc: map<Tid, Pc>, value: map<Sem, nat>, queue: map<Cond, seq<Ticket>>,
                                       tickets: map<Ticket, TicketInfo>, t: Tid, p: Pc)
    requires TicketInv(pc, value, queue, tickets) && t in pc
    requires TicketOf(p) == TicketOf(pc[t]) && !pc[t].SignalUp?
    ensures TicketInv(pc[t := p], value, queue, tickets)
  {
  }

  /** The thread moves to a place it is entitled to. */
  lemma {:induction false} MoveRoles(s: State, t: Tid, p: Pc)
    requires Roles(s) && t in s.pc
    requires HoldOk(t, p, s.holder, s.owner, s.lockOf) && OwnerOk(t, p, s.queue, s.tickets)
    requires TestOk(p) && (p.Test? ==> p.sem in s.value)
    requires TicketOf(p) == TicketOf(s.pc[t]) && !s.pc[t].SignalUp?
    ensures Roles(s.(pc := s.pc[t := p]))
  {
    KeepTickets(s.pc, s.value, s.queue, s.tickets, t, p);
    MoveHold(s.pc, s.holder, s.owner, s.lockOf, s.nextTid, t, p);
    MoveOwners(s.pc, s.queue, s.tickets, t, p);
    MovePcs(s.pc, s.value, t, p);
  }

  lemma {:induction false} MoveHold(pc: map<Tid, Pc>, holder: map<Lock, Option<Tid>>, owner: map<Lock, Option<Tid>>,
                                    lockOf: map<Cond, Lock>, nextTid: Tid, t: Tid, p: Pc)
    requires HoldInv(pc, holder, owner, lockOf, nextTid) && t in pc && HoldOk(t, p, holder, owner, lockOf)
    ensures HoldInv(pc[t := p], holder, owner, lockOf, nextTid)
  {
  }

  lemma {:induction false} MoveOwners(pc: map<Tid, Pc>, queue: map<Cond, seq<Ticket>>,
      tickets: map<Ticket, TicketInfo>, t: Tid, p: Pc)
    requires OwnerInv(pc, queue, tickets) && t in pc && OwnerOk(t, p, queue, tickets)
    ensures OwnerInv(pc[t := p], queue, tickets)
  {
  }

  lemma {:induction false} MovePcs(pc: map<Tid, Pc>, value: map<Sem, nat>, t: Tid, p: Pc)
    requires PcInv(pc, value) && t in pc && TestOk(p) && (p.Test? ==> p.sem in value)
    ensures PcInv(pc[t := p], value)
  {
  }

  /** Changing the value of a plain semaphore concerns neither locks nor conditions. */
  lemma {:induction false} PlainRoles(s: State, m: Sem, v: nat)
    requires Roles(s) && m.Plain? && m in s.value
    ensures Roles(s.(value := s.value[m := v]))
  {
  }

  lemma {:induction false} CreateRoles(s: State)
    requires Roles(s)
    ensures s.nextTid !in s.pc
    ensures Roles(s.(nextTid := s.nextTid + 1, pc := s.pc[s.nextTid := User]))
  {
    var t := s.nextTid;
    var pc := s.pc[t := User];
    assert HoldOk(t, User, s.holder, s.owner, s.lockOf) && OwnerOk(t, User, s.queue, s.tickets);
    assert t !in s.pc;
  }

  // ===== Roles: locks

  /** The locks' half of Roles. */
  ghost predicate Locks(s: State) {
    && LockInv(s.value, s.holder, s.owner, s.lockOf, s.nextTid)
    && HoldInv(s.pc, s.holder, s.owner, s.lockOf, s.nextTid)
  }

  /** The other half of Roles when a thread moves on and a lock changes hands. */
  lemma {:induction false} LockStepRest(s: State, l: Lock, v: nat, p: Pc)
    requires CondInv(s) && PcInv(s.pc, s.value) && s.cur in s.pc && LockSem(l) in s.value
    requires !p.Test? && OwnerOk(s.cur, p, s.queue, s.tickets)
    requires TicketOf(p) == TicketOf(s.pc[s.cur]) && !s.pc[s.cur].SignalUp?
    ensures CondInv(s.(pc := s.pc[s.cur := p], value := s.value[LockSem(l) := v]))
      && CondInv(s.(pc := s.pc[s.cur := p]))
    ensures PcInv(s.pc[s.cur := p], s.value[LockSem(l) := v]) && PcInv(s.pc[s.cur := p], s.value)
  {
    KeepTickets(s.pc, s.value, s.queue, s.tickets, s.cur, p);
  }

  /** A lock's semaphore is taken: its owner is about to set the holder. */
  lemma {:induction false} TakeLock(s: State, l: Lock, p: Pc)
    requires Locks(s) && s.cur in s.pc && l in s.holder && s.value[LockSem(l)] > 0 && s.holder[l] != Some(s.cur)
    requires p.SetHolder? && p.lock == l
    ensures Locks(s.(value := s.value[LockSem(l) := s.value[LockSem(l)] - 1],
                     owner := s.owner[l := Some(s.cur)], pc := s.pc[s.cur := p]))
  {
    var owner := s.owner[l := Some(s.cur)];
    assert s.owner[l].None?;
    assert HoldOk(s.cur, p, s.holder, owner, s.lockOf);
    forall u | u in s.pc && u != s.cur ensures HoldOk(u, s.pc[u], s.holder, owner, s.lockOf) {
      assert HoldOk(u, s.pc[u], s.holder, s.owner, s.lockOf);
    }
  }

  lemma {:induction false} TakeLockRoles(s: State, l: Lock, p: Pc)
    requires Roles(s) && s.cur in s.pc && l in s.holder && s.value[LockSem(l)] > 0 && s.holder[l] != Some(s.cur)
    requires p.SetHolder? && p.lock == l && TicketOf(s.pc[s.cur]).None? && !s.pc[s.cur].SignalUp?
    ensures Roles(s.(value := s.value[LockSem(l) := s.value[LockSem(l)] - 1],
                     owner := s.owner[l := Some(s.cur)], pc := s.pc[s.cur := p]))
  {
    TakeLock(s, l, p);
    LockStepRest(s, l, s.value[LockSem(l)] - 1, p);
  }

  /** A lock's semaphore goes up: its owner, past the release, gives it away. */
  lemma {:induction false} GiveLock(s: State, l: Lock, p: Pc)
    requires Locks(s)
    requires s.cur in s.pc && PastDown(s.pc[s.cur], s.lockOf) == Some(l)
    requires p == User || (s.pc[s.cur].WaitUp? && p == WaitDown(s.pc[s.cur].cond, s.pc[s.cur].ticket))
    ensures l in s.holder && l in s.owner
    ensures Locks(s.(value := s.value[LockSem(l) := s.value[LockSem(l)] + 1],
                     owner := s.owner[l := None], pc := s.pc[s.cur := p]))
  {
    var t := s.cur;
    assert HoldOk(t, s.pc[t], s.holder, s.owner, s.lockOf);
    assert HoldOk(t, p, s.holder, s.owner[l := None], s.lockOf);
    forall u | u in s.pc && u != t ensures HoldOk(u, s.pc[u], s.holder, s.owner[l := None], s.lockOf) {
      assert HoldOk(u, s.pc[u], s.holder, s.owner, s.lockOf);
    }
  }

  lemma {:induction false} GiveLockRoles(s: State, l: Lock, p: Pc)
    requires Roles(s) && s.cur in s.pc && PastDown(s.pc[s.cur], s.lockOf) == Some(l)
    requires p == User || (s.pc[s.cur].WaitUp? && p == WaitDown(s.pc[s.cur].cond, s.pc[s.cur].ticket))
    requires s.pc[s.cur].WaitUp? ==> p.WaitDown?
    ensures l in s.holder && LockSem(l) in s.value && l in s.owner
    ensures Roles(s.(value := s.value[LockSem(l) := s.value[LockSem(l)] + 1],
                     owner := s.owner[l := None], pc := s.pc[s.cur := p]))
  {
    GiveLock(s, l, p);
    assert OwnerOk(s.cur, p, s.queue, s.tickets) by { assert OwnerOk(s.cur, s.pc[s.cur], s.queue, s.tickets); }
    LockStepRest(s, l, s.value[LockSem(l)] + 1, p);
  }

  /** lock->holder = cur, by the owner of the lock's semaphore. */
  lemma {:induction false} SetHolder(s: State, l: Lock)
    requires Locks(s) && s.cur in s.pc && s.pc[s.cur].SetHolder? && s.pc[s.cur].lock == l
    ensures l in s.holder && Locks(s.(holder := s.holder[l := Some(s.cur)], pc := s.pc[s.cur := User]))
  {
    var holder := s.holder[l := Some(s.cur)];
    assert HoldOk(s.cur, s.pc[s.cur], s.holder, s.owner, s.lockOf);
    forall u | u in s.pc && u != s.cur ensures HoldOk(u, s.pc[u], holder, s.owner, s.lockOf) {
      assert HoldOk(u, s.pc[u], s.holder, s.owner, s.lockOf);
    }
  }

  lemma {:induction false} SetHolderRoles(s: State, l: Lock)
    requires Roles(s) && s.cur in s.pc && s.pc[s.cur].SetHolder? && s.pc[s.cur].lock == l
    ensures l in s.holder && Roles(s.(holder := s.holder[l := Some(s.cur)], pc := s.pc[s.cur := User]))
  {
    SetHolder(s, l);
    LockStepRest(s, l, 0, User);
  }

  /** lock->holder = NULL, by the holder. */
  lemma {:induction false} ClearHolder(s: State, l: Lock, p: Pc)
    requires Locks(s) && s.cur in s.pc && l in s.holder && s.holder[l] == Some(s.cur)
    requires PastDown(p, s.lockOf) == Some(l)
    ensures Locks(s.(holder := s.holder[l := None], pc := s.pc[s.cur := p]))
  {
    var holder := s.holder[l := None];
    assert HoldOk(s.cur, p, holder, s.owner, s.lockOf);
    forall u | u in s.pc && u != s.cur ensures HoldOk(u, s.pc[u], holder, s.owner, s.lockOf) {
      assert HoldOk(u, s.pc[u], s.holder, s.owner, s.lockOf);
    }
  }

  lemma {:induction false} ClearHolderRoles(s: State, l: Lock, p: Pc)
    requires Roles(s) && s.cur in s.pc && l in s.holder && s.holder[l] == Some(s.cur)
    requires PastDown(p, s.lockOf) == Some(l) && !s.pc[s.cur].SignalUp? && TicketOf(p) == TicketOf(s.pc[s.cur])
    requires OwnerOk(s.cur, p, s.queue, s.tickets)
    ensures Roles(s.(holder := s.holder[l := None], pc := s.pc[s.cur := p]))
  {
    ClearHolder(s, l, p);
    LockStepRest(s, l, 0, p);
  }

  // ===== Roles: condition variables

  /** Every thread but t keeps what its program counter says about its ticket. */
  lemma {:induction false} UpdateOwners(pc: map<Tid, Pc>, queue: map<Cond, seq<Ticket>>, queue': map<Cond, seq<Ticket>>,
                                        tickets: map<Ticket, TicketInfo>, w: Ticket, i: TicketInfo, t: Tid, p: Pc)
    requires OwnerInv(pc, queue, tickets) && t in pc && queue'.Keys == queue.Keys
    requires OwnerOk(t, p, queue', tickets[w := i])
    requires forall u :: u in pc && u != t ==>
      TicketOf(pc[u]) != Some(w) || (w in tickets && i == tickets[w].(phase := i.phase) && !i.phase.Consumed?)
    requires forall u :: u in pc && u != t && pc[u].SignalUp? ==> pc[u].ticket != w
    ensures OwnerInv(pc[t := p], queue', tickets[w := i])
  {
    forall u | u in pc && u != t ensures OwnerOk(u, pc[u], queue', tickets[w := i]) {
      assert OwnerOk(u, pc[u], queue, tickets);
    }
  }

  /** Every ticket but w keeps its owner, signaller and value. */
  lemma {:induction false} UpdateTickets(pc: map<Tid, Pc>, value: map<Sem, nat>, queue: map<Cond, seq<Ticket>>,
      queue': map<Cond, seq<Ticket>>, tickets: map<Ticket, TicketInfo>, w: Ticket, i: TicketInfo, v: nat, t: Tid, p: Pc)
    requires TicketInv(pc, value, queue, tickets) && t in pc && queue'.Keys == queue.Keys
    requires i.cond in queue && v == (if i.phase.Signalled? then 1 else 0)
    requires !i.phase.Consumed? ==> i.owner in pc && TicketOf(if i.owner == t then p else pc[i.owner]) == Some(w)
    requires i.phase.Popped? ==> i.phase.signaller == t && IsSignalUp(p, w)
    requires TicketOf(pc[t]).Some? && TicketOf(pc[t]).value != w ==> TicketOf(p) == TicketOf(pc[t])
    requires pc[t].SignalUp? ==> pc[t].ticket == w
    ensures TicketInv(pc[t := p], value[WaiterSem(w) := v], queue', tickets[w := i])
  {
  }

  lemma {:induction false} EnterQueue(queue: map<Cond, seq<Ticket>>, tickets: map<Ticket, TicketInfo>, w: Ticket,
      c: Cond, t: Tid)
    requires QueueInv(queue, tickets, w) && c in queue
    ensures QueueInv(queue[c := queue[c] + [w]], tickets[w := TicketInfo(c, t, Queued)], w + 1)
  {
    assert QueueOk(c, queue[c], tickets);
    assert Increasing(queue[c] + [w]);
  }

  /** The front of a queue has the smallest ticket of those still queued there. */
  lemma {:induction false} FrontIsFirst(queue: map<Cond, seq<Ticket>>, tickets: map<Ticket, TicketInfo>,
      nextTicket: Ticket, c: Cond, w: Ticket, rest: seq<Ticket>, x: Ticket)
    requires QueueInv(queue, tickets, nextTicket) && c in queue && queue[c] == [w] + rest
    requires x in tickets && tickets[x].cond == c && tickets[x].phase.Queued?
    ensures w <= x
  {
    var q := queue[c];
    assert QueueOk(c, q, tickets) && QueuedOk(x, tickets[x], queue);
    var i :| 0 <= i < |q| && q[i] == x;
    assert q[0] == w;
  }

  /** Other queues do not hold w, and the rest of c's queue does not either. */
  lemma {:induction false} PoppedQueueOk(k: Cond, q: seq<Ticket>, tickets: map<Ticket, TicketInfo>, w: Ticket,
      i: TicketInfo)
    requires QueueOk(k, q, tickets) && forall j :: 0 <= j < |q| ==> q[j] != w
    ensures QueueOk(k, q, tickets[w := i])
  {
  }

  lemma {:induction false} RestQueueOk(c: Cond, q: seq<Ticket>, tickets: map<Ticket, TicketInfo>, w: Ticket,
      rest: seq<Ticket>)
    requires QueueOk(c, q, tickets) && q == [w] + rest
    ensures w in tickets && tickets[w].cond == c && tickets[w].phase.Queued?
    ensures QueueOk(c, rest, tickets) && forall j :: 0 <= j < |rest| ==> rest[j] != w
  {
    assert q[0] == w;
    assert forall j :: 0 <= j < |rest| ==> rest[j] == q[j + 1];
  }

  lemma {:induction false} PoppedFifo(tickets: map<Ticket, TicketInfo>, w: Ticket, i: TicketInfo)
    requires Fifo(tickets) && w in tickets && i.cond == tickets[w].cond && !i.phase.Queued?
    requires forall x :: x in tickets && tickets[x].cond == i.cond && tickets[x].phase.Queued? ==> w <= x
    ensures Fifo(tickets[w := i])
  {
  }

  lemma {:induction false} PopQueue(queue: map<Cond, seq<Ticket>>, tickets: map<Ticket, TicketInfo>, nextTicket: Ticket,
                                    c: Cond, w: Ticket, rest: seq<Ticket>, t: Tid)
    requires QueueInv(queue, tickets, nextTicket) && c in queue && queue[c] == [w] + rest
    ensures w in tickets && tickets[w].cond == c && tickets[w].phase.Queued?
    ensures QueueInv(queue[c := rest], tickets[w := tickets[w].(phase := Popped(t))], nextTicket)
  {
    RestQueueOk(c, queue[c], tickets, w, rest);
    var i := tickets[w].(phase := Popped(t));
    PoppedQueueOk(c, rest, tickets, w, i);
    forall k | k in queue && k != c ensures QueueOk(k, queue[k], tickets[w := i]) {
      assert QueueOk(k, queue[k], tickets);
      PoppedQueueOk(k, queue[k], tickets, w, i);
    }
    forall x | x in tickets && tickets[x].cond == c && tickets[x].phase.Queued? ensures w <= x {
      FrontIsFirst(queue, tickets, nextTicket, c, w, rest, x);
    }
    PoppedFifo(tickets, w, i);
    PoppedQueued(queue, tickets, nextTicket, c, w, rest, i, tickets[w := i]);
  }

  lemma {:induction false} PoppedQueued(queue: map<Cond, seq<Ticket>>, tickets: map<Ticket, TicketInfo>,
      nextTicket: Ticket, c: Cond, w: Ticket, rest: seq<Ticket>, i: TicketInfo, after: map<Ticket, TicketInfo>)
    requires forall x :: x in tickets ==> x < nextTicket && QueuedOk(x, tickets[x], queue)
    requires c in queue && queue[c] == [w] + rest && w in tickets && !i.phase.Queued? && after == tickets[w := i]
    ensures forall x :: x in after ==> x < nextTicket && QueuedOk(x, after[x], queue[c := rest])
  {
    forall x | x in tickets && x != w ensures QueuedOk(x, tickets[x], queue[c := rest]) {
      assert QueuedOk(x, tickets[x], queue);
      assert x in [w] + rest ==> x in rest;
    }
  }

  lemma {:induction false} PhaseQueue(queue: map<Cond, seq<Ticket>>, tickets: map<Ticket, TicketInfo>,
      nextTicket: Ticket, w: Ticket, ph: Phase)
    requires QueueInv(queue, tickets, nextTicket) && w in tickets && !tickets[w].phase.Queued? && !ph.Queued?
    ensures QueueInv(queue, tickets[w := tickets[w].(phase := ph)], nextTicket)
  {
  }

  lemma {:induction false} EnterWaitTickets(s: State, c: Cond, w: Ticket)
    requires CondInv(s) && s.cur in s.pc && c in s.queue && w == s.nextTicket && s.pc[s.cur].User?
    ensures CondInv(s.(nextTicket := w + 1, queue := s.queue[c := s.queue[c] + [w]],
                       tickets := s.tickets[w := TicketInfo(c, s.cur, Queued)],
                       value := s.value[WaiterSem(w) := 0], pc := s.pc[s.cur := WaitRelease(c, w)]))
  {
    var queue, i, p := s.queue[c := s.queue[c] + [w]], TicketInfo(c, s.cur, Queued), WaitRelease(c, w);
    assert w !in s.tickets;
    assert queue.Keys == s.queue.Keys;
    UpdateOwners(s.pc, s.queue, queue, s.tickets, w, i, s.cur, p);
    UpdateTickets(s.pc, s.value, s.queue, queue, s.tickets, w, i, 0, s.cur, p);
    EnterQueue(s.queue, s.tickets, w, c, s.cur);
  }

  lemma {:induction false} PopTickets(s: State, c: Cond, w: Ticket, rest: seq<Ticket>, p: Pc)
    requires CondInv(s) && s.cur in s.pc && c in s.queue && s.queue[c] == [w] + rest
    requires (s.pc[s.cur].User? || s.pc[s.cur].Broadcast?) && p.SignalUp? && p.cond == c && p.ticket == w
    ensures w in s.tickets
    ensures CondInv(s.(queue := s.queue[c := rest], tickets := s.tickets[w := s.tickets[w].(phase := Popped(s.cur))],
                       pc := s.pc[s.cur := p]))
  {
    PopQueue(s.queue, s.tickets, s.nextTicket, c, w, rest, s.cur);
    var i := s.tickets[w].(phase := Popped(s.cur));
    var queue := s.queue[c := rest];
    assert queue.Keys == s.queue.Keys;
    UpdateOwners(s.pc, s.queue, queue, s.tickets, w, i, s.cur, p);
    UpdateTickets(s.pc, s.value, s.queue, queue, s.tickets, w, i, 0, s.cur, p);
    assert s.value[WaiterSem(w) := 0] == s.value;
  }

  /** The popped waiter's private semaphore goes up. */
  lemma {:induction false} SignalTickets(s: State, w: Ticket, p: Pc)
    requires CondInv(s) && s.cur in s.pc && s.pc[s.cur].SignalUp? && s.pc[s.cur].ticket == w
    requires p == User || p == Broadcast(s.pc[s.cur].cond)
    ensures w in s.tickets && WaiterSem(w) in s.value && s.value[WaiterSem(w)] == 0
    ensures CondInv(s.(tickets := s.tickets[w := s.tickets[w].(phase := Signalled)],
                       value := s.value[WaiterSem(w) := 1], pc := s.pc[s.cur := p]))
  {
    assert OwnerOk(s.cur, s.pc[s.cur], s.queue, s.tickets);
    var i := s.tickets[w].(phase := Signalled);
    assert forall u :: u in s.pc && u != s.cur && s.pc[u].SignalUp? ==> OwnerOk(u, s.pc[u], s.queue, s.tickets);
    UpdateOwners(s.pc, s.queue, s.queue, s.tickets, w, i, s.cur, p);
    UpdateTickets(s.pc, s.value, s.queue, s.queue, s.tickets, w, i, 1, s.cur, p);
    PhaseQueue(s.queue, s.tickets, s.nextTicket, w, Signalled);
  }

  /** A cond_wait() consumes its signal. */
  lemma {:induction false} ConsumeTickets(s: State, w: Ticket, p: Pc)
    requires CondInv(s) && s.cur in s.pc && TicketOf(s.pc[s.cur]) == Some(w) && CondOf(s.pc[s.cur]).Some?
    requires WaiterSem(w) in s.value && s.value[WaiterSem(w)] > 0 && p == WaitAcquire(CondOf(s.pc[s.cur]).value)
    ensures w in s.tickets && s.value[WaiterSem(w)] == 1
    ensures CondInv(s.(tickets := s.tickets[w := s.tickets[w].(phase := Consumed)],
                       value := s.value[WaiterSem(w) := 0], pc := s.pc[s.cur := p]))
  {
    assert OwnerOk(s.cur, s.pc[s.cur], s.queue, s.tickets);
    var i := s.tickets[w].(phase := Consumed);
    assert forall u :: u in s.pc && u != s.cur ==> OwnerOk(u, s.pc[u], s.queue, s.tickets);
    UpdateOwners(s.pc, s.queue, s.queue, s.tickets, w, i, s.cur, p);
    UpdateTickets(s.pc, s.value, s.queue, s.queue, s.tickets, w, i, 0, s.cur, p);
    PhaseQueue(s.queue, s.tickets, s.nextTicket, w, Consumed);
  }

  /** Locks and sleeping threads when a private semaphore changes. */
  lemma {:induction false} WaiterSemRoles(s: State, w: Ticket, v: nat, p: Pc)
    requires Locks(s) && PcInv(s.pc, s.value)
    requires s.cur in s.pc && HoldOk(s.cur, p, s.holder, s.owner, s.lockOf) && !p.Test?
    ensures LockInv(s.value[WaiterSem(w) := v], s.holder, s.owner, s.lockOf, s.nextTid)
    ensures HoldInv(s.pc[s.cur := p], s.holder, s.owner, s.lockOf, s.nextTid)
    ensures PcInv(s.pc[s.cur := p], s.value[WaiterSem(w) := v]) && PcInv(s.pc[s.cur := p], s.value)
  {
  }

  /** cond_wait() has queued its semaphore; the lock is still held. */
  lemma {:induction false} EnterWaitRoles(s: State, c: Cond)
    requires Roles(s) && s.cur in s.pc && s.pc[s.cur].User? && c in s.lockOf && s.holder[s.lockOf[c]] == Some(s.cur)
    ensures c in s.queue && Roles(EnterWait(s, c))
  {
    WaiterSemRoles(s, s.nextTicket, 0, WaitRelease(c, s.nextTicket));
    EnterWaitTickets(s, c, s.nextTicket);
  }

  /** The running thread, which holds the condition's lock, is about to signal. */
  lemma {:induction false} PopLocks(s: State, c: Cond, w: Ticket, broadcast: bool)
    requires Locks(s) && PcInv(s.pc, s.value) && s.cur in s.pc
    requires c in s.lockOf && s.lockOf[c] in s.holder && s.holder[s.lockOf[c]] == Some(s.cur)
    ensures HoldInv(s.pc[s.cur := SignalUp(c, w, broadcast)], s.holder, s.owner, s.lockOf, s.nextTid)
    ensures PcInv(s.pc[s.cur := SignalUp(c, w, broadcast)], s.value)
  {
    MoveHold(s.pc, s.holder, s.owner, s.lockOf, s.nextTid, s.cur, SignalUp(c, w, broadcast));
    MovePcs(s.pc, s.value, s.cur, SignalUp(c, w, broadcast));
  }

  /** cond_signal() has taken the longest waiter off the condition's list. */
  lemma {:induction false} PopRoles(s: State, c: Cond, broadcast: bool)
    requires Roles(s) && s.cur in s.pc && (s.pc[s.cur].User? || s.pc[s.cur].Broadcast?)
    requires c in s.lockOf && s.holder[s.lockOf[c]] == Some(s.cur) && c in s.queue && s.queue[c] != []
    ensures Roles(PopWaiter(s, c, broadcast))
  {
    var w, rest := s.queue[c][0], s.queue[c][1..];
    assert s.queue[c] == [w] + rest;
    PopTickets(s, c, w, rest, SignalUp(c, w, broadcast));
    PopLocks(s, c, w, broadcast);
  }

  lemma {:induction false} SignalRoles(s: State, w: Ticket, p: Pc)
    requires Roles(s) && s.cur in s.pc && s.pc[s.cur].SignalUp? && s.pc[s.cur].ticket == w && IsSema(s, WaiterSem(w))
    requires p == User || p == Broadcast(s.pc[s.cur].cond)
    ensures Roles(FinishSignal(s, w, p))
  {
    var r := FinishSignal(s, w, p);
    assert HoldOk(s.cur, s.pc[s.cur], s.holder, s.owner, s.lockOf);
    WaiterSemRoles(s, w, 1, p);
    assert r.pc == s.pc[s.cur := p] && r.value == s.value[WaiterSem(w) := s.value[WaiterSem(w)] + 1];
    SignalTickets(s, w, p);
  }

  lemma {:induction false} ConsumeRoles(s: State, c: Cond, w: Ticket)
    requires Roles(s) && s.cur in s.pc && TicketOf(s.pc[s.cur]) == Some(w) && CondOf(s.pc[s.cur]) == Some(c)
    requires WaiterSem(w) in s.value && s.value[WaiterSem(w)] > 0
    requires c in s.lockOf && s.holder[s.lockOf[c]] != Some(s.cur)
    ensures w in s.tickets && s.value[WaiterSem(w)] == 1
    ensures Roles(s.(tickets := s.tickets[w := s.tickets[w].(phase := Consumed)],
                     value := s.value[WaiterSem(w) := 0], pc := s.pc[s.cur := WaitAcquire(c)]))
  {
    ConsumeTickets(s, w, WaitAcquire(c));
    WaiterSemRoles(s, w, 0, WaitAcquire(c));
  }
}
