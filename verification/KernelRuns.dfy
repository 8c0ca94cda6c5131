/** What holds on every run of the thread and synchronisation machine. */
module KernelRuns {
  import opened Basics
  import opened KernelState
  import opened KernelInvariant

  // ===== Each step keeps Lists

  lemma {:induction false} TestLists(s: State, m: Sem, a: After)
    requires Lists(s, true) && m in s.value && Arrives(s.pc[s.cur], m)
    ensures Lists(TestSema(s, m, a), true)
  {
    if s.value[m] == 0 {
      SleepLists(s, m, a);
    } else {
      TakeLists(s, m, Resume(a));
    }
  }

  /** sema_up() followed by a move inside ordinary code. */
  lemma {:induction false} UpMoveLists(s: State, m: Sem, p: Pc)
    requires Lists(s, true) && m in s.value && Ordinary(s.pc[s.cur]) && Ordinary(p)
    ensures CanWake(s, m) && Lists(SetPc(SemaUp(s, m), p), true)
  {
    UpLists(s, m);
    MoveLists(SemaUp(s, m), p);
  }

  lemma {:induction false} EnterWaitLists(s: State, c: Cond)
    requires Lists(s, true) && c in s.queue && s.pc[s.cur].User?
    requires forall t :: t in s.pc && s.pc[t].Test? ==> s.pc[t].sem != WaiterSem(s.nextTicket)
    ensures Lists(EnterWait(s, c), true)
  {
    InitLists(s, WaiterSem(s.nextTicket));
    MoveLists(InitSema(s, WaiterSem(s.nextTicket), 0), WaitRelease(c, s.nextTicket));
  }

  /** Private semaphores of future cond_wait() calls are in nobody's hands. */
  lemma {:induction false} FreshTicket(s: State)
    requires Roles(s)
    ensures forall t :: t in s.pc && s.pc[t].Test? ==> s.pc[t].sem != WaiterSem(s.nextTicket)
    ensures s.nextTid !in s.pc
  {
    forall t | t in s.pc && s.pc[t].Test? ensures s.pc[t].sem != WaiterSem(s.nextTicket) {
      assert TestOk(s.pc[t]) && OwnerOk(t, s.pc[t], s.queue, s.tickets);
    }
  }

  lemma {:induction false} TryDownLists(s: State, m: Sem)
    requires Lists(s, true) && m in s.value && InterruptsOn(s)
    ensures Lists(TryDown(s, m), true)
  {
    if s.value[m] > 0 {
      TakeLists(s, m, s.pc[s.cur]);
      assert s.pc[s.cur := s.pc[s.cur]] == s.pc;
    }
  }

  lemma {:induction false} SemaSteps(s: State, a: Step)
    requires Lists(s, true) && Enabled(s, a) && (a.DownStep? || a.TryDownStep? || a.UpStep?)
    ensures Asserted(s, a) && Lists(Apply(s, a), true)
  {
    match a {
      case DownStep(m) => TestLists(s, m, Return);
      case TryDownStep(m) => TryDownLists(s, m);
      case UpStep(m) => UpLists(s, m);
    }
  }

  lemma {:induction false} AcquireSteps(s: State, a: Step)
    requires Lists(s, true) && Enabled(s, a) && (a.RetryStep? || a.AcquireStep? || a.TryAcquireStep?)
    ensures Asserted(s, a) && Lists(Apply(s, a), true)
  {
    match a {
      case RetryStep => TestLists(s, s.pc[s.cur].sem, s.pc[s.cur].after);
      case AcquireStep(l) => TestLists(s, LockSem(l), Hold(l, None));
      case TryAcquireStep(l) =>
        if s.value[LockSem(l)] > 0 { TakeLists(s, LockSem(l), SetHolder(l, None)); }
    }
  }

  lemma {:induction false} LockSteps(s: State, a: Step)
    requires Lists(s, true) && Enabled(s, a)
    requires a.SetHolderStep? || a.ReleaseStep? || a.FinishReleaseStep?
    ensures Asserted(s, a) && Lists(Apply(s, a), true)
  {
    match a {
      case SetHolderStep => MoveLists(s, User);
      case ReleaseStep(l) => MoveLists(s, FinishRelease(l));
      case FinishReleaseStep => UpMoveLists(s, LockSem(s.pc[s.cur].lock), User);
    }
  }

  lemma {:induction false} WaitSteps(s: State, a: Step)
    requires Lists(s, true) && Enabled(s, a)
    requires forall t :: t in s.pc && s.pc[t].Test? ==> s.pc[t].sem != WaiterSem(s.nextTicket)
    requires a.WaitStep? || a.WaitReleaseStep? || a.WaitUpStep?
    ensures a.WaitUpStep? ==> Asserted(s, a)
    ensures Lists(Apply(s, a), true)
  {
    var p := s.pc[s.cur];
    match a {
      case WaitStep(c) => EnterWaitLists(s, c);
      case WaitReleaseStep => MoveLists(s, WaitUp(p.cond, p.ticket));
      case WaitUpStep => UpMoveLists(s, LockSem(s.lockOf[p.cond]), WaitDown(p.cond, p.ticket));
    }
  }

  lemma {:induction false} WakeSteps(s: State, a: Step)
    requires Lists(s, true) && Enabled(s, a) && (a.WaitDownStep? || a.WaitAcquireStep?)
    ensures Lists(Apply(s, a), true)
  {
    var p := s.pc[s.cur];
    match a {
      case WaitDownStep => TestLists(s, WaiterSem(p.ticket), Reacquire(p.cond, p.ticket));
      case WaitAcquireStep => TestLists(s, LockSem(s.lockOf[p.cond]), Hold(s.lockOf[p.cond], Some(p.cond)));
    }
  }

  lemma {:induction false} PopLists(s: State, c: Cond, broadcast: bool)
    requires Lists(s, true) && c in s.queue && s.queue[c] != [] && Ordinary(s.pc[s.cur])
    ensures Lists(PopWaiter(s, c, broadcast), true)
  {
    MoveLists(s, SignalUp(c, s.queue[c][0], broadcast));
  }

  lemma {:induction false} SignalSteps(s: State, a: Step)
    requires Lists(s, true) && Enabled(s, a) && (a.SignalStep? || a.SignalUpStep?)
    ensures Asserted(s, a) && Lists(Apply(s, a), true)
  {
    var p := s.pc[s.cur];
    match a {
      case SignalStep(c) => if s.queue[c] != [] { PopLists(s, c, false); }
      case SignalUpStep => UpMoveLists(s, WaiterSem(p.ticket), if p.broadcast then Broadcast(p.cond) else User);
    }
  }

  lemma {:induction false} BroadcastSteps(s: State, a: Step)
    requires Lists(s, true) && Enabled(s, a) && (a.BroadcastStep? || a.BroadcastTestStep?)
    ensures Lists(Apply(s, a), true)
  {
    var p := s.pc[s.cur];
    match a {
      case BroadcastStep(c) => MoveLists(s, Broadcast(c));
      case BroadcastTestStep =>
        if s.queue[p.cond] != [] { PopLists(s, p.cond, true); } else { MoveLists(s, User); }
    }
  }

  lemma {:induction false} PreemptSteps(s: State, a: Step)
    requires Lists(s, true) && Enabled(s, a) && (a.TickStep? || a.YieldStep? || a.ExitStep?)
    ensures Asserted(s, a) && Lists(Apply(s, a), true)
  {
    match a {
      case TickStep => TickLists(s);
      case YieldStep => YieldLists(s);
      case ExitStep => ExitLists(s);
    }
  }

  lemma {:induction false} ReadySteps(s: State, a: Step)
    requires Lists(s, true) && Enabled(s, a) && s.nextTid !in s.pc && (a.CreateStep? || a.UnparkStep?)
    ensures Asserted(s, a) && Lists(Apply(s, a), true)
  {
    match a {
      case CreateStep => CreateLists(s);
      case UnparkStep(t) => UnparkLists(s, t);
    }
  }

  lemma {:induction false} BlockSteps(s: State, a: Step)
    requires Lists(s, true) && Enabled(s, a) && (a.IdleBlockStep? || a.ParkStep?)
    ensures Lists(Apply(s, a), true)
  {
    match a {
      case IdleBlockStep => BlockLists(s, IdleLoop);
      case ParkStep => BlockLists(s, Parked);
    }
  }

  // ===== Each step keeps Roles

  /** schedule() touches Roles only by dropping the dead thread. */
  lemma {:induction false} ScheduleRoles(s: State)
    requires Roles(s) && s.cur in s.status && (s.status[s.cur].Dying? ==> s.cur in s.pc && s.pc[s.cur].User?)
    ensures Roles(Schedule(s))
  {
    var dead := if Next(s) != s.cur && s.status[s.cur].Dying? && s.cur != s.first then {s.cur} else {};
    DropRoles(s, dead);
  }

  /** What TestSema needs to know about the place it is called from. */
  ghost predicate MayTest(s: State, m: Sem, a: After) {
    && IsSema(s, m) && TestOk(Test(m, a))
    && s.cur in s.pc && s.cur in s.status
    && var p := s.pc[s.cur];
    && !p.SignalUp? && PastDown(p, s.lockOf).None? && MustHold(p, s.lockOf).None?
    && (a.Hold? ==> a.lock in s.holder && s.holder[a.lock] != Some(s.cur))
    && (a.Reacquire? ==> TicketOf(p) == Some(a.ticket) && CondOf(p) == Some(a.cond)
                         && a.cond in s.lockOf && s.lockOf[a.cond] in s.holder
                         && s.holder[s.lockOf[a.cond]] != Some(s.cur))
    && (!a.Reacquire? ==> TicketOf(p).None?)
  }

  lemma {:induction false} SleepRoles(s: State, m: Sem, a: After)
    requires Roles(s) && MayTest(s, m, a) && s.value[m] == 0
    ensures Roles(TestSema(s, m, a))
  {
    assert OwnerOk(s.cur, s.pc[s.cur], s.queue, s.tickets);
    MoveRoles(s, s.cur, Test(m, a));
    ScheduleRoles(s.(waiters := s.waiters[m := s.waiters[m] + [s.cur]],
                     status := s.status[s.cur := Blocked], pc := s.pc[s.cur := Test(m, a)]));
  }

  lemma {:induction false} TestRoles(s: State, m: Sem, a: After)
    requires Roles(s) && MayTest(s, m, a)
    ensures Roles(TestSema(s, m, a))
  {
    if s.value[m] == 0 {
      SleepRoles(s, m, a);
    } else {
      match a {
        case Return => PassPlainRoles(s, m);
        case Hold(l, w) => TakeLockRoles(s, l, SetHolder(l, w));
        case Reacquire(c, w) => ConsumeRoles(s, c, w);
      }
    }
  }

  lemma {:induction false} PassPlainRoles(s: State, m: Sem)
    requires Roles(s) && MayTest(s, m, Return) && s.value[m] > 0
    ensures Roles(TestSema(s, m, Return))
  {
    PlainRoles(s, m, s.value[m] - 1);
    MoveRoles(s.(value := s.value[m := s.value[m] - 1]), s.cur, User);
  }

  /** A thread about to leave lock_release() or inside cond_wait() passes the
      assertions on the lock. */
  lemma {:induction false} LockFacts(s: State)
    requires Locks(s) && s.cur in s.pc
    ensures var p := s.pc[s.cur];
            && HoldOk(s.cur, p, s.holder, s.owner, s.lockOf)
            && (forall c :: c in s.lockOf ==> s.lockOf[c] in s.holder)
  {
  }

  lemma {:induction false} SemaRoles(s: State, a: Step)
    requires Roles(s) && s.cur in s.status && s.cur in s.pc && Enabled(s, a)
    requires a.DownStep? || a.TryDownStep? || a.UpStep?
    ensures Roles(Apply(s, a))
  {
    match a {
      case DownStep(m) => TestRoles(s, m, Return);
      case TryDownStep(m) => if s.value[m] > 0 { PlainRoles(s, m, s.value[m] - 1); }
      case UpStep(m) => UpRoles(s, m);
    }
  }

  lemma {:induction false} UpRoles(s: State, m: Sem)
    requires Roles(s) && IsSema(s, m) && m.Plain?
    ensures Roles(SemaUp(s, m))
  {
    PlainRoles(s, m, s.value[m] + 1);
  }

  lemma {:induction false} RetryRoles(s: State)
    requires Roles(s) && s.cur in s.status && s.cur in s.pc && s.pc[s.cur].Test? && IsSema(s, s.pc[s.cur].sem)
    ensures Roles(TestSema(s, s.pc[s.cur].sem, s.pc[s.cur].after))
  {
    var p := s.pc[s.cur];
    assert TestOk(p);
    assert OwnerOk(s.cur, p, s.queue, s.tickets);
    LockFacts(s);
    TestRoles(s, p.sem, p.after);
  }

  lemma {:induction false} AcquireRoles(s: State, l: Lock)
    requires Roles(s) && s.cur in s.status && s.cur in s.pc && Enabled(s, AcquireStep(l))
    ensures Roles(Apply(s, AcquireStep(l)))
  {
    TestRoles(s, LockSem(l), Hold(l, None));
  }

  lemma {:induction false} TryAcquireRoles(s: State, l: Lock)
    requires Roles(s) && s.cur in s.pc && Enabled(s, TryAcquireStep(l))
    ensures Roles(Apply(s, TryAcquireStep(l)))
  {
    if s.value[LockSem(l)] > 0 { TakeLockRoles(s, l, SetHolder(l, None)); }
  }

  lemma {:induction false} ReleaseRoles(s: State, a: Step)
    requires Roles(s) && s.cur in s.pc && Enabled(s, a) && (a.SetHolderStep? || a.ReleaseStep? || a.FinishReleaseStep?)
    ensures Roles(Apply(s, a))
  {
    match a {
      case SetHolderStep => SetHolderRoles(s, s.pc[s.cur].lock);
      case ReleaseStep(l) => ClearHolderRoles(s, l, FinishRelease(l));
      case FinishReleaseStep => FinishReleaseRoles(s);
    }
  }

  lemma {:induction false} FinishReleaseRoles(s: State)
    requires Roles(s) && s.cur in s.pc && Enabled(s, FinishReleaseStep)
    ensures Roles(Apply(s, FinishReleaseStep))
  {
    GiveLockRoles(s, s.pc[s.cur].lock, User);
  }

  lemma {:induction false} WaitEnterRoles(s: State, c: Cond)
    requires Roles(s) && s.cur in s.pc && Enabled(s, WaitStep(c))
    ensures Roles(Apply(s, WaitStep(c)))
  {
    EnterWaitRoles(s, c);
  }

  lemma {:induction false} WaitReleaseRoles(s: State)
    requires Roles(s) && s.cur in s.pc && Enabled(s, WaitReleaseStep)
    ensures Asserted(s, WaitReleaseStep) && Roles(Apply(s, WaitReleaseStep))
  {
    var p := s.pc[s.cur];
    LockFacts(s);
    assert OwnerOk(s.cur, p, s.queue, s.tickets);
    ClearHolderRoles(s, s.lockOf[p.cond], WaitUp(p.cond, p.ticket));
  }

  lemma {:induction false} WaitUpRoles(s: State)
    requires Roles(s) && s.cur in s.pc && Enabled(s, WaitUpStep)
    ensures Roles(Apply(s, WaitUpStep))
  {
    var p := s.pc[s.cur];
    GiveLockRoles(s, s.lockOf[p.cond], WaitDown(p.cond, p.ticket));
  }

  lemma {:induction false} WakeRoles(s: State, a: Step)
    requires Roles(s) && s.cur in s.status && s.cur in s.pc && Enabled(s, a) && (a.WaitDownStep? || a.WaitAcquireStep?)
    ensures Asserted(s, a) && Roles(Apply(s, a))
  {
    var p := s.pc[s.cur];
    LockFacts(s);
    assert OwnerOk(s.cur, p, s.queue, s.tickets);
    match a {
      case WaitDownStep => TestRoles(s, WaiterSem(p.ticket), Reacquire(p.cond, p.ticket));
      case WaitAcquireStep => TestRoles(s, LockSem(s.lockOf[p.cond]), Hold(s.lockOf[p.cond], Some(p.cond)));
    }
  }

  lemma {:induction false} SignalStepRoles(s: State, a: Step)
    requires Roles(s) && s.cur in s.pc && Enabled(s, a) && (a.SignalStep? || a.SignalUpStep?)
    ensures Roles(Apply(s, a))
  {
    var p := s.pc[s.cur];
    match a {
      case SignalStep(c) => if s.queue[c] != [] { PopRoles(s, c, false); }
      case SignalUpStep => SignalRoles(s, p.ticket, if p.broadcast then Broadcast(p.cond) else User);
    }
  }

  lemma {:induction false} BroadcastRoles(s: State, a: Step)
    requires Roles(s) && s.cur in s.pc && Enabled(s, a) && (a.BroadcastStep? || a.BroadcastTestStep?)
    ensures Asserted(s, a) && Roles(Apply(s, a))
  {
    if a.BroadcastStep? { BroadcastStartRoles(s, a.cond); } else { BroadcastTestRoles(s); }
  }

  lemma {:induction false} BroadcastStartRoles(s: State, c: Cond)
    requires Roles(s) && s.cur in s.pc && Enabled(s, BroadcastStep(c))
    ensures Roles(Apply(s, BroadcastStep(c)))
  {
    LockFacts(s);
    MoveRoles(s, s.cur, Broadcast(c));
  }

  lemma {:induction false} BroadcastTestRoles(s: State)
    requires Roles(s) && s.cur in s.pc && Enabled(s, BroadcastTestStep)
    ensures Asserted(s, BroadcastTestStep) && Roles(Apply(s, BroadcastTestStep))
  {
    var p := s.pc[s.cur];
    LockFacts(s);
    if s.queue[p.cond] != [] { PopRoles(s, p.cond, true); } else { MoveRoles(s, s.cur, User); }
  }

  lemma {:induction false} PreemptRoles(s: State, a: Step)
    requires Roles(s) && s.cur in s.status && s.cur in s.pc && Enabled(s, a)
      && (a.TickStep? || a.YieldStep? || a.ExitStep?)
    ensures Roles(Apply(s, a))
  {
    var ready := if s.cur != s.idle then s.ready + [s.cur] else s.ready;
    match a {
      case TickStep =>
        var s1 := s.(ticks := s.ticks + 1);
        if s1.ticks >= TIME_SLICE { ScheduleRoles(s1.(ready := ready, status := s.status[s.cur := Ready])); }
      case YieldStep => ScheduleRoles(s.(ready := ready, status := s.status[s.cur := Ready]));
      case ExitStep => ScheduleRoles(s.(status := s.status[s.cur := Dying]));
    }
  }

  lemma {:induction false} NewRoles(s: State, a: Step)
    requires Roles(s) && s.cur in s.status && s.cur in s.pc && Enabled(s, a) && (a.CreateStep? || a.UnparkStep?)
    ensures Roles(Apply(s, a))
  {
    match a {
      case CreateStep => CreateRoles(s);
      case UnparkStep(t) => MoveRoles(s, t, User);
    }
  }

  lemma {:induction false} ParkRoles(s: State, a: Step)
    requires Roles(s) && s.cur in s.status && s.cur in s.pc && Enabled(s, a) && (a.IdleBlockStep? || a.ParkStep?)
    ensures Roles(Apply(s, a))
  {
    match a {
      case IdleBlockStep => BlockRoles(s, IdleLoop);
      case ParkStep => BlockRoles(s, Parked);
    }
  }

  lemma {:induction false} BlockRoles(s: State, p: Pc)
    requires Roles(s) && s.cur in s.status && s.cur in s.pc && (p.Parked? || p.IdleLoop?)
    requires s.pc[s.cur].User? || s.pc[s.cur].IdleLoop?
    ensures Roles(Block(s, p))
  {
    MoveRoles(s, s.cur, p);
    ScheduleRoles(s.(status := s.status[s.cur := Blocked], pc := s.pc[s.cur := p]));
  }

  // ===== The main invariant theorem

  /** The assertions that depend on who holds a lock. */
  predicate AboutLocks(a: Step) {
    a.WaitReleaseStep? || a.WaitAcquireStep? || a.BroadcastTestStep?
  }

  lemma {:induction false} StepKeepsLists(s: State, a: Step)
    requires Inv(s) && Enabled(s, a)
    ensures AboutLocks(a) || Asserted(s, a)
    ensures Lists(Apply(s, a), true)
  {
    FreshTicket(s);
    if a.DownStep? || a.TryDownStep? || a.UpStep? {
      SemaSteps(s, a);
    } else if a.RetryStep? || a.AcquireStep? || a.TryAcquireStep? {
      AcquireSteps(s, a);
    } else if a.SetHolderStep? || a.ReleaseStep? || a.FinishReleaseStep? {
      LockSteps(s, a);
    } else if a.WaitStep? || a.WaitReleaseStep? || a.WaitUpStep? {
      WaitSteps(s, a);
    } else if a.WaitDownStep? || a.WaitAcquireStep? {
      WakeSteps(s, a);
    } else if a.SignalStep? || a.SignalUpStep? {
      SignalSteps(s, a);
    } else if a.BroadcastStep? || a.BroadcastTestStep? {
      BroadcastSteps(s, a);
    } else if a.TickStep? || a.YieldStep? || a.ExitStep? {
      PreemptSteps(s, a);
    } else if a.CreateStep? || a.UnparkStep? {
      ReadySteps(s, a);
    } else {
      BlockSteps(s, a);
    }
  }

  lemma {:induction false} SynchRoles(s: State, a: Step)
    requires Roles(s) && s.cur in s.status && s.cur in s.pc && Enabled(s, a)
    requires a.RetryStep? || a.AcquireStep? || a.TryAcquireStep? || a.WaitStep? || a.WaitReleaseStep? || a.WaitUpStep?
    ensures a.WaitReleaseStep? ==> Asserted(s, a)
    ensures Roles(Apply(s, a))
  {
    match a {
      case RetryStep => RetryRoles(s);
      case AcquireStep(l) => AcquireRoles(s, l);
      case TryAcquireStep(l) => TryAcquireRoles(s, l);
      case WaitStep(c) => WaitEnterRoles(s, c);
      case WaitReleaseStep => WaitReleaseRoles(s);
      case WaitUpStep => WaitUpRoles(s);
    }
  }

  lemma {:induction false} CondRoles(s: State, a: Step)
    requires Roles(s) && s.cur in s.status && s.cur in s.pc && Enabled(s, a)
    requires a.WaitDownStep? || a.WaitAcquireStep? || a.SignalStep? || a.SignalUpStep? || a.BroadcastStep?
      || a.BroadcastTestStep?
    ensures AboutLocks(a) ==> Asserted(s, a)
    ensures Roles(Apply(s, a))
  {
    if a.WaitDownStep? || a.WaitAcquireStep? {
      WakeRoles(s, a);
    } else if a.SignalStep? || a.SignalUpStep? {
      SignalStepRoles(s, a);
    } else {
      BroadcastRoles(s, a);
    }
  }

  lemma {:induction false} ThreadRoles(s: State, a: Step)
    requires Roles(s) && s.cur in s.status && s.cur in s.pc && Enabled(s, a)
    requires a.CreateStep? || a.UnparkStep? || a.IdleBlockStep? || a.ParkStep?
    ensures Roles(Apply(s, a))
  {
    if a.CreateStep? || a.UnparkStep? { NewRoles(s, a); } else { ParkRoles(s, a); }
  }

  lemma {:induction false} StepKeepsRoles(s: State, a: Step)
    requires Roles(s) && s.cur in s.status && s.cur in s.pc && Enabled(s, a)
    ensures AboutLocks(a) ==> Asserted(s, a)
    ensures Roles(Apply(s, a))
  {
    if a.DownStep? || a.TryDownStep? || a.UpStep? {
      SemaRoles(s, a);
    } else if a.SetHolderStep? || a.ReleaseStep? || a.FinishReleaseStep? {
      ReleaseRoles(s, a);
    } else if a.WaitDownStep? || a.WaitAcquireStep? || a.SignalStep? || a.SignalUpStep? || a.BroadcastStep?
      || a.BroadcastTestStep? {
      CondRoles(s, a);
    } else if a.TickStep? || a.YieldStep? || a.ExitStep? {
      PreemptRoles(s, a);
    } else if a.CreateStep? || a.UnparkStep? || a.IdleBlockStep? || a.ParkStep? {
      ThreadRoles(s, a);
    } else {
      SynchRoles(s, a);
    }
  }

  /** Every step keeps every invariant, and no assertion inside the primitives
      can fail. */
  lemma {:induction false} StepKeepsInv(s: State, a: Step)
    requires Inv(s) && Enabled(s, a)
    ensures Asserted(s, a)
    ensures Inv(Apply(s, a))
  {
    StepKeepsLists(s, a);
    StepKeepsRoles(s, a);
  }

  // ===== Runs

  /** The state after thread_start(): the initial thread runs, the idle thread is
      blocked or was preempted, locks are free and nobody waits. */
  ghost predicate Init(s: State) {
    && s.first != s.idle && s.cur == s.first && s.first < s.nextTid && s.idle < s.nextTid
    && (s.status == map[s.first := Running, s.idle := Blocked] || s.status == map[s.first := Running, s.idle := Ready])
    && s.pc == map[s.first := User, s.idle := IdleLoop]
    && s.ready == [] && s.ticks == 0 && s.tickets == map[]
    && s.value.Keys == s.waiters.Keys == s.history.Keys
    && (forall m :: m in s.value ==> s.waiters[m] == [] && s.history[m] == History(s.value[m], 0, 0))
    && s.owner.Keys == s.holder.Keys
    && (forall l :: l in s.holder ==>
          LockSem(l) in s.value && s.value[LockSem(l)] == 1 && s.holder[l].None? && s.owner[l].None?)
    && s.lockOf.Keys == s.queue.Keys
    && (forall c :: c in s.lockOf ==> s.lockOf[c] in s.holder && s.queue[c] == [])
  }

  ghost predicate Follows(s: State, a: Step, r: State) {
    s.cur in s.pc && Enabled(s, a) && r == Apply(s, a)
  }

  /** ss[0], as[0], ss[1], as[1], ..., ss[n] is a sequence of steps. */
  ghost predicate Steps(ss: seq<State>, acts: seq<Step>) {
    && |ss| == |acts| + 1
    && (forall i :: 0 <= i < |acts| ==> Follows(ss[i], acts[i], ss[i + 1]))
  }

  ghost predicate IsRun(ss: seq<State>, acts: seq<Step>) {
    Steps(ss, acts) && Init(ss[0])
  }

  lemma {:induction false} InitialLists(s: State)
    requires Init(s)
    ensures Lists(s, true)
  {
  }

  lemma {:induction false} InitialRoles(s: State)
    requires Init(s)
    ensures Roles(s)
  {
  }

  lemma {:induction false} InitInv(s: State)
    requires Init(s)
    ensures Inv(s)
  {
    InitialLists(s);
    InitialRoles(s);
  }

  /** Every state of every run satisfies the invariants. */
  lemma {:induction false} RunInv(ss: seq<State>, acts: seq<Step>, i: nat)
    requires IsRun(ss, acts) && i < |ss|
    ensures Inv(ss[i])
  {
    if i == 0 {
      InitInv(ss[0]);
    } else {
      RunInv(ss, acts, i - 1);
      assert Follows(ss[i - 1], acts[i - 1], ss[i]);
      StepKeepsInv(ss[i - 1], acts[i - 1]);
    }
  }

  /** A running thread that has changed its status may call schedule(); if it is the
      dying one, some other thread is there to run. */
  lemma {:induction false} MaySwitch(s: State, r: State)
    requires Inv(s) && Leaves(s, r) && (r.status[s.cur].Dying? ==> s.cur != s.idle)
    ensures ScheduleAsserted(r)
  {
    assert s.ready != [] ==> s.ready[0] in s.ready;
  }

  /** Every step that calls schedule() ends with the switch, and may make it. */
  lemma {:induction false} SwitchAsserted(s: State, a: Step)
    requires Inv(s) && Enabled(s, a) && Schedules(s, a)
    ensures Apply(s, a) == Schedule(Scheduling(s, a)) && ScheduleAsserted(Scheduling(s, a))
  {
    var r := Scheduling(s, a);
    assert a.ExitStep? ==> s.cur != s.idle;
    MaySwitch(s, r);
  }

  /** No ASSERT that the step meets fails, those of thread_current() included. */
  ghost predicate Passes(s: State, a: Step) {
    && s.cur in s.pc && Enabled(s, a) && Asserted(s, a)
    && s.cur in s.status && s.status[s.cur].Running?
    && (Schedules(s, a) ==> Apply(s, a) == Schedule(Scheduling(s, a)) && ScheduleAsserted(Scheduling(s, a)))
  }

  /** No ASSERT inside the primitives or the scheduler fails on any run. */
  lemma {:induction false} RunAssertions(ss: seq<State>, acts: seq<Step>, i: nat)
    requires IsRun(ss, acts) && i < |acts|
    ensures Passes(ss[i], acts[i])
  {
    RunInv(ss, acts, i);
    assert Follows(ss[i], acts[i], ss[i + 1]);
    StepKeepsInv(ss[i], acts[i]);
    if Schedules(ss[i], acts[i]) {
      SwitchAsserted(ss[i], acts[i]);
    }
  }
}
