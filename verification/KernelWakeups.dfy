/** Whom sema_up() wakes, and what cond_broadcast() achieves (threads/synch.c), over whole
    runs. */
module KernelWakeups {
  import opened Basics
  import opened KernelState
  import opened KernelInvariant
  import opened KernelRuns
  import opened KernelTheorems
  import opened KernelWaits

  // ----- The sleepers of a semaphore

  /** Not the private semaphore of a call that has not begun. */
  predicate Begun(s: State, m: Sem) {
    m in s.waiters && m in s.history && (m.WaiterSem? ==> m.ticket < s.nextTicket)
  }

  /** The first sleeper, if any, was made ready and the others moved up. */
  ghost predicate FirstWoken(s: State, r: State, m: Sem)
    requires m in s.waiters && m in r.waiters
  {
    s.waiters[m] != [] ==>
      var t := s.waiters[m][0];
      && s.waiters[m][1..] <= r.waiters[m]
      && t in r.status && r.status[t].Ready? && t in r.ready
  }

  /** From s to r the semaphore went up, or the sleepers stayed where they were. */
  ghost predicate SleepersMove(s: State, r: State, m: Sem) {
    Begun(s, m) ==>
      && Begun(r, m)
      && if r.history[m].ups == s.history[m].ups then s.waiters[m] <= r.waiters[m]
         else r.history[m].ups == s.history[m].ups + 1 && FirstWoken(s, r, m)
  }

  /** Nothing happens to semaphores and conditions. */
  ghost predicate SameSleepers(s: State, r: State) {
    && r.waiters == s.waiters && r.history == s.history && r.value == s.value
    && r.nextTicket == s.nextTicket && r.queue == s.queue
  }

  lemma {:induction false} SameMove(s: State, r: State, m: Sem)
    requires SameSleepers(s, r)
    ensures SleepersMove(s, r, m)
  {
  }

  lemma {:induction false} ScheduleSame(s: State)
    requires s.cur in s.status
    ensures SameSleepers(s, Schedule(s))
  {
  }

  lemma {:induction false} YieldSame(s: State)
    requires s.cur in s.status
    ensures SameSleepers(s, Yield(s))
  {
    ScheduleSame(s.(ready := if s.cur != s.idle then s.ready + [s.cur] else s.ready,
                    status := s.status[s.cur := Ready]));
  }

  lemma {:induction false} PreemptMove(s: State, a: Step, m: Sem)
    requires Sane(s) && Enabled(s, a) && (a.TickStep? || a.YieldStep? || a.ExitStep?)
    ensures SleepersMove(s, Apply(s, a), m) && SameSleepers(s, Apply(s, a))
  {
    match a
    case TickStep => YieldSame(s.(ticks := s.ticks + 1));
    case YieldStep => YieldSame(s);
    case ExitStep => ScheduleSame(s.(status := s.status[s.cur := Dying]));
    SameMove(s, Apply(s, a), m);
  }

  lemma {:induction false} BlockMove(s: State, a: Step, m: Sem)
    requires Sane(s) && Enabled(s, a) && (a.IdleBlockStep? || a.ParkStep?)
    ensures SleepersMove(s, Apply(s, a), m) && SameSleepers(s, Apply(s, a))
  {
    var p := if a.ParkStep? then Parked else IdleLoop;
    ScheduleSame(s.(status := s.status[s.cur := Blocked], pc := s.pc[s.cur := p]));
    assert Apply(s, a) == Block(s, p);
    SameMove(s, Apply(s, a), m);
  }

  lemma {:induction false} ReadyMove(s: State, a: Step, m: Sem)
    requires Sane(s) && Enabled(s, a) && (a.CreateStep? || a.UnparkStep?)
    ensures SleepersMove(s, Apply(s, a), m) && SameSleepers(s, Apply(s, a))
  {
    SameMove(s, Apply(s, a), m);
  }

  /** One more sleeper behind the others, or none. */
  lemma {:induction false} TestMove(s: State, n: Sem, a: After, m: Sem)
    requires s.cur in s.status && s.cur in s.pc && IsSema(s, n)
    ensures SleepersMove(s, TestSema(s, n, a), m) && TestSema(s, n, a).queue == s.queue
  {
    var r := TestSema(s, n, a);
    if s.value[n] == 0 {
      var q := s.(waiters := s.waiters[n := s.waiters[n] + [s.cur]], status := s.status[s.cur := Blocked],
        pc := s.pc[s.cur := Test(n, a)]);
      assert r == Schedule(q);
      ScheduleSame(q);
      SleepMove(s, n, r, m);
    } else {
      assert r == SetPc(Consume(Decrement(s, n), a), Resume(a));
      DownMove(s, n, r, m);
    }
  }

  lemma {:induction false} SleepMove(s: State, n: Sem, r: State, m: Sem)
    requires n in s.waiters && r.waiters == s.waiters[n := s.waiters[n] + [s.cur]]
    requires r.history == s.history && r.nextTicket == s.nextTicket
    ensures SleepersMove(s, r, m)
  {
  }

  lemma {:induction false} DownMove(s: State, n: Sem, r: State, m: Sem)
    requires n in s.history && r.history == s.history[n := s.history[n].(downs := s.history[n].downs + 1)]
    requires r.waiters == s.waiters && r.nextTicket == s.nextTicket
    ensures SleepersMove(s, r, m)
  {
  }

  lemma {:induction false} TestingMove(s: State, a: Step, m: Sem)
    requires Sane(s) && Enabled(s, a) && TestsSema(a)
    ensures SleepersMove(s, Apply(s, a), m) && Apply(s, a).queue == s.queue
  {
    var p := s.pc[s.cur];
    match a
    case DownStep(n) => TestMove(s, n, Return, m);
    case RetryStep => TestMove(s, p.sem, p.after, m);
    case AcquireStep(l) => TestMove(s, LockSem(l), Hold(l, None), m);
    case WaitDownStep => TestMove(s, WaiterSem(p.ticket), Reacquire(p.cond, p.ticket), m);
    case WaitAcquireStep => TestMove(s, LockSem(s.lockOf[p.cond]), Hold(s.lockOf[p.cond], Some(p.cond)), m);
  }

  /** Semaphore n goes up, whatever else changes. */
  lemma {:induction false} UpMove(s: State, n: Sem, r: State, m: Sem)
    requires IsSema(s, n)
    requires var u := SemaUp(s, n);
             r.waiters == u.waiters && r.history == u.history && r.status == u.status && r.ready == u.ready
    requires r.nextTicket == s.nextTicket
    ensures SleepersMove(s, r, m)
  {
  }

  lemma {:induction false} RaisingMove(s: State, a: Step, m: Sem)
    requires Sane(s) && Enabled(s, a) && (a.UpStep? || a.FinishReleaseStep? || a.WaitUpStep? || a.SignalUpStep?)
    ensures SleepersMove(s, Apply(s, a), m)
  {
    var p := s.pc[s.cur];
    var n := match a
      case UpStep(x) => x
      case FinishReleaseStep => LockSem(p.lock)
      case WaitUpStep => LockSem(s.lockOf[p.cond])
      case SignalUpStep => WaiterSem(p.ticket);
    UpMove(s, n, Apply(s, a), m);
  }

  lemma {:induction false} LockMove(s: State, a: Step, m: Sem)
    requires Sane(s) && Enabled(s, a)
    requires a.TryDownStep? || a.TryAcquireStep? || a.SetHolderStep? || a.ReleaseStep? || a.WaitReleaseStep?
    ensures SleepersMove(s, Apply(s, a), m)
  {
  }

  lemma {:induction false} CondMove(s: State, a: Step, m: Sem)
    requires Sane(s) && Enabled(s, a) && (a.WaitStep? || a.SignalStep? || a.BroadcastStep? || a.BroadcastTestStep?)
    ensures SleepersMove(s, Apply(s, a), m)
  {
    if a.WaitStep? { EnterMove(s, a.cond, m); } else { SameCond(s, a); }
  }

  lemma {:induction false} EnterMove(s: State, c: Cond, m: Sem)
    requires s.cur in s.pc && Enabled(s, WaitStep(c))
    ensures SleepersMove(s, Apply(s, WaitStep(c)), m)
  {
  }

  lemma {:induction false} SameCond(s: State, a: Step)
    requires s.cur in s.pc && Enabled(s, a) && (a.SignalStep? || a.BroadcastStep? || a.BroadcastTestStep?)
    ensures var r := Apply(s, a); r.waiters == s.waiters && r.history == s.history && r.nextTicket == s.nextTicket
  {
  }

  lemma {:induction false} StepMove(s: State, a: Step, m: Sem)
    requires Sane(s) && Enabled(s, a)
    ensures SleepersMove(s, Apply(s, a), m)
  {
    if TestsSema(a) {
      TestingMove(s, a, m);
    } else if a.TickStep? || a.YieldStep? || a.ExitStep? {
      PreemptMove(s, a, m);
    } else if a.IdleBlockStep? || a.ParkStep? {
      BlockMove(s, a, m);
    } else if a.CreateStep? || a.UnparkStep? {
      ReadyMove(s, a, m);
    } else if a.UpStep? || a.FinishReleaseStep? || a.WaitUpStep? || a.SignalUpStep? {
      RaisingMove(s, a, m);
    } else if a.WaitStep? || a.SignalStep? || a.BroadcastStep? || a.BroadcastTestStep? {
      CondMove(s, a, m);
    } else {
      LockMove(s, a, m);
    }
  }

  /** t was made ready by the step that ends in s, the up after `ups` of them. */
  ghost predicate WokenBy(before: State, s: State, m: Sem, ups: nat, t: Tid) {
    && m in before.history && before.history[m].ups == ups && m in s.history && s.history[m].ups == ups + 1
    && t in s.status && s.status[t].Ready? && t in s.ready
  }

  ghost predicate MoveAt(ss: seq<State>, n: nat, m: Sem)
    requires n + 1 < |ss|
  {
    SleepersMove(ss[n], ss[n + 1], m)
  }

  lemma {:induction false} MovesUp(ss: seq<State>, i: nat, j: nat, m: Sem, k: nat) returns (x: nat)
    requires i <= j < |ss| && Begun(ss[i], m) && k < |ss[i].waiters[m]|
    requires forall n :: i <= n < j ==> MoveAt(ss, n, m)
    ensures Begun(ss[j], m) && ss[i].history[m].ups <= ss[j].history[m].ups
    ensures var n := ss[j].history[m].ups - ss[i].history[m].ups;
            && (n <= k ==> k - n < |ss[j].waiters[m]| && ss[j].waiters[m][k - n] == ss[i].waiters[m][k])
            && (n > k ==> i <= x < j && WokenBy(ss[x], ss[x + 1], m, ss[i].history[m].ups + k, ss[i].waiters[m][k]))
  {
    x := i;
    if i < j {
      x := MovesUp(ss, i, j - 1, m, k);
      var s, r := ss[j - 1], ss[j];
      assert MoveAt(ss, j - 1, m);
      var n := s.history[m].ups - ss[i].history[m].ups;
      if n <= k && r.history[m].ups != s.history[m].ups {
        if n == k {
          x := j - 1;
        } else {
          assert s.waiters[m][1..][k - n - 1] == s.waiters[m][k - n];
        }
      }
    }
  }

  /** On every run, a thread at position k of a semaphore's wait list sleeps there, one
      place further up with each up of the semaphore, and is made ready by the
      (k+1)-th; step x is that one. */
  lemma {:induction false} WokenInTurn(ss: seq<State>, acts: seq<Step>, i: nat, j: nat, m: Sem, k: nat) returns (x: nat)
    requires IsRun(ss, acts) && i <= j < |ss| && Begun(ss[i], m) && k < |ss[i].waiters[m]|
    ensures Begun(ss[j], m) && ss[i].history[m].ups <= ss[j].history[m].ups
    ensures var n, t := ss[j].history[m].ups - ss[i].history[m].ups, ss[i].waiters[m][k];
            && (n <= k ==>
                  && k - n < |ss[j].waiters[m]| && ss[j].waiters[m][k - n] == t
                  && t in ss[j].status && ss[j].status[t].Blocked?)
            && (n > k ==> i <= x < j && WokenBy(ss[x], ss[x + 1], m, ss[i].history[m].ups + k, t))
  {
    forall n: nat | n < |acts| ensures MoveAt(ss, n, m) {
      RunStep(ss, acts, n);
      StepMove(ss[n], acts[n], m);
    }
    x := MovesUp(ss, i, j, m, k);
    Asleep(ss, acts, j, m);
  }

  lemma {:induction false} Asleep(ss: seq<State>, acts: seq<Step>, j: nat, m: Sem)
    requires IsRun(ss, acts) && j < |ss| && m in ss[j].waiters
    ensures forall t :: t in ss[j].waiters[m] ==> t in ss[j].status && ss[j].status[t].Blocked?
  {
    RunInv(ss, acts, j);
    forall t | t in ss[j].waiters[m] ensures t in ss[j].status && ss[j].status[t].Blocked? {
      assert AsleepOn(ss[j].status, ss[j].pc, t, m);
    }
  }

  // ----- Every call counts

  /** The step is a sema_up() of m. */
  predicate Raises(s: State, a: Step, m: Sem)
    requires s.cur in s.pc && Enabled(s, a)
  {
    var p := s.pc[s.cur];
    match a
    case UpStep(n) => m == n
    case FinishReleaseStep => m == LockSem(p.lock)
    case WaitUpStep => m == LockSem(s.lockOf[p.cond])
    case SignalUpStep => m == WaiterSem(p.ticket)
    case _ => false
  }

  /** The step tests the value of m, */
  predicate Tests(s: State, a: Step, m: Sem)
    requires s.cur in s.pc && Enabled(s, a)
  {
    var p := s.pc[s.cur];
    match a
    case DownStep(n) => m == n
    case TryDownStep(n) => m == n
    case RetryStep => m == p.sem
    case AcquireStep(l) => m == LockSem(l)
    case TryAcquireStep(l) => m == LockSem(l)
    case WaitDownStep => m == WaiterSem(p.ticket)
    case WaitAcquireStep => m == LockSem(s.lockOf[p.cond])
    case _ => false
  }

  /** and finds a unit to take. */
  predicate Takes(s: State, a: Step, m: Sem)
    requires s.cur in s.pc && Enabled(s, a)
  {
    Tests(s, a, m) && m in s.value && s.value[m] > 0
  }

  /** A step adds a unit, takes one, or does neither; a thread that finds none sleeps behind
      the others, if it insists, and one that finds one goes on. */
  ghost predicate Counts(s: State, a: Step, r: State, m: Sem)
    requires s.cur in s.pc && Enabled(s, a)
  {
    Begun(s, m) && m in s.value ==>
      var up, down := if Raises(s, a, m) then 1 else 0, if Takes(s, a, m) then 1 else 0;
      && Begun(r, m) && m in r.value && r.value[m] == s.value[m] + up - down
      && r.history[m] == History(s.history[m].initial, s.history[m].ups + up, s.history[m].downs + down)
      && (Tests(s, a, m) && s.value[m] == 0 && TestsSema(a) ==>
            r.waiters[m] == s.waiters[m] + [s.cur] && s.cur in r.pc && r.pc[s.cur].Test?)
      && (Takes(s, a, m) ==> r.waiters[m] == s.waiters[m] && r.cur == s.cur && s.cur in r.pc && !r.pc[s.cur].Test?)
  }

  lemma {:induction false} SameCounts(s: State, a: Step, r: State, m: Sem)
    requires s.cur in s.pc && Enabled(s, a) && !Raises(s, a, m) && !Tests(s, a, m)
    requires r.waiters == s.waiters && r.history == s.history && r.value == s.value && r.nextTicket == s.nextTicket
    ensures Counts(s, a, r, m)
  {
  }

  lemma {:induction false} ThreadCounts(s: State, a: Step, m: Sem)
    requires Sane(s) && Enabled(s, a) && IsThreadStep(a)
    ensures Counts(s, a, Apply(s, a), m)
  {
    if a.TickStep? || a.YieldStep? || a.ExitStep? {
      PreemptMove(s, a, m);
    } else if a.IdleBlockStep? || a.ParkStep? {
      BlockMove(s, a, m);
    } else {
      ReadyMove(s, a, m);
    }
    NoTest(s, a, m);
    SameCounts(s, a, Apply(s, a), m);
  }

  /** What a test of semaphore n does. */
  ghost predicate Tested(s: State, n: Sem, r: State)
    requires IsSema(s, n)
  {
    && r.nextTicket == s.nextTicket && s.cur in r.pc
    && if s.value[n] == 0
       then r.value == s.value && r.history == s.history && r.waiters == s.waiters[n := s.waiters[n] + [s.cur]]
            && r.pc[s.cur].Test?
       else r.value == s.value[n := s.value[n] - 1] && r.waiters == s.waiters && r.cur == s.cur
            && r.history == s.history[n := s.history[n].(downs := s.history[n].downs + 1)] && !r.pc[s.cur].Test?
  }

  lemma {:induction false} TestIs(s: State, n: Sem, a: After)
    requires s.cur in s.status && s.cur in s.pc && IsSema(s, n)
    ensures Tested(s, n, TestSema(s, n, a))
  {
    var r := TestSema(s, n, a);
    if s.value[n] == 0 {
      var q := s.(waiters := s.waiters[n := s.waiters[n] + [s.cur]], status := s.status[s.cur := Blocked],
        pc := s.pc[s.cur := Test(n, a)]);
      assert r == Schedule(q);
      ScheduleSame(q);
      ScheduleKeeps(q);
    } else {
      assert r == SetPc(Consume(Decrement(s, n), a), Resume(a));
    }
  }

  lemma {:induction false} TestedCounts(s: State, a: Step, n: Sem, r: State, m: Sem)
    requires s.cur in s.pc && Enabled(s, a) && TestsSema(a) && IsSema(s, n) && Tested(s, n, r) && Tests(s, a, n)
    ensures Counts(s, a, r, m)
  {
    OneTest(s, a, n, m);
    if m != n { assert Begun(s, m) ==> r.waiters[m] == s.waiters[m] && r.history[m] == s.history[m]; }
  }

  /** A step tests one semaphore, and raises none then. */
  lemma {:induction false} OneTest(s: State, a: Step, n: Sem, m: Sem)
    requires s.cur in s.pc && Enabled(s, a) && Tests(s, a, n)
    ensures (Tests(s, a, m) <==> m == n) && !Raises(s, a, m)
  {
  }

  lemma {:induction false} NoTest(s: State, a: Step, m: Sem)
    requires s.cur in s.pc && Enabled(s, a) && IsThreadStep(a)
    ensures !Tests(s, a, m) && !Raises(s, a, m)
  {
  }

  lemma {:induction false} TestingCounts(s: State, a: Step, m: Sem)
    requires Sane(s) && Enabled(s, a) && TestsSema(a)
    ensures Counts(s, a, Apply(s, a), m)
  {
    var p := s.pc[s.cur];
    match a
    case DownStep(n) => TestIs(s, n, Return); TestedCounts(s, a, n, Apply(s, a), m);
    case RetryStep => TestIs(s, p.sem, p.after); TestedCounts(s, a, p.sem, Apply(s, a), m);
    case AcquireStep(l) =>
      TestIs(s, LockSem(l), Hold(l, None));
      TestedCounts(s, a, LockSem(l), Apply(s, a), m);
    case WaitDownStep =>
      TestIs(s, WaiterSem(p.ticket), Reacquire(p.cond, p.ticket));
      TestedCounts(s, a, WaiterSem(p.ticket), Apply(s, a), m);
    case WaitAcquireStep =>
      var l := s.lockOf[p.cond];
      TestIs(s, LockSem(l), Hold(l, Some(p.cond)));
      TestedCounts(s, a, LockSem(l), Apply(s, a), m);
  }

  lemma {:induction false} TryCounts(s: State, a: Step, m: Sem)
    requires Sane(s) && Enabled(s, a) && (a.TryDownStep? || a.TryAcquireStep?) && PcInv(s.pc, s.value)
    ensures Counts(s, a, Apply(s, a), m)
  {
    var n := if a.TryDownStep? then a.sem else LockSem(a.lock);
    if s.value[n] == 0 {
      assert Apply(s, a) == s;
    } else if a.TryDownStep? {
      assert Apply(s, a) == Decrement(s, n);
    } else {
      assert Apply(s, a) == SetPc(Decrement(s, n), SetHolder(a.lock, None));
    }
  }

  lemma {:induction false} RaisedCounts(s: State, a: Step, n: Sem, r: State, m: Sem)
    requires s.cur in s.pc && Enabled(s, a) && IsSema(s, n) && Raises(s, a, n)
    requires var u := SemaUp(s, n); r.history == u.history && r.value == u.value && r.waiters == u.waiters
    requires r.nextTicket == s.nextTicket
    ensures Counts(s, a, r, m)
  {
  }

  lemma {:induction false} RaisingCounts(s: State, a: Step, m: Sem)
    requires Sane(s) && Enabled(s, a) && (a.UpStep? || a.FinishReleaseStep? || a.WaitUpStep? || a.SignalUpStep?)
    ensures Counts(s, a, Apply(s, a), m)
  {
    var p := s.pc[s.cur];
    var n := match a
      case UpStep(x) => x
      case FinishReleaseStep => LockSem(p.lock)
      case WaitUpStep => LockSem(s.lockOf[p.cond])
      case SignalUpStep => WaiterSem(p.ticket);
    RaisedCounts(s, a, n, Apply(s, a), m);
  }

  lemma {:induction false} OtherCounts(s: State, a: Step, m: Sem)
    requires s.cur in s.pc && Enabled(s, a) && (a.SetHolderStep? || a.ReleaseStep? || a.WaitReleaseStep?)
    ensures Counts(s, a, Apply(s, a), m)
  {
    SameCounts(s, a, Apply(s, a), m);
  }

  lemma {:induction false} CondCounts(s: State, a: Step, m: Sem)
    requires s.cur in s.pc && Enabled(s, a) && (a.SignalStep? || a.BroadcastStep? || a.BroadcastTestStep?)
    ensures Counts(s, a, Apply(s, a), m)
  {
    SameCounts(s, a, Apply(s, a), m);
  }

  lemma {:induction false} EnterCounts(s: State, c: Cond, m: Sem)
    requires s.cur in s.pc && Enabled(s, WaitStep(c))
    ensures Counts(s, WaitStep(c), Apply(s, WaitStep(c)), m)
  {
  }

  lemma {:induction false} StepCounts(s: State, a: Step, m: Sem)
    requires Inv(s) && Enabled(s, a)
    ensures Counts(s, a, Apply(s, a), m)
  {
    InvSane(s);
    if TestsSema(a) {
      TestingCounts(s, a, m);
    } else if IsThreadStep(a) {
      ThreadCounts(s, a, m);
    } else if a.TryDownStep? || a.TryAcquireStep? {
      TryCounts(s, a, m);
    } else if a.UpStep? || a.FinishReleaseStep? || a.WaitUpStep? || a.SignalUpStep? {
      RaisingCounts(s, a, m);
    } else if a.WaitStep? {
      EnterCounts(s, a.cond, m);
    } else if a.SetHolderStep? || a.ReleaseStep? || a.WaitReleaseStep? {
      OtherCounts(s, a, m);
    } else {
      CondCounts(s, a, m);
    }
  }

  ghost predicate RaisesAt(s: State, a: Step, m: Sem) {
    s.cur in s.pc && Enabled(s, a) && Raises(s, a, m)
  }

  ghost predicate TakesAt(s: State, a: Step, m: Sem) {
    s.cur in s.pc && Enabled(s, a) && Takes(s, a, m)
  }

  /** How many of the first n steps of a run raised m, */
  ghost function Raised(ss: seq<State>, acts: seq<Step>, n: nat, m: Sem): nat
    requires n <= |acts| < |ss|
  {
    if n == 0 then 0 else Raised(ss, acts, n - 1, m) + if RaisesAt(ss[n - 1], acts[n - 1], m) then 1 else 0
  }

  /** and how many took a unit. */
  ghost function Taken(ss: seq<State>, acts: seq<Step>, n: nat, m: Sem): nat
    requires n <= |acts| < |ss|
  {
    if n == 0 then 0 else Taken(ss, acts, n - 1, m) + if TakesAt(ss[n - 1], acts[n - 1], m) then 1 else 0
  }

  /** What a step does to the counts. */
  ghost predicate CountsAt(s: State, a: Step, r: State, m: Sem) {
    Begun(s, m) && m in s.value ==>
      var up, down := if RaisesAt(s, a, m) then 1 else 0, if TakesAt(s, a, m) then 1 else 0;
      && Begun(r, m) && m in r.value && r.value[m] == s.value[m] + up - down
      && r.history[m] == History(s.history[m].initial, s.history[m].ups + up, s.history[m].downs + down)
  }

  lemma {:induction false} RunCounts(ss: seq<State>, acts: seq<Step>, n: nat, m: Sem)
    requires IsRun(ss, acts) && n < |acts|
    ensures CountsAt(ss[n], acts[n], ss[n + 1], m)
  {
    assert Follows(ss[n], acts[n], ss[n + 1]);
    RunInv(ss, acts, n);
    StepCounts(ss[n], acts[n], m);
  }

  ghost predicate CountedAt(ss: seq<State>, acts: seq<Step>, n: nat, m: Sem)
    requires n < |acts| < |ss|
  {
    CountsAt(ss[n], acts[n], ss[n + 1], m)
  }

  lemma {:induction false} CallsCounted(ss: seq<State>, acts: seq<Step>, n: nat, m: Sem)
    requires n <= |acts| < |ss| && Begun(ss[0], m) && m in ss[0].value
    requires ss[0].history[m] == History(ss[0].value[m], 0, 0)
    requires forall j :: 0 <= j < |acts| ==> CountedAt(ss, acts, j, m)
    ensures Begun(ss[n], m) && m in ss[n].value
    ensures ss[n].history[m] == History(ss[0].value[m], Raised(ss, acts, n, m), Taken(ss, acts, n, m))
    ensures ss[n].value[m] + Taken(ss, acts, n, m) == ss[0].value[m] + Raised(ss, acts, n, m)
  {
    if n > 0 {
      CallsCounted(ss, acts, n - 1, m);
      assert CountedAt(ss, acts, n - 1, m);
    }
  }

  /** On every run the value of a semaphore is its first value, and one for every call that
      raised it, less one for every call that took a unit. */
  lemma {:induction false} ValueIsCalls(ss: seq<State>, acts: seq<Step>, n: nat, m: Sem)
    requires IsRun(ss, acts) && n <= |acts| && m in ss[0].value && !m.WaiterSem?
    ensures Begun(ss[n], m) && m in ss[n].value
    ensures ss[n].history[m] == History(ss[0].value[m], Raised(ss, acts, n, m), Taken(ss, acts, n, m))
    ensures ss[n].value[m] + Taken(ss, acts, n, m) == ss[0].value[m] + Raised(ss, acts, n, m)
  {
    forall j: nat | j < |acts| ensures CountedAt(ss, acts, j, m) { RunCounts(ss, acts, j, m); }
    CallsCounted(ss, acts, n, m);
  }

  lemma {:induction false} TookUnit(s: State, n: Sem, a: After)
    requires s.cur in s.pc && IsSema(s, n) && s.value[n] > 0
    ensures s.cur in TestSema(s, n, a).pc && TestSema(s, n, a).pc[s.cur] == Resume(a)
  {
    assert TestSema(s, n, a) == SetPc(Consume(Decrement(s, n), a), Resume(a));
  }

  /** A thread that takes the unit of a lock goes on to become its holder, */
  lemma {:induction false} TakenLock(s: State, a: Step, l: Lock)
    requires s.cur in s.pc && TestOk(s.pc[s.cur]) && Enabled(s, a) && Takes(s, a, LockSem(l))
    ensures var r := Apply(s, a); s.cur in r.pc && r.pc[s.cur].SetHolder? && r.pc[s.cur].lock == l
  {
    var p := s.pc[s.cur];
    if a.AcquireStep? {
      TookUnit(s, LockSem(l), Hold(l, None));
    } else if a.RetryStep? {
      TookUnit(s, LockSem(l), p.after);
    } else if a.WaitAcquireStep? {
      TookUnit(s, LockSem(l), Hold(l, Some(p.cond)));
    } else {
      assert a == TryAcquireStep(l);
      assert Apply(s, a) == SetPc(Decrement(s, LockSem(l)), SetHolder(l, None));
    }
  }

  /** which its next step in lock_acquire() makes it. */
  lemma {:induction false} HolderSet(s: State)
    requires s.cur in s.pc && Enabled(s, SetHolderStep)
    ensures var l, r := s.pc[s.cur].lock, Apply(s, SetHolderStep);
            l in r.holder && r.holder[l] == Some(s.cur) && s.cur in r.pc && r.pc[s.cur].User?
  {
  }

  // ----- The running thread can go on

  /** The next step of a thread inside a primitive. */
  function NextOf(p: Pc): Step {
    match p
    case User => YieldStep
    case IdleLoop => IdleBlockStep
    case Parked => YieldStep
    case Test(_, _) => RetryStep
    case SetHolder(_, _) => SetHolderStep
    case FinishRelease(_) => FinishReleaseStep
    case WaitRelease(_, _) => WaitReleaseStep
    case WaitUp(_, _) => WaitUpStep
    case WaitDown(_, _) => WaitDownStep
    case WaitAcquire(_) => WaitAcquireStep
    case SignalUp(_, _, _) => SignalUpStep
    case Broadcast(_) => BroadcastTestStep
  }

  lemma {:induction false} NextEnabled(s: State)
    requires Inv(s)
    ensures s.cur in s.pc && Enabled(s, NextOf(s.pc[s.cur]))
  {
    InvSane(s);
    var p := s.pc[s.cur];
    assert TestOk(p) && OwnerOk(s.cur, p, s.queue, s.tickets) && HoldOk(s.cur, p, s.holder, s.owner, s.lockOf);
  }

  /** In every state of every run the running thread can take the next step of whatever
      primitive it is in. */
  lemma {:induction false} RunningGoesOn(ss: seq<State>, acts: seq<Step>, i: nat)
    requires IsRun(ss, acts) && i < |ss|
    ensures ss[i].cur in ss[i].pc && Enabled(ss[i], NextOf(ss[i].pc[ss[i].cur]))
  {
    RunInv(ss, acts, i);
    NextEnabled(ss[i]);
  }

  /** There are runs: one lock with a condition, one other semaphore, two threads. */
  lemma {:induction false} FirstState() returns (s: State)
    ensures Init(s) && IsSema(s, Plain(0)) && IsLock(s, 0) && IsCond(s, 0)
  {
    s := State(
      map[0 := Running, 1 := Blocked], map[0 := User, 1 := IdleLoop], 0, [], 1, 0, 2, 0,
      map[Plain(0) := 0, LockSem(0) := 1], map[Plain(0) := [], LockSem(0) := []],
      map[Plain(0) := History(0, 0, 0), LockSem(0) := History(1, 0, 0)],
      map[0 := None], map[0 := None], map[0 := 0], map[0 := []], map[], 0);
  }

  // ----- Threads come and go

  /** thread_create() makes a thread with a number that no thread has, ready to run after
      all others. */
  lemma {:induction false} CreateAdds(s: State)
    requires Inv(s) && Enabled(s, CreateStep)
    ensures var r := Apply(s, CreateStep);
            && s.nextTid !in s.status && s.nextTid !in s.pc && r.nextTid > s.nextTid && r.cur == s.cur
            && r.status == s.status[s.nextTid := Ready] && r.ready == s.ready + [s.nextTid]
            && r.pc == s.pc[s.nextTid := User]
  {
    InvSane(s);
    assert s.nextTid !in s.status by { assert ModeInv(s.status, s.pc, s.idle); }
    assert Apply(s, CreateStep) == Create(s);
  }

  /** thread_unblock() of a parked thread makes it ready to run after all others. */
  lemma {:induction false} UnparkReadies(s: State, t: Tid)
    requires Inv(s) && Enabled(s, UnparkStep(t))
    ensures var r := Apply(s, UnparkStep(t));
            && t !in s.ready && t in r.status && r.status[t].Ready? && r.ready == s.ready + [t]
            && t in r.pc && r.pc[t].User? && r.cur == s.cur
            && forall u :: u in s.status && u != t ==> u in r.status && r.status[u] == s.status[u]
  {
  }

  /** thread_exit() hands over to another thread, after which the thread is gone, or
      dying if it is the first one. */
  lemma {:induction false} ExitLeaves(s: State)
    requires Inv(s) && Enabled(s, ExitStep)
    ensures var r := Apply(s, ExitStep);
            && r.cur != s.cur && s.cur !in r.ready
            && if s.cur == s.first then s.cur in r.status && r.status[s.cur].Dying?
               else s.cur !in r.status && s.cur !in r.pc
  {
    var q := s.(status := s.status[s.cur := Dying]);
    assert Apply(s, ExitStep) == Schedule(q);
    SwitchAsserted(s, ExitStep);
  }

  // ----- Broadcasts

  /** Inside cond_broadcast() on c. */
  predicate InBroadcast(p: Pc, c: Cond) {
    p == Broadcast(c) || (p.SignalUp? && p.cond == c && p.broadcast)
  }

  /** The private semaphore of the call has gone up. */
  ghost predicate Signalled(s: State, w: Ticket) {
    WaiterSem(w) in s.history && s.history[WaiterSem(w)].ups > 0
  }

  /** The call is still queued, or signalled, or being signalled by t. */
  ghost predicate Covered(s: State, t: Tid, c: Cond, w: Ticket) {
    && c in s.queue && t in s.pc && w < s.nextTicket && WaiterSem(w) in s.history
    && (w in s.queue[c] || Signalled(s, w) || (s.pc[t].SignalUp? && s.pc[t].ticket == w))
  }

  /** Who leaves the queue of a condition was taken from it by a thread that holds its
      lock, and is being signalled by that thread. */
  ghost predicate QueueKept(s: State, a: Step, r: State, c: Cond, w: Ticket)
    requires s.cur in s.pc && Enabled(s, a)
  {
    c in s.queue ==>
      && c in r.queue
      && (w in s.queue[c] ==>
            || w in r.queue[c]
            || (&& c in s.lockOf && Holds(s, s.lockOf[c])
                && s.cur in r.pc && r.pc[s.cur].SignalUp? && r.pc[s.cur].ticket == w))
  }

  lemma {:induction false} QueueSame(s: State, a: Step, r: State, c: Cond, w: Ticket)
    requires s.cur in s.pc && Enabled(s, a) && r.queue == s.queue
    ensures QueueKept(s, a, r, c, w)
  {
  }

  lemma {:induction false} PopKept(s: State, a: Step, d: Cond, broadcast: bool, r: State, c: Cond, w: Ticket)
    requires s.cur in s.pc && Enabled(s, a) && d in s.queue && s.queue[d] != [] && r == PopWaiter(s, d, broadcast)
    requires d in s.lockOf && Holds(s, s.lockOf[d])
    ensures QueueKept(s, a, r, c, w)
  {
    if c == d && c in s.queue && w in s.queue[c] && w != s.queue[c][0] {
      assert s.queue[c] == [s.queue[c][0]] + s.queue[c][1..];
    }
  }

  lemma {:induction false} SignalQueue(s: State, d: Cond, c: Cond, w: Ticket)
    requires s.cur in s.pc && Enabled(s, SignalStep(d))
    ensures QueueKept(s, SignalStep(d), Apply(s, SignalStep(d)), c, w)
  {
    if s.queue[d] != [] { PopKept(s, SignalStep(d), d, false, Apply(s, SignalStep(d)), c, w); }
  }

  /** A thread in a broadcast holds the lock of the condition. */
  lemma {:induction false} BroadcasterHolds(s: State, t: Tid, c: Cond)
    requires Inv(s) && t in s.pc && InBroadcast(s.pc[t], c)
    ensures c in s.lockOf && s.lockOf[c] in s.holder && s.holder[s.lockOf[c]] == Some(t)
  {
    assert HoldOk(t, s.pc[t], s.holder, s.owner, s.lockOf);
    assert OwnerOk(t, s.pc[t], s.queue, s.tickets);
  }

  lemma {:induction false} BroadcastQueue(s: State, d: Cond, c: Cond, w: Ticket)
    requires s.cur in s.pc && Enabled(s, BroadcastTestStep) && s.pc[s.cur] == Broadcast(d) && Holds(s, s.lockOf[d])
    ensures QueueKept(s, BroadcastTestStep, Apply(s, BroadcastTestStep), c, w)
  {
    if s.queue[d] != [] { PopKept(s, BroadcastTestStep, d, true, Apply(s, BroadcastTestStep), c, w); }
  }

  lemma {:induction false} WaitQueue(s: State, d: Cond, c: Cond, w: Ticket)
    requires s.cur in s.pc && Enabled(s, WaitStep(d))
    ensures QueueKept(s, WaitStep(d), Apply(s, WaitStep(d)), c, w)
  {
    assert Apply(s, WaitStep(d)).queue == s.queue[d := s.queue[d] + [s.nextTicket]];
  }

  lemma {:induction false} CondQueueKept(s: State, a: Step, c: Cond, w: Ticket)
    requires Inv(s) && Enabled(s, a) && (a.WaitStep? || a.SignalStep? || a.BroadcastStep? || a.BroadcastTestStep?)
    ensures QueueKept(s, a, Apply(s, a), c, w)
  {
    if a.WaitStep? {
      WaitQueue(s, a.cond, c, w);
    } else if a.SignalStep? {
      SignalQueue(s, a.cond, c, w);
    } else if a.BroadcastTestStep? {
      BroadcasterHolds(s, s.cur, s.pc[s.cur].cond);
      BroadcastQueue(s, s.pc[s.cur].cond, c, w);
    } else {
      QueueSame(s, a, Apply(s, a), c, w);
    }
  }

  lemma {:induction false} ThreadQueue(s: State, a: Step)
    requires Sane(s) && Enabled(s, a) && IsThreadStep(a)
    ensures Apply(s, a).queue == s.queue
  {
    if a.TickStep? || a.YieldStep? || a.ExitStep? {
      PreemptMove(s, a, Plain(0));
    } else if a.IdleBlockStep? || a.ParkStep? {
      BlockMove(s, a, Plain(0));
    } else {
      ReadyMove(s, a, Plain(0));
    }
  }

  lemma {:induction false} LockQueue(s: State, a: Step)
    requires Sane(s) && Enabled(s, a)
    requires a.TryDownStep? || a.UpStep? || a.TryAcquireStep? || a.SetHolderStep? || a.ReleaseStep?
      || a.FinishReleaseStep? || a.WaitReleaseStep? || a.WaitUpStep? || a.SignalUpStep?
    ensures Apply(s, a).queue == s.queue
  {
  }

  lemma {:induction false} StepQueue(s: State, a: Step, c: Cond, w: Ticket)
    requires Inv(s) && Enabled(s, a)
    ensures QueueKept(s, a, Apply(s, a), c, w)
  {
    InvSane(s);
    if a.WaitStep? || a.SignalStep? || a.BroadcastStep? || a.BroadcastTestStep? {
      CondQueueKept(s, a, c, w);
    } else {
      if TestsSema(a) {
        TestingMove(s, a, Plain(0));
      } else if IsThreadStep(a) {
        ThreadQueue(s, a);
      } else {
        LockQueue(s, a);
      }
      QueueSame(s, a, Apply(s, a), c, w);
    }
  }

  /** What a step of another thread, or of t itself, does to a broadcast by t. */
  ghost predicate BroadcastGoesOn(s: State, r: State, t: Tid, c: Cond, w: Ticket) {
    t in s.pc && InBroadcast(s.pc[t], c) && Covered(s, t, c, w) ==>
      Covered(r, t, c, w) && (!InBroadcast(r.pc[t], c) ==> Signalled(r, w))
  }

  lemma {:induction false} OtherBroadcast(s: State, a: Step, r: State, t: Tid, c: Cond, w: Ticket)
    requires s.cur in s.pc && Enabled(s, a) && t != s.cur && t in s.pc && InBroadcast(s.pc[t], c)
    requires c in s.lockOf && s.lockOf[c] in s.holder && s.holder[s.lockOf[c]] == Some(t)
    requires QueueKept(s, a, r, c, w) && SemaKept(s, a, r, w) && Stays(s, r, t)
    ensures BroadcastGoesOn(s, r, t, c, w)
  {
  }

  /** The broadcast takes out the next call, or ends. */
  lemma {:induction false} OwnTest(s: State, r: State, c: Cond, w: Ticket)
    requires s.cur in s.pc && Enabled(s, BroadcastTestStep) && s.pc[s.cur] == Broadcast(c)
    requires r == Apply(s, BroadcastTestStep)
    requires QueueKept(s, BroadcastTestStep, r, c, w) && SemaKept(s, BroadcastTestStep, r, w)
    ensures BroadcastGoesOn(s, r, s.cur, c, w)
  {
    assert s.queue[c] == [] ==> r == SetPc(s, User);
    assert s.queue[c] != [] ==> r == PopWaiter(s, c, true);
  }

  /** The call that was taken out is signalled. */
  lemma {:induction false} OwnSignal(s: State, r: State, c: Cond, w: Ticket)
    requires s.cur in s.pc && Enabled(s, SignalUpStep) && InBroadcast(s.pc[s.cur], c)
    requires r == Apply(s, SignalUpStep)
    requires QueueKept(s, SignalUpStep, r, c, w) && SemaKept(s, SignalUpStep, r, w)
    ensures BroadcastGoesOn(s, r, s.cur, c, w)
  {
    assert r.pc[s.cur] == Broadcast(c) && r.queue == s.queue;
  }

  lemma {:induction false} SameBroadcast(s: State, a: Step, r: State, t: Tid, c: Cond, w: Ticket)
    requires s.cur in s.pc && Enabled(s, a) && t in s.pc && t in r.pc && r.pc[t] == s.pc[t] && r.queue == s.queue
    requires SemaKept(s, a, r, w)
    ensures BroadcastGoesOn(s, r, t, c, w)
  {
  }

  lemma {:induction false} OwnBroadcast(s: State, a: Step, c: Cond, w: Ticket)
    requires Sane(s) && Enabled(s, a) && InBroadcast(s.pc[s.cur], c)
    requires QueueKept(s, a, Apply(s, a), c, w) && SemaKept(s, a, Apply(s, a), w)
    ensures BroadcastGoesOn(s, Apply(s, a), s.cur, c, w)
  {
    if IsInterrupt(a) {
      InterruptStays(s, a);
      if IsThreadStep(a) { ThreadQueue(s, a); } else { LockQueue(s, a); }
      SameBroadcast(s, a, Apply(s, a), s.cur, c, w);
    } else if s.pc[s.cur].Broadcast? {
      assert a == BroadcastTestStep;
      OwnTest(s, Apply(s, a), c, w);
    } else {
      assert a == SignalUpStep;
      OwnSignal(s, Apply(s, a), c, w);
    }
  }

  lemma {:induction false} StepBroadcast(s: State, a: Step, t: Tid, c: Cond, w: Ticket)
    requires Inv(s) && Enabled(s, a)
    ensures BroadcastGoesOn(s, Apply(s, a), t, c, w)
  {
    InvSane(s);
    StepQueue(s, a, c, w);
    StepKept(s, a, w, t);
    if t in s.pc && InBroadcast(s.pc[t], c) {
      if t == s.cur {
        OwnBroadcast(s, a, c, w);
      } else {
        BroadcasterHolds(s, t, c);
        OtherBroadcast(s, a, Apply(s, a), t, c, w);
      }
    }
  }

  ghost predicate BroadcastAt(ss: seq<State>, n: nat, t: Tid, c: Cond, w: Ticket)
    requires n + 1 < |ss|
  {
    BroadcastGoesOn(ss[n], ss[n + 1], t, c, w)
  }

  lemma {:induction false} StaysCovered(ss: seq<State>, i: nat, j: nat, t: Tid, c: Cond, w: Ticket)
    requires i <= j < |ss| && Covered(ss[i], t, c, w)
    requires forall n :: i <= n < j ==> BroadcastAt(ss, n, t, c, w)
    requires forall n :: i <= n < j ==> t in ss[n].pc && InBroadcast(ss[n].pc[t], c)
    ensures Covered(ss[j], t, c, w) && (i < j && !InBroadcast(ss[j].pc[t], c) ==> Signalled(ss[j], w))
  {
    if i < j {
      StaysCovered(ss, i, j - 1, t, c, w);
      assert BroadcastAt(ss, j - 1, t, c, w);
    }
  }

  /** On every run, a broadcast that begins with step i and ends with step j - 1 has
      signalled every call of cond_wait() that was queued when it began. */
  lemma {:induction false} BroadcastSignalsAll(ss: seq<State>, acts: seq<Step>, i: nat, j: nat, c: Cond, w: Ticket)
    requires IsRun(ss, acts) && i + 1 < j < |ss| && acts[i] == BroadcastStep(c)
    requires forall n :: i < n < j ==> ss[i].cur in ss[n].pc && InBroadcast(ss[n].pc[ss[i].cur], c)
    requires ss[i].cur in ss[j].pc && !InBroadcast(ss[j].pc[ss[i].cur], c)
    requires c in ss[i].queue && w in ss[i].queue[c]
    ensures Signalled(ss[j], w)
  {
    var t := ss[i].cur;
    forall n: nat | n < |acts| ensures BroadcastAt(ss, n, t, c, w) {
      RunStep(ss, acts, n);
      RunInv(ss, acts, n);
      StepBroadcast(ss[n], acts[n], t, c, w);
    }
    BroadcastBegins(ss, acts, i, c, w);
    StaysCovered(ss, i + 1, j, t, c, w);
  }

  lemma {:induction false} BroadcastBegins(ss: seq<State>, acts: seq<Step>, i: nat, c: Cond, w: Ticket)
    requires IsRun(ss, acts) && i < |acts| && acts[i] == BroadcastStep(c) && c in ss[i].queue && w in ss[i].queue[c]
    ensures Covered(ss[i + 1], ss[i].cur, c, w)
  {
    RunStep(ss, acts, i);
    RunInv(ss, acts, i);
    var s := ss[i];
    assert Apply(s, BroadcastStep(c)) == SetPc(s, Broadcast(c));
    assert QueueOk(c, s.queue[c], s.tickets);
    assert w in s.tickets;
  }
}
