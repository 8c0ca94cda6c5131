/** Runs of the paging machine, and why paging cannot be noticed. */
module PagingTheorems {
  import opened Basics
  import opened Pagedir
  import opened PagingState
  import opened PagingInvariant

  // ----- Every step

  lemma {:induction false} UserStep(s: State, a: Step)
    requires Inv(s) && Enabled(s, a) && (a.Start? || a.Read? || a.Write? || a.Grow?)
    ensures Asserted(s, a) && Inv(Apply(s, a))
  {
    match a
    case Start(p) => StartPlaces(s, p); StartProcs(s, p);
    case Read(p, u, _, _) => ReadPlaces(s, p, u); ReadProcs(s, p, u);
    case Write(p, u, i, x) =>
      var k := Present(s.dirs, Vpage(p, u)).value;
      WritePlaces(s, p, u, k, i, x);
      WriteProcs(s, p, u, k, i, x);
    case Grow(p, u) => GrowPlaces(s, p, u); GrowProcs(s, p, u);
    case _ =>
  }

  /** After a fault the page is in a slot, all zeros, or on its way out. */
  lemma {:induction false} FaultHome(s: State, p: Proc, u: nat)
    requires Inv(s) && Enabled(s, Fault(p, u))
    ensures JobOk(s, Vpage(p, u), Load) || s.home[Vpage(p, u)].Leaving?
  {
    var v := Vpage(p, u);
    assert PageOk(s, v);
    assert s.home[v].Arriving? ==> FrameOk(s, s.home[v].frame);
  }

  lemma {:induction false} WaitStep(s: State, a: Step)
    requires Inv(s) && Enabled(s, a) && (a.Fault? || a.BeginInstall?)
    ensures Asserted(s, a) && Inv(Apply(s, a))
  {
    match a
    case Fault(p, u) =>
      FaultHome(s, p, u);
      if !s.spt[Vpage(p, u)].status.OnFrame? {
        WaitPlaces(s, p, u, Load);
        WaitProcs(s, p, u, Load);
      }
    case BeginInstall(p, u, bytes, w) =>
      assert PresentOk(s, Vpage(p, u));
      WaitPlaces(s, p, u, Install(bytes, w));
      WaitProcs(s, p, u, Install(bytes, w));
    case _ =>
  }

  lemma {:induction false} TakeStep(s: State, p: Proc, k: Word, entry: bool)
    requires Inv(s) && p in s.pc && s.pc[p].Wants? && s.lock.None? && k in s.pool - s.used
    ensures Inv(if entry then DoTake(s, p, k) else DoLose(s, p, k))
  {
    if entry { TakePlaces(s, p, k); TakeProcs(s, p, k); } else { LosePlaces(s, p, k); LoseProcs(s, p, k); }
  }

  lemma {:induction false} EvictStep(s: State, a: Step)
    requires Inv(s) && Enabled(s, a) && (a.Pick? || a.Clear? || a.WriteOut? || a.Mark?)
    ensures Asserted(s, a) && Inv(Apply(s, a))
  {
    match a
    case Pick(p) => PickPlaces(s, p, s.queue[0]); PickProcs(s, p, s.queue[0]);
    case Clear(p) => ClearPlaces(s, p); ClearProcs(s, p);
    case WriteOut(p, slot) => WriteOutPlaces(s, p, slot); WriteOutProcs(s, p, slot);
    case Mark(p) => MarkPlaces(s, p); MarkProcs(s, p);
    case _ =>
  }

  /** A victim has a page to free, so there is one to take. */
  lemma {:induction false} VictimFreed(s: State, p: Proc)
    requires Inv(s) && PcOf(s, p).Marked?
    ensures var k := PcOf(s, p).victim;
            k in s.frames && k in s.queue && k in s.pool * s.used && k in FreeAfter(s, k)
  {
    assert PcOk(s, p) && FrameOk(s, PcOf(s, p).victim);
  }

  lemma {:induction false} TakeAnyStep(s: State, a: Step)
    requires Inv(s) && Enabled(s, a) && (a.TakeFree? || a.Take?)
    ensures Asserted(s, a) && Inv(Apply(s, a))
  {
    if a.Take? {
      VictimFreed(s, a.p);
      EvictedPlaces(s, a.p);
      EvictedProcs(s, a.p);
      TakeStep(DoEvicted(s, a.p), a.p, a.frame, a.entry);
    } else {
      TakeStep(s, a.p, a.frame, a.entry);
    }
  }

  lemma {:induction false} FillStep(s: State, p: Proc)
    requires Inv(s) && Enabled(s, Fill(p))
    ensures Asserted(s, Fill(p)) && Inv(Apply(s, Fill(p)))
  {
    assert PcOk(s, p);
    var Owns(u, job, k) := s.pc[p];
    var v := Vpage(p, u);
    if job.Load? {
      assert PageOk(s, v);
      if s.home[v].InSlot? {
        FillPlaces(s, p, s.logical[v], Copied(u, k, s.home[v].slot));
        FillProcs(s, p, s.logical[v], Copied(u, k, s.home[v].slot));
      } else {
        FillPlaces(s, p, Zeros(), Filled(u, job, k));
        FillProcs(s, p, Zeros(), Filled(u, job, k));
      }
    } else {
      FillPlaces(s, p, job.bytes, Filled(u, job, k));
      FillProcs(s, p, job.bytes, Filled(u, job, k));
    }
  }

  /** A page that comes back from swap has a page table, so mapping it cannot fail. */
  lemma {:induction false} MapStep(s: State, p: Proc, table: bool, garbage: Spte)
    requires Inv(s) && Enabled(s, Map(p, table, garbage))
    ensures Asserted(s, Map(p, table, garbage)) && Inv(Apply(s, Map(p, table, garbage)))
  {
    assert PcOk(s, p);
    var Filled(u, job, k) := s.pc[p];
    var v := Vpage(p, u);
    assert v in s.home ==> PageOk(s, v);
    if !table && !HasTable(s.dirs, v) {
      UndoPlaces(s, p, Undo(u, job, k));
      UndoProcs(s, p, Undo(u, job, k));
    } else {
      var w := job.Install? ==> job.writable;
      var e := if job.Install? then garbage else s.spt[v].(status := OnFrame);
      var bytes := if job.Install? then job.bytes else s.logical[v];
      MappedDirs(s.dirs, p, u, k, w);
      MapPlaces(s, p, WithPage(s, p, w), e, bytes);
      MapProcs(s, p, WithPage(s, p, w), e, bytes);
    }
  }

  lemma {:induction false} FinishStep(s: State, a: Step)
    requires Inv(s) && Enabled(s, a) && (a.FreeSlot? || a.Fail? || a.Unpin? || a.GiveBack?)
    ensures Asserted(s, a) && Inv(Apply(s, a))
  {
    assert PcOk(s, a.p);
    match a
    case FreeSlot(p) => FreeSlotPlaces(s, p); FreeSlotProcs(s, p);
    case Fail(p) =>
      var c := Undo(s.pc[p].page, s.pc[p].job, s.pc[p].frame);
      UndoPlaces(s, p, c);
      UndoProcs(s, p, c);
    case Unpin(p) => UnpinPlaces(s, p); UnpinProcs(s, p);
    case GiveBack(p) => GiveBackPlaces(s, p); GiveBackProcs(s, p);
    case _ =>
  }

  /** No assertion fires, and the invariant holds again. */
  lemma {:induction false} StepKeepsInv(s: State, a: Step)
    requires Inv(s) && Enabled(s, a)
    ensures Asserted(s, a) && Inv(Apply(s, a))
  {
    if a.Start? || a.Read? || a.Write? || a.Grow? {
      UserStep(s, a);
    } else if a.Fault? || a.BeginInstall? {
      WaitStep(s, a);
    } else if a.Fill? {
      FillStep(s, a.p);
    } else if a.Map? {
      MapStep(s, a.p, a.table, a.garbage);
    } else if a.FreeSlot? || a.Fail? || a.Unpin? || a.GiveBack? {
      FinishStep(s, a);
    } else if a.TakeFree? || a.Take? {
      TakeAnyStep(s, a);
    } else {
      EvictStep(s, a);
    }
  }

  // ----- Runs

  /** No process exists; every frame and every slot is free. */
  ghost predicate Init(s: State) {
    && s.pc == map[] && s.dirs == map[] && s.lock.None? && s.eviction.Nothing?
    && s.spt == map[] && s.home == map[] && s.logical == map[] && s.slotUser == map[]
    && s.frames == map[] && s.queue == [] && s.used == {} && s.mem.Keys == s.pool
    && s.available == s.slots.Keys && Lengths(s)
  }

  ghost predicate Follows(s: State, a: Step, r: State) {
    Enabled(s, a) && Asserted(s, a) && r == Apply(s, a)
  }

  ghost predicate IsRun(run: seq<State>, steps: seq<Step>) {
    && |run| == |steps| + 1 && Init(run[0])
    && forall i :: 0 <= i < |steps| ==> Follows(run[i], steps[i], run[i + 1])
  }

  lemma {:induction false} InitInv(s: State)
    requires Init(s)
    ensures Inv(s)
  {
  }

  lemma {:induction false} RunInv(run: seq<State>, steps: seq<Step>, i: nat)
    requires IsRun(run, steps) && i < |run|
    ensures Inv(run[i])
  {
    if i == 0 {
      InitInv(run[0]);
    } else {
      RunInv(run, steps, i - 1);
      assert Follows(run[i - 1], steps[i - 1], run[i]);
      StepKeepsInv(run[i - 1], steps[i - 1]);
    }
  }

  /** On no run does a step that can be taken violate what the code asserts. */
  lemma {:induction false} RunAsserted(run: seq<State>, steps: seq<Step>, i: nat, a: Step)
    requires IsRun(run, steps) && i < |run| && Enabled(run[i], a)
    ensures Asserted(run[i], a)
  {
    RunInv(run, steps, i);
    StepKeepsInv(run[i], a);
  }

  /** On every run, once the victim is marked as swapped out its page can be freed
      and there is a page to take, at the latest that one. */
  lemma {:induction false} PageAfterEviction(run: seq<State>, steps: seq<Step>, i: nat, p: Proc)
    requires IsRun(run, steps) && i < |run| && PcOf(run[i], p).Marked?
    ensures var s, k := run[i], PcOf(run[i], p).victim;
            && k in s.frames && k in s.used && k in FreeAfter(s, k)
            && Enabled(s, Take(p, k, true)) && Asserted(s, Take(p, k, true))
  {
    RunInv(run, steps, i);
    VictimFreed(run[i], p);
  }

  // ----- Where a run ends

  /** Every process is always somewhere the code has a next step for, except that it
      may wait for frame_lock, find the swap area full, or find no frame to evict. */
  ghost predicate CanStep(s: State, p: Proc) {
    exists a: Step :: a.p == p && Enabled(s, a)
  }

  ghost predicate WaitsForLock(s: State, p: Proc) {
    (PcOf(s, p).Wants? || PcOf(s, p).Mapped? || PcOf(s, p).Undo?) && s.lock.Some?
  }

  /** pick_frame_to_evict() panics: there is no frame, or the oldest one is pinned. */
  ghost predicate NoVictim(s: State, p: Proc) {
    && PcOf(s, p).Wants? && s.lock.None? && s.pool <= s.used
    && (s.queue == [] || (s.queue[0] in s.frames && s.frames[s.queue[0]].pinned))
  }

  /** virtualmemory_swap_out() finds no slot and writes past the swap area, which
      panics. */
  ghost predicate SwapFull(s: State, p: Proc) {
    PcOf(s, p).Cleared? && s.available == {}
  }

  lemma {:induction false} LeastSlot(slots: set<nat>) returns (i: nat)
    requires slots != {}
    ensures i in slots && forall k :: k in slots ==> i <= k
  {
    var x :| x in slots;
    var rest := slots - {x};
    assert forall k :: k in slots ==> k == x || k in rest;
    if rest == {} {
      i := x;
    } else {
      i := LeastSlot(rest);
      if x < i { i := x; }
    }
  }

  /** On every run, a process that finds the pool used up can evict if and only if
      there is a frame and the first of the queue is not pinned. */
  lemma {:induction false} PickPossibleIff(run: seq<State>, steps: seq<Step>, i: nat, p: Proc)
    requires IsRun(run, steps) && i < |run|
    requires PcOf(run[i], p).Wants? && run[i].lock.None? && run[i].pool <= run[i].used
    ensures run[i].queue != [] ==> run[i].queue[0] in run[i].frames
    ensures Enabled(run[i], Pick(p)) <==> run[i].queue != [] && !run[i].frames[run[i].queue[0]].pinned
    ensures CanStep(run[i], p) <==> Enabled(run[i], Pick(p))
  {
    RunInv(run, steps, i);
    assert run[i].queue != [] ==> run[i].queue[0] in run[i].queue;
  }

  /** The victim can be written out if and only if a slot is available. */
  lemma {:induction false} WriteOutPossibleIff(run: seq<State>, steps: seq<Step>, i: nat, p: Proc)
    requires IsRun(run, steps) && i < |run| && PcOf(run[i], p).Cleared?
    ensures (exists slot :: Enabled(run[i], WriteOut(p, slot))) <==> run[i].available != {}
    ensures CanStep(run[i], p) <==> run[i].available != {}
  {
    if run[i].available != {} {
      var slot := LeastSlot(run[i].available);
      assert Enabled(run[i], WriteOut(p, slot));
    }
  }

  lemma {:induction false} UserCanStep(s: State, p: Proc)
    requires Inv(s) && PcOf(s, p).User?
    ensures CanStep(s, p)
  {
    var v := Vpage(p, 0);
    if v !in s.spt {
      assert Enabled(s, Grow(p, 0));
    } else if Present(s.dirs, v).None? {
      assert Enabled(s, Fault(p, 0));
    } else {
      assert PresentOk(s, v) && PageOk(s, v);
      assert Enabled(s, Read(p, 0, 0, s.mem[Present(s.dirs, v).value][0]));
    }
  }

  lemma {:induction false} HolderCanStep(s: State, p: Proc)
    requires Inv(s) && (PcOf(s, p).Picked? || PcOf(s, p).Written? || PcOf(s, p).Marked?)
    ensures CanStep(s, p)
  {
    if PcOf(s, p).Picked? {
      assert Enabled(s, Clear(p));
    } else if PcOf(s, p).Written? {
      assert Enabled(s, Mark(p));
    } else {
      VictimFreed(s, p);
      assert Enabled(s, Take(p, PcOf(s, p).victim, true));
    }
  }

  lemma {:induction false} LoaderCanStep(s: State, p: Proc)
    requires PcOf(s, p).Owns? || PcOf(s, p).Copied? || PcOf(s, p).Filled?
    ensures CanStep(s, p)
  {
    if PcOf(s, p).Owns? {
      assert Enabled(s, Fill(p));
    } else if PcOf(s, p).Copied? {
      assert Enabled(s, FreeSlot(p));
    } else {
      assert Enabled(s, Map(p, true, Spte(OnFrame, 0)));
    }
  }

  /** A process that needs frame_lock and finds it free. */
  lemma {:induction false} LockerCanStep(s: State, p: Proc)
    requires s.lock.None? && (PcOf(s, p).Wants? || PcOf(s, p).Mapped? || PcOf(s, p).Undo?)
    requires PcOf(s, p).Wants? ==> !(s.pool <= s.used)
    ensures CanStep(s, p)
  {
    if PcOf(s, p).Wants? {
      var k :| k in s.pool && k !in s.used;
      assert Enabled(s, TakeFree(p, k, true));
    } else if PcOf(s, p).Mapped? {
      assert Enabled(s, Unpin(p));
    } else {
      assert Enabled(s, GiveBack(p));
    }
  }

  /** On every run, a process can take a step unless it waits for frame_lock or is at
      one of the two panics. */
  lemma {:induction false} StuckIff(run: seq<State>, steps: seq<Step>, i: nat, p: Proc)
    requires IsRun(run, steps) && i < |run| && p in run[i].pc
    ensures CanStep(run[i], p) <==> !WaitsForLock(run[i], p) && !NoVictim(run[i], p) && !SwapFull(run[i], p)
  {
    var s := run[i];
    RunInv(run, steps, i);
    assert PcOk(s, p);
    if PcOf(s, p).Wants? && s.lock.None? && s.pool <= s.used {
      PickPossibleIff(run, steps, i, p);
    } else if PcOf(s, p).Cleared? {
      WriteOutPossibleIff(run, steps, i, p);
    } else if PcOf(s, p).User? {
      UserCanStep(s, p);
    } else if PcOf(s, p).Picked? || PcOf(s, p).Written? || PcOf(s, p).Marked? {
      HolderCanStep(s, p);
    } else if PcOf(s, p).Owns? || PcOf(s, p).Copied? || PcOf(s, p).Filled? {
      LoaderCanStep(s, p);
    } else if s.lock.None? {
      LockerCanStep(s, p);
    }
  }

  /** There is no deadlock: whoever waits for frame_lock waits for a process that can
      take a step, unless that one has found the swap area full. */
  lemma {:induction false} NoDeadlock(run: seq<State>, steps: seq<Step>, i: nat, p: Proc)
    requires IsRun(run, steps) && i < |run| && p in run[i].pc
    requires !NoVictim(run[i], p) && forall q :: q in run[i].pc ==> !SwapFull(run[i], q)
    ensures CanStep(run[i], p) || (run[i].lock.Some? && CanStep(run[i], run[i].lock.value))
  {
    RunInv(run, steps, i);
    StuckIff(run, steps, i, p);
    if run[i].lock.Some? {
      StuckIff(run, steps, i, run[i].lock.value);
    }
  }

  // ----- The two panics are reached

  /** Memory for one page and no swap area, before the first process. */
  ghost function Small(): (s: State)
    ensures Init(s)
  {
    State({ZERO}, {}, map[ZERO := Zeros()], map[], [], map[], map[], {}, map[],
          None, map[], map[], map[], map[], Nothing)
  }

  ghost predicate Reached(s: State) {
    exists run, steps :: IsRun(run, steps) && run[|steps|] == s
  }

  lemma {:induction false} Longer(run: seq<State>, steps: seq<Step>, a: Step, r: State)
    requires IsRun(run, steps) && Follows(run[|steps|], a, r)
    ensures IsRun(run + [r], steps + [a])
  {
    forall i | 0 <= i < |steps + [a]| ensures Follows((run + [r])[i], (steps + [a])[i], (run + [r])[i + 1]) {
      if i < |steps| { assert Follows(run[i], steps[i], run[i + 1]); }
    }
  }

  lemma {:induction false} Reach(s: State, a: Step)
    requires Reached(s) && Enabled(s, a)
    ensures Asserted(s, a) && Reached(Apply(s, a))
  {
    var run, steps :| IsRun(run, steps) && run[|steps|] == s;
    RunAsserted(run, steps, |steps|, a);
    Longer(run, steps, a, Apply(s, a));
    assert (run + [Apply(s, a)])[|steps + [a]|] == Apply(s, a);
  }

  /** A process grows by a page and touches it. */
  lemma {:induction false} Touch(s: State, p: Proc, u: nat) returns (r: State)
    requires Reached(s) && PcOf(s, p).User? && Vpage(p, u) !in s.spt && Present(s.dirs, Vpage(p, u)).None?
      && u < USER_PAGES
    ensures Reached(r) && r == Goto(DoGrow(s, Vpage(p, u)), p, Wants(u, Load))
  {
    Reach(s, Grow(p, u));
    var g := DoGrow(s, Vpage(p, u));
    Reach(g, Fault(p, u));
    r := Goto(g, p, Wants(u, Load));
  }

  /** The first process touches a page, */
  lemma {:induction false} FirstTouch() returns (r: State)
    ensures Reached(r) && PcOf(r, 0) == Wants(0, Load) && r.pc.Keys == {0} && r.dirs == map[0 := map[]]
    ensures r.frames == map[] && r.queue == [] && r.lock.None? && r.pool == {ZERO} && r.used == {} && r.available == {}
    ensures r.spt == map[Vpage(0, 0) := Spte(AllZero, 0)]
  {
    var s, none: seq<Step> := Small(), [];
    assert IsRun([s], none) && [s][|none|] == s;
    Reach(s, Start(0));
    assert Apply(s, Start(0)) == DoStart(s, 0);
    r := Touch(DoStart(s, 0), 0, 0);
  }

  /** and takes the only frame for it. */
  lemma {:induction false} OnlyFrame() returns (r: State)
    ensures Reached(r) && PcOf(r, 0) == Owns(0, Load, ZERO) && 1 !in r.pc && 1 !in r.dirs && 0 in r.dirs
    ensures r.queue == [ZERO] && ZERO in r.frames && r.frames[ZERO] == Frame(Vpage(0, 0), true)
    ensures r.lock.None? && r.pool == {ZERO} == r.used && r.available == {}
    ensures r.spt == map[Vpage(0, 0) := Spte(AllZero, 0)] && Present(r.dirs, Vpage(0, 1)).None?
  {
    var s := FirstTouch();
    Reach(s, TakeFree(0, ZERO, true));
    assert Apply(s, TakeFree(0, ZERO, true)) == DoTake(s, 0, ZERO);
    r := DoTake(s, 0, ZERO);
  }

  /** A second process needs a frame while the only one is pinned. */
  lemma {:induction false} ReachesNoVictim() returns (r: State)
    ensures Reached(r) && r.queue != [] && NoVictim(r, 1)
  {
    r := OnlyFrame();
    Reach(r, Start(1));
    r := Touch(DoStart(r, 1), 1, 0);
  }

  /** A page of zeros is loaded into the frame that was taken for it. */
  lemma {:induction false} Loaded(s: State, p: Proc, u: nat, k: Word) returns (r: State)
    requires Reached(s) && PcOf(s, p) == Owns(u, Load, k) && s.lock.None?
    requires Vpage(p, u) in s.spt && s.spt[Vpage(p, u)].status.AllZero?
    ensures Reached(r) && k in s.frames && p in s.dirs && Vpage(p, u) in s.logical
    ensures PcOf(r, p).User? && r.frames == s.frames[k := s.frames[k].(pinned := false)]
    ensures r.queue == s.queue && r.lock == s.lock && r.pool == s.pool && r.used == s.used && r.available == s.available
    ensures r.spt == s.spt[Vpage(p, u) := s.spt[Vpage(p, u)].(status := OnFrame)]
    ensures r.dirs == s.dirs[p := FlatSet(s.dirs[p], u, k, true)]
  {
    Reach(s, Fill(p));
    var f := DoFill(s, p, Zeros(), Filled(u, Load, k));
    assert Apply(s, Fill(p)) == f;
    Reach(f, Map(p, true, Spte(OnFrame, 0)));
    var m := ApplyMap(f, p, true, Spte(OnFrame, 0));
    assert m == DoMap(f, p, WithPage(f, p, true), f.spt[Vpage(p, u)].(status := OnFrame), f.logical[Vpage(p, u)]);
    Reach(m, Unpin(p));
    r := DoUnpin(m, p);
  }

  /** The first frame is evicted as far as its page is cleared. */
  lemma {:induction false} Evicting(s: State, p: Proc) returns (r: State)
    requires Reached(s) && Enabled(s, Pick(p))
    ensures Reached(r) && PcOf(r, p).Cleared? && r.available == s.available
  {
    Reach(s, Pick(p));
    var e := DoPick(s, p, s.queue[0]);
    Reach(e, Clear(p));
    r := DoClear(e, p);
  }

  /** A process needs a second frame when there is no swap area. */
  lemma {:induction false} ReachesSwapFull() returns (r: State)
    ensures Reached(r) && SwapFull(r, 0)
  {
    r := OnlyFrame();
    OnePageOnly(r.dirs[0], 0, 1, ZERO, true, true);
    r := Loaded(r, 0, 0, ZERO);
    assert Vpage(0, 1) !in r.spt && Present(r.dirs, Vpage(0, 1)).None?;
    r := Touch(r, 0, 1);
    assert Enabled(r, Pick(0));
    r := Evicting(r, 0);
  }

  // ----- Paging cannot be noticed

  /** What processes do to their memory, as if there were no paging. */
  datatype Event = Wrote(v: Vpage, at: nat, value: byte) | Created(v: Vpage, bytes: Bytes) | Silent

  ghost function EventOf(s: State, a: Step): Event
    requires Enabled(s, a) && Asserted(s, a)
  {
    match a
    case Write(p, u, i, x) => Wrote(Vpage(p, u), i, x)
    case Grow(p, u) => Created(Vpage(p, u), Zeros())
    case Map(p, table, _) =>
      var v := Vpage(p, s.pc[p].page);
      if s.pc[p].job.Install? && (table || HasTable(s.dirs, v)) then Created(v, s.pc[p].job.bytes) else Silent
    case _ => Silent
  }

  ghost function Effect(m: map<Vpage, Bytes>, e: Event): map<Vpage, Bytes> {
    match e
    case Wrote(v, i, x) => if v in m && i < |m[v]| then m[v := Poke(m[v], i, x)] else m
    case Created(v, bytes) => m[v := bytes]
    case Silent => m
  }

  /** The bytes of every page after the first n steps, from the events alone. */
  ghost function Memory(run: seq<State>, steps: seq<Step>, n: nat): map<Vpage, Bytes>
    requires IsRun(run, steps) && n <= |steps|
  {
    if n == 0 then map[]
    else
      assert Follows(run[n - 1], steps[n - 1], run[n]);
      Effect(Memory(run, steps, n - 1), EventOf(run[n - 1], steps[n - 1]))
  }

  lemma {:induction false} MapLogical(s: State, p: Proc, table: bool, garbage: Spte)
    requires p in s.pc && s.pc[p].Filled? && MapAsserts(s, p)
    ensures var v := Vpage(p, s.pc[p].page);
            ApplyMap(s, p, table, garbage).logical ==
            if s.pc[p].job.Install? && (table || HasTable(s.dirs, v)) then s.logical[v := s.pc[p].job.bytes]
              else s.logical
  {
  }

  lemma {:induction false} FillLogical(s: State, p: Proc)
    requires p in s.pc && s.pc[p].Owns? && FillAsserts(s, p)
    ensures ApplyFill(s, p).logical == s.logical
  {
    var at := s.pc[p];
    if at.job.Install? {
      assert ApplyFill(s, p) == DoFill(s, p, at.job.bytes, Filled(at.page, at.job, at.frame));
    } else if s.spt[Vpage(p, at.page)].status.AllZero? {
      assert ApplyFill(s, p) == DoFill(s, p, Zeros(), Filled(at.page, Load, at.frame));
    }
  }

  /** Finding a frame changes no page's bytes. */
  lemma {:induction false} AllocateLogical(s: State, a: Step)
    requires Enabled(s, a) && Asserted(s, a)
      && (a.TakeFree? || a.Pick? || a.Clear? || a.WriteOut? || a.Mark? || a.Take?)
    ensures Apply(s, a).logical == s.logical
  {
    match a
    case TakeFree(p, k, entry) => assert Apply(s, a) == if entry then DoTake(s, p, k) else DoLose(s, p, k);
    case Pick(p) => assert Apply(s, a) == DoPick(s, p, s.queue[0]);
    case Clear(p) => assert Apply(s, a) == DoClear(s, p);
    case WriteOut(p, slot) => assert Apply(s, a) == DoWriteOut(s, p, slot);
    case Mark(p) => assert Apply(s, a) == DoMark(s, p);
    case Take(p, k, entry) =>
      assert Apply(s, a) == if entry then DoTake(DoEvicted(s, p), p, k) else DoLose(DoEvicted(s, p), p, k);
      assert DoEvicted(s, p).logical == s.logical;
  }

  /** Nor does returning to user code. */
  lemma {:induction false} FinishLogical(s: State, a: Step)
    requires Enabled(s, a) && Asserted(s, a) && (a.FreeSlot? || a.Fail? || a.Unpin? || a.GiveBack?)
    ensures Apply(s, a).logical == s.logical
  {
    match a
    case FreeSlot(p) => assert Apply(s, a) == DoFreeSlot(s, p);
    case Fail(p) => assert Apply(s, a) == Goto(s, p, Undo(s.pc[p].page, s.pc[p].job, s.pc[p].frame));
    case Unpin(p) => assert Apply(s, a) == DoUnpin(s, p);
    case GiveBack(p) => assert Apply(s, a) == DoGiveBack(s, p);
  }

  /** What user code does to the bytes of its pages. */
  lemma {:induction false} UserLogical(s: State, a: Step)
    requires Enabled(s, a) && Asserted(s, a)
      && (a.Start? || a.Read? || a.Write? || a.Grow? || a.Fault? || a.BeginInstall?)
    ensures Apply(s, a).logical == Effect(s.logical, EventOf(s, a))
  {
    match a
    case Start(p) => assert Apply(s, a) == DoStart(s, p);
    case Read(p, u, _, _) => assert Apply(s, a) == DoRead(s, p, u);
    case Write(p, u, i, x) => assert Apply(s, a) == DoWrite(s, p, u, Present(s.dirs, Vpage(p, u)).value, i, x);
    case Grow(p, u) => assert Apply(s, a) == DoGrow(s, Vpage(p, u));
    case Fault(p, u) => assert Apply(s, a) == if s.spt[Vpage(p, u)].status.OnFrame? then s
      else Goto(s, p, Wants(u, Load));
    case BeginInstall(p, u, bytes, w) => assert Apply(s, a) == Goto(s, p, Wants(u, Install(bytes, w)));
  }

  lemma {:induction false} LogicalStep(s: State, a: Step)
    requires Enabled(s, a) && Asserted(s, a)
    ensures Apply(s, a).logical == Effect(s.logical, EventOf(s, a))
  {
    if a.Fill? {
      FillLogical(s, a.p);
    } else if a.Map? {
      MapLogical(s, a.p, a.table, a.garbage);
    } else if a.FreeSlot? || a.Fail? || a.Unpin? || a.GiveBack? {
      FinishLogical(s, a);
    } else if a.TakeFree? || a.Pick? || a.Clear? || a.WriteOut? || a.Mark? || a.Take? {
      AllocateLogical(s, a);
    } else {
      UserLogical(s, a);
    }
  }

  lemma {:induction false} LogicalIsMemory(run: seq<State>, steps: seq<Step>, n: nat)
    requires IsRun(run, steps) && n <= |steps|
    ensures run[n].logical == Memory(run, steps, n)
  {
    if n > 0 {
      LogicalIsMemory(run, steps, n - 1);
      assert Follows(run[n - 1], steps[n - 1], run[n]);
      LogicalStep(run[n - 1], steps[n - 1]);
    }
  }

  /** Whatever was evicted and reloaded before, a read returns what was last written
      to that byte, or what the page was created with. */
  lemma {:induction false} ReadsLastWrite(run: seq<State>, steps: seq<Step>, n: nat)
    requires IsRun(run, steps) && n < |steps| && steps[n].Read?
    ensures var v := Vpage(steps[n].p, steps[n].page);
            && v in Memory(run, steps, n) && steps[n].at < |Memory(run, steps, n)[v]|
            && steps[n].value == Memory(run, steps, n)[v][steps[n].at]
  {
    RunInv(run, steps, n);
    LogicalIsMemory(run, steps, n);
    var s, v := run[n], Vpage(steps[n].p, steps[n].page);
    assert Follows(s, steps[n], run[n + 1]);
    assert PresentOk(s, v) && PageOk(s, v);
  }

  /** On every run a process can read a byte of a page that is present, and reads what
      was last written there, or what the page was created with. */
  lemma {:induction false} ReadIff(run: seq<State>, steps: seq<Step>, n: nat, p: Proc, u: nat, i: nat, x: byte)
    requires IsRun(run, steps) && n <= |steps| && PcOf(run[n], p).User? && Present(run[n].dirs, Vpage(p, u)).Some?
    ensures Vpage(p, u) in Memory(run, steps, n) && |Memory(run, steps, n)[Vpage(p, u)]| == PGSIZE
    ensures Enabled(run[n], Read(p, u, i, x)) <==> i < PGSIZE && x == Memory(run, steps, n)[Vpage(p, u)][i]
  {
    RunInv(run, steps, n);
    LogicalIsMemory(run, steps, n);
    assert PresentOk(run[n], Vpage(p, u)) && PageOk(run[n], Vpage(p, u));
  }

  // ----- What may be written

  /** The step maps page v. */
  ghost predicate Maps(s: State, a: Step, v: Vpage) {
    && a.Map? && PcOf(s, a.p).Filled? && v == Vpage(a.p, PcOf(s, a.p).page)
    && (a.table || HasTable(s.dirs, v))
  }

  /** A page that is installed is writable if its installer says so, a page that is
      loaded always. */
  ghost predicate AsWritable(c: Pc)
    requires c.Filled?
  {
    c.job.Install? ==> c.job.writable
  }

  /** The step takes page v away to evict it. */
  ghost predicate Unmaps(s: State, a: Step, v: Vpage) {
    && a.Clear? && PcOf(s, a.p).Picked?
    && var k := PcOf(s, a.p).victim; k in s.frames && s.frames[k].vpage == v
  }

  ghost predicate MayWrite(dirs: map<Proc, Flat>, v: Vpage) {
    HasTable(dirs, v) && dirs[v.proc][v.page].writable
  }

  /** Setting accessed and dirty bits. */
  lemma {:induction false} TouchedWritable(d: map<Proc, Flat>, p: Proc, u: nat, b: bool, v: Vpage)
    requires p in d
    ensures MayWrite(d[p := FlatSetAccessed(d[p], u, b)], v) == MayWrite(d, v)
    ensures MayWrite(d[p := FlatSetDirty(FlatSetAccessed(d[p], u, b), u, b)], v) == MayWrite(d, v)
  {
  }

  lemma {:induction false} ClearedWritable(d: map<Proc, Flat>, w: Vpage, v: Vpage)
    requires w.proc in d
    ensures MayWrite(d[w.proc := FlatClear(d[w.proc], w.page)], v) == MayWrite(d, v)
  {
  }

  lemma {:induction false} MappedWritable(d: map<Proc, Flat>, p: Proc, u: nat, k: Word, w: bool, v: Vpage)
    requires p in d
    ensures MayWrite(d[p := FlatSet(d[p], u, k, w)], v) == if v == Vpage(p, u) then w else MayWrite(d, v)
  {
  }

  /** A step changes whether v is present, and may be written, only by mapping it or
      taking it away. */
  ghost predicate KeepsAccess(s: State, a: Step, r: State, v: Vpage) {
    if Maps(s, a, v)
    then Present(s.dirs, v).None? && Present(r.dirs, v).Some? && (MayWrite(r.dirs, v) <==> AsWritable(PcOf(s, a.p)))
    else
      && (Present(r.dirs, v).Some? <==> Present(s.dirs, v).Some? && !Unmaps(s, a, v))
      && (Present(s.dirs, v).Some? ==> MayWrite(r.dirs, v) == MayWrite(s.dirs, v))
  }

  /** Page directories before and after accessed and dirty bits of process p are set. */
  ghost predicate Touches(d: map<Proc, Flat>, e: map<Proc, Flat>, p: Proc, u: nat, b: bool) {
    && p in d
    && (|| e == d[p := FlatSetAccessed(d[p], u, b)]
        || e == d[p := FlatSetDirty(FlatSetAccessed(d[p], u, b), u, b)])
  }

  lemma {:induction false} TouchesAccess(s: State, a: Step, r: State, p: Proc, u: nat, b: bool, v: Vpage)
    requires Touches(s.dirs, r.dirs, p, u, b) && !a.Clear? && !a.Map?
    ensures KeepsAccess(s, a, r, v)
  {
    TouchedDirs(s.dirs, p, u, b);
    TouchedWritable(s.dirs, p, u, b, v);
  }

  lemma {:induction false} TouchAccess(s: State, a: Step, v: Vpage)
    requires Inv(s) && Enabled(s, a) && Asserted(s, a) && (a.Start? || a.Read? || a.Write? || a.Pick?)
    ensures KeepsAccess(s, a, Apply(s, a), v)
  {
    match a
    case Start(p) => assert Apply(s, a) == DoStart(s, p);
    case Read(p, u, _, _) =>
      assert Apply(s, a) == DoRead(s, p, u);
      TouchesAccess(s, a, Apply(s, a), p, u, true, v);
    case Write(p, u, i, x) =>
      assert Apply(s, a).dirs == s.dirs[p := FlatSetDirty(FlatSetAccessed(s.dirs[p], u, true), u, true)];
      TouchesAccess(s, a, Apply(s, a), p, u, true, v);
    case Pick(p) =>
      assert Apply(s, a) == DoPick(s, p, s.queue[0]);
      TouchesAccess(s, a, Apply(s, a), p, s.frames[s.queue[0]].vpage.page, false, v);
    case _ =>
  }

  lemma {:induction false} ClearAccess(s: State, p: Proc, v: Vpage)
    requires Inv(s) && Enabled(s, Clear(p)) && Asserted(s, Clear(p))
    ensures KeepsAccess(s, Clear(p), Apply(s, Clear(p)), v)
  {
    var w := s.frames[s.pc[p].victim].vpage;
    assert Apply(s, Clear(p)) == DoClear(s, p);
    ClearedDirs(s.dirs, w);
    ClearedWritable(s.dirs, w, v);
  }

  lemma {:induction false} MapDirs(s: State, p: Proc, table: bool, garbage: Spte)
    requires Enabled(s, Map(p, table, garbage)) && Asserted(s, Map(p, table, garbage))
    ensures Apply(s, Map(p, table, garbage)).dirs ==
            if table || HasTable(s.dirs, Vpage(p, s.pc[p].page))
            then WithPage(s, p, s.pc[p].job.Install? ==> s.pc[p].job.writable) else s.dirs
  {
    assert Apply(s, Map(p, table, garbage)) == ApplyMap(s, p, table, garbage);
  }

  lemma {:induction false} MapAccess(s: State, p: Proc, table: bool, garbage: Spte, v: Vpage)
    requires Inv(s) && Enabled(s, Map(p, table, garbage)) && Asserted(s, Map(p, table, garbage))
    ensures KeepsAccess(s, Map(p, table, garbage), Apply(s, Map(p, table, garbage)), v)
  {
    var Filled(u, job, k) := s.pc[p];
    var w := job.Install? ==> job.writable;
    MapDirs(s, p, table, garbage);
    MappedDirs(s.dirs, p, u, k, w);
    MappedWritable(s.dirs, p, u, k, w, v);
  }

  lemma {:induction false} SameAccess(s: State, a: Step, r: State, v: Vpage)
    requires r.dirs == s.dirs && !a.Clear? && !a.Map?
    ensures KeepsAccess(s, a, r, v)
  {
  }

  /** Finding a frame leaves page directories alone once the victim is picked, */
  lemma {:induction false} AllocateDirs(s: State, a: Step)
    requires Enabled(s, a) && Asserted(s, a) && (a.TakeFree? || a.WriteOut? || a.Mark? || a.Take?)
    ensures Apply(s, a).dirs == s.dirs
  {
    match a
    case TakeFree(p, k, entry) => assert Apply(s, a) == if entry then DoTake(s, p, k) else DoLose(s, p, k);
    case WriteOut(p, slot) => assert Apply(s, a) == DoWriteOut(s, p, slot);
    case Mark(p) => assert Apply(s, a) == DoMark(s, p);
    case Take(p, k, entry) =>
      assert Apply(s, a) == if entry then DoTake(DoEvicted(s, p), p, k) else DoLose(DoEvicted(s, p), p, k);
      assert DoEvicted(s, p).dirs == s.dirs;
  }

  /** and so do the rest of the steps. */
  lemma {:induction false} OtherDirs(s: State, a: Step)
    requires Enabled(s, a) && Asserted(s, a)
    requires a.Grow? || a.Fault? || a.BeginInstall? || a.Fill? || a.FreeSlot? || a.Fail? || a.Unpin? || a.GiveBack?
    ensures Apply(s, a).dirs == s.dirs
  {
    match a
    case Grow(p, u) => assert Apply(s, a) == DoGrow(s, Vpage(p, u));
    case Fault(p, u) =>
      assert Apply(s, a) == if s.spt[Vpage(p, u)].status.OnFrame? then s else Goto(s, p, Wants(u, Load));
    case BeginInstall(p, u, bytes, w) => assert Apply(s, a) == Goto(s, p, Wants(u, Install(bytes, w)));
    case Fill(p) => assert Apply(s, a) == ApplyFill(s, p);
    case FreeSlot(p) => assert Apply(s, a) == DoFreeSlot(s, p);
    case Fail(p) => assert Apply(s, a) == Goto(s, p, Undo(s.pc[p].page, s.pc[p].job, s.pc[p].frame));
    case Unpin(p) => assert Apply(s, a) == DoUnpin(s, p);
    case GiveBack(p) => assert Apply(s, a) == DoGiveBack(s, p);
  }

  lemma {:induction false} StepAccess(s: State, a: Step, v: Vpage)
    requires Inv(s) && Enabled(s, a) && Asserted(s, a)
    ensures KeepsAccess(s, a, Apply(s, a), v)
  {
    if a.Start? || a.Read? || a.Write? || a.Pick? {
      TouchAccess(s, a, v);
    } else if a.Clear? {
      ClearAccess(s, a.p, v);
    } else if a.Map? {
      MapAccess(s, a.p, a.table, a.garbage, v);
    } else if a.TakeFree? || a.WriteOut? || a.Mark? || a.Take? {
      AllocateDirs(s, a);
      SameAccess(s, a, Apply(s, a), v);
    } else {
      OtherDirs(s, a);
      SameAccess(s, a, Apply(s, a), v);
    }
  }

  lemma {:induction false} RunAccess(run: seq<State>, steps: seq<Step>, n: nat, v: Vpage)
    requires IsRun(run, steps) && n < |steps|
    ensures KeepsAccess(run[n], steps[n], run[n + 1], v)
  {
    assert Follows(run[n], steps[n], run[n + 1]);
    RunInv(run, steps, n);
    StepAccess(run[n], steps[n], v);
  }

  /** Whether page v may be written, as the last of the first n steps that mapped it
      said. */
  ghost function LastMapped(run: seq<State>, steps: seq<Step>, n: nat, v: Vpage): Option<bool>
    requires n <= |steps| < |run|
  {
    if n == 0 then None
    else if Maps(run[n - 1], steps[n - 1], v) then Some(AsWritable(PcOf(run[n - 1], steps[n - 1].p)))
    else LastMapped(run, steps, n - 1, v)
  }

  ghost predicate AccessKept(run: seq<State>, steps: seq<Step>, v: Vpage) {
    && |run| == |steps| + 1 && Present(run[0].dirs, v).None?
    && forall j :: 0 <= j < |steps| ==> KeepsAccess(run[j], steps[j], run[j + 1], v)
  }

  lemma {:induction false} RunAccessKept(run: seq<State>, steps: seq<Step>, v: Vpage)
    requires IsRun(run, steps)
    ensures AccessKept(run, steps, v)
  {
    forall j: nat | j < |steps| ensures KeepsAccess(run[j], steps[j], run[j + 1], v) { RunAccess(run, steps, j, v); }
  }

  lemma {:induction false} PresentAsMapped(run: seq<State>, steps: seq<Step>, n: nat, v: Vpage)
    requires AccessKept(run, steps, v) && n <= |steps| && Present(run[n].dirs, v).Some?
    ensures LastMapped(run, steps, n, v) == Some(MayWrite(run[n].dirs, v))
  {
    if n > 0 {
      assert KeepsAccess(run[n - 1], steps[n - 1], run[n - 1 + 1], v);
      if !Maps(run[n - 1], steps[n - 1], v) {
        PresentAsMapped(run, steps, n - 1, v);
      }
    }
  }

  /** On every run a process can write to a page if and only if that is present and was
      last mapped as writable. */
  lemma {:induction false} WritableIff(run: seq<State>, steps: seq<Step>, n: nat, p: Proc, u: nat, i: nat, x: byte)
    requires IsRun(run, steps) && n <= |steps| && PcOf(run[n], p).User? && i < PGSIZE
    ensures Enabled(run[n], Write(p, u, i, x)) <==>
            Present(run[n].dirs, Vpage(p, u)).Some? && LastMapped(run, steps, n, Vpage(p, u)) == Some(true)
  {
    RunAccessKept(run, steps, Vpage(p, u));
    if Present(run[n].dirs, Vpage(p, u)).Some? {
      PresentAsMapped(run, steps, n, Vpage(p, u));
    }
  }

  lemma {:induction false} StaysReadOnly(run: seq<State>, steps: seq<Step>, n: nat, m: nat, v: Vpage)
    requires AccessKept(run, steps, v) && n < m <= |steps| && Maps(run[n], steps[n], v)
    requires !AsWritable(PcOf(run[n], steps[n].p)) && forall j :: n < j < m ==> !Unmaps(run[j], steps[j], v)
    ensures Present(run[m].dirs, v).Some? && !MayWrite(run[m].dirs, v)
  {
    assert KeepsAccess(run[m - 1], steps[m - 1], run[m - 1 + 1], v);
    if m > n + 1 {
      StaysReadOnly(run, steps, n, m - 1, v);
    }
  }

  /** On every run a page that is installed as read-only stays present, and is not
      written, until it is first evicted. */
  lemma {:induction false} InstalledReadOnly(run: seq<State>, steps: seq<Step>, n: nat, m: nat,
                                             v: Vpage, i: nat, x: byte)
    requires IsRun(run, steps) && n < m <= |steps| && Maps(run[n], steps[n], v)
    requires !AsWritable(PcOf(run[n], steps[n].p)) && forall j :: n < j < m ==> !Unmaps(run[j], steps[j], v)
    ensures Present(run[m].dirs, v).Some? && !Enabled(run[m], Write(v.proc, v.page, i, x))
  {
    RunAccessKept(run, steps, v);
    StaysReadOnly(run, steps, n, m, v);
  }

  /** Two pages that are present never share a frame. */
  lemma {:induction false} FramesNotShared(s: State, v: Vpage, w: Vpage)
    requires Inv(s) && v != w && Present(s.dirs, v).Some? && Present(s.dirs, w).Some?
    ensures Present(s.dirs, v) != Present(s.dirs, w)
  {
    assert PresentOk(s, v) && PresentOk(s, w);
    assert PageOk(s, v) && PageOk(s, w);
  }

  /** Some process is evicting the frame. */
  ghost predicate Victim(s: State, k: Word) {
    s.lock.Some? && var c := PcOf(s, s.lock.value);
    (c.Picked? || c.Cleared? || c.Written? || c.Marked?) && c.victim == k
  }

  /** Every unpinned frame is present in its owner's page directory, unless it is
      being evicted. */
  lemma {:induction false} UnpinnedIsPresent(s: State, k: Word)
    requires Inv(s) && k in s.frames && !s.frames[k].pinned && !Victim(s, k)
    ensures Present(s.dirs, s.frames[k].vpage) == Some(k)
  {
    assert FrameOk(s, k);
    assert s.lock.Some? ==> PcOk(s, s.lock.value);
    assert s.frames[k].vpage in s.home ==> PageOk(s, s.frames[k].vpage);
  }

  /** The page is swapped out: marked so, and neither leaving nor arriving. */
  ghost predicate SwappedOut(s: State, v: Vpage) {
    && v in s.spt && s.spt[v].status.OnSwap? && Present(s.dirs, v).None?
    && (forall k :: k in s.frames && s.frames[k].vpage == v ==> !Victim(s, k) || PcOf(s, s.lock.value).Marked?)
    && !(PcOf(s, v.proc).Filled? && PcOf(s, v.proc).page == v.page)
  }

  lemma {:induction false} SwappedOutHome(s: State, v: Vpage)
    requires Inv(s) && SwappedOut(s, v)
    ensures v in s.home && s.home[v] == InSlot(s.spt[v].swapIndex)
  {
    assert PageOk(s, v);
    assert s.home[v].Arriving? || s.home[v].Leaving? ==> FrameOk(s, s.home[v].frame);
    assert s.lock.Some? ==> PcOk(s, s.lock.value);
    assert v.proc in s.pc ==> PcOk(s, v.proc);
  }

  /** A swapped-out page owns a slot that is in use and holds its bytes, and no two
      share one. */
  lemma {:induction false} SlotsNotShared(s: State, v: Vpage, w: Vpage)
    requires Inv(s) && SwappedOut(s, v) && SwappedOut(s, w)
    ensures var i := s.spt[v].swapIndex;
            && i in s.slots && i !in s.available && v in s.logical && s.slots[i] == s.logical[v]
            && (v != w ==> i != s.spt[w].swapIndex)
  {
    SwappedOutHome(s, v);
    SwappedOutHome(s, w);
    assert PageOk(s, v) && PageOk(s, w);
  }
}
