/** How a page fault is handled to its end, that neither frames nor swap slots get lost
    on the way, and that the oldest frame is evicted (vm/frame.c, vm/page.c, vm/swap.c). */
module PagingProgress {
  import opened Basics
  import opened Pagedir
  import opened PagingState
  import opened PagingInvariant
  import opened PagingTheorems

  // ----- Handling ends

  /** A bound for the steps that a process has still to take before it is back in user
      code. */
  function Rank(c: Pc): (n: nat)
    ensures n <= 9
  {
    match c
    case Absent => 0
    case User => 0
    case Mapped(_, _) => 1
    case Undo(_, _, _) => 1
    case Filled(_, _, _) => 2
    case Copied(_, _, _) => 3
    case Owns(_, _, _) => 4
    case Marked(_, _, _) => 5
    case Written(_, _, _, _) => 6
    case Cleared(_, _, _) => 7
    case Picked(_, _, _) => 8
    case Wants(_, _) => 9
  }

  /** The page that a process at c is busy with, and what for. */
  function PageIn(c: Pc): Option<nat> {
    if c.Absent? || c.User? then None else Some(c.page)
  }

  function JobIn(c: Pc): Option<Job> {
    if c.Absent? || c.User? || c.Mapped? then None else if c.Copied? then Some(Load) else Some(c.job)
  }

  /** From c to d a process goes on with what it is doing, or is done. */
  predicate Carries(c: Pc, d: Pc) {
    d.User? || (PageIn(d) == PageIn(c) && (d.Mapped? || JobIn(d) == JobIn(c)))
  }

  /** Only its own steps move a process, and then closer to user code. */
  ghost predicate Advances(s: State, a: Step, r: State, p: Proc) {
    p in s.pc ==>
      && p in r.pc
      && (a.p != p ==> r.pc[p] == s.pc[p])
      && (a.p == p && !s.pc[p].User? ==> Rank(r.pc[p]) < Rank(s.pc[p]) && Carries(s.pc[p], r.pc[p]))
  }

  /** r is s but for process p, which is at c. */
  lemma {:induction false} MovedTo(s: State, a: Step, r: State, c: Pc, p: Proc)
    requires r.pc == s.pc[a.p := c]
    requires a.p in s.pc && !s.pc[a.p].User? ==> Rank(c) < Rank(s.pc[a.p]) && Carries(s.pc[a.p], c)
    ensures Advances(s, a, r, p)
  {
  }

  predicate IsUserStep(a: Step) {
    a.Start? || a.Read? || a.Write? || a.Grow? || a.Fault? || a.BeginInstall?
  }

  lemma {:induction false} UserAdvances(s: State, a: Step, p: Proc)
    requires Enabled(s, a) && Asserted(s, a) && IsUserStep(a)
    ensures Advances(s, a, Apply(s, a), p)
  {
    match a
    case Start(q) => assert Apply(s, a) == DoStart(s, q);
    case Read(q, u, _, _) => assert Apply(s, a) == DoRead(s, q, u);
    case Write(q, u, i, x) => assert Apply(s, a) == DoWrite(s, q, u, Present(s.dirs, Vpage(q, u)).value, i, x);
    case Grow(q, u) => assert Apply(s, a) == DoGrow(s, Vpage(q, u));
    case Fault(q, u) =>
      assert Apply(s, a) == if s.spt[Vpage(q, u)].status.OnFrame? then s else Goto(s, q, Wants(u, Load));
    case BeginInstall(q, u, bytes, w) => assert Apply(s, a) == Goto(s, q, Wants(u, Install(bytes, w)));
  }

  lemma {:induction false} EvictAdvances(s: State, a: Step, p: Proc)
    requires Enabled(s, a) && Asserted(s, a) && (a.Pick? || a.Clear? || a.WriteOut? || a.Mark?)
    ensures Advances(s, a, Apply(s, a), p)
  {
    var at := s.pc[a.p];
    match a
    case Pick(q) =>
      assert Apply(s, a) == DoPick(s, q, s.queue[0]);
      MovedTo(s, a, Apply(s, a), Picked(at.page, at.job, s.queue[0]), p);
    case Clear(q) =>
      assert Apply(s, a) == DoClear(s, q);
      MovedTo(s, a, Apply(s, a), Cleared(at.page, at.job, at.victim), p);
    case WriteOut(q, slot) =>
      assert Apply(s, a) == DoWriteOut(s, q, slot);
      MovedTo(s, a, Apply(s, a), Written(at.page, at.job, at.victim, slot), p);
    case Mark(q) =>
      assert Apply(s, a) == DoMark(s, q);
      MovedTo(s, a, Apply(s, a), Marked(at.page, at.job, at.victim), p);
  }

  lemma {:induction false} TakeAdvances(s: State, a: Step, p: Proc)
    requires Enabled(s, a) && Asserted(s, a) && (a.TakeFree? || a.Take?)
    ensures Advances(s, a, Apply(s, a), p)
  {
    var at, q, k := s.pc[a.p], a.p, a.frame;
    var c := if a.entry then Owns(at.page, at.job, k) else User;
    if a.Take? { TakePc(s, q, k, a.entry); } else { TakeFreePc(s, q, k, a.entry); }
    MovedTo(s, a, Apply(s, a), c, p);
  }

  lemma {:induction false} TakePc(s: State, q: Proc, k: Word, entry: bool)
    requires Enabled(s, Take(q, k, entry)) && Asserted(s, Take(q, k, entry))
    ensures Apply(s, Take(q, k, entry)).pc == s.pc[q := if entry then Owns(s.pc[q].page, s.pc[q].job, k) else User]
  {
    var e := DoEvicted(s, q);
    assert Apply(s, Take(q, k, entry)) == if entry then DoTake(e, q, k) else DoLose(e, q, k);
    assert e.pc == s.pc[q := Wants(s.pc[q].page, s.pc[q].job)];
  }

  lemma {:induction false} TakeFreePc(s: State, q: Proc, k: Word, entry: bool)
    requires Enabled(s, TakeFree(q, k, entry)) && Asserted(s, TakeFree(q, k, entry))
    ensures Apply(s, TakeFree(q, k, entry)).pc == s.pc[q := if entry then Owns(s.pc[q].page, s.pc[q].job, k) else User]
  {
    assert Apply(s, TakeFree(q, k, entry)) == if entry then DoTake(s, q, k) else DoLose(s, q, k);
  }

  lemma {:induction false} FinishAdvances(s: State, a: Step, p: Proc)
    requires Enabled(s, a) && Asserted(s, a) && (a.FreeSlot? || a.Fail? || a.Unpin? || a.GiveBack?)
    ensures Advances(s, a, Apply(s, a), p)
  {
    var at, q := s.pc[a.p], a.p;
    if a.FreeSlot? {
      assert Apply(s, a) == DoFreeSlot(s, q);
      MovedTo(s, a, Apply(s, a), Filled(at.page, Load, at.frame), p);
    } else if a.Fail? {
      assert Apply(s, a) == Goto(s, q, Undo(at.page, at.job, at.frame));
      MovedTo(s, a, Apply(s, a), Undo(at.page, at.job, at.frame), p);
    } else {
      assert Apply(s, a) == if a.Unpin? then DoUnpin(s, q) else DoGiveBack(s, q);
      MovedTo(s, a, Apply(s, a), User, p);
    }
  }

  lemma {:induction false} FillAdvances(s: State, q: Proc, p: Proc)
    requires Enabled(s, Fill(q)) && Asserted(s, Fill(q))
    ensures Advances(s, Fill(q), Apply(s, Fill(q)), p)
  {
    var bytes, c := FillIs(s, q);
    MovedTo(s, Fill(q), Apply(s, Fill(q)), c, p);
  }

  /** The frame is filled, and the process is at c. */
  lemma {:induction false} FillIs(s: State, q: Proc) returns (bytes: Bytes, c: Pc)
    requires Enabled(s, Fill(q)) && Asserted(s, Fill(q))
    ensures Apply(s, Fill(q)) == DoFill(s, q, bytes, c) && (c.Copied? || c.Filled?) && Carries(s.pc[q], c)
  {
    var at := s.pc[q];
    assert Apply(s, Fill(q)) == ApplyFill(s, q);
    if at.job.Install? {
      bytes, c := at.job.bytes, Filled(at.page, at.job, at.frame);
    } else {
      var e := s.spt[Vpage(q, at.page)];
      if e.status.AllZero? {
        bytes, c := Zeros(), Filled(at.page, Load, at.frame);
      } else {
        bytes, c := s.slots[e.swapIndex], Copied(at.page, at.frame, e.swapIndex);
      }
    }
  }

  lemma {:induction false} MapAdvances(s: State, q: Proc, table: bool, garbage: Spte, p: Proc)
    requires Enabled(s, Map(q, table, garbage)) && Asserted(s, Map(q, table, garbage))
    ensures Advances(s, Map(q, table, garbage), Apply(s, Map(q, table, garbage)), p)
  {
    MapPc(s, q, table, garbage);
    var at := s.pc[q];
    var c := if table || HasTable(s.dirs, Vpage(q, at.page)) then Mapped(at.page, at.frame)
      else Undo(at.page, at.job, at.frame);
    MovedTo(s, Map(q, table, garbage), Apply(s, Map(q, table, garbage)), c, p);
  }

  lemma {:induction false} MapPc(s: State, q: Proc, table: bool, garbage: Spte)
    requires Enabled(s, Map(q, table, garbage)) && Asserted(s, Map(q, table, garbage))
    ensures var at := s.pc[q];
            Apply(s, Map(q, table, garbage)).pc ==
            s.pc[q := if table || HasTable(s.dirs, Vpage(q, at.page)) then Mapped(at.page, at.frame)
                      else Undo(at.page, at.job, at.frame)]
  {
    assert Apply(s, Map(q, table, garbage)) == ApplyMap(s, q, table, garbage);
  }

  lemma {:induction false} StepAdvances(s: State, a: Step, p: Proc)
    requires Enabled(s, a) && Asserted(s, a)
    ensures Advances(s, a, Apply(s, a), p)
  {
    if IsUserStep(a) {
      UserAdvances(s, a, p);
    } else if a.Pick? || a.Clear? || a.WriteOut? || a.Mark? {
      EvictAdvances(s, a, p);
    } else if a.TakeFree? || a.Take? {
      TakeAdvances(s, a, p);
    } else if a.Fill? {
      FillAdvances(s, a.p, p);
    } else if a.Map? {
      MapAdvances(s, a.p, a.table, a.garbage, p);
    } else {
      FinishAdvances(s, a, p);
    }
  }

  /** Steps of process p among those from i to j. */
  ghost function OwnSteps(steps: seq<Step>, i: nat, j: nat, p: Proc): nat
    requires i <= j <= |steps|
  {
    if i == j then 0 else OwnSteps(steps, i, j - 1, p) + if steps[j - 1].p == p then 1 else 0
  }

  ghost predicate AdvancesAt(run: seq<State>, steps: seq<Step>, n: nat, p: Proc)
    requires n < |steps| < |run|
  {
    Advances(run[n], steps[n], run[n + 1], p)
  }

  lemma {:induction false} RankFalls(run: seq<State>, steps: seq<Step>, i: nat, j: nat, p: Proc)
    requires i <= j <= |steps| < |run| && p in run[i].pc
    requires forall n :: i <= n < j ==> AdvancesAt(run, steps, n, p)
    requires forall n :: i <= n < j ==> !PcOf(run[n], p).User?
    ensures p in run[j].pc && Rank(run[j].pc[p]) + OwnSteps(steps, i, j, p) <= Rank(run[i].pc[p])
  {
    if i < j {
      RankFalls(run, steps, i, j - 1, p);
      assert AdvancesAt(run, steps, j - 1, p);
      assert !PcOf(run[j - 1], p).User?;
    }
  }

  lemma {:induction false} RunAdvances(run: seq<State>, steps: seq<Step>, n: nat, p: Proc)
    requires IsRun(run, steps) && n < |steps|
    ensures AdvancesAt(run, steps, n, p)
  {
    assert Follows(run[n], steps[n], run[n + 1]);
    StepAdvances(run[n], steps[n], p);
  }

  lemma {:induction false} AllAdvance(run: seq<State>, steps: seq<Step>, p: Proc)
    requires IsRun(run, steps)
    ensures forall n :: 0 <= n < |steps| ==> AdvancesAt(run, steps, n, p)
  {
    forall n: nat | n < |steps| ensures AdvancesAt(run, steps, n, p) { RunAdvances(run, steps, n, p); }
  }

  /** On every run a process takes at most nine steps from leaving user code to being
      back there. */
  lemma {:induction false} HandledInNineSteps(run: seq<State>, steps: seq<Step>, i: nat, j: nat, p: Proc)
    requires IsRun(run, steps) && i <= j <= |steps| && p in run[i].pc
    requires forall n :: i <= n < j ==> !PcOf(run[n], p).User?
    ensures OwnSteps(steps, i, j, p) <= 9
  {
    AllAdvance(run, steps, p);
    RankFalls(run, steps, i, j, p);
  }

  /** A fault begins the handling, unless the page is only about to leave its frame; then
      the access is tried again. */
  lemma {:induction false} FaultBegins(run: seq<State>, steps: seq<Step>, n: nat, p: Proc, u: nat)
    requires IsRun(run, steps) && n < |steps| && steps[n] == Fault(p, u)
    ensures Vpage(p, u) in run[n].home
    ensures !run[n].home[Vpage(p, u)].Leaving? ==> PcOf(run[n + 1], p) == Wants(u, Load)
    ensures PcOf(run[n + 1], p) == Wants(u, Load) || run[n + 1] == run[n]
  {
    RunInv(run, steps, n);
    assert Follows(run[n], steps[n], run[n + 1]);
    FaultHome(run[n], p, u);
    FaultDoes(run[n], p, u);
  }

  lemma {:induction false} FaultDoes(s: State, p: Proc, u: nat)
    requires Inv(s) && Enabled(s, Fault(p, u)) && (JobOk(s, Vpage(p, u), Load) || s.home[Vpage(p, u)].Leaving?)
    ensures Vpage(p, u) in s.home
    ensures !s.home[Vpage(p, u)].Leaving? ==> PcOf(Apply(s, Fault(p, u)), p) == Wants(u, Load)
    ensures PcOf(Apply(s, Fault(p, u)), p) == Wants(u, Load) || Apply(s, Fault(p, u)) == s
  {
    assert PageOk(s, Vpage(p, u));
    assert Apply(s, Fault(p, u)) == if s.spt[Vpage(p, u)].status.OnFrame? then s else Goto(s, p, Wants(u, Load));
  }

  /** When it is done the page is present, in a frame that holds its bytes. */
  lemma {:induction false} HandledIsPresent(run: seq<State>, steps: seq<Step>, n: nat, p: Proc)
    requires IsRun(run, steps) && n < |run| && PcOf(run[n], p).Mapped?
    ensures var s, v, k := run[n], Vpage(p, PcOf(run[n], p).page), PcOf(run[n], p).frame;
            Present(s.dirs, v) == Some(k) && v in s.logical && k in s.mem && s.mem[k] == s.logical[v]
  {
    RunInv(run, steps, n);
    assert PcOk(run[n], p);
    assert PageOk(run[n], Vpage(p, PcOf(run[n], p).page));
  }

  lemma {:induction false} Carried(run: seq<State>, steps: seq<Step>, i: nat, j: nat, p: Proc)
    requires i <= j <= |steps| < |run| && p in run[i].pc
    requires forall n :: i <= n < j ==> AdvancesAt(run, steps, n, p)
    requires forall n :: i <= n <= j ==> !PcOf(run[n], p).User?
    ensures p in run[j].pc && Carries(run[i].pc[p], run[j].pc[p])
  {
    if i < j {
      Carried(run, steps, i, j - 1, p);
      assert AdvancesAt(run, steps, j - 1, p);
      assert !PcOf(run[j - 1], p).User? && !PcOf(run[j], p).User?;
    }
  }

  /** On every run, when a process has handled its fault on a page, that page is present
      with its bytes. */
  lemma {:induction false} FaultHandled(run: seq<State>, steps: seq<Step>, i: nat, j: nat, p: Proc, u: nat)
    requires IsRun(run, steps) && i < j <= |steps| && steps[i] == Fault(p, u)
    requires (forall n :: i < n <= j ==> !PcOf(run[n], p).User?) && PcOf(run[j], p).Mapped?
    ensures Present(run[j].dirs, Vpage(p, u)).Some? && Vpage(p, u) in run[j].logical
    ensures var k := Present(run[j].dirs, Vpage(p, u)).value;
            k in run[j].mem && run[j].mem[k] == run[j].logical[Vpage(p, u)]
  {
    FaultBegins(run, steps, i, p, u);
    assert Follows(run[i], steps[i], run[i + 1]);
    AllAdvance(run, steps, p);
    Carried(run, steps, i + 1, j, p);
    HandledIsPresent(run, steps, j, p);
  }

  /** Installing a page begins with asking for a frame. */
  lemma {:induction false} InstallDoes(s: State, p: Proc, u: nat, bytes: Bytes, w: bool)
    requires Enabled(s, BeginInstall(p, u, bytes, w))
    ensures PcOf(Apply(s, BeginInstall(p, u, bytes, w)), p) == Wants(u, Install(bytes, w))
  {
    assert Apply(s, BeginInstall(p, u, bytes, w)) == Goto(s, p, Wants(u, Install(bytes, w)));
  }

  lemma {:induction false} MapInstalls(s: State, p: Proc, table: bool, garbage: Spte)
    requires Enabled(s, Map(p, table, garbage)) && Asserted(s, Map(p, table, garbage)) && s.pc[p].job.Install?
    ensures var r, at := Apply(s, Map(p, table, garbage)), s.pc[p];
            PcOf(r, p).Mapped? ==>
              && Present(r.dirs, Vpage(p, at.page)) == Some(at.frame) && r.dirs[p][at.page].writable == at.job.writable
              && Vpage(p, at.page) in r.logical && r.logical[Vpage(p, at.page)] == at.job.bytes
  {
    MapPc(s, p, table, garbage);
    assert Apply(s, Map(p, table, garbage)) == ApplyMap(s, p, table, garbage);
  }

  /** On every run, a page that a process has installed is present with the bytes and the
      permission that were asked for. */
  lemma {:induction false} InstalledAsAsked(run: seq<State>, steps: seq<Step>, i: nat, j: nat, p: Proc)
    requires IsRun(run, steps) && i < j < |steps| && steps[i].BeginInstall? && steps[i].p == p
    requires forall n :: i < n <= j ==> !PcOf(run[n], p).User?
    requires steps[j].Map? && steps[j].p == p && PcOf(run[j + 1], p).Mapped?
    ensures var s, u := run[j + 1], steps[i].page;
            && Present(s.dirs, Vpage(p, u)).Some? && s.dirs[p][u].writable == steps[i].writable
            && Vpage(p, u) in s.logical && s.logical[Vpage(p, u)] == steps[i].bytes
  {
    assert Follows(run[i], steps[i], run[i + 1]) && Follows(run[j], steps[j], run[j + 1]);
    InstallDoes(run[i], p, steps[i].page, steps[i].bytes, steps[i].writable);
    AllAdvance(run, steps, p);
    Carried(run, steps, i + 1, j, p);
    MapInstalls(run[j], p, steps[j].table, steps[j].garbage);
  }

  // ----- Nothing gets lost

  /** Frames in use without an entry in the frame table. */
  ghost function Stray(s: State): set<Word> {
    s.used - s.frames.Keys
  }

  /** A frame that is lost for want of memory for its entry. */
  ghost function LostBy(a: Step): set<Word> {
    if (a.TakeFree? || a.Take?) && !a.entry then {a.frame} else {}
  }

  /** Slots that are not available and belong to no page. */
  ghost function Loose(s: State): set<nat> {
    s.slots.Keys - s.available - s.slotUser.Keys
  }

  /** The slot that process p has written and not yet entered, if any. */
  ghost function HeldSlot(s: State, p: Proc): set<nat> {
    if PcOf(s, p).Written? then {PcOf(s, p).slot} else {}
  }

  ghost predicate FramesKept(s: State, a: Step, r: State) {
    Stray(r) == Stray(s) + LostBy(a)
  }

  ghost predicate SlotsKept(s: State, a: Step, r: State) {
    && r.slots.Keys == s.slots.Keys
    && Loose(r) == Loose(s) - HeldSlot(s, a.p) + HeldSlot(r, a.p)
  }

  lemma {:induction false} SameKept(s: State, a: Step, r: State)
    requires r.used == s.used && r.frames.Keys == s.frames.Keys && LostBy(a) == {}
    requires r.slots.Keys == s.slots.Keys && r.available == s.available && r.slotUser == s.slotUser
    requires !PcOf(s, a.p).Written? && !PcOf(r, a.p).Written?
    ensures FramesKept(s, a, r) && SlotsKept(s, a, r)
  {
  }

  /** Frames and slots are as they were. */
  ghost predicate SamePlaces(s: State, r: State) {
    && r.used == s.used && r.frames == s.frames && r.queue == s.queue
    && r.slots == s.slots && r.available == s.available && r.slotUser == s.slotUser
  }

  lemma {:induction false} UserKept(s: State, a: Step)
    requires Enabled(s, a) && Asserted(s, a) && IsUserStep(a)
    ensures FramesKept(s, a, Apply(s, a)) && SlotsKept(s, a, Apply(s, a))
  {
    UserSame(s, a);
    SameKept(s, a, Apply(s, a));
  }

  lemma {:induction false} UserSame(s: State, a: Step)
    requires Enabled(s, a) && Asserted(s, a) && IsUserStep(a)
    ensures SamePlaces(s, Apply(s, a)) && !PcOf(s, a.p).Written? && !PcOf(Apply(s, a), a.p).Written?
  {
    match a
    case Start(q) => assert Apply(s, a) == DoStart(s, q);
    case Read(q, u, _, _) => assert Apply(s, a) == DoRead(s, q, u);
    case Write(q, u, i, x) => assert Apply(s, a) == DoWrite(s, q, u, Present(s.dirs, Vpage(q, u)).value, i, x);
    case Grow(q, u) => assert Apply(s, a) == DoGrow(s, Vpage(q, u));
    case Fault(q, u) =>
      assert Apply(s, a) == if s.spt[Vpage(q, u)].status.OnFrame? then s else Goto(s, q, Wants(u, Load));
    case BeginInstall(q, u, bytes, w) => assert Apply(s, a) == Goto(s, q, Wants(u, Install(bytes, w)));
  }

  lemma {:induction false} PickKept(s: State, a: Step)
    requires Enabled(s, a) && Asserted(s, a) && (a.Pick? || a.Clear?)
    ensures FramesKept(s, a, Apply(s, a)) && SlotsKept(s, a, Apply(s, a))
  {
    if a.Pick? {
      assert Apply(s, a) == DoPick(s, a.p, s.queue[0]);
    } else {
      assert Apply(s, a) == DoClear(s, a.p);
    }
    SameKept(s, a, Apply(s, a));
  }

  /** The slot that is written is loose until the page table names it. */
  lemma {:induction false} WriteOutKept(s: State, q: Proc, slot: nat)
    requires Inv(s) && Enabled(s, WriteOut(q, slot)) && Asserted(s, WriteOut(q, slot))
    ensures FramesKept(s, WriteOut(q, slot), Apply(s, WriteOut(q, slot)))
    ensures SlotsKept(s, WriteOut(q, slot), Apply(s, WriteOut(q, slot)))
  {
    assert Apply(s, WriteOut(q, slot)) == DoWriteOut(s, q, slot);
    assert slot !in s.slotUser by { assert slot in s.slotUser ==> SlotOk(s, slot); }
  }

  lemma {:induction false} MarkKept(s: State, q: Proc)
    requires Inv(s) && Enabled(s, Mark(q)) && Asserted(s, Mark(q))
    ensures FramesKept(s, Mark(q), Apply(s, Mark(q))) && SlotsKept(s, Mark(q), Apply(s, Mark(q)))
  {
    assert Apply(s, Mark(q)) == DoMark(s, q);
    assert PcOk(s, q);
  }

  /** What an eviction gives back. */
  lemma {:induction false} EvictedFrames(s: State, q: Proc)
    requires q in s.pc && s.pc[q].Marked?
    ensures Stray(DoEvicted(s, q)) == Stray(s) - {s.pc[q].victim} && DoEvicted(s, q).used == s.used - {s.pc[q].victim}
    ensures var e := DoEvicted(s, q); e.slots == s.slots && e.available == s.available && e.slotUser == s.slotUser
  {
  }

  lemma {:induction false} TakenFrames(s: State, q: Proc, k: Word, entry: bool)
    requires q in s.pc && s.pc[q].Wants? && k !in s.used && k !in s.frames
    ensures var r := if entry then DoTake(s, q, k) else DoLose(s, q, k);
            && Stray(r) == Stray(s) + (if entry then {} else {k})
            && r.slots == s.slots && r.available == s.available && r.slotUser == s.slotUser && !PcOf(r, q).Written?
  {
  }

  lemma {:induction false} InTable(s: State)
    requires Inv(s)
    ensures s.frames.Keys <= s.used
  {
    forall k | k in s.frames ensures k in s.used { assert FrameOk(s, k); }
  }

  lemma {:induction false} TakeFreeKept(s: State, q: Proc, k: Word, entry: bool)
    requires Inv(s) && Enabled(s, TakeFree(q, k, entry)) && Asserted(s, TakeFree(q, k, entry))
    ensures FramesKept(s, TakeFree(q, k, entry), Apply(s, TakeFree(q, k, entry)))
    ensures SlotsKept(s, TakeFree(q, k, entry), Apply(s, TakeFree(q, k, entry)))
  {
    InTable(s);
    assert Apply(s, TakeFree(q, k, entry)) == if entry then DoTake(s, q, k) else DoLose(s, q, k);
    TakenFrames(s, q, k, entry);
  }

  lemma {:induction false} TakeKept(s: State, q: Proc, k: Word, entry: bool)
    requires Inv(s) && Enabled(s, Take(q, k, entry)) && Asserted(s, Take(q, k, entry))
    ensures FramesKept(s, Take(q, k, entry), Apply(s, Take(q, k, entry)))
    ensures SlotsKept(s, Take(q, k, entry), Apply(s, Take(q, k, entry)))
  {
    InTable(s);
    var e := DoEvicted(s, q);
    assert Apply(s, Take(q, k, entry)) == if entry then DoTake(e, q, k) else DoLose(e, q, k);
    EvictedFrames(s, q);
    assert k !in e.used && k !in e.frames;
    TakenFrames(e, q, k, entry);
    assert s.pc[q].victim !in Stray(s);
  }

  lemma {:induction false} FillKept(s: State, q: Proc)
    requires Enabled(s, Fill(q)) && Asserted(s, Fill(q))
    ensures FramesKept(s, Fill(q), Apply(s, Fill(q))) && SlotsKept(s, Fill(q), Apply(s, Fill(q)))
  {
    var bytes, c := FillIs(s, q);
    SameKept(s, Fill(q), DoFill(s, q, bytes, c));
  }

  lemma {:induction false} MapKept(s: State, q: Proc, table: bool, garbage: Spte)
    requires Enabled(s, Map(q, table, garbage)) && Asserted(s, Map(q, table, garbage))
    ensures FramesKept(s, Map(q, table, garbage), Apply(s, Map(q, table, garbage)))
    ensures SlotsKept(s, Map(q, table, garbage), Apply(s, Map(q, table, garbage)))
  {
    MapPlacesKept(s, q, table, garbage);
    MapPc(s, q, table, garbage);
    SameKept(s, Map(q, table, garbage), Apply(s, Map(q, table, garbage)));
  }

  lemma {:induction false} MapPlacesKept(s: State, q: Proc, table: bool, garbage: Spte)
    requires Enabled(s, Map(q, table, garbage)) && Asserted(s, Map(q, table, garbage))
    ensures SamePlaces(s, Apply(s, Map(q, table, garbage)))
  {
    var at := s.pc[q];
    var v := Vpage(q, at.page);
    assert Apply(s, Map(q, table, garbage)) == ApplyMap(s, q, table, garbage);
    if !table && !HasTable(s.dirs, v) {
      assert ApplyMap(s, q, table, garbage) == Goto(s, q, Undo(at.page, at.job, at.frame));
    } else if at.job.Install? {
      MapSame(s, q, WithPage(s, q, at.job.writable), garbage, at.job.bytes);
    } else {
      MapSame(s, q, WithPage(s, q, true), s.spt[v].(status := OnFrame), s.logical[v]);
    }
  }

  lemma {:induction false} MapSame(s: State, q: Proc, dirs: map<Proc, Flat>, e: Spte, bytes: Bytes)
    requires q in s.pc && s.pc[q].Filled?
    ensures SamePlaces(s, DoMap(s, q, dirs, e, bytes))
  {
  }

  /** A slot that was read is available again. */
  lemma {:induction false} FreeSlotKept(s: State, q: Proc)
    requires Inv(s) && Enabled(s, FreeSlot(q)) && Asserted(s, FreeSlot(q))
    ensures FramesKept(s, FreeSlot(q), Apply(s, FreeSlot(q))) && SlotsKept(s, FreeSlot(q), Apply(s, FreeSlot(q)))
  {
    assert Apply(s, FreeSlot(q)) == DoFreeSlot(s, q);
    assert PcOk(s, q) && PageOk(s, Vpage(q, s.pc[q].page));
  }

  lemma {:induction false} FinishKept(s: State, a: Step)
    requires Inv(s) && Enabled(s, a) && Asserted(s, a) && (a.Fail? || a.Unpin? || a.GiveBack?)
    ensures FramesKept(s, a, Apply(s, a)) && SlotsKept(s, a, Apply(s, a))
  {
    var at, q := s.pc[a.p], a.p;
    if a.GiveBack? {
      assert Apply(s, a) == DoGiveBack(s, q);
    } else {
      assert Apply(s, a) == if a.Unpin? then DoUnpin(s, q) else Goto(s, q, Undo(at.page, at.job, at.frame));
      SameKept(s, a, Apply(s, a));
    }
  }

  lemma {:induction false} StepLosesNothing(s: State, a: Step)
    requires Inv(s) && Enabled(s, a) && Asserted(s, a)
    ensures FramesKept(s, a, Apply(s, a)) && SlotsKept(s, a, Apply(s, a))
  {
    if IsUserStep(a) {
      UserKept(s, a);
    } else if a.Pick? || a.Clear? {
      PickKept(s, a);
    } else if a.WriteOut? {
      WriteOutKept(s, a.p, a.slot);
    } else if a.Mark? {
      MarkKept(s, a.p);
    } else if a.TakeFree? {
      TakeFreeKept(s, a.p, a.frame, a.entry);
    } else if a.Take? {
      TakeKept(s, a.p, a.frame, a.entry);
    } else if a.Fill? {
      FillKept(s, a.p);
    } else if a.Map? {
      MapKept(s, a.p, a.table, a.garbage);
    } else if a.FreeSlot? {
      FreeSlotKept(s, a.p);
    } else {
      FinishKept(s, a);
    }
  }

  ghost predicate KeptAt(run: seq<State>, steps: seq<Step>, n: nat)
    requires n < |steps| < |run|
  {
    FramesKept(run[n], steps[n], run[n + 1]) && SlotsKept(run[n], steps[n], run[n + 1])
  }

  lemma {:induction false} RunLosesNothing(run: seq<State>, steps: seq<Step>, n: nat)
    requires IsRun(run, steps) && n < |steps|
    ensures KeptAt(run, steps, n)
  {
    assert Follows(run[n], steps[n], run[n + 1]);
    RunInv(run, steps, n);
    StepLosesNothing(run[n], steps[n]);
  }

  /** The frames lost in the first n steps. */
  ghost function Lost(steps: seq<Step>, n: nat): set<Word>
    requires n <= |steps|
  {
    if n == 0 then {} else Lost(steps, n - 1) + LostBy(steps[n - 1])
  }

  lemma {:induction false} FramesAdd(run: seq<State>, steps: seq<Step>, n: nat)
    requires n <= |steps| < |run| && Stray(run[0]) == {} && forall j :: 0 <= j < |steps| ==> KeptAt(run, steps, j)
    ensures Stray(run[n]) == Lost(steps, n)
  {
    if n > 0 {
      FramesAdd(run, steps, n - 1);
      assert KeptAt(run, steps, n - 1);
    }
  }

  /** On every run, every frame in use is in the frame table or was lost for want of
      memory for its entry. */
  lemma {:induction false} FramesAccounted(run: seq<State>, steps: seq<Step>, n: nat)
    requires IsRun(run, steps) && n <= |steps|
    ensures Stray(run[n]) == Lost(steps, n)
  {
    forall j: nat | j < |steps| ensures KeptAt(run, steps, j) { RunLosesNothing(run, steps, j); }
    FramesAdd(run, steps, n);
  }

  lemma {:induction false} SlotsAdd(run: seq<State>, steps: seq<Step>, n: nat, i: nat)
    requires n <= |steps| < |run| && Loose(run[0]) == {} && forall j :: 0 <= j < |steps| ==> KeptAt(run, steps, j)
    requires forall j, p :: 0 <= j < |steps| ==> AdvancesAt(run, steps, j, p)
    ensures i in Loose(run[n]) ==> exists p :: i in HeldSlot(run[n], p)
  {
    if n > 0 && i in Loose(run[n]) {
      var a := steps[n - 1];
      assert KeptAt(run, steps, n - 1);
      if i in HeldSlot(run[n], a.p) {
      } else {
        SlotsAdd(run, steps, n - 1, i);
        var p :| i in HeldSlot(run[n - 1], p);
        assert AdvancesAt(run, steps, n - 1, p);
        assert i in HeldSlot(run[n], p);
      }
    }
  }

  /** On every run, every slot is available, belongs to a page, or has just been written
      by a process that will name it in a page table. */
  lemma {:induction false} SlotsAccounted(run: seq<State>, steps: seq<Step>, n: nat, i: nat)
    requires IsRun(run, steps) && n <= |steps| && i in run[n].slots
    ensures i in run[n].available || i in run[n].slotUser || exists p :: i in HeldSlot(run[n], p)
  {
    forall j: nat | j < |steps| ensures KeptAt(run, steps, j) { RunLosesNothing(run, steps, j); }
    forall j: nat, p | j < |steps| ensures AdvancesAt(run, steps, j, p) { RunAdvances(run, steps, j, p); }
    SlotsAdd(run, steps, n, i);
  }

  // ----- Frames leave in the order in which they came

  predicate TakenBy(a: Step, k: Word) {
    (a.TakeFree? || a.Take?) && a.entry && a.frame == k
  }

  /** The number of the step, counted from 1, that last took frame k, 0 if none did. */
  function LastTaken(steps: seq<Step>, n: nat, k: Word): (m: nat)
    requires n <= |steps|
    ensures m <= n
  {
    if n == 0 then 0 else if TakenBy(steps[n - 1], k) then n else LastTaken(steps, n - 1, k)
  }

  ghost predicate Aged(queue: seq<Word>, steps: seq<Step>, n: nat)
    requires n <= |steps|
  {
    forall i, j :: 0 <= i < j < |queue| ==> LastTaken(steps, n, queue[i]) < LastTaken(steps, n, queue[j])
  }

  /** The frame that a step gives back, if any. */
  ghost function LeftBy(s: State, a: Step): Option<Word> {
    if a.Take? && PcOf(s, a.p).Marked? then Some(PcOf(s, a.p).victim)
    else if a.GiveBack? && PcOf(s, a.p).Undo? then Some(PcOf(s, a.p).frame)
    else None
  }

  ghost function Left(s: State, a: Step): seq<Word> {
    if LeftBy(s, a).Some? then Removed(s.queue, LeftBy(s, a).value) else s.queue
  }

  ghost predicate QueueMoves(s: State, a: Step, r: State) {
    if (a.TakeFree? || a.Take?) && a.entry then a.frame !in Left(s, a) && r.queue == Left(s, a) + [a.frame]
    else r.queue == Left(s, a)
  }

  lemma {:induction false} TakeMoves(s: State, a: Step)
    requires Inv(s) && Enabled(s, a) && Asserted(s, a) && (a.TakeFree? || a.Take?)
    ensures QueueMoves(s, a, Apply(s, a))
  {
    InTable(s);
    var q, k := a.p, a.frame;
    var e := if a.Take? then DoEvicted(s, q) else s;
    assert Apply(s, a) == if a.entry then DoTake(e, q, k) else DoLose(e, q, k);
    assert e.queue == Left(s, a);
    if a.Take? { RemovedOnce(s.queue, s.pc[q].victim); }
  }

  lemma {:induction false} StepMoves(s: State, a: Step)
    requires Inv(s) && Enabled(s, a) && Asserted(s, a)
    ensures QueueMoves(s, a, Apply(s, a))
  {
    if a.TakeFree? || a.Take? {
      TakeMoves(s, a);
    } else if a.Map? {
      MapPlacesKept(s, a.p, a.table, a.garbage);
    } else if a.GiveBack? {
      assert Apply(s, a) == DoGiveBack(s, a.p);
    } else if IsUserStep(a) {
      UserSame(s, a);
    } else {
      OtherMoves(s, a);
    }
  }

  lemma {:induction false} OtherMoves(s: State, a: Step)
    requires Enabled(s, a) && Asserted(s, a)
    requires a.Pick? || a.Clear? || a.WriteOut? || a.Mark? || a.Fill? || a.FreeSlot? || a.Fail? || a.Unpin?
    ensures Apply(s, a).queue == s.queue
  {
    if a.Fill? { var bytes, c := FillIs(s, a.p); }
  }

  lemma {:induction false} AgedRemoved(queue: seq<Word>, x: Word, steps: seq<Step>, n: nat)
    requires n <= |steps| && Aged(queue, steps, n)
    ensures Aged(Removed(queue, x), steps, n)
  {
    if queue != [] && queue[0] != x {
      var rest := Removed(queue[1..], x);
      AgedRemoved(queue[1..], x, steps, n);
      forall j | 0 <= j < |rest| ensures LastTaken(steps, n, queue[0]) < LastTaken(steps, n, rest[j]) {
        assert rest[j] in queue[1..];
      }
      assert Removed(queue, x) == [queue[0]] + rest;
    }
  }

  ghost predicate MovesAt(run: seq<State>, steps: seq<Step>, n: nat)
    requires n < |steps| < |run|
  {
    QueueMoves(run[n], steps[n], run[n + 1])
  }

  lemma {:induction false} QueueAged(run: seq<State>, steps: seq<Step>, n: nat)
    requires n <= |steps| < |run| && run[0].queue == [] && forall j :: 0 <= j < |steps| ==> MovesAt(run, steps, j)
    ensures Aged(run[n].queue, steps, n)
  {
    if n > 0 {
      var s, a := run[n - 1], steps[n - 1];
      QueueAged(run, steps, n - 1);
      if LeftBy(s, a).Some? { AgedRemoved(s.queue, LeftBy(s, a).value, steps, n - 1); }
      assert MovesAt(run, steps, n - 1);
    }
  }

  /** On every run the frame that is evicted is the one that has been in the frame table
      for longest. */
  lemma {:induction false} OldestFirst(run: seq<State>, steps: seq<Step>, n: nat, k: Word)
    requires IsRun(run, steps) && n < |steps| && steps[n].Pick? && k in run[n].frames
    ensures PcOf(run[n + 1], steps[n].p).Picked?
    ensures var v := PcOf(run[n + 1], steps[n].p).victim;
            v in run[n].frames && (k == v || LastTaken(steps, n, v) < LastTaken(steps, n, k))
  {
    forall j: nat | j < |steps| ensures MovesAt(run, steps, j) {
      assert Follows(run[j], steps[j], run[j + 1]);
      RunInv(run, steps, j);
      StepMoves(run[j], steps[j]);
    }
    QueueAged(run, steps, n);
    assert Follows(run[n], steps[n], run[n + 1]);
    RunInv(run, steps, n);
    assert FrameOk(run[n], k);
  }
}
