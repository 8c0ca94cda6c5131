/** What every step of the paging machine keeps. */
module PagingInvariant {
  import opened Basics
  import opened Pagedir
  import opened PagingState

  /** The contents of page v are in frame k. */
  ghost predicate Resident(s: State, v: Vpage, k: Word) {
    && k in s.frames && s.frames[k].vpage == v && s.eviction != After(k)
    && k in s.mem && v in s.logical && s.mem[k] == s.logical[v] && HasTable(s.dirs, v)
  }

  /** A page is where its home says it is, with its logical bytes. */
  ghost predicate PageOk(s: State, v: Vpage) {
    && v in s.home && v in s.spt && v in s.logical && |s.logical[v]| == PGSIZE && v.page < USER_PAGES
    && match s.home[v]
       case InFrame(k) => Resident(s, v, k) && Present(s.dirs, v) == Some(k)
       case Leaving(k) => Resident(s, v, k) && Present(s.dirs, v).None? && s.eviction == Before(k)
       case InSlot(i) =>
         && s.spt[v] == Spte(OnSwap, i) && i in s.slots && i !in s.available && s.slots[i] == s.logical[v]
         && i in s.slotUser && s.slotUser[i] == v && HasTable(s.dirs, v) && Present(s.dirs, v).None?
       case Arriving(k) => Resident(s, v, k) && s.frames[k].pinned && Present(s.dirs, v).None?
       case Zero => s.spt[v].status.AllZero? && s.logical[v] == Zeros() && Present(s.dirs, v).None?
  }

  /** A process has frame k, pinned, for a page. */
  ghost predicate Holding(c: Pc, page: nat, k: Word) {
    (c.Owns? || c.Copied? || c.Filled? || c.Mapped? || c.Undo?) && c.page == page && c.frame == k
  }

  /** A pinned frame is being filled by its owner; any other holds its page until
      that is marked as swapped out. */
  ghost predicate FrameOk(s: State, k: Word) {
    && k in s.frames && k in s.used && k in s.queue
    && var v := s.frames[k].vpage;
    if s.frames[k].pinned then Holding(PcOf(s, v.proc), v.page, k)
    else s.eviction == After(k) || (v in s.home && (s.home[v] == InFrame(k) || s.home[v] == Leaving(k)))
  }

  /** The page may be given the frame it is wanted for. */
  ghost predicate JobOk(s: State, v: Vpage, job: Job) {
    && v.page < USER_PAGES && Present(s.dirs, v).None?
    && match job
       case Load => v in s.home && (s.home[v].InSlot? || s.home[v].Zero?)
       case Install(bytes, _) => v !in s.spt && |bytes| == PGSIZE
  }

  /** A process that evicts frame k. */
  ghost predicate EvictOk(s: State, p: Proc, v: Vpage, job: Job, k: Word, e: Eviction) {
    && s.lock == Some(p) && s.eviction == e && JobOk(s, v, job)
    && k in s.frames && !s.frames[k].pinned
  }

  ghost predicate PcOk(s: State, p: Proc) {
    && p in s.dirs
    && match PcOf(s, p)
       case Absent => false
       case User => true
       case Wants(u, job) => JobOk(s, Vpage(p, u), job)
         || (job.Load? && Vpage(p, u) in s.home && s.home[Vpage(p, u)].Leaving?)
       case Picked(u, job, k) =>
         && EvictOk(s, p, Vpage(p, u), job, k, Nothing)
         && s.frames[k].vpage in s.home && s.home[s.frames[k].vpage] == InFrame(k)
       case Cleared(u, job, k) =>
         && EvictOk(s, p, Vpage(p, u), job, k, Before(k))
         && s.frames[k].vpage in s.home && s.home[s.frames[k].vpage] == Leaving(k)
       case Written(u, job, k, i) =>
         && EvictOk(s, p, Vpage(p, u), job, k, Before(k))
         && s.frames[k].vpage in s.home && s.home[s.frames[k].vpage] == Leaving(k)
         && i in s.slots && i !in s.available && i !in s.slotUser && k in s.mem && s.slots[i] == s.mem[k]
       case Marked(u, job, k) => EvictOk(s, p, Vpage(p, u), job, k, After(k))
       case Owns(u, job, k) => HasFrame(s, Vpage(p, u), k) && JobOk(s, Vpage(p, u), job)
       case Copied(u, k, i) =>
         && HasFrame(s, Vpage(p, u), k) && JobOk(s, Vpage(p, u), Load) && s.home[Vpage(p, u)] == InSlot(i)
         && k in s.mem && Vpage(p, u) in s.logical && s.mem[k] == s.logical[Vpage(p, u)]
       case Filled(u, Load, k) =>
         && HasFrame(s, Vpage(p, u), k) && u < USER_PAGES && Present(s.dirs, Vpage(p, u)).None?
         && Vpage(p, u) in s.home && (s.home[Vpage(p, u)].Zero? || s.home[Vpage(p, u)] == Arriving(k))
         && k in s.mem && Vpage(p, u) in s.logical && s.mem[k] == s.logical[Vpage(p, u)]
       case Filled(u, Install(bytes, w), k) =>
         HasFrame(s, Vpage(p, u), k) && JobOk(s, Vpage(p, u), Install(bytes, w)) && k in s.mem && s.mem[k] == bytes
       case Mapped(u, k) => HasFrame(s, Vpage(p, u), k) && Vpage(p, u) in s.home && s.home[Vpage(p, u)] == InFrame(k)
       case Undo(u, job, k) => HasFrame(s, Vpage(p, u), k) && JobOk(s, Vpage(p, u), job)
  }

  ghost predicate HasFrame(s: State, v: Vpage, k: Word) {
    k in s.frames && s.frames[k] == Frame(v, true)
  }

  /** A slot in use by a page is that page's home. */
  ghost predicate SlotOk(s: State, i: nat) {
    && i in s.slotUser && i in s.slots && i !in s.available
    && s.slotUser[i] in s.home && s.home[s.slotUser[i]] == InSlot(i)
  }

  ghost predicate PresentOk(s: State, v: Vpage) {
    Present(s.dirs, v).Some? ==> v in s.home && s.home[v] == InFrame(Present(s.dirs, v).value)
  }

  ghost predicate Keys(s: State) {
    && s.mem.Keys == s.pool && s.used <= s.pool && s.available <= s.slots.Keys
    && s.pc.Keys == s.dirs.Keys && s.spt.Keys == s.home.Keys == s.logical.Keys
  }

  ghost predicate Lengths(s: State) {
    && (forall k :: k in s.mem ==> |s.mem[k]| == PGSIZE)
    && (forall i :: i in s.slots ==> |s.slots[i]| == PGSIZE)
  }

  ghost predicate QueueOk(s: State) {
    NoDup(s.queue) && forall k :: k in s.queue ==> k in s.frames
  }

  ghost predicate LockOk(s: State) {
    match s.lock
    case None => s.eviction.Nothing?
    case Some(q) => var c := PcOf(s, q); c.Picked? || c.Cleared? || c.Written? || c.Marked?
  }

  /** Memory, frames and swap fit together. */
  ghost predicate Places(s: State) {
    && Keys(s) && Lengths(s) && QueueOk(s)
    && (forall v {:trigger PageOk(s, v)} :: v in s.home ==> PageOk(s, v))
    && (forall k {:trigger FrameOk(s, k)} :: k in s.frames ==> FrameOk(s, k))
    && (forall i {:trigger SlotOk(s, i)} :: i in s.slotUser ==> SlotOk(s, i))
    && (forall v :: PresentOk(s, v))
  }

  /** Every process is where it may be. */
  ghost predicate Procs(s: State) {
    LockOk(s) && forall p {:trigger PcOk(s, p)} :: p in s.pc ==> PcOk(s, p)
  }

  ghost predicate Inv(s: State) {
    Places(s) && Procs(s)
  }

  // ----- Page directories

  ghost predicate SameDirs(d: map<Proc, Flat>, e: map<Proc, Flat>) {
    d.Keys == e.Keys && forall v :: Present(d, v) == Present(e, v) && HasTable(d, v) == HasTable(e, v)
  }

  lemma {:induction false} TouchedDirs(d: map<Proc, Flat>, p: Proc, u: nat, b: bool)
    requires p in d
    ensures SameDirs(d, d[p := FlatSetAccessed(d[p], u, b)])
    ensures SameDirs(d, d[p := FlatSetDirty(FlatSetAccessed(d[p], u, b), u, b)])
  {
  }

  ghost predicate ClearedIn(d: map<Proc, Flat>, e: map<Proc, Flat>, w: Vpage) {
    && d.Keys == e.Keys
    && forall v :: Present(e, v) == (if v == w then None else Present(d, v)) && HasTable(d, v) == HasTable(e, v)
  }

  lemma {:induction false} ClearedDirs(d: map<Proc, Flat>, w: Vpage)
    requires w.proc in d
    ensures ClearedIn(d, d[w.proc := FlatClear(d[w.proc], w.page)], w)
  {
  }

  ghost predicate MappedIn(d: map<Proc, Flat>, e: map<Proc, Flat>, w: Vpage, k: Word) {
    && d.Keys == e.Keys && HasTable(e, w)
    && forall v :: Present(e, v) == (if v == w then Some(k) else Present(d, v)) && (HasTable(d, v) ==> HasTable(e, v))
  }

  lemma {:induction false} MappedDirs(d: map<Proc, Flat>, p: Proc, u: nat, k: Word, w: bool)
    requires p in d
    ensures MappedIn(d, d[p := FlatSet(d[p], u, k, w)], Vpage(p, u), k)
  {
  }

  lemma {:induction false} QueueRemoved(s: State, k: Word)
    requires QueueOk(s)
    ensures NoDup(Removed(s.queue, k))
    ensures forall x :: x in Removed(s.queue, k) ==> x in s.frames && x != k
  {
    RemovedOnce(s.queue, k);
  }

  // ----- User code and page faults

  /** Another page is in another frame. */
  lemma {:induction false} WritePage(s: State, p: Proc, u: nat, k: Word, i: nat, x: byte, v: Vpage)
    requires p in s.dirs && PageOk(s, Vpage(p, u)) && s.home[Vpage(p, u)] == InFrame(k) && i < PGSIZE && PageOk(s, v)
    requires |s.mem[k]| == PGSIZE
    ensures PageOk(DoWrite(s, p, u, k, i, x), v)
  {
    TouchedDirs(s.dirs, p, u, true);
    assert Resident(s, v, k) ==> v == Vpage(p, u);
  }

  lemma {:induction false} WritePlaces(s: State, p: Proc, u: nat, k: Word, i: nat, x: byte)
    requires Inv(s) && p in s.pc && s.pc[p].User? && Present(s.dirs, Vpage(p, u)) == Some(k) && i < PGSIZE
    ensures k in s.mem && |s.mem[k]| == PGSIZE && Vpage(p, u) in s.logical && |s.logical[Vpage(p, u)]| == PGSIZE
    ensures Places(DoWrite(s, p, u, k, i, x))
  {
    assert PresentOk(s, Vpage(p, u)) && PageOk(s, Vpage(p, u));
    var r := DoWrite(s, p, u, k, i, x);
    TouchedDirs(s.dirs, p, u, true);
    forall v | v in r.home ensures PageOk(r, v) { assert PageOk(s, v); WritePage(s, p, u, k, i, x, v); }
    forall k | k in r.frames ensures FrameOk(r, k) { assert FrameOk(s, k); }
    forall i | i in r.slotUser ensures SlotOk(r, i) { assert SlotOk(s, i); }
    forall v ensures PresentOk(r, v) { assert PresentOk(s, v); }
  }

  lemma {:induction false} WriteProcs(s: State, p: Proc, u: nat, k: Word, i: nat, x: byte)
    requires Inv(s) && p in s.pc && s.pc[p].User? && Present(s.dirs, Vpage(p, u)) == Some(k) && i < PGSIZE
    requires k in s.mem && |s.mem[k]| == PGSIZE && Vpage(p, u) in s.logical && |s.logical[Vpage(p, u)]| == PGSIZE
    ensures Procs(DoWrite(s, p, u, k, i, x))
  {
    assert PresentOk(s, Vpage(p, u)) && PageOk(s, Vpage(p, u));
    var r := DoWrite(s, p, u, k, i, x);
    TouchedDirs(s.dirs, p, u, true);
    forall q | q in r.pc ensures PcOk(r, q) { assert PcOk(s, q); }
  }

  lemma {:induction false} StartPage(s: State, p: Proc, v: Vpage)
    requires p !in s.dirs && PageOk(s, v)
    ensures PageOk(DoStart(s, p), v)
  {
    var r := DoStart(s, p);
    assert Present(r.dirs, v) == Present(s.dirs, v);
    assert HasTable(r.dirs, v) <==> HasTable(s.dirs, v);
  }

  lemma {:induction false} StartPlaces(s: State, p: Proc)
    requires Inv(s) && p !in s.pc
    ensures Places(DoStart(s, p))
  {
    var r := DoStart(s, p);
    forall v | v in r.home ensures PageOk(r, v) { assert PageOk(s, v); StartPage(s, p, v); }
    forall k | k in r.frames ensures FrameOk(r, k) { assert FrameOk(s, k); }
    forall i | i in r.slotUser ensures SlotOk(r, i) { assert SlotOk(s, i); }
    forall v ensures PresentOk(r, v) { assert PresentOk(s, v); }
  }

  lemma {:induction false} StartProcs(s: State, p: Proc)
    requires Inv(s) && p !in s.pc
    ensures Procs(DoStart(s, p))
  {
    var r := DoStart(s, p);
    forall q | q in r.pc ensures PcOk(r, q) { assert q in s.pc ==> PcOk(s, q); }
  }

  lemma {:induction false} ReadPlaces(s: State, p: Proc, u: nat)
    requires Inv(s) && p in s.pc && s.pc[p].User?
    ensures Places(DoRead(s, p, u))
  {
    TouchedDirs(s.dirs, p, u, true);
    var r := DoRead(s, p, u);
    forall v | v in r.home ensures PageOk(r, v) { assert PageOk(s, v); }
    forall k | k in r.frames ensures FrameOk(r, k) { assert FrameOk(s, k); }
    forall i | i in r.slotUser ensures SlotOk(r, i) { assert SlotOk(s, i); }
    forall v ensures PresentOk(r, v) { assert PresentOk(s, v); }
  }

  lemma {:induction false} ReadProcs(s: State, p: Proc, u: nat)
    requires Inv(s) && p in s.pc && s.pc[p].User?
    ensures Procs(DoRead(s, p, u))
  {
    TouchedDirs(s.dirs, p, u, true);
    var r := DoRead(s, p, u);
    forall q | q in r.pc ensures PcOk(r, q) {
      assert PcOk(s, q);
      assert PcOf(r, q) == PcOf(s, q);
    }
  }

  lemma {:induction false} GrowPlaces(s: State, p: Proc, u: nat)
    requires Inv(s) && p in s.pc && Vpage(p, u) !in s.spt && s.pc[p].User? && u < USER_PAGES
    ensures Places(DoGrow(s, Vpage(p, u)))
  {
    assert PresentOk(s, Vpage(p, u));
    var r := DoGrow(s, Vpage(p, u));
    forall v | v in r.home ensures PageOk(r, v) { assert v in s.home ==> PageOk(s, v); }
    forall k | k in r.frames ensures FrameOk(r, k) { assert FrameOk(s, k); }
    forall i | i in r.slotUser ensures SlotOk(r, i) { assert SlotOk(s, i); }
    forall v ensures PresentOk(r, v) { assert PresentOk(s, v); }
  }

  lemma {:induction false} GrowProcs(s: State, p: Proc, u: nat)
    requires Inv(s) && p in s.pc && Vpage(p, u) !in s.spt && s.pc[p].User? && u < USER_PAGES
    ensures Procs(DoGrow(s, Vpage(p, u)))
  {
    assert PresentOk(s, Vpage(p, u));
    var r := DoGrow(s, Vpage(p, u));
    forall q | q in r.pc ensures PcOk(r, q) {
      assert PcOk(s, q);
      assert PcOf(r, q) == PcOf(s, q);
    }
  }

  lemma {:induction false} WaitPlaces(s: State, p: Proc, u: nat, job: Job)
    requires Inv(s) && p in s.pc && s.pc[p].User?
      && (JobOk(s, Vpage(p, u), job) || (job.Load? && Vpage(p, u) in s.home && s.home[Vpage(p, u)].Leaving?))
    ensures Places(Goto(s, p, Wants(u, job)))
  {
    var r := Goto(s, p, Wants(u, job));
    forall v | v in r.home ensures PageOk(r, v) { assert PageOk(s, v); }
    forall k | k in r.frames ensures FrameOk(r, k) { assert FrameOk(s, k); }
    forall i | i in r.slotUser ensures SlotOk(r, i) { assert SlotOk(s, i); }
    forall v ensures PresentOk(r, v) { assert PresentOk(s, v); }
  }

  lemma {:induction false} WaitProcs(s: State, p: Proc, u: nat, job: Job)
    requires Inv(s) && p in s.pc && s.pc[p].User?
      && (JobOk(s, Vpage(p, u), job) || (job.Load? && Vpage(p, u) in s.home && s.home[Vpage(p, u)].Leaving?))
    ensures Procs(Goto(s, p, Wants(u, job)))
  {
    var r := Goto(s, p, Wants(u, job));
    forall q | q in r.pc ensures PcOk(r, q) {
      assert PcOk(s, q);
      assert PcOf(r, q) == if q == p then Wants(u, job) else PcOf(s, q);
    }
  }

  // ----- virtualmemory_frame_allocate()

  lemma {:induction false} TakePlaces(s: State, p: Proc, k: Word)
    requires Inv(s) && p in s.pc && s.pc[p].Wants? && s.lock.None? && k in s.pool - s.used
    ensures Places(DoTake(s, p, k))
  {
    assert PcOk(s, p);
    assert k in s.frames ==> FrameOk(s, k);
    var r := DoTake(s, p, k);
    forall v | v in r.home ensures PageOk(r, v) { assert PageOk(s, v); }
    forall k | k in r.frames ensures FrameOk(r, k) { assert k in s.frames ==> FrameOk(s, k); }
    forall i | i in r.slotUser ensures SlotOk(r, i) { assert SlotOk(s, i); }
    forall v ensures PresentOk(r, v) { assert PresentOk(s, v); }
  }

  lemma {:induction false} TakeProcs(s: State, p: Proc, k: Word)
    requires Inv(s) && p in s.pc && s.pc[p].Wants? && s.lock.None? && k in s.pool - s.used
    ensures Procs(DoTake(s, p, k))
  {
    assert PcOk(s, p);
    assert k in s.frames ==> FrameOk(s, k);
    assert Vpage(p, s.pc[p].page) in s.home ==> PageOk(s, Vpage(p, s.pc[p].page));
    var r := DoTake(s, p, k);
    forall q | q in r.pc ensures PcOk(r, q) {
      assert PcOk(s, q);
      assert PcOf(r, q) == if q == p then r.pc[p] else PcOf(s, q);
    }
  }

  lemma {:induction false} LosePlaces(s: State, p: Proc, k: Word)
    requires Inv(s) && p in s.pc && s.pc[p].Wants? && k in s.pool - s.used
    ensures Places(DoLose(s, p, k))
  {
    assert PcOk(s, p);
    var r := DoLose(s, p, k);
    forall v | v in r.home ensures PageOk(r, v) { assert PageOk(s, v); }
    forall k | k in r.frames ensures FrameOk(r, k) { assert FrameOk(s, k); }
    forall i | i in r.slotUser ensures SlotOk(r, i) { assert SlotOk(s, i); }
    forall v ensures PresentOk(r, v) { assert PresentOk(s, v); }
  }

  lemma {:induction false} LoseProcs(s: State, p: Proc, k: Word)
    requires Inv(s) && p in s.pc && s.pc[p].Wants? && k in s.pool - s.used
    ensures Procs(DoLose(s, p, k))
  {
    assert PcOk(s, p);
    var r := DoLose(s, p, k);
    forall q | q in r.pc ensures PcOk(r, q) {
      assert PcOk(s, q);
      assert PcOf(r, q) == if q == p then r.pc[p] else PcOf(s, q);
    }
  }

  lemma {:induction false} PickPlaces(s: State, p: Proc, k: Word)
    requires Inv(s) && p in s.pc && s.pc[p].Wants? && s.lock.None? && k in s.frames && !s.frames[k].pinned
    ensures p in s.dirs
    ensures Places(DoPick(s, p, k))
  {
    assert PcOk(s, p) && FrameOk(s, k);
    TouchedDirs(s.dirs, p, s.frames[k].vpage.page, false);
    var r := DoPick(s, p, k);
    forall v | v in r.home ensures PageOk(r, v) { assert PageOk(s, v); }
    forall k | k in r.frames ensures FrameOk(r, k) { assert FrameOk(s, k); }
    forall i | i in r.slotUser ensures SlotOk(r, i) { assert SlotOk(s, i); }
    forall v ensures PresentOk(r, v) { assert PresentOk(s, v); }
  }

  lemma {:induction false} PickPc(s: State, p: Proc, k: Word, q: Proc)
    requires p in s.pc && s.pc[p].Wants? && s.lock.None? && k in s.frames && !s.frames[k].pinned && LockOk(s)
    requires PcOk(s, p) && PcOk(s, q) && FrameOk(s, k) && PageOk(s, s.frames[k].vpage)
    requires Vpage(p, s.pc[p].page) in s.home ==> PageOk(s, Vpage(p, s.pc[p].page))
    requires SameDirs(s.dirs, DoPick(s, p, k).dirs)
    ensures PcOk(DoPick(s, p, k), q)
  {
  }

  lemma {:induction false} PickProcs(s: State, p: Proc, k: Word)
    requires Inv(s) && p in s.pc && s.pc[p].Wants? && s.lock.None? && k in s.frames && !s.frames[k].pinned
    ensures p in s.dirs && Procs(DoPick(s, p, k))
  {
    assert PcOk(s, p) && FrameOk(s, k);
    assert PageOk(s, s.frames[k].vpage);
    assert Vpage(p, s.pc[p].page) in s.home ==> PageOk(s, Vpage(p, s.pc[p].page));
    TouchedDirs(s.dirs, p, s.frames[k].vpage.page, false);
    var r := DoPick(s, p, k);
    forall q | q in r.pc ensures PcOk(r, q) {
      assert PcOk(s, q);
      PickPc(s, p, k, q);
    }
  }

  lemma {:induction false} ClearPlaces(s: State, p: Proc)
    requires Inv(s) && p in s.pc && s.pc[p].Picked?
    ensures s.pc[p].victim in s.frames && s.frames[s.pc[p].victim].vpage.proc in s.dirs
    ensures Places(DoClear(s, p))
  {
    assert PcOk(s, p);
    assert PageOk(s, s.frames[s.pc[p].victim].vpage);
    var r := DoClear(s, p);
    ClearedDirs(s.dirs, s.frames[s.pc[p].victim].vpage);
    forall v | v in r.home ensures PageOk(r, v) { assert PageOk(s, v); }
    forall k | k in r.frames ensures FrameOk(r, k) { assert FrameOk(s, k); }
    forall i | i in r.slotUser ensures SlotOk(r, i) { assert SlotOk(s, i); }
    forall v ensures PresentOk(r, v) { assert PresentOk(s, v); }
  }

  lemma {:induction false} ClearProcs(s: State, p: Proc)
    requires Inv(s) && p in s.pc && s.pc[p].Picked? && s.pc[p].victim in s.frames
      && s.frames[s.pc[p].victim].vpage.proc in s.dirs
    ensures Procs(DoClear(s, p))
  {
    assert PcOk(s, p);
    ClearedDirs(s.dirs, s.frames[s.pc[p].victim].vpage);
    var r := DoClear(s, p);
    forall q | q in r.pc ensures PcOk(r, q) {
      assert PcOk(s, q);
      ClearPc(s, p, q);
    }
  }

  lemma {:induction false} ClearPc(s: State, p: Proc, q: Proc)
    requires p in s.pc && s.pc[p].Picked? && s.pc[p].victim in s.frames && s.frames[s.pc[p].victim].vpage.proc in s.dirs
    requires PcOk(s, p) && PcOk(s, q) && ClearedIn(s.dirs, DoClear(s, p).dirs, s.frames[s.pc[p].victim].vpage)
    ensures PcOk(DoClear(s, p), q)
  {
    var r := DoClear(s, p);
    assert PcOf(r, q) == if q == p then Cleared(s.pc[p].page, s.pc[p].job, s.pc[p].victim) else PcOf(s, q);
  }

  lemma {:induction false} WriteOutPlaces(s: State, p: Proc, slot: nat)
    requires Inv(s) && p in s.pc && s.pc[p].Cleared? && slot in s.available
    ensures s.pc[p].victim in s.mem
    ensures Places(DoWriteOut(s, p, slot))
  {
    assert PcOk(s, p);
    assert PageOk(s, s.frames[s.pc[p].victim].vpage);
    var r := DoWriteOut(s, p, slot);
    forall v | v in r.home ensures PageOk(r, v) { assert PageOk(s, v); }
    forall k | k in r.frames ensures FrameOk(r, k) { assert FrameOk(s, k); }
    forall i | i in r.slotUser ensures SlotOk(r, i) { assert SlotOk(s, i); }
    forall v ensures PresentOk(r, v) { assert PresentOk(s, v); }
  }

  lemma {:induction false} WriteOutProcs(s: State, p: Proc, slot: nat)
    requires Inv(s) && p in s.pc && s.pc[p].Cleared? && slot in s.available && s.pc[p].victim in s.mem
    ensures Procs(DoWriteOut(s, p, slot))
  {
    assert PcOk(s, p);
    assert PageOk(s, s.frames[s.pc[p].victim].vpage);
    assert slot in s.slotUser ==> SlotOk(s, slot);
    var r := DoWriteOut(s, p, slot);
    forall q | q in r.pc ensures PcOk(r, q) {
      assert PcOk(s, q);
      assert PcOf(r, q) == if q == p then r.pc[p] else PcOf(s, q);
    }
  }

  lemma {:induction false} MarkPlaces(s: State, p: Proc)
    requires Inv(s) && p in s.pc && s.pc[p].Written?
    ensures s.pc[p].victim in s.frames && s.frames[s.pc[p].victim].vpage in s.spt
    ensures Places(DoMark(s, p))
  {
    assert PcOk(s, p);
    var r := DoMark(s, p);
    forall v | v in r.home ensures PageOk(r, v) { assert PageOk(s, v); }
    forall k | k in r.frames ensures FrameOk(r, k) { assert FrameOk(s, k); }
    forall i | i in r.slotUser ensures SlotOk(r, i) { assert i in s.slotUser ==> SlotOk(s, i); }
    forall v ensures PresentOk(r, v) { assert PresentOk(s, v); }
  }

  lemma {:induction false} MarkProcs(s: State, p: Proc)
    requires Inv(s) && p in s.pc && s.pc[p].Written? && s.pc[p].victim in s.frames
    ensures Procs(DoMark(s, p))
  {
    assert PcOk(s, p);
    assert PageOk(s, s.frames[s.pc[p].victim].vpage);
    var r := DoMark(s, p);
    forall q | q in r.pc ensures PcOk(r, q) {
      assert PcOk(s, q);
      assert PcOf(r, q) == if q == p then r.pc[p] else PcOf(s, q);
    }
  }

  lemma {:induction false} EvictedPlaces(s: State, p: Proc)
    requires Inv(s) && p in s.pc && s.pc[p].Marked?
    ensures s.pc[p].victim in s.frames && s.pc[p].victim in s.queue && s.pc[p].victim in s.used
    ensures Places(DoEvicted(s, p))
  {
    assert PcOk(s, p) && FrameOk(s, s.pc[p].victim);
    var r := DoEvicted(s, p);
    QueueRemoved(s, s.pc[p].victim);
    forall v | v in r.home ensures PageOk(r, v) { assert PageOk(s, v); }
    forall k | k in r.frames ensures FrameOk(r, k) { assert FrameOk(s, k); }
    forall i | i in r.slotUser ensures SlotOk(r, i) { assert SlotOk(s, i); }
    forall v ensures PresentOk(r, v) { assert PresentOk(s, v); }
  }

  lemma {:induction false} EvictedProcs(s: State, p: Proc)
    requires Inv(s) && p in s.pc && s.pc[p].Marked?
    ensures Procs(DoEvicted(s, p))
  {
    assert PcOk(s, p) && FrameOk(s, s.pc[p].victim);
    var r := DoEvicted(s, p);
    forall q | q in r.pc ensures PcOk(r, q) {
      assert PcOk(s, q);
      assert PcOf(r, q) == if q == p then r.pc[p] else PcOf(s, q);
    }
  }

  // ----- The rest of virtualmemory_load_page() and of installing a page

  /** What a frame is filled with is the contents of the page it is for. */
  ghost predicate FillOk(s: State, p: Proc, bytes: Bytes, c: Pc)
    requires p in s.pc && s.pc[p].Owns?
  {
    var Owns(u, job, k) := s.pc[p];
    var v := Vpage(p, u);
    && |bytes| == PGSIZE
    && match job
       case Install(b, _) => c == Filled(u, job, k) && bytes == b
       case Load =>
         && v in s.home && v in s.logical && bytes == s.logical[v]
         && if s.home[v].InSlot? then c == Copied(u, k, s.home[v].slot) else c == Filled(u, job, k)
  }

  /** No page lives in a frame that is still being filled. */
  lemma {:induction false} FillPage(s: State, p: Proc, bytes: Bytes, c: Pc, v: Vpage)
    requires p in s.pc && s.pc[p].Owns? && FrameOk(s, s.pc[p].frame) && PcOk(s, p) && PageOk(s, v)
    ensures PageOk(DoFill(s, p, bytes, c), v)
  {
    assert Resident(s, v, s.pc[p].frame) ==> v == Vpage(p, s.pc[p].page);
  }

  lemma {:induction false} FillPlaces(s: State, p: Proc, bytes: Bytes, c: Pc)
    requires Inv(s) && p in s.pc && s.pc[p].Owns? && FillOk(s, p, bytes, c)
    ensures Places(DoFill(s, p, bytes, c))
  {
    assert PcOk(s, p);
    assert FrameOk(s, s.pc[p].frame);
    var r := DoFill(s, p, bytes, c);
    forall v | v in r.home ensures PageOk(r, v) { assert PageOk(s, v); FillPage(s, p, bytes, c, v); }
    forall k | k in r.frames ensures FrameOk(r, k) { assert FrameOk(s, k); FillFrame(s, p, bytes, c, k); }
    forall i | i in r.slotUser ensures SlotOk(r, i) { assert SlotOk(s, i); }
    forall v ensures PresentOk(r, v) { assert PresentOk(s, v); }
  }

  lemma {:induction false} FillFrame(s: State, p: Proc, bytes: Bytes, c: Pc, k: Word)
    requires p in s.pc && s.pc[p].Owns? && FillOk(s, p, bytes, c) && PcOk(s, p) && k in s.frames && FrameOk(s, k)
    ensures FrameOk(DoFill(s, p, bytes, c), k)
  {
  }

  lemma {:induction false} FillPc(s: State, p: Proc, bytes: Bytes, c: Pc, q: Proc)
    requires p in s.pc && s.pc[p].Owns? && FillOk(s, p, bytes, c) && PcOk(s, p) && PcOk(s, q)
    ensures PcOk(DoFill(s, p, bytes, c), q)
  {
    assert PcOf(DoFill(s, p, bytes, c), q) == if q == p then c else PcOf(s, q);
    if q != p {
      match PcOf(s, q) case _ =>
    }
  }

  lemma {:induction false} FillProcs(s: State, p: Proc, bytes: Bytes, c: Pc)
    requires Inv(s) && p in s.pc && s.pc[p].Owns? && FillOk(s, p, bytes, c)
    ensures Procs(DoFill(s, p, bytes, c))
  {
    assert PcOk(s, p);
    var r := DoFill(s, p, bytes, c);
    forall q | q in r.pc ensures PcOk(r, q) {
      assert PcOk(s, q);
      FillPc(s, p, bytes, c, q);
    }
  }

  lemma {:induction false} FreeSlotPlaces(s: State, p: Proc)
    requires Inv(s) && p in s.pc && s.pc[p].Copied?
    ensures Places(DoFreeSlot(s, p))
  {
    assert PcOk(s, p);
    assert PageOk(s, Vpage(p, s.pc[p].page));
    assert FrameOk(s, s.pc[p].frame);
    assert s.lock.Some? ==> PcOk(s, s.lock.value);
    var r := DoFreeSlot(s, p);
    forall v | v in r.home ensures PageOk(r, v) { assert PageOk(s, v); }
    forall k | k in r.frames ensures FrameOk(r, k) { assert FrameOk(s, k); }
    forall i | i in r.slotUser ensures SlotOk(r, i) { assert SlotOk(s, i); }
    forall v ensures PresentOk(r, v) { assert PresentOk(s, v); }
  }

  lemma {:induction false} FreeSlotProcs(s: State, p: Proc)
    requires Inv(s) && p in s.pc && s.pc[p].Copied?
    ensures Procs(DoFreeSlot(s, p))
  {
    assert PcOk(s, p);
    assert PageOk(s, Vpage(p, s.pc[p].page));
    assert FrameOk(s, s.pc[p].frame);
    var r := DoFreeSlot(s, p);
    forall q | q in r.pc ensures PcOk(r, q) {
      assert PcOk(s, q);
      assert PcOf(r, q) == if q == p then r.pc[p] else PcOf(s, q);
    }
  }

  lemma {:induction false} UndoPlaces(s: State, p: Proc, c: Pc)
    requires Inv(s) && p in s.pc && (s.pc[p].Owns? || s.pc[p].Filled?)
      && c == Undo(s.pc[p].page, s.pc[p].job, s.pc[p].frame) && JobOk(s, Vpage(p, c.page), c.job)
    ensures Places(Goto(s, p, c))
  {
    assert PcOk(s, p);
    var r := Goto(s, p, c);
    forall v | v in r.home ensures PageOk(r, v) { assert PageOk(s, v); }
    forall k | k in r.frames ensures FrameOk(r, k) { assert FrameOk(s, k); }
    forall i | i in r.slotUser ensures SlotOk(r, i) { assert SlotOk(s, i); }
    forall v ensures PresentOk(r, v) { assert PresentOk(s, v); }
  }

  lemma {:induction false} UndoPc(s: State, p: Proc, c: Pc, q: Proc)
    requires p in s.pc && (s.pc[p].Owns? || s.pc[p].Filled?) && c == Undo(s.pc[p].page, s.pc[p].job, s.pc[p].frame)
    requires JobOk(s, Vpage(p, c.page), c.job) && PcOk(s, p) && PcOk(s, q)
    ensures PcOk(Goto(s, p, c), q)
  {
    assert PcOf(Goto(s, p, c), q) == if q == p then c else PcOf(s, q);
  }

  lemma {:induction false} UndoProcs(s: State, p: Proc, c: Pc)
    requires Inv(s) && p in s.pc && (s.pc[p].Owns? || s.pc[p].Filled?)
    requires c == Undo(s.pc[p].page, s.pc[p].job, s.pc[p].frame) && JobOk(s, Vpage(p, c.page), c.job)
    ensures Procs(Goto(s, p, c))
  {
    assert PcOk(s, p);
    var r := Goto(s, p, c);
    forall q | q in r.pc ensures PcOk(r, q) {
      assert PcOk(s, q);
      UndoPc(s, p, c, q);
    }
  }

  ghost predicate CanMap(s: State, p: Proc, d: map<Proc, Flat>, bytes: Bytes) {
    && p in s.pc && s.pc[p].Filled? && |bytes| == PGSIZE && s.pc[p].frame in s.mem && s.mem[s.pc[p].frame] == bytes
    && MappedIn(s.dirs, d, Vpage(p, s.pc[p].page), s.pc[p].frame)
  }

  lemma {:induction false} MapPage(s: State, p: Proc, d: map<Proc, Flat>, e: Spte, bytes: Bytes, v: Vpage)
    requires CanMap(s, p, d, bytes) && PcOk(s, p) && s.eviction != After(s.pc[p].frame)
      && (v in s.home ==> PageOk(s, v))
    ensures v in DoMap(s, p, d, e, bytes).home ==> PageOk(DoMap(s, p, d, e, bytes), v)
  {
  }

  lemma {:induction false} MapFrame(s: State, p: Proc, d: map<Proc, Flat>, e: Spte, bytes: Bytes, k: Word)
    requires CanMap(s, p, d, bytes) && PcOk(s, p) && Keys(s) && FrameOk(s, k)
    ensures FrameOk(DoMap(s, p, d, e, bytes), k)
  {
  }

  lemma {:induction false} MapPages(s: State, p: Proc, d: map<Proc, Flat>, e: Spte, bytes: Bytes, r: State)
    requires Inv(s) && CanMap(s, p, d, bytes) && r == DoMap(s, p, d, e, bytes)
    ensures forall v :: v in r.home ==> PageOk(r, v)
    ensures forall k :: k in r.frames ==> FrameOk(r, k)
  {
    assert PcOk(s, p);
    assert s.lock.Some? ==> PcOk(s, s.lock.value);
    forall v | v in r.home ensures PageOk(r, v) {
      assert v in s.home ==> PageOk(s, v);
      MapPage(s, p, d, e, bytes, v);
    }
    forall k | k in r.frames ensures FrameOk(r, k) {
      assert FrameOk(s, k);
      MapFrame(s, p, d, e, bytes, k);
    }
  }

  lemma {:induction false} MapPlaces(s: State, p: Proc, d: map<Proc, Flat>, e: Spte, bytes: Bytes)
    requires Inv(s) && CanMap(s, p, d, bytes)
    ensures Places(DoMap(s, p, d, e, bytes))
  {
    assert PcOk(s, p);
    var r := DoMap(s, p, d, e, bytes);
    MapPages(s, p, d, e, bytes, r);
    forall i | i in r.slotUser ensures SlotOk(r, i) { assert SlotOk(s, i); }
    forall v ensures PresentOk(r, v) { assert PresentOk(s, v); }
  }

  lemma {:induction false} MapPc(s: State, p: Proc, d: map<Proc, Flat>, e: Spte, bytes: Bytes, q: Proc)
    requires CanMap(s, p, d, bytes) && PcOk(s, p) && PcOk(s, q) && Keys(s)
    ensures PcOk(DoMap(s, p, d, e, bytes), q)
  {
  }

  lemma {:induction false} MapProcs(s: State, p: Proc, d: map<Proc, Flat>, e: Spte, bytes: Bytes)
    requires Inv(s) && CanMap(s, p, d, bytes)
    ensures Procs(DoMap(s, p, d, e, bytes))
  {
    assert PcOk(s, p);
    var r := DoMap(s, p, d, e, bytes);
    forall q | q in r.pc ensures PcOk(r, q) {
      assert PcOk(s, q);
      MapPc(s, p, d, e, bytes, q);
    }
  }

  lemma {:induction false} UnpinPlaces(s: State, p: Proc)
    requires Inv(s) && p in s.pc && s.pc[p].Mapped? && s.lock.None?
    ensures s.pc[p].frame in s.frames
    ensures Places(DoUnpin(s, p))
  {
    assert PcOk(s, p);
    var r := DoUnpin(s, p);
    forall v | v in r.home ensures PageOk(r, v) { assert PageOk(s, v); }
    forall k | k in r.frames ensures FrameOk(r, k) { assert FrameOk(s, k); }
    forall i | i in r.slotUser ensures SlotOk(r, i) { assert SlotOk(s, i); }
    forall v ensures PresentOk(r, v) { assert PresentOk(s, v); }
  }

  lemma {:induction false} UnpinProcs(s: State, p: Proc)
    requires Inv(s) && p in s.pc && s.pc[p].Mapped? && s.lock.None? && s.pc[p].frame in s.frames
    ensures Procs(DoUnpin(s, p))
  {
    assert PcOk(s, p);
    var r := DoUnpin(s, p);
    forall q | q in r.pc ensures PcOk(r, q) {
      assert PcOk(s, q);
      assert PcOf(r, q) == if q == p then User else PcOf(s, q);
    }
  }

  lemma {:induction false} GiveBackPlaces(s: State, p: Proc)
    requires Inv(s) && p in s.pc && s.pc[p].Undo? && s.lock.None?
    ensures s.pc[p].frame in s.frames && s.pc[p].frame in s.queue && s.pc[p].frame in s.used
    ensures Places(DoGiveBack(s, p))
  {
    assert PcOk(s, p) && FrameOk(s, s.pc[p].frame);
    var r := DoGiveBack(s, p);
    QueueRemoved(s, s.pc[p].frame);
    forall v | v in r.home ensures PageOk(r, v) { assert PageOk(s, v); }
    forall k | k in r.frames ensures FrameOk(r, k) { assert FrameOk(s, k); }
    forall i | i in r.slotUser ensures SlotOk(r, i) { assert SlotOk(s, i); }
    forall v ensures PresentOk(r, v) { assert PresentOk(s, v); }
  }

  lemma {:induction false} GiveBackProcs(s: State, p: Proc)
    requires Inv(s) && p in s.pc && s.pc[p].Undo? && s.lock.None?
    ensures Procs(DoGiveBack(s, p))
  {
    assert PcOk(s, p) && FrameOk(s, s.pc[p].frame);
    var r := DoGiveBack(s, p);
    forall q | q in r.pc ensures PcOk(r, q) {
      assert PcOk(s, q);
      assert PcOf(r, q) == if q == p then User else PcOf(s, q);
    }
  }

}
