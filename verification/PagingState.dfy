/** Frames, supplemental page tables and swap (vm/frame.c, vm/page.c, vm/swap.c) as a
    transition system.  Each process has a program counter inside page-fault handling,
    so loads and evictions of different processes interleave; what runs under
    frame_lock is split where the owner of a frame could notice. */
module PagingState {
  import opened Basics
  import opened Pagedir

  type Proc = nat
  type Bytes = seq<byte>

  /** A user page of a process. */
  datatype Vpage = Vpage(proc: Proc, page: nat)

  /** A frame_table_entry. */
  datatype Frame = Frame(vpage: Vpage, pinned: bool)

  datatype Status = AllZero | OnFrame | OnSwap | FromFilesys

  /** A page_table_entry: what the modelled code reads of it. */
  datatype Spte = Spte(status: Status, swapIndex: nat)

  /** Why a frame is wanted: to load a page after a fault, or to install a new
      page with the given contents (load_segment, setup_stack). */
  datatype Job = Load | Install(bytes: Bytes, writable: bool)

  /** Where a process is. */
  datatype Pc =
    | Absent
    | User
    | Wants(page: nat, job: Job)                               // waits for frame_lock
    | Picked(page: nat, job: Job, victim: Word)                // holds frame_lock from here ...
    | Cleared(page: nat, job: Job, victim: Word)
    | Written(page: nat, job: Job, victim: Word, slot: nat)
    | Marked(page: nat, job: Job, victim: Word)                // ... to here
    | Owns(page: nat, job: Job, frame: Word)
    | Copied(page: nat, frame: Word, slot: nat)                // read from a slot still in use
    | Filled(page: nat, job: Job, frame: Word)
    | Mapped(page: nat, frame: Word)
    | Undo(page: nat, job: Job, frame: Word)                   // must give its frame back

  /** History: where the contents of a page are.  Leaving and arriving pages are in
      a frame that their page directory does not show. */
  datatype Home = InFrame(frame: Word) | Leaving(frame: Word) | InSlot(slot: nat) | Arriving(frame: Word) | Zero

  /** History: the frame that is being evicted, before and after its page is marked
      as swapped out. */
  datatype Eviction = Nothing | Before(frame: Word) | After(frame: Word)

  datatype State = State(
    pool: set<Word>, used: set<Word>, mem: map<Word, Bytes>,
    frames: map<Word, Frame>, queue: seq<Word>,
    dirs: map<Proc, Flat>, spt: map<Vpage, Spte>,
    available: set<nat>, slots: map<nat, Bytes>,
    lock: Option<Proc>, pc: map<Proc, Pc>,
    // history
    logical: map<Vpage, Bytes>, home: map<Vpage, Home>, slotUser: map<nat, Vpage>, eviction: Eviction)

  function Zeros(): Bytes {
    seq(PGSIZE, _ => 0)
  }

  ghost function Present(dirs: map<Proc, Flat>, v: Vpage): Option<Word> {
    if v.proc in dirs then FlatGet(dirs[v.proc], v.page) else None
  }

  ghost predicate HasTable(dirs: map<Proc, Flat>, v: Vpage) {
    v.proc in dirs && v.page in dirs[v.proc]
  }

  /** What a process does next. */
  datatype Step =
    | Start(p: Proc)
    | Read(p: Proc, page: nat, at: nat, value: byte)
    | Write(p: Proc, page: nat, at: nat, value: byte)
    | Grow(p: Proc, page: nat)
    | Fault(p: Proc, page: nat)
    | BeginInstall(p: Proc, page: nat, bytes: Bytes, writable: bool)
    | TakeFree(p: Proc, frame: Word, entry: bool)
    | Pick(p: Proc)
    | Clear(p: Proc)
    | WriteOut(p: Proc, slot: nat)
    | Mark(p: Proc)
    | Take(p: Proc, frame: Word, entry: bool)
    | Fill(p: Proc)
    | FreeSlot(p: Proc)
    | Fail(p: Proc)
    | Map(p: Proc, table: bool, garbage: Spte)
    | Unpin(p: Proc)
    | GiveBack(p: Proc)

  ghost function PcOf(s: State, p: Proc): Pc {
    if p in s.pc then s.pc[p] else Absent
  }

  /** Pages of the user pool that are free once the victim's page is. */
  ghost function FreeAfter(s: State, victim: Word): set<Word> {
    s.pool - (s.used - {victim})
  }

  /** Control is there and the environment plays along; the page allocator gives one
      of the free pages k if there is one. */
  ghost predicate Enabled(s: State, a: Step) {
    var at := PcOf(s, a.p);
    match a
    case Start(p) => p !in s.pc
    case Read(p, u, i, x) =>
      && at.User? && Present(s.dirs, Vpage(p, u)).Some?
      && var k := Present(s.dirs, Vpage(p, u)).value; k in s.mem && i < |s.mem[k]| && s.mem[k][i] == x
    case Write(p, u, i, x) =>
      && at.User? && Present(s.dirs, Vpage(p, u)).Some? && s.dirs[p][u].writable && i < PGSIZE
    case Grow(p, u) => at.User? && Vpage(p, u) !in s.spt && u < USER_PAGES
    case Fault(p, u) => at.User? && Vpage(p, u) in s.spt && Present(s.dirs, Vpage(p, u)).None?
    case BeginInstall(p, u, bytes, _) => at.User? && Vpage(p, u) !in s.spt && u < USER_PAGES && |bytes| == PGSIZE
    case TakeFree(p, k, _) => at.Wants? && s.lock.None? && k in s.pool - s.used
    case Pick(p) =>
      && at.Wants? && s.lock.None? && s.pool <= s.used
      && s.queue != [] && s.queue[0] in s.frames && !s.frames[s.queue[0]].pinned
    case Clear(p) => at.Picked?
    case WriteOut(p, slot) => at.Cleared? && slot in s.available && forall k :: k in s.available ==> slot <= k
    case Mark(p) => at.Written?
    case Take(p, k, _) => at.Marked? && (k in FreeAfter(s, at.victim) || FreeAfter(s, at.victim) == {})
    case Fill(p) => at.Owns?
    case FreeSlot(p) => at.Copied?
    case Fail(p) => at.Owns? && at.job.Install?
    case Map(p, _, _) => at.Filled?
    case Unpin(p) => at.Mapped? && s.lock.None?
    case GiveBack(p) => at.Undo? && s.lock.None?
  }

  /** The slot that is read is in use. */
  ghost predicate FillAsserts(s: State, p: Proc)
    requires p in s.pc && s.pc[p].Owns?
  {
    var v := Vpage(p, s.pc[p].page);
    s.pc[p].job.Load? ==>
      && v in s.spt
      && var e := s.spt[v];
      e.status.AllZero? || (e.status.OnSwap? && e.swapIndex in s.slots && e.swapIndex !in s.available)
  }

  /** The page is not present; if it comes from swap, its page table exists. */
  ghost predicate MapAsserts(s: State, p: Proc)
    requires p in s.pc && s.pc[p].Filled?
  {
    var v := Vpage(p, s.pc[p].page);
    && p in s.dirs && Present(s.dirs, v).None?
    && (s.pc[p].job.Load? ==> v in s.spt && v in s.logical && (s.spt[v].status.OnSwap? ==> HasTable(s.dirs, v)))
  }

  /** The ASSERTs and PANICs that the code relies on never to fire. */
  ghost predicate Asserted(s: State, a: Step)
    requires Enabled(s, a)
  {
    var at := PcOf(s, a.p);
    match a
    case Write(p, u, _, _) =>
      var k := Present(s.dirs, Vpage(p, u)).value;
      k in s.mem && |s.mem[k]| == PGSIZE && Vpage(p, u) in s.logical && |s.logical[Vpage(p, u)]| == PGSIZE
    case Pick(p) => p in s.dirs
    case Clear(p) => at.victim in s.frames && s.frames[at.victim].vpage.proc in s.dirs
    case WriteOut(p, _) => at.victim in s.mem
    case Mark(p) => at.victim in s.frames && s.frames[at.victim].vpage in s.spt
    case Take(p, k, _) =>
      at.victim in s.frames && at.victim in s.queue && at.victim in s.pool * s.used && k in FreeAfter(s, at.victim)
    case Fill(p) => FillAsserts(s, p)
    case Map(p, _, _) => MapAsserts(s, p)
    case Unpin(p) => at.frame in s.frames
    case GiveBack(p) => at.frame in s.frames && at.frame in s.queue && at.frame in s.pool * s.used
    case _ => true
  }

  // ----- User code and page faults

  ghost function DoStart(s: State, p: Proc): (r: State)
    ensures r.logical == s.logical
  {
    s.(pc := s.pc[p := User], dirs := s.dirs[p := map[]])
  }

  /** The processor sets the accessed bit. */
  ghost function DoRead(s: State, p: Proc, u: nat): (r: State)
    requires p in s.dirs
    ensures r.logical == s.logical
  {
    s.(dirs := s.dirs[p := FlatSetAccessed(s.dirs[p], u, true)])
  }

  function Poke(b: Bytes, i: nat, x: byte): Bytes
    requires i < |b|
  {
    b[i := x]
  }

  ghost function DoWrite(s: State, p: Proc, u: nat, k: Word, i: nat, x: byte): State
    requires p in s.dirs && k in s.mem && i < |s.mem[k]|
    requires Vpage(p, u) in s.logical && i < |s.logical[Vpage(p, u)]|
  {
    s.(dirs := s.dirs[p := FlatSetDirty(FlatSetAccessed(s.dirs[p], u, true), u, true)],
       mem := s.mem[k := Poke(s.mem[k], i, x)],
       logical := s.logical[Vpage(p, u) := Poke(s.logical[Vpage(p, u)], i, x)])
  }

  /** virtualmemory_table_install_zeropage(). */
  ghost function DoGrow(s: State, v: Vpage): State {
    s.(spt := s.spt[v := Spte(AllZero, 0)], logical := s.logical[v := Zeros()], home := s.home[v := Zero])
  }

  ghost function Goto(s: State, p: Proc, c: Pc): (r: State)
    ensures r.logical == s.logical && r.dirs == s.dirs
  {
    s.(pc := s.pc[p := c])
  }

  // ----- virtualmemory_frame_allocate()

  /** The frame goes to process p, pinned. */
  ghost function DoTake(s: State, p: Proc, k: Word): (r: State)
    requires p in s.pc && s.pc[p].Wants?
    ensures r.logical == s.logical && r.dirs == s.dirs
  {
    var at := s.pc[p];
    s.(used := s.used + {k}, frames := s.frames[k := Frame(Vpage(p, at.page), true)], queue := s.queue + [k],
       pc := s.pc[p := Owns(at.page, at.job, k)])
  }

  /** Without memory for its entry a frame is lost, and the process goes without. */
  ghost function DoLose(s: State, p: Proc, k: Word): (r: State)
    ensures r.logical == s.logical && r.dirs == s.dirs
  {
    s.(used := s.used + {k}, pc := s.pc[p := User])
  }

  ghost function DoPick(s: State, p: Proc, k: Word): (r: State)
    requires p in s.pc && s.pc[p].Wants? && p in s.dirs && k in s.frames
    ensures r.logical == s.logical
  {
    var at := s.pc[p];
    s.(lock := Some(p), pc := s.pc[p := Picked(at.page, at.job, k)],
       dirs := s.dirs[p := FlatSetAccessed(s.dirs[p], s.frames[k].vpage.page, false)])
  }

  ghost function DoClear(s: State, p: Proc): (r: State)
    requires p in s.pc && s.pc[p].Picked? && s.pc[p].victim in s.frames && s.frames[s.pc[p].victim].vpage.proc in s.dirs
    ensures r.logical == s.logical
  {
    var at := s.pc[p];
    var v := s.frames[at.victim].vpage;
    s.(pc := s.pc[p := Cleared(at.page, at.job, at.victim)],
      dirs := s.dirs[v.proc := FlatClear(s.dirs[v.proc], v.page)],
       home := s.home[v := Leaving(at.victim)], eviction := Before(at.victim))
  }

  /** virtualmemory_swap_out(). */
  ghost function DoWriteOut(s: State, p: Proc, slot: nat): (r: State)
    requires p in s.pc && s.pc[p].Cleared? && s.pc[p].victim in s.mem
    ensures r.logical == s.logical && r.dirs == s.dirs
  {
    var at := s.pc[p];
    s.(pc := s.pc[p := Written(at.page, at.job, at.victim, slot)],
       slots := s.slots[slot := s.mem[at.victim]], available := s.available - {slot})
  }

  /** virtualmemory_table_set_swap(). */
  ghost function DoMark(s: State, p: Proc): (r: State)
    requires p in s.pc && s.pc[p].Written? && s.pc[p].victim in s.frames
    ensures r.logical == s.logical && r.dirs == s.dirs
  {
    var at := s.pc[p];
    var v := s.frames[at.victim].vpage;
    s.(pc := s.pc[p := Marked(at.page, at.job, at.victim)], spt := s.spt[v := Spte(OnSwap, at.slot)],
       home := s.home[v := InSlot(at.slot)], slotUser := s.slotUser[at.slot := v], eviction := After(at.victim))
  }

  /** virtualmemory_frame_do_free() of the victim, after which a page is free. */
  ghost function DoEvicted(s: State, p: Proc): (r: State)
    requires p in s.pc && s.pc[p].Marked?
    ensures r.logical == s.logical && r.dirs == s.dirs
  {
    var at := s.pc[p];
    s.(used := s.used - {at.victim}, frames := s.frames - {at.victim}, queue := Removed(s.queue, at.victim),
       pc := s.pc[p := Wants(at.page, at.job)], lock := None, eviction := Nothing)
  }

  // ----- The rest of virtualmemory_load_page() and of installing a page

  ghost function DoFill(s: State, p: Proc, bytes: Bytes, c: Pc): (r: State)
    requires p in s.pc && s.pc[p].Owns?
    ensures r.logical == s.logical && r.dirs == s.dirs
  {
    s.(mem := s.mem[s.pc[p].frame := bytes], pc := s.pc[p := c])
  }

  ghost function DoFreeSlot(s: State, p: Proc): (r: State)
    requires p in s.pc && s.pc[p].Copied?
    ensures r.logical == s.logical && r.dirs == s.dirs
  {
    var at := s.pc[p];
    s.(available := s.available + {at.slot}, slotUser := s.slotUser - {at.slot},
       home := s.home[Vpage(p, at.page) := Arriving(at.frame)], pc := s.pc[p := Filled(at.page, Load, at.frame)])
  }

  /** pagedir_set_page(). */
  ghost function WithPage(s: State, p: Proc, writable: bool): map<Proc, Flat>
    requires p in s.pc && s.pc[p].Filled? && p in s.dirs
  {
    s.dirs[p := FlatSet(s.dirs[p], s.pc[p].page, s.pc[p].frame, writable)]
  }

  ghost function DoMap(s: State, p: Proc, dirs: map<Proc, Flat>, e: Spte, bytes: Bytes): State
    requires p in s.pc && s.pc[p].Filled?
  {
    var at := s.pc[p];
    var v := Vpage(p, at.page);
    s.(dirs := dirs, spt := s.spt[v := e], home := s.home[v := InFrame(at.frame)], logical := s.logical[v := bytes],
       pc := s.pc[p := Mapped(at.page, at.frame)])
  }

  ghost function DoUnpin(s: State, p: Proc): (r: State)
    requires p in s.pc && s.pc[p].Mapped? && s.pc[p].frame in s.frames
    ensures r.logical == s.logical && r.dirs == s.dirs
  {
    var k := s.pc[p].frame;
    s.(frames := s.frames[k := s.frames[k].(pinned := false)], pc := s.pc[p := User])
  }

  /** virtualmemory_frame_free(). */
  ghost function DoGiveBack(s: State, p: Proc): (r: State)
    requires p in s.pc && s.pc[p].Undo?
    ensures r.logical == s.logical && r.dirs == s.dirs
  {
    var k := s.pc[p].frame;
    s.(used := s.used - {k}, frames := s.frames - {k}, queue := Removed(s.queue, k), pc := s.pc[p := User])
  }

  // ----- Steps

  ghost function ApplyFill(s: State, p: Proc): State
    requires p in s.pc && s.pc[p].Owns? && FillAsserts(s, p)
  {
    var at := s.pc[p];
    if at.job.Install? then DoFill(s, p, at.job.bytes, Filled(at.page, at.job, at.frame))
    else
      var e := s.spt[Vpage(p, at.page)];
      if e.status.AllZero? then DoFill(s, p, Zeros(), Filled(at.page, Load, at.frame))
      else DoFill(s, p, s.slots[e.swapIndex], Copied(at.page, at.frame, e.swapIndex))
  }

  ghost function ApplyMap(s: State, p: Proc, table: bool, garbage: Spte): State
    requires p in s.pc && s.pc[p].Filled? && MapAsserts(s, p)
  {
    var at := s.pc[p];
    var v := Vpage(p, at.page);
    if !table && !HasTable(s.dirs, v) then Goto(s, p, Undo(at.page, at.job, at.frame))
    else if at.job.Install? then DoMap(s, p, WithPage(s, p, at.job.writable), garbage, at.job.bytes)
    else DoMap(s, p, WithPage(s, p, true), s.spt[v].(status := OnFrame), s.logical[v])
  }

  ghost function Apply(s: State, a: Step): State
    requires Enabled(s, a) && Asserted(s, a)
  {
    match a
    case Start(p) => DoStart(s, p)
    case Read(p, u, _, _) => DoRead(s, p, u)
    case Write(p, u, i, x) => DoWrite(s, p, u, Present(s.dirs, Vpage(p, u)).value, i, x)
    case Grow(p, u) => DoGrow(s, Vpage(p, u))
    case Fault(p, u) => if s.spt[Vpage(p, u)].status.OnFrame? then s else Goto(s, p, Wants(u, Load))
    case BeginInstall(p, u, bytes, writable) => Goto(s, p, Wants(u, Install(bytes, writable)))
    case TakeFree(p, k, entry) => if entry then DoTake(s, p, k) else DoLose(s, p, k)
    case Pick(p) => DoPick(s, p, s.queue[0])
    case Clear(p) => DoClear(s, p)
    case WriteOut(p, slot) => DoWriteOut(s, p, slot)
    case Mark(p) => DoMark(s, p)
    case Take(p, k, entry) => if entry then DoTake(DoEvicted(s, p), p, k) else DoLose(DoEvicted(s, p), p, k)
    case Fill(p) => ApplyFill(s, p)
    case FreeSlot(p) => DoFreeSlot(s, p)
    case Fail(p) => Goto(s, p, Undo(s.pc[p].page, s.pc[p].job, s.pc[p].frame))
    case Map(p, table, garbage) => ApplyMap(s, p, table, garbage)
    case Unpin(p) => DoUnpin(s, p)
    case GiveBack(p) => DoGiveBack(s, p)
  }
}
