/** The page allocator (threads/palloc.c): two pools of pages, each with a bitmap
    of used pages stored in the pool's own first pages. */
module Palloc {
  import opened Basics
  import opened Bitmaps

  const BITMAP_HEADER: nat := 8            // sizeof (struct bitmap)

  const FIRST_FREE_PAGE: nat := 0xc0100    // of the kernel's mapping of free memory, at 1 MB
  const RESERVED_PAGES: nat := 0x100       // pages below 1 MB

  function DivRoundUp(x: nat, step: nat): nat
    requires step > 0
  {
    (x + step - 1) / step
  }

  /** bitmap_buf_size(): header plus one 4-byte word per 32 bits. */
  function BitmapBufSize(bitCnt: nat): nat {
    BITMAP_HEADER + 4 * DivRoundUp(bitCnt, ELEM_BITS)
  }

  /** Pages of a pool of pageCnt pages that its own bitmap takes up. */
  function BitmapPages(pageCnt: nat): nat {
    DivRoundUp(BitmapBufSize(pageCnt), PGSIZE)
  }

  /** They are the fewest pages that hold the header and a bit for each page, in
      whole words. */
  lemma {:induction false} BitmapPagesAreEnough(pageCnt: nat, words: nat, pages: nat)
    ensures 32 * words >= pageCnt && 4096 * pages >= 8 + 4 * words ==> BitmapPages(pageCnt) <= pages
    ensures exists w: nat :: 32 * w >= pageCnt && 4096 * BitmapPages(pageCnt) >= 8 + 4 * w
  {
    var w := DivRoundUp(pageCnt, ELEM_BITS);
    WholeWords(pageCnt, w);
    WholePages(8 + 4 * w, BitmapPages(pageCnt));
    assert 32 * w >= pageCnt && 4096 * BitmapPages(pageCnt) >= 8 + 4 * w;
  }

  lemma {:induction false} WholeWords(n: nat, w: nat)
    requires w == DivRoundUp(n, 32)
    ensures 32 * w >= n > 32 * (w - 1)
  {
  }

  lemma {:induction false} WholePages(n: nat, p: nat)
    requires p == DivRoundUp(n, 4096)
    ensures 4096 * p >= n > 4096 * (p - 1)
  {
  }

  /** init_pool() panics if a pool has no room for its bitmap. */
  predicate BitmapFits(pageCnt: nat) {
    BitmapPages(pageCnt) <= pageCnt
  }

  function Min(x: nat, y: nat): nat {
    if x < y then x else y
  }

  lemma {:induction false} PoolsApart(p: nat, n: nat, q: nat, m: nat, start: nat, total: nat)
    requires start <= p && p + n <= q && q + m <= start + total
    ensures Range(p, n) !! Range(q, m)
    ensures Range(p, n) + Range(q, m) <= Range(start, total)
  {
  }

  // ----- What memory holds

  type Memory = nat -> byte

  /** memset(): n bytes from address `at` on are x. */
  function Fill(m: Memory, at: nat, n: nat, x: byte): Memory {
    (q: nat) => if at <= q < at + n then x else m(q)
  }

  // ----- Histories of a pool

  /** A pool hands out a group of pages, or takes it back. */
  datatype Op = Get(first: nat, cnt: nat) | Free(first: nat, cnt: nat)

  /** op gives or takes page q. */
  predicate Names(op: Op, q: nat) {
    op.first <= q < op.first + op.cnt
  }

  /** The pages in use after op. */
  ghost function Then(used: set<nat>, op: Op): set<nat> {
    if op.Get? then used + Range(op.first, op.cnt) else used - Range(op.first, op.cnt)
  }

  /** The pages that were handed out and not given back since. */
  ghost function UsedAfter(ops: seq<Op>): set<nat> {
    if ops == [] then {} else Then(UsedAfter(ops[..|ops| - 1]), ops[|ops| - 1])
  }

  /** Only pages of the pool that are not in use are handed out, and only pages in
      use are given back. */
  ghost predicate Proper(used: set<nat>, op: Op, pages: set<nat>) {
    if op.Get? then Range(op.first, op.cnt) <= pages && Range(op.first, op.cnt) !! used
    else Range(op.first, op.cnt) <= used
  }

  ghost predicate ProperAt(ops: seq<Op>, i: nat, pages: set<nat>)
    requires i < |ops|
  {
    Proper(UsedAfter(ops[..i]), ops[i], pages)
  }

  /** A history of proper operations that explains which pages are in use. */
  ghost predicate Recorded(ops: seq<Op>, pages: set<nat>, used: set<nat>) {
    && UsedAfter(ops) == used
    && forall i {:trigger ProperAt(ops, i, pages)} :: 0 <= i < |ops| ==> ProperAt(ops, i, pages)
  }

  lemma {:induction false} RecordMore(ops: seq<Op>, pages: set<nat>, used: set<nat>, op: Op)
    requires Recorded(ops, pages, used) && Proper(used, op, pages)
    ensures Recorded(ops + [op], pages, Then(used, op))
  {
    var more := ops + [op];
    assert more[..|ops|] == ops;
    forall i | 0 <= i < |more| ensures ProperAt(more, i, pages) {
      if i < |ops| { assert ProperAt(ops, i, pages) && more[..i] == ops[..i]; }
    }
  }

  /** A page that is handed out stays in use until it is given back. */
  lemma {:induction false} StaysUsed(ops: seq<Op>, i: nat, j: nat, q: nat)
    requires i < j <= |ops| && ops[i].Get? && Names(ops[i], q)
    requires forall k :: i < k < j && ops[k].Free? ==> !Names(ops[k], q)
    ensures q in UsedAfter(ops[..j])
  {
    assert ops[..j][..j - 1] == ops[..j - 1];
    if i < j - 1 { StaysUsed(ops, i, j - 1, q); }
  }

  /** A page in use was handed out and not given back since. */
  lemma {:induction false} Origin(ops: seq<Op>, j: nat, q: nat) returns (i: nat)
    requires j <= |ops| && q in UsedAfter(ops[..j])
    ensures i < j && ops[i].Get? && Names(ops[i], q)
    ensures forall k :: i < k < j && ops[k].Free? ==> !Names(ops[k], q)
  {
    assert ops[..j][..j - 1] == ops[..j - 1];
    i := j - 1;
    if !(ops[i].Get? && Names(ops[i], q)) {
      i := Origin(ops, j - 1, q);
    }
  }

  // ----- Pools

  /** There is a group of free pages. */
  ghost predicate HasGroup(b: seq<bool>, pageCnt: nat) {
    exists i: nat :: IsGroup(b, i, pageCnt, false)
  }

  /** The first such group starts at that page, in a pool from page first on. */
  ghost predicate IsFirst(b: seq<bool>, first: nat, pageCnt: nat, page: Option<nat>) {
    match page
    case None => IsFirstFit(b, 0, pageCnt, false, None)
    case Some(p) => first <= p && IsFirstFit(b, 0, pageCnt, false, Some(p - first))
  }

  lemma {:induction false} FirstIff(b: seq<bool>, first: nat, pageCnt: nat, page: Option<nat>)
    requires IsFirst(b, first, pageCnt, page)
    ensures page.Some? <==> HasGroup(b, pageCnt)
    ensures page.Some? ==> forall i: nat :: IsGroup(b, i, pageCnt, false) ==> page.value <= first + i
  {
    if page.Some? { assert IsGroup(b, page.value - first, pageCnt, false); }
  }

  datatype PagesResult = Pages(address: nat) | NullPointer | Panic

  /** The page where the group starts, if there is one. */
  function PageOf(r: PagesResult): Option<nat> {
    if r.Pages? then Some(r.address / PGSIZE) else None
  }

  /** A pool of pages `all` gave a group: the first free one, which is then in use and
      recorded, and none exactly if there was none. */
  ghost predicate Given(page: Option<nat>, pageCnt: nat, first: nat, all: set<nat>,
      bits: seq<bool>, used: set<nat>, ops: seq<Op>, bits': seq<bool>, used': set<nat>, ops': seq<Op>)
  {
    && IsFirst(bits, first, pageCnt, page) && (page.Some? <==> HasGroup(bits, pageCnt))
    && match page
       case None => bits' == bits && used' == used && ops' == ops
       case Some(p) =>
         && Range(p, pageCnt) <= all && Range(p, pageCnt) !! used && used' == used + Range(p, pageCnt)
         && ops' == ops + [Op.Get(p, pageCnt)]
  }

  class Pool {
    const first: nat           // pg_no (pool->base)
    const usedMap: Bitmap
    ghost var history: seq<Op> // every group handed out or given back so far

    ghost predicate Valid()
      reads this`history, usedMap, usedMap.bits
    {
      usedMap.Valid() && Recorded(history, All(), Used())
    }

    ghost function Used(): set<nat>
      requires usedMap.Valid()
      reads usedMap, usedMap.bits
    {
      SetBits(first, usedMap.Bits())
    }

    /** The pages of the pool, used or not. */
    ghost function All(): set<nat> {
      Range(first, usedMap.bitCnt)
    }

    /** The pool and, before it, its bitmap take up the pages from base on. */
    ghost predicate Behind(base: nat, pageCnt: nat) {
      first == base + BitmapPages(pageCnt) && first + usedMap.bitCnt == base + pageCnt
    }

    /** init_pool() after its check that the bitmap fits. */
    constructor (base: nat, pageCnt: nat)
      requires BitmapFits(pageCnt)
      ensures Valid() && fresh(usedMap) && fresh(usedMap.bits)
      ensures Behind(base, pageCnt)
      ensures Used() == {} && history == []
    {
      first := base + BitmapPages(pageCnt);
      usedMap := new Bitmap(pageCnt - BitmapPages(pageCnt));
      history := [];
    }

    /** A group of free pages, marked used. */
    method Get(pageCnt: nat) returns (r: Option<nat>)
      requires Valid()
      modifies this`history, usedMap.bits
      ensures Valid()
      ensures r.Some? ==>
        && Range(r.value, pageCnt) <= All() && Range(r.value, pageCnt) !! old(Used()) && first <= r.value
        && Used() == old(Used()) + Range(r.value, pageCnt)
        && history == old(history) + [Op.Get(r.value, pageCnt)]
      ensures r.None? ==> usedMap.Bits() == old(usedMap.Bits()) && history == old(history)
      ensures IsFirst(old(usedMap.Bits()), first, pageCnt, r)
    {
      var idx := usedMap.ScanAndFlip(0, pageCnt, false);
      if idx.Some? {
        FilledBits(first, old(usedMap.Bits()), idx.value, pageCnt, true);
        r := Some(first + idx.value);
        RecordMore(history, All(), old(Used()), Op.Get(r.value, pageCnt));
        history := history + [Op.Get(r.value, pageCnt)];
      } else {
        r := None;
      }
    }

    /** Used pages become free again. */
    method Free(page: nat, pageCnt: nat)
      requires Valid() && pageCnt > 0 && Range(page, pageCnt) <= Used()
      modifies this`history, usedMap.bits
      ensures Valid() && Used() == old(Used()) - Range(page, pageCnt)
        && history == old(history) + [Op.Free(page, pageCnt)]
    {
      RecordMore(history, All(), Used(), Op.Free(page, pageCnt));
      assert first <= page && page - first + pageCnt <= usedMap.bitCnt by {
        assert page in Range(page, pageCnt) && page + pageCnt - 1 in Range(page, pageCnt);
      }
      FilledBits(first, usedMap.Bits(), page - first, pageCnt, false);
      usedMap.SetMultiple(page - first, pageCnt, false);
      assert Used() == Then(old(Used()), Op.Free(page, pageCnt));
      history := history + [Op.Free(page, pageCnt)];
    }

    /** page_from_pool(). */
    predicate PageFromPool(address: nat) {
      first <= address / PGSIZE < first + usedMap.bitCnt
    }
  }

  /** The two pools lie side by side after the kernel image, each behind its own
      bitmap, and inside physical memory. */
  class PageAllocator {
    const kernel: Pool
    const user: Pool
    var memory: Memory

    ghost predicate Valid()
      reads kernel`history, kernel.usedMap, kernel.usedMap.bits, user`history, user.usedMap, user.usedMap.bits
    {
      && kernel != user && kernel.usedMap != user.usedMap && kernel.usedMap.bits != user.usedMap.bits
      && kernel.Valid() && user.Valid()
      && kernel.All() !! user.All()
      && kernel.first > 0 && user.first > 0
    }

    /** Each pool with its bitmap takes that many pages, the kernel pool first. */
    ghost predicate Divided(kernelPages: nat, userPages: nat) {
      kernel.Behind(FIRST_FREE_PAGE, kernelPages) && user.Behind(FIRST_FREE_PAGE + kernelPages, userPages)
    }

    function PoolOf(fromUser: bool): Pool {
      if fromUser then user else kernel
    }

    constructor (k: Pool, u: Pool, m: Memory)
      requires k != u && k.usedMap != u.usedMap && k.usedMap.bits != u.usedMap.bits
      requires k.Valid() && u.Valid() && k.All() !! u.All() && k.first > 0 && u.first > 0
      ensures kernel == k && user == u && memory == m && Valid()
    {
      kernel, user, memory := k, u, m;
    }

    /** init_pool() for both pools, the kernel pool first. */
    static method Build(kernelPages: nat, userPages: nat, m: Memory) returns (a: PageAllocator)
      requires BitmapFits(kernelPages) && BitmapFits(userPages)
      ensures fresh(a) && fresh(a.kernel) && fresh(a.user) && fresh(a.kernel.usedMap) && fresh(a.user.usedMap)
      ensures fresh(a.kernel.usedMap.bits) && fresh(a.user.usedMap.bits)
      ensures a.Valid() && a.kernel.history == a.user.history == []
      ensures a.kernel.All() + a.user.All() <= Range(FIRST_FREE_PAGE, kernelPages + userPages)
      ensures a.Divided(kernelPages, userPages)
    {
      var k := new Pool(FIRST_FREE_PAGE, kernelPages);
      var u := new Pool(FIRST_FREE_PAGE + kernelPages, userPages);
      PoolsApart(k.first, k.usedMap.bitCnt, u.first, u.usedMap.bitCnt, FIRST_FREE_PAGE, kernelPages + userPages);
      a := new PageAllocator(k, u, m);
    }

    /** palloc_init() on a machine with ramPages pages that hold m: half of the free
        memory, at most userPageLimit pages, goes to the user pool.  Fails, as the kernel
        then panics, if a pool is too small for its own bitmap. */
    static method Init(ramPages: nat, userPageLimit: nat, m: Memory) returns (r: Option<PageAllocator>)
      requires ramPages >= RESERVED_PAGES
      ensures r.Some? ==>
        var a := r.value;
        && fresh(a) && fresh(a.kernel) && fresh(a.user) && fresh(a.kernel.usedMap) && fresh(a.user.usedMap)
        && fresh(a.kernel.usedMap.bits) && fresh(a.user.usedMap.bits)
        && a.Valid() && a.kernel.history == a.user.history == []
        && a.kernel.All() + a.user.All() <= Range(FIRST_FREE_PAGE, ramPages - RESERVED_PAGES)
      ensures var free := ramPages - RESERVED_PAGES;
        var userPages := Min(free / 2, userPageLimit);
        && (r.Some? ==> r.value.Divided(free - userPages, userPages))
        && (r.Some? <==> BitmapFits(free - userPages) && BitmapFits(userPages))
    {
      var freePages := ramPages - RESERVED_PAGES;
      var userPages := freePages / 2;
      if userPages > userPageLimit { userPages := userPageLimit; }
      var kernelPages := freePages - userPages;
      if !BitmapFits(kernelPages) || !BitmapFits(userPages) { return None; }
      var a := Build(kernelPages, userPages, m);
      r := Some(a);
    }

    /** The first group of free pages of the requested pool. */
    method GetGroup(fromUser: bool, pageCnt: nat) returns (page: Option<nat>)
      requires Valid()
      modifies PoolOf(fromUser)`history, PoolOf(fromUser).usedMap.bits
      ensures Valid() && page != Some(0)
      ensures var pool := PoolOf(fromUser);
        Given(page, pageCnt, pool.first, pool.All(), old(pool.usedMap.Bits()), old(pool.Used()), old(pool.history),
              pool.usedMap.Bits(), pool.Used(), pool.history)
    {
      var pool := PoolOf(fromUser);
      page := pool.Get(pageCnt);
      FirstIff(old(pool.usedMap.Bits()), pool.first, pageCnt, page);
    }

    /** palloc_get_multiple(): the first group of free pages of the requested pool; a null
        pointer or a panic exactly if there is none. */
    method GetMultiple(fromUser: bool, zero: bool, mustSucceed: bool, pageCnt: nat) returns (r: PagesResult)
      requires Valid()
      modifies this`memory, PoolOf(fromUser)`history, PoolOf(fromUser).usedMap.bits
      ensures Valid()
      ensures pageCnt == 0 ==>
        var pool := PoolOf(fromUser);
        r.NullPointer? && pool.usedMap.Bits() == old(pool.usedMap.Bits()) && pool.history == old(pool.history)
      ensures pageCnt > 0 ==>
        var pool := PoolOf(fromUser);
        Given(PageOf(r), pageCnt, pool.first, pool.All(), old(pool.usedMap.Bits()), old(pool.Used()), old(pool.history),
              pool.usedMap.Bits(), pool.Used(), pool.history)
      ensures r.Panic? <==> mustSucceed && pageCnt > 0 && !r.Pages?
      ensures r.Pages? ==> r.address % PGSIZE == 0 && r.address > 0
      ensures memory ==
        if zero && r.Pages? then Fill(old(memory), r.address, PGSIZE * pageCnt, 0) else old(memory)
    {
      if pageCnt == 0 { return NullPointer; }
      var page := GetGroup(fromUser, pageCnt);
      if page.Some? {
        r := Pages(PGSIZE * page.value);
        assert PageOf(r) == page;
        if zero { memory := Fill(memory, r.address, PGSIZE * pageCnt, 0); }
      } else {
        r := if mustSucceed then Panic else NullPointer;
      }
    }

    static lemma {:induction false} UsedInside(p: Pool)
      requires p.Valid()
      ensures p.Used() <= p.All()
    {
    }

    /** page_from_pool() finds the pool that has a page in use. */
    lemma {:induction false} PoolFound(page: nat, fromUser: bool)
      requires Valid() && page in PoolOf(fromUser).Used()
      ensures fromUser <==> !(kernel.first <= page < kernel.first + kernel.usedMap.bitCnt)
    {
      UsedInside(PoolOf(fromUser));
      assert page in kernel.All() <==> kernel.first <= page < kernel.first + kernel.usedMap.bitCnt;
    }

    /** palloc_free_multiple() of pages that one of the pools has in use. */
    method FreeMultiple(pages: nat, pageCnt: nat, ghost fromUser: bool)
      requires Valid() && pages % PGSIZE == 0
      requires pages != 0 && pageCnt > 0 ==> Range(pages / PGSIZE, pageCnt) <= PoolOf(fromUser).Used()
      modifies this`memory, PoolOf(fromUser)`history, PoolOf(fromUser).usedMap.bits
      ensures Valid()
      ensures pages == 0 || pageCnt == 0 ==>
        && PoolOf(fromUser).Used() == old(PoolOf(fromUser).Used())
        && PoolOf(fromUser).history == old(PoolOf(fromUser).history) && memory == old(memory)
      ensures pages != 0 && pageCnt > 0 ==>
        && PoolOf(fromUser).Used() == old(PoolOf(fromUser).Used()) - Range(pages / PGSIZE, pageCnt)
        && PoolOf(fromUser).history == old(PoolOf(fromUser).history) + [Free(pages / PGSIZE, pageCnt)]
        && memory == Fill(old(memory), pages, PGSIZE * pageCnt, 0xcc)
    {
      if pages == 0 || pageCnt == 0 { return; }
      memory := Fill(memory, pages, PGSIZE * pageCnt, 0xcc);
      FreeGroup(pages, pageCnt, fromUser);
    }

    /** The pool that the first page lies in takes back the group. */
    method FreeGroup(pages: nat, pageCnt: nat, ghost fromUser: bool)
      requires Valid() && pageCnt > 0 && Range(pages / PGSIZE, pageCnt) <= PoolOf(fromUser).Used()
      modifies PoolOf(fromUser)`history, PoolOf(fromUser).usedMap.bits
      ensures Valid()
      ensures PoolOf(fromUser).Used() == old(PoolOf(fromUser).Used()) - Range(pages / PGSIZE, pageCnt)
      ensures PoolOf(fromUser).history == old(PoolOf(fromUser).history) + [Free(pages / PGSIZE, pageCnt)]
    {
      assert pages / PGSIZE in Range(pages / PGSIZE, pageCnt);
      PoolFound(pages / PGSIZE, fromUser);
      var pool := PoolOf(!kernel.PageFromPool(pages));
      pool.Free(pages / PGSIZE, pageCnt);
    }
  }

  // ----- What holds of every history

  /** A page that a pool handed out twice was given back in between. */
  lemma {:induction false} NoOverlap(p: Pool, i: nat, j: nat, q: nat) returns (k: nat)
    requires p.Valid() && i < j < |p.history| && p.history[i].Get? && p.history[j].Get?
    requires Names(p.history[i], q) && Names(p.history[j], q)
    ensures i < k < j && p.history[k].Free? && Names(p.history[k], q)
  {
    var ops := p.history;
    assert ProperAt(ops, j, p.All()) && q in Range(ops[j].first, ops[j].cnt);
    if forall k :: i < k < j && ops[k].Free? ==> !Names(ops[k], q) {
      StaysUsed(ops, i, j, q);
      assert false;
    }
    k :| i < k < j && ops[k].Free? && Names(ops[k], q);
  }

  /** A page given back to a pool came from it, and was not given back since. */
  lemma {:induction false} GivenBackOnce(p: Pool, j: nat, q: nat) returns (i: nat)
    requires p.Valid() && j < |p.history| && p.history[j].Free? && Names(p.history[j], q)
    ensures i < j && p.history[i].Get? && Names(p.history[i], q)
    ensures forall k :: i < k < j && p.history[k].Free? ==> !Names(p.history[k], q)
  {
    assert ProperAt(p.history, j, p.All()) && q in Range(p.history[j].first, p.history[j].cnt);
    i := Origin(p.history, j, q);
  }

  /** The pages in use are those handed out and not given back since. */
  lemma {:induction false} InUseIff(p: Pool, q: nat)
    requires p.Valid()
    ensures q in p.Used() <==>
      exists i :: 0 <= i < |p.history| && p.history[i].Get? && Names(p.history[i], q) &&
        forall k :: i < k < |p.history| && p.history[k].Free? ==> !Names(p.history[k], q)
  {
    var ops := p.history;
    assert ops[..|ops|] == ops;
    if q in p.Used() {
      var i := Origin(ops, |ops|, q);
    }
    forall i: nat | i < |ops| && ops[i].Get? && Names(ops[i], q) &&
      (forall k :: i < k < |ops| && ops[k].Free? ==> !Names(ops[k], q))
      ensures q in p.Used()
    {
      StaysUsed(ops, i, |ops|, q);
    }
  }

  /** A pool deals in its own pages only. */
  lemma {:induction false} OwnPages(p: Pool, k: nat, q: nat)
    requires p.Valid() && k < |p.history|
    ensures Names(p.history[k], q) ==> q in p.All()
  {
    var ops := p.history;
    if Names(ops[k], q) {
      assert ProperAt(ops, k, p.All()) && q in Range(ops[k].first, ops[k].cnt);
      if ops[k].Free? {
        var i := Origin(ops, k, q);
        assert ProperAt(ops, i, p.All()) && q in Range(ops[i].first, ops[i].cnt);
      }
    }
  }

  /** No page is ever handed out by or given back to both pools. */
  lemma {:induction false} PoolsNeverMix(a: PageAllocator, i: nat, j: nat, q: nat)
    requires a.Valid() && i < |a.kernel.history| && j < |a.user.history|
    ensures !(Names(a.kernel.history[i], q) && Names(a.user.history[j], q))
  {
    OwnPages(a.kernel, i, q);
    OwnPages(a.user, j, q);
  }
}
