/** The block allocator (threads/malloc.c).  A descriptor keeps the free blocks of
    one size; blocks live in arenas, which are pages of the kernel pool; requests
    too big for any descriptor get an arena of their own. */
module Malloc {
  import opened Basics
  import opened Bitmaps
  import opened Palloc

  const DESC_CNT: nat := 7
  const ARENA_SIZE: nat := 12              // sizeof (struct arena)
  const LINK_SIZE: nat := 8                // sizeof (struct list_elem)
  const SIZE_LIMIT: nat := 0x1_0000_0000   // size_t has 32 bits

  /** Block sizes 16, 32, ..., below half a page. */
  function BlockSize(d: nat): (s: nat)
    requires d < DESC_CNT
    ensures 16 <= s <= 1024
  {
    [16, 32, 64, 128, 256, 512, 1024][d]
  }

  function BlocksPerArena(d: nat): (n: nat)
    requires d < DESC_CNT
    ensures n >= 3
  {
    (PGSIZE - ARENA_SIZE) / BlockSize(d)
  }

  /** An arena has as many blocks as fit into a page behind its header. */
  lemma {:induction false} ArenaFull(d: nat, n: nat)
    requires d < DESC_CNT
    ensures n <= BlocksPerArena(d) <==> 12 + n * BlockSize(d) <= 4096
    ensures BlockSize(d) == 16 || (d > 0 && BlockSize(d) == 2 * BlockSize(d - 1))
  {
    match d
    case 0 =>
    case 1 =>
    case 2 =>
    case 3 =>
    case 4 =>
    case 5 =>
    case 6 =>
  }

  /** Bytes taken up by k blocks. */
  function Offset(d: nat, k: nat): (n: nat)
    requires d < DESC_CNT
  {
    if k == 0 then 0 else Offset(d, k - 1) + BlockSize(d)
  }

  lemma {:induction false} OffsetIs(d: nat, k: nat)
    requires d < DESC_CNT
    ensures Offset(d, k) == k * BlockSize(d)
  {
    if k > 0 {
      OffsetIs(d, k - 1);
      assert k * BlockSize(d) == (k - 1) * BlockSize(d) + BlockSize(d);
    }
  }

  /** arena_to_block(): address of the k'th block of the arena at page a. */
  function Block(a: nat, d: nat, k: nat): nat
    requires d < DESC_CNT
  {
    a * PGSIZE + ARENA_SIZE + Offset(d, k)
  }

  /** b is where a block of descriptor d can start. */
  ghost predicate IsBlock(b: nat, d: nat)
    requires d < DESC_CNT
  {
    exists k: nat :: k < BlocksPerArena(d) && b == Block(b / PGSIZE, d, k)
  }

  /** Index of a block in its arena. */
  ghost function Index(b: nat, d: nat): (k: nat)
    requires d < DESC_CNT && IsBlock(b, d)
    ensures k < BlocksPerArena(d) && b == Block(b / PGSIZE, d, k)
  {
    var k: nat :| k < BlocksPerArena(d) && b == Block(b / PGSIZE, d, k);
    k
  }

  /** Different blocks of an arena do not overlap. */
  lemma {:induction false} BlocksApart(a: nat, d: nat, j: nat, k: nat)
    requires d < DESC_CNT && j < k
    ensures Block(a, d, j) + BlockSize(d) <= Block(a, d, k)
  {
    OffsetIs(d, j);
    OffsetIs(d, k);
    assert (j + 1) * BlockSize(d) <= k * BlockSize(d);
    assert (j + 1) * BlockSize(d) == j * BlockSize(d) + BlockSize(d);
  }

  /** A block lies inside its page, after the header. */
  lemma {:induction false} BlockFits(a: nat, d: nat, k: nat)
    requires d < DESC_CNT && k < BlocksPerArena(d)
    ensures Block(a, d, k) / PGSIZE == a && Block(a, d, k) % PGSIZE == ARENA_SIZE + Offset(d, k)
    ensures Block(a, d, k) % PGSIZE + BlockSize(d) <= PGSIZE
  {
    var z := BlockSize(d);
    OffsetIs(d, k);
    assert (k + 1) * z <= BlocksPerArena(d) * z <= PGSIZE - ARENA_SIZE;
    assert (k + 1) * z == k * z + z;
  }

  /** The alignment check of block_to_arena() passes on every block. */
  lemma {:induction false} BlockAligned(b: nat, d: nat)
    requires d < DESC_CNT && IsBlock(b, d)
    ensures b % PGSIZE >= ARENA_SIZE && (b % PGSIZE - ARENA_SIZE) % BlockSize(d) == 0
  {
    var k := Index(b, d);
    BlockFits(b / PGSIZE, d, k);
    OffsetAligned(d, k);
  }

  lemma {:induction false} OffsetAligned(d: nat, k: nat)
    requires d < DESC_CNT
    ensures Offset(d, k) % BlockSize(d) == 0
  {
    if k > 0 {
      OffsetAligned(d, k - 1);
      NextMultiple(Offset(d, k - 1), d);
    }
  }

  lemma {:induction false} NextMultiple(x: nat, d: nat)
    requires d < DESC_CNT && x % BlockSize(d) == 0
    ensures (x + BlockSize(d)) % BlockSize(d) == 0
  {
    match d
    case 0 => assert (x + 16) % 16 == 0;
    case 1 => assert (x + 32) % 32 == 0;
    case 2 => assert (x + 64) % 64 == 0;
    case 3 => assert (x + 128) % 128 == 0;
    case 4 => assert (x + 256) % 256 == 0;
    case 5 => assert (x + 512) % 512 == 0;
    case 6 => assert (x + 1024) % 1024 == 0;
  }

  /** A block can be found again from its address. */
  lemma {:induction false} BlockInPage(a: nat, d: nat, k: nat)
    requires d < DESC_CNT && k < BlocksPerArena(d)
    ensures var b := Block(a, d, k);
            b / PGSIZE == a && IsBlock(b, d) && Index(b, d) == k
  {
    BlockFits(a, d, k);
    var b := Block(a, d, k);
    assert IsBlock(b, d);
    var i := Index(b, d);
    if i < k { BlocksApart(a, d, i, k); } else if k < i { BlocksApart(a, d, k, i); }
  }

  // ----- Arenas and free lists

  datatype Arena = Small(desc: nat, freeCnt: nat) | Big(pageCnt: nat)

  function Span(a: Arena): nat {
    if a.Small? then 1 else a.pageCnt
  }

  /** Indices of the blocks of arena a that are on a free list. */
  ghost function FreeIndices(list: seq<nat>, a: nat, d: nat): set<nat>
    requires d < DESC_CNT
  {
    set k: nat | k < BlocksPerArena(d) && Block(a, d, k) in list
  }

  /** A free list holds blocks of its descriptor's arenas, each once. */
  ghost predicate ListOk(list: seq<nat>, d: nat, arenas: map<nat, Arena>)
    requires d < DESC_CNT
  {
    && NoDup(list)
    && forall b :: b in list ==>
      IsBlock(b, d) && b / PGSIZE in arenas && arenas[b / PGSIZE].Small? && arenas[b / PGSIZE].desc == d
  }

  /** An arena counts the blocks it has on the free list of its descriptor. */
  ghost predicate ArenaOk(a: nat, r: Arena, free: seq<seq<nat>>)
    requires |free| == DESC_CNT
  {
    match r
    case Small(d, n) => d < DESC_CNT && n == |FreeIndices(free[d], a, d)|
    case Big(n) => n > 0
  }

  ghost predicate Consistent(free: seq<seq<nat>>, arenas: map<nat, Arena>) {
    && |free| == DESC_CNT
    && (forall d :: 0 <= d < DESC_CNT ==> ListOk(free[d], d, arenas))
    && (forall a :: a in arenas ==> ArenaOk(a, arenas[a], free))
  }

  /** Between calls, no arena has all its blocks free. */
  ghost predicate NoneIdle(arenas: map<nat, Arena>) {
    forall a :: a in arenas && arenas[a].Small? ==>
      arenas[a].desc < DESC_CNT && arenas[a].freeCnt < BlocksPerArena(arenas[a].desc)
  }

  /** Arenas are used pages of the kernel pool and do not share any. */
  ghost predicate Placed(arenas: map<nat, Arena>, used: set<nat>) {
    && (forall a {:trigger InUse(a, arenas, used)} :: a in arenas ==> InUse(a, arenas, used))
    && (forall a, b {:trigger Separate(a, b, arenas)} :: a in arenas && b in arenas && a != b ==>
          Separate(a, b, arenas))
  }

  ghost predicate InUse(a: nat, arenas: map<nat, Arena>, used: set<nat>) {
    a in arenas && a > 0 && Range(a, Span(arenas[a])) <= used
  }

  ghost predicate Separate(a: nat, b: nat, arenas: map<nat, Arena>) {
    a in arenas && b in arenas ==> Range(a, Span(arenas[a])) !! Range(b, Span(arenas[b]))
  }

  /** p was handed out and not yet given back. */
  ghost predicate Live(free: seq<seq<nat>>, arenas: map<nat, Arena>, p: nat)
    requires |free| == DESC_CNT
  {
    && p / PGSIZE in arenas
    && match arenas[p / PGSIZE]
       case Small(d, _) => d < DESC_CNT && IsBlock(p, d) && p !in free[d]
       case Big(_) => p % PGSIZE == ARENA_SIZE
  }

  /** Bytes that belong to the block at p. */
  ghost function Size(arenas: map<nat, Arena>, p: nat): nat
    requires p / PGSIZE in arenas
  {
    match arenas[p / PGSIZE]
    case Small(d, _) => if d < DESC_CNT then BlockSize(d) else 0
    case Big(n) => if n * PGSIZE >= ARENA_SIZE then n * PGSIZE - ARENA_SIZE else 0
  }

  // ----- What each change of the lists does

  lemma {:induction false} IndicesWithout(list: seq<nat>, b: nat, d: nat)
    requires d < DESC_CNT && b in list && NoDup(list) && list[0] == b && IsBlock(b, d)
    ensures FreeIndices(list[1..], b / PGSIZE, d) == FreeIndices(list, b / PGSIZE, d) - {Index(b, d)}
    ensures Index(b, d) in FreeIndices(list, b / PGSIZE, d)
    ensures forall a: nat :: a != b / PGSIZE ==> FreeIndices(list[1..], a, d) == FreeIndices(list, a, d)
  {
    forall a: nat, k: nat | k < BlocksPerArena(d)
      ensures Block(a, d, k) in list[1..] <==> Block(a, d, k) in list && (a, k) != (b / PGSIZE, Index(b, d))
    {
      BlockInPage(a, d, k);
    }
  }

  /** list_pop_front() of a free list. */
  lemma {:induction false} Pop(free: seq<seq<nat>>, arenas: map<nat, Arena>, d: nat)
    requires Consistent(free, arenas) && d < DESC_CNT && free[d] != []
    ensures var b := free[d][0];
            var a := b / PGSIZE;
            && a in arenas && arenas[a].Small? && arenas[a].desc == d && arenas[a].freeCnt > 0
            && Consistent(free[d := free[d][1..]], arenas[a := Small(d, arenas[a].freeCnt - 1)])
  {
    var b := free[d][0];
    IndicesWithout(free[d], b, d);
  }

  lemma {:induction false} IndicesWith(list: seq<nat>, b: nat, d: nat)
    requires d < DESC_CNT && IsBlock(b, d)
    ensures FreeIndices([b] + list, b / PGSIZE, d) == FreeIndices(list, b / PGSIZE, d) + {Index(b, d)}
    ensures forall a: nat :: a != b / PGSIZE ==> FreeIndices([b] + list, a, d) == FreeIndices(list, a, d)
  {
    forall a: nat, k: nat | k < BlocksPerArena(d)
      ensures Block(a, d, k) in [b] + list <==> Block(a, d, k) in list || (a, k) == (b / PGSIZE, Index(b, d))
    {
      BlockInPage(a, d, k);
    }
  }

  lemma {:induction false} ListWith(list: seq<nat>, b: nat, d: nat, arenas: map<nat, Arena>, n: nat)
    requires d < DESC_CNT && ListOk(list, d, arenas) && b !in list && IsBlock(b, d)
    requires b / PGSIZE in arenas && arenas[b / PGSIZE].Small? && arenas[b / PGSIZE].desc == d
    ensures ListOk([b] + list, d, arenas[b / PGSIZE := Small(d, n)])
  {
  }

  lemma {:induction false} CountWith(free: seq<seq<nat>>, a: nat, r: Arena, b: nat, d: nat, n: nat)
    requires |free| == DESC_CNT && d < DESC_CNT && ArenaOk(a, r, free) && IsBlock(b, d) && b !in free[d]
    requires a == b / PGSIZE ==> r == Small(d, n)
    ensures ArenaOk(a, if a == b / PGSIZE then Small(d, n + 1) else r, free[d := [b] + free[d]])
  {
    IndicesWith(free[d], b, d);
    if a == b / PGSIZE {
      assert Index(b, d) !in FreeIndices(free[d], a, d);
    }
  }

  /** list_push_front() of a block that was handed out. */
  lemma {:induction false} Push(free: seq<seq<nat>>, arenas: map<nat, Arena>, b: nat)
    requires Consistent(free, arenas) && Live(free, arenas, b) && arenas[b / PGSIZE].Small?
    ensures var a := b / PGSIZE;
            var Small(d, n) := arenas[a];
            && Consistent(free[d := [b] + free[d]], arenas[a := Small(d, n + 1)])
  {
    var Small(d, n) := arenas[b / PGSIZE];
    ListWith(free[d], b, d, arenas, n + 1);
    forall a | a in arenas
      ensures ArenaOk(a, if a == b / PGSIZE then Small(d, n + 1) else arenas[a], free[d := [b] + free[d]])
    {
      CountWith(free, a, arenas[a], b, d, n);
    }
  }

  ghost function Below(n: nat): set<nat> {
    Range(0, n)
  }

  lemma {:induction false} BelowSize(n: nat)
    ensures |Below(n)| == n
  {
    if n > 0 {
      BelowSize(n - 1);
      assert Below(n) == Below(n - 1) + {n - 1};
    }
  }

  lemma {:induction false} SubsetSize(s: set<nat>, t: set<nat>)
    requires s <= t
    ensures |s| <= |t|
    ensures |s| == |t| ==> s == t
  {
    assert t == s + (t - s);
  }

  /** The blocks of a new arena, in address order. */
  function Blocks(a: nat, d: nat, n: nat): (s: seq<nat>)
    requires d < DESC_CNT && n <= BlocksPerArena(d)
    ensures |s| == n
    ensures forall k: nat :: k < n ==> s[k] == Block(a, d, k)
  {
    if n == 0 then [] else Blocks(a, d, n - 1) + [Block(a, d, n - 1)]
  }

  lemma {:induction false} BlocksIndices(a: nat, d: nat)
    requires d < DESC_CNT
    ensures NoDup(Blocks(a, d, BlocksPerArena(d)))
    ensures forall b :: b in Blocks(a, d, BlocksPerArena(d)) ==> IsBlock(b, d) && b / PGSIZE == a
    ensures FreeIndices(Blocks(a, d, BlocksPerArena(d)), a, d) == Below(BlocksPerArena(d))
    ensures forall a': nat :: a' != a ==> FreeIndices(Blocks(a, d, BlocksPerArena(d)), a', d) == {}
  {
    var s := Blocks(a, d, BlocksPerArena(d));
    forall a': nat, k: nat | k < BlocksPerArena(d)
      ensures IsBlock(Block(a', d, k), d) && Index(Block(a', d, k), d) == k && Block(a', d, k) / PGSIZE == a'
    {
      BlockInPage(a', d, k);
    }
    assert forall b :: b in s ==> exists k: nat :: k < BlocksPerArena(d) && b == Block(a, d, k);
    assert forall k: nat :: k < BlocksPerArena(d) ==> Index(s[k], d) == k;
    forall k: nat | k < BlocksPerArena(d) ensures Block(a, d, k) in s {
      assert s[k] == Block(a, d, k);
    }
  }

  /** An empty free list is refilled from a new arena. */
  lemma {:induction false} Refill(free: seq<seq<nat>>, arenas: map<nat, Arena>, a: nat, d: nat)
    requires Consistent(free, arenas) && d < DESC_CNT && free[d] == [] && a !in arenas
    ensures Consistent(free[d := Blocks(a, d, BlocksPerArena(d))], arenas[a := Small(d, BlocksPerArena(d))])
  {
    BlocksIndices(a, d);
    BelowSize(BlocksPerArena(d));
    forall a': nat ensures FreeIndices([], a', d) == {} {}
  }

  /** An arena whose count is at its limit has all its blocks on the free list. */
  lemma {:induction false} AllFree(free: seq<seq<nat>>, arenas: map<nat, Arena>, a: nat)
    requires Consistent(free, arenas) && a in arenas && arenas[a].Small?
    ensures arenas[a].freeCnt <= BlocksPerArena(arenas[a].desc)
    ensures arenas[a].freeCnt == BlocksPerArena(arenas[a].desc) <==>
            forall k: nat :: k < BlocksPerArena(arenas[a].desc) ==> Block(a, arenas[a].desc, k) in free[arenas[a].desc]
  {
    var d := arenas[a].desc;
    BelowSize(BlocksPerArena(d));
    SubsetSize(FreeIndices(free[d], a, d), Below(BlocksPerArena(d)));
    if forall k: nat :: k < BlocksPerArena(d) ==> Block(a, d, k) in free[d] {
      assert FreeIndices(free[d], a, d) == Below(BlocksPerArena(d));
    } else {
      var k: nat :| k < BlocksPerArena(d) && Block(a, d, k) !in free[d];
      assert k in Below(BlocksPerArena(d)) && k !in FreeIndices(free[d], a, d);
    }
  }

  // ----- Unlinking the blocks of an idle arena

  /** list holds what was on the list before the first k blocks of arena a were removed. */
  ghost predicate Unlinked(list: seq<nat>, was: seq<nat>, a: nat, d: nat, k: nat)
    requires d < DESC_CNT
  {
    NoDup(list) && forall b :: b in list <==> b in was && !(b / PGSIZE == a && IsBlock(b, d) && Index(b, d) < k)
  }

  lemma {:induction false} UnlinkNext(list: seq<nat>, was: seq<nat>, a: nat, d: nat, k: nat)
    requires d < DESC_CNT && k < BlocksPerArena(d) && Unlinked(list, was, a, d, k)
    requires forall b :: b in was && b / PGSIZE == a ==> IsBlock(b, d)
    requires Block(a, d, k) in was
    ensures Block(a, d, k) in list
    ensures Unlinked(Removed(list, Block(a, d, k)), was, a, d, k + 1)
  {
    BlockInPage(a, d, k);
    RemovedOnce(list, Block(a, d, k));
  }

  /** The arena is gone once its blocks are off the list. */
  lemma {:induction false} Drop(free: seq<seq<nat>>, arenas: map<nat, Arena>, a: nat, list: seq<nat>)
    requires Consistent(free, arenas) && a in arenas && arenas[a].Small?
    requires Unlinked(list, free[arenas[a].desc], a, arenas[a].desc, BlocksPerArena(arenas[a].desc))
    ensures Consistent(free[arenas[a].desc := list], arenas - {a})
  {
    var d := arenas[a].desc;
    forall a': nat | a' != a ensures FreeIndices(list, a', d) == FreeIndices(free[d], a', d) {
      forall k: nat | k < BlocksPerArena(d) ensures Block(a', d, k) in list <==> Block(a', d, k) in free[d] {
        BlockInPage(a', d, k);
      }
    }
  }

  // ----- What callers may rely on

  /** First byte after the block at p. */
  ghost function End(arenas: map<nat, Arena>, p: nat): nat
    requires p / PGSIZE in arenas
  {
    p + Size(arenas, p)
  }

  /** A live block lies inside its arena's pages, after the header. */
  lemma {:induction false} LiveInside(free: seq<seq<nat>>, arenas: map<nat, Arena>, p: nat)
    requires Consistent(free, arenas) && Live(free, arenas, p)
    ensures var a := p / PGSIZE;
            a * PGSIZE + ARENA_SIZE <= p && End(arenas, p) <= (a + Span(arenas[a])) * PGSIZE
  {
    var a := p / PGSIZE;
    if arenas[a].Small? {
      BlockFits(a, arenas[a].desc, Index(p, arenas[a].desc));
    }
  }

  /** Arenas that share no page are apart. */
  lemma {:induction false} ArenasApart(arenas: map<nat, Arena>, used: set<nat>, a: nat, b: nat)
    requires Placed(arenas, used) && a in arenas && b in arenas && a < b && Span(arenas[a]) > 0 && Span(arenas[b]) > 0
    ensures a + Span(arenas[a]) <= b
  {
    assert Separate(a, b, arenas);
    assert b in Range(b, Span(arenas[b]));
    assert b !in Range(a, Span(arenas[a]));
  }

  /** Live blocks overlap neither each other nor any arena header. */
  lemma {:induction false} LiveApart(free: seq<seq<nat>>, arenas: map<nat, Arena>, used: set<nat>, p: nat, q: nat)
    requires Consistent(free, arenas) && Placed(arenas, used)
    requires Live(free, arenas, p) && Live(free, arenas, q) && p < q
    ensures End(arenas, p) <= q
  {
    var a, b := p / PGSIZE, q / PGSIZE;
    LiveInside(free, arenas, p);
    LiveInside(free, arenas, q);
    if a == b {
      var d := arenas[a].desc;
      BlockOrder(p, q, d);
      BlocksApart(a, d, Index(p, d), Index(q, d));
    } else {
      ArenasApart(arenas, used, a, b);
    }
  }

  lemma {:induction false} BlockOrder(p: nat, q: nat, d: nat)
    requires d < DESC_CNT && IsBlock(p, d) && IsBlock(q, d) && p / PGSIZE == q / PGSIZE && p < q
    ensures 0 <= Index(p, d) < Index(q, d)
  {
    if Index(q, d) < Index(p, d) {
      BlocksApart(p / PGSIZE, d, Index(q, d), Index(p, d));
    }
  }

  /** Every arena holds a live block, so with nothing live no page is held. */
  lemma {:induction false} ArenaHasLive(free: seq<seq<nat>>, arenas: map<nat, Arena>, a: nat) returns (p: nat)
    requires Consistent(free, arenas) && NoneIdle(arenas) && a in arenas
    ensures Live(free, arenas, p) && p / PGSIZE == a
  {
    match arenas[a]
    case Small(d, _) =>
      AllFree(free, arenas, a);
      var k: nat :| k < BlocksPerArena(d) && Block(a, d, k) !in free[d];
      BlockInPage(a, d, k);
      p := Block(a, d, k);
    case Big(_) =>
      p := a * PGSIZE + ARENA_SIZE;
  }

  lemma {:induction false} HeadersApart(free: seq<seq<nat>>, arenas: map<nat, Arena>, used: set<nat>, p: nat, b: nat)
    requires Consistent(free, arenas) && Placed(arenas, used)
    requires Live(free, arenas, p) && b in arenas
    ensures End(arenas, p) <= b * PGSIZE || b * PGSIZE + ARENA_SIZE <= p
  {
    var a := p / PGSIZE;
    LiveInside(free, arenas, p);
    if a < b {
      ArenasApart(arenas, used, a, b);
    } else if b < a {
      ArenasApart(arenas, used, b, a);
    }
  }

  /** A free block overlaps no live block. */
  lemma {:induction false} FreeApart(free: seq<seq<nat>>, arenas: map<nat, Arena>, used: set<nat>, d: nat, f: nat,
      p: nat)
    requires Consistent(free, arenas) && Placed(arenas, used)
    requires d < DESC_CNT && f in free[d] && Live(free, arenas, p)
    ensures End(arenas, p) <= f || f + BlockSize(d) <= p
  {
    var a, b := f / PGSIZE, p / PGSIZE;
    LiveInside(free, arenas, p);
    BlockFits(a, d, Index(f, d));
    if a == b {
      if f < p {
        BlockOrder(f, p, d);
        BlocksApart(a, d, Index(f, d), Index(p, d));
      } else {
        BlockOrder(p, f, d);
        BlocksApart(a, d, Index(p, d), Index(f, d));
      }
    } else if a < b {
      ArenasApart(arenas, used, a, b);
    } else {
      ArenasApart(arenas, used, b, a);
    }
  }

  // ----- What the blocks hold

  /** Byte x belongs to the live block at p. */
  ghost predicate InBlock(free: seq<seq<nat>>, arenas: map<nat, Arena>, p: nat, x: nat)
    requires |free| == DESC_CNT
  {
    Live(free, arenas, p) && p <= x < End(arenas, p)
  }

  /** Every live block holds in m what it held in m0. */
  ghost predicate Spared(free: seq<seq<nat>>, arenas: map<nat, Arena>, m0: Memory, m: Memory)
    requires |free| == DESC_CNT
  {
    forall p: nat, x: nat {:trigger InBlock(free, arenas, p, x)} :: InBlock(free, arenas, p, x) ==> m(x) == m0(x)
  }

  /** Only the n bytes from `at` on differ. */
  ghost predicate SameOutside(m0: Memory, m: Memory, at: nat, n: nat) {
    forall x: nat {:trigger m(x)} :: !(at <= x < at + n) ==> m(x) == m0(x)
  }

  /** The n bytes from `at` on are those of junk. */
  function Overwritten(m: Memory, at: nat, n: nat, junk: Memory): Memory {
    (x: nat) => if at <= x < at + n then junk(x) else m(x)
  }

  /** x lies in none of the blocks of a list, which have n bytes. */
  ghost predicate Beside(list: seq<nat>, n: nat, x: nat) {
    forall f :: f in list ==> !(f <= x < f + n)
  }

  /** Only the blocks of a list differ. */
  ghost predicate SameBeside(m0: Memory, m: Memory, list: seq<nat>, n: nat) {
    forall x: nat {:trigger m(x)} :: Beside(list, n, x) ==> m(x) == m0(x)
  }

  /** Writing to the header of an arena spares the live blocks, */
  lemma {:induction false} HeaderSpares(free: seq<seq<nat>>, arenas: map<nat, Arena>, used: set<nat>, a: nat,
      m0: Memory, m: Memory)
    requires Consistent(free, arenas) && Placed(arenas, used) && a in arenas
    requires SameOutside(m0, m, a * PGSIZE, ARENA_SIZE)
    ensures Spared(free, arenas, m0, m)
  {
    forall p: nat, x: nat | InBlock(free, arenas, p, x) ensures m(x) == m0(x) {
      HeadersApart(free, arenas, used, p, a);
    }
  }

  /** and so does writing to free blocks, */
  lemma {:induction false} ListSpares(free: seq<seq<nat>>, arenas: map<nat, Arena>, used: set<nat>, d: nat,
      m0: Memory, m: Memory)
    requires Consistent(free, arenas) && Placed(arenas, used) && d < DESC_CNT
    requires SameBeside(m0, m, free[d], BlockSize(d))
    ensures Spared(free, arenas, m0, m)
  {
    forall p: nat, x: nat | InBlock(free, arenas, p, x) ensures m(x) == m0(x) {
      forall f | f in free[d] ensures !(f <= x < f + BlockSize(d)) { FreeApart(free, arenas, used, d, f, p); }
      assert Beside(free[d], BlockSize(d), x);
    }
  }

  /** and to pages that are not in use. */
  lemma {:induction false} PagesSpare(free: seq<seq<nat>>, arenas: map<nat, Arena>, used: set<nat>, a: nat, n: nat,
      m0: Memory, m: Memory)
    requires Consistent(free, arenas) && Placed(arenas, used) && Range(a, n) !! used
    requires SameOutside(m0, m, a * PGSIZE, n * PGSIZE)
    ensures Spared(free, arenas, m0, m)
  {
    forall p: nat, x: nat | InBlock(free, arenas, p, x) ensures m(x) == m0(x) {
      PageOfByte(free, arenas, used, p, x);
      assert x / PGSIZE !in Range(a, n);
      assert !(a <= x / PGSIZE < a + n);
    }
  }

  /** A byte of a live block lies in a page in use. */
  lemma {:induction false} PageOfByte(free: seq<seq<nat>>, arenas: map<nat, Arena>, used: set<nat>, p: nat, x: nat)
    requires Consistent(free, arenas) && Placed(arenas, used) && InBlock(free, arenas, p, x)
    ensures x / PGSIZE in used
  {
    var a := p / PGSIZE;
    LiveInside(free, arenas, p);
    assert InUse(a, arenas, used);
    assert a <= x / PGSIZE < a + Span(arenas[a]);
    assert x / PGSIZE in Range(a, Span(arenas[a]));
  }

  lemma {:induction false} SparedTwice(free: seq<seq<nat>>, arenas: map<nat, Arena>, m0: Memory, m1: Memory, m2: Memory)
    requires |free| == DESC_CNT && Spared(free, arenas, m0, m1) && Spared(free, arenas, m1, m2)
    ensures Spared(free, arenas, m0, m2)
  {
  }

  /** Blocks that are live in another state too, with their sizes, are spared in it. */
  lemma {:induction false} SparedThere(free: seq<seq<nat>>, arenas: map<nat, Arena>, free': seq<seq<nat>>,
      arenas': map<nat, Arena>, m0: Memory, m: Memory)
    requires |free| == |free'| == DESC_CNT && Spared(free, arenas, m0, m)
    requires forall p: nat :: Live(free', arenas', p) ==>
      Live(free, arenas, p) && SameKind(arenas'[p / PGSIZE], arenas[p / PGSIZE])
    ensures Spared(free', arenas', m0, m)
  {
    forall p: nat, x: nat | InBlock(free', arenas', p, x) ensures m(x) == m0(x) {
      assert InBlock(free, arenas, p, x);
    }
  }

  /** The live blocks are those of an earlier state and p. */
  ghost predicate Gained(free0: seq<seq<nat>>, arenas0: map<nat, Arena>, free: seq<seq<nat>>,
      arenas: map<nat, Arena>, p: nat)
    requires |free0| == |free| == DESC_CNT
  {
    && !Live(free0, arenas0, p) && Live(free, arenas, p)
    && forall q: nat :: q != p ==> (Live(free, arenas, q) <==> Live(free0, arenas0, q))
  }

  ghost predicate SameLive(free0: seq<seq<nat>>, arenas0: map<nat, Arena>, free: seq<seq<nat>>, arenas: map<nat, Arena>)
    requires |free0| == |free| == DESC_CNT
  {
    forall q: nat :: Live(free, arenas, q) <==> Live(free0, arenas0, q)
  }

  lemma {:induction false} PopLive(free: seq<seq<nat>>, arenas: map<nat, Arena>, d: nat)
    requires Consistent(free, arenas) && d < DESC_CNT && free[d] != []
    ensures var b := free[d][0];
            var a := b / PGSIZE;
            && a in arenas && arenas[a].Small? && arenas[a].desc == d && arenas[a].freeCnt > 0
            && Gained(free, arenas, free[d := free[d][1..]], arenas[a := Small(d, arenas[a].freeCnt - 1)], b)
  {
    Pop(free, arenas, d);
  }

  lemma {:induction false} PutBack(free: seq<seq<nat>>, arenas: map<nat, Arena>, b: nat, free': seq<seq<nat>>,
      arenas': map<nat, Arena>)
    requires Consistent(free, arenas) && Live(free, arenas, b) && arenas[b / PGSIZE].Small?
    requires var d := arenas[b / PGSIZE].desc;
             free' == free[d := [b] + free[d]]
               && arenas' == arenas[b / PGSIZE := Small(d, arenas[b / PGSIZE].freeCnt + 1)]
    ensures Consistent(free', arenas') && Gained(free', arenas', free, arenas, b)
  {
    Push(free, arenas, b);
  }

  lemma {:induction false} RefillLive(free: seq<seq<nat>>, arenas: map<nat, Arena>, a: nat, d: nat)
    requires Consistent(free, arenas) && d < DESC_CNT && free[d] == [] && a !in arenas
    ensures SameLive(free, arenas, free[d := Blocks(a, d, BlocksPerArena(d))], arenas[a := Small(d, BlocksPerArena(d))])
  {
    var s := Blocks(a, d, BlocksPerArena(d));
    forall q: nat | q / PGSIZE == a && IsBlock(q, d) ensures q in s {
      assert s[Index(q, d)] == q;
    }
    BlocksIndices(a, d);
  }

  lemma {:induction false} DropLive(free: seq<seq<nat>>, arenas: map<nat, Arena>, a: nat, list: seq<nat>)
    requires Consistent(free, arenas) && a in arenas && arenas[a].Small?
    requires Unlinked(list, free[arenas[a].desc], a, arenas[a].desc, BlocksPerArena(arenas[a].desc))
    requires arenas[a].freeCnt == BlocksPerArena(arenas[a].desc)
    ensures SameLive(free, arenas, free[arenas[a].desc := list], arenas - {a})
  {
    AllFree(free, arenas, a);
  }

  /** A big block is its arena's only block. */
  lemma {:induction false} DropBig(free: seq<seq<nat>>, arenas: map<nat, Arena>, p: nat)
    requires Consistent(free, arenas) && Live(free, arenas, p) && arenas[p / PGSIZE].Big?
    ensures Consistent(free, arenas - {p / PGSIZE})
    ensures Gained(free, arenas - {p / PGSIZE}, free, arenas, p) && LastLive(free, arenas, p)
  {
  }

  /** Pages that a request for size bytes may need from the page allocator; the sum
      wraps around for sizes near the limit of size_t. */
  function PagesFor(size: nat): nat {
    if size <= BlockSize(DESC_CNT - 1) then 1 else (size + ARENA_SIZE + PGSIZE - 1) % SIZE_LIMIT / PGSIZE
  }

  /** The rounding up of a request does not wrap around. */
  predicate Roundable(size: nat) {
    size + ARENA_SIZE + PGSIZE - 1 < SIZE_LIMIT
  }

  /** The pages hold the request and its header if and only if nothing wraps around, and
      are then the fewest that do. */
  lemma {:induction false} PagesHold(size: nat)
    requires BlockSize(DESC_CNT - 1) < size < SIZE_LIMIT
    ensures PagesFor(size) * PGSIZE >= size + ARENA_SIZE <==> Roundable(size)
    ensures Roundable(size) ==> PagesFor(size) > 0 && (PagesFor(size) - 1) * PGSIZE < size + ARENA_SIZE
  {
    if !Roundable(size) {
      assert (size + ARENA_SIZE + PGSIZE - 1) % SIZE_LIMIT == size + ARENA_SIZE + PGSIZE - 1 - SIZE_LIMIT;
    }
  }

  /** A request that wraps around asks for no page at all, and is refused, unless it is
      among the last few sizes, which get one page. */
  lemma {:induction false} WrappedPages(size: nat)
    requires size < SIZE_LIMIT && !Roundable(size)
    ensures PagesFor(size) == if size < 0xffff_fff5 then 0 else 1
  {
    assert (size + ARENA_SIZE + PGSIZE - 1) % SIZE_LIMIT == size + ARENA_SIZE + PGSIZE - 1 - SIZE_LIMIT;
  }

  /** The last size that is refused, and the largest. */
  lemma {:induction false} WrapsAround()
    ensures !Roundable(0xffff_fff4) && PagesFor(0xffff_fff4) == 0
    ensures !Roundable(0xffff_ffff) && PagesFor(0xffff_ffff) == 1
  {
    WrappedPages(0xffff_fff4);
    WrappedPages(0xffff_ffff);
  }

  lemma {:induction false} BigAddress(a: nat)
    ensures (a * PGSIZE + ARENA_SIZE) / PGSIZE == a
  {
  }

  /** Pages that were not in use belong to no arena. */
  lemma {:induction false} PlaceArena(arenas: map<nat, Arena>, used: set<nat>, a: nat, r: Arena)
    requires Placed(arenas, used) && a > 0 && Span(r) > 0 && Range(a, Span(r)) !! used
    requires forall b :: b in arenas ==> Span(arenas[b]) > 0
    ensures a !in arenas
    ensures Placed(arenas[a := r], used + Range(a, Span(r)))
  {
    assert a in Range(a, Span(r));
    forall b | b in arenas ensures b in used && InUse(b, arenas, used) {
      assert InUse(b, arenas, used) && b in Range(b, Span(arenas[b]));
    }
    var arenas', used' := arenas[a := r], used + Range(a, Span(r));
    forall b | b in arenas' ensures InUse(b, arenas', used') { assert b in arenas ==> InUse(b, arenas, used); }
    forall b, c | b in arenas' && c in arenas' && b != c ensures Separate(b, c, arenas') {
      assert b in arenas && c in arenas ==> Separate(b, c, arenas);
      assert b in arenas ==> InUse(b, arenas, used);
      assert c in arenas ==> InUse(c, arenas, used);
    }
  }

  lemma {:induction false} RecountArena(arenas: map<nat, Arena>, used: set<nat>, a: nat, n: nat)
    requires Placed(arenas, used) && a in arenas && arenas[a].Small?
    ensures Placed(arenas[a := Small(arenas[a].desc, n)], used)
  {
    var arenas' := arenas[a := Small(arenas[a].desc, n)];
    forall b | b in arenas' ensures InUse(b, arenas', used) { assert InUse(b, arenas, used); }
    forall b, c | b in arenas' && c in arenas' && b != c ensures Separate(b, c, arenas') {
      assert Separate(b, c, arenas);
    }
  }

  lemma {:induction false} RecountIdle(arenas: map<nat, Arena>, a: nat, n: nat)
    requires NoneIdle(arenas) && a in arenas && arenas[a].Small?
    ensures n < BlocksPerArena(arenas[a].desc) ==> NoneIdle(arenas[a := Small(arenas[a].desc, n)])
    ensures NoneIdle(arenas[a := Small(arenas[a].desc, n)] - {a})
  {
  }

  lemma {:induction false} UnplaceArena(arenas: map<nat, Arena>, used: set<nat>, a: nat)
    requires Placed(arenas, used) && a in arenas
    ensures a > 0 && Range(a, Span(arenas[a])) <= used
    ensures Placed(arenas - {a}, used - Range(a, Span(arenas[a])))
  {
    assert InUse(a, arenas, used);
    var arenas', used' := arenas - {a}, used - Range(a, Span(arenas[a]));
    forall b | b in arenas' ensures InUse(b, arenas', used') {
      assert InUse(b, arenas, used) && Separate(a, b, arenas);
    }
    forall b, c | b in arenas' && c in arenas' && b != c ensures Separate(b, c, arenas') {
      assert Separate(b, c, arenas);
    }
  }

  /** p is the only live block of its arena. */
  ghost predicate LastLive(free: seq<seq<nat>>, arenas: map<nat, Arena>, p: nat)
    requires |free| == DESC_CNT
  {
    forall q: nat :: Live(free, arenas, q) && q / PGSIZE == p / PGSIZE ==> q == p
  }

  /** Every other block of p's arena is on the free list. */
  ghost predicate OthersFree(free: seq<seq<nat>>, p: nat, d: nat)
    requires |free| == DESC_CNT && d < DESC_CNT
  {
    forall k: nat {:trigger Block(p / PGSIZE, d, k)} :: k < BlocksPerArena(d) && Block(p / PGSIZE, d, k) != p ==>
      Block(p / PGSIZE, d, k) in free[d]
  }

  lemma {:induction false} LastIffOthersFree(free: seq<seq<nat>>, arenas: map<nat, Arena>, p: nat)
    requires Consistent(free, arenas) && Live(free, arenas, p) && arenas[p / PGSIZE].Small?
    ensures LastLive(free, arenas, p) <==> OthersFree(free, p, arenas[p / PGSIZE].desc)
  {
    var a := p / PGSIZE;
    var d := arenas[a].desc;
    if OthersFree(free, p, d) {
      forall q: nat | q / PGSIZE == a && Live(free, arenas, q) ensures q == p {
        assert q == Block(a, d, Index(q, d));
      }
    }
    if LastLive(free, arenas, p) {
      forall k: nat | k < BlocksPerArena(d) && Block(a, d, k) != p ensures Block(a, d, k) in free[d] {
        BlockInPage(a, d, k);
        assert !Live(free, arenas, Block(a, d, k));
      }
    }
  }

  /** An arena becomes idle exactly when its last live block is freed. */
  lemma {:induction false} IdleIffLast(free: seq<seq<nat>>, arenas: map<nat, Arena>, p: nat)
    requires Consistent(free, arenas) && Live(free, arenas, p) && arenas[p / PGSIZE].Small?
    ensures arenas[p / PGSIZE].freeCnt + 1 == BlocksPerArena(arenas[p / PGSIZE].desc) <==> LastLive(free, arenas, p)
  {
    var a := p / PGSIZE;
    var d := arenas[a].desc;
    Push(free, arenas, p);
    AllFree(free[d := [p] + free[d]], arenas[a := Small(d, arenas[a].freeCnt + 1)], a);
    LastIffOthersFree(free, arenas, p);
    assert p == Block(a, d, Index(p, d));
  }

  /** Every arena is still there, with blocks of the same size. */
  ghost predicate KindsKept(arenas0: map<nat, Arena>, arenas: map<nat, Arena>) {
    forall a :: a in arenas0 ==> a in arenas && SameKind(arenas0[a], arenas[a])
  }

  predicate SameKind(r: Arena, t: Arena) {
    if r.Small? then t.Small? && t.desc == r.desc else t == r
  }

  /** A big block in new pages. */
  lemma {:induction false} AddBig(free: seq<seq<nat>>, arenas: map<nat, Arena>, used: set<nat>, a: nat, n: nat,
      arenas': map<nat, Arena>)
    requires Consistent(free, arenas) && NoneIdle(arenas) && Placed(arenas, used) && a > 0 && n > 0
    requires Range(a, n) !! used && arenas' == arenas[a := Big(n)]
    ensures a !in arenas && Consistent(free, arenas') && NoneIdle(arenas') && Placed(arenas', used + Range(a, n))
    ensures KindsKept(arenas, arenas') && Gained(free, arenas, free, arenas', a * PGSIZE + ARENA_SIZE)
  {
    PlaceArena(arenas, used, a, Big(n));
    assert (a * PGSIZE + ARENA_SIZE) / PGSIZE == a && (a * PGSIZE + ARENA_SIZE) % PGSIZE == ARENA_SIZE;
  }

  /** An arena of small blocks in a new page. */
  lemma {:induction false} AddSmall(free: seq<seq<nat>>, arenas: map<nat, Arena>, used: set<nat>, a: nat, d: nat,
      free': seq<seq<nat>>, arenas': map<nat, Arena>)
    requires Consistent(free, arenas) && Placed(arenas, used) && a > 0 && Range(a, 1) !! used && d < DESC_CNT
      && free[d] == []
    requires free' == free[d := Blocks(a, d, BlocksPerArena(d))] && arenas' == arenas[a := Small(d, BlocksPerArena(d))]
    ensures a !in arenas && Consistent(free', arenas') && Placed(arenas', used + Range(a, 1))
    ensures KindsKept(arenas, arenas') && SameLive(free, arenas, free', arenas') && free'[d] != []
      && free'[d][0] / PGSIZE == a
  {
    PlaceArena(arenas, used, a, Small(d, BlocksPerArena(d)));
    Refill(free, arenas, a, d);
    RefillLive(free, arenas, a, d);
    BlockInPage(a, d, 0);
  }

  /** a * b in the 32 bits of size_t. */
  function Product(x: nat, y: nat): nat {
    x * y % SIZE_LIMIT
  }

  /** calloc()'s guard that the product fits in size_t. */
  predicate PassesGuard(x: nat, y: nat) {
    Product(x, y) >= x && Product(x, y) >= y
  }

  /** memcpy(): n bytes from `from` on are copied to `to` on. */
  function Copied(m: Memory, to: nat, from: nat, n: nat): Memory {
    (x: nat) => if to <= x < to + n then m(from + (x - to)) else m(x)
  }

  /** The front block of a free list is handed out. */
  lemma {:induction false} PopFront(free: seq<seq<nat>>, arenas: map<nat, Arena>, used: set<nat>, d: nat)
    requires Consistent(free, arenas) && Placed(arenas, used) && d < DESC_CNT && free[d] != []
    ensures var b := free[d][0];
            var a := b / PGSIZE;
            && a in arenas && arenas[a].Small? && arenas[a].desc == d && 0 < arenas[a].freeCnt <= BlocksPerArena(d)
            && var free', arenas' := free[d := free[d][1..]], arenas[a := Small(d, arenas[a].freeCnt - 1)];
            && Consistent(free', arenas') && Placed(arenas', used) && KindsKept(arenas, arenas')
            && Gained(free, arenas, free', arenas', b)
  {
    var a := free[d][0] / PGSIZE;
    Pop(free, arenas, d);
    PopLive(free, arenas, d);
    AllFree(free, arenas, a);
    RecountArena(arenas, used, a, arenas[a].freeCnt - 1);
  }

  /** A block is put back at the front of its free list. */
  lemma {:induction false} PushFront(free: seq<seq<nat>>, arenas: map<nat, Arena>, used: set<nat>, p: nat,
      free': seq<seq<nat>>, arenas': map<nat, Arena>)
    requires Consistent(free, arenas) && Placed(arenas, used) && NoneIdle(arenas) && Live(free, arenas, p)
      && arenas[p / PGSIZE].Small?
    requires var d := arenas[p / PGSIZE].desc;
             free' == free[d := [p] + free[d]]
               && arenas' == arenas[p / PGSIZE := Small(d, arenas[p / PGSIZE].freeCnt + 1)]
    ensures Consistent(free', arenas') && Placed(arenas', used) && Gained(free', arenas', free, arenas, p)
    ensures arenas'[p / PGSIZE].freeCnt <= BlocksPerArena(arenas[p / PGSIZE].desc)
    ensures arenas'[p / PGSIZE].freeCnt < BlocksPerArena(arenas[p / PGSIZE].desc) ==> NoneIdle(arenas')
    ensures NoneIdle(arenas' - {p / PGSIZE})
  {
    var a := p / PGSIZE;
    RecountArena(arenas, used, a, arenas[a].freeCnt + 1);
    RecountIdle(arenas, a, arenas[a].freeCnt + 1);
    PutBack(free, arenas, p, free', arenas');
    AllFree(free', arenas', a);
  }

  lemma {:induction false} NullNotLive(free: seq<seq<nat>>, arenas: map<nat, Arena>, used: set<nat>)
    requires |free| == DESC_CNT && Placed(arenas, used)
    ensures !Live(free, arenas, 0)
  {
    assert 0 in arenas ==> InUse(0, arenas, used);
  }

  /** Every live block but the one at p holds in m what it held in m0. */
  ghost predicate SparedBut(free: seq<seq<nat>>, arenas: map<nat, Arena>, p: nat, m0: Memory, m: Memory)
    requires |free| == DESC_CNT
  {
    forall q: nat, x: nat {:trigger InBlock(free, arenas, q, x)} :: q != p && InBlock(free, arenas, q, x) ==>
      m(x) == m0(x)
  }

  /** Writing inside a live block spares all others. */
  lemma {:induction false} BlockSpares(free: seq<seq<nat>>, arenas: map<nat, Arena>, used: set<nat>, p: nat, n: nat,
      m0: Memory, m: Memory)
    requires Consistent(free, arenas) && Placed(arenas, used) && Live(free, arenas, p) && n <= Size(arenas, p)
    requires SameOutside(m0, m, p, n)
    ensures SparedBut(free, arenas, p, m0, m)
  {
    forall q: nat, x: nat | q != p && InBlock(free, arenas, q, x) ensures m(x) == m0(x) {
      if p < q { LiveApart(free, arenas, used, p, q); } else { LiveApart(free, arenas, used, q, p); }
    }
  }

  /** What was spared before a block was handed out is spared after. */
  lemma {:induction false} SparedLater(free: seq<seq<nat>>, arenas: map<nat, Arena>, free': seq<seq<nat>>,
      arenas': map<nat, Arena>, p: nat, m0: Memory, m: Memory)
    requires |free| == |free'| == DESC_CNT && Gained(free, arenas, free', arenas', p) && KindsKept(arenas, arenas')
    requires Spared(free, arenas, m0, m)
    ensures SparedBut(free', arenas', p, m0, m)
  {
    forall q: nat, x: nat | q != p && InBlock(free', arenas', q, x) ensures m(x) == m0(x) {
      assert InBlock(free, arenas, q, x);
    }
  }

  lemma {:induction false} SparedBefore(free: seq<seq<nat>>, arenas: map<nat, Arena>, free': seq<seq<nat>>,
      arenas': map<nat, Arena>, p: nat, m0: Memory, m1: Memory, m2: Memory)
    requires |free| == |free'| == DESC_CNT && Gained(free, arenas, free', arenas', p) && KindsKept(arenas, arenas')
    requires Spared(free, arenas, m0, m1) && SparedBut(free', arenas', p, m1, m2)
    ensures Spared(free, arenas, m0, m2)
  {
    forall q: nat, x: nat | InBlock(free, arenas, q, x) ensures m2(x) == m0(x) {
      assert InBlock(free', arenas', q, x);
    }
  }

  lemma {:induction false} SparedButTwice(free: seq<seq<nat>>, arenas: map<nat, Arena>, p: nat, m0: Memory,
      m1: Memory, m2: Memory)
    requires |free| == DESC_CNT && SparedBut(free, arenas, p, m0, m1) && SparedBut(free, arenas, p, m1, m2)
    ensures SparedBut(free, arenas, p, m0, m2)
  {
  }

  /** Copying into a block that was handed out spares all others. */
  lemma {:induction false} CopySpares(free0: seq<seq<nat>>, arenas0: map<nat, Arena>, free: seq<seq<nat>>,
      arenas: map<nat, Arena>, used: set<nat>, p: nat, n: nat, m0: Memory, m1: Memory, m2: Memory)
    requires |free0| == DESC_CNT && Consistent(free, arenas) && Placed(arenas, used)
    requires Gained(free0, arenas0, free, arenas, p) && KindsKept(arenas0, arenas) && n <= Size(arenas, p)
    requires Spared(free0, arenas0, m0, m1) && SameOutside(m1, m2, p, n)
    ensures SparedBut(free, arenas, p, m0, m2)
  {
    BlockSpares(free, arenas, used, p, n, m1, m2);
    SparedLater(free0, arenas0, free, arenas, p, m0, m1);
    SparedButTwice(free, arenas, p, m0, m1, m2);
  }

  /** The bytes of a block, as far as there were any, are now at p, up to a new size. */
  ghost predicate Arrived(m0: Memory, oldBlock: nat, oldSize: nat, m: Memory, p: nat, newSize: nat) {
    forall z: nat {:trigger m(z)} :: p <= z < p + newSize && z - p < oldSize ==> m(z) == m0(oldBlock + (z - p))
  }

  /** The bytes of a block that realloc() moves: m0 before, m1 once the new block is
      there, m2 after the copy and m3 after the old block is freed. */
  lemma {:induction false} Moved(free0: seq<seq<nat>>, arenas0: map<nat, Arena>, free1: seq<seq<nat>>,
      arenas1: map<nat, Arena>, free: seq<seq<nat>>, arenas: map<nat, Arena>, oldBlock: nat, p: nat, newSize: nat,
      n: nat, m0: Memory, m1: Memory, m2: Memory, m3: Memory)
    requires |free0| == |free1| == |free| == DESC_CNT
    requires Live(free0, arenas0, oldBlock) && Live(free1, arenas1, oldBlock)
      && Gained(free, arenas, free1, arenas1, oldBlock)
    requires KindsKept(arenas0, arenas1) && KindsKept(arenas, arenas1)
    requires Live(free, arenas, p) && newSize <= Size(arenas, p)
    requires n == if newSize < Size(arenas0, oldBlock) then newSize else Size(arenas0, oldBlock)
    requires Spared(free0, arenas0, m0, m1) && m2 == Copied(m1, p, oldBlock, n)
    requires SparedBut(free1, arenas1, p, m0, m2) && Spared(free, arenas, m2, m3)
    ensures SparedBut(free, arenas, p, m0, m3)
    ensures Arrived(m0, oldBlock, Size(arenas0, oldBlock), m3, p, newSize)
  {
    forall q: nat, x: nat | q != p && InBlock(free, arenas, q, x) ensures m3(x) == m0(x) {
      assert InBlock(free1, arenas1, q, x);
    }
    forall z: nat | p <= z < p + newSize && z - p < Size(arenas0, oldBlock) ensures m3(z) == m0(oldBlock + (z - p)) {
      assert InBlock(free0, arenas0, oldBlock, oldBlock + (z - p));
      assert InBlock(free, arenas, p, z);
    }
  }

  /** calloc()'s block holds the product if and only if that can be rounded up. */
  lemma {:induction false} ProductFits(x: nat, y: nat, size: nat)
    requires size < SIZE_LIMIT && (Product(x, y) <= size <==> Roundable(Product(x, y)))
    ensures x * y <= size <==> Roundable(x * y)
  {
    if x * y < SIZE_LIMIT { assert Product(x, y) == x * y; }
  }

  /** A product that fits is not wrapped around, and so not smaller than its factors. */
  lemma {:induction false} SmallProduct(x: nat, y: nat)
    ensures 0 < x * y < SIZE_LIMIT ==> Product(x, y) == x * y && x <= x * y && y <= x * y
    ensures x * y == 0 ==> Product(x, y) == 0
  {
    if x > 0 && y > 0 {
      assert x * (y - 1) >= 0 && y * (x - 1) >= 0;
      assert x * y == x + x * (y - 1) == y + y * (x - 1);
    }
  }

  /** The guard against overflow lets through products that do not fit. */
  lemma {:induction false} GuardMisses()
    ensures PassesGuard(0x10001, 0x10001) && 0x10001 * 0x10001 >= SIZE_LIMIT && Product(0x10001, 0x10001) == 0x20001
  {
  }

  /** The smallest descriptor with blocks of at least size bytes, if there is one. */
  method FindDesc(size: nat) returns (d: nat)
    ensures d <= DESC_CNT
    ensures d < DESC_CNT <==> size <= BlockSize(DESC_CNT - 1)
    ensures d < DESC_CNT ==> size <= BlockSize(d)
    ensures d < DESC_CNT ==> forall e :: 0 <= e < DESC_CNT && size <= BlockSize(e) ==> BlockSize(d) <= BlockSize(e)
  {
    d := 0;
    while d < DESC_CNT && BlockSize(d) < size
      invariant 0 <= d <= DESC_CNT
      invariant forall e :: 0 <= e < d ==> BlockSize(e) < size
    {
      d := d + 1;
    }
  }

  class Heap {
    const palloc: PageAllocator
    var free: seq<seq<nat>>
    var arenas: map<nat, Arena>

    /** Valid, except that an arena may be idle for a moment. */
    ghost predicate Intact()
      reads this`free, this`arenas, palloc.kernel`history, palloc.kernel.usedMap, palloc.kernel.usedMap.bits,
            palloc.user`history, palloc.user.usedMap, palloc.user.usedMap.bits
    {
      palloc.Valid() && Consistent(free, arenas) && Placed(arenas, palloc.kernel.Used())
    }

    ghost predicate Valid()
      reads this`free, this`arenas, palloc.kernel`history, palloc.kernel.usedMap, palloc.kernel.usedMap.bits,
            palloc.user`history, palloc.user.usedMap, palloc.user.usedMap.bits
    {
      Intact() && NoneIdle(arenas)
    }

    /** malloc_init(). */
    constructor (pages: PageAllocator)
      requires pages.Valid()
      ensures palloc == pages && Valid() && arenas == map[]
    {
      palloc := pages;
      free := [[], [], [], [], [], [], []];
      arenas := map[];
    }

    // ----- The allocator's own writes: headers and links, whose bytes do not matter

    method Scribble(at: nat, n: nat)
      modifies palloc`memory
      ensures SameOutside(old(palloc.memory), palloc.memory, at, n)
    {
      var junk: Memory := *;
      palloc.memory := Overwritten(palloc.memory, at, n, junk);
    }

    method WriteHeader(a: nat)
      requires Intact() && a in arenas
      modifies palloc`memory
      ensures Spared(free, arenas, old(palloc.memory), palloc.memory)
    {
      Scribble(a * PGSIZE, ARENA_SIZE);
      HeaderSpares(free, arenas, palloc.kernel.Used(), a, old(palloc.memory), palloc.memory);
    }

    /** The link of a block on a free list changes. */
    method WriteLink(ghost list: seq<nat>, b: nat, d: nat, ghost m0: Memory)
      requires d < DESC_CNT && b in list && SameBeside(m0, palloc.memory, list, BlockSize(d))
      modifies palloc`memory
      ensures SameBeside(m0, palloc.memory, list, BlockSize(d))
    {
      Scribble(b, LINK_SIZE);
      forall x: nat | Beside(list, BlockSize(d), x) ensures palloc.memory(x) == m0(x) {
        assert old(palloc.memory)(x) == m0(x);
        assert !(b <= x < b + LINK_SIZE);
      }
    }

    // ----- malloc()

    /** Pages for an arena, or 0. */
    method ClaimPages(pageCnt: nat) returns (a: nat)
      requires palloc.Valid()
      modifies palloc`memory, palloc.kernel`history, palloc.kernel.usedMap.bits
      ensures palloc.Valid() && palloc.memory == old(palloc.memory)
      ensures a == 0 ==>
        && (pageCnt == 0 || !HasGroup(palloc.kernel.usedMap.Bits(), pageCnt))
        && palloc.kernel.Used() == old(palloc.kernel.Used())
      ensures a != 0 ==>
        && pageCnt > 0 && Range(a, pageCnt) !! old(palloc.kernel.Used())
        && palloc.kernel.Used() == old(palloc.kernel.Used()) + Range(a, pageCnt)
    {
      var r := palloc.GetMultiple(false, false, false, pageCnt);
      if !r.Pages? { return 0; }
      a := r.address / PGSIZE;
      assert PageOf(r) == Some(a);
    }

    /** An arena of pages for one block. */
    method GetPages(pageCnt: nat) returns (p: nat)
      requires Valid()
      modifies this`arenas, palloc`memory, palloc.kernel`history, palloc.kernel.usedMap.bits
      ensures Valid()
      ensures p == 0 ==> arenas == old(arenas) && palloc.memory == old(palloc.memory)
      ensures p == 0 ==> pageCnt == 0 || !HasGroup(palloc.kernel.usedMap.Bits(), pageCnt)
      ensures p != 0 ==> pageCnt > 0 && p / PGSIZE !in old(arenas) && arenas == old(arenas)[p / PGSIZE := Big(pageCnt)]
      ensures p != 0 ==> KindsKept(old(arenas), arenas) && Gained(free, old(arenas), free, arenas, p)
      ensures palloc.kernel.Used() == old(palloc.kernel.Used()) + if p == 0 then {} else Range(p / PGSIZE, pageCnt)
      ensures Spared(free, old(arenas), old(palloc.memory), palloc.memory)
    {
      ghost var used := palloc.kernel.Used();
      var a := ClaimPages(pageCnt);
      if a == 0 { return 0; }
      arenas := arenas[a := Big(pageCnt)];
      Scribble(a * PGSIZE, ARENA_SIZE);
      AddBig(free, old(arenas), used, a, pageCnt, arenas);
      PagesSpare(free, old(arenas), used, a, pageCnt, old(palloc.memory), palloc.memory);
      p := a * PGSIZE + ARENA_SIZE;
      BigAddress(a);
    }

    /** A block too big for every descriptor gets pages of its own. */
    method GetBig(size: nat) returns (p: nat)
      requires Valid() && BlockSize(DESC_CNT - 1) < size < SIZE_LIMIT
      modifies this`arenas, palloc`memory, palloc.kernel`history, palloc.kernel.usedMap.bits
      ensures Valid()
      ensures p == 0 ==> arenas == old(arenas) && palloc.memory == old(palloc.memory)
      ensures p == 0 ==>
        PagesFor(size) == 0 || !HasGroup(palloc.kernel.usedMap.Bits(), PagesFor(size))
      ensures p != 0 ==>
        PagesFor(size) > 0 && p / PGSIZE !in old(arenas) && arenas == old(arenas)[p / PGSIZE := Big(PagesFor(size))]
      ensures p != 0 ==> KindsKept(old(arenas), arenas) && Gained(free, old(arenas), free, arenas, p)
      ensures palloc.kernel.Used() ==
        old(palloc.kernel.Used()) + if p == 0 then {} else Range(p / PGSIZE, PagesFor(size))
      ensures Spared(free, old(arenas), old(palloc.memory), palloc.memory)
    {
      p := GetPages(PagesFor(size));
    }

    /** All blocks of arena a go on the empty free list, linked to each other. */
    method PushBlocks(a: nat, d: nat)
      requires |free| == DESC_CNT && d < DESC_CNT && free[d] == []
      modifies this`free, palloc`memory
      ensures free == old(free)[d := Blocks(a, d, BlocksPerArena(d))]
      ensures SameOutside(old(palloc.memory), palloc.memory, a * PGSIZE, PGSIZE)
    {
      for i := 0 to BlocksPerArena(d)
        invariant free == old(free)[d := Blocks(a, d, i)]
        invariant SameOutside(old(palloc.memory), palloc.memory, a * PGSIZE, PGSIZE)
      {
        BlockFits(a, d, i);
        Scribble(Block(a, d, i), LINK_SIZE);
        if i > 0 {
          BlockFits(a, d, i - 1);
          Scribble(Block(a, d, i - 1), LINK_SIZE);
        }
        free := free[d := free[d] + [Block(a, d, i)]];
      }
    }

    /** A page becomes an arena. */
    method FormatPage(a: nat, d: nat)
      requires |free| == DESC_CNT && d < DESC_CNT && free[d] == []
      modifies this`free, palloc`memory
      ensures free == old(free)[d := Blocks(a, d, BlocksPerArena(d))]
      ensures SameOutside(old(palloc.memory), palloc.memory, a * PGSIZE, PGSIZE)
    {
      Scribble(a * PGSIZE, ARENA_SIZE);
      PushBlocks(a, d);
    }

    /** A new arena for an empty free list. */
    method NewArena(d: nat) returns (ok: bool)
      requires Valid() && d < DESC_CNT && free[d] == []
      modifies this, palloc`memory, palloc.kernel`history, palloc.kernel.usedMap.bits
      ensures Intact()
      ensures !ok ==> free == old(free) && arenas == old(arenas) && palloc.memory == old(palloc.memory)
      ensures !ok ==> palloc.kernel.Used() == old(palloc.kernel.Used())
      ensures !ok ==> !HasGroup(palloc.kernel.usedMap.Bits(), 1)
      ensures ok ==>
        var b := free[d];
        && b != [] && b[0] / PGSIZE !in old(arenas)
        && free == old(free)[d := b]
        && arenas == old(arenas)[b[0] / PGSIZE := Small(d, BlocksPerArena(d))]
        && palloc.kernel.Used() == old(palloc.kernel.Used()) + Range(b[0] / PGSIZE, 1)
      ensures SameLive(old(free), old(arenas), free, arenas) && KindsKept(old(arenas), arenas)
      ensures Spared(old(free), old(arenas), old(palloc.memory), palloc.memory)
    {
      ghost var used := palloc.kernel.Used();
      var a := ClaimPages(1);
      if a == 0 { return false; }
      arenas := arenas[a := Small(d, BlocksPerArena(d))];
      FormatPage(a, d);
      AddSmall(old(free), old(arenas), used, a, d, free, arenas);
      PagesSpare(old(free), old(arenas), used, a, 1, old(palloc.memory), palloc.memory);
      ok := true;
    }

    /** The front block of a free list is handed out. */
    method TakeFront(d: nat) returns (p: nat)
      requires Intact() && d < DESC_CNT && free[d] != []
      modifies this, palloc`memory
      ensures Intact() && p == old(free)[d][0]
      ensures p / PGSIZE in arenas && arenas[p / PGSIZE].Small? && arenas[p / PGSIZE].desc == d
      ensures arenas == old(arenas)[p / PGSIZE := arenas[p / PGSIZE]] && KindsKept(old(arenas), arenas)
      ensures arenas[p / PGSIZE].freeCnt < BlocksPerArena(d)
      ensures Gained(old(free), old(arenas), free, arenas, p)
      ensures Spared(old(free), old(arenas), old(palloc.memory), palloc.memory)
    {
      p := free[d][0];
      var a := p / PGSIZE;
      PopFront(free, arenas, palloc.kernel.Used(), d);
      UnlinkFront(d);
      free := free[d := free[d][1..]];
      arenas := arenas[a := Small(d, arenas[a].freeCnt - 1)];
    }

    /** The links of the front block's neighbours and the count of its arena change. */
    method UnlinkFront(d: nat)
      requires Intact() && d < DESC_CNT && free[d] != []
      modifies palloc`memory
      ensures Spared(free, arenas, old(palloc.memory), palloc.memory)
    {
      ghost var m0 := palloc.memory;
      if |free[d]| > 1 {
        WriteLink(free[d], free[d][1], d, m0);
      }
      ListSpares(free, arenas, palloc.kernel.Used(), d, m0, palloc.memory);
      ghost var m1 := palloc.memory;
      WriteHeader(free[d][0] / PGSIZE);
      SparedTwice(free, arenas, m0, m1, palloc.memory);
    }

    /** malloc(): 0 stands for the null pointer. */
    method Malloc(size: nat) returns (p: nat)
      requires Valid() && size < SIZE_LIMIT
      modifies this, palloc`memory, palloc.kernel`history, palloc.kernel.usedMap.bits
      ensures Valid()
      ensures p == 0 ==> free == old(free) && arenas == old(arenas) && palloc.kernel.Used() == old(palloc.kernel.Used())
      ensures p == 0 && PagesFor(size) > 0 && size > 0 ==>
        !HasGroup(palloc.kernel.usedMap.Bits(), PagesFor(size))
      ensures p != 0 ==>
        size > 0 && PagesFor(size) > 0 && Gained(old(free), old(arenas), free, arenas, p)
          && KindsKept(old(arenas), arenas)
      ensures p != 0 ==> Size(arenas, p) < SIZE_LIMIT && (size <= Size(arenas, p) <==> Roundable(size))
      ensures p != 0 ==> palloc.kernel.Used() == old(palloc.kernel.Used()) + Range(p / PGSIZE, Span(arenas[p / PGSIZE]))
      ensures p != 0 ==> forall d :: 0 <= d < DESC_CNT && size <= BlockSize(d) ==> Size(arenas, p) <= BlockSize(d)
      ensures Spared(old(free), old(arenas), old(palloc.memory), palloc.memory)
    {
      if size == 0 { return 0; }
      var d := FindDesc(size);
      if d == DESC_CNT {
        PagesHold(size);
        p := GetBig(size);
        return;
      }
      p := GetSmall(d);
    }

    /** A block of descriptor d, from a new arena if none is free. */
    method GetSmall(d: nat) returns (p: nat)
      requires Valid() && d < DESC_CNT
      modifies this, palloc`memory, palloc.kernel`history, palloc.kernel.usedMap.bits
      ensures Valid()
      ensures p == 0 ==> free == old(free) && arenas == old(arenas) && palloc.kernel.Used() == old(palloc.kernel.Used())
      ensures p == 0 ==> !HasGroup(palloc.kernel.usedMap.Bits(), 1)
      ensures p != 0 ==> p / PGSIZE in arenas && arenas[p / PGSIZE].Small? && arenas[p / PGSIZE].desc == d
      ensures p != 0 ==> Gained(old(free), old(arenas), free, arenas, p) && KindsKept(old(arenas), arenas)
      ensures p != 0 ==> palloc.kernel.Used() == old(palloc.kernel.Used()) + Range(p / PGSIZE, 1)
      ensures Spared(old(free), old(arenas), old(palloc.memory), palloc.memory)
    {
      if free[d] == [] {
        var ok := NewArena(d);
        if !ok { return 0; }
      }
      ghost var free1, arenas1, m1 := free, arenas, palloc.memory;
      p := TakeFront(d);
      SparedThere(free1, arenas1, old(free), old(arenas), m1, palloc.memory);
      SparedTwice(old(free), old(arenas), old(palloc.memory), m1, palloc.memory);
      assert InUse(p / PGSIZE, arenas, palloc.kernel.Used());
    }

    // ----- free()

    /** list_remove(): the links of the neighbours change. */
    method UnlinkBlock(b: nat, d: nat, ghost was: seq<nat>, ghost m0: Memory)
      requires |free| == DESC_CNT && d < DESC_CNT && b in free[d]
      requires SameBeside(m0, palloc.memory, was, BlockSize(d)) && forall f :: f in free[d] ==> f in was
      modifies this`free, palloc`memory
      ensures free == old(free)[d := Removed(old(free)[d], b)]
      ensures SameBeside(m0, palloc.memory, was, BlockSize(d))
    {
      var k: nat :| k < |free[d]| && free[d][k] == b;
      if k > 0 { WriteLink(was, free[d][k - 1], d, m0); }
      if k + 1 < |free[d]| { WriteLink(was, free[d][k + 1], d, m0); }
      free := free[d := Removed(free[d], b)];
    }

    /** All blocks of an idle arena leave the free list. */
    method Unlink(a: nat, d: nat)
      requires |free| == DESC_CNT && d < DESC_CNT && NoDup(free[d])
      requires forall b :: b in free[d] ==> IsBlock(b, d)
      requires forall k: nat :: k < BlocksPerArena(d) ==> Block(a, d, k) in free[d]
      modifies this`free, palloc`memory
      ensures |free| == DESC_CNT && free == old(free)[d := free[d]]
      ensures Unlinked(free[d], old(free[d]), a, d, BlocksPerArena(d))
      ensures SameBeside(old(palloc.memory), palloc.memory, old(free[d]), BlockSize(d))
    {
      for i := 0 to BlocksPerArena(d)
        invariant |free| == DESC_CNT && free == old(free)[d := free[d]]
        invariant Unlinked(free[d], old(free[d]), a, d, i)
        invariant SameBeside(old(palloc.memory), palloc.memory, old(free[d]), BlockSize(d))
      {
        UnlinkNext(free[d], old(free[d]), a, d, i);
        UnlinkBlock(Block(a, d, i), d, old(free[d]), old(palloc.memory));
      }
    }

    /** A block is cleared and goes to the front of its free list. */
    method PutFront(p: nat)
      requires Valid() && Live(free, arenas, p) && arenas[p / PGSIZE].Small?
      modifies this, palloc`memory
      ensures Intact() && p / PGSIZE in arenas && arenas[p / PGSIZE].Small?
      ensures var a, d := p / PGSIZE, old(arenas)[p / PGSIZE].desc;
              && arenas == old(arenas)[a := Small(d, old(arenas)[a].freeCnt + 1)]
              && arenas[a].freeCnt <= BlocksPerArena(d)
              && (arenas[a].freeCnt < BlocksPerArena(d) ==> NoneIdle(arenas))
              && NoneIdle(arenas - {a})
      ensures Gained(free, arenas, old(free), old(arenas), p)
      ensures Spared(free, arenas, old(palloc.memory), palloc.memory)
    {
      var a := p / PGSIZE;
      var d := arenas[a].desc;
      free := free[d := [p] + free[d]];
      arenas := arenas[a := Small(d, arenas[a].freeCnt + 1)];
      PushFront(old(free), old(arenas), palloc.kernel.Used(), p, free, arenas);
      LinkFront(p, d);
    }

    /** The block at the front is filled with 0xcc and linked to the next one, and the
        count of its arena changes. */
    method LinkFront(p: nat, d: nat)
      requires Intact() && d < DESC_CNT && free[d] != [] && free[d][0] == p
      modifies palloc`memory
      ensures Spared(free, arenas, old(palloc.memory), palloc.memory)
    {
      palloc.memory := Fill(palloc.memory, p, BlockSize(d), 0xcc);
      WriteLink(free[d], p, d, old(palloc.memory));
      if |free[d]| > 1 { WriteLink(free[d], free[d][1], d, old(palloc.memory)); }
      ListSpares(free, arenas, palloc.kernel.Used(), d, old(palloc.memory), palloc.memory);
      ghost var m1 := palloc.memory;
      WriteHeader(p / PGSIZE);
      SparedTwice(free, arenas, old(palloc.memory), m1, palloc.memory);
    }

    /** free() of a live block, or of the null pointer. */
    method Free(p: nat)
      requires Valid()
      requires p != 0 ==> Live(free, arenas, p)
      modifies this, palloc`memory, palloc.kernel`history, palloc.kernel.usedMap.bits
      ensures Valid()
      ensures p == 0 ==> free == old(free) && arenas == old(arenas) && palloc.kernel.Used() == old(palloc.kernel.Used())
      ensures p != 0 ==> Gained(free, arenas, old(free), old(arenas), p) && KindsKept(arenas, old(arenas))
      ensures p != 0 && !LastLive(old(free), old(arenas), p) ==> palloc.kernel.Used() == old(palloc.kernel.Used())
      ensures p != 0 && LastLive(old(free), old(arenas), p) ==>
        && p / PGSIZE !in arenas
        && palloc.kernel.Used() == old(palloc.kernel.Used()) - Range(p / PGSIZE, Span(old(arenas)[p / PGSIZE]))
      ensures Spared(free, arenas, old(palloc.memory), palloc.memory)
    {
      if p == 0 { return; }
      if arenas[p / PGSIZE].Small? {
        FreeSmall(p);
      } else {
        FreeBig(p);
      }
    }

    method FreeSmall(p: nat)
      requires Valid() && Live(free, arenas, p) && arenas[p / PGSIZE].Small?
      modifies this, palloc`memory, palloc.kernel`history, palloc.kernel.usedMap.bits
      ensures Valid()
      ensures Gained(free, arenas, old(free), old(arenas), p) && KindsKept(arenas, old(arenas))
      ensures !LastLive(old(free), old(arenas), p) ==> palloc.kernel.Used() == old(palloc.kernel.Used())
      ensures LastLive(old(free), old(arenas), p) ==>
        p / PGSIZE !in arenas && palloc.kernel.Used() == old(palloc.kernel.Used()) - Range(p / PGSIZE, 1)
      ensures Spared(free, arenas, old(palloc.memory), palloc.memory)
    {
      var a := p / PGSIZE;
      var Small(d, n) := arenas[a];
      IdleIffLast(free, arenas, p);
      PutFront(p);
      if n + 1 >= BlocksPerArena(d) {
        ghost var free1, arenas1, m1 := free, arenas, palloc.memory;
        ReleaseArena(a);
        SparedThere(free1, arenas1, free, arenas, old(palloc.memory), m1);
        SparedTwice(free, arenas, old(palloc.memory), m1, palloc.memory);
      }
    }

    /** An idle arena leaves the free list and the arenas. */
    method ForgetArena(a: nat)
      requires Consistent(free, arenas) && a in arenas && arenas[a].Small?
      requires arenas[a].freeCnt == BlocksPerArena(arenas[a].desc)
      modifies this, palloc`memory
      ensures Consistent(free, arenas) && arenas == old(arenas) - {a}
      ensures SameLive(old(free), old(arenas), free, arenas)
      ensures SameBeside(old(palloc.memory), palloc.memory, old(free)[old(arenas)[a].desc],
        BlockSize(old(arenas)[a].desc))
    {
      var d := arenas[a].desc;
      AllFree(free, arenas, a);
      Unlink(a, d);
      Drop(old(free), arenas, a, free[d]);
      DropLive(old(free), arenas, a, free[d]);
      arenas := arenas - {a};
    }

    /** The page of an idle arena goes back to the page allocator. */
    method ReleaseArena(a: nat)
      requires Intact() && a in arenas && arenas[a].Small?
      requires arenas[a].freeCnt == BlocksPerArena(arenas[a].desc)
      modifies this, palloc`memory, palloc.kernel`history, palloc.kernel.usedMap.bits
      ensures Intact() && arenas == old(arenas) - {a}
      ensures SameLive(old(free), old(arenas), free, arenas)
      ensures palloc.kernel.Used() == old(palloc.kernel.Used()) - Range(a, 1)
      ensures Spared(free, arenas, old(palloc.memory), palloc.memory)
    {
      ghost var used := palloc.kernel.Used();
      UnplaceArena(arenas, used, a);
      ForgetArena(a);
      ghost var m1 := palloc.memory;
      ListSpares(old(free), old(arenas), used, old(arenas)[a].desc, old(palloc.memory), m1);
      SparedThere(old(free), old(arenas), free, arenas, old(palloc.memory), m1);
      ReleasePages(a, 1);
      SparedTwice(free, arenas, old(palloc.memory), m1, palloc.memory);
    }

    /** Pages that hold no arena any more go back. */
    method ReleasePages(a: nat, n: nat)
      requires palloc.Valid() && a > 0 && n > 0 && Range(a, n) <= palloc.kernel.Used()
      requires Consistent(free, arenas) && Placed(arenas, palloc.kernel.Used() - Range(a, n))
      modifies palloc`memory, palloc.kernel`history, palloc.kernel.usedMap.bits
      ensures Intact() && palloc.kernel.Used() == old(palloc.kernel.Used()) - Range(a, n)
      ensures Spared(free, arenas, old(palloc.memory), palloc.memory)
    {
      assert a * PGSIZE / PGSIZE == a && a * PGSIZE % PGSIZE == 0;
      palloc.FreeMultiple(a * PGSIZE, n, false);
      PagesSpare(free, arenas, palloc.kernel.Used(), a, n, old(palloc.memory), palloc.memory);
    }

    method FreeBig(p: nat)
      requires Valid() && Live(free, arenas, p) && arenas[p / PGSIZE].Big?
      modifies this`arenas, palloc`memory, palloc.kernel`history, palloc.kernel.usedMap.bits
      ensures Valid() && arenas == old(arenas) - {p / PGSIZE}
      ensures Gained(free, arenas, free, old(arenas), p) && LastLive(free, old(arenas), p)
      ensures palloc.kernel.Used() == old(palloc.kernel.Used()) - Range(p / PGSIZE, old(arenas)[p / PGSIZE].pageCnt)
      ensures Spared(free, arenas, old(palloc.memory), palloc.memory)
    {
      var a := p / PGSIZE;
      var n := arenas[a].pageCnt;
      DropBig(free, arenas, p);
      UnplaceArena(arenas, palloc.kernel.Used(), a);
      arenas := arenas - {a};
      ReleasePages(a, n);
    }

    // ----- calloc() and realloc()

    /** calloc() of x times y bytes: the guard against overflow looks at the product only
        after it has wrapped around. */
    method Calloc(x: nat, y: nat) returns (p: nat)
      requires Valid() && x < SIZE_LIMIT && y < SIZE_LIMIT
      modifies this, palloc`memory, palloc.kernel`history, palloc.kernel.usedMap.bits
      ensures Valid()
      ensures p == 0 ==> free == old(free) && arenas == old(arenas)
      ensures p == 0 && 0 < x * y < SIZE_LIMIT ==>
        PagesFor(x * y) == 0 || !HasGroup(palloc.kernel.usedMap.Bits(), PagesFor(x * y))
      ensures p == 0 && x * y >= SIZE_LIMIT && PassesGuard(x, y) ==>
        PagesFor(Product(x, y)) == 0 || !HasGroup(palloc.kernel.usedMap.Bits(), PagesFor(Product(x, y)))
      ensures p != 0 ==> Gained(old(free), old(arenas), free, arenas, p) && x * y > 0 && PassesGuard(x, y)
      ensures p != 0 ==> (x * y <= Size(arenas, p) <==> Roundable(x * y))
      ensures p != 0 ==> forall z: nat :: p <= z < p + Product(x, y) ==> palloc.memory(z) == 0
      ensures Roundable(Product(x, y)) ==> Spared(old(free), old(arenas), old(palloc.memory), palloc.memory)
    {
      var size := Product(x, y);
      SmallProduct(x, y);
      if size < x || size < y { return 0; }
      assert PassesGuard(x, y);
      p := Zeroed(size);
      if p != 0 {
        ProductFits(x, y, Size(arenas, p));
      }
    }

    /** A new block whose first size bytes are zeros. */
    method Zeroed(size: nat) returns (p: nat)
      requires Valid() && size < SIZE_LIMIT
      modifies this, palloc`memory, palloc.kernel`history, palloc.kernel.usedMap.bits
      ensures Valid()
      ensures p == 0 ==> free == old(free) && arenas == old(arenas)
      ensures p == 0 && size > 0 ==>
        PagesFor(size) == 0 || !HasGroup(palloc.kernel.usedMap.Bits(), PagesFor(size))
      ensures p != 0 ==> size > 0 && Gained(old(free), old(arenas), free, arenas, p)
      ensures p != 0 ==> Size(arenas, p) < SIZE_LIMIT && (size <= Size(arenas, p) <==> Roundable(size))
      ensures p != 0 ==> forall z: nat :: p <= z < p + size ==> palloc.memory(z) == 0
      ensures Roundable(size) ==> Spared(old(free), old(arenas), old(palloc.memory), palloc.memory)
    {
      p := Malloc(size);
      if p != 0 {
        ghost var m1 := palloc.memory;
        palloc.memory := Fill(palloc.memory, p, size, 0);
        if Roundable(size) {
          BlockSpares(free, arenas, palloc.kernel.Used(), p, size, m1, palloc.memory);
          SparedBefore(old(free), old(arenas), free, arenas, p, old(palloc.memory), m1, palloc.memory);
        }
      }
    }

    /** block_size() of a live block. */
    method BlockBytes(p: nat) returns (n: nat)
      requires Valid() && Live(free, arenas, p)
      ensures n == Size(arenas, p)
    {
      var a := arenas[p / PGSIZE];
      n := if a.Small? then BlockSize(a.desc) else PGSIZE * a.pageCnt - p % PGSIZE;
    }

    /** realloc(). */
    method Realloc(oldBlock: nat, newSize: nat) returns (p: nat)
      requires Valid() && newSize < SIZE_LIMIT
      requires oldBlock != 0 ==> Live(free, arenas, oldBlock)
      modifies this, palloc`memory, palloc.kernel`history, palloc.kernel.usedMap.bits
      ensures Valid()
      ensures newSize == 0 ==> p == 0 && Spared(free, arenas, old(palloc.memory), palloc.memory)
      ensures newSize == 0 && oldBlock != 0 ==> Gained(free, arenas, old(free), old(arenas), oldBlock)
      ensures newSize > 0 && p == 0 ==>
        free == old(free) && arenas == old(arenas) && Spared(free, arenas, old(palloc.memory), palloc.memory)
      ensures newSize > 0 && p == 0 ==>
        PagesFor(newSize) == 0 || !HasGroup(palloc.kernel.usedMap.Bits(), PagesFor(newSize))
      ensures p != 0 ==> Live(free, arenas, p) && !Live(old(free), old(arenas), p)
      ensures p != 0 ==> (newSize <= Size(arenas, p) <==> Roundable(newSize))
      ensures p != 0 ==> forall q: nat :: q != p ==>
        (Live(free, arenas, q) <==> q != oldBlock && Live(old(free), old(arenas), q))
      ensures p != 0 && Roundable(newSize) ==> SparedBut(free, arenas, p, old(palloc.memory), palloc.memory)
      ensures p != 0 && oldBlock != 0 && Roundable(newSize) ==>
        Arrived(old(palloc.memory), oldBlock, Size(old(arenas), oldBlock), palloc.memory, p, newSize)
    {
      if newSize == 0 {
        Free(oldBlock);
        return 0;
      }
      NullNotLive(free, arenas, palloc.kernel.Used());
      p := Malloc(newSize);
      if oldBlock != 0 && p != 0 {
        Move(oldBlock, p, newSize, old(free), old(arenas), old(palloc.memory));
      } else if p != 0 {
        SparedLater(old(free), old(arenas), free, arenas, p, old(palloc.memory), palloc.memory);
      }
    }

    /** What realloc() does once it has a new block: the old one was live in the
        state free0, arenas0, m0, in which the new one was not. */
    method Move(oldBlock: nat, p: nat, newSize: nat, ghost free0: seq<seq<nat>>, ghost arenas0: map<nat, Arena>,
        ghost m0: Memory)
      requires Valid() && |free0| == DESC_CNT && oldBlock != 0 && p != 0
      requires Gained(free0, arenas0, free, arenas, p) && KindsKept(arenas0, arenas) && Live(free0, arenas0, oldBlock)
      requires Spared(free0, arenas0, m0, palloc.memory) && (newSize <= Size(arenas, p) <==> Roundable(newSize))
      modifies this, palloc`memory, palloc.kernel`history, palloc.kernel.usedMap.bits
      ensures Valid() && Live(free, arenas, p) && (newSize <= Size(arenas, p) <==> Roundable(newSize))
      ensures forall q: nat :: q != p ==> (Live(free, arenas, q) <==> q != oldBlock && Live(free0, arenas0, q))
      ensures Roundable(newSize) ==> SparedBut(free, arenas, p, m0, palloc.memory)
      ensures Roundable(newSize) ==> Arrived(m0, oldBlock, Size(arenas0, oldBlock), palloc.memory, p, newSize)
    {
      ghost var free1, arenas1, m1 := free, arenas, palloc.memory;
      var n := Copy(oldBlock, p, newSize, free0, arenas0, m0);
      ghost var m2 := palloc.memory;
      Free(oldBlock);
      if Roundable(newSize) {
        Moved(free0, arenas0, free1, arenas1, free, arenas, oldBlock, p, newSize, n, m0, m1, m2, palloc.memory);
      }
    }

    /** The memcpy() of realloc(), of n bytes. */
    method Copy(oldBlock: nat, p: nat, newSize: nat, ghost free0: seq<seq<nat>>, ghost arenas0: map<nat, Arena>,
        ghost m0: Memory) returns (n: nat)
      requires Valid() && |free0| == DESC_CNT && Live(free, arenas, oldBlock)
      requires Gained(free0, arenas0, free, arenas, p) && KindsKept(arenas0, arenas)
      requires Spared(free0, arenas0, m0, palloc.memory) && (newSize <= Size(arenas, p) <==> Roundable(newSize))
      modifies palloc`memory
      ensures Valid() && n == if newSize < Size(arenas, oldBlock) then newSize else Size(arenas, oldBlock)
      ensures palloc.memory == Copied(old(palloc.memory), p, oldBlock, n)
      ensures Roundable(newSize) ==> SparedBut(free, arenas, p, m0, palloc.memory)
    {
      var oldSize := BlockBytes(oldBlock);
      n := if newSize < oldSize then newSize else oldSize;
      ghost var m1 := palloc.memory;
      palloc.memory := Copied(palloc.memory, p, oldBlock, n);
      if Roundable(newSize) {
        CopySpares(free0, arenas0, free, arenas, palloc.kernel.Used(), p, n, m0, m1, palloc.memory);
      }
    }
  }
}
