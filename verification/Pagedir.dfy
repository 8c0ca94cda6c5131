/** The two-level page directory of a process (userprog/pagedir.c, threads/pte.h)
    and the flat map from virtual page to entry that it stands for.  User pages come
    first; the pages above them are the kernel's. */
module Pagedir {
  import opened Basics
  import opened Bitmaps

  const TABLE_WORDS: nat := 1024           // PGSIZE / sizeof (uint32_t)
  const TABLES: nat := 1024                // entries of a page directory
  const PAGES: nat := 1048576              // TABLES * TABLE_WORDS
  const USER_TABLES: nat := 768            // pd_no (PHYS_BASE)
  const USER_PAGES: nat := 786432          // USER_TABLES * TABLE_WORDS

  const PTE_ADDR: bv32 := 0xffff_f000
  const PTE_P: bv32 := 0x1
  const PTE_W: bv32 := 0x2
  const PTE_U: bv32 := 0x4
  const PTE_A: bv32 := 0x20
  const PTE_D: bv32 := 0x40

  /** A word of memory, or the address of a page. */
  datatype Word = Word(bits: bv32)

  const ZERO: Word := Word(0)

  // ----- The flat map

  /** What an entry says about a page.  Only `present` entries are in force;
      the other fields outlive it. */
  datatype Entry = Entry(frame: Word, present: bool, writable: bool, user: bool, accessed: bool, dirty: bool)

  /** A zero word. */
  const NO_ENTRY: Entry := Entry(ZERO, false, false, false, false, false)

  /** The entries of all pages whose page table exists. */
  type Flat = map<nat, Entry>

  /** The pages that share a page table with u, all with empty entries. */
  ghost function EmptyTable(u: nat): Flat {
    PagesOfTable(u / TABLE_WORDS * TABLE_WORDS)
  }

  ghost function PagesOfTable(first: nat): Flat {
    map u | u in Range(first, TABLE_WORDS) :: NO_ENTRY
  }

  /** A new page table gives empty entries to all pages it covers. */
  ghost function WithTable(m: Flat, page: nat): Flat {
    if page in m then m else EmptyTable(page) + m
  }

  lemma {:induction false} TableCovers(m: Flat, page: nat)
    ensures page in WithTable(m, page)
  {
    assert page in Range(page / TABLE_WORDS * TABLE_WORDS, TABLE_WORDS);
  }

  ghost function FlatSet(m: Flat, page: nat, frame: Word, writable: bool): Flat {
    WithTable(m, page)[page := Entry(frame, true, writable, true, false, false)]
  }

  function FlatGet(m: Flat, page: nat): Option<Word> {
    if page in m && m[page].present then Some(m[page].frame) else None
  }

  function FlatClear(m: Flat, page: nat): Flat {
    if page in m then m[page := m[page].(present := false)] else m
  }

  function FlatDirty(m: Flat, page: nat): bool {
    page in m && m[page].dirty
  }

  function FlatSetDirty(m: Flat, page: nat, dirty: bool): Flat {
    if page in m then m[page := m[page].(dirty := dirty)] else m
  }

  function FlatAccessed(m: Flat, page: nat): bool {
    page in m && m[page].accessed
  }

  function FlatSetAccessed(m: Flat, page: nat, accessed: bool): Flat {
    if page in m then m[page := m[page].(accessed := accessed)] else m
  }

  /** Changing the entry of one page leaves all others as they were. */
  lemma {:induction false} OnePageOnly(m: Flat, page: nat, other: nat, frame: Word, writable: bool, b: bool)
    requires page != other
    ensures FlatGet(FlatSet(m, page, frame, writable), other) == FlatGet(m, other)
    ensures FlatDirty(FlatSet(m, page, frame, writable), other) == FlatDirty(m, other)
    ensures FlatAccessed(FlatSet(m, page, frame, writable), other) == FlatAccessed(m, other)
    ensures forall r :: r in [FlatClear(m, page), FlatSetDirty(m, page, b), FlatSetAccessed(m, page, b)] ==>
              FlatGet(r, other) == FlatGet(m, other) && FlatDirty(r, other) == FlatDirty(m, other)
                && FlatAccessed(r, other) == FlatAccessed(m, other)
  {
  }

  lemma {:induction false} SetIsGot(m: Flat, page: nat, frame: Word, writable: bool)
    ensures FlatGet(FlatSet(m, page, frame, writable), page) == Some(frame)
  {
  }

  /** Clearing a page hides its frame but not its dirty bit, which eviction reads
      afterwards. */
  lemma {:induction false} ClearKeepsDirty(m: Flat, page: nat)
    ensures FlatGet(FlatClear(m, page), page).None?
    ensures FlatDirty(FlatClear(m, page), page) == FlatDirty(m, page)
    ensures FlatAccessed(FlatClear(m, page), page) == FlatAccessed(m, page)
  {
  }

  // ----- Words

  function Address(w: Word): Word {
    Word(w.bits & PTE_ADDR)
  }

  /** The address of the first byte of a page. */
  predicate PageAligned(w: Word) {
    Address(w) == w
  }

  predicate Flag(w: Word, flag: bv32) {
    w.bits & flag != 0
  }

  function With(w: Word, flag: bv32): Word {
    Word(w.bits | flag)
  }

  function Without(w: Word, flag: bv32): Word {
    Word(w.bits & !flag)
  }

  function Decode(w: Word): Entry {
    Entry(Address(w), Flag(w, PTE_P), Flag(w, PTE_W), Flag(w, PTE_U), Flag(w, PTE_A), Flag(w, PTE_D))
  }

  /** pte_create_user(). */
  function UserPte(frame: Word, writable: bool): Word {
    Word(frame.bits | PTE_P | (if writable then PTE_W else 0) | PTE_U)
  }

  /** pde_create(). */
  function Pde(table: Word): Word {
    Word(table.bits | PTE_U | PTE_P | PTE_W)
  }

  lemma {:induction false} DecodeUserPte(frame: Word, writable: bool)
    requires PageAligned(frame)
    ensures Decode(UserPte(frame, writable)) == Entry(frame, true, writable, true, false, false)
  {
  }

  lemma {:induction false} DecodePde(table: Word)
    requires PageAligned(table)
    ensures Address(Pde(table)) == table && Pde(table) != ZERO
    ensures Flag(Pde(table), PTE_P) && Flag(Pde(table), PTE_U) && Flag(Pde(table), PTE_W)
  {
  }

  lemma {:induction false} DecodeClear(w: Word)
    ensures Decode(Without(w, PTE_P)) == Decode(w).(present := false)
  {
  }

  lemma {:induction false} DecodeDirty(w: Word)
    ensures Decode(With(w, PTE_D)) == Decode(w).(dirty := true)
    ensures Decode(Without(w, PTE_D)) == Decode(w).(dirty := false)
  {
  }

  lemma {:induction false} DecodeAccessed(w: Word)
    ensures Decode(With(w, PTE_A)) == Decode(w).(accessed := true)
    ensures Decode(Without(w, PTE_A)) == Decode(w).(accessed := false)
  {
  }

  lemma {:induction false} DecodeZero()
    ensures Decode(ZERO) == NO_ENTRY
  {
  }

  // ----- The two levels

  /** Word `index` of the page table at physical address `table`. */
  datatype PtePointer = PtePointer(table: Word, index: nat)

  /** The page table a directory entry points to. */
  function Root(pde: Word): Option<Word> {
    if pde == ZERO then None else Some(Address(pde))
  }

  /** Every table pointed to exists, and no two entries share one. */
  ghost predicate Wired<A, W>(roots: seq<Option<A>>, tables: map<A, seq<W>>) {
    && |roots| == TABLES
    && (forall i :: 0 <= i < |roots| && roots[i].Some? ==>
          roots[i].value in tables && |tables[roots[i].value]| == TABLE_WORDS)
    && (forall i, j :: 0 <= i < j < |roots| && roots[i].Some? && roots[j].Some? ==> roots[i] != roots[j])
  }

  /** The words of all page tables, by page. */
  ghost function Words<A, W>(roots: seq<Option<A>>, tables: map<A, seq<W>>): map<nat, W>
    requires Wired(roots, tables)
  {
    map u: nat | u < PAGES && roots[u / TABLE_WORDS].Some? :: tables[roots[u / TABLE_WORDS].value][u % TABLE_WORDS]
  }

  lemma {:induction false} WordAt<A, W>(roots: seq<Option<A>>, tables: map<A, seq<W>>, page: nat, t: A)
    requires Wired(roots, tables) && page < PAGES && roots[page / TABLE_WORDS] == Some(t)
    ensures t in tables && |tables[t]| == TABLE_WORDS
    ensures page in Words(roots, tables) && Words(roots, tables)[page] == tables[t][page % TABLE_WORDS]
  {
  }

  lemma {:induction false} StoreWord<A, W>(roots: seq<Option<A>>, tables: map<A, seq<W>>, page: nat, w: W)
    requires Wired(roots, tables) && page < PAGES && roots[page / TABLE_WORDS].Some?
    ensures var t := roots[page / TABLE_WORDS].value;
            var tables' := tables[t := tables[t][page % TABLE_WORDS := w]];
            && Wired(roots, tables')
            && Words(roots, tables') == Words(roots, tables)[page := w]
  {
  }

  lemma {:induction false} AddRoot<A, W>(roots: seq<Option<A>>, tables: map<A, seq<W>>, i: nat, t: A, zeros: seq<W>)
    requires Wired(roots, tables) && i < |roots| && roots[i].None? && t !in tables && |zeros| == TABLE_WORDS
    ensures Wired(roots[i := Some(t)], tables[t := zeros])
    ensures forall j :: 0 <= j < |roots| && roots[j].Some? ==> roots[j].value != t
  {
  }

  /** The pages that entry i of a directory stands for. */
  lemma {:induction false} PagesOf(i: nat)
    ensures forall u: nat :: u in Range(i * TABLE_WORDS, TABLE_WORDS) <==> u / TABLE_WORDS == i
  {
    forall u: nat ensures u in Range(i * TABLE_WORDS, TABLE_WORDS) <==> u / TABLE_WORDS == i {
      assert u == TABLE_WORDS * (u / TABLE_WORDS) + u % TABLE_WORDS;
    }
  }

  lemma {:induction false} AddTable<A, W>(roots: seq<Option<A>>, tables: map<A, seq<W>>, page: nat, t: A, zeros: seq<W>)
    requires Wired(roots, tables) && page < PAGES && roots[page / TABLE_WORDS].None?
    requires t !in tables && |zeros| == TABLE_WORDS
    ensures var roots', tables' := roots[page / TABLE_WORDS := Some(t)], tables[t := zeros];
            && Wired(roots', tables')
            && Words(roots', tables').Keys ==
                 Words(roots, tables).Keys + Range(page / TABLE_WORDS * TABLE_WORDS, TABLE_WORDS)
            && (forall u :: u in Words(roots, tables) ==> Words(roots', tables')[u] == Words(roots, tables)[u])
            && (forall u :: u in Range(page / TABLE_WORDS * TABLE_WORDS, TABLE_WORDS) ==>
                  u !in Words(roots, tables) && Words(roots', tables')[u] == zeros[u % TABLE_WORDS])
  {
    var i := page / TABLE_WORDS;
    AddRoot(roots, tables, i, t, zeros);
    PagesOf(i);
  }

  /** The flat map of a two-level page directory. */
  ghost function FlatView(words: map<nat, Word>): Flat {
    map u | u in words :: Decode(words[u])
  }

  ghost function Roots(pd: seq<Word>): (r: seq<Option<Word>>)
    ensures |r| == |pd|
  {
    if pd == [] then [] else Roots(pd[..|pd| - 1]) + [Root(pd[|pd| - 1])]
  }

  lemma {:induction false} RootAt(pd: seq<Word>, i: nat)
    requires i < |pd|
    ensures Roots(pd)[i] == Root(pd[i])
  {
    if i < |pd| - 1 { RootAt(pd[..|pd| - 1], i); }
  }

  lemma {:induction false} RootsUpdate(pd: seq<Word>, i: nat, w: Word)
    requires i < |pd|
    ensures Roots(pd[i := w]) == Roots(pd)[i := Root(w)]
  {
    var r, r' := Roots(pd)[i := Root(w)], Roots(pd[i := w]);
    forall k: nat | k < |pd| ensures r'[k] == r[k] {
      RootAt(pd[i := w], k);
      RootAt(pd, k);
    }
  }

  /** A directory like init_page_dir, all of whose mappings are the kernel's. */
  predicate KernelOnly(pd: seq<Word>) {
    |pd| == TABLES && forall i :: 0 <= i < USER_TABLES ==> pd[i] == ZERO
  }

  lemma {:induction false} NoUserRoots(pd: seq<Word>)
    requires KernelOnly(pd)
    ensures forall i :: 0 <= i < USER_TABLES ==> Roots(pd)[i].None?
  {
    forall i: nat | i < USER_TABLES ensures Roots(pd)[i].None? { RootAt(pd, i); }
  }

  lemma {:induction false} FlatWithTable(m: map<nat, Word>, m': map<nat, Word>, page: nat, first: nat)
    requires first == page / TABLE_WORDS * TABLE_WORDS && page !in m
    requires m'.Keys == m.Keys + Range(first, TABLE_WORDS)
    requires forall u :: u in m ==> m'[u] == m[u]
    requires forall u :: u in Range(first, TABLE_WORDS) ==> m'[u] == ZERO
    ensures FlatView(m') == WithTable(FlatView(m), page)
  {
    DecodeZero();
  }

  /** AddTable for the flat map. */
  lemma {:induction false} AddEmptyTable(roots: seq<Option<Word>>, tables: map<Word, seq<Word>>, page: nat, t: Word,
      zeros: seq<Word>)
    requires Wired(roots, tables) && page < PAGES && roots[page / TABLE_WORDS].None?
    requires t !in tables && |zeros| == TABLE_WORDS && forall i :: 0 <= i < |zeros| ==> zeros[i] == ZERO
    ensures var roots', tables' := roots[page / TABLE_WORDS := Some(t)], tables[t := zeros];
            && Wired(roots', tables')
            && FlatView(Words(roots', tables')) == WithTable(FlatView(Words(roots, tables)), page)
  {
    AddTable(roots, tables, page, t, zeros);
    FlatWithTable(Words(roots, tables), Words(roots[page / TABLE_WORDS := Some(t)], tables[t := zeros]),
                  page, page / TABLE_WORDS * TABLE_WORDS);
  }

  /** What pde_create() makes of a page table: pde_get_pt() asserts that it is present,
      and it permits all that the page table does. */
  predicate PdeOk(w: Word) {
    w == ZERO || (Flag(w, PTE_P) && Flag(w, PTE_U) && Flag(w, PTE_W))
  }

  // ----- The processor

  /** What the processor checks of an entry, of either level, on an access by user code. */
  predicate Permits(w: Word, write: bool) {
    w.bits & 0x1 != 0 && w.bits & 0x4 != 0 && (write ==> w.bits & 0x2 != 0)
  }

  function Base(w: Word): Word {
    Word(w.bits & 0xffff_f000)
  }

  /** The frame that an access by user code reaches; otherwise it faults. */
  ghost function Translate(pd: seq<Word>, tables: map<Word, seq<Word>>, page: nat, write: bool): Option<Word> {
    if page / 1024 >= |pd| || !Permits(pd[page / 1024], write) then None
    else
      var t := Base(pd[page / 1024]);
      if t !in tables || page % 1024 >= |tables[t]| || !Permits(tables[t][page % 1024], write) then None
      else Some(Base(tables[t][page % 1024]))
  }

  /** The frame that the flat map gives to user code. */
  function FlatUser(m: Flat, page: nat, write: bool): Option<Word> {
    if page in m && m[page].present && m[page].user && (write ==> m[page].writable) then Some(m[page].frame) else None
  }

  /** The bits of an entry, as the processor has them. */
  lemma {:induction false} DecodeMeans(w: Word)
    ensures Decode(w) == Entry(Base(w), w.bits & 0x1 != 0, w.bits & 0x2 != 0, w.bits & 0x4 != 0,
                               w.bits & 0x20 != 0, w.bits & 0x40 != 0)
  {
  }

  lemma {:induction false} DecodePermits(w: Word, write: bool)
    ensures Permits(w, write) <==> Decode(w).present && Decode(w).user && (write ==> Decode(w).writable)
    ensures Base(w) == Decode(w).frame == Address(w)
  {
  }

  lemma {:induction false} PdePermits(w: Word, write: bool)
    requires PdeOk(w)
    ensures Permits(w, write) <==> w != ZERO
  {
  }

  /** The processor sees what the flat map says. */
  lemma {:induction false} TranslateIs(pd: seq<Word>, tables: map<Word, seq<Word>>, page: nat, write: bool)
    requires Wired(Roots(pd), tables) && (forall i :: 0 <= i < |pd| ==> PdeOk(pd[i])) && page < PAGES
    ensures Translate(pd, tables, page, write) == FlatUser(FlatView(Words(Roots(pd), tables)), page, write)
  {
    var e := pd[page / TABLE_WORDS];
    RootAt(pd, page / TABLE_WORDS);
    PdePermits(e, write);
    DecodePermits(e, write);
    if e != ZERO {
      WordAt(Roots(pd), tables, page, Address(e));
      DecodePermits(tables[Address(e)][page % TABLE_WORDS], write);
    }
  }

  /** Byte `offset` of the page at frame. */
  datatype Location = Location(frame: Word, offset: nat)

  // ----- Directories that share the kernel's page tables

  /** No entry of the directory points to that page table. */
  ghost predicate NoneOf<A>(t: Option<A>, q: seq<Option<A>>) {
    t.Some? ==> forall j :: 0 <= j < |q| ==> q[j] != t
  }

  /** Two directories have the same entries for the kernel and no page table in common
      for users. */
  ghost predicate Siblings<A>(r: seq<Option<A>>, q: seq<Option<A>>) {
    && |r| == TABLES == |q|
    && (forall i :: USER_TABLES <= i < TABLES ==> r[i] == q[i])
    && (forall i {:trigger NoneOf(r[i], q)} :: 0 <= i < USER_TABLES ==> NoneOf(r[i], q))
    && (forall i {:trigger NoneOf(q[i], r)} :: 0 <= i < USER_TABLES ==> NoneOf(q[i], r))
  }

  lemma {:induction false} SiblingsBack<A>(r: seq<Option<A>>, q: seq<Option<A>>)
    requires Siblings(q, r)
    ensures Siblings(r, q)
  {
  }

  /** A directory without page tables for users is its own sibling. */
  lemma {:induction false} KernelSiblings<A, W>(r: seq<Option<A>>, tables: map<A, seq<W>>)
    requires Wired(r, tables) && forall i :: 0 <= i < USER_TABLES ==> r[i].None?
    ensures Siblings(r, r)
    ensures forall u :: 0 <= u < USER_PAGES ==> u !in Words(r, tables)
  {
    forall u: nat | u < USER_PAGES ensures u !in Words(r, tables) { assert r[u / TABLE_WORDS].None?; }
  }

  /** At most the table at t changed. */
  ghost predicate Only<A, W>(t: Option<A>, tables: map<A, seq<W>>, tables': map<A, seq<W>>) {
    forall x :: x in tables && t != Some(x) ==> x in tables' && tables'[x] == tables[x]
  }

  /** What is not wired to a directory does not matter to it. */
  lemma {:induction false} Unseen<A, W>(q: seq<Option<A>>, t: Option<A>, tables: map<A, seq<W>>,
      tables': map<A, seq<W>>)
    requires Wired(q, tables) && Only(t, tables, tables')
    requires NoneOf(t, q)
    ensures Wired(q, tables') && Words(q, tables') == Words(q, tables)
  {
    assert forall j :: 0 <= j < |q| && q[j].Some? ==>
             q[j].value in tables && q[j].value in tables' && tables'[q[j].value] == tables[q[j].value];
  }

  lemma {:induction false} UnseenFlat(q: seq<Option<Word>>, t: Option<Word>, tables: map<Word, seq<Word>>,
      tables': map<Word, seq<Word>>)
    requires Wired(q, tables) && Only(t, tables, tables') && NoneOf(t, q)
    ensures Wired(q, tables') && FlatView(Words(q, tables')) == FlatView(Words(q, tables))
  {
    Unseen(q, t, tables, tables');
    var m, m' := Words(q, tables), Words(q, tables');
    assert m' == m;
    assert FlatView(m') == FlatView(m);
  }

  /** Pages of one page table have the same entries in m and n, and in m' and n'; any
      other has the same in n and n'. */
  ghost predicate AlikeAt<T>(u: nat, table: nat, m: map<nat, T>, m': map<nat, T>, n: map<nat, T>, n': map<nat, T>) {
    if u / TABLE_WORDS == table
    then (if u in m then u in n && n[u] == m[u] else u !in n)
      && (if u in m' then u in n' && n'[u] == m'[u] else u !in n')
    else if u in n then u in n' && n'[u] == n[u] else u !in n'
  }

  ghost predicate Alike<T>(table: nat, m: map<nat, T>, m': map<nat, T>, n: map<nat, T>, n': map<nat, T>) {
    forall u {:trigger AlikeAt(u, table, m, m', n, n')} :: AlikeAt(u, table, m, m', n, n')
  }

  lemma {:induction false} StillWired<A, W>(r: seq<Option<A>>, q: seq<Option<A>>, i: nat, tables: map<A, seq<W>>,
      tables': map<A, seq<W>>)
    requires Wired(r, tables) && Wired(q, tables) && Wired(r, tables')
    requires i < TABLES && r[i] == q[i] && Only(r[i], tables, tables')
    ensures Wired(q, tables')
    ensures forall j :: 0 <= j < TABLES && j != i && q[j].Some? ==>
              q[j].value in tables && q[j].value in tables' && tables'[q[j].value] == tables[q[j].value]
  {
    assert forall j :: 0 <= j < |q| && j != i && q[j].Some? ==> q[j].value in tables && q[j] != q[i];
  }

  /** A change of a table that two directories share is a change of both. */
  lemma {:induction false} Seen<A, W>(r: seq<Option<A>>, q: seq<Option<A>>, i: nat, tables: map<A, seq<W>>,
      tables': map<A, seq<W>>)
    requires Wired(r, tables) && Wired(q, tables) && Wired(r, tables')
    requires i < TABLES && r[i] == q[i] && Only(r[i], tables, tables')
    ensures Wired(q, tables')
    ensures Alike(i, Words(r, tables), Words(r, tables'), Words(q, tables), Words(q, tables'))
  {
    StillWired(r, q, i, tables, tables');
    forall u: nat ensures AlikeAt(u, i, Words(r, tables), Words(r, tables'), Words(q, tables), Words(q, tables')) {
      if u < PAGES && q[u / TABLE_WORDS].Some? {
        WordAt(q, tables, u, q[u / TABLE_WORDS].value);
        WordAt(q, tables', u, q[u / TABLE_WORDS].value);
      }
    }
  }

  /** The flat map with a new entry for a page, if that has a page table. */
  ghost function Changed<T>(m: map<nat, T>, page: nat, entry: T): map<nat, T> {
    if page in m then m[page := entry] else m
  }

  lemma {:induction false} ChangedAlike<T>(m: map<nat, T>, m': map<nat, T>, n: map<nat, T>, n': map<nat, T>,
      page: nat, entry: T)
    requires Alike(page / TABLE_WORDS, m, m', n, n') && m' == Changed(m, page, entry)
    ensures n' == Changed(n, page, entry) && (page in n <==> page in m) && (page in n ==> n[page] == m[page])
  {
    assert AlikeAt(page, page / TABLE_WORDS, m, m', n, n');
    forall u: nat ensures (u in n' <==> u in n) && (u in n ==> n'[u] == Changed(n, page, entry)[u]) {
      assert AlikeAt(u, page / TABLE_WORDS, m, m', n, n');
    }
  }

  lemma {:induction false} FlatAlike(table: nat, m: map<nat, Word>, m': map<nat, Word>, n: map<nat, Word>,
      n': map<nat, Word>)
    requires Alike(table, m, m', n, n')
    ensures Alike(table, FlatView(m), FlatView(m'), FlatView(n), FlatView(n'))
  {
    forall u: nat ensures AlikeAt(u, table, FlatView(m), FlatView(m'), FlatView(n), FlatView(n')) {
      assert AlikeAt(u, table, m, m', n, n');
    }
  }

  /** The memory that holds the page tables of all directories. */
  class PageTables {
    var tables: map<Word, seq<Word>>       // by physical address

    constructor ()
      ensures tables == map[]
    {
      tables := map[];
    }
  }

  class PageDirectory {
    const pd: array<Word>
    const memory: PageTables

    ghost predicate Valid()
      reads memory, pd
    {
      Wired(Roots(pd[..]), memory.tables) && forall i :: 0 <= i < pd.Length ==> PdeOk(pd[i])
    }

    ghost function View(): Flat
      requires Valid()
      reads memory, pd
    {
      FlatView(Words(Roots(pd[..]), memory.tables))
    }

    /** The frame that user code reaches through this directory. */
    ghost function Reaches(page: nat, write: bool): Option<Word>
      reads memory, pd
    {
      Translate(pd[..], memory.tables, page, write)
    }

    lemma {:induction false} ReachesIs(page: nat)
      requires Valid() && page < PAGES
      ensures forall write :: Reaches(page, write) == FlatUser(View(), page, write)
    {
      TranslateIs(pd[..], memory.tables, page, true);
      TranslateIs(pd[..], memory.tables, page, false);
    }

    /** The page table of a page, if there is one. */
    ghost function TableOf(page: nat): Option<Word>
      requires pd.Length == TABLES && page < PAGES
      reads pd
    {
      Roots(pd[..])[page / TABLE_WORDS]
    }

    /** Another directory in the same memory. */
    ghost predicate Beside(e: PageDirectory)
      reads pd, e.pd
    {
      memory == e.memory && pd != e.pd && Siblings(Roots(pd[..]), Roots(e.pd[..]))
    }

    /** A copy of another directory's entries. */
    constructor (init: array<Word>, memory: PageTables)
      ensures this.memory == memory && fresh(pd) && pd[..] == init[..]
    {
      pd := new Word[init.Length](i requires 0 <= i < init.Length reads init => init[i]);
      this.memory := memory;
      new;
      assert pd[..] == init[..];
    }

    /** pagedir_create(), given whether there is a page for it: the kernel's entries of
        init_page_dir are copied, not its page tables. */
    static method Create(init: PageDirectory, page: bool) returns (r: Option<PageDirectory>)
      requires init.Valid() && KernelOnly(init.pd[..])
      ensures r.Some? <==> page
      ensures r.Some? ==>
        && fresh(r.value) && fresh(r.value.pd) && r.value.Valid() && r.value.View() == init.View()
        && r.value.Beside(init) && (forall u :: 0 <= u < USER_PAGES ==> u !in r.value.View())
        && (forall e: PageDirectory :: old(allocated(e)) && e.Beside(init) ==> r.value.Beside(e))
    {
      if !page { return None; }
      ghost var roots := Roots(init.pd[..]);
      NoUserRoots(init.pd[..]);
      KernelSiblings(roots, init.memory.tables);
      var d := new PageDirectory(init.pd, init.memory);
      assert Roots(d.pd[..]) == roots;
      r := Some(d);
      forall e: PageDirectory | old(allocated(e)) && e.Beside(init) ensures d.Beside(e) {
        SiblingsBack(roots, Roots(e.pd[..]));
      }
    }

    /** A zeroed page becomes the page table of upage. */
    method NewTable(upage: nat, page: Word)
      requires Valid() && upage < PAGES && TableOf(upage).None?
      requires PageAligned(page) && page !in memory.tables
      modifies memory, pd
      ensures Valid() && View() == WithTable(old(View()), upage)
      ensures pd[..] == old(pd[..])[upage / TABLE_WORDS := Pde(page)] && TableOf(upage) == Some(page)
      ensures Only(Some(page), old(memory.tables), memory.tables)
        && memory.tables.Keys == old(memory.tables.Keys) + {page}
    {
      var i := upage / TABLE_WORDS;
      var zeros := seq(TABLE_WORDS, _ => ZERO);
      AddEmptyTable(Roots(pd[..]), memory.tables, upage, page, zeros);
      DecodePde(page);
      ghost var was := pd[..];
      RootsUpdate(was, i, Pde(page));
      pd[i] := Pde(page);
      memory.tables := memory.tables[page := zeros];
      assert pd[..] == was[i := Pde(page)];
    }

    /** The directory is as it was, or one entry that was empty has a new page table. */
    ghost predicate GainsTable(was: seq<Word>, page: nat, table: Option<Word>)
      requires page < PAGES
      reads pd
    {
      var i := page / TABLE_WORDS;
      pd[..] == was || (i < |was| && was[i] == ZERO && table.Some? && pd[..] == was[i := Pde(table.value)])
    }

    /** lookup_page(): `page` is what palloc_get_page() returns if it is called,
        a page that is in use for nothing else. */
    method LookupPage(upage: nat, create: bool, page: Option<Word>) returns (r: Option<PtePointer>)
      requires Valid() && upage < PAGES && (create ==> upage < USER_PAGES)
      requires page.Some? ==> PageAligned(page.value) && page.value !in memory.tables
      modifies memory, pd
      ensures Valid()
      ensures View() == if create && page.Some? then WithTable(old(View()), upage) else old(View())
      ensures Only(TableOf(upage), old(memory.tables), memory.tables) && GainsTable(old(pd[..]), upage, page)
      ensures forall t :: t in memory.tables && t !in old(memory.tables) ==> page == Some(t)
      ensures !create ==> memory.tables == old(memory.tables) && pd[..] == old(pd[..])
      ensures r.Some? <==> upage in View()
      ensures r.Some? ==> Points(r.value, upage)
    {
      var i := upage / TABLE_WORDS;
      RootAt(pd[..], i);
      if pd[i] == ZERO {
        if !create || page.None? { return None; }
        NewTable(upage, page.value);
        RootAt(pd[..], i);
      }
      assert Flag(pd[i], PTE_P);           // pde_get_pt()
      r := Some(PtePointer(Address(pd[i]), upage % TABLE_WORDS));
    }

    /** p points to the entry of upage. */
    ghost predicate Points(p: PtePointer, upage: nat)
      requires Valid() && upage < PAGES
      reads memory, pd
    {
      p.index == upage % TABLE_WORDS && TableOf(upage) == Some(p.table)
    }

    function Load(p: PtePointer): Word
      requires p.table in memory.tables && p.index < |memory.tables[p.table]|
      reads memory
    {
      memory.tables[p.table][p.index]
    }

    lemma {:induction false} LoadIs(p: PtePointer, upage: nat)
      requires Valid() && upage < PAGES && Points(p, upage)
      ensures p.table in memory.tables && p.index < |memory.tables[p.table]|
      ensures upage in View() && View()[upage] == Decode(Load(p))
    {
      WordAt(Roots(pd[..]), memory.tables, upage, p.table);
    }

    method Store(p: PtePointer, ghost upage: nat, w: Word)
      requires Valid() && upage < PAGES && Points(p, upage)
      modifies memory
      ensures Valid() && View() == old(View())[upage := Decode(w)]
      ensures Only(TableOf(upage), old(memory.tables), memory.tables) && memory.tables.Keys == old(memory.tables.Keys)
    {
      WordAt(Roots(pd[..]), memory.tables, upage, p.table);
      StoreWord(Roots(pd[..]), memory.tables, upage, w);
      memory.tables := memory.tables[p.table := memory.tables[p.table][p.index := w]];
    }

    /** pagedir_set_page() of a page that is not present: user code then reaches the
        frame, for writing exactly if it may. */
    method SetPage(upage: nat, kpage: Word, writable: bool, page: Option<Word>) returns (ok: bool)
      requires Valid() && upage < USER_PAGES && PageAligned(kpage)
      requires page.Some? ==> PageAligned(page.value) && page.value !in memory.tables
      requires FlatGet(View(), upage).None?
      modifies memory, pd
      ensures Valid()
      ensures ok <==> upage in old(View()) || page.Some?
      ensures View() == if ok then FlatSet(old(View()), upage, kpage, writable) else old(View())
      ensures ok ==> Reaches(upage, false) == Some(kpage)
      ensures ok ==> Reaches(upage, true) == if writable then Some(kpage) else None
      ensures Only(TableOf(upage), old(memory.tables), memory.tables) && GainsTable(old(pd[..]), upage, page)
      ensures forall t :: t in memory.tables && t !in old(memory.tables) ==> page == Some(t)
    {
      ghost var was := View();
      var pte := LookupPage(upage, true, page);
      TableCovers(was, upage);
      if pte.None? { return false; }
      assert View() == WithTable(was, upage);
      DecodeUserPte(kpage, writable);
      Store(pte.value, upage, UserPte(kpage, writable));
      ReachesIs(upage);
      ok := true;
    }

    /** pagedir_get_page(): where the byte at user address uaddr is. */
    method GetPage(uaddr: nat) returns (r: Option<Location>)
      requires Valid() && uaddr < USER_PAGES * PGSIZE
      modifies memory, pd
      ensures memory.tables == old(memory.tables) && pd[..] == old(pd[..])
      ensures Valid() && View() == old(View())
      ensures r.Some? <==> FlatGet(View(), uaddr / PGSIZE).Some?
      ensures r.Some? ==>
        FlatGet(View(), uaddr / PGSIZE) == Some(r.value.frame) && uaddr == uaddr / PGSIZE * PGSIZE + r.value.offset
    {
      var upage := uaddr / PGSIZE;
      var pte := LookupPage(upage, false, None);
      if pte.None? { return None; }
      LoadIs(pte.value, upage);
      r := if Flag(Load(pte.value), PTE_P) then Some(Location(Address(Load(pte.value)), uaddr % PGSIZE)) else None;
    }

    /** pagedir_clear_page(): user code faults from then on. */
    method ClearPage(upage: nat)
      requires Valid() && upage < USER_PAGES
      modifies memory, pd
      ensures Valid() && View() == FlatClear(old(View()), upage)
      ensures Reaches(upage, false) == None == Reaches(upage, true)
      ensures Only(TableOf(upage), old(memory.tables), memory.tables) && pd[..] == old(pd[..])
    {
      ClearEntry(upage);
      ReachesIs(upage);
    }

    method ClearEntry(upage: nat)
      requires Valid() && upage < USER_PAGES
      modifies memory, pd
      ensures Valid() && View() == FlatClear(old(View()), upage)
      ensures Only(TableOf(upage), old(memory.tables), memory.tables) && pd[..] == old(pd[..])
    {
      var pte := LookupPage(upage, false, None);
      if pte.None? { return; }
      LoadIs(pte.value, upage);
      var w := Load(pte.value);
      if Flag(w, PTE_P) {
        DecodeClear(w);
        Store(pte.value, upage, Without(w, PTE_P));
      }
    }

    /** pagedir_is_dirty(). */
    method IsDirty(vpage: nat) returns (r: bool)
      requires Valid() && vpage < PAGES
      modifies memory, pd
      ensures memory.tables == old(memory.tables) && pd[..] == old(pd[..])
      ensures Valid() && View() == old(View()) && r == FlatDirty(View(), vpage)
    {
      var pte := LookupPage(vpage, false, None);
      if pte.None? { return false; }
      LoadIs(pte.value, vpage);
      r := Flag(Load(pte.value), PTE_D);
    }

    /** pagedir_set_dirty(). */
    method SetDirty(vpage: nat, dirty: bool)
      requires Valid() && vpage < PAGES
      modifies memory, pd
      ensures Valid() && View() == FlatSetDirty(old(View()), vpage, dirty)
      ensures Only(TableOf(vpage), old(memory.tables), memory.tables) && pd[..] == old(pd[..])
    {
      var pte := LookupPage(vpage, false, None);
      if pte.None? { return; }
      LoadIs(pte.value, vpage);
      var w := Load(pte.value);
      DecodeDirty(w);
      Store(pte.value, vpage, if dirty then With(w, PTE_D) else Without(w, PTE_D));
    }

    /** pagedir_is_accessed(). */
    method IsAccessed(vpage: nat) returns (r: bool)
      requires Valid() && vpage < PAGES
      modifies memory, pd
      ensures memory.tables == old(memory.tables) && pd[..] == old(pd[..])
      ensures Valid() && View() == old(View()) && r == FlatAccessed(View(), vpage)
    {
      var pte := LookupPage(vpage, false, None);
      if pte.None? { return false; }
      LoadIs(pte.value, vpage);
      r := Flag(Load(pte.value), PTE_A);
    }

    /** pagedir_set_accessed(). */
    method SetAccessed(vpage: nat, accessed: bool)
      requires Valid() && vpage < PAGES
      modifies memory, pd
      ensures Valid() && View() == FlatSetAccessed(old(View()), vpage, accessed)
      ensures Only(TableOf(vpage), old(memory.tables), memory.tables) && pd[..] == old(pd[..])
    {
      var pte := LookupPage(vpage, false, None);
      if pte.None? { return; }
      LoadIs(pte.value, vpage);
      var w := Load(pte.value);
      DecodeAccessed(w);
      Store(pte.value, vpage, if accessed then With(w, PTE_A) else Without(w, PTE_A));
    }
  }

  // ----- Destruction

  /** What a directory refers to: the frame of a page, or a page table. */
  datatype Reference = Mapping(page: nat) | Table(index: nat)

  /** References that pagedir_destroy() meets before entry j of table i. */
  predicate Before(x: Reference, i: nat, j: nat) {
    match x
    case Mapping(u) => u < i * TABLE_WORDS + j
    case Table(k) => k < i
  }

  /** The address that the user part of a directory refers to, if any. */
  ghost function Target(m: Flat, roots: seq<Option<Word>>, x: Reference): Option<Word> {
    match x
    case Mapping(u) => if u < USER_PAGES then FlatGet(m, u) else None
    case Table(k) => if k < USER_TABLES && k < |roots| then roots[k] else None
  }

  /** freed[k] is what the directory refers to at refs[k], and refs are all references
      before entry j of table i, once each. */
  ghost predicate Freed(m: Flat, roots: seq<Option<Word>>, freed: seq<Word>, refs: seq<Reference>, i: nat, j: nat) {
    && |freed| == |refs| && NoDup(refs)
    && (forall k :: 0 <= k < |refs| ==> Before(refs[k], i, j) && Target(m, roots, refs[k]) == Some(freed[k]))
    && (forall x {:trigger Target(m, roots, x)} :: Before(x, i, j) && Target(m, roots, x).Some? ==> x in refs)
  }

  /** The next reference is x, and its target is freed if there is one. */
  lemma {:induction false} FreedNext(m: Flat, roots: seq<Option<Word>>, freed: seq<Word>, refs: seq<Reference>,
      i: nat, j: nat, x: Reference, i': nat, j': nat)
    requires Freed(m, roots, freed, refs, i, j) && !Before(x, i, j)
    requires forall y :: Before(y, i', j') <==> Before(y, i, j) || y == x
    ensures Target(m, roots, x).None? ==> Freed(m, roots, freed, refs, i', j')
    ensures Target(m, roots, x).Some? ==> Freed(m, roots, freed + [Target(m, roots, x).value], refs + [x], i', j')
  {
    assert x !in refs;
    assert forall y :: y in refs + [x] <==> y in refs || y == x;
  }

  lemma {:induction false} PageOfEntry(i: nat, j: nat)
    requires i < USER_TABLES && j < TABLE_WORDS
    ensures var u := i * TABLE_WORDS + j; u < USER_PAGES && u / TABLE_WORDS == i && u % TABLE_WORDS == j
  {
  }

  lemma {:induction false} NextMapping(
    m: Flat, roots: seq<Option<Word>>, freed: seq<Word>, refs: seq<Reference>, i: nat, j: nat, target: Option<Word>)
    requires Freed(m, roots, freed, refs, i, j) && Target(m, roots, Mapping(i * TABLE_WORDS + j)) == target
    ensures target.None? ==> Freed(m, roots, freed, refs, i, j + 1)
    ensures target.Some? ==> Freed(m, roots, freed + [target.value], refs + [Mapping(i * TABLE_WORDS + j)], i, j + 1)
  {
    FreedNext(m, roots, freed, refs, i, j, Mapping(i * TABLE_WORDS + j), i, j + 1);
  }

  /** The page that entry j of table i says is present. */
  method PresentPage(d: PageDirectory, i: nat, j: nat) returns (r: Option<Word>)
    requires d.Valid() && i < USER_TABLES && Flag(d.pd[i], PTE_P) && j < TABLE_WORDS
    ensures r == Target(d.View(), Roots(d.pd[..]), Mapping(i * TABLE_WORDS + j))
  {
    RootAt(d.pd[..], i);
    PageOfEntry(i, j);
    var p := PtePointer(Address(d.pd[i]), j);
    d.LoadIs(p, i * TABLE_WORDS + j);
    var w := d.Load(p);
    r := if Flag(w, PTE_P) then Some(Address(w)) else None;
  }

  /** The loop of pagedir_destroy() over one page table. */
  method FreePages(d: PageDirectory, i: nat, before: seq<Word>, ghost was: seq<Reference>)
    returns (freed: seq<Word>, ghost refs: seq<Reference>)
    requires d.Valid() && i < USER_TABLES && Flag(d.pd[i], PTE_P)
    requires Freed(d.View(), Roots(d.pd[..]), before, was, i, 0)
    ensures Freed(d.View(), Roots(d.pd[..]), freed, refs, i, TABLE_WORDS)
  {
    ghost var m, roots := d.View(), Roots(d.pd[..]);
    freed, refs := before, was;
    for j := 0 to TABLE_WORDS
      invariant Freed(m, roots, freed, refs, i, j)
    {
      var page := PresentPage(d, i, j);
      NextMapping(m, roots, freed, refs, i, j, page);
      if page.Some? {
        freed, refs := freed + [page.value], refs + [Mapping(i * TABLE_WORDS + j)];
      }
    }
  }

  /** pagedir_destroy(): the pages it frees, before that of the directory itself.  Every
      frame of a user page and every page table for users is freed, once for each
      reference to it; none of the kernel's is. */
  method Destroy(d: PageDirectory) returns (freed: seq<Word>, ghost refs: seq<Reference>)
    requires d.Valid()
    ensures |freed| == |refs| && NoDup(refs)
    ensures forall k :: 0 <= k < |refs| ==> Target(d.View(), Roots(d.pd[..]), refs[k]) == Some(freed[k])
    ensures forall x :: Target(d.View(), Roots(d.pd[..]), x).Some? ==> x in refs
  {
    ghost var m, roots := d.View(), Roots(d.pd[..]);
    freed, refs := [], [];
    for i := 0 to USER_TABLES
      invariant Freed(m, roots, freed, refs, i, 0)
    {
      RootAt(d.pd[..], i);
      if Flag(d.pd[i], PTE_P) {
        freed, refs := FreePages(d, i, freed, refs);
        FreedNext(m, roots, freed, refs, i, TABLE_WORDS, Table(i), i + 1, 0);
        freed, refs := freed + [Address(d.pd[i])], refs + [Table(i)];
      } else {
        NoTable(d, i, freed, refs);
      }
    }
    forall x | Target(m, roots, x).Some? ensures x in refs {
      assert Before(x, USER_TABLES, 0);
    }
  }

  lemma {:induction false} NoTable(d: PageDirectory, i: nat, freed: seq<Word>, refs: seq<Reference>)
    requires d.Valid() && i < USER_TABLES && !Flag(d.pd[i], PTE_P)
    requires Freed(d.View(), Roots(d.pd[..]), freed, refs, i, 0)
    ensures Freed(d.View(), Roots(d.pd[..]), freed, refs, i + 1, 0)
  {
    var m, roots := d.View(), Roots(d.pd[..]);
    RootAt(d.pd[..], i);
    assert PdeOk(d.pd[i]);
    forall x | Before(x, i + 1, 0) && !Before(x, i, 0) ensures Target(m, roots, x).None? {
      if x.Mapping? { assert x.page / TABLE_WORDS == i; }
    }
  }

  /** No page is freed twice, if and only if no two references are to the same one. */
  lemma {:induction false} FreedOnceIff(m: Flat, roots: seq<Option<Word>>, freed: seq<Word>, refs: seq<Reference>)
    requires |freed| == |refs| && NoDup(refs)
    requires forall k :: 0 <= k < |refs| ==> Target(m, roots, refs[k]) == Some(freed[k])
    requires forall x :: Target(m, roots, x).Some? ==> x in refs
    ensures NoDup(freed) <==>
            forall x, y :: x != y && Target(m, roots, x).Some? ==> Target(m, roots, x) != Target(m, roots, y)
  {
    if NoDup(freed) {
      forall x, y | x != y && Target(m, roots, x).Some? && Target(m, roots, y).Some?
        ensures Target(m, roots, x) != Target(m, roots, y)
      {
        assert x in refs && y in refs;
      }
    }
  }

  /** No page table of another directory is freed, unless it is mapped as a frame. */
  method DestroyBeside(d: PageDirectory, e: PageDirectory) returns (freed: seq<Word>)
    requires d.Valid() && e.Valid() && d.Beside(e)
    ensures forall j :: 0 <= j < TABLES && Roots(e.pd[..])[j].Some? ==>
              (Roots(e.pd[..])[j].value in freed <==>
               exists u :: 0 <= u < USER_PAGES && FlatGet(d.View(), u) == Roots(e.pd[..])[j])
  {
    ghost var refs, m, r, q := [], d.View(), Roots(d.pd[..]), Roots(e.pd[..]);
    freed, refs := Destroy(d);
    forall j | 0 <= j < TABLES && q[j].Some?
      ensures q[j].value in freed <==> exists u :: 0 <= u < USER_PAGES && FlatGet(m, u) == q[j]
    {
      OnlyAsFrame(m, r, q, freed, refs, j);
    }
  }

  lemma {:induction false} OnlyAsFrame(
    m: Flat, r: seq<Option<Word>>, q: seq<Option<Word>>, freed: seq<Word>, refs: seq<Reference>, j: nat)
    requires Siblings(r, q) && j < TABLES && q[j].Some? && |freed| == |refs|
    requires forall k :: 0 <= k < |refs| ==> Target(m, r, refs[k]) == Some(freed[k])
    requires forall x :: Target(m, r, x).Some? ==> x in refs
    ensures q[j].value in freed <==> exists u :: 0 <= u < USER_PAGES && FlatGet(m, u) == q[j]
  {
    forall i | 0 <= i < USER_TABLES ensures r[i] != q[j] { assert NoneOf(r[i], q); }
    if q[j].value in freed {
      var k :| 0 <= k < |freed| && freed[k] == q[j].value;
      assert Target(m, r, refs[k]) == q[j];
      assert refs[k].Mapping?;
    }
    if u :| 0 <= u < USER_PAGES && FlatGet(m, u) == q[j] {
      assert Target(m, r, Mapping(u)) == q[j];
    }
  }

  // ----- What other directories see

  lemma {:induction false} NotWired<A, W>(q: seq<Option<A>>, tables: map<A, seq<W>>, t: Option<A>)
    requires Wired(q, tables) && t.Some? && t.value !in tables
    ensures NoneOf(t, q)
  {
  }

  /** A directory that gains a page table still shares none with the others. */
  lemma {:induction false} StillSiblings(was: seq<Word>, now: seq<Word>, q: seq<Option<Word>>, page: nat,
      table: Option<Word>)
    requires page < USER_PAGES && |was| == TABLES && Siblings(Roots(was), q)
    requires table.Some? ==> PageAligned(table.value) && NoneOf(table, Roots(was)) && NoneOf(table, q)
    requires now == was
      || (was[page / TABLE_WORDS] == ZERO && table.Some? && now == was[page / TABLE_WORDS := Pde(table.value)])
    ensures Siblings(Roots(now), q)
    ensures NoneOf(Roots(now)[page / TABLE_WORDS], q)
  {
    var i, r, r' := page / TABLE_WORDS, Roots(was), Roots(now);
    if now != was {
      DecodePde(table.value);
      RootsUpdate(was, i, Pde(table.value));
      forall k | 0 <= k < USER_TABLES ensures NoneOf(r'[k], q) && NoneOf(q[k], r') {
        assert NoneOf(r[k], q) && NoneOf(q[k], r);
      }
    }
  }

  /** A new entry for a kernel page is noticed through every directory, with the same
      old entry. */
  lemma {:induction false} Followed(r: seq<Option<Word>>, q: seq<Option<Word>>, page: nat,
      tables: map<Word, seq<Word>>, tables': map<Word, seq<Word>>, entry: Entry)
    requires Wired(r, tables) && Wired(q, tables) && Wired(r, tables') && page < PAGES
      && r[page / TABLE_WORDS] == q[page / TABLE_WORDS]
    requires Only(r[page / TABLE_WORDS], tables, tables')
    requires FlatView(Words(r, tables')) == Changed(FlatView(Words(r, tables)), page, entry)
    ensures Wired(q, tables') && FlatView(Words(q, tables')) == Changed(FlatView(Words(q, tables)), page, entry)
    ensures page in Words(q, tables) <==> page in Words(r, tables)
    ensures page in Words(q, tables) ==> FlatView(Words(q, tables))[page] == FlatView(Words(r, tables))[page]
  {
    Seen(r, q, page / TABLE_WORDS, tables, tables');
    FlatAlike(page / TABLE_WORDS, Words(r, tables), Words(r, tables'), Words(q, tables), Words(q, tables'));
    ChangedAlike(FlatView(Words(r, tables)), FlatView(Words(r, tables')),
                 FlatView(Words(q, tables)), FlatView(Words(q, tables')), page, entry);
  }

  /** A new entry for a page is noticed through the other directory if and only if it is
      the kernel's. */
  lemma {:induction false} Noticed(r: seq<Option<Word>>, q: seq<Option<Word>>, page: nat,
      tables: map<Word, seq<Word>>, tables': map<Word, seq<Word>>, entry: Entry)
    requires Wired(r, tables) && Wired(q, tables) && Wired(r, tables') && page < PAGES && Siblings(r, q)
    requires Only(r[page / TABLE_WORDS], tables, tables')
    requires FlatView(Words(r, tables')) == Changed(FlatView(Words(r, tables)), page, entry)
    ensures Wired(q, tables')
    ensures FlatView(Words(q, tables')) ==
            if page < USER_PAGES then FlatView(Words(q, tables)) else Changed(FlatView(Words(q, tables)), page, entry)
    ensures page >= USER_PAGES ==> (page in Words(q, tables) <==> page in Words(r, tables))
    ensures page >= USER_PAGES && page in Words(q, tables) ==>
      FlatView(Words(q, tables))[page] == FlatView(Words(r, tables))[page]
  {
    if page < USER_PAGES {
      assert NoneOf(r[page / TABLE_WORDS], q);
      UnseenFlat(q, r[page / TABLE_WORDS], tables, tables');
    } else {
      Followed(r, q, page, tables, tables', entry);
    }
  }

  /** Mapping a user page of one directory changes no other, whether or not it needs a
      new page table. */
  method SetPageBeside(d: PageDirectory, e: PageDirectory, upage: nat, kpage: Word, writable: bool, page: Option<Word>)
    returns (ok: bool)
    requires d.Valid() && e.Valid() && d.Beside(e)
    requires upage < USER_PAGES && PageAligned(kpage) && FlatGet(d.View(), upage).None?
    requires page.Some? ==> PageAligned(page.value) && page.value !in d.memory.tables
    modifies d.memory, d.pd
    ensures d.Valid() && e.Valid() && d.Beside(e) && (ok <==> upage in old(d.View()) || page.Some?)
    ensures d.View() == if ok then FlatSet(old(d.View()), upage, kpage, writable) else old(d.View())
    ensures e.View() == old(e.View())
    ensures forall t :: t in d.memory.tables && t !in old(d.memory.tables) ==> page == Some(t)
  {
    ghost var was, tables, q := d.pd[..], d.memory.tables, Roots(e.pd[..]);
    if page.Some? {
      NotWired(Roots(was), tables, page);
      NotWired(q, tables, page);
    }
    ok := d.SetPage(upage, kpage, writable, page);
    StillSiblings(was, d.pd[..], q, upage, page);
    UnseenFlat(q, d.TableOf(upage), tables, d.memory.tables);
    assert Roots(e.pd[..]) == q;
  }

  /** Nor does clearing one. */
  method ClearPageBeside(d: PageDirectory, e: PageDirectory, upage: nat)
    requires d.Valid() && e.Valid() && d.Beside(e) && upage < USER_PAGES
    modifies d.memory, d.pd
    ensures d.Valid() && e.Valid() && d.Beside(e)
    ensures d.View() == FlatClear(old(d.View()), upage) && e.View() == old(e.View())
  {
    ghost var r, tables, q := Roots(d.pd[..]), d.memory.tables, Roots(e.pd[..]);
    assert NoneOf(r[upage / TABLE_WORDS], q);
    d.ClearPage(upage);
    UnseenFlat(q, r[upage / TABLE_WORDS], tables, d.memory.tables);
    assert Roots(d.pd[..]) == r && Roots(e.pd[..]) == q;
  }

  /** The dirty bit of a user page is the directory's own; that of a kernel page is
      everybody's. */
  method SetDirtyBeside(d: PageDirectory, e: PageDirectory, vpage: nat, dirty: bool)
    requires d.Valid() && e.Valid() && d.Beside(e) && vpage < PAGES
    modifies d.memory, d.pd
    ensures d.Valid() && e.Valid() && d.Beside(e)
    ensures d.View() == FlatSetDirty(old(d.View()), vpage, dirty)
    ensures e.View() == if vpage < USER_PAGES then old(e.View()) else FlatSetDirty(old(e.View()), vpage, dirty)
  {
    ghost var r, tables, q, x := Roots(d.pd[..]), d.memory.tables, Roots(e.pd[..]), d.View();
    d.SetDirty(vpage, dirty);
    assert Roots(d.pd[..]) == r && Roots(e.pd[..]) == q;
    Noticed(r, q, vpage, tables, d.memory.tables, if vpage in x then x[vpage].(dirty := dirty) else NO_ENTRY);
  }

  /** So is the accessed bit. */
  method SetAccessedBeside(d: PageDirectory, e: PageDirectory, vpage: nat, accessed: bool)
    requires d.Valid() && e.Valid() && d.Beside(e) && vpage < PAGES
    modifies d.memory, d.pd
    ensures d.Valid() && e.Valid() && d.Beside(e)
    ensures d.View() == FlatSetAccessed(old(d.View()), vpage, accessed)
    ensures e.View() == if vpage < USER_PAGES then old(e.View()) else FlatSetAccessed(old(e.View()), vpage, accessed)
  {
    ghost var r, tables, q, x := Roots(d.pd[..]), d.memory.tables, Roots(e.pd[..]), d.View();
    d.SetAccessed(vpage, accessed);
    assert Roots(d.pd[..]) == r && Roots(e.pd[..]) == q;
    Noticed(r, q, vpage, tables, d.memory.tables, if vpage in x then x[vpage].(accessed := accessed) else NO_ENTRY);
  }

  /** init_page_dir before the kernel is mapped. */
  method NoMappings() returns (d: PageDirectory)
    ensures fresh(d) && fresh(d.pd) && fresh(d.memory)
    ensures d.Valid() && KernelOnly(d.pd[..]) && d.View() == map[] && d.memory.tables == map[]
  {
    var zeros := new Word[TABLES](_ => ZERO);
    var memory := new PageTables();
    d := new PageDirectory(zeros, memory);
    forall i: nat | i < TABLES ensures Roots(d.pd[..])[i].None? { RootAt(d.pd[..], i); }
  }

  method TwoDirectories() returns (a: PageDirectory, b: PageDirectory)
    ensures fresh(a.pd) && fresh(a.memory) && fresh(b.pd)
    ensures a.Valid() && b.Valid() && a.Beside(b) && a.View() == map[] == b.View() && a.memory.tables == map[]
  {
    var init := NoMappings();
    var r := PageDirectory.Create(init, true);
    a := r.value;
    assert a.Beside(init);
    r := PageDirectory.Create(init, true);
    b := r.value;
    assert a.Beside(init);
    assert b.Beside(a);
    SiblingsBack(Roots(a.pd[..]), Roots(b.pd[..]));
  }

  /** Two processes that map the same user page to different frames each see their own. */
  method TwoProcesses(page: Word, frame: Word, table: Word, other: Word) returns (a: PageDirectory, b: PageDirectory)
    requires PageAligned(frame) && PageAligned(table) && PageAligned(page) && PageAligned(other) && table != other
    ensures a.Valid() && b.Valid() && a.Beside(b)
    ensures FlatGet(a.View(), 0) == Some(page) && FlatGet(b.View(), 0) == Some(frame)
  {
    a, b := TwoDirectories();
    SetIsGot(map[], 0, page, true);
    SetIsGot(map[], 0, frame, true);
    var ok := SetPageBeside(a, b, 0, page, true, Some(table));
    SiblingsBack(Roots(b.pd[..]), Roots(a.pd[..]));
    ok := SetPageBeside(b, a, 0, frame, true, Some(other));
    SiblingsBack(Roots(a.pd[..]), Roots(b.pd[..]));
  }
}
