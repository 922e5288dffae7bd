/** The software TLB and its treatment of large pages (cputlb.c). */
module Tlb {

  type Word = bv64

  const TARGET_PAGE_SIZE: Word := 0x1000

  /** The tag of an access that is not allowed, and the flush address when there is no region. */
  const NONE: Word := 0xffff_ffff_ffff_ffff

  const CPU_TLB_SIZE := 256

  // Words, masks and tags.  The proofs about bits are all in this part, which is why the constants are written out:
  // TARGET_PAGE_MASK is ~0xfff, TLB_INVALID_MASK 0x08, TLB_NOTDIRTY 0x10 and TLB_MMIO 0x20.

  function Masked(a: Word, mask: Word): Word {
    a & mask
  }

  /** Every bit of `a` is in `b`. */
  predicate Within(a: Word, b: Word) {
    a & b == a
  }

  function MaskOf(size: Word): Word {
    !(size - 1)
  }

  /** High ones followed by low zeros. */
  predicate IsMask(m: Word) {
    !m & (!m + 1) == 0
  }

  predicate IsPowerOfTwo(size: Word) {
    size != 0 && size & (size - 1) == 0
  }

  predicate Differ(a: Word, b: Word, mask: Word) {
    (a ^ b) & mask != 0
  }

  function Shifted(mask: Word): Word {
    mask << 1
  }

  lemma SizeIsMask(size: Word, v: Word)
    requires IsPowerOfTwo(size) && size > TARGET_PAGE_SIZE
    ensures IsMask(MaskOf(size)) && Masked(v, MaskOf(size)) != NONE && Within(MaskOf(size), MaskOf(size))
  {
  }

  lemma MaskShift(m: Word)
    requires IsMask(m) && m != 0
    ensures IsMask(Shifted(m)) && Within(Shifted(m), m) && Shifted(m) < m
  {
  }

  lemma MaskMeet(m: Word, n: Word)
    requires IsMask(m) && IsMask(n)
    ensures IsMask(Masked(m, n)) && Within(Masked(m, n), m) && Within(Masked(m, n), n)
  {
  }

  lemma WithinBoth(a: Word, b: Word, c: Word)
    requires Within(a, b) && Within(b, c)
    ensures Within(a, c)
  {
  }

  lemma DifferSomewhere(a: Word, b: Word, mask: Word)
    requires Differ(a, b, mask)
    ensures mask != 0
  {
  }

  lemma AgreeUnder(a: Word, b: Word, mask: Word)
    requires !Differ(a, b, mask)
    ensures Masked(a, mask) == Masked(b, mask)
  {
  }

  lemma MaskedTwice(a: Word, mask: Word, wide: Word)
    requires Within(wide, mask)
    ensures Masked(Masked(a, mask), wide) == Masked(a, wide)
  {
  }

  lemma NarrowNotNone(a: Word, mask: Word, size: Word)
    requires IsPowerOfTwo(size) && size > TARGET_PAGE_SIZE && Within(mask, MaskOf(size))
    ensures Masked(a, mask) != NONE
  {
  }

  function PageOf(addr: Word): Word {
    addr & 0xffff_ffff_ffff_f000
  }

  /** The low twelve bits are dropped and nothing else. */
  lemma PageBits(addr: Word)
    ensures PageOf(addr) == (addr >> 12) << 12
  {
  }

  /** The page bits of a tag and the bit that marks it invalid. */
  function TagPart(tag: Word): Word {
    tag & 0xffff_ffff_ffff_f008
  }

  /** The comparison made on every guest access, and on every flush of a page. */
  predicate Serves(tag: Word, addr: Word) {
    PageOf(addr) == TagPart(tag)
  }

  predicate IsPage(v: Word) {
    v & 0xffff_ffff_ffff_f000 == v
  }

  function Index(addr: Word): (i: nat)
    ensures i < CPU_TLB_SIZE
  {
    ((addr >> 12) & 255) as nat
  }

  function TagFlags(mmio: bool, notDirty: bool): Word {
    if mmio then (if notDirty then 0x30 else 0x20) else if notDirty then 0x10 else 0
  }

  function WithFlags(v: Word, flags: Word): Word {
    v | flags
  }

  function Tag(v: Word, mmio: bool, notDirty: bool): Word {
    WithFlags(v, TagFlags(mmio, notDirty))
  }

  /** A tag made from the page at `v`, or none. */
  predicate TagOf(tag: Word, v: Word) {
    tag == NONE || TagPart(tag) == v
  }

  predicate Ignored(flags: Word) {
    flags & 0xffff_ffff_ffff_f008 == 0
  }

  lemma FlagsAreIgnored(mmio: bool, notDirty: bool)
    ensures Ignored(TagFlags(mmio, notDirty))
  {
  }

  /** Flags below the page bits, other than the invalid bit, do not show in the comparison. */
  lemma IgnoredFlags(v: Word, flags: Word)
    requires IsPage(v) && Ignored(flags)
    ensures Serves(WithFlags(v, flags), v) && TagOf(WithFlags(v, flags), v)
  {
  }

  lemma TagOk(v: Word, mmio: bool, notDirty: bool)
    requires IsPage(v)
    ensures Serves(Tag(v, mmio, notDirty), v) && TagOf(Tag(v, mmio, notDirty), v)
  {
    hide Serves, TagOf, IsPage, TagFlags, Ignored, WithFlags;
    FlagsAreIgnored(mmio, notDirty);
    IgnoredFlags(v, TagFlags(mmio, notDirty));
  }

  /** The flags a tag carries: slow path for I/O, watched and read-only pages, dirty tracking for clean RAM. */
  lemma TagShows(v: Word, mmio: bool, notDirty: bool)
    requires IsPage(v)
    ensures Masked(Tag(v, mmio, notDirty), 0x20) == if mmio then 0x20 else 0
    ensures Masked(Tag(v, mmio, notDirty), 0x10) == if notDirty then 0x10 else 0
    ensures Masked(Tag(v, mmio, notDirty), 0xfcf) == 0
  {
    FlagsShow(v, TagFlags(mmio, notDirty));
  }

  lemma FlagsShow(v: Word, flags: Word)
    requires IsPage(v)
    ensures Masked(WithFlags(v, flags), 0x20) == Masked(flags, 0x20)
    ensures Masked(WithFlags(v, flags), 0x10) == Masked(flags, 0x10)
    ensures Masked(WithFlags(v, flags), 0xfcf) == Masked(flags, 0xfcf)
  {
  }

  lemma NoneServesNothing(addr: Word)
    ensures !Serves(NONE, addr)
  {
  }

  lemma ServedPage(tag: Word, v: Word, addr: Word)
    requires TagOf(tag, v) && Serves(tag, addr)
    ensures PageOf(addr) == v && Index(addr) == Index(v)
  {
    NoneServesNothing(addr);
    SameIndex(addr);
  }

  /** Two addresses share a slot exactly if the eight bits above the page offset agree. */
  lemma IndexBits(a: Word, b: Word)
    ensures Index(a) == Index(b) <==> !Differ(a, b, 0xff000)
  {
    assert (a >> 12) & 255 == (b >> 12) & 255 <==> (a ^ b) & 0xff000 == 0;
  }

  lemma SameIndex(addr: Word)
    ensures Index(PageOf(addr)) == Index(addr)
  {
    assert ((addr & 0xffff_ffff_ffff_f000) >> 12) & 255 == (addr >> 12) & 255;
  }

  // Entries and large pages.

  datatype Entry = Entry(read: Word, write: Word, code: Word) {

    /** The entry serves some access to the page of `addr`. */
    predicate For(addr: Word) {
      Serves(read, addr) || Serves(write, addr) || Serves(code, addr)
    }
  }

  const EMPTY := Entry(NONE, NONE, NONE)

  lemma ForNothing(e: Entry, addr: Word)
    ensures !e.For(addr) ==> !Serves(e.read, addr) && !Serves(e.write, addr) && !Serves(e.code, addr)
  {
    hide Serves;
  }

  lemma EmptyServesNothing(addr: Word)
    ensures !EMPTY.For(addr)
  {
    hide Serves;
    NoneServesNothing(addr);
  }

  /** `a` lies in the page of `size` bytes that holds `v`. */
  predicate SamePage(a: Word, v: Word, size: Word) {
    Masked(a, MaskOf(size)) == Masked(v, MaskOf(size))
  }

  /** The flush region `addr`/`mask` takes in the whole page of `size` bytes at `v`. */
  predicate Covers(addr: Word, mask: Word, v: Word, size: Word) {
    Within(mask, MaskOf(size)) && Masked(v, mask) == addr
  }

  lemma CoversPage(addr: Word, mask: Word, v: Word, size: Word, a: Word)
    requires Covers(addr, mask, v, size) && SamePage(a, v, size)
    ensures Masked(a, mask) == addr
  {
    hide Masked, Within, MaskOf;
    MaskedTwice(a, MaskOf(size), mask);
    MaskedTwice(v, MaskOf(size), mask);
  }

  /** Widening the region keeps what it covered. */
  lemma CoversWider(addr: Word, mask: Word, wide: Word, v: Word, size: Word)
    requires Covers(addr, mask, v, size) && Within(wide, mask)
    ensures Covers(Masked(addr, wide), wide, v, size)
  {
    hide Masked, Within, MaskOf;
    WithinBoth(wide, mask, MaskOf(size));
    MaskedTwice(v, mask, wide);
  }

  /** What a slot was last filled with. */
  datatype Filled = Filled(v: Word, size: Word) {
    predicate Ok() {
      IsPage(v) && IsPowerOfTwo(size) && size >= TARGET_PAGE_SIZE
    }
  }

  type Slots = map<(nat, nat), Filled>

  ghost predicate EntryOk(e: Entry, f: Filled, i: nat) {
    f.Ok() && Index(f.v) == i && TagOf(e.read, f.v) && TagOf(e.write, f.v) && TagOf(e.code, f.v)
  }

  lemma EntryServesItsPage(e: Entry, f: Filled, i: nat, addr: Word)
    requires EntryOk(e, f, i) && e.For(addr)
    ensures PageOf(addr) == f.v && i == Index(addr)
  {
    hide Serves, TagOf, Index, IsPowerOfTwo, PageOf, IsPage;
    if Serves(e.read, addr) {
      ServedPage(e.read, f.v, addr);
    } else if Serves(e.write, addr) {
      ServedPage(e.write, f.v, addr);
    } else {
      ServedPage(e.code, f.v, addr);
    }
  }

  /** The tags of the three kinds of access. */
  function MakeEntry(v: Word, canRead: bool, canWrite: bool, canExec: bool, mmio: bool, watched: bool, rom: bool,
                     clean: bool): Entry {
    Entry(
      if canRead then Tag(v, mmio || watched, false) else NONE,
      if canWrite then Tag(v, mmio || watched || rom, !rom && !mmio && clean) else NONE,
      if canExec then Tag(v, mmio, false) else NONE)
  }

  lemma EntryMade(f: Filled, canRead: bool, canWrite: bool, canExec: bool, mmio: bool, watched: bool, rom: bool,
                  clean: bool)
    requires f.Ok()
    ensures var e := MakeEntry(f.v, canRead, canWrite, canExec, mmio, watched, rom, clean);
      && EntryOk(e, f, Index(f.v))
      && Serves(e.read, f.v) == canRead && Serves(e.write, f.v) == canWrite && Serves(e.code, f.v) == canExec
  {
    hide Index, Serves, TagOf, Tag, IsPowerOfTwo, IsPage;
    TagOk(f.v, mmio || watched, false);
    TagOk(f.v, mmio || watched || rom, !rom && !mmio && clean);
    TagOk(f.v, mmio, false);
    NoneIsTag(f.v);
    NoneServesNothing(f.v);
  }

  /** A tag that serves the page at `v` serves every address of that page and no other. */
  lemma TagServes(tag: Word, v: Word, a: Word)
    requires TagOf(tag, v) && Serves(tag, v)
    ensures Serves(tag, a) <==> PageOf(a) == v
  {
    hide PageOf, TagPart;
    NoneServesNothing(v);
  }

  /** Which addresses the entry serves, for each kind of access. */
  ghost predicate ServesExactly(e: Entry, v: Word, a: Word, canRead: bool, canWrite: bool, canExec: bool) {
    && (Serves(e.read, a) <==> canRead && PageOf(a) == v)
    && (Serves(e.write, a) <==> canWrite && PageOf(a) == v)
    && (Serves(e.code, a) <==> canExec && PageOf(a) == v)
  }

  lemma EntryServes(f: Filled, canRead: bool, canWrite: bool, canExec: bool, mmio: bool, watched: bool, rom: bool,
                    clean: bool)
    requires f.Ok()
    ensures var e := MakeEntry(f.v, canRead, canWrite, canExec, mmio, watched, rom, clean);
      forall a: Word :: ServesExactly(e, f.v, a, canRead, canWrite, canExec)
  {
    hide Index, Serves, TagOf, Tag, IsPowerOfTwo, IsPage, PageOf;
    var e := MakeEntry(f.v, canRead, canWrite, canExec, mmio, watched, rom, clean);
    EntryMade(f, canRead, canWrite, canExec, mmio, watched, rom, clean);
    forall a: Word
      ensures ServesExactly(e, f.v, a, canRead, canWrite, canExec)
    {
      NoneServesNothing(a);
      if canRead {
        TagServes(e.read, f.v, a);
      }
      if canWrite {
        TagServes(e.write, f.v, a);
      }
      if canExec {
        TagServes(e.code, f.v, a);
      }
    }
  }

  /** The tag has the flag that sends an access to the I/O callback, or the one that has a store recorded. */
  predicate IsSlow(tag: Word) {
    Masked(tag, 0x20) != 0
  }

  predicate IsRecorded(tag: Word) {
    Masked(tag, 0x10) != 0
  }

  predicate NoOtherFlag(tag: Word) {
    Masked(tag, 0xfcf) == 0
  }

  /** Which accesses go the slow way: reads of I/O and watched pages, stores to those and to read-only memory, and
      code in I/O memory.  Only stores to RAM that is still clean are recorded. */
  ghost predicate FlagsRight(e: Entry, canRead: bool, canWrite: bool, canExec: bool, mmio: bool, watched: bool,
                             rom: bool, clean: bool)
  {
    && (canRead ==> (IsSlow(e.read) <==> mmio || watched) && !IsRecorded(e.read) && NoOtherFlag(e.read))
    && (canWrite ==> (IsSlow(e.write) <==> mmio || watched || rom) && NoOtherFlag(e.write))
    && (canWrite ==> (IsRecorded(e.write) <==> clean && !mmio && !rom))
    && (canExec ==> (IsSlow(e.code) <==> mmio) && !IsRecorded(e.code) && NoOtherFlag(e.code))
  }

  lemma TagSlow(v: Word, mmio: bool, notDirty: bool)
    requires IsPage(v)
    ensures IsSlow(Tag(v, mmio, notDirty)) == mmio && IsRecorded(Tag(v, mmio, notDirty)) == notDirty
    ensures NoOtherFlag(Tag(v, mmio, notDirty))
  {
    hide Masked, Tag, IsPage;
    TagShows(v, mmio, notDirty);
  }

  lemma EntryFlags(v: Word, canRead: bool, canWrite: bool, canExec: bool, mmio: bool, watched: bool, rom: bool,
                   clean: bool)
    requires IsPage(v)
    ensures FlagsRight(MakeEntry(v, canRead, canWrite, canExec, mmio, watched, rom, clean), canRead, canWrite, canExec,
                       mmio, watched, rom, clean)
  {
    hide IsSlow, IsRecorded, NoOtherFlag, Tag, IsPage;
    TagSlow(v, mmio || watched, false);
    TagSlow(v, mmio || watched || rom, !rom && !mmio && clean);
    TagSlow(v, mmio, false);
  }

  ghost predicate IsLarge(f: Filled) {
    f.size != TARGET_PAGE_SIZE
  }

  /** Every large page installed since the last flush lies inside the flush region. */
  ghost predicate LargeCovered(large: set<Filled>, addr: Word, mask: Word) {
    forall f | f in large :: addr != NONE && Covers(addr, mask, f.v, f.size)
  }

  lemma AllCoverWider(large: set<Filled>, addr: Word, mask: Word, wide: Word)
    requires LargeCovered(large, addr, mask) && Within(wide, mask) && Masked(addr, wide) != NONE
    ensures LargeCovered(large, Masked(addr, wide), wide)
  {
    hide Covers, Within, Masked;
    forall f | f in large
      ensures Covers(Masked(addr, wide), wide, f.v, f.size)
    {
      CoversWider(addr, mask, wide, f.v, f.size);
    }
  }

  /** Outside the flush region there is no large page. */
  lemma NoneLarge(large: set<Filled>, addr: Word, mask: Word, a: Word)
    requires LargeCovered(large, addr, mask) && Masked(a, mask) != addr
    ensures forall f | f in large :: !SamePage(a, f.v, f.size)
  {
    hide Covers, SamePage, Masked;
    forall f | f in large
      ensures !SamePage(a, f.v, f.size)
    {
      if SamePage(a, f.v, f.size) {
        CoversPage(addr, mask, f.v, f.size, a);
      }
    }
  }

  ghost predicate RegionOk(addr: Word, mask: Word) {
    if addr == NONE then mask == 0 else IsMask(mask)
  }

  /** The region of mask `m` holds both the old region and the new page. */
  predicate Joins(m: Word, addr: Word, mask: Word, v: Word, size: Word) {
    IsMask(m) && Within(m, mask) && Within(m, MaskOf(size)) && !Differ(addr, v, m)
  }

  lemma WithinMeet(m: Word, a: Word, b: Word)
    requires Within(m, a) && Within(m, b)
    ensures Within(m, Masked(a, b))
  {
  }

  lemma JoinsMeet(addr: Word, mask: Word, v: Word, size: Word)
    ensures forall m | Joins(m, addr, mask, v, size) :: Within(m, Masked(MaskOf(size), mask))
  {
    hide IsMask, Within, Masked, MaskOf, Differ;
    forall m | Joins(m, addr, mask, v, size)
      ensures Within(m, Masked(MaskOf(size), mask))
    {
      WithinMeet(m, MaskOf(size), mask);
    }
  }

  /** Masks form a chain: one strictly inside another is inside its shift. */
  lemma MaskChain(m: Word, w: Word)
    requires IsMask(m) && IsMask(w) && Within(m, w) && m != w
    ensures Within(m, Shifted(w))
  {
  }

  lemma JoinsShift(addr: Word, mask: Word, v: Word, size: Word, wide: Word)
    requires IsMask(wide) && Differ(addr, v, wide)
    requires forall m | Joins(m, addr, mask, v, size) :: Within(m, wide)
    ensures forall m | Joins(m, addr, mask, v, size) :: Within(m, Shifted(wide))
  {
    hide IsMask, Within, Masked, MaskOf, Differ, Shifted;
    forall m | Joins(m, addr, mask, v, size)
      ensures Within(m, Shifted(wide))
    {
      MaskChain(m, wide);
    }
  }

  /** A candidate for the widened mask: inside both masks, and around every mask that would do. */
  ghost predicate Widening(wide: Word, addr: Word, mask: Word, v: Word, size: Word) {
    && IsMask(wide) && Within(wide, mask) && Within(wide, MaskOf(size))
    && forall m | Joins(m, addr, mask, v, size) :: Within(m, wide)
  }

  /** How often a mask can be shifted before it is empty. */
  ghost function Shifts(w: Word): nat
    decreases w
  {
    if IsMask(w) && w != 0 then
      MaskShift(w);
      1 + Shifts(Shifted(w))
    else 0
  }

  lemma WidenStart(addr: Word, mask: Word, v: Word, size: Word)
    requires IsMask(mask) && IsPowerOfTwo(size) && size > TARGET_PAGE_SIZE
    ensures Widening(Masked(MaskOf(size), mask), addr, mask, v, size)
  {
    hide IsMask, IsPowerOfTwo, Masked, Within, MaskOf, Joins;
    SizeIsMask(size, v);
    MaskMeet(MaskOf(size), mask);
    JoinsMeet(addr, mask, v, size);
  }

  lemma WidenStep(wide: Word, addr: Word, mask: Word, v: Word, size: Word)
    requires Widening(wide, addr, mask, v, size) && Differ(addr, v, wide)
    ensures Widening(Shifted(wide), addr, mask, v, size) && Shifts(Shifted(wide)) < Shifts(wide)
  {
    hide IsMask, Masked, Within, MaskOf, Differ, Shifted, Joins;
    DifferSomewhere(addr, v, wide);
    JoinsShift(addr, mask, v, size, wide);
    MaskShift(wide);
    WithinBoth(Shifted(wide), wide, mask);
    WithinBoth(Shifted(wide), wide, MaskOf(size));
  }

  lemma WidenDone(wide: Word, addr: Word, mask: Word, v: Word, size: Word)
    requires IsPowerOfTwo(size) && size > TARGET_PAGE_SIZE && Widening(wide, addr, mask, v, size)
    requires !Differ(addr, v, wide)
    ensures IsMask(wide) && Within(wide, mask) && Masked(addr, wide) != NONE
    ensures Covers(Masked(addr, wide), wide, v, size)
    ensures forall m | Joins(m, addr, mask, v, size) :: Within(m, wide)
  {
    hide IsMask, IsPowerOfTwo, Masked, Within, MaskOf, Differ, Joins;
    AgreeUnder(addr, v, wide);
    NarrowNotNone(addr, wide, size);
  }

  /** The loop of tlb_add_large_page: shift the mask until both addresses are in one region. */
  method Widen(addr: Word, mask: Word, v: Word, size: Word) returns (wide: Word)
    requires IsMask(mask) && IsPowerOfTwo(size) && size > TARGET_PAGE_SIZE
    ensures IsMask(wide) && Within(wide, mask) && Masked(addr, wide) != NONE
    ensures Covers(Masked(addr, wide), wide, v, size)
    ensures forall m | Joins(m, addr, mask, v, size) :: Within(m, wide)
  {
    hide IsMask, IsPowerOfTwo, Masked, Within, MaskOf, Differ, Shifted, Joins, Covers, Widening, Shifts;
    wide := Masked(MaskOf(size), mask);
    WidenStart(addr, mask, v, size);
    while Differ(addr, v, wide)
      invariant Widening(wide, addr, mask, v, size)
      decreases Shifts(wide)
    {
      WidenStep(wide, addr, mask, v, size);
      wide := Shifted(wide);
    }
    WidenDone(wide, addr, mask, v, size);
  }

  class TlbState {
    const table: array2<Entry>
    var flushAddr: Word
    var flushMask: Word

    /** The slots in use, and the large pages installed since the last full flush. */
    ghost var filled: Slots
    ghost var large: set<Filled>

    constructor (modes: nat)
      ensures Valid() && fresh(table) && table.Length0 == modes && filled == map[] && large == {}
    {
      table := new Entry[modes, CPU_TLB_SIZE]((_, _) => EMPTY);
      flushAddr, flushMask, filled, large := NONE, 0, map[], {};
    }

    ghost predicate SlotOk(m: nat, i: nat)
      requires m < table.Length0 && i < table.Length1
      reads this, table
    {
      if (m, i) in filled then EntryOk(table[m, i], filled[(m, i)], i) else table[m, i] == EMPTY
    }

    ghost predicate SlotsOk()
      reads this, table
    {
      && table.Length1 == CPU_TLB_SIZE
      && (forall k | k in filled :: k.0 < table.Length0 && k.1 < CPU_TLB_SIZE)
      && forall m: nat, i: nat | m < table.Length0 && i < CPU_TLB_SIZE :: SlotOk(m, i)
    }

    ghost predicate Valid()
      reads this, table
    {
      && SlotsOk() && RegionOk(flushAddr, flushMask) && LargeCovered(large, flushAddr, flushMask)
      && forall k | k in filled && IsLarge(filled[k]) :: filled[k] in large
    }

    /** tlb_flush */
    method Flush()
      requires table.Length1 == CPU_TLB_SIZE
      modifies this, table
      ensures Valid() && filled == map[] && large == {}
      ensures forall m, i | 0 <= m < table.Length0 && 0 <= i < CPU_TLB_SIZE :: table[m, i] == EMPTY
    {
      hide EntryOk, Covers, IsMask;
      var i := 0;
      while i < CPU_TLB_SIZE
        modifies table
        invariant i <= CPU_TLB_SIZE
        invariant forall m, j | 0 <= m < table.Length0 && 0 <= j < i :: table[m, j] == EMPTY
      {
        var m := 0;
        while m < table.Length0
          modifies table
          invariant m <= table.Length0
          invariant forall n, j | 0 <= n < table.Length0 && 0 <= j < i :: table[n, j] == EMPTY
          invariant forall n | 0 <= n < m :: table[n, i] == EMPTY
        {
          table[m, i] := EMPTY;
          m := m + 1;
        }
        i := i + 1;
      }
      flushAddr, flushMask, filled, large := NONE, 0, map[], {};
    }

    /** tlb_add_large_page: the region grows to hold the new page as well. */
    method AddLargePage(v: Word, size: Word)
      requires RegionOk(flushAddr, flushMask) && LargeCovered(large, flushAddr, flushMask)
      requires IsPowerOfTwo(size) && size > TARGET_PAGE_SIZE
      modifies this`flushAddr, this`flushMask, this`large
      ensures RegionOk(flushAddr, flushMask) && LargeCovered(large, flushAddr, flushMask)
      ensures large == old(large) + {Filled(v, size)}
      ensures if old(flushAddr) == NONE then flushMask == MaskOf(size)
              else forall m | Joins(m, old(flushAddr), old(flushMask), v, size) :: Within(m, flushMask)
    {
      hide IsMask, IsPowerOfTwo, Masked, Within, MaskOf, IsLarge, Joins;
      if flushAddr == NONE {
        SizeIsMask(size, v);
        assert large == {};
        flushAddr, flushMask := Masked(v, MaskOf(size)), MaskOf(size);
      } else {
        var mask := Widen(flushAddr, flushMask, v, size);
        AllCoverWider(large, flushAddr, flushMask, mask);
        flushAddr, flushMask := Masked(flushAddr, mask), mask;
      }
      large := large + {Filled(v, size)};
    }

    /** tlb_set_page, given what the physical section says: whether it is I/O, watched, read-only, or not yet dirty. */
    method SetPage(m: nat, v: Word, size: Word, canRead: bool, canWrite: bool, canExec: bool, mmio: bool,
                   watched: bool, rom: bool, clean: bool)
      requires Valid() && m < table.Length0 && Filled(v, size).Ok()
      modifies this, table
      ensures Valid() && filled == old(filled)[(m, Index(v)) := Filled(v, size)]
      ensures large == old(large) + if size != TARGET_PAGE_SIZE then {Filled(v, size)} else {}
      ensures forall n, i | 0 <= n < table.Length0 && 0 <= i < CPU_TLB_SIZE && !(n == m && i == Index(v)) ::
        table[n, i] == old(table[n, i])
      ensures table[m, Index(v)] == MakeEntry(v, canRead, canWrite, canExec, mmio, watched, rom, clean)
      ensures FlagsRight(table[m, Index(v)], canRead, canWrite, canExec, mmio, watched, rom, clean)
      ensures forall a: Word :: ServesExactly(table[m, Index(v)], v, a, canRead, canWrite, canExec)
    {
      hide IsMask, Covers, IsPowerOfTwo, Index, Serves, IsPage, MakeEntry, EntryOk, FlagsRight,
           ServesExactly;
      if size != TARGET_PAGE_SIZE {
        AddLargePage(v, size);
      }
      var e := MakeEntry(v, canRead, canWrite, canExec, mmio, watched, rom, clean);
      EntryMade(Filled(v, size), canRead, canWrite, canExec, mmio, watched, rom, clean);
      EntryServes(Filled(v, size), canRead, canWrite, canExec, mmio, watched, rom, clean);
      EntryFlags(v, canRead, canWrite, canExec, mmio, watched, rom, clean);
      table[m, Index(v)] := e;
      filled := filled[(m, Index(v)) := Filled(v, size)];
      forall n: nat, j: nat | n < table.Length0 && j < CPU_TLB_SIZE
        ensures SlotOk(n, j)
      {
        assert old(SlotOk(n, j));
      }
    }

    /** tlb_flush_page: afterwards nothing serves the page of `addr`, nor is any large page that holds it left. */
    method FlushPage(addr: Word)
      requires Valid()
      modifies this, table
      ensures Valid()
      ensures forall m: nat, i: nat | m < table.Length0 && i < CPU_TLB_SIZE ::
        !Serves(table[m, i].read, addr) && !Serves(table[m, i].write, addr) && !Serves(table[m, i].code, addr)
      ensures forall f | f in large :: !SamePage(addr, f.v, f.size)
      ensures if old(Masked(addr, flushMask) == flushAddr) then filled == map[] && large == {}
              else
                && flushAddr == old(flushAddr) && flushMask == old(flushMask) && large == old(large)
                && forall m: nat, i: nat | m < table.Length0 && i < CPU_TLB_SIZE ::
                     table[m, i] == if old(table[m, i]).For(addr) then EMPTY else old(table[m, i])
    {
      hide IsMask, Covers, Index, SamePage, Masked, EntryOk, IsLarge, Entry.For, PageOf, Serves;
      EmptyServesNothing(addr);
      forall e: Entry
        ensures !e.For(addr) ==> !Serves(e.read, addr) && !Serves(e.write, addr) && !Serves(e.code, addr)
      {
        ForNothing(e, addr);
      }
      if Masked(addr, flushMask) == flushAddr {
        Flush();
        return;
      }
      NoneLarge(large, flushAddr, flushMask, addr);
      OnlyInItsSlot(addr);
      SameIndex(addr);
      FlushSlot(Index(PageOf(addr)), addr);
    }

    /** Empty the entries for `addr` in slot `i` of every mode. */
    method FlushSlot(i: nat, addr: Word)
      requires Valid() && i < CPU_TLB_SIZE
      modifies table, this`filled
      ensures Valid() && filled.Keys <= old(filled).Keys && forall k | k in filled :: filled[k] == old(filled)[k]
      ensures forall n: nat, j: nat | n < table.Length0 && j < CPU_TLB_SIZE ::
        table[n, j] == if j == i && old(table[n, j]).For(addr) then EMPTY else old(table[n, j])
    {
      hide IsMask, Covers, Index, EntryOk, IsLarge, Entry.For;
      var m := 0;
      while m < table.Length0
        modifies table, this`filled
        invariant m <= table.Length0 && Valid()
        invariant forall n: nat, j: nat | n < table.Length0 && j < CPU_TLB_SIZE ::
          table[n, j] == if n < m && j == i && old(table[n, j]).For(addr) then EMPTY else old(table[n, j])
        invariant filled.Keys <= old(filled).Keys && forall k | k in filled :: filled[k] == old(filled)[k]
      {
        FlushEntry(m, i, addr);
        m := m + 1;
      }
    }

    /** tlb_flush_entry: an entry with a tag for the page goes. */
    method FlushEntry(m: nat, i: nat, addr: Word)
      requires Valid() && m < table.Length0 && i < CPU_TLB_SIZE
      modifies table, this`filled
      ensures Valid() && table[m, i] == if old(table[m, i]).For(addr) then EMPTY else old(table[m, i])
      ensures filled == if old(table[m, i]).For(addr) then old(filled) - {(m, i)} else old(filled)
      ensures var e := table[m, i]; !Serves(e.read, addr) && !Serves(e.write, addr) && !Serves(e.code, addr)
      ensures forall n: nat, j: nat | n < table.Length0 && j < CPU_TLB_SIZE && !(n == m && j == i) ::
        table[n, j] == old(table[n, j])
    {
      hide IsMask, Covers, Index, EntryOk, IsLarge, Entry.For, Serves;
      ForNothing(table[m, i], addr);
      EmptyServesNothing(addr);
      ForNothing(EMPTY, addr);
      if !table[m, i].For(addr) {
        return;
      }
      table[m, i] := EMPTY;
      filled := filled - {(m, i)};
      forall n: nat, j: nat | n < table.Length0 && j < CPU_TLB_SIZE
        ensures SlotOk(n, j)
      {
        assert old(SlotOk(n, j));
      }
    }

    lemma OnlyInItsSlot(addr: Word)
      requires SlotsOk()
      ensures forall m: nat, i: nat | m < table.Length0 && i < CPU_TLB_SIZE && table[m, i].For(addr) :: i == Index(addr)
    {
      hide EntryOk, Index, Entry.For;
      EmptyServesNothing(addr);
      forall m: nat, i: nat | m < table.Length0 && i < CPU_TLB_SIZE && table[m, i].For(addr)
        ensures i == Index(addr)
      {
        assert SlotOk(m, i);
        EntryServesItsPage(table[m, i], filled[(m, i)], i, addr);
      }
    }
  }

  lemma NoneIsTag(v: Word)
    ensures TagOf(NONE, v)
  {
  }
}
