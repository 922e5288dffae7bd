/** Allocation of RAM blocks in the RAM address space, and lookup through the most recently used block (exec.c). */
module RamBlocks {
  import opened Prelude
  import opened Arithmetic

  const RAM_ADDR_MAX := 0xffff_ffff_ffff_ffff
  const RAM_ADDR_WORD := 0x1_0000_0000_0000_0000

  /** The list counts its changes in 32 bits. */
  const VERSION_WORD := 0x1_0000_0000

  datatype Extent = Extent(offset: nat, length: nat) {
    function End(): nat {
      offset + length
    }

    predicate Contains(addr: nat) {
      offset <= addr < End()
    }

    /** The test of the original, on unsigned words. */
    predicate Hit(addr: nat) {
      (addr - offset) % RAM_ADDR_WORD < length
    }
  }

  ghost predicate BlockOk(page: nat, b: Extent)
    requires page > 0
  {
    0 < b.length && b.End() <= RAM_ADDR_MAX && b.offset % page == 0 && b.length % page == 0
  }

  ghost predicate Apart(a: Extent, b: Extent) {
    a.End() <= b.offset || b.End() <= a.offset
  }

  /** Aligned blocks that do not overlap, longest first. */
  ghost predicate ListOk(page: nat, blocks: seq<Extent>)
    requires page > 0
  {
    && (forall i | 0 <= i < |blocks| :: BlockOk(page, blocks[i]))
    && (forall i, j | 0 <= i < j < |blocks| :: Apart(blocks[i], blocks[j]) && blocks[i].length >= blocks[j].length)
  }

  lemma HitIsContains(b: Extent, addr: nat)
    requires b.End() <= RAM_ADDR_MAX && addr <= RAM_ADDR_MAX
    ensures b.Hit(addr) <==> b.Contains(addr)
  {
    if addr < b.offset {
      DivIs(addr - b.offset, RAM_ADDR_WORD, -1);
    } else {
      DivIs(addr - b.offset, RAM_ADDR_WORD, 0);
    }
  }

  /** Where free space that begins at `end` stops. */
  ghost function NextStart(blocks: seq<Extent>, end: nat): nat {
    if blocks == [] then RAM_ADDR_MAX
    else
      var rest := NextStart(blocks[1..], end);
      if blocks[0].offset >= end then Min(rest, blocks[0].offset) else rest
  }

  lemma {:induction false} NextStartSnoc(blocks: seq<Extent>, b: Extent, end: nat)
    ensures NextStart(blocks + [b], end) ==
      if b.offset >= end then Min(NextStart(blocks, end), b.offset) else NextStart(blocks, end)
  {
    if blocks == [] {
      assert [b][1..] == [];
    } else {
      assert (blocks + [b])[1..] == blocks[1..] + [b];
      NextStartSnoc(blocks[1..], b, end);
    }
  }

  lemma {:induction false} NothingBefore(blocks: seq<Extent>, end: nat, i: nat)
    requires i < |blocks|
    ensures blocks[i].offset >= end ==> NextStart(blocks, end) <= blocks[i].offset
  {
    if i > 0 {
      NothingBefore(blocks[1..], end, i - 1);
    }
  }

  ghost function Gap(blocks: seq<Extent>, i: nat): int
    requires i < |blocks|
  {
    NextStart(blocks, blocks[i].End()) - blocks[i].End()
  }

  /** The space after an existing block that fits `size` most tightly; the first such block in the list. */
  ghost predicate BestFit(blocks: seq<Extent>, size: nat, offset: nat) {
    if blocks == [] then offset == 0
    else exists i :: 0 <= i < |blocks| && Tightest(blocks, size, i) && offset == blocks[i].End()
  }

  ghost predicate Tightest(blocks: seq<Extent>, size: nat, i: nat)
    requires i < |blocks|
  {
    && size <= Gap(blocks, i)
    && (forall j | 0 <= j < |blocks| && size <= Gap(blocks, j) :: Gap(blocks, i) <= Gap(blocks, j))
    && (forall j | 0 <= j < i && size <= Gap(blocks, j) :: Gap(blocks, i) < Gap(blocks, j))
  }

  /** Free space after a block can be given away without touching any block. */
  lemma GapIsFree(page: nat, blocks: seq<Extent>, i: nat, size: nat)
    requires page > 0 && ListOk(page, blocks) && i < |blocks| && 0 < size <= Gap(blocks, i)
    ensures forall j | 0 <= j < |blocks| :: Apart(Extent(blocks[i].End(), size), blocks[j])
    ensures blocks[i].End() + size <= RAM_ADDR_MAX
  {
    NextStartAtMost(blocks, blocks[i].End());
    forall j | 0 <= j < |blocks|
      ensures Apart(Extent(blocks[i].End(), size), blocks[j])
    {
      NothingBefore(blocks, blocks[i].End(), j);
      assert i < j ==> Apart(blocks[i], blocks[j]);
      assert j < i ==> Apart(blocks[j], blocks[i]);
      assert BlockOk(page, blocks[i]) && BlockOk(page, blocks[j]);
    }
  }

  lemma {:induction false} NextStartAtMost(blocks: seq<Extent>, end: nat)
    ensures NextStart(blocks, end) <= RAM_ADDR_MAX
  {
    if blocks != [] {
      NextStartAtMost(blocks[1..], end);
    }
  }

  lemma AlignedSum(a: nat, b: nat, page: nat)
    requires page > 0 && a % page == 0 && b % page == 0
    ensures (a + b) % page == 0
  {
    DivBounds(a, page);
    DivBounds(b, page);
    assert (a / page + b / page) * page == a / page * page + b / page * page;
    DivIs(a + b, page, a / page + b / page);
  }

  /** Before the first shorter block. */
  ghost predicate PlaceFor(blocks: seq<Extent>, length: nat, i: nat)
    requires i <= |blocks|
  {
    (forall j | 0 <= j < i :: blocks[j].length >= length) && (i < |blocks| ==> blocks[i].length < length)
  }

  class RamList {
    const page: nat
    var blocks: seq<Extent>
    var mru: Option<Extent>
    var version: nat

    constructor (page: nat)
      requires page > 0
      ensures Valid() && blocks == [] && this.page == page
    {
      this.page := page;
      blocks, mru, version := [], None, 0;
    }

    ghost predicate Valid()
      reads this
    {
      page > 0 && ListOk(page, blocks) && (mru.Some? ==> mru.value in blocks)
    }

    /** find_ram_offset; without a large enough gap the emulator aborts. */
    method FindRamOffset(size: nat) returns (found: Option<nat>)
      requires Valid() && size > 0
      ensures found.Some? ==> BestFit(blocks, size, found.value)
      ensures found.None? <==> blocks != [] && forall i | 0 <= i < |blocks| :: Gap(blocks, i) < size
    {
      if blocks == [] {
        return Some(0);
      }
      var offset, mingap := RAM_ADDR_MAX, RAM_ADDR_MAX;
      ghost var best: nat := 0;
      var i := 0;
      while i < |blocks|
        invariant i <= |blocks|
        invariant if offset == RAM_ADDR_MAX
                  then mingap == RAM_ADDR_MAX && forall j | 0 <= j < i :: Gap(blocks, j) < size
                  else
                    && best < i && offset == blocks[best].End() && mingap == Gap(blocks, best)
                    && size <= mingap < RAM_ADDR_MAX
                    && forall j | 0 <= j < i && size <= Gap(blocks, j) ::
                         if j < best then mingap < Gap(blocks, j) else mingap <= Gap(blocks, j)
      {
        var end := blocks[i].End();
        var next := NextAfter(end);
        assert BlockOk(page, blocks[i]);
        NextStartAtMost(blocks, end);
        if next - end >= size && next - end < mingap {
          offset, mingap := end, next - end;
          best := i;
        }
        i := i + 1;
      }
      if offset == RAM_ADDR_MAX {
        return None;
      }
      assert Tightest(blocks, size, best);
      return Some(offset);
    }

    method NextAfter(end: nat) returns (next: nat)
      ensures next == NextStart(blocks, end)
    {
      next := RAM_ADDR_MAX;
      var i := 0;
      while i < |blocks|
        invariant i <= |blocks| && next == NextStart(blocks[..i], end)
      {
        assert blocks[..i + 1] == blocks[..i] + [blocks[i]];
        NextStartSnoc(blocks[..i], blocks[i], end);
        if blocks[i].offset >= end {
          next := Min(next, blocks[i].offset);
        }
        i := i + 1;
      }
      assert blocks[..i] == blocks;
    }

    /** qemu_ram_alloc */
    method Alloc(size: nat) returns (r: Option<nat>)
      requires Valid() && 0 < size && size + page <= RAM_ADDR_MAX
      modifies this
      ensures Valid()
      ensures r.None? <==>
        old(blocks) != [] && forall i | 0 <= i < |old(blocks)| :: Gap(old(blocks), i) < AlignUp(size, page)
      ensures r.None? ==> blocks == old(blocks) && mru == old(mru)
      ensures r.Some? ==>
        && BestFit(old(blocks), AlignUp(size, page), r.value)
        && mru == None && version == (old(version) + 1) % VERSION_WORD
        && exists i :: 0 <= i <= |old(blocks)| && PlaceFor(old(blocks), AlignUp(size, page), i) &&
             blocks == Inserted(old(blocks), i, Extent(r.value, AlignUp(size, page)))
    {
      hide ListOk, Gap, BestFit;
      var length := AlignUp(size, page);
      r := FindRamOffset(length);
      if r.None? {
        return;
      }
      var b := Extent(r.value, length);
      NewBlockOk(page, blocks, b);
      var i := 0;
      while i < |blocks| && blocks[i].length >= length
        invariant i <= |blocks| && forall j | 0 <= j < i :: blocks[j].length >= length
      {
        i := i + 1;
      }
      InsertOk(page, blocks, b, i);
      assert PlaceFor(blocks, length, i);
      blocks := Inserted(blocks, i, b);
      mru, version := None, (version + 1) % VERSION_WORD;
    }

    /** qemu_ram_free: the block at `addr` goes, if there is one, and the others keep their order. */
    method Free(addr: nat)
      requires Valid()
      modifies this
      ensures Valid()
      ensures if exists i :: 0 <= i < |old(blocks)| && old(blocks)[i].offset == addr
              then (exists i :: && 0 <= i < |old(blocks)| && old(blocks)[i].offset == addr
                                && blocks == old(blocks)[..i] + old(blocks)[i + 1..])
                   && mru == None && version == (old(version) + 1) % VERSION_WORD
              else blocks == old(blocks) && mru == old(mru) && version == old(version)
      ensures forall b | b in blocks :: b.offset != addr
    {
      hide ListOk;
      var i := 0;
      while i < |blocks|
        invariant i <= |blocks| && blocks == old(blocks) && mru == old(mru) && version == old(version)
        invariant forall j | 0 <= j < i :: blocks[j].offset != addr
      {
        if addr == blocks[i].offset {
          RemoveOk(page, blocks, i);
          blocks := blocks[..i] + blocks[i + 1..];
          mru, version := None, (version + 1) % VERSION_WORD;
          return;
        }
        i := i + 1;
      }
    }

    /** A block that comes and goes leaves the list as it was, and two changes on the count. */
    method AllocThenFree(size: nat) returns (r: Option<nat>)
      requires Valid() && 0 < size && size + page <= RAM_ADDR_MAX
      modifies this
      ensures Valid() && blocks == old(blocks)
      ensures r.Some? ==> version == (old(version) + 2) % VERSION_WORD
    {
      hide ListOk, Gap, BestFit, PlaceFor, Inserted;
      r := Alloc(size);
      if r.Some? {
        ghost var e := Extent(r.value, AlignUp(size, page));
        ghost var i :| 0 <= i <= |old(blocks)| && blocks == Inserted(old(blocks), i, e);
        ghost var more := blocks;
        InsertedAt(old(blocks), i, e, i);
        assert more[i].offset == r.value;
        Free(r.value);
        ghost var j :| 0 <= j < |more| && more[j].offset == r.value && blocks == more[..j] + more[j + 1..];
        OffsetsDiffer(page, more, i, j);
        RemoveInserted(old(blocks), i, e);
      }
    }

    /** qemu_get_ram_ptr: the block and the offset in it; an address in no block aborts. */
    method GetRamPtr(addr: nat) returns (r: Option<(Extent, nat)>)
      requires Valid() && addr <= RAM_ADDR_MAX
      modifies this`mru
      ensures Valid()
      ensures r.Some? ==>
        && r.value.0 in blocks && r.value.0.Contains(addr) && r.value.1 == addr - r.value.0.offset
        && mru == Some(r.value.0)
      ensures r.Some? ==> forall b | b in blocks && b.Contains(addr) :: b == r.value.0
      ensures r.None? <==> forall b | b in blocks :: !b.Contains(addr)
    {
      hide ListOk;
      BlocksBounded(page, blocks);
      if mru.Some? {
        HitIsContains(mru.value, addr);
        if mru.value.Hit(addr) {
          OnlyOne(page, blocks, mru.value, addr);
          return Some((mru.value, addr - mru.value.offset));
        }
      }
      var i := 0;
      while i < |blocks|
        invariant i <= |blocks| && mru == old(mru) && forall j | 0 <= j < i :: !blocks[j].Contains(addr)
      {
        var b := blocks[i];
        HitIsContains(b, addr);
        if b.Hit(addr) {
          OnlyOne(page, blocks, b, addr);
          mru := Some(b);
          return Some((b, addr - b.offset));
        }
        i := i + 1;
      }
      return None;
    }
  }

  lemma BlocksBounded(page: nat, blocks: seq<Extent>)
    requires page > 0 && ListOk(page, blocks)
    ensures forall b | b in blocks :: b.End() <= RAM_ADDR_MAX
  {
  }

  lemma AnyApart(page: nat, blocks: seq<Extent>, i: nat, j: nat)
    requires page > 0 && ListOk(page, blocks) && i < |blocks| && j < |blocks| && i != j
    ensures Apart(blocks[i], blocks[j])
  {
    assert i < j ==> Apart(blocks[i], blocks[j]);
    assert j < i ==> Apart(blocks[j], blocks[i]);
  }

  lemma OnlyOne(page: nat, blocks: seq<Extent>, b: Extent, addr: nat)
    requires page > 0 && ListOk(page, blocks) && b in blocks && b.Contains(addr)
    ensures forall c | c in blocks && c.Contains(addr) :: c == b
  {
    hide ListOk;
    var i: nat :| i < |blocks| && blocks[i] == b;
    forall c | c in blocks && c.Contains(addr)
      ensures c == b
    {
      var j: nat :| j < |blocks| && blocks[j] == c;
      if i != j {
        AnyApart(page, blocks, i, j);
      }
    }
  }

  lemma NewBlockOk(page: nat, blocks: seq<Extent>, b: Extent)
    requires page > 0 && ListOk(page, blocks) && 0 < b.length <= RAM_ADDR_MAX && b.length % page == 0
    requires BestFit(blocks, b.length, b.offset)
    ensures BlockOk(page, b) && forall j | 0 <= j < |blocks| :: Apart(b, blocks[j])
  {
    if blocks != [] {
      var i :| 0 <= i < |blocks| && Tightest(blocks, b.length, i) && b.offset == blocks[i].End();
      GapIsFree(page, blocks, i, b.length);
      assert BlockOk(page, blocks[i]);
      AlignedSum(blocks[i].offset, blocks[i].length, page);
    }
  }

  lemma ListPair(page: nat, blocks: seq<Extent>, i: nat, j: nat)
    requires page > 0 && ListOk(page, blocks) && i < |blocks| && j < |blocks|
    ensures BlockOk(page, blocks[i]) && BlockOk(page, blocks[j]) && (i != j ==> Apart(blocks[i], blocks[j]))
  {
  }

  lemma OffsetsDiffer(page: nat, blocks: seq<Extent>, i: nat, j: nat)
    requires page > 0 && ListOk(page, blocks) && i < |blocks| && j < |blocks| && blocks[i].offset == blocks[j].offset
    ensures i == j
  {
    ListPair(page, blocks, i, j);
  }

  lemma RemoveInserted(blocks: seq<Extent>, i: nat, b: Extent)
    requires i <= |blocks|
    ensures var all := Inserted(blocks, i, b); all[..i] + all[i + 1..] == blocks
  {
  }

  lemma InsertOk(page: nat, blocks: seq<Extent>, b: Extent, i: nat)
    requires page > 0 && ListOk(page, blocks) && BlockOk(page, b) && i <= |blocks|
    requires forall j | 0 <= j < |blocks| :: Apart(b, blocks[j])
    requires forall j | 0 <= j < i :: blocks[j].length >= b.length
    requires i < |blocks| ==> blocks[i].length < b.length
    ensures ListOk(page, Inserted(blocks, i, b))
  {
    hide Inserted;
    var all := Inserted(blocks, i, b);
    forall j: nat | j < |all|
      ensures BlockOk(page, all[j])
    {
      InsertedAt(blocks, i, b, j);
    }
    forall j | i <= j < |blocks|
      ensures blocks[j].length < b.length
    {
      assert j > i ==> blocks[i].length >= blocks[j].length;
    }
    forall j: nat, k: nat | j < k < |all|
      ensures Apart(all[j], all[k]) && all[j].length >= all[k].length
    {
      InsertedAt(blocks, i, b, j);
      InsertedAt(blocks, i, b, k);
    }
  }

  lemma RemoveOk(page: nat, blocks: seq<Extent>, i: nat)
    requires page > 0 && ListOk(page, blocks) && i < |blocks|
    ensures ListOk(page, blocks[..i] + blocks[i + 1..])
    ensures forall b | b in blocks[..i] + blocks[i + 1..] :: b.offset != blocks[i].offset
  {
    var rest := blocks[..i] + blocks[i + 1..];
    forall j | 0 <= j < |rest|
      ensures rest[j] == blocks[if j < i then j else j + 1] && rest[j].offset != blocks[i].offset
    {
      var k := if j < i then j else j + 1;
      assert BlockOk(page, blocks[i]) && BlockOk(page, blocks[k]);
      assert i < k ==> Apart(blocks[i], blocks[k]);
      assert k < i ==> Apart(blocks[k], blocks[i]);
    }
  }
}
