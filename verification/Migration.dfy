/** RAM migration: the dirty bitmap, the circular scan, and safety over whole runs (arch_init.c). */
module Migration {
  import opened Prelude
  import opened Arithmetic
  import opened MigrationStream
  import RamBlocks

  // Bitmaps and their population.

  ghost function Count(bits: seq<bool>): nat {
    if bits == [] then 0 else (if bits[0] then 1 else 0) + Count(bits[1..])
  }

  lemma {:induction false} CountUpdate(bits: seq<bool>, i: nat, v: bool)
    requires i < |bits|
    ensures Count(bits[i := v]) == Count(bits) - (if bits[i] then 1 else 0) + (if v then 1 else 0)
  {
    if i == 0 {
      assert bits[i := v][1..] == bits[1..];
    } else {
      assert bits[i := v][1..] == bits[1..][i - 1 := v];
      CountUpdate(bits[1..], i - 1, v);
    }
  }

  lemma {:induction false} CountAll(bits: seq<bool>)
    requires forall i | 0 <= i < |bits| :: bits[i]
    ensures Count(bits) == |bits|
  {
    if bits != [] {
      CountAll(bits[1..]);
    }
  }

  /** The first set bit from `from` on, or `size`. */
  method FindNextBit(bits: seq<bool>, size: nat, from: nat) returns (next: nat)
    requires from <= size <= |bits|
    ensures from <= next <= size && (forall i | from <= i < next :: !bits[i]) && (next < size ==> bits[next])
  {
    next := from;
    while next < size && !bits[next]
      invariant from <= next <= size && forall i | from <= i < next :: !bits[i]
    {
      next := next + 1;
    }
  }

  /** Every byte of the page is the first one. */
  method IsDupPage(p: Page) returns (dup: bool)
    requires p != []
    ensures dup <==> p == Repeat(p[0], |p|)
  {
    var i := 0;
    while i < |p|
      invariant i <= |p| && forall j | 0 <= j < i :: p[j] == p[0]
    {
      if p[i] != p[0] {
        return false;
      }
      i := i + 1;
    }
    return true;
  }

  // The block list in the space of RAM page numbers.

  ghost predicate BlocksApart(blocks: seq<RamBlock>) {
    forall i, j | 0 <= i < j < |blocks| ::
      blocks[i].base + blocks[i].pages <= blocks[j].base || blocks[j].base + blocks[j].pages <= blocks[i].base
  }

  ghost predicate BlocksWithin(blocks: seq<RamBlock>, size: nat) {
    forall i | 0 <= i < |blocks| :: blocks[i].base + blocks[i].pages <= size
  }

  /** The blocks of the allocator's list, counted in pages. */
  function Paged(page: nat, list: seq<RamBlocks.Extent>, names: seq<seq<Byte>>): seq<RamBlock>
    requires page > 0 && |names| == |list|
  {
    seq(|list|, i requires 0 <= i < |list| =>
      RamBlock(names[i], Quot(list[i].offset, page), Quot(list[i].length, page)))
  }

  /** What the allocator keeps of its list is what migration needs of it: blocks of whole pages that share none. */
  lemma AllocatedApart(page: nat, list: seq<RamBlocks.Extent>, names: seq<seq<Byte>>)
    requires page > 0 && |names| == |list| && RamBlocks.ListOk(page, list)
    ensures BlocksApart(Paged(page, list, names))
    ensures forall i | 0 <= i < |list| :: Paged(page, list, names)[i].pages > 0
  {
    hide Quot;
    forall i | 0 <= i < |list|
      ensures Quot(list[i].length, page) > 0
      ensures Quot(list[i].offset, page) + Quot(list[i].length, page) == Quot(list[i].End(), page)
    {
      assert RamBlocks.BlockOk(page, list[i]);
      PagesOf(page, list[i].offset, list[i].length);
    }
    forall i, j | 0 <= i < j < |list|
      ensures || Quot(list[i].End(), page) <= Quot(list[j].offset, page)
              || Quot(list[j].End(), page) <= Quot(list[i].offset, page)
    {
      if list[i].End() <= list[j].offset {
        QuotMonotone(list[i].End(), list[j].offset, page);
      } else {
        QuotMonotone(list[j].End(), list[i].offset, page);
      }
    }
  }

  lemma PagesOf(page: nat, offset: nat, length: nat)
    requires page > 0 && offset % page == 0 && length % page == 0 && length > 0
    ensures Quot(length, page) > 0 && Quot(offset, page) + Quot(length, page) == Quot(offset + length, page)
  {
    DivBounds(offset, page);
    DivBounds(length, page);
    var a, b := offset / page, length / page;
    assert (a + b) * page == a * page + b * page;
    DivIs(offset + length, page, a + b);
  }

  lemma QuotMonotone(a: nat, b: nat, page: nat)
    requires page > 0 && a <= b
    ensures Quot(a, page) <= Quot(b, page)
  {
    DivMonotone(a, b, page);
  }

  /** last_ram_offset, in pages. */
  method LastRamPage(blocks: seq<RamBlock>) returns (last: nat)
    ensures BlocksWithin(blocks, last)
    ensures blocks == [] ==> last == 0
    ensures blocks != [] ==> exists i | 0 <= i < |blocks| :: last == blocks[i].base + blocks[i].pages
  {
    last := 0;
    var i := 0;
    while i < |blocks|
      invariant i <= |blocks| && forall j | 0 <= j < i :: blocks[j].base + blocks[j].pages <= last
      invariant i == 0 ==> last == 0
      invariant i > 0 ==> exists j | 0 <= j < i :: last == blocks[j].base + blocks[j].pages
    {
      if i == 0 || blocks[i].base + blocks[i].pages > last {
        last := blocks[i].base + blocks[i].pages;
      }
      i := i + 1;
    }
  }

  function Bit(blocks: seq<RamBlock>, b: nat, k: nat): nat
    requires b < |blocks|
  {
    blocks[b].base + k
  }

  ghost predicate IsPage(blocks: seq<RamBlock>, b: nat, k: nat) {
    b < |blocks| && k < blocks[b].pages
  }

  ghost predicate BitOf(bits: seq<bool>, blocks: seq<RamBlock>, b: nat, k: nat)
    requires BlocksWithin(blocks, |bits|) && IsPage(blocks, b, k)
  {
    bits[Bit(blocks, b, k)]
  }

  lemma BitsDiffer(blocks: seq<RamBlock>, b: nat, k: nat, c: nat, l: nat)
    requires BlocksApart(blocks) && IsPage(blocks, b, k) && IsPage(blocks, c, l)
    ensures Bit(blocks, b, k) == Bit(blocks, c, l) <==> b == c && k == l
  {
  }

  /** Changing one page's bit changes no other page's. */
  lemma BitUpdate(bits: seq<bool>, blocks: seq<RamBlock>, b: nat, k: nat, v: bool)
    requires BlocksApart(blocks) && BlocksWithin(blocks, |bits|) && IsPage(blocks, b, k)
    ensures forall c: nat, l: nat {:trigger BitOf(bits[Bit(blocks, b, k) := v], blocks, c, l)} | IsPage(blocks, c, l) ::
      BitOf(bits[Bit(blocks, b, k) := v], blocks, c, l) == if c == b && l == k then v else BitOf(bits, blocks, c, l)
  {
    forall c: nat, l: nat {:trigger BitOf(bits[Bit(blocks, b, k) := v], blocks, c, l)} | IsPage(blocks, c, l)
      ensures BitOf(bits[Bit(blocks, b, k) := v], blocks, c, l) ==
              if c == b && l == k then v else BitOf(bits, blocks, c, l)
    {
      BitsDiffer(blocks, b, k, c, l);
    }
  }

  /** No page of block `b` from page `from` on is marked. */
  ghost predicate CleanFrom(bits: seq<bool>, blocks: seq<RamBlock>, b: nat, from: nat)
    requires BlocksWithin(blocks, |bits|) && b < |blocks|
  {
    forall k: nat | from <= k < blocks[b].pages :: !BitOf(bits, blocks, b, k)
  }

  ghost predicate AllClean(bits: seq<bool>, blocks: seq<RamBlock>)
    requires BlocksWithin(blocks, |bits|)
  {
    forall b: nat | b < |blocks| :: CleanFrom(bits, blocks, b, 0)
  }

  // What has been sent.

  /** The contents last sent for a page. */
  ghost function Latest(page: nat, recs: seq<Record>, b: nat, k: nat): Option<Page> {
    if recs == [] then None
    else
      var r := recs[|recs| - 1];
      if (r.Dup? || r.Full?) && r.block == b && r.index == k then Some(Contents(page, r))
      else Latest(page, recs[..|recs| - 1], b, k)
  }

  lemma Snoc(recs: seq<Record>, r: Record)
    ensures (recs + [r])[..|recs + [r]| - 1] == recs && (recs + [r])[|recs + [r]| - 1] == r
  {
  }

  /** The block of the last page sent. */
  ghost function LastFrom(last: Option<nat>, recs: seq<Record>): Option<nat>
    decreases |recs|
  {
    if recs == [] then last else LastFrom(NextSent(last, recs[0]), recs[1..])
  }

  lemma {:induction false} LastFromSnoc(last: Option<nat>, recs: seq<Record>, r: Record)
    ensures LastFrom(last, recs + [r]) == NextSent(LastFrom(last, recs), r)
    decreases |recs|
  {
    if recs == [] {
      assert [r][1..] == [];
    } else {
      assert (recs + [r])[1..] == recs[1..] + [r];
      LastFromSnoc(NextSent(last, recs[0]), recs[1..], r);
    }
  }

  lemma {:induction false} RecordsOkSnoc(page: nat, blocks: seq<RamBlock>, last: Option<nat>, recs: seq<Record>,
                                         r: Record)
    requires RecordsOk(page, blocks, last, recs) && RecordOk(page, blocks, LastFrom(last, recs), r)
    ensures RecordsOk(page, blocks, last, recs + [r])
    decreases |recs|
  {
    hide RecordOk, NextSent;
    if recs == [] {
      assert recs + [r] == [r] && [r][1..] == [];
    } else {
      assert (recs + [r])[1..] == recs[1..] + [r];
      RecordsOkSnoc(page, blocks, NextSent(last, recs[0]), recs[1..], r);
    }
  }

  lemma {:induction false} EncodeAllSnoc(page: nat, blocks: seq<RamBlock>, recs: seq<Record>, r: Record)
    requires BlocksNamed(blocks, recs) && (r.Dup? || r.Full? ==> r.block < |blocks|)
    ensures BlocksNamed(blocks, recs + [r])
    ensures EncodeAll(page, blocks, recs + [r]) == EncodeAll(page, blocks, recs) + Encode(page, blocks, r)
  {
    hide Encode;
    assert (recs + [r])[|recs|] == r;
    if recs == [] {
      assert recs + [r] == [r] && [r][1..] == [];
    } else {
      assert (recs + [r])[1..] == recs[1..] + [r];
      EncodeAllSnoc(page, blocks, recs[1..], r);
    }
  }

  lemma {:induction false} ApplyAllSnoc(page: nat, table: seq<RamBlock>, blocks: seq<RamBlock>, d: Dest,
                                        recs: seq<Record>, r: Record)
    requires BlocksNamed(blocks, recs) && (r.Dup? || r.Full? ==> r.block < |blocks|)
    ensures BlocksNamed(blocks, recs + [r])
    ensures ApplyAll(page, table, blocks, d, recs + [r]) ==
      Apply(page, table, blocks, ApplyAll(page, table, blocks, d, recs), r)
    decreases |recs|
  {
    hide Apply;
    if recs == [] {
      assert recs + [r] == [r] && [r][1..] == [];
    } else {
      assert (recs + [r])[1..] == recs[1..] + [r];
      ApplyAllSnoc(page, table, blocks, Apply(page, table, blocks, d, recs[0]), recs[1..], r);
    }
  }

  lemma {:induction false} ApplyAllShaped(page: nat, table: seq<RamBlock>, blocks: seq<RamBlock>, last: Option<nat>,
                                          d: Dest, recs: seq<Record>)
    requires Paired(page, table, blocks) && Shaped(page, table, d.mem) && InStep(table, blocks, last, d)
    requires RecordsOk(page, blocks, last, recs) && BlocksNamed(blocks, recs)
    ensures Shaped(page, table, ApplyAll(page, table, blocks, d, recs).mem)
    decreases |recs|
  {
    hide Apply, Paired, Shaped, InStep, RecordOk;
    if recs != [] {
      ApplyKeeps(page, table, blocks, last, d, recs[0]);
      ApplyAllShaped(page, table, blocks, NextSent(last, recs[0]), Apply(page, table, blocks, d, recs[0]), recs[1..]);
    }
  }

  lemma {:induction false} RecordsOkPrefix(page: nat, blocks: seq<RamBlock>, last: Option<nat>, recs: seq<Record>)
    requires RecordsOk(page, blocks, last, recs) && recs != []
    ensures RecordsOk(page, blocks, last, recs[..|recs| - 1])
    ensures RecordOk(page, blocks, LastFrom(last, recs[..|recs| - 1]), recs[|recs| - 1])
    decreases |recs|
  {
    hide RecordOk, NextSent;
    if |recs| > 1 {
      assert recs[..|recs| - 1][1..] == recs[1..][..|recs[1..]| - 1];
      RecordsOkPrefix(page, blocks, NextSent(last, recs[0]), recs[1..]);
    }
  }

  function To(table: seq<RamBlock>, blocks: seq<RamBlock>, b: nat): nat
    requires b < |blocks|
  {
    var r := FindBlock(table, blocks[b].id);
    if r.Some? then r.value else 0
  }

  /** Applying a record changes the page it is about, and no other. */
  lemma ApplyAt(page: nat, table: seq<RamBlock>, blocks: seq<RamBlock>, last: Option<nat>, d: Dest, r: Record,
                b: nat, k: nat)
    requires Paired(page, table, blocks) && Shaped(page, table, d.mem) && RecordOk(page, blocks, last, r)
    requires IsPage(blocks, b, k)
    ensures var to := To(table, blocks, b);
      var d' := Apply(page, table, blocks, d, r);
      && to < |d.mem| && k < |d.mem[to]| && to < |d'.mem| && k < |d'.mem[to]|
      && d'.mem[to][k] ==
         if (r.Dup? || r.Full?) && r.block == b && r.index == k then Contents(page, r) else d.mem[to][k]
  {
    hide FindBlock, Contents;
    assert Matched(table, blocks[b]);
    if r.Dup? || r.Full? {
      assert Matched(table, blocks[r.block]);
    }
  }

  /** The destination holds, for each page, the contents last sent for it. */
  lemma {:induction false} DestinationHolds(page: nat, table: seq<RamBlock>, blocks: seq<RamBlock>, d: Dest,
                                            recs: seq<Record>, b: nat, k: nat)
    requires Paired(page, table, blocks) && Shaped(page, table, d.mem) && IsPage(blocks, b, k)
    requires RecordsOk(page, blocks, None, recs) && BlocksNamed(blocks, recs)
    ensures var to := To(table, blocks, b);
      var mem := ApplyAll(page, table, blocks, d, recs).mem;
      && Shaped(page, table, mem) && to < |mem| && k < |mem[to]| && to < |d.mem| && k < |d.mem[to]|
      && mem[to][k] == if Latest(page, recs, b, k).Some? then Latest(page, recs, b, k).value else d.mem[to][k]
    decreases |recs|
  {
    hide Apply, Matches, TableOk, Bytes, FindBlock, To, Contents;
    ApplyAllShaped(page, table, blocks, None, d, recs);
    if recs == [] {
      ApplyAt(page, table, blocks, None, d, Eos, b, k);
    } else {
      var most, r := recs[..|recs| - 1], recs[|recs| - 1];
      assert recs == most + [r];
      RecordsOkPrefix(page, blocks, None, recs);
      DestinationHolds(page, table, blocks, d, most, b, k);
      ApplyAllSnoc(page, table, blocks, d, most, r);
      ApplyAt(page, table, blocks, LastFrom(None, most), ApplyAll(page, table, blocks, d, most), r, b, k);
    }
  }

  // The sender.

  /** Every page that is neither marked nor logged, except perhaps one, has been sent as it is now. */
  ghost predicate Safe(page: nat, blocks: seq<RamBlock>, bitmap: seq<bool>, logged: seq<bool>, sent: seq<Record>,
                       mem: seq<seq<Page>>, but: Option<(nat, nat)>)
    requires BlocksWithin(blocks, |bitmap|) && BlocksWithin(blocks, |logged|) && Shaped(page, blocks, mem)
  {
    forall b: nat, k: nat | IsPage(blocks, b, k) && but != Some((b, k)) ::
      BitOf(bitmap, blocks, b, k) || BitOf(logged, blocks, b, k) || Latest(page, sent, b, k) == Some(mem[b][k])
  }

  datatype Write = Write(block: nat, index: nat, data: Page)

  ghost predicate WriteOk(page: nat, blocks: seq<RamBlock>, w: Write) {
    IsPage(blocks, w.block, w.index) && |w.data| == page
  }

  ghost function Written(page: nat, blocks: seq<RamBlock>, mem: seq<seq<Page>>, ws: seq<Write>): seq<seq<Page>>
    requires Shaped(page, blocks, mem) && forall i | 0 <= i < |ws| :: WriteOk(page, blocks, ws[i])
    ensures Shaped(page, blocks, Written(page, blocks, mem, ws))
  {
    if ws == [] then mem
    else
      var before := Written(page, blocks, mem, ws[..|ws| - 1]);
      var w := ws[|ws| - 1];
      assert WriteOk(page, blocks, w);
      Store(before, w.block, w.index, w.data)
  }

  ghost predicate SomeDirty(bits: seq<bool>, blocks: seq<RamBlock>)
    requires BlocksWithin(blocks, |bits|)
  {
    exists b: nat, k: nat :: IsPage(blocks, b, k) && BitOf(bits, blocks, b, k)
  }

  /** The pages of blocks before `i`, and of block `i` before page `j`, have had their log bits moved to the bitmap. */
  ghost predicate Synced(blocks: seq<RamBlock>, bitmap0: seq<bool>, logged0: seq<bool>, bitmap: seq<bool>,
                         logged: seq<bool>, i: nat, j: nat)
    requires BlocksWithin(blocks, |bitmap0|) && BlocksWithin(blocks, |logged0|)
  {
    && |bitmap| == |bitmap0| && |logged| == |logged0|
    && forall b: nat, k: nat | IsPage(blocks, b, k) ::
         PageSynced(blocks, bitmap0, logged0, bitmap, logged, b, k, b < i || (b == i && k < j))
  }

  ghost predicate PageSynced(blocks: seq<RamBlock>, bitmap0: seq<bool>, logged0: seq<bool>, bitmap: seq<bool>,
                             logged: seq<bool>, b: nat, k: nat, done: bool)
    requires BlocksWithin(blocks, |bitmap0|) && BlocksWithin(blocks, |logged0|)
    requires |bitmap| == |bitmap0| && |logged| == |logged0| && IsPage(blocks, b, k)
  {
    if done then
      && BitOf(bitmap, blocks, b, k) == (BitOf(bitmap0, blocks, b, k) || BitOf(logged0, blocks, b, k))
      && !BitOf(logged, blocks, b, k)
    else
      && BitOf(bitmap, blocks, b, k) == BitOf(bitmap0, blocks, b, k)
      && BitOf(logged, blocks, b, k) == BitOf(logged0, blocks, b, k)
  }

  lemma SyncOne(blocks: seq<RamBlock>, bitmap0: seq<bool>, logged0: seq<bool>, bitmap: seq<bool>, logged: seq<bool>,
                i: nat, j: nat)
    requires BlocksApart(blocks) && BlocksWithin(blocks, |bitmap0|) && BlocksWithin(blocks, |logged0|)
    requires IsPage(blocks, i, j) && Synced(blocks, bitmap0, logged0, bitmap, logged, i, j)
    ensures BitOf(logged, blocks, i, j) ==>
      Synced(blocks, bitmap0, logged0, bitmap[Bit(blocks, i, j) := true], logged[Bit(blocks, i, j) := false], i, j + 1)
    ensures !BitOf(logged, blocks, i, j) ==> Synced(blocks, bitmap0, logged0, bitmap, logged, i, j + 1)
  {
    hide BitOf, BlocksApart;
    var nr := Bit(blocks, i, j);
    BitUpdate(bitmap, blocks, i, j, true);
    BitUpdate(logged, blocks, i, j, false);
    forall b: nat, k: nat | IsPage(blocks, b, k)
      ensures BitOf(logged, blocks, i, j) ==>
        PageSynced(blocks, bitmap0, logged0, bitmap[nr := true], logged[nr := false], b, k,
                   b < i || (b == i && k < j + 1))
      ensures !BitOf(logged, blocks, i, j) ==>
        PageSynced(blocks, bitmap0, logged0, bitmap, logged, b, k, b < i || (b == i && k < j + 1))
    {
      assert PageSynced(blocks, bitmap0, logged0, bitmap, logged, b, k, b < i || (b == i && k < j));
    }
  }

  lemma SyncKeepsSafe(page: nat, blocks: seq<RamBlock>, bitmap0: seq<bool>, logged0: seq<bool>, bitmap: seq<bool>,
                      logged: seq<bool>, sent: seq<Record>, mem: seq<seq<Page>>, i: nat)
    requires BlocksWithin(blocks, |bitmap0|) && BlocksWithin(blocks, |logged0|) && Shaped(page, blocks, mem)
    requires Safe(page, blocks, bitmap0, logged0, sent, mem, None)
    requires Synced(blocks, bitmap0, logged0, bitmap, logged, i, 0)
    ensures Safe(page, blocks, bitmap, logged, sent, mem, None)
    ensures SomeDirty(bitmap0, blocks) ==> SomeDirty(bitmap, blocks)
  {
    hide BitOf, Latest;
    forall b: nat, k: nat | IsPage(blocks, b, k)
      ensures BitOf(bitmap, blocks, b, k) || BitOf(logged, blocks, b, k) || Latest(page, sent, b, k) == Some(mem[b][k])
      ensures BitOf(bitmap0, blocks, b, k) ==> BitOf(bitmap, blocks, b, k)
    {
      assert PageSynced(blocks, bitmap0, logged0, bitmap, logged, b, k, b < i || (b == i && k < 0));
    }
  }

  lemma SyncStart(blocks: seq<RamBlock>, bitmap: seq<bool>, logged: seq<bool>)
    requires BlocksWithin(blocks, |bitmap|) && BlocksWithin(blocks, |logged|)
    ensures Synced(blocks, bitmap, logged, bitmap, logged, 0, 0)
  {
  }

  lemma SyncNext(blocks: seq<RamBlock>, bitmap0: seq<bool>, logged0: seq<bool>, bitmap: seq<bool>, logged: seq<bool>,
                 i: nat)
    requires BlocksWithin(blocks, |bitmap0|) && BlocksWithin(blocks, |logged0|) && i < |blocks|
    requires Synced(blocks, bitmap0, logged0, bitmap, logged, i, blocks[i].pages)
    ensures Synced(blocks, bitmap0, logged0, bitmap, logged, i + 1, 0)
  {
    hide BitOf;
    forall b: nat, k: nat | IsPage(blocks, b, k)
      ensures PageSynced(blocks, bitmap0, logged0, bitmap, logged, b, k, b < i + 1 || (b == i + 1 && k < 0))
    {
      assert PageSynced(blocks, bitmap0, logged0, bitmap, logged, b, k, b < i || (b == i && k < blocks[i].pages));
    }
  }

  /** Sending a page as it is makes the exception unnecessary. */
  lemma SentIsSafe(page: nat, blocks: seq<RamBlock>, bitmap: seq<bool>, logged: seq<bool>, sent: seq<Record>,
                   mem: seq<seq<Page>>, r: Record)
    requires BlocksWithin(blocks, |bitmap|) && BlocksWithin(blocks, |logged|) && Shaped(page, blocks, mem)
    requires (r.Dup? || r.Full?) && IsPage(blocks, r.block, r.index) && Contents(page, r) == mem[r.block][r.index]
    requires Safe(page, blocks, bitmap, logged, sent, mem, Some((r.block, r.index)))
    ensures Safe(page, blocks, bitmap, logged, sent + [r], mem, None)
  {
    hide BitOf;
    Snoc(sent, r);
  }

  lemma MarkIsSafe(page: nat, blocks: seq<RamBlock>, bitmap: seq<bool>, logged: seq<bool>, sent: seq<Record>,
                   mem: seq<seq<Page>>, r: Record)
    requires BlocksWithin(blocks, |bitmap|) && BlocksWithin(blocks, |logged|) && Shaped(page, blocks, mem)
    requires (r.Table? || r.Eos?) && Safe(page, blocks, bitmap, logged, sent, mem, None)
    ensures Safe(page, blocks, bitmap, logged, sent + [r], mem, None)
  {
    hide BitOf;
    Snoc(sent, r);
  }

  /** Clearing the bit of a page exempts that page only. */
  lemma ClearedIsSafe(page: nat, blocks: seq<RamBlock>, bitmap: seq<bool>, logged: seq<bool>, sent: seq<Record>,
                      mem: seq<seq<Page>>, b: nat, k: nat)
    requires BlocksApart(blocks) && BlocksWithin(blocks, |bitmap|) && BlocksWithin(blocks, |logged|)
    requires Shaped(page, blocks, mem)
    requires IsPage(blocks, b, k) && Safe(page, blocks, bitmap, logged, sent, mem, None)
    ensures Safe(page, blocks, bitmap[Bit(blocks, b, k) := false], logged, sent, mem, Some((b, k)))
  {
    hide BitOf, BlocksApart, Latest;
    BitUpdate(bitmap, blocks, b, k, false);
  }

  /** The scan has found nothing from its starting point up to block `b`, the second time round if `wrapped`. */
  ghost predicate ScannedTo(bits: seq<bool>, blocks: seq<RamBlock>, seen: Option<nat>, offset: nat, b: nat,
                            wrapped: bool)
    requires BlocksWithin(blocks, |bits|) && b < |blocks|
  {
    match seen
    case None => !wrapped && forall c: nat | c < b :: CleanFrom(bits, blocks, c, 0)
    case Some(s) =>
      && s < |blocks| && (if wrapped then b <= s else s <= b)
      && (wrapped || s < b ==> CleanFrom(bits, blocks, s, offset))
      && (forall c: nat | s < c < |blocks| && (wrapped || c < b) :: CleanFrom(bits, blocks, c, 0))
      && (forall c: nat | wrapped && c < b :: CleanFrom(bits, blocks, c, 0))
  }

  /** Page `k` of block `b` is the first mark in circular order from the starting point. */
  ghost predicate FirstMark(bits: seq<bool>, blocks: seq<RamBlock>, seen: Option<nat>, offset: nat, b: nat, k: nat,
                            wrapped: bool)
    requires BlocksWithin(blocks, |bits|)
  {
    && IsPage(blocks, b, k) && BitOf(bits, blocks, b, k) && ScannedTo(bits, blocks, seen, offset, b, wrapped)
    && ScanFrom(seen, offset, b, wrapped) <= k
    && forall l: nat | ScanFrom(seen, offset, b, wrapped) <= l < k :: !BitOf(bits, blocks, b, l)
  }

  lemma FoundMark(bits: seq<bool>, blocks: seq<RamBlock>, seen: Option<nat>, offset: nat, b: nat, k: nat,
                  wrapped: bool)
    requires BlocksWithin(blocks, |bits|) && IsPage(blocks, b, k) && BitOf(bits, blocks, b, k)
    requires ScannedTo(bits, blocks, seen, offset, b, wrapped) && ScanFrom(seen, offset, b, wrapped) <= k
    requires forall l: nat | ScanFrom(seen, offset, b, wrapped) <= l < k :: !BitOf(bits, blocks, b, l)
    ensures FirstMark(bits, blocks, seen, offset, b, k, wrapped)
  {
  }

  /** Back where the scan started, nothing is left. */
  lemma ScanEnds(bits: seq<bool>, blocks: seq<RamBlock>, s: nat, offset: nat)
    requires BlocksWithin(blocks, |bits|) && s < |blocks| && ScannedTo(bits, blocks, Some(s), offset, s, true)
    requires forall k: nat | k < offset && k < blocks[s].pages :: !BitOf(bits, blocks, s, k)
    ensures AllClean(bits, blocks)
  {
    hide BitOf;
    forall b: nat | b < |blocks|
      ensures CleanFrom(bits, blocks, b, 0)
    {
      if b == s {
        assert CleanFrom(bits, blocks, s, offset);
      }
    }
  }

  lemma WrittenSnoc(page: nat, blocks: seq<RamBlock>, mem: seq<seq<Page>>, ws: seq<Write>, i: nat)
    requires Shaped(page, blocks, mem) && i < |ws| && forall j | 0 <= j < |ws| :: WriteOk(page, blocks, ws[j])
    ensures Written(page, blocks, mem, ws[..i + 1]) ==
            Written(page, blocks, Written(page, blocks, mem, ws[..i]), [ws[i]])
  {
    assert ws[..i + 1][..i] == ws[..i];
    assert [ws[i]][..0] == [];
  }

  /** Where the scan starts in block `b`. */
  ghost function ScanFrom(seen: Option<nat>, offset: nat, b: nat, wrapped: bool): nat {
    if seen == Some(b) && !wrapped then offset else 0
  }

  lemma ScanStep(bits: seq<bool>, blocks: seq<RamBlock>, seen: Option<nat>, offset: nat, b: nat, wrapped: bool)
    requires BlocksWithin(blocks, |bits|) && b < |blocks| && ScannedTo(bits, blocks, seen, offset, b, wrapped)
    requires CleanFrom(bits, blocks, b, ScanFrom(seen, offset, b, wrapped))
    requires wrapped ==> seen != Some(b)
    ensures b + 1 < |blocks| ==> ScannedTo(bits, blocks, seen, offset, b + 1, wrapped)
    ensures b + 1 == |blocks| && seen.Some? ==> !wrapped && ScannedTo(bits, blocks, seen, offset, 0, true)
    ensures b + 1 == |blocks| && seen.None? ==> AllClean(bits, blocks)
  {
    hide BitOf, CleanFrom;
  }

  lemma MarkedIsDirty(bits: seq<bool>, blocks: seq<RamBlock>, b: nat, k: nat)
    requires BlocksWithin(blocks, |bits|) && IsPage(blocks, b, k) && BitOf(bits, blocks, b, k)
    ensures !AllClean(bits, blocks)
  {
    assert !CleanFrom(bits, blocks, b, 0);
  }

  lemma NoneDirty(bits: seq<bool>, blocks: seq<RamBlock>)
    requires BlocksWithin(blocks, |bits|) && AllClean(bits, blocks)
    ensures !SomeDirty(bits, blocks)
  {
    forall b: nat, k: nat | IsPage(blocks, b, k)
      ensures !BitOf(bits, blocks, b, k)
    {
      assert CleanFrom(bits, blocks, b, 0);
    }
  }

  lemma ScanStart(bits: seq<bool>, blocks: seq<RamBlock>, seen: Option<nat>, offset: nat)
    requires BlocksWithin(blocks, |bits|) && blocks != [] && (seen.Some? ==> seen.value < |blocks|)
    ensures ScannedTo(bits, blocks, seen, offset, if seen.Some? then seen.value else 0, false)
  {
  }

  lemma NotFound(bits: seq<bool>, blocks: seq<RamBlock>, b: nat, from: nat, to: nat)
    requires BlocksWithin(blocks, |bits|) && b < |blocks| && from <= to <= blocks[b].pages
    requires forall l: nat | from <= l < to :: !BitOf(bits, blocks, b, l)
    ensures to == blocks[b].pages ==> CleanFrom(bits, blocks, b, from)
  {
  }

  /** On the second visit to the starting block no mark from the starting offset on can be found, so none is lost. */
  lemma ScanDone(bits: seq<bool>, blocks: seq<RamBlock>, s: nat, offset: nat, found: nat)
    requires BlocksWithin(blocks, |bits|) && s < |blocks| && ScannedTo(bits, blocks, Some(s), offset, s, true)
    requires offset <= found <= blocks[s].pages && (forall l: nat | l < found :: !BitOf(bits, blocks, s, l))
    requires found < blocks[s].pages ==> BitOf(bits, blocks, s, found)
    ensures found == blocks[s].pages && AllClean(bits, blocks)
  {
    assert CleanFrom(bits, blocks, s, offset);
    ScanEnds(bits, blocks, s, offset);
  }

  lemma {:induction false} WrittenConcat(page: nat, blocks: seq<RamBlock>, mem: seq<seq<Page>>, a: seq<Write>,
                                         b: seq<Write>)
    requires Shaped(page, blocks, mem) && forall j | 0 <= j < |a + b| :: WriteOk(page, blocks, (a + b)[j])
    requires forall j | 0 <= j < |a| :: WriteOk(page, blocks, a[j])
    requires forall j | 0 <= j < |b| :: WriteOk(page, blocks, b[j])
    ensures Written(page, blocks, mem, a + b) == Written(page, blocks, Written(page, blocks, mem, a), b)
    decreases |b|
  {
    hide Shaped, WriteOk;
    if b == [] {
      assert a + b == a;
    } else {
      assert (a + b)[..|a + b| - 1] == a + b[..|b| - 1];
      WrittenConcat(page, blocks, mem, a, b[..|b| - 1]);
    }
  }

  ghost predicate WritesOk(page: nat, blocks: seq<RamBlock>, ws: seq<Write>) {
    forall i | 0 <= i < |ws| :: WriteOk(page, blocks, ws[i])
  }

  /** `mem` is `mem0` after the guest stores `ws`, and nothing else. */
  ghost predicate OnlyWritten(page: nat, blocks: seq<RamBlock>, mem0: seq<seq<Page>>, mem: seq<seq<Page>>,
                              ws: seq<Write>) {
    Shaped(page, blocks, mem0) && WritesOk(page, blocks, ws) && mem == Written(page, blocks, mem0, ws)
  }

  lemma WrittenMore(page: nat, blocks: seq<RamBlock>, mem0: seq<seq<Page>>, mem1: seq<seq<Page>>, mem2: seq<seq<Page>>,
                    a: seq<Write>, b: seq<Write>)
    requires OnlyWritten(page, blocks, mem0, mem1, a) && OnlyWritten(page, blocks, mem1, mem2, b)
    ensures OnlyWritten(page, blocks, mem0, mem2, a + b)
  {
    hide Shaped, Written, WriteOk;
    WrittenConcat(page, blocks, mem0, a, b);
  }

  ghost predicate AllSent(page: nat, blocks: seq<RamBlock>, sent: seq<Record>, mem: seq<seq<Page>>)
    requires Shaped(page, blocks, mem)
  {
    forall b: nat, k: nat | IsPage(blocks, b, k) :: Latest(page, sent, b, k) == Some(mem[b][k])
  }

  /** The destination's copy of every block is the source's. */
  ghost predicate SameContents(table: seq<RamBlock>, blocks: seq<RamBlock>, copy: seq<seq<Page>>, mem: seq<seq<Page>>) {
    forall b: nat, k: nat | IsPage(blocks, b, k) ::
      && b < |mem| && k < |mem[b]| && To(table, blocks, b) < |copy| && k < |copy[To(table, blocks, b)]|
      && copy[To(table, blocks, b)][k] == mem[b][k]
  }

  /** Once everything has been sent as it is, any matching destination that loads the stream holds the source's
      memory. */
  lemma StreamDelivers(page: nat, table: seq<RamBlock>, blocks: seq<RamBlock>, d: Dest, sent: seq<Record>,
                       mem: seq<seq<Page>>)
    requires Paired(page, table, blocks) && Shaped(page, table, d.mem) && Shaped(page, blocks, mem)
    requires BlocksNamed(blocks, sent) && RecordsOk(page, blocks, None, sent) && Closed(sent)
    requires AllSent(page, blocks, sent, mem)
    ensures var r := LoadStream(page, table, d, EncodeAll(page, blocks, sent));
      r.Some? && SameContents(table, blocks, r.value.mem, mem)
  {
    hide ApplyAll, LoadStream, EncodeAll, Paired, Shaped, RecordsOk, BlocksNamed, Latest, To;
    StreamBack(page, table, blocks, None, d, sent);
    forall b: nat, k: nat | IsPage(blocks, b, k)
      ensures var copy := ApplyAll(page, table, blocks, d, sent).mem;
        && b < |mem| && k < |mem[b]| && To(table, blocks, b) < |copy| && k < |copy[To(table, blocks, b)]|
        && copy[To(table, blocks, b)][k] == mem[b][k]
    {
      DestinationHolds(page, table, blocks, d, sent, b, k);
      ShapedAt(page, blocks, mem, b, k);
    }
  }

  /** At the end of any section, a page that is neither marked nor logged is the same at every matching
      destination that has loaded the stream so far. */
  lemma CleanPageDelivered(page: nat, table: seq<RamBlock>, blocks: seq<RamBlock>, d: Dest, bitmap: seq<bool>,
                           logged: seq<bool>, sent: seq<Record>, mem: seq<seq<Page>>, b: nat, k: nat)
    requires Paired(page, table, blocks) && Shaped(page, table, d.mem) && Shaped(page, blocks, mem)
    requires BlocksWithin(blocks, |bitmap|) && BlocksWithin(blocks, |logged|)
    requires Safe(page, blocks, bitmap, logged, sent, mem, None)
    requires BlocksNamed(blocks, sent) && RecordsOk(page, blocks, None, sent) && Closed(sent)
    requires IsPage(blocks, b, k) && !BitOf(bitmap, blocks, b, k) && !BitOf(logged, blocks, b, k)
    ensures var r := LoadStream(page, table, d, EncodeAll(page, blocks, sent));
      var to := To(table, blocks, b);
      r.Some? && to < |r.value.mem| && k < |r.value.mem[to]| && r.value.mem[to][k] == mem[b][k]
  {
    hide ApplyAll, LoadStream, EncodeAll, Paired, RecordsOk, BlocksNamed, Latest, To, BitOf;
    StreamBack(page, table, blocks, None, d, sent);
    DestinationHolds(page, table, blocks, d, sent, b, k);
    ShapedAt(page, blocks, mem, b, k);
  }

  lemma ShapedAt(page: nat, blocks: seq<RamBlock>, mem: seq<seq<Page>>, b: nat, k: nat)
    requires Shaped(page, blocks, mem) && IsPage(blocks, b, k)
    ensures b < |mem| && k < |mem[b]| && |mem[b][k]| == page
  {
  }

  lemma CleanIsSent(page: nat, blocks: seq<RamBlock>, bitmap: seq<bool>, logged: seq<bool>, sent: seq<Record>,
                    mem: seq<seq<Page>>)
    requires BlocksWithin(blocks, |bitmap|) && BlocksWithin(blocks, |logged|) && Shaped(page, blocks, mem)
    requires Safe(page, blocks, bitmap, logged, sent, mem, None) && AllClean(bitmap, blocks) && AllClean(logged, blocks)
    ensures AllSent(page, blocks, sent, mem)
  {
    hide BitOf, Latest;
    forall b: nat, k: nat | IsPage(blocks, b, k)
      ensures Latest(page, sent, b, k) == Some(mem[b][k])
    {
      assert CleanFrom(bitmap, blocks, b, 0) && CleanFrom(logged, blocks, b, 0);
    }
  }

  /** A sync empties the log, and leaves no mark exactly when there was none in either. */
  lemma SyncedIsClean(blocks: seq<RamBlock>, bitmap0: seq<bool>, logged0: seq<bool>, bitmap: seq<bool>,
                      logged: seq<bool>)
    requires BlocksWithin(blocks, |bitmap0|) && BlocksWithin(blocks, |logged0|)
    requires Synced(blocks, bitmap0, logged0, bitmap, logged, |blocks|, 0)
    ensures AllClean(logged, blocks)
    ensures AllClean(bitmap, blocks) <==> AllClean(bitmap0, blocks) && AllClean(logged0, blocks)
  {
    hide BitOf;
    forall b: nat, k: nat | IsPage(blocks, b, k)
      ensures !BitOf(logged, blocks, b, k)
      ensures BitOf(bitmap, blocks, b, k) <==> BitOf(bitmap0, blocks, b, k) || BitOf(logged0, blocks, b, k)
    {
      assert PageSynced(blocks, bitmap0, logged0, bitmap, logged, b, k, b < |blocks| || (b == |blocks| && k < 0));
    }
    if AllClean(bitmap, blocks) {
      forall b: nat | b < |blocks|
        ensures CleanFrom(bitmap0, blocks, b, 0) && CleanFrom(logged0, blocks, b, 0)
      {
        assert CleanFrom(bitmap, blocks, b, 0);
      }
    }
    if AllClean(bitmap0, blocks) && AllClean(logged0, blocks) {
      forall b: nat | b < |blocks|
        ensures CleanFrom(bitmap, blocks, b, 0)
      {
        assert CleanFrom(bitmap0, blocks, b, 0) && CleanFrom(logged0, blocks, b, 0);
      }
    }
  }

  /** What can happen between the start and the end of a migration.  `Relist` has blocks come and go, so that the
      list changes that many times and is as before. */
  datatype Action =
    | Guest(writes: seq<Write>)
    | Iterate(races: seq<seq<Write>>)
    | Pending
    | Relist(changes: nat)

  /** The stores of the given runs, one run after the other. */
  ghost function Joined(runs: seq<seq<Write>>): seq<Write> {
    if runs == [] then [] else Joined(runs[..|runs| - 1]) + runs[|runs| - 1]
  }

  lemma JoinedSnoc(runs: seq<seq<Write>>, i: nat)
    requires i < |runs|
    ensures Joined(runs[..i + 1]) == Joined(runs[..i]) + runs[i]
  {
    assert runs[..i + 1][..i] == runs[..i];
  }

  /** The stores the guest makes during an action, of which an iteration sees the first `n` runs. */
  ghost function StoresIn(a: Action, n: nat): seq<Write> {
    match a
    case Guest(ws) => ws
    case Iterate(races) => if n <= |races| then Joined(races[..n]) else []
    case Pending => []
    case Relist(_) => []
  }

  /** The stores the guest makes during the actions counted in `taken`. */
  ghost function GuestStores(script: seq<Action>, taken: seq<nat>): seq<Write>
    requires |taken| <= |script|
    decreases |taken|
  {
    if taken == [] then []
    else
      var most := |taken| - 1;
      GuestStores(script, taken[..most]) + StoresIn(script[most], taken[most])
  }

  lemma SetupClosed()
    ensures Closed([Table, Eos])
  {
  }

  lemma GuestStoresSnoc(script: seq<Action>, taken: seq<nat>, n: nat)
    requires |taken| < |script|
    ensures GuestStores(script, taken + [n]) == GuestStores(script, taken) + StoresIn(script[|taken|], n)
  {
    assert (taken + [n])[..|taken|] == taken;
  }

  /** The records sent by the setup and the actions counted in `taken`: for an iteration its pages and an end mark. */
  ghost function SentBy(script: seq<Action>, taken: seq<nat>): nat
    requires |taken| <= |script|
    decreases |taken|
  {
    if taken == [] then 2
    else
      var most := |taken| - 1;
      SentBy(script, taken[..most]) + if script[most].Iterate? then taken[most] + 1 else 0
  }

  /** The stream has, for the setup and every action, what that action sent, closed with an end mark. */
  ghost predicate SectionsSent(script: seq<Action>, taken: seq<nat>, sent: seq<Record>)
    requires |taken| <= |script|
  {
    forall i | 0 <= i <= |taken| ::
      SentBy(script, taken[..i]) <= |sent| && Closed(sent[..SentBy(script, taken[..i])])
  }

  lemma SectionsStart(script: seq<Action>, sent: seq<Record>)
    requires |sent| == 2 && Closed(sent)
    ensures SectionsSent(script, [], sent) && SentBy(script, []) == 2 && GuestStores(script, []) == []
  {
    assert sent[..2] == sent;
  }

  lemma SectionsMore(script: seq<Action>, taken: seq<nat>, sent: seq<Record>, more: seq<Record>)
    requires |taken| <= |script| && SectionsSent(script, taken, sent) && sent <= more
    ensures SectionsSent(script, taken, more)
  {
    forall i | 0 <= i <= |taken|
      ensures SentBy(script, taken[..i]) <= |more| && Closed(more[..SentBy(script, taken[..i])])
    {
      assert more[..SentBy(script, taken[..i])] == sent[..SentBy(script, taken[..i])];
    }
  }

  lemma SectionsSnoc(script: seq<Action>, taken: seq<nat>, n: nat, sent: seq<Record>, more: seq<Record>)
    requires |taken| < |script| && SectionsSent(script, taken, sent) && sent <= more && Closed(more)
    requires |sent| == SentBy(script, taken)
    requires |more| == |sent| + if script[|taken|].Iterate? then n + 1 else 0
    ensures SectionsSent(script, taken + [n], more) && SentBy(script, taken + [n]) == |more|
  {
    hide SentBy, Closed;
    var all := taken + [n];
    SectionsMore(script, taken, sent, more);
    SentBySnoc(script, taken, n);
    forall i | 0 <= i <= |all|
      ensures SentBy(script, all[..i]) <= |more| && Closed(more[..SentBy(script, all[..i])])
    {
      if i <= |taken| {
        assert all[..i] == taken[..i];
      } else {
        assert all[..i] == all && more[..|more|] == more;
      }
    }
  }

  lemma SentBySnoc(script: seq<Action>, taken: seq<nat>, n: nat)
    requires |taken| < |script|
    ensures SentBy(script, taken + [n]) == SentBy(script, taken) + if script[|taken|].Iterate? then n + 1 else 0
  {
    assert (taken + [n])[..|taken|] == taken;
  }

  /** An iteration sees at most the runs it is given. */
  ghost predicate TakenOk(script: seq<Action>, taken: seq<nat>) {
    |taken| <= |script| && forall i | 0 <= i < |taken| && script[i].Iterate? :: taken[i] <= |script[i].races|
  }

  ghost predicate ActionOk(page: nat, blocks: seq<RamBlock>, a: Action) {
    match a
    case Guest(ws) => WritesOk(page, blocks, ws)
    case Iterate(races) => forall i | 0 <= i < |races| :: WritesOk(page, blocks, races[i])
    case Pending => true
    case Relist(changes) => changes % 2 == 0
  }

  /** The sender at one moment, as far as an action can tell. */
  datatype Moment = Moment(
    mem: seq<seq<Page>>,
    bitmap: seq<bool>,
    logged: seq<bool>,
    version: nat,
    lastSeen: Option<nat>,
    sent: seq<Record>)

  ghost predicate MomentOk(page: nat, blocks: seq<RamBlock>, x: Moment) {
    BlocksWithin(blocks, |x.bitmap|) && BlocksWithin(blocks, |x.logged|) && Shaped(page, blocks, x.mem)
  }

  /** What one action does.  An iteration sends `n` pages and an end mark, and stops early only when no mark is left. */
  ghost predicate Acts(page: nat, blocks: seq<RamBlock>, x: Moment, a: Action, n: nat, y: Moment) {
    && MomentOk(page, blocks, x) && MomentOk(page, blocks, y) && OnlyWritten(page, blocks, x.mem, y.mem, StoresIn(a, n))
    && match a
       case Guest(_) =>
         y.bitmap == x.bitmap && y.sent == x.sent && y.version == x.version && y.lastSeen == x.lastSeen
       case Iterate(races) =>
         && n <= |races| && (n == |races| || AllClean(y.bitmap, blocks)) && y.version == x.version
         && x.sent <= y.sent && |y.sent| == |x.sent| + n + 1 && Closed(y.sent)
       case Pending =>
         && Synced(blocks, x.bitmap, x.logged, y.bitmap, y.logged, |blocks|, 0)
         && y.mem == x.mem && y.sent == x.sent && y.version == x.version && y.lastSeen == x.lastSeen
       case Relist(changes) =>
         y == x.(version := (x.version + changes) % RamBlocks.VERSION_WORD)
  }

  lemma AllMarked(page: nat, blocks: seq<RamBlock>, bitmap: seq<bool>, logged: seq<bool>, mem: seq<seq<Page>>)
    requires BlocksWithin(blocks, |bitmap|) && BlocksWithin(blocks, |logged|) && Shaped(page, blocks, mem)
    requires (forall i | 0 <= i < |bitmap| :: bitmap[i]) && blocks != [] && blocks[0].pages > 0
    ensures Safe(page, blocks, bitmap, logged, [], mem, None) && SomeDirty(bitmap, blocks) && Count(bitmap) == |bitmap|
  {
    CountAll(bitmap);
    assert IsPage(blocks, 0, 0) && BitOf(bitmap, blocks, 0, 0);
  }

  lemma MarksStay(blocks: seq<RamBlock>, bitmap0: seq<bool>, logged0: seq<bool>, bitmap: seq<bool>, logged: seq<bool>)
    requires BlocksWithin(blocks, |bitmap0|) && BlocksWithin(blocks, |logged0|)
    requires Synced(blocks, bitmap0, logged0, bitmap, logged, |blocks|, 0)
    requires forall i | 0 <= i < |bitmap0| :: bitmap0[i]
    ensures forall b: nat, k: nat | IsPage(blocks, b, k) :: BitOf(bitmap, blocks, b, k)
  {
    forall b: nat, k: nat | IsPage(blocks, b, k)
      ensures BitOf(bitmap, blocks, b, k)
    {
      assert PageSynced(blocks, bitmap0, logged0, bitmap, logged, b, k, b < |blocks| || (b == |blocks| && k < 0));
    }
  }

  lemma NothingWritten(page: nat, blocks: seq<RamBlock>, mem: seq<seq<Page>>)
    requires Shaped(page, blocks, mem)
    ensures OnlyWritten(page, blocks, mem, mem, [])
  {
  }

  lemma FreshStream(page: nat, blocks: seq<RamBlock>)
    requires TableOk(blocks) && blocks != []
    ensures blocks[0].pages > 0 && BlocksNamed(blocks, []) && RecordsOk(page, blocks, None, [])
    ensures EncodeAll(page, blocks, []) == []
  {
  }

  lemma AllSentMark(page: nat, blocks: seq<RamBlock>, sent: seq<Record>, mem: seq<seq<Page>>, r: Record)
    requires Shaped(page, blocks, mem) && AllSent(page, blocks, sent, mem) && r.Eos?
    ensures AllSent(page, blocks, sent + [r], mem)
  {
    Snoc(sent, r);
  }

  /** How a page is sent: as one byte if all its bytes are that byte, and without the name of a block just named. */
  ghost function PageRecord(p: Page, b: nat, k: nat, cont: bool): Record
    requires p != []
  {
    if p == Repeat(p[0], |p|) then Dup(b, k, p[0], cont) else Full(b, k, p, cont)
  }

  lemma NotBoth(bits: seq<bool>, blocks: seq<RamBlock>)
    requires BlocksWithin(blocks, |bits|)
    ensures !(SomeDirty(bits, blocks) && AllClean(bits, blocks))
  {
    if AllClean(bits, blocks) {
      NoneDirty(bits, blocks);
    }
  }

  class RamSaver {
    const page: nat
    const blocks: seq<RamBlock>

    /** Guest memory and its dirty log. */
    var mem: seq<seq<Page>>
    var logged: seq<bool>

    var bitmap: seq<bool>
    var dirtyPages: int
    var lastSeen: Option<nat>
    var lastSent: Option<nat>
    var lastOffset: nat

    /** The version of the block list, and the one the scan position belongs to. */
    var version: nat
    var lastVersion: nat

    var out: seq<Byte>
    ghost var sent: seq<Record>

    constructor (page: nat, blocks: seq<RamBlock>, mem: seq<seq<Page>>, logged: seq<bool>)
      ensures this.page == page && this.blocks == blocks && this.mem == mem && this.logged == logged
    {
      this.page := page;
      this.blocks := blocks;
      this.mem := mem;
      this.logged := logged;
      bitmap, dirtyPages := [], 0;
      lastSeen, lastSent, lastOffset := None, None, 0;
      version, lastVersion := 0, 0;
      out, sent := [], [];
    }

    ghost predicate Config()
      reads this
    {
      && page >= MIN_PAGE && blocks != [] && TableOk(blocks) && Bytes(Total(blocks), page) + MIN_PAGE < WORD
      && BlocksApart(blocks) && BlocksWithin(blocks, |logged|) && Shaped(page, blocks, mem)
    }

    /** The bitmap, its population count and the scan position. */
    ghost predicate ScanOk()
      reads this
    {
      && BlocksWithin(blocks, |bitmap|) && dirtyPages == Count(bitmap)
      && match lastSeen
         case None => lastOffset == 0
         case Some(b) => b < |blocks| && lastOffset <= blocks[b].pages
    }

    /** The stream, as the records it consists of. */
    ghost predicate StreamOk()
      reads this
    {
      && BlocksNamed(blocks, sent) && RecordsOk(page, blocks, None, sent) && out == EncodeAll(page, blocks, sent)
      && (lastSent.Some? ==> lastSent == LastFrom(None, sent))
    }

    ghost function Now(): Moment
      reads this
    {
      Moment(mem, bitmap, logged, version, lastSeen, sent)
    }

    ghost predicate Valid()
      reads this
    {
      Config() && ScanOk() && StreamOk() && Safe(page, blocks, bitmap, logged, sent, mem, None)
    }

    /** A guest store: memory changes and the page is logged. */
    method GuestWrite(w: Write, ghost but: Option<(nat, nat)>)
      requires Config() && BlocksWithin(blocks, |bitmap|) && WriteOk(page, blocks, w)
      requires Safe(page, blocks, bitmap, logged, sent, mem, but)
      modifies this`mem, this`logged
      ensures Config() && Safe(page, blocks, bitmap, logged, sent, mem, but)
      ensures mem == Written(page, blocks, old(mem), [w])
    {
      hide TableOk, Latest, Bytes, Total, BlocksApart;
      BitUpdate(logged, blocks, w.block, w.index, true);
      mem := Store(mem, w.block, w.index, w.data);
      logged := logged[Bit(blocks, w.block, w.index) := true];
    }

    /** migration_bitmap_find_and_reset_dirty */
    method FindAndResetDirty(b: nat, start: nat) returns (k: nat)
      requires BlocksApart(blocks) && BlocksWithin(blocks, |bitmap|) && dirtyPages == Count(bitmap)
      requires b < |blocks| && start <= blocks[b].pages
      modifies this`bitmap, this`dirtyPages
      ensures start <= k <= blocks[b].pages && dirtyPages == Count(bitmap) && |bitmap| == |old(bitmap)|
      ensures forall l: nat | start <= l < k :: !BitOf(old(bitmap), blocks, b, l)
      ensures if k == blocks[b].pages then bitmap == old(bitmap)
              else BitOf(old(bitmap), blocks, b, k) && bitmap == old(bitmap)[Bit(blocks, b, k) := false]
    {
      var base := blocks[b].base;
      var next := FindNextBit(bitmap, base + blocks[b].pages, base + start);
      if next < base + blocks[b].pages {
        CountUpdate(bitmap, next, false);
        bitmap := bitmap[next := false];
        dirtyPages := dirtyPages - 1;
      }
      k := next - base;
    }

    /** migration_bitmap_set_dirty */
    method SetDirty(b: nat, k: nat)
      requires BlocksWithin(blocks, |bitmap|) && dirtyPages == Count(bitmap) && IsPage(blocks, b, k)
      modifies this`bitmap, this`dirtyPages
      ensures bitmap == old(bitmap)[Bit(blocks, b, k) := true] && dirtyPages == Count(bitmap)
    {
      var nr := Bit(blocks, b, k);
      CountUpdate(bitmap, nr, true);
      if !bitmap[nr] {
        bitmap := bitmap[nr := true];
        dirtyPages := dirtyPages + 1;
      }
    }

    /** migration_bitmap_sync: move the dirty log into the bitmap. */
    method BitmapSync()
      requires Valid()
      modifies this`bitmap, this`dirtyPages, this`logged
      ensures Valid() && Synced(blocks, old(bitmap), old(logged), bitmap, logged, |blocks|, 0)
      ensures SomeDirty(old(bitmap), blocks) ==> SomeDirty(bitmap, blocks)
    {
      hide TableOk, Latest, Bytes, Total, BlocksApart, Synced, Shaped, Safe, SomeDirty, Count, RecordsOk, EncodeAll,
        LastFrom, BlocksNamed;
      ghost var bitmap0, logged0 := bitmap, logged;
      SyncStart(blocks, bitmap, logged);
      var b := 0;
      while b < |blocks|
        invariant b <= |blocks| && |bitmap| == |bitmap0| && |logged| == |logged0| && dirtyPages == Count(bitmap)
        invariant Synced(blocks, bitmap0, logged0, bitmap, logged, b, 0)
      {
        var k := 0;
        while k < blocks[b].pages
          invariant k <= blocks[b].pages && |bitmap| == |bitmap0| && |logged| == |logged0|
          invariant dirtyPages == Count(bitmap)
          invariant Synced(blocks, bitmap0, logged0, bitmap, logged, b, k)
        {
          SyncOne(blocks, bitmap0, logged0, bitmap, logged, b, k);
          var nr := Bit(blocks, b, k);
          if logged[nr] {
            logged := logged[nr := false];
            SetDirty(b, k);
          }
          k := k + 1;
        }
        SyncNext(blocks, bitmap0, logged0, bitmap, logged, b);
        b := b + 1;
      }
      SyncKeepsSafe(page, blocks, bitmap0, logged0, bitmap, logged, sent, mem, |blocks|);
    }

    method GuestWrites(ws: seq<Write>, ghost but: Option<(nat, nat)>)
      requires Config() && BlocksWithin(blocks, |bitmap|) && forall i | 0 <= i < |ws| :: WriteOk(page, blocks, ws[i])
      requires Safe(page, blocks, bitmap, logged, sent, mem, but)
      modifies this`mem, this`logged
      ensures Config() && Safe(page, blocks, bitmap, logged, sent, mem, but)
      ensures mem == Written(page, blocks, old(mem), ws) && (ws == [] ==> mem == old(mem) && logged == old(logged))
    {
      hide Safe, TableOk, BlocksApart, Bytes, Total, Shaped, WriteOk;
      var i := 0;
      while i < |ws|
        invariant i <= |ws| && Config() && Safe(page, blocks, bitmap, logged, sent, mem, but)
        invariant mem == Written(page, blocks, old(mem), ws[..i])
        invariant (i == 0 ==> mem == old(mem) && logged == old(logged))
      {
        WrittenSnoc(page, blocks, old(mem), ws, i);
        GuestWrite(ws[i], but);
        i := i + 1;
      }
      assert ws[..i] == ws;
    }

    /** Append page `k` of block `b` to the stream. */
    method SendPage(b: nat, k: nat) returns (bytes: nat)
      requires Config() && BlocksWithin(blocks, |bitmap|) && StreamOk() && IsPage(blocks, b, k)
      requires Safe(page, blocks, bitmap, logged, sent, mem, Some((b, k)))
      modifies this`out, this`sent, this`lastSent
      ensures Config() && StreamOk() && Safe(page, blocks, bitmap, logged, sent, mem, None) && lastSent == Some(b)
      ensures bytes > 0 && |out| == |old(out)| + bytes && Latest(page, sent, b, k) == Some(mem[b][k])
      ensures sent == old(sent) + [PageRecord(mem[b][k], b, k, old(lastSent) == Some(b))]
    {
      hide Safe, BlocksApart, Bytes, Total, LastFrom, RecordsOk, EncodeAll, BlockHeader;
      var cont := lastSent == Some(b);
      var p := mem[b][k];
      var dup := IsDupPage(p);
      ghost var r: Record;
      var added;
      if dup {
        r := Dup(b, k, p[0], cont);
        added := BlockHeader(page, blocks[b], k, cont, FLAG_COMPRESS) + [p[0]];
      } else {
        r := Full(b, k, p, cont);
        added := BlockHeader(page, blocks[b], k, cont, FLAG_PAGE) + p;
      }
      SentIsSafe(page, blocks, bitmap, logged, sent, mem, r);
      Snoc(sent, r);
      RecordsOkSnoc(page, blocks, None, sent, r);
      LastFromSnoc(None, sent, r);
      EncodeAllSnoc(page, blocks, sent, r);
      out, sent, lastSent, bytes := out + added, sent + [r], Some(b), |added|;
    }

    /** The guest writes while page `k` of block `b` is on its way. */
    method SendMarked(b: nat, k: nat, race: seq<Write>) returns (bytes: nat)
      requires Config() && BlocksWithin(blocks, |bitmap|) && StreamOk() && IsPage(blocks, b, k)
      requires Safe(page, blocks, bitmap, logged, sent, mem, Some((b, k)))
      requires forall i | 0 <= i < |race| :: WriteOk(page, blocks, race[i])
      modifies this`mem, this`logged, this`out, this`sent, this`lastSent
      ensures Config() && StreamOk() && Safe(page, blocks, bitmap, logged, sent, mem, None)
      ensures bytes > 0 && |out| == |old(out)| + bytes && |sent| == |old(sent)| + 1 && old(sent) <= sent
      ensures mem == Written(page, blocks, old(mem), race) && Latest(page, sent, b, k) == Some(mem[b][k])
      ensures race == [] ==> mem == old(mem) && logged == old(logged)
    {
      hide Safe, TableOk, BlocksApart, Bytes, Total, LastFrom, RecordsOk, EncodeAll, BlocksNamed, Latest, Written,
        WriteOk;
      GuestWrites(race, Some((b, k)));
      bytes := SendPage(b, k);
    }

    /** ram_save_block: send the next marked page, going round the block list once at most.  The guest may
        write while the page is being picked.  Nothing is sent only if no page of any block is marked.  Without
        a starting point the original then never leaves its loop, and `stuck` is returned instead. */
    method SaveBlock(race: seq<Write>)
      returns (stuck: bool, bytes: nat, ghost b: nat, ghost k: nat, ghost wrapped: bool)
      requires Valid() && forall i | 0 <= i < |race| :: WriteOk(page, blocks, race[i])
      modifies this
      ensures Valid() && |out| == |old(out)| + bytes && |bitmap| == |old(bitmap)|
      ensures version == old(version) && lastVersion == old(lastVersion)
      ensures stuck <==> old(lastSeen).None? && AllClean(old(bitmap), blocks)
      ensures lastSeen.None? <==> stuck
      ensures stuck ==> bytes == 0
      ensures bytes == 0 ==>
        && AllClean(bitmap, blocks) && bitmap == old(bitmap) && mem == old(mem) && logged == old(logged)
        && sent == old(sent)
        && dirtyPages == old(dirtyPages)
      ensures bytes > 0 ==>
        && IsPage(blocks, b, k) && BitOf(old(bitmap), blocks, b, k) && bitmap == old(bitmap)[Bit(blocks, b, k) := false]
        && mem == Written(page, blocks, old(mem), race) && Latest(page, sent, b, k) == Some(mem[b][k])
        && dirtyPages == old(dirtyPages) - 1 && (race == [] ==> mem == old(mem) && logged == old(logged))
        && |sent| == |old(sent)| + 1 && old(sent) <= sent && lastSeen == Some(b) && lastOffset == k
      ensures bytes > 0 ==> FirstMark(old(bitmap), blocks, old(lastSeen), old(lastOffset), b, k, wrapped)
    {
      hide Safe, TableOk, BlocksApart, Bytes, Total, Shaped, LastFrom, RecordsOk, EncodeAll, BlocksNamed, BitOf,
        CleanFrom, Count, ScannedTo, Latest, Written, WriteOk, AllClean, FirstMark;
      var block: nat := if lastSeen.Some? then lastSeen.value else 0;
      var offset: nat := lastOffset;
      var round := false;
      stuck, bytes, b, k, wrapped := false, 0, 0, 0, false;
      ScanStart(bitmap, blocks, lastSeen, lastOffset);
      while true
        invariant Valid() && bytes == 0 && out == old(out) && mem == old(mem) && logged == old(logged)
        invariant sent == old(sent)
        invariant block < |blocks| && offset == ScanFrom(lastSeen, lastOffset, block, round)
        invariant ScannedTo(bitmap, blocks, lastSeen, lastOffset, block, round)
        invariant bitmap == old(bitmap) && dirtyPages == old(dirtyPages) && lastSeen == old(lastSeen)
        invariant lastOffset == old(lastOffset)
        invariant version == old(version) && lastVersion == old(lastVersion)
        invariant round ==> lastSeen.Some?
        decreases if round then 0 else 1, |blocks| - block
      {
        var from := offset;
        ghost var bits := bitmap;
        offset := FindAndResetDirty(block, offset);
        NotFound(bits, blocks, block, from, offset);
        if round && lastSeen == Some(block) && offset >= lastOffset {
          ScanDone(bits, blocks, block, lastOffset, offset);
          break;
        }
        if offset >= blocks[block].pages {
          ScanStep(bits, blocks, lastSeen, lastOffset, block, round);
          offset, block := 0, block + 1;
          if block == |blocks| {
            if lastSeen.None? {
              stuck := true;
              return;
            }
            block, round := 0, true;
          }
        } else {
          b, k, wrapped := block, offset, round;
          FoundMark(bits, blocks, lastSeen, lastOffset, b, k, wrapped);
          MarkedIsDirty(bits, blocks, b, k);
          ClearedIsSafe(page, blocks, bits, logged, sent, mem, b, k);
          CountUpdate(bits, Bit(blocks, b, k), false);
          bytes := SendMarked(block, offset, race);
          break;
        }
      }
      lastSeen, lastOffset := Some(block), offset;
    }

    /** Append one record that is not a page. */
    ghost method Record(r: Record)
      requires Config() && BlocksWithin(blocks, |bitmap|) && BlocksNamed(blocks, sent)
      requires RecordsOk(page, blocks, None, sent)
      requires lastSent.Some? ==> lastSent == LastFrom(None, sent)
      requires (r.Table? || r.Eos?) && out == EncodeAll(page, blocks, sent) + Encode(page, blocks, r)
      requires Safe(page, blocks, bitmap, logged, sent, mem, None)
      modifies this`sent
      ensures StreamOk() && Safe(page, blocks, bitmap, logged, sent, mem, None) && sent == old(sent) + [r]
    {
      hide Safe, BlocksApart, Bytes, Total, LastFrom, RecordsOk, EncodeAll, Encode;
      MarkIsSafe(page, blocks, bitmap, logged, sent, mem, r);
      RecordsOkSnoc(page, blocks, None, sent, r);
      LastFromSnoc(None, sent, r);
      EncodeAllSnoc(page, blocks, sent, r);
      sent := sent + [r];
    }

    method EndSection()
      requires Valid()
      modifies this`out, this`sent
      ensures Valid() && sent == old(sent) + [Eos]
    {
      hide Safe, BlocksApart, Bytes, Total, Shaped, SomeDirty, Count, RecordsOk, EncodeAll, LastFrom, PutBe;
      out := out + PutBe(FLAG_EOS, 8);
      Record(Eos);
    }

    method RamBytesTotal() returns (total: nat)
      ensures total == Bytes(Total(blocks), page)
    {
      var i, pages := 0, 0;
      while i < |blocks|
        invariant i <= |blocks| && pages + Total(blocks[i..]) == Total(blocks)
      {
        assert blocks[i..][1..] == blocks[i + 1..];
        pages, i := pages + blocks[i].pages, i + 1;
      }
      total := Bytes(pages, page);
    }

    method PutBlockList() returns (list: seq<Byte>)
      requires TableOk(blocks)
      ensures list == Entries(page, blocks)
    {
      hide PutBe, Name, Bytes;
      list := [];
      var i := 0;
      while i < |blocks|
        invariant i <= |blocks| && list + Entries(page, blocks[i..]) == Entries(page, blocks)
      {
        assert blocks[i..][1..] == blocks[i + 1..];
        list := list + Name(blocks[i].id) + PutBe(Bytes(blocks[i].pages, page), 8);
        i := i + 1;
      }
    }

    /** reset_ram_globals */
    method ResetGlobals()
      requires Config() && BlocksWithin(blocks, |bitmap|) && dirtyPages == Count(bitmap)
      requires BlocksNamed(blocks, sent) && RecordsOk(page, blocks, None, sent) && out == EncodeAll(page, blocks, sent)
      modifies this`lastSeen, this`lastSent, this`lastOffset, this`lastVersion
      ensures ScanOk() && StreamOk() && lastSeen == None && lastVersion == version
    {
      hide Count, RecordsOk, EncodeAll, BlocksNamed;
      lastSeen, lastSent, lastOffset := None, None, 0;
      lastVersion := version;
    }

    /** The first half of ram_save_setup: every page marked, and the dirty log taken in. */
    method MarkAll()
      requires Config()
      modifies this
      ensures Valid() && sent == [] && mem == old(mem) && lastSeen == None
      ensures version == old(version) == lastVersion && SomeDirty(bitmap, blocks)
      ensures forall b: nat, k: nat | IsPage(blocks, b, k) :: BitOf(bitmap, blocks, b, k)
    {
      hide TableOk, BlocksApart, Bytes, Total, Safe, SomeDirty, Count, Shaped, Latest, BlocksNamed, RecordsOk,
        EncodeAll, Synced;
      var pages := LastRamPage(blocks);
      bitmap := seq(pages, _ => true);
      dirtyPages := pages;
      out, sent := [], [];
      FreshStream(page, blocks);
      CountAll(bitmap);
      ResetGlobals();
      AllMarked(page, blocks, bitmap, logged, mem);
      ghost var bitmap0, logged0 := bitmap, logged;
      BitmapSync();
      MarksStay(blocks, bitmap0, logged0, bitmap, logged);
    }

    /** ram_save_setup */
    method Setup()
      requires Config()
      modifies this
      ensures Valid() && sent == [Table, Eos] && mem == old(mem) && lastSeen == None
      ensures version == old(version) == lastVersion && SomeDirty(bitmap, blocks)
      ensures forall b: nat, k: nat | IsPage(blocks, b, k) :: BitOf(bitmap, blocks, b, k)
    {
      hide TableOk, BlocksApart, Bytes, Total, Entries, PutBe, Safe, SomeDirty, Count, Shaped, Latest, BlocksNamed,
        RecordsOk, EncodeAll, BitOf;
      MarkAll();
      var total := RamBytesTotal();
      var list := PutBlockList();
      out := out + PutBe(total + FLAG_MEM_SIZE, 8) + list;
      Record(Table);
      EndSection();
    }

    /** ram_save_iterate: as many pages as `races` has entries, unless the marks run out first.  A changed block
        list takes the starting point away; with nothing marked, the scan then never returns. */
    method SaveIterate(races: seq<seq<Write>>) returns (stuck: bool, ghost n: nat)
      requires Valid() && forall i | 0 <= i < |races| :: WritesOk(page, blocks, races[i])
      modifies this
      ensures Valid() && version == old(version) == lastVersion
      ensures n <= |races| && OnlyWritten(page, blocks, old(mem), mem, Joined(races[..n]))
      ensures stuck <==>
        races != [] && AllClean(old(bitmap), blocks) && (old(lastSeen).None? || version != old(lastVersion))
      ensures stuck ==> n == 0 && sent == old(sent) && mem == old(mem) && AllClean(bitmap, blocks) && lastSeen.None?
      ensures !stuck ==> old(sent) <= sent && Closed(sent) && |sent| == |old(sent)| + n + 1
      ensures !stuck ==> n == |races| || AllClean(bitmap, blocks)
      ensures !stuck ==> dirtyPages + |sent| == old(dirtyPages) + |old(sent)| + 1
      ensures !stuck && lastSeen.None? ==> races == [] && bitmap == old(bitmap)
      ensures !stuck && lastSeen.None? ==> old(lastSeen).None? || version != old(lastVersion)
    {
      hide Safe, BlocksApart, Bytes, Total, TableOk, Count, Shaped, Written, Latest, AllClean, WriteOk, RecordsOk,
        EncodeAll, BlocksNamed, LastFrom;
      if version != lastVersion {
        ResetGlobals();
      }
      ghost var seen := lastSeen;
      n := 0;
      NothingWritten(page, blocks, mem);
      assert races[..0] == [];
      var i := 0;
      while i < |races|
        invariant i == n <= |races| && Valid() && |sent| == |old(sent)| + i && old(sent) <= sent
        invariant OnlyWritten(page, blocks, old(mem), mem, Joined(races[..i]))
        invariant version == old(version) == lastVersion && dirtyPages + i == old(dirtyPages)
        invariant |bitmap| == |old(bitmap)|
        invariant i == 0 ==> bitmap == old(bitmap) && lastSeen == seen && sent == old(sent) && mem == old(mem)
        invariant i > 0 ==> lastSeen.Some? && !(seen.None? && AllClean(old(bitmap), blocks))
      {
        ghost var before, b, k, wrapped := mem, 0, 0, false;
        var bytes;
        stuck, bytes, b, k, wrapped := SaveBlock(races[i]);
        if stuck {
          return;
        }
        if bytes == 0 {
          break;
        }
        WrittenMore(page, blocks, old(mem), before, mem, Joined(races[..i]), races[i]);
        JoinedSnoc(races, i);
        i, n := i + 1, n + 1;
      }
      stuck := false;
      EndSection();
    }

    /** ram_save_complete, with the guest stopped: every page reaches the stream as it is, unless there is
        neither a starting point nor a mark. */
    method SaveComplete() returns (stuck: bool)
      requires Valid()
      modifies this
      ensures Valid() && mem == old(mem)
      ensures stuck <==> old(lastSeen).None? && AllClean(old(bitmap), blocks) && AllClean(old(logged), blocks)
      ensures stuck ==> sent == old(sent) && AllClean(bitmap, blocks)
      ensures lastSeen.None? <==> stuck
      ensures !stuck ==> old(sent) <= sent && Closed(sent) && AllSent(page, blocks, sent, mem)
    {
      hide Safe, Count, SomeDirty, StreamOk, Shaped, Written, Latest, AllClean, WriteOk, Synced, BlocksApart, Bytes,
        Total, TableOk, AllSent;
      BitmapSync();
      SyncedIsClean(blocks, old(bitmap), old(logged), bitmap, logged);
      ghost var seen, bits := lastSeen, bitmap;
      while true
        invariant Valid() && mem == old(mem) && AllClean(logged, blocks) && |bitmap| == |bits| && old(sent) <= sent
        invariant (lastSeen == seen && bitmap == bits && sent == old(sent)) ||
                  (lastSeen.Some? && !(seen.None? && AllClean(bits, blocks)))
        decreases dirtyPages
      {
        ghost var b, k, wrapped := 0, 0, false;
        var bytes;
        stuck, bytes, b, k, wrapped := SaveBlock([]);
        if stuck {
          return;
        }
        if bytes == 0 {
          break;
        }
      }
      CleanIsSent(page, blocks, bitmap, logged, sent, mem);
      AllSentMark(page, blocks, sent, mem, Eos);
      EndSection();
    }

    /** A whole migration, for any guest activity, any number of rounds and any changes of the block list that
        leave it as it was.  It gets stuck only after such a change, with everything sent that was marked. */
    method Migrate(script: seq<Action>) returns (stuck: bool, ghost taken: seq<nat>, ghost trace: seq<Moment>)
      requires Config() && forall i | 0 <= i < |script| :: ActionOk(page, blocks, script[i])
      modifies this
      ensures Valid() && TakenOk(script, taken) && (!stuck ==> |taken| == |script|)
      ensures OnlyWritten(page, blocks, old(mem), mem, GuestStores(script, taken))
      ensures SectionsSent(script, taken, sent) && |trace| == |taken| + 1
      ensures forall i | 0 <= i < |taken| :: Acts(page, blocks, trace[i], script[i], taken[i], trace[i + 1])
      ensures trace[0].mem == old(mem) && trace[0].sent == [Table, Eos]
      ensures trace[|taken|].mem == mem && trace[|taken|].sent <= sent
      ensures !stuck ==> Closed(sent) && AllSent(page, blocks, sent, mem)
      ensures stuck <==> lastSeen.None?
      ensures stuck ==> AllClean(bitmap, blocks) && Closed(sent) && exists i :: 0 <= i < |script| && script[i].Relist?
    {
      hide Safe, Count, StreamOk, Shaped, Written, Latest, WriteOk, Synced, BlocksApart, Bytes, Total, TableOk, AllSent,
        WritesOk, AllClean, SomeDirty, GuestStores, SectionsSent, SentBy, Joined, OnlyWritten, Closed;
      Setup();
      SetupClosed();
      SectionsStart(script, sent);
      taken, trace := [], [Now()];
      NothingWritten(page, blocks, mem);
      ghost var relisted := false;
      var i := 0;
      while i < |script|
        invariant i <= |script| && Valid() && TakenOk(script, taken) && |taken| == i && Closed(sent)
        invariant OnlyWritten(page, blocks, old(mem), mem, GuestStores(script, taken))
        invariant SectionsSent(script, taken, sent) && |sent| == SentBy(script, taken)
        invariant |trace| == i + 1 && trace[i] == Now() && trace[0].mem == old(mem) && trace[0].sent == [Table, Eos]
        invariant forall j | 0 <= j < i :: Acts(page, blocks, trace[j], script[j], taken[j], trace[j + 1])
        invariant relisted ==> exists j :: 0 <= j < i && script[j].Relist?
        invariant relisted || (version == lastVersion && (lastSeen.None? ==> SomeDirty(bitmap, blocks)))
      {
        ghost var before, records, n: nat := mem, sent, 0;
        assert ActionOk(page, blocks, script[i]);
        NothingWritten(page, blocks, mem);
        NotBoth(bitmap, blocks);
        match script[i] {
          case Guest(ws) =>
            Run(ws);
          case Iterate(races) =>
            stuck, n := SaveIterate(races);
            if stuck {
              return;
            }
          case Pending =>
            BitmapSync();
          case Relist(changes) =>
            ChangeList(changes);
            relisted := true;
        }
        WrittenMore(page, blocks, old(mem), before, mem, GuestStores(script, taken), StoresIn(script[i], n));
        GuestStoresSnoc(script, taken, n);
        SectionsSnoc(script, taken, n, records, sent);
        assert Acts(page, blocks, trace[i], script[i], n, Now());
        taken, trace := taken + [n], trace + [Now()];
        i := i + 1;
      }
      NotBoth(bitmap, blocks);
      ghost var records := sent;
      stuck := SaveComplete();
      SectionsMore(script, taken, records, sent);
    }

    /** Blocks come and go, and the list is as before. */
    method ChangeList(changes: nat)
      requires Valid()
      modifies this`version
      ensures Valid() && version == (old(version) + changes) % RamBlocks.VERSION_WORD
    {
      version := (version + changes) % RamBlocks.VERSION_WORD;
    }

    /** The guest runs for a while. */
    method Run(ws: seq<Write>)
      requires Valid() && WritesOk(page, blocks, ws)
      modifies this`mem, this`logged
      ensures Valid() && OnlyWritten(page, blocks, old(mem), mem, ws)
    {
      hide Safe, Written, Count, SomeDirty, Latest;
      GuestWrites(ws, None);
    }
  }

  /** Source and destination together: after the migration the destination's memory is the source's. */
  method MigrateTo(source: RamSaver, dest: RamLoader, script: seq<Action>) returns (stuck: bool, ghost taken: seq<nat>)
    requires source.Config() && forall i | 0 <= i < |script| :: ActionOk(source.page, source.blocks, script[i])
    requires dest.page == source.page && Paired(source.page, dest.table, source.blocks)
    requires Shaped(dest.page, dest.table, dest.mem)
    modifies source, dest
    ensures TakenOk(script, taken) && (!stuck ==> |taken| == |script|)
    ensures OnlyWritten(source.page, source.blocks, old(source.mem), source.mem, GuestStores(script, taken))
    ensures !stuck ==> SameContents(dest.table, source.blocks, dest.mem, source.mem)
    ensures stuck ==> exists i :: 0 <= i < |script| && script[i].Relist?
  {
    hide Safe, Shaped, Written, Latest, WriteOk, BlocksApart, Bytes, Total, TableOk, AllSent, Matches, LoadSection,
      EncodeAll, BlocksNamed, RecordsOk, SameContents, OnlyWritten, AllClean;
    ghost var trace;
    stuck, taken, trace := source.Migrate(script);
    if stuck {
      return;
    }
    StreamDelivers(source.page, dest.table, source.blocks, dest.D(), source.sent, source.mem);
    var at := source.out;
    while at != []
      modifies dest
      invariant LoadStream(dest.page, dest.table, dest.D(), at) ==
                LoadStream(dest.page, dest.table, old(dest.D()), source.out)
      decreases |at|
    {
      var rest := dest.Load(at);
      at := rest.value;
    }
  }

  /** The scan that never returns can be reached from every configuration: send everything, let a block come and
      go, and iterate again. */
  method ReachStuck(source: RamSaver) returns (stuck: bool)
    requires source.Config()
    modifies source
    ensures stuck && source.Valid() && source.lastSeen.None? && AllClean(source.bitmap, source.blocks)
    ensures forall turns: nat ::
      !LeavesWithin(source.bitmap, source.blocks, None, source.lastOffset, ScanBegin(None, source.lastOffset), turns)
  {
    hide Safe, Shaped, Written, WriteOk, BlocksApart, Bytes, Total, TableOk, EncodeAll, BlocksNamed, RecordsOk,
      OnlyWritten, AllClean, SomeDirty, Count, LeavesWithin;
    source.Setup();
    NotBoth(source.bitmap, source.blocks);
    var enough := seq(source.dirtyPages + 1, _ => []);
    ghost var n;
    stuck, n := source.SaveIterate(enough);
    source.ChangeList(2);
    stuck, n := source.SaveIterate([[]]);
    forall turns: nat
      ensures !LeavesWithin(source.bitmap, source.blocks, None, source.lastOffset, ScanBegin(None, source.lastOffset),
                            turns)
    {
      ScanNeverEnds(source.bitmap, source.blocks, source.lastOffset, ScanBegin(None, source.lastOffset), turns);
    }
  }

  /** One such configuration: a single block of one page. */
  method StuckExample() returns (source: RamSaver)
    ensures source.blocks == [RamBlock([], 0, 1)] && source.Valid() && source.lastSeen.None?
    ensures AllClean(source.bitmap, source.blocks)
    ensures forall turns: nat ::
      !LeavesWithin(source.bitmap, source.blocks, None, source.lastOffset, ScanBegin(None, source.lastOffset), turns)
  {
    hide Latest, EncodeAll, LeavesWithin;
    var block := RamBlock([], 0, 1);
    var page: Page := seq(MIN_PAGE, _ => 0);
    source := new RamSaver(MIN_PAGE, [block], [[page]], [false]);
    assert Total([block]) == 1 + Total([block][1..]) == 1;
    var _ := ReachStuck(source);
  }

  // The scan without a starting point.

  /** The place a scan has got to. */
  datatype ScanPoint = ScanPoint(block: nat, offset: nat, round: bool)

  ghost function FirstMarked(bits: seq<bool>, blocks: seq<RamBlock>, b: nat, from: nat): nat
    requires BlocksWithin(blocks, |bits|) && b < |blocks|
    decreases blocks[b].pages - from
  {
    if from >= blocks[b].pages || BitOf(bits, blocks, b, from) then from else FirstMarked(bits, blocks, b, from + 1)
  }

  /** One turn of the loop of ram_save_block; none if it leaves the loop. */
  ghost function ScanTurn(bits: seq<bool>, blocks: seq<RamBlock>, seen: Option<nat>, offset: nat,
                          at: ScanPoint): Option<ScanPoint>
    requires BlocksWithin(blocks, |bits|) && at.block < |blocks|
  {
    var k := FirstMarked(bits, blocks, at.block, at.offset);
    if at.round && seen == Some(at.block) && k >= offset then None
    else if k < blocks[at.block].pages then None
    else if at.block + 1 == |blocks| then Some(ScanPoint(0, 0, true))
    else Some(ScanPoint(at.block + 1, 0, at.round))
  }

  ghost predicate LeavesWithin(bits: seq<bool>, blocks: seq<RamBlock>, seen: Option<nat>, offset: nat, at: ScanPoint,
                               turns: nat)
    requires BlocksWithin(blocks, |bits|) && at.block < |blocks|
    decreases turns
  {
    turns > 0 &&
    var next := ScanTurn(bits, blocks, seen, offset, at);
    next.None? || LeavesWithin(bits, blocks, seen, offset, next.value, turns - 1)
  }

  /** With no page seen yet and none marked, the loop is never left. */
  lemma {:induction false} ScanNeverEnds(bits: seq<bool>, blocks: seq<RamBlock>, offset: nat, at: ScanPoint, turns: nat)
    requires BlocksWithin(blocks, |bits|) && at.block < |blocks| && AllClean(bits, blocks)
    ensures !LeavesWithin(bits, blocks, None, offset, at, turns)
    decreases turns
  {
    if turns > 0 {
      assert CleanFrom(bits, blocks, at.block, 0);
      NoMark(bits, blocks, at.block, at.offset);
      var next := ScanTurn(bits, blocks, None, offset, at).value;
      ScanNeverEnds(bits, blocks, offset, next, turns - 1);
    }
  }

  lemma {:induction false} NoMark(bits: seq<bool>, blocks: seq<RamBlock>, b: nat, from: nat)
    requires BlocksWithin(blocks, |bits|) && b < |blocks| && CleanFrom(bits, blocks, b, from)
    ensures FirstMarked(bits, blocks, b, from) >= blocks[b].pages
    decreases blocks[b].pages - from
  {
    if from < blocks[b].pages {
      NoMark(bits, blocks, b, from + 1);
    }
  }

  lemma {:induction false} FirstMarkedClean(bits: seq<bool>, blocks: seq<RamBlock>, b: nat, from: nat)
    requires BlocksWithin(blocks, |bits|) && b < |blocks| && FirstMarked(bits, blocks, b, from) >= blocks[b].pages
    ensures CleanFrom(bits, blocks, b, from)
    decreases blocks[b].pages - from
  {
    if from < blocks[b].pages {
      FirstMarkedClean(bits, blocks, b, from + 1);
    }
  }

  function TurnsLeft(blocks: seq<RamBlock>, at: ScanPoint): int {
    (if at.round then 0 else |blocks|) + |blocks| - at.block
  }

  /** With a starting point, or with a mark somewhere, the scan leaves its loop within two rounds. */
  lemma {:induction false} ScanLeaves(bits: seq<bool>, blocks: seq<RamBlock>, seen: Option<nat>, offset: nat,
                                      at: ScanPoint)
    requires BlocksWithin(blocks, |bits|) && at.block < |blocks|
    requires ScannedTo(bits, blocks, seen, offset, at.block, at.round)
    requires at.offset == ScanFrom(seen, offset, at.block, at.round)
    requires match seen
      case None => offset == 0 && SomeDirty(bits, blocks)
      case Some(b) => b < |blocks| && offset <= blocks[b].pages
    ensures LeavesWithin(bits, blocks, seen, offset, at, TurnsLeft(blocks, at))
    decreases TurnsLeft(blocks, at)
  {
    hide CleanFrom, SomeDirty, ScannedTo, FirstMarked, AllClean;
    var next := ScanTurn(bits, blocks, seen, offset, at);
    NotBoth(bits, blocks);
    if next.Some? {
      FirstMarkedClean(bits, blocks, at.block, at.offset);
      ScanStep(bits, blocks, seen, offset, at.block, at.round);
      ScanLeavesNext(bits, blocks, seen, offset, at.block, at.round);
      ScanLeaves(bits, blocks, seen, offset, next.value);
    }
  }

  /** Past the starting block a scan begins each block at its first page. */
  lemma ScanLeavesNext(bits: seq<bool>, blocks: seq<RamBlock>, seen: Option<nat>, offset: nat, b: nat, round: bool)
    requires BlocksWithin(blocks, |bits|) && b < |blocks| && ScannedTo(bits, blocks, seen, offset, b, round)
    ensures b + 1 < |blocks| ==> ScanFrom(seen, offset, b + 1, round) == 0
    ensures ScanFrom(seen, offset, 0, true) == 0
  {
    hide CleanFrom;
  }

  /** Where ram_save_block begins. */
  function ScanBegin(seen: Option<nat>, offset: nat): ScanPoint {
    ScanPoint(if seen.Some? then seen.value else 0, offset, false)
  }

  /** The loop is left if, and only if, there is a starting point or a marked page. */
  lemma ScanEndsIff(bits: seq<bool>, blocks: seq<RamBlock>, seen: Option<nat>, offset: nat)
    requires BlocksWithin(blocks, |bits|) && blocks != []
    requires match seen case None => offset == 0 case Some(b) => b < |blocks| && offset <= blocks[b].pages
    ensures (exists turns: nat :: LeavesWithin(bits, blocks, seen, offset, ScanBegin(seen, offset), turns)) <==>
            seen.Some? || SomeDirty(bits, blocks)
  {
    hide LeavesWithin, ScannedTo, SomeDirty, AllClean;
    var at := ScanBegin(seen, offset);
    if seen.Some? || SomeDirty(bits, blocks) {
      ScanStart(bits, blocks, seen, offset);
      ScanLeaves(bits, blocks, seen, offset, at);
      assert TurnsLeft(blocks, at) >= 0;
    } else {
      NoneMarked(bits, blocks);
      forall turns: nat
        ensures !LeavesWithin(bits, blocks, seen, offset, at, turns)
      {
        ScanNeverEnds(bits, blocks, offset, at, turns);
      }
    }
  }

  lemma NoneMarked(bits: seq<bool>, blocks: seq<RamBlock>)
    requires BlocksWithin(blocks, |bits|) && !SomeDirty(bits, blocks)
    ensures AllClean(bits, blocks)
  {
    forall b: nat, k: nat | IsPage(blocks, b, k)
      ensures !BitOf(bits, blocks, b, k)
    {
    }
  }
}
