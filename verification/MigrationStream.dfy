/** The byte stream of RAM migration: what the sender writes and how the loader reads it (arch_init.c). */
module MigrationStream {
  import opened Prelude
  import opened Arithmetic

  type Page = seq<Byte>

  const FLAG_COMPRESS := 0x02
  const FLAG_MEM_SIZE := 0x04
  const FLAG_PAGE := 0x08
  const FLAG_EOS := 0x10
  const FLAG_CONTINUE := 0x20
  const FLAG_XBZRLE := 0x40

  /** Flags share the low bits of a word with a page-aligned offset. */
  const MIN_PAGE := 0x400

  const WORD := 0x1_0000_0000_0000_0000

  /** The bit test `flags & bit`, for a single-bit constant. */
  predicate Has(flags: nat, bit: nat)
    requires bit > 0
  {
    (flags / bit) % 2 == 1
  }

  // Big-endian words.

  function PutBe(n: nat, len: nat): (s: seq<Byte>)
    ensures |s| == len
  {
    if len == 0 then [] else PutBe(n / 256, len - 1) + [n % 256]
  }

  function GetBe(s: seq<Byte>): (n: nat)
    ensures n < Pow256(|s|)
  {
    if s == [] then 0 else GetBe(s[..|s| - 1]) * 256 + s[|s| - 1]
  }

  function Pow256(len: nat): nat {
    if len == 0 then 1 else 256 * Pow256(len - 1)
  }

  lemma {:induction false} GetPut(n: nat, len: nat)
    requires n < Pow256(len)
    ensures GetBe(PutBe(n, len)) == n
  {
    if len > 0 {
      GetPut(n / 256, len - 1);
      GetSnoc(PutBe(n / 256, len - 1), n % 256);
    }
  }

  lemma GetSnoc(s: seq<Byte>, b: Byte)
    ensures GetBe(s + [b]) == GetBe(s) * 256 + b
  {
    assert (s + [b])[..|s|] == s;
  }

  lemma WordBytes()
    ensures Pow256(8) == WORD
  {
    assert Pow256(4) == 0x1_0000_0000;
    assert Pow256(6) == 0x1_0000_0000_0000;
  }

  lemma GetPutWord(n: nat)
    requires n < WORD
    ensures GetBe(PutBe(n, 8)) == n
  {
    WordBytes();
    GetPut(n, 8);
  }

  // The RAM block list and what the stream says about it.

  function Bytes(pages: nat, page: nat): nat {
    pages * page
  }

  datatype RamBlock = RamBlock(id: seq<Byte>, base: nat, pages: nat)

  /** A C string in a 256-byte array. */
  predicate IsName(id: seq<Byte>) {
    |id| < 256 && 0 !in id
  }

  function CString(s: seq<Byte>): seq<Byte> {
    if s == [] || s[0] == 0 then [] else [s[0]] + CString(s[1..])
  }

  lemma {:induction false} NameIsCString(id: seq<Byte>)
    requires 0 !in id
    ensures CString(id) == id
  {
    if id != [] {
      assert id[0] in id;
      NameIsCString(id[1..]);
    }
  }

  ghost predicate TableOk(table: seq<RamBlock>) {
    && (forall i | 0 <= i < |table| :: IsName(table[i].id) && table[i].pages > 0)
    && (forall i, j | 0 <= i < j < |table| :: table[i].id != table[j].id)
  }

  /** The block named `id`, searched for from the front. */
  function FindBlock(table: seq<RamBlock>, id: seq<Byte>): (r: Option<nat>)
    ensures r.Some? ==> r.value < |table| && table[r.value].id == id
  {
    if table == [] then None
    else if table[0].id == id then Some(0)
    else
      var r := FindBlock(table[1..], id);
      if r.Some? then Some(r.value + 1) else None
  }

  lemma {:induction false} FindBlockAt(table: seq<RamBlock>, i: nat)
    requires TableOk(table) && i < |table|
    ensures FindBlock(table, table[i].id) == Some(i)
  {
    if i > 0 {
      FindBlockAt(table[1..], i - 1);
    }
  }

  function Total(blocks: seq<RamBlock>): nat {
    if blocks == [] then 0 else blocks[0].pages + Total(blocks[1..])
  }

  datatype Record =
    | Table
    | Dup(block: nat, index: nat, ch: Byte, cont: bool)
    | Full(block: nat, index: nat, data: Page, cont: bool)
    | Eos

  function Name(id: seq<Byte>): seq<Byte>
    requires IsName(id)
  {
    [|id|] + id
  }

  function Entries(page: nat, blocks: seq<RamBlock>): seq<Byte>
    requires forall i | 0 <= i < |blocks| :: IsName(blocks[i].id)
  {
    if blocks == [] then []
    else Name(blocks[0].id) + PutBe(Bytes(blocks[0].pages, page), 8) + Entries(page, blocks[1..])
  }

  /** save_block_hdr */
  function BlockHeader(page: nat, b: RamBlock, index: nat, cont: bool, flag: nat): seq<Byte>
    requires IsName(b.id)
  {
    PutBe(Bytes(index, page) + (if cont then FLAG_CONTINUE else 0) + flag, 8) + if cont then [] else Name(b.id)
  }

  function Encode(page: nat, blocks: seq<RamBlock>, r: Record): seq<Byte>
    requires forall i | 0 <= i < |blocks| :: IsName(blocks[i].id)
    requires r.Dup? || r.Full? ==> r.block < |blocks|
  {
    match r
    case Table => PutBe(Bytes(Total(blocks), page) + FLAG_MEM_SIZE, 8) + Entries(page, blocks)
    case Dup(b, k, ch, cont) => BlockHeader(page, blocks[b], k, cont, FLAG_COMPRESS) + [ch]
    case Full(b, k, data, cont) => BlockHeader(page, blocks[b], k, cont, FLAG_PAGE) + data
    case Eos => PutBe(FLAG_EOS, 8)
  }

  // The loader.

  datatype Dest = Dest(mem: seq<seq<Page>>, current: Option<nat>)

  /** Memory in the shape of the block table. */
  ghost predicate Shaped(page: nat, table: seq<RamBlock>, mem: seq<seq<Page>>) {
    && |mem| == |table|
    && forall i | 0 <= i < |table| :: |mem[i]| == table[i].pages && forall k | 0 <= k < |mem[i]| :: |mem[i][k]| == page
  }

  /** One turn of ram_load's loop: the new state, what is left of the stream, and whether the section ended. */
  datatype Step = Step(dest: Dest, rest: seq<Byte>, eos: bool)

  /** A length byte and that many bytes, read as a C string. */
  function TakeName(s: seq<Byte>): (r: Option<(seq<Byte>, seq<Byte>)>)
    ensures r.Some? ==> |r.value.1| < |s|
  {
    if s == [] then None
    else
      var len: nat := s[0];
      if |s| < 1 + len then None else Some((CString(s[1..1 + len]), s[1 + len..]))
  }

  /** Every block listed exists here with the same length.  Lengths are subtracted from the total as 64-bit words. */
  function CheckTable(page: nat, table: seq<RamBlock>, total: nat, s: seq<Byte>): (r: Option<seq<Byte>>)
    ensures r.Some? ==> |r.value| <= |s|
    decreases |s|
  {
    if total == 0 then Some(s)
    else
      var name := TakeName(s);
      if name.None? || |name.value.1| < 8 then None
      else
        var (id, rest) := name.value;
        var i, length := FindBlock(table, id), GetBe(rest[..8]);
        if i.None? || Bytes(table[i.value].pages, page) != length then None
        else CheckTable(page, table, (total - length) % WORD, rest[8..])
  }

  /** host_from_stream_offset: the block the offset belongs to, and what is left of the stream. */
  function HostBlock(table: seq<RamBlock>, current: Option<nat>, flags: nat, s: seq<Byte>): (r: Option<(nat,
                     seq<Byte>)>)
    ensures r.Some? ==> |r.value.1| <= |s|
  {
    if Has(flags, FLAG_CONTINUE) then
      if current.Some? then Some((current.value, s)) else None
    else
      var name := TakeName(s);
      if name.None? then None
      else
        var i := FindBlock(table, name.value.0);
        if i.Some? then Some((i.value, name.value.1)) else None
  }

  function Store(mem: seq<seq<Page>>, b: nat, k: nat, data: Page): (r: seq<seq<Page>>)
    requires b < |mem| && k < |mem[b]|
    ensures |r| == |mem| && forall i | 0 <= i < |mem| :: |r[i]| == |mem[i]|
  {
    mem[b := mem[b][k := data]]
  }

  function Repeat(ch: Byte, n: nat): (s: Page)
    ensures |s| == n && forall i | 0 <= i < n :: s[i] == ch
  {
    seq(n, i => ch)
  }

  /** The page a header points at is read in; the original takes any offset on trust. */
  function LoadPage(page: nat, table: seq<RamBlock>, d: Dest, index: nat, flags: nat,
                    s: seq<Byte>): (r: Option<(Dest, seq<Byte>)>)
    ensures r.Some? ==> |r.value.1| <= |s|
  {
    var host := HostBlock(table, d.current, flags, s);
    if host.None? then None
    else
      var (b, rest) := host.value;
      if b >= |d.mem| || index >= |d.mem[b]| then None
      else if Has(flags, FLAG_COMPRESS) then
        if |rest| < 1 then None
        else Some((Dest(Store(d.mem, b, index, Repeat(rest[0], page)), Some(b)), rest[1..]))
      else if |rest| < page then None
      else Some((Dest(Store(d.mem, b, index, rest[..page]), Some(b)), rest[page..]))
  }

  /** The body of ram_load's loop, once a header word is split into a page offset and flags. */
  function LoadBody(page: nat, table: seq<RamBlock>, d: Dest, index: nat, flags: nat, s: seq<Byte>): (r: Option<Step>)
    ensures r.Some? ==> |r.value.rest| <= |s|
  {
    var checked := if Has(flags, FLAG_MEM_SIZE) then CheckTable(page, table, Bytes(index, page), s) else Some(s);
    if checked.None? then None
    else if Has(flags, FLAG_COMPRESS) || Has(flags, FLAG_PAGE) then
      var loaded := LoadPage(page, table, d, index, flags, checked.value);
      if loaded.None? then None else Some(Step(loaded.value.0, loaded.value.1, Has(flags, FLAG_EOS)))
    else if Has(flags, FLAG_XBZRLE) then None
    else Some(Step(d, checked.value, Has(flags, FLAG_EOS)))
  }

  function LoadStep(page: nat, table: seq<RamBlock>, d: Dest, s: seq<Byte>): (r: Option<Step>)
    requires page > 0
    ensures r.Some? ==> |r.value.rest| < |s|
  {
    if |s| < 8 then None
    else
      var word := GetBe(s[..8]);
      DivMonotone(0, word, page);
      LoadBody(page, table, d, word / page, word % page, s[8..])
  }

  /** ram_load: one section of the stream, up to its end mark. */
  function LoadSection(page: nat, table: seq<RamBlock>, d: Dest, s: seq<Byte>): (r: Option<(Dest, seq<Byte>)>)
    requires page > 0
    ensures r.Some? ==> |r.value.1| < |s|
    decreases |s|
  {
    var step := LoadStep(page, table, d, s);
    if step.None? then None
    else if step.value.eos then Some((step.value.dest, step.value.rest))
    else LoadSection(page, table, step.value.dest, step.value.rest)
  }

  // What the sender writes is what the loader reads.

  lemma Split<T>(a: seq<T>, b: seq<T>)
    ensures (a + b)[..|a|] == a && (a + b)[|a|..] == b
  {
  }

  lemma TakeNameBack(id: seq<Byte>, rest: seq<Byte>)
    requires IsName(id)
    ensures TakeName(Name(id) + rest) == Some((id, rest))
  {
    var s := Name(id) + rest;
    assert s[1..1 + |id|] == id && s[1 + |id|..] == rest;
    NameIsCString(id);
  }

  /** The word of a header gives back its offset and its flags. */
  lemma LoadStepHeader(page: nat, table: seq<RamBlock>, d: Dest, index: nat, flags: nat, rest: seq<Byte>)
    requires page >= MIN_PAGE && flags < MIN_PAGE && Bytes(index, page) + flags < WORD
    ensures LoadStep(page, table, d, PutBe(Bytes(index, page) + flags, 8) + rest) ==
            LoadBody(page, table, d, index, flags, rest)
  {
    hide PutBe, GetBe, LoadBody;
    var word := Bytes(index, page) + flags;
    Split(PutBe(word, 8), rest);
    GetPutWord(word);
    DivIs(word, page, index);
  }

  /** The destination has every block of the sender, at the same length. */
  ghost predicate Matches(table: seq<RamBlock>, blocks: seq<RamBlock>) {
    forall i | 0 <= i < |blocks| :: Matched(table, blocks[i])
  }

  ghost predicate Matched(table: seq<RamBlock>, b: RamBlock) {
    FindBlock(table, b.id).Some? && table[FindBlock(table, b.id).value].pages == b.pages
  }

  lemma SamePages(a: nat, b: nat, page: nat)
    requires page > 0
    ensures Bytes(a, page) == Bytes(b, page) <==> a == b
  {
    if a < b {
      MulLess(a, b, page);
    } else if b < a {
      MulLess(b, a, page);
    }
  }

  lemma CheckEntry(page: nat, table: seq<RamBlock>, b: RamBlock, total: nat, tail: seq<Byte>)
    requires page > 0 && IsName(b.id) && Bytes(b.pages, page) < WORD && total > 0
    ensures CheckTable(page, table, total, Name(b.id) + (PutBe(Bytes(b.pages, page), 8) + tail)) ==
      if Matched(table, b) then CheckTable(page, table, (total - Bytes(b.pages, page)) % WORD, tail) else None
  {
    hide PutBe, GetBe, FindBlock, Name, TakeName;
    var length := Bytes(b.pages, page);
    TakeNameBack(b.id, PutBe(length, 8) + tail);
    Split(PutBe(length, 8), tail);
    GetPutWord(length);
    if FindBlock(table, b.id).Some? {
      SamePages(table[FindBlock(table, b.id).value].pages, b.pages, page);
    }
  }

  lemma TotalSplit(page: nat, blocks: seq<RamBlock>)
    requires page > 0 && blocks != [] && blocks[0].pages > 0
    ensures Bytes(Total(blocks), page) == Bytes(blocks[0].pages, page) + Bytes(Total(blocks[1..]), page)
    ensures Bytes(blocks[0].pages, page) > 0
  {
    var a, b := blocks[0].pages, Total(blocks[1..]);
    MulLess(0, a, page);
    assert (a + b) * page == a * page + b * page;
  }

  lemma CheckNoEntries(page: nat, table: seq<RamBlock>, rest: seq<Byte>)
    ensures CheckTable(page, table, Bytes(Total([]), page), Entries(page, []) + rest) == Some(rest)
    ensures Matches(table, [])
  {
    hide PutBe, GetBe, FindBlock, TakeName, Name;
    assert Entries(page, []) + rest == rest;
  }

  /** The block list is accepted exactly when the destination matches it. */
  lemma {:induction false} CheckTableBack(page: nat, table: seq<RamBlock>, blocks: seq<RamBlock>, rest: seq<Byte>)
    requires page > 0 && TableOk(blocks) && Bytes(Total(blocks), page) < WORD
    ensures CheckTable(page, table, Bytes(Total(blocks), page), Entries(page, blocks) + rest) ==
      if Matches(table, blocks) then Some(rest) else None
    decreases |blocks|
  {
    hide CheckTable, Matches, Matched, PutBe, Name, Total, Bytes;
    if blocks == [] {
      CheckNoEntries(page, table, rest);
    } else {
      var b, more := blocks[0], blocks[1..];
      TotalSplit(page, blocks);
      var tail := Entries(page, more) + rest;
      assert Entries(page, blocks) + rest == Name(b.id) + (PutBe(Bytes(b.pages, page), 8) + tail);
      CheckEntry(page, table, b, Bytes(Total(blocks), page), tail);
      CheckTableBack(page, table, more, rest);
      MatchesHead(table, blocks);
    }
  }

  lemma MatchesHead(table: seq<RamBlock>, blocks: seq<RamBlock>)
    requires blocks != []
    ensures Matches(table, blocks) <==> Matched(table, blocks[0]) && Matches(table, blocks[1..])
  {
    if Matched(table, blocks[0]) && Matches(table, blocks[1..]) {
      forall i | 0 <= i < |blocks|
        ensures Matched(table, blocks[i])
      {
        assert i > 0 ==> blocks[i] == blocks[1..][i - 1];
      }
    }
    if Matches(table, blocks) {
      forall i | 0 <= i < |blocks[1..]|
        ensures Matched(table, blocks[1..][i])
      {
        assert blocks[1..][i] == blocks[i + 1];
      }
    }
  }

  /** A record that makes sense after a page of block `last` was sent. */
  ghost predicate RecordOk(page: nat, blocks: seq<RamBlock>, last: Option<nat>, r: Record) {
    r.Dup? || r.Full? ==>
      && r.block < |blocks| && r.index < blocks[r.block].pages
      && (r.cont ==> last == Some(r.block))
      && (r.Full? ==> |r.data| == page)
  }

  function NextSent(last: Option<nat>, r: Record): Option<nat> {
    if r.Dup? || r.Full? then Some(r.block) else last
  }

  function Contents(page: nat, r: Record): Page
    requires r.Dup? || r.Full?
  {
    if r.Dup? then Repeat(r.ch, page) else r.data
  }

  /** What a record means to a destination that matches the sender. */
  function Apply(page: nat, table: seq<RamBlock>, blocks: seq<RamBlock>, d: Dest, r: Record): Dest
    requires r.Dup? || r.Full? ==> r.block < |blocks|
  {
    if r.Table? || r.Eos? then d
    else
      var to := FindBlock(table, blocks[r.block].id);
      if to.None? || to.value >= |d.mem| || r.index >= |d.mem[to.value]| then d
      else Dest(Store(d.mem, to.value, r.index, Contents(page, r)), to)
  }

  /** The loader's remembered block is the block the sender last sent a page of. */
  ghost predicate InStep(table: seq<RamBlock>, blocks: seq<RamBlock>, last: Option<nat>, d: Dest) {
    last.Some? ==> last.value < |blocks| && d.current == FindBlock(table, blocks[last.value].id)
  }

  /** The configuration both sides agree on. */
  ghost predicate Paired(page: nat, table: seq<RamBlock>, blocks: seq<RamBlock>) {
    && page >= MIN_PAGE && TableOk(table) && TableOk(blocks) && Bytes(Total(blocks), page) + MIN_PAGE < WORD
    && Matches(table, blocks)
  }

  lemma ApplyKeeps(page: nat, table: seq<RamBlock>, blocks: seq<RamBlock>, last: Option<nat>, d: Dest, r: Record)
    requires Paired(page, table, blocks) && Shaped(page, table, d.mem) && RecordOk(page, blocks, last, r)
    requires InStep(table, blocks, last, d)
    ensures Shaped(page, table, Apply(page, table, blocks, d, r).mem)
    ensures InStep(table, blocks, NextSent(last, r), Apply(page, table, blocks, d, r))
  {
    if r.Dup? || r.Full? {
      assert Matched(table, blocks[r.block]);
    }
  }

  lemma {:induction false} PagesFit(blocks: seq<RamBlock>, b: nat)
    requires b < |blocks|
    ensures blocks[b].pages <= Total(blocks)
  {
    if b > 0 {
      PagesFit(blocks[1..], b - 1);
    }
  }

  lemma OffsetFits(page: nat, blocks: seq<RamBlock>, b: nat, k: nat, flags: nat)
    requires page > 0 && b < |blocks| && k < blocks[b].pages && flags < MIN_PAGE
    requires Bytes(Total(blocks), page) + MIN_PAGE < WORD
    ensures Bytes(k, page) + flags < WORD
  {
    PagesFit(blocks, b);
    MulLess(k, Total(blocks), page);
  }

  lemma HostBlockBack(table: seq<RamBlock>, blocks: seq<RamBlock>, last: Option<nat>, d: Dest, r: Record,
                      rest: seq<Byte>)
    requires InStep(table, blocks, last, d) && (r.Dup? || r.Full?) && r.block < |blocks| && IsName(blocks[r.block].id)
    requires (r.cont ==> last == Some(r.block)) && FindBlock(table, blocks[r.block].id).Some?
    ensures HostBlock(table, d.current, PageFlags(r), PageTail(blocks, r, rest)) ==
      Some((FindBlock(table, blocks[r.block].id).value, PageBody(r) + rest))
  {
    hide PageFlags, Has, Name, TakeName, FindBlock;
    PageFlagsSay(r);
    var tail := PageBody(r) + rest;
    if r.cont {
      assert [] + tail == tail;
    } else {
      TakeNameBack(blocks[r.block].id, tail);
    }
  }

  lemma LoadPageBack(page: nat, table: seq<RamBlock>, blocks: seq<RamBlock>, last: Option<nat>, d: Dest, r: Record,
                     rest: seq<Byte>)
    requires Paired(page, table, blocks) && Shaped(page, table, d.mem) && RecordOk(page, blocks, last, r)
    requires InStep(table, blocks, last, d) && (r.Dup? || r.Full?)
    ensures LoadPage(page, table, d, r.index, PageFlags(r), PageTail(blocks, r, rest)) ==
      Some((Apply(page, table, blocks, d, r), rest))
  {
    hide FindBlock, HostBlock, Name, PageFlags, Has, PageTail, Repeat;
    assert Matched(table, blocks[r.block]);
    PageFlagsSay(r);
    HostBlockBack(table, blocks, last, d, r, rest);
    Split(PageBody(r), rest);
  }

  function PageFlags(r: Record): nat
    requires r.Dup? || r.Full?
  {
    (if r.cont then FLAG_CONTINUE else 0) + (if r.Dup? then FLAG_COMPRESS else FLAG_PAGE)
  }

  lemma PageFlagsSay(r: Record)
    requires r.Dup? || r.Full?
    ensures var f := PageFlags(r);
      && !Has(f, FLAG_MEM_SIZE) && !Has(f, FLAG_EOS) && f < MIN_PAGE
      && Has(f, FLAG_COMPRESS) == r.Dup? && Has(f, FLAG_PAGE) == r.Full? && Has(f, FLAG_CONTINUE) == r.cont
  {
  }

  function PageBody(r: Record): seq<Byte>
    requires r.Dup? || r.Full?
  {
    if r.Dup? then [r.ch] else r.data
  }

  /** What follows the header word of a page. */
  function PageTail(blocks: seq<RamBlock>, r: Record, rest: seq<Byte>): seq<Byte>
    requires (r.Dup? || r.Full?) && r.block < |blocks| && IsName(blocks[r.block].id)
  {
    (if r.cont then [] else Name(blocks[r.block].id)) + (PageBody(r) + rest)
  }

  lemma EncodedPage(page: nat, blocks: seq<RamBlock>, r: Record, rest: seq<Byte>)
    requires (r.Dup? || r.Full?) && r.block < |blocks| && forall i | 0 <= i < |blocks| :: IsName(blocks[i].id)
    ensures Encode(page, blocks, r) + rest == PutBe(Bytes(r.index, page) + PageFlags(r), 8) + PageTail(blocks, r, rest)
  {
    hide PutBe, Name, Bytes;
  }

  lemma LoadStepPage(page: nat, table: seq<RamBlock>, blocks: seq<RamBlock>, last: Option<nat>, d: Dest, r: Record,
                     rest: seq<Byte>)
    requires Paired(page, table, blocks) && Shaped(page, table, d.mem) && RecordOk(page, blocks, last, r)
    requires InStep(table, blocks, last, d) && (r.Dup? || r.Full?)
    ensures LoadStep(page, table, d, Encode(page, blocks, r) + rest) ==
            Some(Step(Apply(page, table, blocks, d, r), rest, false))
  {
    hide Apply, LoadPage, LoadStep, Bytes, Matches, PutBe, Shaped, InStep, Total, PageTail, PageFlags, Encode, Has;
    EncodedPage(page, blocks, r, rest);
    PageFlagsSay(r);
    OffsetFits(page, blocks, r.block, r.index, PageFlags(r));
    LoadStepHeader(page, table, d, r.index, PageFlags(r), PageTail(blocks, r, rest));
    LoadPageBack(page, table, blocks, last, d, r, rest);
  }

  lemma LoadStepTable(page: nat, table: seq<RamBlock>, blocks: seq<RamBlock>, d: Dest, rest: seq<Byte>)
    requires page >= MIN_PAGE && TableOk(blocks) && Bytes(Total(blocks), page) + MIN_PAGE < WORD
    ensures LoadStep(page, table, d, Encode(page, blocks, Table) + rest) ==
      if Matches(table, blocks) then Some(Step(d, rest, false)) else None
  {
    hide LoadPage, LoadStep, CheckTable, Bytes, Matches, PutBe, Total, Entries;
    var tail := Entries(page, blocks) + rest;
    assert Encode(page, blocks, Table) + rest == PutBe(Bytes(Total(blocks), page) + FLAG_MEM_SIZE, 8) + tail;
    LoadStepHeader(page, table, d, Total(blocks), FLAG_MEM_SIZE, tail);
    CheckTableBack(page, table, blocks, rest);
  }

  /** Each record the sender writes has exactly its meaning to the loader. */
  lemma LoadStepBack(page: nat, table: seq<RamBlock>, blocks: seq<RamBlock>, last: Option<nat>, d: Dest, r: Record,
                     rest: seq<Byte>)
    requires Paired(page, table, blocks) && Shaped(page, table, d.mem) && RecordOk(page, blocks, last, r)
    requires InStep(table, blocks, last, d)
    ensures LoadStep(page, table, d, Encode(page, blocks, r) + rest) ==
            Some(Step(Apply(page, table, blocks, d, r), rest, r.Eos?))
  {
    hide Apply, LoadPage, LoadStep, CheckTable, Bytes, Matches, PutBe, Shaped, InStep, Total;
    if r.Table? {
      LoadStepTable(page, table, blocks, d, rest);
      ApplyNothing(page, table, blocks, d, r);
    } else if r.Eos? {
      NoBytes(page);
      LoadStepHeader(page, table, d, 0, FLAG_EOS, rest);
      ApplyNothing(page, table, blocks, d, r);
    } else {
      LoadStepPage(page, table, blocks, last, d, r, rest);
    }
  }

  lemma NoBytes(page: nat)
    ensures Bytes(0, page) == 0
  {
  }

  lemma ApplyNothing(page: nat, table: seq<RamBlock>, blocks: seq<RamBlock>, d: Dest, r: Record)
    requires r.Table? || r.Eos?
    ensures Apply(page, table, blocks, d, r) == d
  {
  }

  // Whole streams.

  ghost predicate RecordsOk(page: nat, blocks: seq<RamBlock>, last: Option<nat>, recs: seq<Record>)
    decreases |recs|
  {
    recs != [] ==> RecordOk(page, blocks, last, recs[0]) && RecordsOk(page, blocks, NextSent(last, recs[0]), recs[1..])
  }

  ghost predicate BlocksNamed(blocks: seq<RamBlock>, recs: seq<Record>) {
    && (forall i | 0 <= i < |blocks| :: IsName(blocks[i].id))
    && (forall i | 0 <= i < |recs| && (recs[i].Dup? || recs[i].Full?) :: recs[i].block < |blocks|)
  }

  ghost function EncodeAll(page: nat, blocks: seq<RamBlock>, recs: seq<Record>): seq<Byte>
    requires BlocksNamed(blocks, recs)
  {
    if recs == [] then [] else Encode(page, blocks, recs[0]) + EncodeAll(page, blocks, recs[1..])
  }

  ghost function ApplyAll(page: nat, table: seq<RamBlock>, blocks: seq<RamBlock>, d: Dest, recs: seq<Record>): Dest
    requires BlocksNamed(blocks, recs)
    decreases |recs|
  {
    if recs == [] then d else ApplyAll(page, table, blocks, Apply(page, table, blocks, d, recs[0]), recs[1..])
  }

  /** Section after section until the stream ends. */
  ghost function LoadStream(page: nat, table: seq<RamBlock>, d: Dest, s: seq<Byte>): Option<Dest>
    requires page > 0
    decreases |s|
  {
    if s == [] then Some(d)
    else
      var r := LoadSection(page, table, d, s);
      if r.None? then None else LoadStream(page, table, r.value.0, r.value.1)
  }

  ghost predicate Closed(recs: seq<Record>) {
    recs == [] || recs[|recs| - 1].Eos?
  }

  /** The rest of the section being read, and then the rest of the stream. */
  ghost function Finish(page: nat, table: seq<RamBlock>, d: Dest, s: seq<Byte>): Option<Dest>
    requires page > 0
  {
    var r := LoadSection(page, table, d, s);
    if r.None? then None else LoadStream(page, table, r.value.0, r.value.1)
  }

  lemma FinishStep(page: nat, table: seq<RamBlock>, d: Dest, s: seq<Byte>)
    requires page > 0
    ensures Finish(page, table, d, s) ==
      var step := LoadStep(page, table, d, s);
      if step.None? then None
      else if step.value.eos then LoadStream(page, table, step.value.dest, step.value.rest)
      else Finish(page, table, step.value.dest, step.value.rest)
  {
    hide LoadStep, LoadStream;
  }

  lemma {:induction false} FinishBack(page: nat, table: seq<RamBlock>, blocks: seq<RamBlock>, last: Option<nat>,
                                      d: Dest, recs: seq<Record>)
    requires Paired(page, table, blocks) && Shaped(page, table, d.mem) && InStep(table, blocks, last, d)
    requires RecordsOk(page, blocks, last, recs) && BlocksNamed(blocks, recs) && recs != [] && Closed(recs)
    ensures Finish(page, table, d, EncodeAll(page, blocks, recs)) == Some(ApplyAll(page, table, blocks, d, recs))
    decreases |recs|
  {
    hide LoadStep, LoadSection, Encode, Apply, Matches, TableOk, Bytes, Shaped, InStep, RecordOk, Finish;
    var r, rest := recs[0], recs[1..];
    var next := Apply(page, table, blocks, d, r);
    LoadStepBack(page, table, blocks, last, d, r, EncodeAll(page, blocks, rest));
    ApplyKeeps(page, table, blocks, last, d, r);
    FinishStep(page, table, d, EncodeAll(page, blocks, recs));
    if rest != [] {
      FinishBack(page, table, blocks, NextSent(last, r), next, rest);
      EncodedLength(page, blocks, rest[0]);
      LoadStreamFinish(page, table, next, EncodeAll(page, blocks, rest));
    }
  }

  lemma LoadStreamFinish(page: nat, table: seq<RamBlock>, d: Dest, s: seq<Byte>)
    requires page > 0 && s != []
    ensures LoadStream(page, table, d, s) == Finish(page, table, d, s)
  {
  }

  lemma EncodedLength(page: nat, blocks: seq<RamBlock>, r: Record)
    requires forall i | 0 <= i < |blocks| :: IsName(blocks[i].id)
    requires r.Dup? || r.Full? ==> r.block < |blocks|
    ensures |Encode(page, blocks, r)| >= 8
  {
    hide PutBe, Name, Entries;
  }

  /** Loading a stream of complete sections recovers every record in it, whatever sections they are in. */
  lemma StreamBack(page: nat, table: seq<RamBlock>, blocks: seq<RamBlock>, last: Option<nat>, d: Dest,
                   recs: seq<Record>)
    requires Paired(page, table, blocks) && Shaped(page, table, d.mem) && InStep(table, blocks, last, d)
    requires RecordsOk(page, blocks, last, recs) && BlocksNamed(blocks, recs) && Closed(recs)
    ensures LoadStream(page, table, d, EncodeAll(page, blocks, recs)) == Some(ApplyAll(page, table, blocks, d, recs))
  {
    if recs != [] {
      hide LoadStream, Encode, ApplyAll, Paired, Shaped, InStep, RecordsOk;
      FinishBack(page, table, blocks, last, d, recs);
      EncodedLength(page, blocks, recs[0]);
      LoadStreamFinish(page, table, d, EncodeAll(page, blocks, recs));
    }
  }

  /** A destination without the sender's blocks refuses the stream at once. */
  lemma MismatchRefused(page: nat, table: seq<RamBlock>, blocks: seq<RamBlock>, d: Dest, rest: seq<Byte>)
    requires page >= MIN_PAGE && TableOk(blocks) && Bytes(Total(blocks), page) + MIN_PAGE < WORD
    requires !Matches(table, blocks)
    ensures LoadStream(page, table, d, Encode(page, blocks, Table) + rest) == None
  {
    hide LoadStep, Encode, Matches, Bytes;
    LoadStepTable(page, table, blocks, d, rest);
    EncodedLength(page, blocks, Table);
    FinishStep(page, table, d, Encode(page, blocks, Table) + rest);
  }

  /** The destination side of a migration. */
  class RamLoader {
    const page: nat
    const table: seq<RamBlock>
    var mem: seq<seq<Page>>
    var current: Option<nat>

    constructor (page: nat, table: seq<RamBlock>, mem: seq<seq<Page>>)
      ensures this.page == page && this.table == table && this.mem == mem && current == None
    {
      this.page, this.table, this.mem, current := page, table, mem, None;
    }

    function D(): Dest
      reads this
    {
      Dest(mem, current)
    }

    method LookupBlock(id: seq<Byte>) returns (found: Option<nat>)
      ensures found == FindBlock(table, id)
    {
      var i := 0;
      while i < |table|
        invariant i <= |table|
        invariant FindBlock(table, id) ==
          var r := FindBlock(table[i..], id); if r.Some? then Some(r.value + i) else None
      {
        assert table[i..][1..] == table[i + 1..];
        if id == table[i].id {
          return Some(i);
        }
        i := i + 1;
      }
      return None;
    }

    /** Read the block list and compare it with ours. */
    method SyncBlockList(total: nat, s: seq<Byte>) returns (rest: Option<seq<Byte>>)
      ensures rest == CheckTable(page, table, total, s)
    {
      hide GetBe, FindBlock, TakeName;
      var left: nat, at := total, s;
      while left != 0
        invariant CheckTable(page, table, total, s) == CheckTable(page, table, left, at)
        decreases |at|
      {
        var name := TakeName(at);
        if name.None? || |name.value.1| < 8 {
          return None;
        }
        var (id, after) := name.value;
        var length := GetBe(after[..8]);
        var block := LookupBlock(id);
        if block.None? || Bytes(table[block.value].pages, page) != length {
          return None;
        }
        left, at := (left - length) % WORD, after[8..];
      }
      return Some(at);
    }

    method HostFromStreamOffset(flags: nat, s: seq<Byte>) returns (host: Option<(nat, seq<Byte>)>)
      modifies this`current
      ensures host == HostBlock(table, old(current), flags, s)
      ensures host.Some? ==> current == Some(host.value.0)
    {
      if Has(flags, FLAG_CONTINUE) {
        return if current.Some? then Some((current.value, s)) else None;
      }
      var name := TakeName(s);
      if name.None? {
        return None;
      }
      current := LookupBlock(name.value.0);
      return if current.Some? then Some((current.value, name.value.1)) else None;
    }

    method ReadPage(index: nat, flags: nat, s: seq<Byte>) returns (rest: Option<seq<Byte>>)
      modifies this
      ensures var r := LoadPage(page, table, old(D()), index, flags, s);
        if r.None? then rest == None else rest == Some(r.value.1) && D() == r.value.0
    {
      var host := HostFromStreamOffset(flags, s);
      if host.None? {
        return None;
      }
      var (b, at) := host.value;
      if b >= |mem| || index >= |mem[b]| {
        return None;
      }
      if Has(flags, FLAG_COMPRESS) {
        if |at| < 1 {
          return None;
        }
        mem := Store(mem, b, index, Repeat(at[0], page));
        return Some(at[1..]);
      }
      if |at| < page {
        return None;
      }
      mem := Store(mem, b, index, at[..page]);
      return Some(at[page..]);
    }

    /** ram_load.  The result is what follows the section, or nothing when the stream is refused. */
    method Load(s: seq<Byte>) returns (rest: Option<seq<Byte>>)
      requires page > 0
      modifies this
      ensures var r := LoadSection(page, table, old(D()), s);
        if r.None? then rest == None else rest == Some(r.value.1) && D() == r.value.0
    {
      hide CheckTable, LoadPage, GetBe, Has;
      var at := s;
      var eos := false;
      while !eos
        invariant |at| <= |s|
        invariant if eos then LoadSection(page, table, old(D()), s) == Some((D(), at))
                  else LoadSection(page, table, old(D()), s) == LoadSection(page, table, D(), at)
        decreases |at|, !eos
      {
        if |at| < 8 {
          return None;
        }
        var word := GetBe(at[..8]);
        var flags, index := word % page, word / page;
        DivMonotone(0, word, page);
        var after := Some(at[8..]);
        if Has(flags, FLAG_MEM_SIZE) {
          after := SyncBlockList(Bytes(index, page), after.value);
          if after.None? {
            return None;
          }
        }
        if Has(flags, FLAG_COMPRESS) || Has(flags, FLAG_PAGE) {
          after := ReadPage(index, flags, after.value);
          if after.None? {
            return None;
          }
        } else if Has(flags, FLAG_XBZRLE) {
          return None;
        }
        at, eos := after.value, Has(flags, FLAG_EOS);
      }
      return Some(at);
    }
  }
}
