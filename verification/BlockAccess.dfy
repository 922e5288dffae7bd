/** Byte access through sectors, and committing an image into its backing file (block.c). */
module BlockAccess {
  import opened Prelude
  import opened BlockRequests

  const SECTOR := 512

  /** `bytes` with those from `at` on replaced by `buf`. */
  function Patched(bytes: seq<bv8>, at: nat, buf: seq<bv8>): (r: seq<bv8>)
    requires at + |buf| <= |bytes|
    ensures |r| == |bytes|
  {
    bytes[..at] + buf + bytes[at + |buf|..]
  }

  lemma PatchedTwice(bytes: seq<bv8>, at: nat, a: seq<bv8>, b: seq<bv8>)
    requires at + |a| + |b| <= |bytes|
    ensures Patched(Patched(bytes, at, a), at + |a|, b) == Patched(bytes, at, a + b)
  {
  }

  /** Reading a sector, changing part of it and writing it back changes just that part. */
  lemma PatchedInside(bytes: seq<bv8>, lo: nat, at: nat, buf: seq<bv8>, hi: nat)
    requires lo <= at && at + |buf| <= hi <= |bytes|
    ensures Patched(bytes, lo, Patched(bytes[lo..hi], at - lo, buf)) == Patched(bytes, at, buf)
  {
  }

  /** How many of the bytes come before the next sector boundary. */
  function HeadLen(offset: nat, count: nat): (len: nat)
    ensures len <= count && offset % SECTOR + len <= SECTOR
    ensures count > len ==> offset + len == (offset / SECTOR + (if len > 0 then 1 else 0)) * SECTOR
  {
    Min((SECTOR - offset % SECTOR) % SECTOR, count)
  }

  class SectorDevice {
    /** A whole number of sectors. */
    var bytes: seq<bv8>

    /** Which of the coming transfers fail, and after how many sectors; past its end none does. */
    var faults: seq<Option<nat>>

    ghost predicate Valid()
      reads this
    {
      |bytes| % SECTOR == 0
    }

    /** Nothing goes wrong from here on. */
    ghost predicate Sound()
      reads this
    {
      forall i | 0 <= i < |faults| :: faults[i].None?
    }

    method NextFault() returns (fault: Option<nat>)
      modifies this`faults
      ensures fault == (if old(faults) == [] then None else old(faults)[0])
      ensures faults == if old(faults) == [] then [] else old(faults)[1..]
      ensures old(Sound()) ==> fault.None? && Sound()
    {
      fault := if faults == [] then None else faults[0];
      faults := if faults == [] then [] else faults[1..];
    }

    method ReadSectors(sector: nat, count: nat) returns (r: Option<seq<bv8>>)
      requires Valid()
      modifies this`faults
      ensures old(Sound()) ==> Sound()
      ensures r.Some? ==> Got(bytes, sector * SECTOR, count * SECTOR, r.value)
      ensures r.Some? <==> (old(faults) == [] || old(faults)[0].None?) && (sector + count) * SECTOR <= |bytes|
    {
      var fault := NextFault();
      if fault.Some? || (sector + count) * SECTOR > |bytes| {
        return None;
      }
      return Some(bytes[sector * SECTOR..(sector + count) * SECTOR]);
    }

    /** A transfer that fails on the way leaves a front part of the sectors written. */
    method WriteSectors(sector: nat, buf: seq<bv8>) returns (ok: bool, ghost done: nat)
      requires Valid() && |buf| % SECTOR == 0
      modifies this
      ensures Valid() && (old(Sound()) ==> Sound())
      ensures Put(old(bytes), bytes, sector * SECTOR, buf, done) && done % SECTOR == 0 && (ok ==> done == |buf|)
      ensures ok <==> (old(faults) == [] || old(faults)[0].None?) && sector * SECTOR + |buf| <= |old(bytes)|
    {
      done := 0;
      var fault := NextFault();
      if sector * SECTOR + |buf| > |bytes| {
        return false, done;
      }
      var n: nat := if fault.Some? then Min(fault.value * SECTOR, |buf|) else |buf|;
      bytes := Patched(bytes, sector * SECTOR, buf[..n]);
      ok, done := fault.None?, n;
      assert buf[..|buf|] == buf;
    }

    /** Part of one sector, through a bounce buffer. */
    method ReadPart(sector: nat, at: nat, len: nat) returns (r: Option<seq<bv8>>)
      requires Valid() && at + len <= SECTOR && len > 0
      modifies this`faults
      ensures old(Sound()) ==> Sound()
      ensures r.Some? ==> Got(bytes, sector * SECTOR + at, len, r.value)
      ensures old(Sound()) && sector * SECTOR + at + len <= |bytes| ==> r.Some?
    {
      var whole := ReadSectors(sector, 1);
      if whole.None? {
        return None;
      }
      GotPart(bytes, sector * SECTOR, SECTOR, whole.value, at, len);
      return Some(whole.value[at..at + len]);
    }

    method WritePart(sector: nat, at: nat, part: seq<bv8>) returns (ok: bool, ghost done: nat)
      requires Valid() && at + |part| <= SECTOR && |part| > 0
      modifies this
      ensures Valid() && (old(Sound()) ==> Sound())
      ensures Put(old(bytes), bytes, sector * SECTOR + at, part, done) && (ok ==> done == |part|)
      ensures old(Sound()) && sector * SECTOR + at + |part| <= |old(bytes)| ==> ok
    {
      hide Patched;
      done := 0;
      var whole := ReadSectors(sector, 1);
      if whole.None? {
        return false, done;
      }
      PatchedInside(bytes, sector * SECTOR, sector * SECTOR + at, part, (sector + 1) * SECTOR);
      var buf := Patched(whole.value, at, part);
      ok, done := WriteSectors(sector, buf);
      assert buf[..SECTOR] == buf && part[..|part|] == part;
      done := if done == 0 then 0 else |part|;
    }

    /** The rest of a read, from a sector boundary on: whole sectors in place, then part of the last one. */
    method ReadFrom(sector: nat, count: nat) returns (r: Option<seq<bv8>>)
      requires Valid()
      modifies this`faults
      ensures r.Some? ==> Got(bytes, sector * SECTOR, count, r.value)
      ensures old(Sound()) && sector * SECTOR + count <= |bytes| ==> r.Some?
    {
      hide Got;
      var buf: seq<bv8> := [];
      var whole, left := count / SECTOR, count % SECTOR;
      GotNothing(bytes, sector * SECTOR);
      if whole > 0 {
        var body := ReadSectors(sector, whole);
        if body.None? {
          return None;
        }
        buf := body.value;
      }
      if left > 0 {
        var tail := ReadPart(sector + whole, 0, left);
        if tail.None? {
          return None;
        }
        GotMore(bytes, sector * SECTOR, whole * SECTOR, buf, left, tail.value);
        buf := buf + tail.value;
      }
      return Some(buf);
    }

    /** bdrv_pread */
    method Pread(offset: nat, count: nat) returns (r: Option<seq<bv8>>)
      requires Valid()
      modifies this`faults
      ensures r.Some? ==> Got(bytes, offset, count, r.value)
      ensures old(Sound()) && offset + count <= |bytes| ==> r.Some?
    {
      hide Got, HeadLen;
      var len := HeadLen(offset, count);
      var sector := offset / SECTOR;
      if count == 0 {
        GotNothing(bytes, offset);
        return Some([]);
      }
      if len == 0 {
        r := ReadFrom(sector, count);
        return;
      }
      var head := ReadPart(sector, offset % SECTOR, len);
      if head.None? || len == count {
        return head;
      }
      var rest := ReadFrom(sector + 1, count - len);
      if rest.None? {
        return None;
      }
      GotMore(bytes, offset, len, head.value, count - len, rest.value);
      return Some(head.value + rest.value);
    }

    /** bdrv_pwrite.  If a transfer fails, some front part of the buffer has been written and nothing else has
        changed. */
    method Pwrite(offset: nat, buf: seq<bv8>) returns (ok: bool, ghost done: nat)
      requires Valid()
      modifies this
      ensures Valid() && Put(old(bytes), bytes, offset, buf, done) && (ok ==> done == |buf|)
      ensures old(Sound()) && offset + |buf| <= |old(bytes)| ==> ok
    {
      hide Put, Patched, HeadLen;
      ghost var before := bytes;
      done := 0;
      var left: nat := |buf|;
      var len := HeadLen(offset, left);
      var sector := offset / SECTOR;
      PutNothing(before, offset, buf);
      if len > 0 {
        ok, done := WritePart(sector, offset % SECTOR, buf[..len]);
        PutOn(before, before, bytes, offset, buf, 0, len, done);
        left := left - len;
        if !ok || left == 0 {
          return;
        }
        sector := sector + 1;
      }
      var whole := left / SECTOR;
      ghost var more := 0;
      if whole > 0 {
        ghost var now := bytes;
        ok, more := WriteSectors(sector, buf[|buf| - left..|buf| - left + whole * SECTOR]);
        PutOn(before, now, bytes, offset, buf, done, done + whole * SECTOR, more);
        done := done + more;
        if !ok {
          return;
        }
        sector, left := sector + whole, left - whole * SECTOR;
      }
      if left > 0 {
        ghost var now := bytes;
        ok, more := WritePart(sector, 0, buf[|buf| - left..|buf|]);
        PutOn(before, now, bytes, offset, buf, done, |buf|, more);
        done := done + more;
        if !ok {
          return;
        }
      }
      ok := true;
    }
  }

  /** `buf` is the `count` bytes at `offset`. */
  ghost predicate Got(bytes: seq<bv8>, offset: nat, count: nat, buf: seq<bv8>) {
    |buf| == count && (count > 0 ==> offset + count <= |bytes| && buf == bytes[offset..offset + count])
  }

  lemma GotNothing(bytes: seq<bv8>, offset: nat)
    ensures Got(bytes, offset, 0, [])
  {
  }

  lemma GotPart(bytes: seq<bv8>, offset: nat, count: nat, buf: seq<bv8>, at: nat, len: nat)
    requires Got(bytes, offset, count, buf) && at + len <= count && len > 0
    ensures Got(bytes, offset + at, len, buf[at..at + len])
  {
    var part, same := buf[at..at + len], bytes[offset + at..offset + at + len];
    forall i | 0 <= i < len
      ensures part[i] == same[i]
    {
      assert buf[at + i] == bytes[offset..offset + count][at + i];
    }
  }

  lemma GotMore(bytes: seq<bv8>, offset: nat, count: nat, buf: seq<bv8>, more: nat, next: seq<bv8>)
    requires Got(bytes, offset, count, buf) && Got(bytes, offset + count, more, next)
    ensures Got(bytes, offset, count + more, buf + next)
  {
  }

  /** The first `done` bytes of `buf` have been written at `offset`, and nothing else has changed. */
  ghost predicate Put(before: seq<bv8>, now: seq<bv8>, offset: nat, buf: seq<bv8>, done: nat) {
    && done <= |buf| && |now| == |before|
    && if done > 0 then offset + done <= |before| && now == Patched(before, offset, buf[..done]) else now == before
  }

  /** Byte by byte. */
  lemma PutBytes(before: seq<bv8>, now: seq<bv8>, offset: nat, buf: seq<bv8>, done: nat, i: nat)
    requires Put(before, now, offset, buf, done) && i < |before|
    ensures |now| == |before| && now[i] == if offset <= i < offset + done then buf[i - offset] else before[i]
  {
  }

  lemma PutNothing(bytes: seq<bv8>, offset: nat, buf: seq<bv8>)
    ensures Put(bytes, bytes, offset, buf, 0)
  {
  }

  /** Writing some of the next part of the buffer where the last part ended. */
  lemma PutOn(before: seq<bv8>, now: seq<bv8>, next: seq<bv8>, offset: nat, buf: seq<bv8>, done: nat, to: nat,
              more: nat)
    requires Put(before, now, offset, buf, done) && done <= to <= |buf|
    requires Put(now, next, offset + done, buf[done..to], more)
    ensures Put(before, next, offset, buf, done + more)
  {
    assert buf[done..to][..more] == buf[done..done + more];
    assert buf[..done + more] == buf[..done] + buf[done..done + more];
    if done > 0 && more > 0 {
      PatchedTwice(before, offset, buf[..done], buf[done..done + more]);
    }
  }

  /** What was written is what is read back. */
  lemma PutThenGot(before: seq<bv8>, now: seq<bv8>, offset: nat, buf: seq<bv8>, r: seq<bv8>)
    requires Put(before, now, offset, buf, |buf|) && Got(now, offset, |buf|, r)
    ensures r == buf
  {
  }

  // Committing an image into its backing file.

  const COMMIT_BUF_SECTORS := 2048

  datatype CommitResult = Done | NoMedium | NotSupported | Busy | AccessDenied | IoError

  /** Past the end of a short backing file the image reads as zeros. */
  function BackingAt(backing: seq<SectorData>, zero: SectorData, s: nat): SectorData {
    if s < |backing| then backing[s] else zero
  }

  /** What the guest sees at a sector. */
  function Shown(image: map<nat, SectorData>, backing: seq<SectorData>, zero: SectorData, s: nat): SectorData {
    if s in image then image[s] else BackingAt(backing, zero, s)
  }

  ghost predicate SameShown(image0: map<nat, SectorData>, backing0: seq<SectorData>, image: map<nat, SectorData>,
                            backing: seq<SectorData>, zero: SectorData)
  {
    forall s: nat :: Shown(image, backing, zero, s) == Shown(image0, backing0, zero, s)
  }

  /** Every allocated sector below `upto` is in the backing file as well. */
  ghost predicate Copied(image: map<nat, SectorData>, backing: seq<SectorData>, upto: nat) {
    forall s | s in image && s < upto :: s < |backing| && backing[s] == image[s]
  }

  function Overwritten(backing: seq<SectorData>, at: nat, buf: seq<SectorData>): seq<SectorData> {
    if buf == [] || at + |buf| > |backing| then backing else backing[..at] + buf + backing[at + |buf|..]
  }

  class CowImage {
    const sectors: nat
    const zero: SectorData

    /** There is a driver, and there is a backing file. */
    const hasMedium: bool
    const hasBacking: bool

    /** The driver can tell allocated sectors from others, and can empty the image. */
    const hasMap: bool
    const hasEmpty: bool

    var image: map<nat, SectorData>
    var backing: seq<SectorData>
    var readOnly: bool

    /** How long a run the driver cares to report at each sector, and which coming transfers fail, after how
        many sectors. */
    const runs: nat -> nat
    var faults: seq<Option<nat>>

    ghost predicate Valid()
      reads this
    {
      forall s | s in image :: s < sectors
    }

    method NextFault() returns (fault: Option<nat>)
      modifies this`faults
      ensures fault == (if old(faults) == [] then None else old(faults)[0])
      ensures faults == if old(faults) == [] then [] else old(faults)[1..]
    {
      fault := if faults == [] then None else faults[0];
      faults := if faults == [] then [] else faults[1..];
    }

    /** bdrv_is_allocated with an honest driver: some run of sectors in one state, clamped to the device. */
    method IsAllocated(sector: nat, max: nat) returns (inImage: bool, n: nat)
      requires sector < sectors && max > 0
      ensures 0 < n <= max && sector + n <= sectors
      ensures !inImage ==> forall s | sector <= s < sector + n :: s !in image
      ensures hasMap && inImage ==> forall s | sector <= s < sector + n :: s in image
    {
      var limit := Min(max, sectors - sector);
      if !hasMap {
        return true, limit;
      }
      inImage, n := sector in image, 1;
      while n < Min(limit, runs(sector)) && (sector + n in image) == inImage
        invariant 1 <= n <= limit && forall s | sector <= s < sector + n :: s in image <==> inImage
      {
        n := n + 1;
      }
    }

    /** bdrv_read on the image. */
    method ReadShown(sector: nat, n: nat) returns (r: Option<seq<SectorData>>)
      modifies this`faults
      ensures r.Some? ==>
        |r.value| == n && forall i | 0 <= i < n :: r.value[i] == Shown(image, backing, zero, sector + i)
      ensures r.Some? <==> old(faults) == [] || old(faults)[0].None?
      ensures old(faults) == [] ==> faults == []
    {
      var fault := NextFault();
      if fault.Some? {
        return None;
      }
      var own, under := image, backing;
      return Some(seq(n, i requires 0 <= i < n => Shown(own, under, zero, sector + i)));
    }

    /** bdrv_write on the backing file, which refuses to grow, and to change while it is read-only.  On failure the
        first `done` sectors are written. */
    method WriteBacking(sector: nat, buf: seq<SectorData>) returns (ok: bool, ghost done: nat)
      modifies this`faults, this`backing
      ensures done <= |buf| && (ok ==> done == |buf|) && (done > 0 || ok ==> sector + |buf| <= |old(backing)|)
      ensures backing == Overwritten(old(backing), sector, buf[..done])
      ensures ok <==>
        && (old(faults) == [] || old(faults)[0].None?) && sector + |buf| <= |old(backing)| && !readOnly
      ensures readOnly ==> backing == old(backing)
      ensures old(faults) == [] ==> faults == []
    {
      done := 0;
      var fault := NextFault();
      if sector + |buf| > |backing| || readOnly {
        return false, done;
      }
      var n := if fault.Some? then Min(fault.value, |buf|) else |buf|;
      backing := Overwritten(backing, sector, buf[..n]);
      ok, done := fault.None?, n;
    }

    /** bdrv_commit.  `kept` is what a driver that fails to empty the image leaves in it. */
    method Commit(inUse: bool, reopens: bool, emptied: bool, kept: set<nat>) returns (r: CommitResult)
      requires Valid()
      modifies this
      ensures Valid() && SameShown(old(image), old(backing), image, backing, zero) && |backing| == |old(backing)|
      ensures readOnly == old(readOnly)
      ensures r.Done? ==>
        forall s: nat | s < sectors :: BackingAt(backing, zero, s) == Shown(old(image), old(backing), zero, s)
      ensures r.Done? && hasEmpty ==> image == map[]
      ensures r.NoMedium? <==> !hasMedium
      ensures r.NotSupported? <==> hasMedium && !hasBacking
      ensures r.Busy? <==> hasMedium && hasBacking && inUse
      ensures r.AccessDenied? <==> hasMedium && hasBacking && !inUse && old(readOnly) && !reopens
      ensures (&& old(faults) == [] && hasMedium && hasBacking && !inUse && (old(readOnly) ==> reopens)
               && sectors <= |old(backing)| && (hasEmpty ==> emptied)) ==> r.Done?
    {
      if !hasMedium {
        return NoMedium;
      }
      if !hasBacking {
        return NotSupported;
      }
      if inUse {
        return Busy;
      }
      var ro := readOnly;
      if ro {
        if !reopens {
          return AccessDenied;
        }
        readOnly := false;
      }
      r := CopyAll();
      if r.Done? && hasEmpty {
        var left := map s | s in image && !emptied && s in kept :: image[s];
        EmptiedShows(image, backing, left, zero, sectors);
        image := left;
        r := if emptied then Done else IoError;
      }
      if ro {
        readOnly := true;
      }
    }

    /** The copying loop: the guest sees no change after any turn of it. */
    method CopyAll() returns (r: CommitResult)
      modifies this`backing, this`faults
      ensures SameShown(image, old(backing), image, backing, zero) && |backing| == |old(backing)|
      ensures r.Done? || r.IoError?
      ensures r.Done? ==> Copied(image, backing, sectors)
      ensures old(faults) == [] && sectors <= |old(backing)| && !readOnly ==> r.Done?
    {
      var sector := 0;
      while sector < sectors
        invariant sector <= sectors && |backing| == |old(backing)|
        invariant SameShown(image, old(backing), image, backing, zero) && Copied(image, backing, sector)
        invariant old(faults) == [] ==> faults == []
      {
        var inImage, n := IsAllocated(sector, COMMIT_BUF_SECTORS);
        if inImage {
          var buf := ReadShown(sector, n);
          if buf.None? {
            return IoError;
          }
          ghost var before := backing;
          ghost var done;
          var ok;
          ok, done := WriteBacking(sector, buf.value);
          CopiedRun(image, before, backing, zero, sector, buf.value[..done]);
          if !ok {
            return IoError;
          }
        }
        sector := sector + n;
      }
      return Done;
    }
  }

  /** Writing what is shown into the backing file changes nothing that is shown. */
  lemma CopiedRun(image: map<nat, SectorData>, before: seq<SectorData>, after: seq<SectorData>, zero: SectorData,
                  at: nat, buf: seq<SectorData>)
    requires (buf != [] ==> at + |buf| <= |before|) && after == Overwritten(before, at, buf)
    requires forall i | 0 <= i < |buf| :: buf[i] == Shown(image, before, zero, at + i)
    ensures |after| == |before| && SameShown(image, before, image, after, zero)
    ensures forall s | at <= s < at + |buf| :: s in image ==> after[s] == image[s]
    ensures forall s | 0 <= s < at && s < |before| :: after[s] == before[s]
  {
    forall s: nat
      ensures Shown(image, after, zero, s) == Shown(image, before, zero, s)
    {
      if at <= s < at + |buf| {
        assert after[s] == buf[s - at];
      } else if s < |before| {
        assert after[s] == before[s];
      }
    }
    forall s | at <= s < at + |buf|
      ensures s in image ==> after[s] == image[s]
    {
      assert after[s] == buf[s - at];
    }
  }

  /** Once the allocated sectors are in the backing file, dropping any of them from the image shows nothing new. */
  lemma EmptiedShows(image: map<nat, SectorData>, backing: seq<SectorData>, left: map<nat, SectorData>,
                     zero: SectorData, sectors: nat)
    requires Copied(image, backing, sectors)
    requires forall s | s in image :: s < sectors
    requires forall s | s in left :: s in image && left[s] == image[s]
    ensures SameShown(image, backing, left, backing, zero)
  {
  }
}
