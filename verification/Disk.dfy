// The block device: address checks, and chunk by chunk transfers through either cache.
module Disks {
  import opened Basics
  import opened FlatImage
  import opened DiskTracks
  import opened DiskCaches
  import opened LinuxCaches

  datatype SenseKey = NoSense | NotReady | MediumError | IllegalRequest | UnitAttention | DataProtect | AbortedCommand
  datatype Asc =
    | NoAdditionalSense | WriteFault | ReadError | InvalidCommandOperationCode | LbaOutOfRange | InvalidFieldInCdb
    | LogicalUnitNotSupported | WriteProtected | NotReadyToReady | PowerOnOrReset | MediumNotPresent
    | CommandPhaseError | DataPhaseError | InternalTargetFailure
  datatype Sense = Sense(key: SenseKey, asc: Asc)

  datatype CachingMode = Piscsi | Linux | WriteThrough | LinuxOptimized

  datatype AccessMode = RW6 | RW10 | RW16 | SEEK6 | SEEK10

  // What a command asks the controller to do next.
  datatype Begin =
    | Refused(sense: Sense)
    | NoTransfer
    | Transfer(start: nat, count: nat)

  // Counts and addresses are computed with 32 and 64 bits.
  const LIMIT64: nat := 0x1_0000_0000_0000_0000
  const LIMIT31: nat := 0x8000_0000

  function GetInt16(cdb: seq<Byte>, offset: nat): nat
    requires offset + 2 <= |cdb|
  {
    256 * (cdb[offset] as nat) + cdb[offset + 1] as nat
  }

  function GetInt24(cdb: seq<Byte>, offset: nat): nat
    requires offset + 3 <= |cdb|
  {
    0x1_0000 * (cdb[offset] as nat) + GetInt16(cdb, offset + 1)
  }

  function GetInt32(cdb: seq<Byte>, offset: nat): (r: nat)
    requires offset + 4 <= |cdb|
  {
    0x1_0000 * GetInt16(cdb, offset) + GetInt16(cdb, offset + 2)
  }

  function GetInt64(cdb: seq<Byte>, offset: nat): nat
    requires offset + 8 <= |cdb|
  {
    0x1_0000_0000 * GetInt32(cdb, offset) + GetInt32(cdb, offset + 4)
  }

  function StartOf(cdb: seq<Byte>, mode: AccessMode): nat
    requires |cdb| == 16
  {
    if mode.RW6? || mode.SEEK6? then GetInt24(cdb, 1) % 0x20_0000
    else if mode.RW16? then GetInt64(cdb, 2)
    else GetInt32(cdb, 2)
  }

  function CountOf(cdb: seq<Byte>, mode: AccessMode): nat
    requires |cdb| == 16
  {
    if mode.RW6? || mode.SEEK6? then (if cdb[4] == 0 then 256 else cdb[4])
    else if mode.RW16? then GetInt32(cdb, 10)
    else if mode.RW10? then GetInt16(cdb, 7)
    else 0
  }

  // The capacity check as it is computed, with a 64 bit sum.
  predicate PassesCheck(start: nat, count: nat, capacity: nat) {
    capacity != 0 && (start + count) % LIMIT64 <= capacity
  }

  function RangeAnswer(ready: Option<Sense>, cdb: seq<Byte>, access: AccessMode, capacity: nat): Begin
    requires |cdb| == 16
  {
    var start, count := StartOf(cdb, access), CountOf(cdb, access);
    if ready.Some? then Refused(ready.value)
    else if !PassesCheck(start, count, capacity) then Refused(Sense(IllegalRequest, LbaOutOfRange))
    else if count == 0 && !access.SEEK6? && !access.SEEK10? then NoTransfer
    else Transfer(start, count)
  }

  lemma RangeAnswerShows(ready: Option<Sense>, cdb: seq<Byte>, access: AccessMode, capacity: nat)
    requires |cdb| == 16
    ensures var b := RangeAnswer(ready, cdb, access, capacity);
            && (ready.Some? ==> b.Refused?)
            && (b.Transfer? && !access.SEEK6? && !access.SEEK10? ==> b.count > 0)
  {
  }

  // The check admits exactly the ranges on the medium, plus those whose end wraps around to a small number.
  lemma CheckIsExactUpToWrap(start: nat, count: nat, capacity: nat)
    requires 0 < capacity < LIMIT64 && start < LIMIT64 && count < LIMIT64
    ensures PassesCheck(start, count, capacity) <==>
            start + count <= capacity || LIMIT64 <= start + count <= LIMIT64 + capacity
  {
    if start + count < LIMIT64 {
      assert (start + count) % LIMIT64 == start + count;
    } else {
      assert (start + count) % LIMIT64 == start + count - LIMIT64;
    }
  }

  // A READ(16) for the last 64 bit address passes on every medium.
  lemma WrappedRangePasses(capacity: nat)
    requires 0 < capacity < LIMIT64
    ensures PassesCheck(LIMIT64 - 1, 1, capacity) && LIMIT64 - 1 + 1 > capacity
  {
  }

  class Disk {
    const mode: CachingMode
    const blockSize: nat
    const blockCount: nat
    const file: ImageFile
    const diskCache: DiskCache?
    const linuxCache: LinuxCache?
    var nextSector: nat
    var sectorTransferCount: nat
    var isReset: bool
    var isAttn: bool
    var isReady: bool
    var isProtected: bool
    ghost var image: seq<Byte>

    ghost function Footprint(): set<object>
      reads if diskCache != null then {diskCache.cache} else {}
    {
      {file}
      + (if diskCache != null then {diskCache, diskCache.cache} + (diskCache.Tracks() - {null}) else {})
      + (if linuxCache != null then {linuxCache} else {})
    }

    ghost predicate Valid()
      reads this`image, Footprint()
      reads if diskCache != null then {diskCache.cache} else {}
    {
      && 0 < blockSize && this !in Footprint()
      && blockCount * blockSize <= |image|
      && (mode.Piscsi? ==>
            && diskCache != null && linuxCache == null && diskCache.file == file && diskCache.sectorSize == blockSize
            && diskCache.blocks == blockCount && diskCache.Valid() && diskCache.image == image)
      && (!mode.Piscsi? ==>
            && linuxCache != null && linuxCache.file == file && linuxCache.sectorSize == blockSize
            && linuxCache.sectors == blockCount && linuxCache.Valid() && file.bytes == image
            && linuxCache.writeThrough == mode.WriteThrough?
            && (mode.WriteThrough? && file.failures == 0 ==> !linuxCache.unflushed))
    }

    // Everything the host has written is in the file.
    ghost predicate Saved()
      reads this`image, file`bytes
      reads if linuxCache != null then {linuxCache} else {}
    {
      file.bytes == image && (linuxCache != null ==> !linuxCache.unflushed)
    }

    // With write-through nothing is held back in any state that is reached, as long as no access has failed.
    lemma WriteThroughIsSaved()
      requires Valid() && mode.WriteThrough? && file.failures == 0
      ensures file.bytes == image && linuxCache != null && !linuxCache.unflushed
    {
    }

    constructor (m: CachingMode, f: ImageFile, size: nat, count: nat)
      requires 0 < size && count * size <= |f.bytes|
      ensures Valid() && file == f && mode == m && blockSize == size && blockCount == count
      ensures Saved() && image == f.bytes && f.bytes == old(f.bytes) && isReady && !isReset && !isAttn && !isProtected
      ensures fresh(Footprint() - {f})
    {
      mode, blockSize, blockCount, file := m, size, count, f;
      nextSector, sectorTransferCount := 0, 1;
      isReset, isAttn, isReady, isProtected := false, false, true, false;
      image := f.bytes;
      if m.Piscsi? {
        diskCache := new DiskCache(f, size, count);
        linuxCache := null;
      } else {
        diskCache := null;
        linuxCache := new LinuxCache(f, size, count, m.WriteThrough?);
      }
    }

    // The error of a device that is not ready.
    function ReadyError(): Option<Sense>
      reads this`isReset, this`isAttn, this`isReady
    {
      if isReset then Some(Sense(UnitAttention, PowerOnOrReset))
      else if isAttn then Some(Sense(UnitAttention, NotReadyToReady))
      else if !isReady then Some(Sense(NotReady, MediumNotPresent))
      else None
    }

    predicate Usable()
      reads this`isReset, this`isAttn, this`isReady
    {
      ReadyError().None?
    }

    method Reset()
      modifies this`isReset, this`isAttn
      ensures !isReset && !isAttn
    {
      isReset, isAttn := false, false;
    }

    method CheckReady() returns (e: Option<Sense>)
      modifies this`isReset, this`isAttn
      ensures e == old(ReadyError()) && (e.None? ==> Usable())
      ensures old(isReset) ==> e == Some(Sense(UnitAttention, PowerOnOrReset))
      ensures !old(isReset) && old(isAttn) ==> e == Some(Sense(UnitAttention, NotReadyToReady))
      ensures !old(isReset) && !old(isAttn) ==> e == if isReady then None else Some(Sense(NotReady, MediumNotPresent))
      ensures !isReset && isAttn == (old(isReset) && old(isAttn))
    {
      // Not ready if reset
      if isReset {
        isReset := false;
        return Some(Sense(UnitAttention, PowerOnOrReset));
      }
      // Not ready if it needs attention
      if isAttn {
        isAttn := false;
        return Some(Sense(UnitAttention, NotReadyToReady));
      }
      if !isReady {
        return Some(Sense(NotReady, MediumNotPresent));
      }
      return None;
    }

    method CheckAndGetStartAndCount(cdb: seq<Byte>, access: AccessMode) returns (b: Begin)
      requires |cdb| == 16
      modifies this`isReset, this`isAttn
      ensures b == RangeAnswer(old(ReadyError()), cdb, access, blockCount)
      ensures old(Usable()) ==> Usable()
    {
      var e := CheckReady();
      if e.Some? {
        return Refused(e.value);
      }
      var start, count := StartOf(cdb, access), CountOf(cdb, access);
      // Check capacity
      if blockCount == 0 || (start + count) % LIMIT64 > blockCount {
        return Refused(Sense(IllegalRequest, LbaOutOfRange));
      }
      // Do not process 0 blocks
      if count != 0 || access.SEEK6? || access.SEEK10? {
        return Transfer(start, count);
      }
      return NoTransfer;
    }

    // The number of sectors that each chunk of a transfer carries.
    function ChunkSectors(count: nat): (n: nat)
      ensures n == match mode
                   case LinuxOptimized => count
                   case Piscsi => 1
                   case Linux => 1
                   case WriteThrough => 1
    {
      if mode.LinuxOptimized? then count else 1
    }

    method SetRange(start: nat, count: nat)
      requires Valid()
      modifies this`nextSector, this`sectorTransferCount
      ensures Valid() && nextSector == start && sectorTransferCount == ChunkSectors(count)
    {
      nextSector := start;
      sectorTransferCount := if mode.LinuxOptimized? then count else 1;
    }

    lemma RangeFits(start: nat, count: nat)
      requires Valid() && start + count <= blockCount
      ensures start * blockSize + count * blockSize <= |image|
    {
      assert blockCount * blockSize == start * blockSize + count * blockSize + (blockCount - start - count) * blockSize;
    }

    function Range(bytes: seq<Byte>, start: nat, count: nat): seq<Byte>
      requires start * blockSize + count * blockSize <= |bytes|
    {
      bytes[start * blockSize..start * blockSize + count * blockSize]
    }

    // The next chunk, as a flat image has it. Only an unready device or a failed file access is an error.
    method ReadData() returns (r: Option<seq<Byte>>, sense: Sense)
      requires Valid() && nextSector + sectorTransferCount <= blockCount
      requires mode.LinuxOptimized? || sectorTransferCount == 1
      modifies this`nextSector, this`isReset, this`isAttn, Footprint()
      ensures Valid() && fresh(Footprint() - old(Footprint())) && file.failures >= old(file.failures)
      ensures image == old(image)
      ensures old(Usable()) && file.failures == old(file.failures) ==> r.Some?
      ensures old(Usable()) && r.None? ==> sense == Sense(MediumError, ReadError)
      ensures r.Some? ==>
                && Usable()
                && nextSector == old(nextSector) + sectorTransferCount
                && old(nextSector) * blockSize + sectorTransferCount * blockSize <= |image|
                && r.value == Range(image, old(nextSector), sectorTransferCount)
    {
      sense := Sense(NoSense, NoAdditionalSense);
      var e := CheckReady();
      if e.Some? {
        return None, e.value;
      }
      RangeFits(nextSector, sectorTransferCount);
      r := CacheRead(nextSector, sectorTransferCount);
      if r.None? {
        return None, Sense(MediumError, ReadError);
      }
      nextSector := nextSector + sectorTransferCount;
    }

    // The virtual call of ReadSectors.
    method CacheRead(start: nat, count: nat) returns (r: Option<seq<Byte>>)
      requires Valid() && start + count <= blockCount && (mode.LinuxOptimized? || count == 1)
      modifies Footprint()
      ensures Valid() && fresh(Footprint() - old(Footprint())) && file.failures >= old(file.failures)
      ensures file.failures == old(file.failures) ==> r.Some?
      ensures r.Some? ==> start * blockSize + count * blockSize <= |image| && r.value == Range(image, start, count)
    {
      RangeFits(start, count);
      if mode.Piscsi? {
        r := diskCache.ReadSectors(start, count);
        assert count * blockSize == blockSize;
      } else {
        r := linuxCache.ReadSectors(start, count);
      }
    }

    lemma NothingWritten(bytes: seq<Byte>, offset: nat, data: seq<Byte>)
      requires offset + |data| <= |bytes|
      ensures bytes == WriteAt(bytes, offset, data[..0])
      ensures data[..|data|] == data
    {
    }

    // The virtual call of WriteSectors. A failed write may have stored a part of the data.
    method CacheWrite(data: seq<Byte>, start: nat, count: nat) returns (ok: bool, ghost stored: nat)
      requires Valid() && start + count <= blockCount && (mode.LinuxOptimized? || count == 1)
      requires |data| == count * blockSize && |data| > 0
      modifies this`image, Footprint()
      ensures Valid() && fresh(Footprint() - old(Footprint())) && file.failures >= old(file.failures)
      ensures file.failures == old(file.failures) ==> ok
      ensures stored <= |data| && (ok ==> stored == |data|)
      ensures start * blockSize + |data| <= |old(image)|
      ensures image == WriteAt(old(image), start * blockSize, data[..stored])
      ensures ok && mode.WriteThrough? ==> Saved()
    {
      RangeFits(start, count);
      NothingWritten(image, start * blockSize, data);
      var length;
      if mode.Piscsi? {
        length := diskCache.WriteSectors(data, start, count);
        image := diskCache.image;
        stored := length;
      } else {
        length := linuxCache.WriteSectors(data, start, count);
        image := file.bytes;
        if length == 0 {
          stored :| 0 <= stored <= |data| && file.bytes == WriteAt(old(file.bytes), start * blockSize, data[..stored]);
        } else {
          stored := |data|;
        }
      }
      ok := length != 0;
    }

    // The next chunk goes to the image in its place and nowhere else.
    method WriteData(data: seq<Byte>) returns (e: Option<Sense>, ghost stored: nat)
      requires Valid() && nextSector + sectorTransferCount <= blockCount
      requires mode.LinuxOptimized? || sectorTransferCount == 1
      requires |data| == sectorTransferCount * blockSize && |data| > 0
      modifies this`nextSector, this`isReset, this`isAttn, this`image, Footprint()
      ensures Valid() && fresh(Footprint() - old(Footprint())) && file.failures >= old(file.failures)
      ensures old(Usable()) && file.failures == old(file.failures) ==> e.None?
      ensures old(Usable()) && e.Some? ==> e == Some(Sense(MediumError, WriteFault))
      ensures stored <= |data| && old(nextSector) * blockSize + |data| <= |old(image)|
      ensures image == WriteAt(old(image), old(nextSector) * blockSize, data[..stored])
      ensures e.None? ==> Usable() && stored == |data| && nextSector == old(nextSector) + sectorTransferCount
      ensures e.None? && mode.WriteThrough? ==> Saved()
    {
      RangeFits(nextSector, sectorTransferCount);
      NothingWritten(image, nextSector * blockSize, data);
      stored := 0;
      e := CheckReady();
      if e.Some? {
        return;
      }
      var ok;
      ok, stored := CacheWrite(data, nextSector, sectorTransferCount);
      if !ok {
        e := Some(Sense(MediumError, WriteFault));
        return;
      }
      nextSector := nextSector + sectorTransferCount;
    }

    // Flushing never changes the image; the result of the flush is ignored.
    method FlushCache()
      requires Valid()
      modifies Footprint()
      ensures Valid() && fresh(Footprint() - old(Footprint())) && file.failures >= old(file.failures)
      ensures file.failures == old(file.failures) ==> Saved()
      ensures old(Saved()) && mode.WriteThrough? ==> Saved()
    {
      if mode.Piscsi? {
        var ok := diskCache.Flush();
      } else {
        var ok := linuxCache.Flush();
      }
    }
  }
}
